/**
  The state machine that moves one workspace from tofu to magma.  `Step` is total;
  a run is any list of events folded from `Pinned`.  Counters are u32 and wrap as in
  a release build.
*/
module ExecutorMigration {
  import opened Prelude

  const U32_MAX: nat := 0xFFFF_FFFF

  datatype Phase = Pinned | Shadow | Held | Cutover | Verified | RolledBack
  datatype Executor = Tofu | Magma
  datatype Parity = CleanParity | Diverged
  datatype AnomalyKind = ApplyFailed | DriftRefused | DriftRequiresApproval | ErrorBudgetBreach
  datatype Cycle = CleanCycle | Anomaly(kind: AnomalyKind)
  datatype AbortReason = Manual | BudgetBreach
  datatype RollbackReason = ByAnomaly(anomaly: AnomalyKind) | ByAbort(abort: AbortReason)

  datatype Event =
    | Enroll
    | ParityResult(parity: Parity)
    | CutoverApproved
    | MagmaCycle(cycle: Cycle)
    | Abort(reason: AbortReason)
    | Acknowledge

  datatype Policy = Policy(
    parityThreshold: nat,
    verifyCycles: nat,
    autoCutover: bool,
    divergenceBudget: nat,
    lifeline: bool)

  /** The policy's counters are u32. */
  predicate Fits(p: Policy) {
    p.parityThreshold <= U32_MAX && p.verifyCycles <= U32_MAX && p.divergenceBudget <= U32_MAX
  }

  function EffectiveBudget(p: Policy): nat { if p.lifeline then 0 else p.divergenceBudget }

  predicate MayAutoCutover(p: Policy) { p.autoCutover && !p.lifeline }

  datatype State = State(
    phase: Phase,
    parityStreak: nat,
    divergenceCount: nat,
    verifiedCycles: nat,
    rolledBackReason: Option<RollbackReason>)

  const PINNED := State(Pinned, 0, 0, 0, None)

  function RolledBackFor(r: RollbackReason): State { State(RolledBack, 0, 0, 0, Some(r)) }

  datatype AlertText = AbortedAlert | BudgetExceededAlert | CycleAnomalyAlert | PostVerificationAlert

  datatype Effect =
    | SetAuthoritative(executor: Executor)
    | RunShadowParity
    | EmitParityReceipt
    | RequestCutoverApproval
    | EmitAnomaly(kind: AnomalyKind)
    | Alert(alert: AlertText)
    | RecordVerified

  datatype Transition = To(next: State, effects: seq<Effect>)

  function Authoritative(p: Phase): Executor { if p.Cutover? || p.Verified? then Magma else Tofu }

  function Inc(n: nat): nat { if n >= U32_MAX then 0 else n + 1 }

  function Stay(s: State): Transition { To(s, []) }

  function OnAbort(s: State, reason: AbortReason): Transition {
    match s.phase
    case Pinned | Shadow | Held => To(PINNED, [SetAuthoritative(Tofu)])
    case Cutover | Verified =>
      To(RolledBackFor(ByAbort(reason)),
         [SetAuthoritative(Tofu), Alert(AbortedAlert)])
    case RolledBack => Stay(s)
  }

  function OnShadow(s: State, parity: Parity, p: Policy): Transition {
    match parity
    case CleanParity =>
      var streak := Inc(s.parityStreak);
      if streak >= p.parityThreshold then
        if MayAutoCutover(p) then
          To(s.(phase := Cutover, verifiedCycles := 0), [EmitParityReceipt, SetAuthoritative(Magma)])
        else
          To(s.(phase := Held, parityStreak := streak), [EmitParityReceipt, RequestCutoverApproval])
      else
        To(s.(parityStreak := streak), [EmitParityReceipt])
    case Diverged =>
      var divergences := Inc(s.divergenceCount);
      if divergences > EffectiveBudget(p) then
        To(PINNED,
           [EmitAnomaly(ApplyFailed), Alert(BudgetExceededAlert), SetAuthoritative(Tofu)])
      else
        To(s.(parityStreak := 0, divergenceCount := divergences), [EmitParityReceipt])
  }

  function OnCutover(s: State, cycle: Cycle, p: Policy): Transition {
    match cycle
    case CleanCycle =>
      var verified := Inc(s.verifiedCycles);
      if verified >= p.verifyCycles then To(s.(phase := Verified, verifiedCycles := verified), [RecordVerified])
      else To(s.(verifiedCycles := verified), [])
    case Anomaly(kind) =>
      To(RolledBackFor(ByAnomaly(kind)),
         [SetAuthoritative(Tofu), EmitAnomaly(kind), Alert(CycleAnomalyAlert)])
  }

  function Step(s: State, e: Event, p: Policy): Transition {
    if e.Abort? then OnAbort(s, e.reason)
    else match (s.phase, e)
      case (Pinned, Enroll) => To(PINNED.(phase := Shadow), [SetAuthoritative(Tofu), RunShadowParity])
      case (Shadow, ParityResult(r)) => OnShadow(s, r, p)
      case (Held, CutoverApproved) => To(s.(phase := Cutover, verifiedCycles := 0), [SetAuthoritative(Magma)])
      case (Held, ParityResult(Diverged)) =>
        To(s.(phase := Shadow, parityStreak := 0, divergenceCount := Inc(s.divergenceCount)),
           [EmitAnomaly(ApplyFailed), RunShadowParity])
      case (Cutover, MagmaCycle(r)) => OnCutover(s, r, p)
      case (Verified, MagmaCycle(Anomaly(kind))) =>
        To(RolledBackFor(ByAnomaly(kind)),
           [SetAuthoritative(Tofu), EmitAnomaly(kind), Alert(PostVerificationAlert)])
      case (RolledBack, Acknowledge) => To(PINNED, [SetAuthoritative(Tofu)])
      case _ => Stay(s)
  }

  // ----- runs ---------------------------------------------------------------------

  ghost predicate Follows(p: Policy, s: State, e: Event, s': State) { s' == Step(s, e, p).next }

  /** `ss` is the run of the machine from `Pinned` over the events `es`: `ss[i]` is the state after `i` events. */
  ghost predicate Run(p: Policy, es: seq<Event>, ss: seq<State>) {
    && |ss| == |es| + 1
    && ss[0] == PINNED
    && forall i :: 0 <= i < |es| ==> Follows(p, ss[i], es[i], ss[i + 1])
  }

  /** The executor the effects leave authoritative. */
  function LastSet(fx: seq<Effect>, before: Executor): Executor {
    if fx == [] then before
    else if fx[|fx| - 1].SetAuthoritative? then fx[|fx| - 1].executor
    else LastSet(fx[..|fx| - 1], before)
  }

  /** The executor last made authoritative by the effects of the first `i` events, tofu if none. */
  function Announced(p: Policy, es: seq<Event>, ss: seq<State>, i: nat): Executor
    requires i <= |es| < |ss|
  {
    if i == 0 then Tofu
    else LastSet(Step(ss[i - 1], es[i - 1], p).effects, Announced(p, es, ss, i - 1))
  }

  /** How many of the events `lo..hi` equal `e`. */
  function Count(es: seq<Event>, e: Event, lo: nat, hi: nat): nat
    requires lo <= hi <= |es|
  {
    if lo == hi then 0 else Count(es, e, lo, hi - 1) + if es[hi - 1] == e then 1 else 0
  }

  ghost predicate Lacks(es: seq<Event>, e: Event, lo: nat, hi: nat)
    requires hi <= |es|
  {
    forall i :: lo <= i < hi ==> es[i] != e
  }

  function Max(a: nat, b: nat): nat { if a < b then b else a }

  const CLEAN := ParityResult(CleanParity)
  const DIVERGED := ParityResult(Diverged)
  const CLEAN_CYCLE := MagmaCycle(CleanCycle)

  predicate EndsMagma(e: Event) { e.Abort? || (e.MagmaCycle? && e.cycle.Anomaly?) }

  // ----- every run --------------------------------------------------------------------

  lemma LastSetOfShort(fx: seq<Effect>, before: Executor)
    requires |fx| <= 3
    ensures LastSet(fx, before) ==
            if |fx| >= 3 && fx[2].SetAuthoritative? then fx[2].executor
            else if |fx| >= 2 && fx[1].SetAuthoritative? then fx[1].executor
            else if |fx| >= 1 && fx[0].SetAuthoritative? then fx[0].executor
            else before
  {
    if |fx| == 3 { LastSetOfShort(fx[..2], before); }
    if |fx| == 2 { LastSetOfShort(fx[..1], before); }
  }

  lemma StepAnnounces(p: Policy, s: State, e: Event)
    requires s.rolledBackReason.Some? <==> s.phase == RolledBack
    ensures var t := Step(s, e, p);
            LastSet(t.effects, Authoritative(s.phase)) == Authoritative(t.next.phase)
    ensures var s' := Step(s, e, p).next;
            s'.rolledBackReason.Some? <==> s'.phase == RolledBack
  {
    var fx := Step(s, e, p).effects;
    assert |fx| <= 3;
    LastSetOfShort(fx, Authoritative(s.phase));
  }

  /** The effects never disagree with the phase about who runs the workspace, and a rollback
      reason is recorded exactly while rolled back. */
  lemma {:induction false} EffectsFollowPhase(p: Policy, es: seq<Event>, ss: seq<State>, i: nat)
    requires Run(p, es, ss) && i <= |es|
    ensures Announced(p, es, ss, i) == Authoritative(ss[i].phase)
    ensures ss[i].rolledBackReason.Some? <==> ss[i].phase == RolledBack
  {
    hide Step;
    if i > 0 {
      EffectsFollowPhase(p, es, ss, i - 1);
      StepAnnounces(p, ss[i - 1], es[i - 1]);
      assert Follows(p, ss[i - 1], es[i - 1], ss[i]);
    }
  }

  /** Why the run is where it is after `i` events: it was enrolled at `enrolled`, saw no divergence from
      `quiet` on, and handed over to magma at `cut`. */
  datatype History = History(enrolled: nat, quiet: nat, cut: nat)

  /** Soaking: enrolled at `h.enrolled`, since then tofu in Shadow or Held without an abort, no divergence since
      `h.quiet`. */
  ghost predicate Soaking(es: seq<Event>, ss: seq<State>, i: nat, h: History)
    requires i <= |es| < |ss|
  {
    && h.enrolled < h.quiet <= i
    && es[h.enrolled] == Enroll && ss[h.enrolled].phase == Pinned
    && (forall j :: h.enrolled < j <= i ==> ss[j].phase == Shadow || ss[j].phase == Held)
    && (forall j :: h.enrolled < j < i ==> !es[j].Abort?)
    && Lacks(es, DIVERGED, h.quiet, i)
  }

  /** Handed over at `h.cut`, after enough clean parity results; by approval while Held for a lifeline. */
  ghost predicate HandedOver(p: Policy, es: seq<Event>, ss: seq<State>, i: nat, h: History)
    requires i <= |es| < |ss|
  {
    && h.cut < i
    && Soaking(es, ss, h.cut, h)
    && es[h.cut] != DIVERGED && !es[h.cut].Abort?
    && Count(es, CLEAN, h.quiet, h.cut + 1) >= Max(1, p.parityThreshold)
    && (p.lifeline ==> es[h.cut] == CutoverApproved && ss[h.cut].phase == Held)
    && (forall j :: h.cut < j <= i ==> ss[j].phase == Cutover || ss[j].phase == Verified)
    && (forall j :: h.cut < j < i ==> !EndsMagma(es[j]))
  }

  ghost predicate Explained(p: Policy, es: seq<Event>, ss: seq<State>, i: nat, h: History)
    requires i <= |es| < |ss|
  {
    match ss[i].phase
    case Shadow =>
      && Soaking(es, ss, i, h)
      && ss[i].parityStreak == Count(es, CLEAN, h.quiet, i)
      && ss[i].parityStreak < Max(1, p.parityThreshold)
    case Held =>
      && Soaking(es, ss, i, h)
      && Count(es, CLEAN, h.quiet, i) >= Max(1, p.parityThreshold)
    case Cutover =>
      && HandedOver(p, es, ss, i, h)
      && ss[i].verifiedCycles == Count(es, CLEAN_CYCLE, h.cut + 1, i)
      && ss[i].verifiedCycles < Max(1, p.verifyCycles)
    case Verified =>
      && HandedOver(p, es, ss, i, h)
      && Count(es, CLEAN_CYCLE, h.cut + 1, i) >= Max(1, p.verifyCycles)
    case _ => true
  }

  lemma ExplainDiverged(p: Policy, es: seq<Event>, ss: seq<State>, i: nat, h: History)
    requires Fits(p) && Run(p, es, ss) && i < |es| && es[i] == DIVERGED
    requires (ss[i].phase == Shadow || ss[i].phase == Held) && Soaking(es, ss, i, h)
    ensures Explained(p, es, ss, i + 1, h.(quiet := i + 1))
  {
    assert Follows(p, ss[i], es[i], ss[i + 1]);
  }

  lemma ExplainSoak(p: Policy, es: seq<Event>, ss: seq<State>, i: nat, h: History)
    requires Fits(p) && Run(p, es, ss) && i < |es| && es[i] != DIVERGED
    requires (ss[i].phase == Shadow || ss[i].phase == Held) && Explained(p, es, ss, i, h)
    ensures Explained(p, es, ss, i + 1, h.(cut := i))
  {
    var h' := h.(cut := i);
    assert Follows(p, ss[i], es[i], ss[i + 1]);
    assert Count(es, CLEAN, h.quiet, i + 1) == Count(es, CLEAN, h.quiet, i) + if es[i] == CLEAN then 1 else 0;
    assert Soaking(es, ss, i, h');
  }

  lemma ExplainTofu(p: Policy, es: seq<Event>, ss: seq<State>, i: nat, h: History) returns (h': History)
    requires Fits(p) && Run(p, es, ss) && i < |es|
    requires (ss[i].phase == Shadow || ss[i].phase == Held) && Explained(p, es, ss, i, h)
    ensures Explained(p, es, ss, i + 1, h')
  {
    hide Run, Count, Soaking;
    if es[i] == DIVERGED {
      h' := h.(quiet := i + 1);
      ExplainDiverged(p, es, ss, i, h);
    } else {
      h' := h.(cut := i);
      ExplainSoak(p, es, ss, i, h);
    }
  }

  lemma ExplainMagma(p: Policy, es: seq<Event>, ss: seq<State>, i: nat, h: History)
    requires Fits(p) && Run(p, es, ss) && i < |es|
    requires (ss[i].phase == Cutover || ss[i].phase == Verified) && Explained(p, es, ss, i, h)
    ensures Explained(p, es, ss, i + 1, h)
  {
    assert Follows(p, ss[i], es[i], ss[i + 1]);
    assert Count(es, CLEAN_CYCLE, h.cut + 1, i + 1) ==
           Count(es, CLEAN_CYCLE, h.cut + 1, i) + if es[i] == CLEAN_CYCLE then 1 else 0;
    assert ss[i + 1].phase == Cutover || ss[i + 1].phase == Verified ==> !EndsMagma(es[i]);
  }

  lemma ExplainRest(p: Policy, es: seq<Event>, ss: seq<State>, i: nat)
    requires Run(p, es, ss) && i < |es|
    requires ss[i].phase == Pinned || ss[i].phase == RolledBack
    ensures Explained(p, es, ss, i + 1, History(i, i + 1, i + 1))
  {
    var s' := ss[i + 1];
    assert Follows(p, ss[i], es[i], s');
    assert s'.phase == Pinned || s'.phase == RolledBack ||
        (s'.phase == Shadow && es[i] == Enroll && ss[i].phase == Pinned);
  }

  lemma ExplainStart(p: Policy, es: seq<Event>, ss: seq<State>)
    requires Run(p, es, ss)
    ensures Explained(p, es, ss, 0, History(0, 0, 0))
  {
  }

  /** Every point of every run is explained by its history. */
  lemma {:induction false} EveryRunIsExplained(p: Policy, es: seq<Event>, ss: seq<State>, i: nat) returns (h: History)
    requires Fits(p) && Run(p, es, ss) && i <= |es|
    ensures Explained(p, es, ss, i, h)
  {
    hide Step, Explained, Count;
    if i == 0 {
      h := History(0, 0, 0);
      ExplainStart(p, es, ss);
    } else {
      h := EveryRunIsExplained(p, es, ss, i - 1);
      match ss[i - 1].phase {
        case Shadow | Held => h := ExplainTofu(p, es, ss, i - 1, h);
        case Cutover | Verified => ExplainMagma(p, es, ss, i - 1, h);
        case Pinned | RolledBack =>
          ExplainRest(p, es, ss, i - 1);
          h := History(i - 1, i, i);
      }
    }
  }

  /** Magma is authoritative only after the soak the policy asks for, and stays so only without anomaly. */
  lemma MagmaIsEarned(p: Policy, es: seq<Event>, ss: seq<State>, i: nat) returns (h: History)
    requires Fits(p) && Run(p, es, ss) && i <= |es| && Authoritative(ss[i].phase) == Magma
    ensures HandedOver(p, es, ss, i, h)
    ensures ss[i].phase == Verified ==> Count(es, CLEAN_CYCLE, h.cut + 1, i) >= Max(1, p.verifyCycles)
  {
    h := EveryRunIsExplained(p, es, ss, i);
  }

  /** The streak and the verified counter never sit at the u32 limit when they are about to grow. */
  lemma SoakCountersNeverOverflow(p: Policy, es: seq<Event>, ss: seq<State>, i: nat)
    requires Fits(p) && Run(p, es, ss) && i <= |es|
    ensures ss[i].phase == Shadow ==> ss[i].parityStreak < U32_MAX
    ensures ss[i].phase == Cutover ==> ss[i].verifiedCycles < U32_MAX
  {
    var h := EveryRunIsExplained(p, es, ss, i);
  }

  // ----- the divergence counter, and what a lifeline divergence does ----------------------------

  /** Taking `e` in `s` would increment a full u32 divergence counter. */
  predicate DivergenceOverflows(s: State, e: Event) {
    e == DIVERGED && (s.phase == Shadow || s.phase == Held) && s.divergenceCount == U32_MAX
  }

  lemma Extend(p: Policy, es: seq<Event>, ss: seq<State>, e: Event) returns (es': seq<Event>, ss': seq<State>)
    requires Run(p, es, ss)
    ensures Run(p, es', ss') && es' == es + [e] && ss' == ss + [Step(ss[|es|], e, p).next]
  {
    es', ss' := es + [e], ss + [Step(ss[|es|], e, p).next];
    forall i | 0 <= i < |es'| ensures Follows(p, ss'[i], es'[i], ss'[i + 1]) {
      if i < |es| { assert Follows(p, ss[i], es[i], ss[i + 1]); }
    }
  }

  /** Without automatic cut-over, clean parity results take a soaking run to Held. */
  lemma {:induction false} SoakToHeld(p: Policy, es: seq<Event>, ss: seq<State>)
      returns (es': seq<Event>, ss': seq<State>)
    requires Fits(p) && !MayAutoCutover(p) && Run(p, es, ss)
    requires ss[|es|].phase == Shadow && ss[|es|].parityStreak < Max(1, p.parityThreshold)
    ensures Run(p, es', ss') && es <= es' && ss <= ss'
    ensures ss'[|es'|].phase == Held && ss'[|es'|].divergenceCount == ss[|es|].divergenceCount
    ensures forall j :: |es| <= j < |es'| ==> ss'[j].phase == Shadow && es'[j] == CLEAN
    decreases Max(1, p.parityThreshold) - ss[|es|].parityStreak
  {
    es', ss' := Extend(p, es, ss, CLEAN);
    if ss'[|es'|].phase == Shadow {
      es', ss' := SoakToHeld(p, es', ss');
    }
  }

  lemma EnrollOnly(p: Policy) returns (es: seq<Event>, ss: seq<State>)
    ensures Run(p, es, ss) && es == [Enroll] && ss == [PINNED, PINNED.(phase := Shadow)]
  {
    es, ss := Extend(p, [], [PINNED], Enroll);
  }

  /** Held divergences are never checked against the budget, so any count can be reached. */
  lemma {:induction false} HeldWithCount(p: Policy, c: nat) returns (es: seq<Event>, ss: seq<State>)
    requires Fits(p) && !MayAutoCutover(p) && c <= U32_MAX
    ensures Run(p, es, ss) && ss[|es|].phase == Held && ss[|es|].divergenceCount == c
  {
    if c == 0 {
      es, ss := EnrollOnly(p);
    } else {
      es, ss := HeldWithCount(p, c - 1);
      es, ss := Extend(p, es, ss, DIVERGED);
    }
    es, ss := SoakToHeld(p, es, ss);
  }

  lemma {:induction false} ShadowWithCount(p: Policy, c: nat) returns (es: seq<Event>, ss: seq<State>)
    requires Fits(p) && !p.lifeline && c <= p.divergenceBudget
    ensures Run(p, es, ss) && ss[|es|].phase == Shadow && ss[|es|].divergenceCount == c
  {
    if c == 0 {
      es, ss := EnrollOnly(p);
    } else {
      es, ss := ShadowWithCount(p, c - 1);
      es, ss := Extend(p, es, ss, DIVERGED);
    }
  }

  lemma {:induction false} AutoStaysInBudget(p: Policy, es: seq<Event>, ss: seq<State>, i: nat)
    requires Fits(p) && MayAutoCutover(p) && p.divergenceBudget < U32_MAX && Run(p, es, ss) && i <= |es|
    ensures ss[i].phase != Held && ss[i].divergenceCount <= p.divergenceBudget
  {
    if i > 0 {
      AutoStaysInBudget(p, es, ss, i - 1);
      assert Follows(p, ss[i - 1], es[i - 1], ss[i]);
    }
  }

  /** Some run overflows the divergence counter exactly when cut-over is not automatic, or the budget is all of u32. */
  lemma DivergenceOverflowExactly(p: Policy)
    requires Fits(p)
    ensures (exists es, ss, i :: Run(p, es, ss) && 0 <= i < |es| && DivergenceOverflows(ss[i], es[i]))
       <==> (!MayAutoCutover(p) || p.divergenceBudget == U32_MAX)
  {
    if !MayAutoCutover(p) || p.divergenceBudget == U32_MAX {
      var es, ss;
      if !MayAutoCutover(p) { es, ss := HeldWithCount(p, U32_MAX); } else { es, ss := ShadowWithCount(p, U32_MAX); }
      var es', ss' := Extend(p, es, ss, DIVERGED);
      assert DivergenceOverflows(ss'[|es|], es'[|es|]);
    } else {
      forall es, ss, i | Run(p, es, ss) && 0 <= i < |es| ensures !DivergenceOverflows(ss[i], es[i]) {
        AutoStaysInBudget(p, es, ss, i);
      }
    }
  }

  /** A lifeline workspace is promised that one divergence pins it.  That holds exactly in Shadow, short of a full
      counter: in Held it goes back to soaking instead. */
  lemma LifelineDivergencePinsExactly(p: Policy, s: State)
    requires p.lifeline && s.phase != Pinned
    ensures Step(s, DIVERGED, p).next.phase == Pinned <==> s.phase == Shadow && s.divergenceCount < U32_MAX
  {
  }

  /** Without a divergence since enrolment the counter is where enrolment put it. */
  lemma {:induction false} NoDivergenceNoCount(p: Policy, es: seq<Event>, ss: seq<State>, e: nat, k: nat)
    requires Run(p, es, ss) && e < k <= |es| && ss[e].phase == Pinned && es[e] == Enroll
    requires forall j :: e < j <= k ==> ss[j].phase == Shadow || ss[j].phase == Held
    requires Lacks(es, DIVERGED, e + 1, k)
    ensures ss[k].divergenceCount == 0
  {
    assert Follows(p, ss[k - 1], es[k - 1], ss[k]);
    if k > e + 1 { NoDivergenceNoCount(p, es, ss, e, k - 1); }
  }

  lemma {:induction false} FirstDivergence(es: seq<Event>, lo: nat, hi: nat) returns (j: nat)
    requires lo <= hi <= |es| && !Lacks(es, DIVERGED, lo, hi)
    ensures lo <= j < hi && es[j] == DIVERGED && Lacks(es, DIVERGED, lo, j)
    decreases hi - lo
  {
    if es[lo] == DIVERGED { j := lo; } else { j := FirstDivergence(es, lo + 1, hi); }
  }

  /** Over whole runs: the enrolment that brought a lifeline to magma was free of divergences exactly when none was
      taken in Held, since the first one taken in Shadow would have pinned it. */
  lemma LifelineCleanExactly(p: Policy, es: seq<Event>, ss: seq<State>, i: nat) returns (h: History)
    requires Fits(p) && p.lifeline && Run(p, es, ss) && i <= |es| && Authoritative(ss[i].phase) == Magma
    ensures HandedOver(p, es, ss, i, h)
    ensures Lacks(es, DIVERGED, h.enrolled + 1, h.cut) <==>
            forall j :: h.enrolled < j < h.cut && ss[j].phase == Held ==> es[j] != DIVERGED
  {
    h := MagmaIsEarned(p, es, ss, i);
    if !Lacks(es, DIVERGED, h.enrolled + 1, h.cut) {
      var j := FirstDivergence(es, h.enrolled + 1, h.cut);
      NoDivergenceNoCount(p, es, ss, h.enrolled, j);
      assert Follows(p, ss[j], es[j], ss[j + 1]);
      LifelineDivergencePinsExactly(p, ss[j]);
      hide Step, Count;
    }
  }

  /** So a lifeline can reach magma in one enrolment that did see a divergence. */
  lemma LifelineReachesMagmaAfterDivergence(p: Policy) returns (es: seq<Event>, ss: seq<State>, k: nat)
    requires Fits(p) && p.lifeline
    ensures Run(p, es, ss) && ss[|es|].phase == Cutover
    ensures 0 < k < |es| && es[0] == Enroll && es[k] == DIVERGED
    ensures forall j :: 0 < j < |es| ==> ss[j].phase == Shadow || ss[j].phase == Held
  {
    es, ss := EnrollOnly(p);
    es, ss := SoakToHeld(p, es, ss);
    k := |es|;
    es, ss := Extend(p, es, ss, DIVERGED);
    es, ss := SoakToHeld(p, es, ss);
    es, ss := Extend(p, es, ss, CutoverApproved);
  }

  // ----- what single events do --------------------------------------------------------------------------

  /** An abort ends whatever is under way: before magma took over the workspace is exactly Pinned again, with tofu
      announced; after, it is rolled back for that reason; and a rolled-back workspace is left alone. */
  lemma AbortExactly(p: Policy, s: State, reason: AbortReason)
    ensures var t := Step(s, Abort(reason), p);
            && (s.phase in {Pinned, Shadow, Held} ==>
                  t.next == State(Pinned, 0, 0, 0, None) && SetAuthoritative(Tofu) in t.effects)
            && (s.phase in {Cutover, Verified} ==>
                  && t.next == State(RolledBack, 0, 0, 0, Some(ByAbort(reason)))
                  && SetAuthoritative(Tofu) in t.effects && exists a :: Alert(a) in t.effects)
            && (s.phase == RolledBack ==> t.next == s && t.effects == [])
  {
    if s.phase in {Cutover, Verified} { assert Alert(AbortedAlert) in Step(s, Abort(reason), p).effects; }
  }

  /** Acknowledge, and nothing else, leaves RolledBack, for a fresh Pinned. */
  lemma OnlyAcknowledgeLeavesRolledBack(p: Policy, s: State, e: Event)
    requires s.phase == RolledBack
    ensures e == Acknowledge ==> Step(s, e, p).next == State(Pinned, 0, 0, 0, None)
    ensures e != Acknowledge ==> Step(s, e, p).next == s && Step(s, e, p).effects == []
  {
  }

  /** Magma loses the workspace exactly by an abort or an anomaly, and the reason is kept. */
  lemma MagmaEndsExactly(p: Policy, s: State, e: Event)
    requires s.phase in {Cutover, Verified}
    ensures var next := Step(s, e, p).next;
            && (next.phase in {Cutover, Verified} <==> !e.Abort? && !(e.MagmaCycle? && e.cycle.Anomaly?))
            && (e.MagmaCycle? && e.cycle.Anomaly? ==>
                  next == State(RolledBack, 0, 0, 0, Some(ByAnomaly(e.cycle.kind))))
            && (s.phase == Verified && next.phase in {Cutover, Verified} ==> next == s)
  {
  }

  /** A divergence in Shadow pins exactly when the count it makes is over the budget, which for a lifeline is zero. */
  lemma DivergencePinsExactly(p: Policy, s: State)
    requires s.phase == Shadow && s.divergenceCount < U32_MAX
    ensures var next := Step(s, DIVERGED, p).next;
            if s.divergenceCount + 1 > (if p.lifeline then 0 else p.divergenceBudget)
            then next == State(Pinned, 0, 0, 0, None)
            else next == s.(parityStreak := 0, divergenceCount := s.divergenceCount + 1)
  {
  }

  /** Every effect is tied to a change of phase: approval is asked for on entering Held, verification recorded on
      entering Verified, shadow parity started on entering Shadow from elsewhere, a parity receipt written for every
      parity result that leaves the soak going, and the executor of the new phase announced on every way to Pinned, on
      enrolment, on the hand-over and on a rollback. */
  lemma EffectsExactly(p: Policy, s: State, e: Event)
    ensures var t := Step(s, e, p); var from, to_, fx := s.phase, t.next.phase, t.effects;
            && (RequestCutoverApproval in fx <==> from == Shadow && to_ == Held)
            && (RecordVerified in fx <==> from == Cutover && to_ == Verified)
            && (RunShadowParity in fx <==> from != Shadow && to_ == Shadow)
            && (EmitParityReceipt in fx <==> from == Shadow && e.ParityResult? && to_ != Pinned)
            && (forall x :: SetAuthoritative(x) in fx ==> x == Authoritative(to_))
            && (SetAuthoritative(Authoritative(to_)) in fx <==>
                  || (to_ == Pinned && (from != Pinned || e.Abort?))
                  || (from == Pinned && to_ == Shadow)
                  || (from != Cutover && to_ == Cutover)
                  || (from != RolledBack && to_ == RolledBack))
  {
    var fx := Step(s, e, p).effects;
    assert forall i :: 0 <= i < |fx| ==> fx[i] in fx;
  }

  /** What every step does to the counters, none of them full: handing over keeps them and starts the verified ones
      anew, a clean result or cycle adds one, a divergence that goes on soaking clears the streak and is counted, and a
      step that does none of these either leaves the state alone or ends in one of the two fresh ones. */
  lemma CountersExactly(p: Policy, s: State, e: Event)
    requires s.parityStreak < U32_MAX && s.divergenceCount < U32_MAX && s.verifiedCycles < U32_MAX
    ensures var next := Step(s, e, p).next;
            if Authoritative(s.phase) == Tofu && Authoritative(next.phase) == Magma
            then next == s.(phase := Cutover, verifiedCycles := 0)
            else if s.phase == Shadow && e == CLEAN
            then next == s.(phase := next.phase, parityStreak := s.parityStreak + 1)
            else if e == DIVERGED && (s.phase == Shadow || s.phase == Held) && next.phase == Shadow
            then next == s.(phase := Shadow, parityStreak := 0, divergenceCount := s.divergenceCount + 1)
            else if s.phase == Cutover && e == CLEAN_CYCLE
            then next == s.(phase := next.phase, verifiedCycles := s.verifiedCycles + 1)
            else || next == s
                 || (next.parityStreak == next.divergenceCount == next.verifiedCycles == 0 &&
                     next.phase in {Pinned, Shadow, RolledBack})
  {
  }

  /** A workspace that has handed over is alerted about, in so many words, whenever it rolls back; before that, only a
      blown divergence budget raises an alert. */
  lemma AlertsExactly(p: Policy, s: State, e: Event, a: AlertText)
    ensures var t := Step(s, e, p);
            Alert(a) in t.effects <==>
              match a
              case AbortedAlert => e.Abort? && (s.phase == Cutover || s.phase == Verified)
              case BudgetExceededAlert => s.phase == Shadow && e == DIVERGED && t.next.phase == Pinned
              case CycleAnomalyAlert => s.phase == Cutover && e.MagmaCycle? && e.cycle.Anomaly?
              case PostVerificationAlert => s.phase == Verified && e.MagmaCycle? && e.cycle.Anomaly?
  {
    var fx := Step(s, e, p).effects;
    assert forall i :: 0 <= i < |fx| ==> fx[i] in fx;
  }

  /** An anomaly is emitted for every anomalous cycle that magma runs, under its own kind, and as a failed apply for a
      divergence that ends a soak or an approval pending. */
  lemma AnomaliesExactly(p: Policy, s: State, e: Event, kind: AnomalyKind)
    ensures var t := Step(s, e, p);
            EmitAnomaly(kind) in t.effects <==>
              || ((s.phase == Cutover || s.phase == Verified) && e == MagmaCycle(Anomaly(kind)))
              || (kind == ApplyFailed && e == DIVERGED && s.phase == Held)
              || (kind == ApplyFailed && e == DIVERGED && s.phase == Shadow && t.next.phase == Pinned)
  {
    var fx := Step(s, e, p).effects;
    assert forall i :: 0 <= i < |fx| ==> fx[i] in fx;
  }

  // ----- a workspace without trouble gets there ------------------------------------------------------------

  /** The state after a list of events. */
  function After(p: Policy, s: State, es: seq<Event>): State {
    if es == [] then s else Step(After(p, s, es[..|es| - 1]), es[|es| - 1], p).next
  }

  function Repeat(e: Event, n: nat): (r: seq<Event>)
    ensures |r| == n && forall i :: 0 <= i < n ==> r[i] == e
  {
    seq(n, _ => e)
  }

  lemma AfterOne(p: Policy, s: State, es: seq<Event>, e: Event)
    ensures After(p, s, es + [e]) == Step(After(p, s, es), e, p).next
  {
    hide Step;
    assert (es + [e])[..|es + [e]| - 1] == es;
  }

  lemma {:induction false} AfterClean(p: Policy, k: nat)
    requires Fits(p) && k <= Max(1, p.parityThreshold)
    ensures var s := After(p, PINNED, [Enroll] + Repeat(CLEAN, k));
            && (k < Max(1, p.parityThreshold) ==> s == State(Shadow, k, 0, 0, None))
            && (k == Max(1, p.parityThreshold) ==>
                  s.phase == (if p.autoCutover && !p.lifeline then Cutover else Held) && s.verifiedCycles == 0)
  {
    hide After;
    if k == 0 {
      assert [Enroll] + Repeat(CLEAN, 0) == [] + [Enroll];
      AfterNothing(p);
      AfterOne(p, PINNED, [], Enroll);
    } else {
      var es := [Enroll] + Repeat(CLEAN, k - 1);
      AfterClean(p, k - 1);
      assert [Enroll] + Repeat(CLEAN, k) == es + [CLEAN];
      AfterOne(p, PINNED, es, CLEAN);
    }
  }

  lemma AfterNothing(p: Policy)
    ensures After(p, PINNED, []) == PINNED
  {
  }

  lemma {:induction false} AfterCycles(p: Policy, es: seq<Event>, k: nat)
    requires Fits(p) && k <= Max(1, p.verifyCycles)
    requires After(p, PINNED, es).phase == Cutover && After(p, PINNED, es).verifiedCycles == 0
    ensures var s := After(p, PINNED, es + Repeat(CLEAN_CYCLE, k));
            if k < Max(1, p.verifyCycles) then s.phase == Cutover && s.verifiedCycles == k else s.phase == Verified
  {
    hide After;
    if k == 0 {
      assert es + Repeat(CLEAN_CYCLE, 0) == es;
    } else {
      AfterCycles(p, es, k - 1);
      assert es + Repeat(CLEAN_CYCLE, k) == es + Repeat(CLEAN_CYCLE, k - 1) + [CLEAN_CYCLE];
      AfterOne(p, PINNED, es + Repeat(CLEAN_CYCLE, k - 1), CLEAN_CYCLE);
    }
  }

  /** After enrolment, exactly max(1, parity threshold) clean results bring an automatic policy to Cutover and any other
      to Held, from where one approval does; exactly max(1, verify cycles) clean cycles then bring it to Verified. */
  lemma CleanRunGetsThere(p: Policy, n: nat, m: nat)
    requires Fits(p) && n <= Max(1, p.parityThreshold) && m <= Max(1, p.verifyCycles)
    ensures var auto := p.autoCutover && !p.lifeline;
            var soak := [Enroll] + Repeat(CLEAN, n);
            var approved := if auto then soak else soak + [CutoverApproved];
            && (n < Max(1, p.parityThreshold) ==> After(p, PINNED, soak).phase == Shadow)
            && (n == Max(1, p.parityThreshold) ==>
                  && After(p, PINNED, soak).phase == (if auto then Cutover else Held)
                  && After(p, PINNED, approved).phase == Cutover
                  && After(p, PINNED, approved + Repeat(CLEAN_CYCLE, m)).phase ==
                     if m < Max(1, p.verifyCycles) then Cutover else Verified)
  {
    var soak := [Enroll] + Repeat(CLEAN, n);
    AfterClean(p, n);
    AfterOne(p, PINNED, soak, CutoverApproved);
    hide After;
    if n == Max(1, p.parityThreshold) {
      AfterCycles(p, if p.autoCutover && !p.lifeline then soak else soak + [CutoverApproved], m);
    }
  }
}
