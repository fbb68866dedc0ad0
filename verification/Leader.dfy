/**
  Lease-based leader election as a protocol.  Several pods share one Lease record
  guarded by a version (compare-and-set); one clock advances at will; every pod
  runs ticks whose sub-steps (read the clock, read the Lease, send the write, the
  write landing at the server, the reply arriving or being lost) interleave freely.
  A write whose sender has given up, or crashed, may still land later.

  Times are in microseconds, the resolution the Lease record keeps.
*/
module Leader {
  import opened Prelude

  const MICROS: int := 1_000_000
  const I32_BOUND: int := 0x8000_0000

  /** The `as i32` cast, and i32 addition in a release build. */
  function WrapI32(n: int): (r: int)
    ensures -I32_BOUND <= r < I32_BOUND
    ensures -I32_BOUND <= n < I32_BOUND ==> r == n
  {
    (n + I32_BOUND) % (2 * I32_BOUND) - I32_BOUND
  }

  function AtLeastZero(n: int): int { if n < 0 then 0 else n }

  datatype Config = Config(identity: string, leaseSecs: nat)

  /** `leaseDurationSeconds` as this pod records it. */
  function RecordedSecs(c: Config): int { WrapI32(c.leaseSecs) }

  /** How long other pods respect a record written by this pod. */
  function RespectedMicros(c: Config): int { AtLeastZero(RecordedSecs(c)) * MICROS }

  /** A configuration the deployment promises: each pod has its own, non-empty identity. */
  ghost predicate Distinct(cs: seq<Config>) {
    && (forall p :: 0 <= p < |cs| ==> cs[p].identity != "")
    && (forall p, q :: 0 <= p < q < |cs| ==> cs[p].identity != cs[q].identity)
  }

  // ----- one tick ---------------------------------------------------------------

  datatype Record = Record(
    holder: Option<string>,
    renew: Option<int>,
    acquired: Option<int>,
    secs: Option<int>,
    transitions: Option<int>)

  datatype Lease = Absent | Present(rec: Record, version: nat)

  datatype Decision = Acquire | Wait

  function Decide(identity: string, holder: Option<string>, renew: Option<int>, secs: int, now: int): Decision {
    match holder
    case None => Acquire
    case Some(h) =>
      if h == "" then Acquire
      else if h == identity then Acquire
      else match renew
        case None => Acquire
        case Some(rt) => if now - rt > AtLeastZero(secs) * MICROS then Acquire else Wait
  }

  function BuildLease(c: Config, acquired: int, renew: int, transitions: int): Record {
    Record(Some(c.identity), Some(renew), Some(acquired), Some(RecordedSecs(c)), Some(transitions))
  }

  datatype Write = Create(rec: Record) | Replace(version: nat, rec: Record)

  datatype Intent = StandBack | Send(write: Write)

  /** What a tick that read the clock at `now` does about the Lease it then reads. */
  function Intend(c: Config, now: int, lease: Lease): Intent {
    match lease
    case Absent => Send(Create(BuildLease(c, now, now, 0)))
    case Present(rec, version) =>
      match Decide(c.identity, rec.holder, rec.renew, rec.secs.GetOr(RecordedSecs(c)), now)
      case Wait => StandBack
      case Acquire =>
        var ours := rec.holder == Some(c.identity);
        var acquired := if ours then rec.acquired.GetOr(now) else now;
        var transitions := WrapI32(rec.transitions.GetOr(0) + if ours then 0 else 1);
        Send(Replace(version, BuildLease(c, acquired, now, transitions)))
  }

  /** The server accepts a create when there is no Lease, a replace when the version still matches. */
  predicate Accepts(lease: Lease, w: Write) {
    match w
    case Create(_) => lease.Absent?
    case Replace(v, _) => lease.Present? && lease.version == v
  }

  function Land(lease: Lease, w: Write): Lease
    requires Accepts(lease, w)
  {
    match w
    case Create(rec) => Present(rec, 0)
    case Replace(v, rec) => Present(rec, v + 1)
  }

  // ----- the world --------------------------------------------------------------

  /** `Candidate` runs `acquire`, `Leading` runs `keep_renewed`; `last` is the last confirmed renewal. */
  datatype Role = Candidate | Leading(last: int) | Stopped

  datatype Pc =
    | Idle
    | Started(now: int)
    | Sending(now: int, write: Write)
    | Answered(now: int, won: bool)

  datatype Pod = Pod(role: Role, pc: Pc)

  /** A write whose sender no longer waits for it. */
  datatype Stray = Stray(pod: nat, now: int, write: Write)

  datatype World = World(clock: int, lease: Lease, pods: seq<Pod>, strays: set<Stray>)

  datatype Step =
    | Advance(delta: nat)
    | Start(pod: nat)        // read the clock
    | Read(pod: nat)         // read the Lease and decide
    | ReadFails(pod: nat)
    | Lands(pod: nat)        // the pending write reaches the server
    | GivesUp(pod: nat)      // the client errors out first; the write may land later
    | StrayLands(stray: Stray)
    | Reply(pod: nat)        // the result reaches the pod
    | ReplyLost(pod: nat)
    | Restart(pod: nat)      // crash or restart under the same identity

  function Put(s: World, p: nat, pod: Pod): World
    requires p < |s.pods|
  {
    s.(pods := s.pods[p := pod])
  }

  function Abandon(s: World, p: nat): set<Stray>
    requires p < |s.pods|
  {
    match s.pods[p].pc
    case Sending(now, w) => s.strays + {Stray(p, now, w)}
    case _ => s.strays
  }

  /** `Ok(true)` makes or keeps a leader, `Ok(false)` stops one; a candidate just keeps trying. */
  function AfterReply(role: Role, now: int, won: bool): Role {
    if won then Leading(now)
    else match role
      case Leading(_) => Stopped
      case r => r
  }

  /** One step of the world; a step that is not enabled changes nothing. */
  function Next(cs: seq<Config>, s: World, step: Step): World
    requires |cs| == |s.pods|
    ensures |Next(cs, s, step).pods| == |s.pods|
  {
    match step
    case Advance(delta) => s.(clock := s.clock + delta)
    case Start(p) =>
      if p < |s.pods| && s.pods[p].pc.Idle? && !s.pods[p].role.Stopped?
      then Put(s, p, s.pods[p].(pc := Started(s.clock))) else s
    case Read(p) =>
      if p < |s.pods| && s.pods[p].pc.Started? then
        var now := s.pods[p].pc.now;
        match Intend(cs[p], now, s.lease)
        case StandBack => Put(s, p, s.pods[p].(pc := Answered(now, false)))
        case Send(w) => Put(s, p, s.pods[p].(pc := Sending(now, w)))
      else s
    case ReadFails(p) =>
      if p < |s.pods| && s.pods[p].pc.Started? then Put(s, p, s.pods[p].(pc := Idle)) else s
    case Lands(p) =>
      if p < |s.pods| && s.pods[p].pc.Sending? then
        var Sending(now, w) := s.pods[p].pc;
        var won := Accepts(s.lease, w);
        Put(s, p, s.pods[p].(pc := Answered(now, won))).(lease := if won then Land(s.lease, w) else s.lease)
      else s
    case GivesUp(p) =>
      if p < |s.pods| && s.pods[p].pc.Sending?
      then Put(s, p, s.pods[p].(pc := Idle)).(strays := Abandon(s, p)) else s
    case StrayLands(t) =>
      if t in s.strays then
        s.(strays := s.strays - {t},
           lease := if Accepts(s.lease, t.write) then Land(s.lease, t.write) else s.lease)
      else s
    case Reply(p) =>
      if p < |s.pods| && s.pods[p].pc.Answered? then
        var Answered(now, won) := s.pods[p].pc;
        Put(s, p, Pod(AfterReply(s.pods[p].role, now, won), Idle))
      else s
    case ReplyLost(p) =>
      if p < |s.pods| && s.pods[p].pc.Answered? then Put(s, p, s.pods[p].(pc := Idle)) else s
    case Restart(p) =>
      if p < |s.pods| then Put(s, p, Pod(Candidate, Idle)).(strays := Abandon(s, p)) else s
  }

  /** The world after a whole interleaving. */
  function Exec(cs: seq<Config>, s: World, steps: seq<Step>): World
    requires |cs| == |s.pods|
    ensures |Exec(cs, s, steps).pods| == |s.pods|
    decreases |steps|
  {
    if steps == [] then s else Exec(cs, Next(cs, s, steps[0]), steps[1..])
  }

  /** Nobody runs yet; the Lease may be missing, or left over from earlier with a renewal not in the future. */
  ghost predicate Init(cs: seq<Config>, s: World) {
    && |s.pods| == |cs|
    && s.strays == {}
    && (forall p :: 0 <= p < |s.pods| ==> s.pods[p] == Pod(Candidate, Idle))
    && (s.lease.Present? && s.lease.rec.renew.Some? ==> s.lease.rec.renew.value <= s.clock)
  }

  // ----- what is claimed ----------------------------------------------------------

  /** Pod `p` believes it leads and is within `span` of its last confirmed renewal. */
  predicate Holds(s: World, p: nat, span: int)
    requires p < |s.pods|
  {
    s.pods[p].role.Leading? && s.clock - s.pods[p].role.last <= span
  }

  /** At most one pod leads, judged by the durations the pods write into the Lease. */
  ghost predicate OneByRecord(cs: seq<Config>, s: World)
    requires |cs| == |s.pods|
  {
    forall p, q :: 0 <= p < q < |cs| ==>
      !(Holds(s, p, RespectedMicros(cs[p])) && Holds(s, q, RespectedMicros(cs[q])))
  }

  /** At most one pod leads, judged by the durations the pods are configured with. */
  ghost predicate OneByConfig(cs: seq<Config>, s: World)
    requires |cs| == |s.pods|
  {
    forall p, q :: 0 <= p < q < |cs| ==>
      !(Holds(s, p, cs[p].leaseSecs * MICROS) && Holds(s, q, cs[q].leaseSecs * MICROS))
  }

  // ----- the invariant ------------------------------------------------------------

  /** A pending write carries its sender's own claim; if it can still land, it is what the sender would
      decide now, and it does not move the sender's own renewal back. */
  ghost predicate PendingOk(c: Config, s: World, now: int, w: Write) {
    && now <= s.clock
    && w.rec.holder == Some(c.identity) && w.rec.renew == Some(now) && w.rec.secs == Some(RecordedSecs(c))
    && (w.Replace? ==> s.lease.Present? && w.version <= s.lease.version)
    && (Accepts(s.lease, w) ==> Intend(c, now, s.lease) == Send(w) && NotBack(c, s.lease, now))
  }

  predicate Unheld(lease: Lease)
    requires lease.Present?
  {
    lease.rec.holder.None? || lease.rec.holder.value == ""
  }

  /** Neither a renewal by this identity nor one on an unheld Lease is later than `now`. */
  ghost predicate NotBack(c: Config, lease: Lease, now: int) {
    lease.Present? && (Unheld(lease) || lease.rec.holder == Some(c.identity)) && lease.rec.renew.Some? ==>
      lease.rec.renew.value <= now
  }

  /** While a confirmed renewal at `t` is unexpired, the Lease still names the pod, renewed no earlier. */
  ghost predicate ClaimOk(c: Config, s: World, t: int) {
    && t <= s.clock
    && (s.clock - t <= RespectedMicros(c) ==>
          && s.lease.Present?
          && s.lease.rec.holder == Some(c.identity)
          && s.lease.rec.secs == Some(RecordedSecs(c))
          && s.lease.rec.renew.Some? && t <= s.lease.rec.renew.value)
  }

  ghost predicate PodOk(c: Config, s: World, p: nat)
    requires p < |s.pods|
  {
    && (s.pods[p].role.Leading? ==> ClaimOk(c, s, s.pods[p].role.last))
    && match s.pods[p].pc
       case Idle => true
       case Started(now) =>
         && now <= s.clock && NotBack(c, s.lease, now)
         && forall t :: t in s.strays && t.pod == p ==> t.now <= now
       case Sending(now, w) => PendingOk(c, s, now, w)
       case Answered(now, won) => now <= s.clock && (won ==> ClaimOk(c, s, now))
  }

  ghost predicate StrayOk(cs: seq<Config>, s: World, t: Stray) {
    t.pod < |cs| && PendingOk(cs[t.pod], s, t.now, t.write)
  }

  ghost predicate LeaseOk(s: World) {
    s.lease.Present? && s.lease.rec.renew.Some? ==> s.lease.rec.renew.value <= s.clock
  }

  ghost predicate Inv(cs: seq<Config>, s: World) {
    && |cs| == |s.pods|
    && LeaseOk(s)
    && (forall p :: 0 <= p < |s.pods| ==> PodOk(cs[p], s, p))
    && (forall t :: t in s.strays ==> StrayOk(cs, s, t))
  }

  // ----- every step keeps the invariant -----------------------------------------------

  /** The heart of the matter: a write that lands, from whichever pod and however late, ends no unexpired claim
      but its own sender's, and leaves every other pending write either dead or still sound. */
  lemma LandingKeepsClaim(cs: seq<Config>, s: World, q: nat, now: int, w: Write, s': World, p: nat, t: int)
    requires Distinct(cs) && q < |cs| && p < |cs|
    requires PendingOk(cs[q], s, now, w) && Accepts(s.lease, w)
    requires s'.clock == s.clock && s'.lease == Land(s.lease, w)
    requires ClaimOk(cs[p], s, t)
    ensures ClaimOk(cs[p], s', t)
  {
    assert p != q ==> cs[p].identity != cs[q].identity;
  }

  lemma LandingKeepsPending(cs: seq<Config>, s: World, q: nat, now: int, w: Write, s': World, p: nat, n: int, v: Write)
    requires q < |cs| && p < |cs|
    requires PendingOk(cs[q], s, now, w) && Accepts(s.lease, w)
    requires s'.clock == s.clock && s'.lease == Land(s.lease, w)
    requires PendingOk(cs[p], s, n, v)
    ensures PendingOk(cs[p], s', n, v)
  {
  }

  /** The sender itself, once its write has landed, has a sound claim. */
  lemma LandingMakesClaim(c: Config, s: World, now: int, w: Write, s': World)
    requires PendingOk(c, s, now, w) && Accepts(s.lease, w)
    requires s'.clock == s.clock && s'.lease == Land(s.lease, w)
    ensures ClaimOk(c, s', now) && LeaseOk(s')
  {
  }

  lemma LandsKeepsInv(cs: seq<Config>, s: World, q: nat)
    requires Distinct(cs) && Inv(cs, s)
    ensures Inv(cs, Next(cs, s, Lands(q)))
  {
    var s' := Next(cs, s, Lands(q));
    if q < |s.pods| && s.pods[q].pc.Sending? {
      var Sending(now, w) := s.pods[q].pc;
      assert PodOk(cs[q], s, q);
      if Accepts(s.lease, w) {
        LandingMakesClaim(cs[q], s, now, w, s');
        forall p | 0 <= p < |s.pods| ensures PodOk(cs[p], s', p) {
          assert PodOk(cs[p], s, p);
          if s.pods[p].role.Leading? { LandingKeepsClaim(cs, s, q, now, w, s', p, s.pods[p].role.last); }
          if p != q {
            match s.pods[p].pc {
              case Idle =>
              case Started(n) => assert cs[p].identity != cs[q].identity;
              case Sending(n, v) => LandingKeepsPending(cs, s, q, now, w, s', p, n, v);
              case Answered(n, won) => if won { LandingKeepsClaim(cs, s, q, now, w, s', p, n); }
            }
          }
        }
        forall t | t in s'.strays ensures StrayOk(cs, s', t) {
          assert StrayOk(cs, s, t);
          LandingKeepsPending(cs, s, q, now, w, s', t.pod, t.now, t.write);
        }
      } else {
        forall p | 0 <= p < |s.pods| ensures PodOk(cs[p], s', p) { assert PodOk(cs[p], s, p); }
        forall t | t in s'.strays ensures StrayOk(cs, s', t) { assert StrayOk(cs, s, t); }
      }
    }
  }

  lemma StrayLandsKeepsInv(cs: seq<Config>, s: World, x: Stray)
    requires Distinct(cs) && Inv(cs, s)
    ensures Inv(cs, Next(cs, s, StrayLands(x)))
  {
    var s' := Next(cs, s, StrayLands(x));
    if x in s.strays {
      assert StrayOk(cs, s, x);
      var q, now, w := x.pod, x.now, x.write;
      if Accepts(s.lease, w) {
        LandingMakesClaim(cs[q], s, now, w, s');
        forall p | 0 <= p < |s.pods| ensures PodOk(cs[p], s', p) {
          assert PodOk(cs[p], s, p);
          if s.pods[p].role.Leading? { LandingKeepsClaim(cs, s, q, now, w, s', p, s.pods[p].role.last); }
          match s.pods[p].pc {
            case Idle =>
            case Started(n) => if p != q { assert cs[p].identity != cs[q].identity; }
            case Sending(n, v) => LandingKeepsPending(cs, s, q, now, w, s', p, n, v);
            case Answered(n, won) => if won { LandingKeepsClaim(cs, s, q, now, w, s', p, n); }
          }
        }
        forall t | t in s'.strays ensures StrayOk(cs, s', t) {
          assert StrayOk(cs, s, t);
          LandingKeepsPending(cs, s, q, now, w, s', t.pod, t.now, t.write);
        }
      } else {
        forall p | 0 <= p < |s.pods| ensures PodOk(cs[p], s', p) { assert PodOk(cs[p], s, p); }
        forall t | t in s'.strays ensures StrayOk(cs, s', t) { assert StrayOk(cs, s, t); }
      }
    }
  }

  predicate Quiet(step: Step) { !step.Lands? && !step.StrayLands? }

  lemma QuietKeepsPod(cs: seq<Config>, s: World, step: Step, p: nat)
    requires Inv(cs, s) && Quiet(step) && p < |cs|
    ensures PodOk(cs[p], Next(cs, s, step), p)
  {
    assert PodOk(cs[p], s, p);
    forall t | t in s.strays && t.pod == p ensures t.now <= s.clock { assert StrayOk(cs, s, t); }
    hide StrayOk, Inv;
  }

  lemma QuietKeepsStray(cs: seq<Config>, s: World, step: Step, t: Stray)
    requires Inv(cs, s) && Quiet(step) && t in Next(cs, s, step).strays
    ensures StrayOk(cs, Next(cs, s, step), t)
  {
    if t in s.strays { assert StrayOk(cs, s, t); } else { assert PodOk(cs[t.pod], s, t.pod); }
  }

  /** Steps that leave the Lease alone. */
  lemma QuietStepKeepsInv(cs: seq<Config>, s: World, step: Step)
    requires Inv(cs, s) && Quiet(step)
    ensures Inv(cs, Next(cs, s, step))
  {
    var s' := Next(cs, s, step);
    forall p | 0 <= p < |s.pods| ensures PodOk(cs[p], s', p) { QuietKeepsPod(cs, s, step, p); }
    forall t | t in s'.strays ensures StrayOk(cs, s', t) { QuietKeepsStray(cs, s, step, t); }
  }

  lemma NextKeepsInv(cs: seq<Config>, s: World, step: Step)
    requires Distinct(cs) && Inv(cs, s)
    ensures Inv(cs, Next(cs, s, step))
  {
    match step
    case Lands(q) => LandsKeepsInv(cs, s, q);
    case StrayLands(x) => StrayLandsKeepsInv(cs, s, x);
    case _ => QuietStepKeepsInv(cs, s, step);
  }

  lemma {:induction false} ExecKeepsInv(cs: seq<Config>, s: World, steps: seq<Step>)
    requires Distinct(cs) && Inv(cs, s)
    ensures Inv(cs, Exec(cs, s, steps))
    decreases |steps|
  {
    if steps != [] {
      NextKeepsInv(cs, s, steps[0]);
      ExecKeepsInv(cs, Next(cs, s, steps[0]), steps[1..]);
    }
  }

  lemma InvMeansOne(cs: seq<Config>, s: World)
    requires Distinct(cs) && Inv(cs, s)
    ensures OneByRecord(cs, s)
  {
    forall p, q | 0 <= p < q < |cs|
      ensures !(Holds(s, p, RespectedMicros(cs[p])) && Holds(s, q, RespectedMicros(cs[q])))
    {
      assert PodOk(cs[p], s, p) && PodOk(cs[q], s, q);
    }
  }

  lemma InitMeansInv(cs: seq<Config>, s: World)
    requires Init(cs, s)
    ensures Inv(cs, s)
  {
  }

  /** Safety of every interleaving, in terms of the durations written into the Lease. */
  lemma MutualExclusion(cs: seq<Config>, s: World, steps: seq<Step>)
    requires Distinct(cs) && Init(cs, s)
    ensures OneByRecord(cs, Exec(cs, s, steps))
  {
    InitMeansInv(cs, s);
    hide Init, Inv, Next;
    ExecKeepsInv(cs, s, steps);
    InvMeansOne(cs, Exec(cs, s, steps));
  }

  // ----- one tick, left alone -------------------------------------------------------------

  lemma {:induction false} ExecAppend(cs: seq<Config>, s: World, xs: seq<Step>, y: Step)
    requires |cs| == |s.pods|
    ensures Exec(cs, s, xs + [y]) == Next(cs, Exec(cs, s, xs), y)
    decreases |xs|
  {
    if xs == [] {
      assert xs + [y] == [y];
    } else {
      assert (xs + [y])[1..] == xs[1..] + [y];
      ExecAppend(cs, Next(cs, s, xs[0]), xs[1..], y);
    }
  }

  function TickOf(p: nat): seq<Step> { [Start(p), Read(p), Lands(p), Reply(p)] }

  lemma ExecFour(cs: seq<Config>, s: World, p: nat, s1: World, s2: World, s3: World)
    requires |cs| == |s.pods|
    requires s1 == Next(cs, s, Start(p)) && s2 == Next(cs, s1, Read(p)) && s3 == Next(cs, s2, Lands(p))
    ensures Exec(cs, s, TickOf(p)) == Next(cs, s3, Reply(p))
  {
    assert TickOf(p) == [] + [Start(p)] + [Read(p)] + [Lands(p)] + [Reply(p)];
    ExecAppend(cs, s, [], Start(p));
    ExecAppend(cs, s, [] + [Start(p)], Read(p));
    ExecAppend(cs, s, [] + [Start(p)] + [Read(p)], Lands(p));
    ExecAppend(cs, s, [] + [Start(p)] + [Read(p)] + [Lands(p)], Reply(p));
  }

  /** The Lease is there for this pod to take: nobody's, its own, never renewed, or expired by what it records. */
  predicate Takeable(c: Config, rec: Record, now: int) {
    || rec.holder == None
    || rec.holder == Some("")
    || rec.holder == Some(c.identity)
    || rec.renew == None
    || var secs := rec.secs.GetOr(WrapI32(c.leaseSecs));
       now - rec.renew.value > (if secs < 0 then 0 else secs) * 1_000_000
  }

  /** A pod that is left alone for one tick on a present Lease leads afterwards exactly when the Lease is there for it
      to take.  It then holds it, renewed now and for its own duration; on its own Lease the acquisition time and the
      transition count stay, on another's they are now and one more.  Otherwise the Lease is untouched, a leader stops
      and a candidate keeps trying. */
  lemma TickExactly(cs: seq<Config>, s: World, p: nat)
    requires |cs| == |s.pods| && p < |cs| && s.pods[p].pc == Idle && s.pods[p].role != Stopped && s.lease.Present?
    ensures var s' := Exec(cs, s, TickOf(p));
            var old_ := s.lease.rec;
            && s'.clock == s.clock && s'.strays == s.strays && s'.pods == s.pods[p := Pod(s'.pods[p].role, Idle)]
            && (s'.pods[p].role == Leading(s.clock) <==> Takeable(cs[p], old_, s.clock))
            && (Takeable(cs[p], old_, s.clock) ==>
                  && s'.lease.Present? && s'.lease.version == s.lease.version + 1
                  && s'.lease.rec.holder == Some(cs[p].identity) && s'.lease.rec.renew == Some(s.clock)
                  && s'.lease.rec.secs == Some(WrapI32(cs[p].leaseSecs))
                  && (old_.holder == Some(cs[p].identity) ==>
                        && s'.lease.rec.acquired == Some(old_.acquired.GetOr(s.clock))
                        && s'.lease.rec.transitions == Some(WrapI32(old_.transitions.GetOr(0))))
                  && (old_.holder != Some(cs[p].identity) ==>
                        && s'.lease.rec.acquired == Some(s.clock)
                        && s'.lease.rec.transitions == Some(WrapI32(old_.transitions.GetOr(0) + 1))))
            && (!Takeable(cs[p], old_, s.clock) ==>
                  s'.lease == s.lease && s'.pods[p].role == if s.pods[p].role == Candidate then Candidate else Stopped)
  {
    hide WrapI32;
    var s1 := Next(cs, s, Start(p));
    var s2 := Next(cs, s1, Read(p));
    var s3 := Next(cs, s2, Lands(p));
    var s4 := Next(cs, s3, Reply(p));
    ExecFour(cs, s, p, s1, s2, s3);
    assert s1.pods[p].pc == Started(s.clock);
    assert Takeable(cs[p], s.lease.rec, s.clock) <==> s2.pods[p].pc.Sending?;
    assert s4.pods == s.pods[p := s4.pods[p]];
  }

  /** A pod's belief changes only when a reply reaches it, or when it restarts: a failed read, an abandoned write and a
      lost reply leave a leader leading. */
  lemma OnlyRepliesChangeBelief(cs: seq<Config>, s: World, step: Step, p: nat)
    requires |cs| == |s.pods| && p < |cs| && step != Reply(p) && step != Restart(p)
    ensures Next(cs, s, step).pods[p].role == s.pods[p].role
  {
  }

  /** A restarted pod starts over as a candidate, and takes the Lease if it is there to take: its own, for one. */
  lemma RestartedPodReturns(cs: seq<Config>, s: World, p: nat)
    requires |cs| == |s.pods| && p < |cs| && s.lease.Present?
    ensures var s1 := Next(cs, s, Restart(p));
            && s1.lease == s.lease && s1.pods[p] == Pod(Candidate, Idle)
            && (Exec(cs, s1, TickOf(p)).pods[p].role == Leading(s.clock) <==> Takeable(cs[p], s.lease.rec, s.clock))
  {
    hide Takeable;
    TickExactly(cs, Next(cs, s, Restart(p)), p);
  }

  /** A write that its sender gave up on, by an error or by a restart, can still land; it changes no belief. */
  lemma GivenUpMayLand(cs: seq<Config>, s: World, p: nat, now: int, w: Write, step: Step)
    requires |cs| == |s.pods| && p < |cs| && s.pods[p].pc == Sending(now, w) && Accepts(s.lease, w)
    requires step == GivesUp(p) || step == Restart(p)
    ensures var s1 := Next(cs, s, step);
            var s2 := Next(cs, s1, StrayLands(Stray(p, now, w)));
            && s1.lease == s.lease && s1.pods[p].pc == Idle
            && s2.lease.Present? && s2.lease.rec == w.rec && s2.pods == s1.pods && Stray(p, now, w) !in s2.strays
  {
  }

  // ----- the record along a run ---------------------------------------------------------

  /** The stored renewal time, where there is one. */
  ghost predicate RenewNotBefore(a: Lease, b: Lease) {
    a.Present? && a.rec.renew.Some? ==> b.Present? && b.rec.renew.Some? && a.rec.renew.value <= b.rec.renew.value
  }

  function Transitions(lease: Lease): int {
    match lease
    case Absent => 0
    case Present(rec, _) => rec.transitions.GetOr(0)
  }

  /** Did the holder of an existing Lease change? */
  predicate HolderChanged(a: Lease, b: Lease) {
    a.Present? && b.Present? && a.rec.holder != b.rec.holder
  }

  /** How often the holder changes along an interleaving. */
  function HolderChanges(cs: seq<Config>, s: World, steps: seq<Step>): nat
    requires |cs| == |s.pods|
    decreases |steps|
  {
    if steps == [] then 0
    else
      var s' := Next(cs, s, steps[0]);
      (if HolderChanged(s.lease, s'.lease) then 1 else 0) + HolderChanges(cs, s', steps[1..])
  }

  /** A Lease no step of ours has written counts as an i32 already. */
  ghost predicate CountFits(lease: Lease) { WrapI32(Transitions(lease)) == Transitions(lease) }

  lemma NextMovesRecordForward(cs: seq<Config>, s: World, step: Step)
    requires Inv(cs, s) && CountFits(s.lease)
    ensures var l' := Next(cs, s, step).lease;
            RenewNotBefore(s.lease, l') && CountFits(l') &&
            Transitions(l') == WrapI32(Transitions(s.lease) + if HolderChanged(s.lease, l') then 1 else 0)
  {
    match step
    case Lands(p) =>
      if p < |s.pods| && s.pods[p].pc.Sending? {
        assert PodOk(cs[p], s, p);
        LandingMovesRecordForward(cs[p], s, s.pods[p].pc.now, s.pods[p].pc.write);
      }
    case StrayLands(t) =>
      if t in s.strays {
        assert StrayOk(cs, s, t);
        LandingMovesRecordForward(cs[t.pod], s, t.now, t.write);
      }
    case _ =>
  }

  lemma LandingMovesRecordForward(c: Config, s: World, now: int, w: Write)
    requires LeaseOk(s) && PendingOk(c, s, now, w) && CountFits(s.lease)
    ensures Accepts(s.lease, w) ==>
              var l' := Land(s.lease, w);
              && RenewNotBefore(s.lease, l') && CountFits(l')
              && Transitions(l') == WrapI32(Transitions(s.lease) + if HolderChanged(s.lease, l') then 1 else 0)
  {
  }

  lemma WrapSum(n: int, k: int)
    ensures WrapI32(WrapI32(n) + k) == WrapI32(n + k)
  {
    var d := 2 * I32_BOUND;
    var q := (n + I32_BOUND) / d;
    assert n == WrapI32(n) + q * d;
    ShiftByMultiple(WrapI32(n) + k + I32_BOUND, q);
  }

  lemma ShiftByMultiple(a: int, q: int)
    ensures (a + q * (2 * I32_BOUND)) % (2 * I32_BOUND) == a % (2 * I32_BOUND)
  {
    var d := 2 * I32_BOUND;
    var b := a + q * d;
    assert b == (a / d + q) * d + a % d;
    assert b / d == a / d + q;
  }

  /** Along every interleaving the stored renewal never goes back, and the transition count is the
      number of holder changes added to where it started (as an i32). */
  lemma {:induction false} RecordMovesForward(cs: seq<Config>, s: World, steps: seq<Step>)
    requires Distinct(cs) && Inv(cs, s) && CountFits(s.lease)
    ensures var l' := Exec(cs, s, steps).lease;
            && RenewNotBefore(s.lease, l')
            && Transitions(l') == WrapI32(Transitions(s.lease) + HolderChanges(cs, s, steps))
    decreases |steps|
  {
    if steps != [] {
      var s' := Next(cs, s, steps[0]);
      NextKeepsInv(cs, s, steps[0]);
      NextMovesRecordForward(cs, s, steps[0]);
      RecordMovesForward(cs, s', steps[1..]);
      var k := if HolderChanged(s.lease, s'.lease) then 1 else 0;
      WrapSum(Transitions(s.lease) + k, HolderChanges(cs, s', steps[1..]));
    }
  }

  /** The same between any two points of any run. */
  lemma RecordMovesForwardInRuns(cs: seq<Config>, s: World, before: seq<Step>, after: seq<Step>)
    requires Distinct(cs) && Init(cs, s) && CountFits(s.lease)
    ensures var a, b := Exec(cs, s, before), Exec(cs, s, before + after);
            && RenewNotBefore(a.lease, b.lease)
            && Transitions(b.lease) == WrapI32(Transitions(a.lease) + HolderChanges(cs, a, after))
  {
    hide *;
    InitMeansInv(cs, s);
    SamePods(cs, s);
    ExecKeepsInv(cs, s, before);
    RecordMovesForward(cs, s, before);
    WrappedFits(Exec(cs, s, before).lease, Transitions(s.lease) + HolderChanges(cs, s, before));
    ExecConcat(cs, s, before, after);
    RecordMovesForward(cs, Exec(cs, s, before), after);
  }

  lemma SamePods(cs: seq<Config>, s: World)
    requires Inv(cs, s)
    ensures |cs| == |s.pods|
  {
  }

  lemma WrappedFits(lease: Lease, n: int)
    requires Transitions(lease) == WrapI32(n)
    ensures CountFits(lease)
  {
  }

  // ----- exactly when the configured durations are safe -----------------------------------

  /** A pod that finds no Lease and is left alone for one tick leads. */
  lemma FirstTick(cs: seq<Config>, s: World, p: nat)
    requires |cs| == |s.pods| && p < |cs| && s.pods[p].pc == Idle && s.pods[p].role != Stopped && s.lease == Absent
    ensures var secs := WrapI32(cs[p].leaseSecs);
            Exec(cs, s, TickOf(p)) ==
            World(s.clock,
                  Present(Record(Some(cs[p].identity), Some(s.clock), Some(s.clock), Some(secs), Some(0)), 0),
                  s.pods[p := Pod(Leading(s.clock), Idle)], s.strays)
  {
    var s1 := Next(cs, s, Start(p));
    var s2 := Next(cs, s1, Read(p));
    var s3 := Next(cs, s2, Lands(p));
    var s4 := Next(cs, s3, Reply(p));
    ExecFour(cs, s, p, s1, s2, s3);
    assert s4.pods == s.pods[p := Pod(Leading(s.clock), Idle)];
  }

  /** A candidate that finds an expired Lease of someone else and is left alone for one tick leads. */
  lemma TakeoverTick(cs: seq<Config>, s: World, q: nat)
    requires |cs| == |s.pods| && q < |cs| && s.pods[q] == Pod(Candidate, Idle) && s.lease.Present?
    requires s.lease.rec.holder.Some? && s.lease.rec.secs.Some? && s.lease.rec.renew.Some?
    requires s.clock - s.lease.rec.renew.value > AtLeastZero(s.lease.rec.secs.value) * MICROS
    ensures var s' := Exec(cs, s, TickOf(q));
            s'.clock == s.clock && s'.pods == s.pods[q := Pod(Leading(s.clock), Idle)]
  {
    TickExactly(cs, s, q);
  }

  lemma {:induction false} ExecConcat(cs: seq<Config>, s: World, xs: seq<Step>, ys: seq<Step>)
    requires |cs| == |s.pods|
    ensures Exec(cs, s, xs + ys) == Exec(cs, Exec(cs, s, xs), ys)
    decreases |xs|
  {
    if xs == [] {
      assert xs + ys == ys;
    } else {
      assert (xs + ys)[1..] == xs[1..] + ys;
      ExecConcat(cs, Next(cs, s, xs[0]), xs[1..], ys);
    }
  }

  function Fresh(n: nat): World { World(0, Absent, seq(n, _ => Pod(Candidate, Idle)), {}) }

  /** A duration of 2^31 seconds or more is recorded as something shorter, so another pod takes over
      while the first is, by its own configuration, still covered. */
  lemma LongDurationBreaks(cs: seq<Config>, p: nat, q: nat) returns (steps: seq<Step>)
    requires p < |cs| && q < |cs| && p != q && cs[p].leaseSecs >= I32_BOUND
    ensures Init(cs, Fresh(|cs|)) && !OneByConfig(cs, Exec(cs, Fresh(|cs|), steps))
  {
    var s0 := Fresh(|cs|);
    var gap: nat := RespectedMicros(cs[p]) + 1;
    assert gap <= cs[p].leaseSecs * MICROS;
    FirstTick(cs, s0, p);
    var s1 := Exec(cs, s0, TickOf(p));
    var s2 := Next(cs, s1, Advance(gap));
    ExecAppend(cs, s0, TickOf(p), Advance(gap));
    TakeoverTick(cs, s2, q);
    steps := TickOf(p) + [Advance(gap)] + TickOf(q);
    ExecConcat(cs, s0, TickOf(p) + [Advance(gap)], TickOf(q));
    var s3 := Exec(cs, s0, steps);
    assert Holds(s3, p, cs[p].leaseSecs * MICROS) && Holds(s3, q, cs[q].leaseSecs * MICROS);
    assert if p < q then 0 <= p < q < |cs| else 0 <= q < p < |cs|;
  }

  /** The election keeps at most one pod within its configured lease, in every interleaving, exactly when
      every configured duration fits an i32. */
  lemma MutualExclusionExactly(cs: seq<Config>)
    requires Distinct(cs) && |cs| >= 2
    ensures (forall s, steps :: Init(cs, s) ==> OneByConfig(cs, Exec(cs, s, steps)))
       <==> (forall p :: 0 <= p < |cs| ==> cs[p].leaseSecs < I32_BOUND)
  {
    if forall p :: 0 <= p < |cs| ==> cs[p].leaseSecs < I32_BOUND {
      forall s, steps | Init(cs, s) ensures OneByConfig(cs, Exec(cs, s, steps)) {
        MutualExclusion(cs, s, steps);
      }
    } else {
      var p :| 0 <= p < |cs| && cs[p].leaseSecs >= I32_BOUND;
      var q := if p == 0 then 1 else 0;
      var steps := LongDurationBreaks(cs, p, q);
    }
  }
}
