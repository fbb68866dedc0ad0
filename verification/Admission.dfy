/** Which waiting leaves start now: a stable priority order, then greedy admission under four caps. */
module Admission {
  import opened Prelude
  import opened Ordering

  const USIZE_MAX: nat := 0xFFFF_FFFF_FFFF_FFFF

  datatype WorkClass = Apply | Change | Unblocked | Retry | Drift

  datatype PriorityMode = On | Off

  datatype Candidate = Candidate(
    name: string, scope: string, credential: Option<string>, class_: WorkClass, depth: nat, since: nat)

  type Counts = map<string, nat>

  datatype Caps = Caps(
    global: nat, perScope: nat, scopeCaps: Counts, perCredential: nat, driftSharePermille: nat, priority: PriorityMode)

  datatype InFlight = InFlight(total: nat, byScope: Counts, driftByScope: Counts, byCredential: Counts)

  function Get(m: Counts, k: string): nat { if k in m then m[k] else 0 }

  function Bump(m: Counts, k: string): Counts { m[k := Get(m, k) + 1] }

  function ScopeCap(caps: Caps, scope: string): nat {
    if scope in caps.scopeCaps then caps.scopeCaps[scope] else caps.perScope
  }

  function Min(a: nat, b: nat): nat { if a < b then a else b }

  function AtLeast(a: int, b: nat): nat { if a < b then b else a }

  /** The slots of a scope that drift work may hold; the product saturates at usize. */
  function DriftSlots(scopeCap: nat, sharePermille: nat): nat {
    if sharePermille == 0 || scopeCap == 0 then 0
    else
      var raw := Min(scopeCap * Min(sharePermille, 1000), USIZE_MAX) / 1000;
      Min(AtLeast(raw, 1), AtLeast(scopeCap - 1, 1))
  }

  // ----- the order ----------------------------------------------------------------------

  function Rank(c: WorkClass): nat {
    match c
    case Apply => 0
    case Change => 1
    case Unblocked => 2
    case Retry => 3
    case Drift => 4
  }

  function Age(c: Candidate): nat { if c.class_.Drift? then c.since else 0 }

  predicate LeOn(a: Candidate, b: Candidate) {
    if Rank(a.class_) != Rank(b.class_) then Rank(a.class_) < Rank(b.class_)
    else if Age(a) != Age(b) then Age(a) < Age(b)
    else if a.depth != b.depth then a.depth < b.depth
    else StrLe(a.name, b.name)
  }

  predicate LeOff(a: Candidate, b: Candidate) {
    if a.since != b.since then a.since < b.since else StrLe(a.name, b.name)
  }

  function Before(mode: PriorityMode): (Candidate, Candidate) -> bool { if mode.On? then LeOn else LeOff }

  function Order(cs: seq<Candidate>, mode: PriorityMode): seq<Candidate> { Sort(cs, Before(mode)) }

  lemma LeOnIsPreorder()
    ensures TotalPreorder(LeOn)
  {
    forall a: Candidate, b: Candidate ensures LeOn(a, b) || LeOn(b, a) { StrLeTotal(a.name, b.name); }
    forall a: Candidate, b: Candidate, c: Candidate | LeOn(a, b) && LeOn(b, c) ensures LeOn(a, c) {
      if StrLe(a.name, b.name) && StrLe(b.name, c.name) { StrLeTransitive(a.name, b.name, c.name); }
    }
  }

  lemma LeOffIsPreorder()
    ensures TotalPreorder(LeOff)
  {
    forall a: Candidate, b: Candidate ensures LeOff(a, b) || LeOff(b, a) { StrLeTotal(a.name, b.name); }
    forall a: Candidate, b: Candidate, c: Candidate | LeOff(a, b) && LeOff(b, c) ensures LeOff(a, c) {
      if StrLe(a.name, b.name) && StrLe(b.name, c.name) { StrLeTransitive(a.name, b.name, c.name); }
    }
  }

  // ----- admission ----------------------------------------------------------------------

  predicate OverScope(c: Candidate, caps: Caps, f: InFlight) { Get(f.byScope, c.scope) >= ScopeCap(caps, c.scope) }

  predicate OverDrift(c: Candidate, caps: Caps, f: InFlight) {
    c.class_.Drift? && caps.driftSharePermille > 0 &&
    Get(f.driftByScope, c.scope) >= DriftSlots(ScopeCap(caps, c.scope), caps.driftSharePermille)
  }

  predicate OverCredential(c: Candidate, caps: Caps, f: InFlight) {
    c.credential.Some? && caps.perCredential > 0 && Get(f.byCredential, c.credential.value) >= caps.perCredential
  }

  /** Some cap refuses `c` under the counts `f`. */
  predicate Refused(c: Candidate, caps: Caps, f: InFlight) {
    f.total >= caps.global || OverScope(c, caps, f) || OverDrift(c, caps, f) || OverCredential(c, caps, f)
  }

  function Take(c: Candidate, f: InFlight): InFlight {
    InFlight(
      f.total + 1,
      Bump(f.byScope, c.scope),
      if c.class_.Drift? then Bump(f.driftByScope, c.scope) else f.driftByScope,
      if c.credential.Some? then Bump(f.byCredential, c.credential.value) else f.byCredential)
  }

  /** The candidates admitted when they are offered in this order. */
  function Admitted(cs: seq<Candidate>, caps: Caps, f: InFlight): seq<Candidate>
    decreases |cs|
  {
    if cs == [] then []
    else if Refused(cs[0], caps, f) then Admitted(cs[1..], caps, f)
    else [cs[0]] + Admitted(cs[1..], caps, Take(cs[0], f))
  }

  /** The counts afterwards. */
  function Final(cs: seq<Candidate>, caps: Caps, f: InFlight): InFlight
    decreases |cs|
  {
    if cs == [] then f
    else if Refused(cs[0], caps, f) then Final(cs[1..], caps, f)
    else Final(cs[1..], caps, Take(cs[0], f))
  }

  function NamesOf(cs: seq<Candidate>): seq<string> {
    if cs == [] then [] else [cs[0].name] + NamesOf(cs[1..])
  }

  lemma {:induction false} FullAdmitsNone(cs: seq<Candidate>, caps: Caps, f: InFlight)
    requires f.total >= caps.global
    ensures Admitted(cs, caps, f) == []
    decreases |cs|
  {
    if cs != [] { FullAdmitsNone(cs[1..], caps, f); }
  }

  method Admit(candidates: seq<Candidate>, caps: Caps, inFlight: InFlight) returns (out: seq<string>)
    ensures out == NamesOf(Admitted(Order(candidates, caps.priority), caps, inFlight))
  {
    hide DriftSlots, StrLe;
    var cs := Order(candidates, caps.priority);
    var f, i := inFlight, 0;
    out := [];
    assert cs[0..] == cs;
    while i < |cs|
      invariant 0 <= i <= |cs|
      invariant out + NamesOf(Admitted(cs[i..], caps, f)) == NamesOf(Admitted(cs, caps, inFlight))
    {
      var c := cs[i];
      assert cs[i..][0] == c && cs[i..][1..] == cs[i + 1..];
      if f.total >= caps.global {
        FullAdmitsNone(cs[i..], caps, f);
        break;
      }
      i := i + 1;
      if OverScope(c, caps, f) || OverDrift(c, caps, f) || OverCredential(c, caps, f) { continue; }
      f := Take(c, f);
      NamesStep(out, c, Admitted(cs[i..], caps, f));
      out := out + [c.name];
    }
    if i == |cs| { assert cs[i..] == []; }
    assert out + [] == out;
  }

  lemma NamesStep(out: seq<string>, c: Candidate, rest: seq<Candidate>)
    ensures out + NamesOf([c] + rest) == out + [c.name] + NamesOf(rest)
  {
    assert ([c] + rest)[1..] == rest;
  }

  // ----- later classes never displace earlier ones -----------------------------------------------

  /** Is the class among the first `k` of Apply, Change, Unblocked, Retry, Drift? */
  predicate Among(k: nat, w: WorkClass) {
    match w
    case Apply => 1 <= k
    case Change => 2 <= k
    case Unblocked => 3 <= k
    case Retry => 4 <= k
    case Drift => 5 <= k
  }

  /** The candidates of the first `k` classes, in order. */
  function First(k: nat, cs: seq<Candidate>): seq<Candidate> {
    if cs == [] then [] else (if Among(k, cs[0].class_) then [cs[0]] else []) + First(k, cs[1..])
  }

  function Later(k: nat, cs: seq<Candidate>): seq<Candidate> {
    if cs == [] then [] else (if Among(k, cs[0].class_) then [] else [cs[0]]) + Later(k, cs[1..])
  }

  lemma EarlierClassWins(k: nat, a: Candidate, b: Candidate)
    requires Among(k, a.class_) && !Among(k, b.class_)
    ensures LeOn(a, b) && !LeOn(b, a)
  {
    hide StrLe;
  }

  lemma {:induction false} InsertFirst(k: nat, x: Candidate, a: seq<Candidate>, b: seq<Candidate>)
    requires Among(k, x.class_) && forall c :: c in b ==> !Among(k, c.class_)
    ensures Insert(x, a + b, LeOn) == Insert(x, a, LeOn) + b
  {
    hide LeOn, Among;
    if a == [] {
      assert a + b == b;
      if b != [] {
        assert b[0] in b;
        EarlierClassWins(k, x, b[0]);
      }
    } else {
      assert (a + b)[0] == a[0] && (a + b)[1..] == a[1..] + b;
      if !LeOn(x, a[0]) { InsertFirst(k, x, a[1..], b); }
    }
  }

  lemma {:induction false} InsertLater(k: nat, x: Candidate, a: seq<Candidate>, b: seq<Candidate>)
    requires !Among(k, x.class_) && forall c :: c in a ==> Among(k, c.class_)
    ensures Insert(x, a + b, LeOn) == a + Insert(x, b, LeOn)
  {
    hide LeOn, Among;
    if a == [] {
      assert a + b == b;
      assert a + Insert(x, b, LeOn) == Insert(x, b, LeOn);
    } else {
      assert a[0] in a;
      EarlierClassWins(k, a[0], x);
      assert (a + b)[0] == a[0] && (a + b)[1..] == a[1..] + b;
      InsertLater(k, x, a[1..], b);
      assert a == [a[0]] + a[1..];
    }
  }

  lemma {:induction false} FirstMembers(k: nat, cs: seq<Candidate>)
    ensures forall c :: c in First(k, cs) ==> Among(k, c.class_)
    ensures forall c :: c in Later(k, cs) ==> !Among(k, c.class_)
  {
    hide Among;
    if cs != [] { FirstMembers(k, cs[1..]); }
  }

  lemma SortedKinds(k: nat, cs: seq<Candidate>)
    ensures forall c :: c in Sort(First(k, cs), LeOn) ==> Among(k, c.class_)
    ensures forall c :: c in Sort(Later(k, cs), LeOn) ==> !Among(k, c.class_)
  {
    hide LeOn, First, Later, Among, Sort;
    FirstMembers(k, cs);
    SortPermutes(First(k, cs), LeOn);
    SortPermutes(Later(k, cs), LeOn);
  }

  /** With priority on, the first `k` classes come first, in their own order. */
  lemma {:induction false} ClassesSortInOrder(k: nat, cs: seq<Candidate>)
    ensures Order(cs, On) == Order(First(k, cs), On) + Order(Later(k, cs), On)
  {
    hide LeOn, Insert, Among;
    if cs != [] {
      var x, rest := cs[0], cs[1..];
      ClassesSortInOrder(k, rest);
      SortedKinds(k, rest);
      var a, b := Sort(First(k, rest), LeOn), Sort(Later(k, rest), LeOn);
      if Among(k, x.class_) {
        InsertFirst(k, x, a, b);
        assert ([x] + First(k, rest))[1..] == First(k, rest);
        assert [] + Later(k, rest) == Later(k, rest);
      } else {
        InsertLater(k, x, a, b);
        assert ([x] + Later(k, rest))[1..] == Later(k, rest);
        assert [] + First(k, rest) == First(k, rest);
      }
    }
  }

  lemma {:induction false} AdmittedConcat(a: seq<Candidate>, b: seq<Candidate>, caps: Caps, f: InFlight)
    ensures Admitted(a + b, caps, f) == Admitted(a, caps, f) + Admitted(b, caps, Final(a, caps, f))
    decreases |a|
  {
    hide Refused, Take;
    if a == [] {
      assert a + b == b;
    } else {
      assert (a + b)[0] == a[0] && (a + b)[1..] == a[1..] + b;
      AdmittedConcat(a[1..], b, caps, if Refused(a[0], caps, f) then f else Take(a[0], f));
    }
  }

  lemma {:induction false} NamesConcat(a: seq<Candidate>, b: seq<Candidate>)
    ensures NamesOf(a + b) == NamesOf(a) + NamesOf(b)
  {
    if a == [] {
      assert a + b == b;
    } else {
      assert (a + b)[1..] == a[1..] + b;
      NamesConcat(a[1..], b);
    }
  }

  /** For any candidates, caps and counts: without the classes after the first `k` the same others are admitted, and
      first. */
  lemma LaterNeverDisplaces(k: nat, cs: seq<Candidate>, caps: Caps, f: InFlight)
    requires caps.priority == On
    ensures NamesOf(Admitted(Order(First(k, cs), On), caps, f)) <= NamesOf(Admitted(Order(cs, On), caps, f))
  {
    hide *;
    var a, b := Order(First(k, cs), On), Order(Later(k, cs), On);
    ClassesSortInOrder(k, cs);
    AdmittedConcat(a, b, caps, f);
    NamesConcat(Admitted(a, caps, f), Admitted(b, caps, Final(a, caps, f)));
  }

  function WithoutDrift(cs: seq<Candidate>): seq<Candidate> {
    if cs == [] then [] else (if cs[0].class_.Drift? then [] else [cs[0]]) + WithoutDrift(cs[1..])
  }

  lemma {:induction false} WithoutDriftIsFirst(cs: seq<Candidate>)
    ensures WithoutDrift(cs) == First(4, cs)
  {
    if cs != [] { WithoutDriftIsFirst(cs[1..]); }
  }

  /** In particular drift work displaces nothing. */
  lemma DriftNeverDisplaces(cs: seq<Candidate>, caps: Caps, f: InFlight)
    requires caps.priority == On
    ensures NamesOf(Admitted(Order(WithoutDrift(cs), On), caps, f)) <= NamesOf(Admitted(Order(cs, On), caps, f))
  {
    hide *;
    WithoutDriftIsFirst(cs);
    LaterNeverDisplaces(4, cs, caps, f);
  }

  // ----- the order of the result ----------------------------------------------------------------------

  lemma {:induction false} AdmittedInOrder(
    cs: seq<Candidate>, caps: Caps, f: InFlight, le: (Candidate, Candidate) -> bool)
    requires Sorted(cs, le)
    ensures Sorted(Admitted(cs, caps, f), le)
    ensures forall c :: c in Admitted(cs, caps, f) ==> c in cs
    decreases |cs|
  {
    hide Refused, Take;
    if cs != [] {
      var f' := if Refused(cs[0], caps, f) then f else Take(cs[0], f);
      assert Sorted(cs[1..], le);
      AdmittedInOrder(cs[1..], caps, f', le);
      forall c | c in cs[1..] ensures le(cs[0], c) { var i :| 0 <= i < |cs[1..]| && cs[1..][i] == c; }
    }
  }

  lemma {:induction false} NamesAt(cs: seq<Candidate>)
    ensures |NamesOf(cs)| == |cs| && forall i :: 0 <= i < |cs| ==> NamesOf(cs)[i] == cs[i].name
  {
    if cs != [] { NamesAt(cs[1..]); }
  }

  /** With priority on: first by class, from Apply to Drift; drift work then by age; then by depth; then by name. */
  lemma AdmittedByPriority(candidates: seq<Candidate>, caps: Caps, f: InFlight, i: nat, j: nat)
    requires caps.priority == On && i < j < |Admitted(Order(candidates, On), caps, f)|
    ensures var out := Admitted(Order(candidates, On), caps, f);
            var a, b := out[i], out[j];
            && |NamesOf(out)| == |out| && NamesOf(out)[i] == a.name && NamesOf(out)[j] == b.name
            && (forall k :: Among(k, b.class_) ==> Among(k, a.class_))
            && (a.class_ == b.class_ ==>
                  && (a.class_.Drift? ==> a.since <= b.since)
                  && (!a.class_.Drift? || a.since == b.since ==>
                        a.depth <= b.depth && (a.depth == b.depth ==> StrLe(a.name, b.name))))
  {
    hide Admitted, NamesOf, Sort, StrLe;
    LeOnIsPreorder();
    SortSorted(candidates, LeOn);
    AdmittedInOrder(Order(candidates, On), caps, f, LeOn);
    var out := Admitted(Order(candidates, On), caps, f);
    NamesAt(out);
    assert LeOn(out[i], out[j]);
  }

  /** With priority off: by the time they have waited since, then by name. */
  lemma AdmittedByArrival(candidates: seq<Candidate>, caps: Caps, f: InFlight, i: nat, j: nat)
    requires caps.priority == Off && i < j < |Admitted(Order(candidates, Off), caps, f)|
    ensures var out := Admitted(Order(candidates, Off), caps, f);
            var a, b := out[i], out[j];
            && |NamesOf(out)| == |out| && NamesOf(out)[i] == a.name && NamesOf(out)[j] == b.name
            && a.since <= b.since && (a.since == b.since ==> StrLe(a.name, b.name))
  {
    hide Admitted, NamesOf, Sort, StrLe;
    LeOffIsPreorder();
    SortSorted(candidates, LeOff);
    AdmittedInOrder(Order(candidates, Off), caps, f, LeOff);
    var out := Admitted(Order(candidates, Off), caps, f);
    NamesAt(out);
    assert LeOff(out[i], out[j]);
  }

  ghost predicate DistinctNames(cs: seq<Candidate>) {
    forall x, y :: x in cs && y in cs && x.name == y.name ==> x == y
  }

  /** With distinct names the result does not depend on the order of the input. */
  lemma AdmissionForgetsOrder(a: seq<Candidate>, b: seq<Candidate>, caps: Caps, f: InFlight)
    requires DistinctNames(a) && multiset(a) == multiset(b)
    ensures NamesOf(Admitted(Order(a, caps.priority), caps, f)) == NamesOf(Admitted(Order(b, caps.priority), caps, f))
  {
    hide Admitted, NamesOf;
    LeOnIsPreorder();
    LeOffIsPreorder();
    var le := Before(caps.priority);
    forall x, y | x in a && y in a && le(x, y) && le(y, x) ensures x == y { SameName(x, y, caps.priority); }
    SortForgetsOrder(a, b, le);
  }

  lemma SameName(x: Candidate, y: Candidate, mode: PriorityMode)
    requires Before(mode)(x, y) && Before(mode)(y, x)
    ensures x.name == y.name
  {
    hide StrLe;
    assert StrLe(x.name, y.name) && StrLe(y.name, x.name);
    StrLeAntisymmetric(x.name, y.name);
  }

  // ----- the caps hold, and admission is maximal ------------------------------------------------

  /** Counts never shrink. */
  ghost predicate Grows(f: InFlight, g: InFlight) {
    && f.total <= g.total
    && (forall k :: Get(f.byScope, k) <= Get(g.byScope, k))
    && (forall k :: Get(f.driftByScope, k) <= Get(g.driftByScope, k))
    && (forall k :: Get(f.byCredential, k) <= Get(g.byCredential, k))
  }

  lemma {:induction false} FinalGrows(cs: seq<Candidate>, caps: Caps, f: InFlight)
    ensures Grows(f, Final(cs, caps, f))
    decreases |cs|
  {
    hide Refused;
    if cs != [] {
      if Refused(cs[0], caps, f) { FinalGrows(cs[1..], caps, f); } else { FinalGrows(cs[1..], caps, Take(cs[0], f)); }
    }
  }

  lemma RefusedStays(c: Candidate, caps: Caps, f: InFlight, g: InFlight)
    requires Refused(c, caps, f) && Grows(f, g)
    ensures Refused(c, caps, g)
  {
    hide DriftSlots, Get;
  }

  /** Every count is within its cap, or where it started. */
  ghost predicate Within(caps: Caps, start: InFlight, f: InFlight) {
    && f.total <= AtLeast(caps.global, start.total)
    && (forall s :: Get(f.byScope, s) <= AtLeast(ScopeCap(caps, s), Get(start.byScope, s)))
    && (caps.driftSharePermille > 0 ==>
          forall s :: Get(f.driftByScope, s) <=
                      AtLeast(DriftSlots(ScopeCap(caps, s), caps.driftSharePermille), Get(start.driftByScope, s)))
    && (caps.perCredential > 0 ==>
          forall k :: Get(f.byCredential, k) <= AtLeast(caps.perCredential, Get(start.byCredential, k)))
  }

  lemma TakeWithin(caps: Caps, start: InFlight, f: InFlight, c: Candidate)
    requires Within(caps, start, f) && !Refused(c, caps, f)
    ensures Within(caps, start, Take(c, f))
  {
    hide DriftSlots, ScopeCap;
  }

  /** Admission never pushes the global, a scope, a drift or a credential count past its cap. */
  lemma {:induction false} CapsHold(cs: seq<Candidate>, caps: Caps, start: InFlight, f: InFlight)
    requires Within(caps, start, f)
    ensures Within(caps, start, Final(cs, caps, f))
    decreases |cs|
  {
    hide Within, Refused, Take;
    if cs != [] {
      if Refused(cs[0], caps, f) {
        CapsHold(cs[1..], caps, start, f);
      } else {
        TakeWithin(caps, start, f, cs[0]);
        CapsHold(cs[1..], caps, start, Take(cs[0], f));
      }
    }
  }

  /** Whoever is not admitted is refused by some cap under the final counts too. */
  lemma {:induction false} LeftOutIsRefused(cs: seq<Candidate>, caps: Caps, f: InFlight, c: Candidate)
    requires multiset(Admitted(cs, caps, f))[c] < multiset(cs)[c]
    ensures Refused(c, caps, Final(cs, caps, f))
    decreases |cs|
  {
    hide Refused, Take, Grows;
    var rest := cs[1..];
    assert cs == [cs[0]] + rest;
    FinalGrows(cs, caps, f);
    if Refused(cs[0], caps, f) {
      if c == cs[0] { RefusedStays(c, caps, f, Final(cs, caps, f)); } else { LeftOutIsRefused(rest, caps, f, c); }
    } else {
      LeftOutIsRefused(rest, caps, Take(cs[0], f), c);
    }
  }

  lemma {:induction false} AdmittedArePart(cs: seq<Candidate>, caps: Caps, f: InFlight)
    ensures multiset(Admitted(cs, caps, f)) <= multiset(cs)
    decreases |cs|
  {
    hide Refused, Take;
    if cs != [] {
      var rest := cs[1..];
      assert cs == [cs[0]] + rest;
      AdmittedArePart(rest, caps, if Refused(cs[0], caps, f) then f else Take(cs[0], f));
    }
  }

  /** Only candidates are admitted, and nobody is left out for want of a slot that is still free: a candidate that is
      admitted less often than it was proposed finds, under the final counts, the global count, its scope, the drift of
      its scope or its credential at the cap, where a zero share or a zero credential cap is no cap. */
  lemma AdmissionIsMaximal(candidates: seq<Candidate>, caps: Caps, f: InFlight)
    ensures var cs := Order(candidates, caps.priority);
            && multiset(Admitted(cs, caps, f)) <= multiset(candidates)
            && forall c :: multiset(Admitted(cs, caps, f))[c] < multiset(candidates)[c] ==>
                 var g := Final(cs, caps, f);
                 var cap := if c.scope in caps.scopeCaps then caps.scopeCaps[c.scope] else caps.perScope;
                 || g.total >= caps.global
                 || Get(g.byScope, c.scope) >= cap
                 || (c.class_ == Drift && caps.driftSharePermille > 0 &&
                     Get(g.driftByScope, c.scope) >= DriftSlots(cap, caps.driftSharePermille))
                 || (c.credential.Some? && caps.perCredential > 0 &&
                     Get(g.byCredential, c.credential.value) >= caps.perCredential)
  {
    hide DriftSlots, Final, Admitted, Sort;
    SortPermutes(candidates, Before(caps.priority));
    var cs := Order(candidates, caps.priority);
    AdmittedArePart(cs, caps, f);
    forall c | multiset(Admitted(cs, caps, f))[c] < multiset(candidates)[c]
        ensures Refused(c, caps, Final(cs, caps, f)) {
      LeftOutIsRefused(cs, caps, f, c);
    }
  }

  // ----- the final counts count what was admitted -------------------------------------------------

  function CountIf(cs: seq<Candidate>, p: Candidate -> bool): nat {
    if cs == [] then 0 else (if p(cs[0]) then 1 else 0) + CountIf(cs[1..], p)
  }

  function InScope(s: string): Candidate -> bool { (c: Candidate) => c.scope == s }

  function DriftInScope(s: string): Candidate -> bool { (c: Candidate) => c.scope == s && c.class_.Drift? }

  function UsingCredential(k: string): Candidate -> bool { (c: Candidate) => c.credential == Some(k) }

  ghost predicate Adds(f: InFlight, cs: seq<Candidate>, g: InFlight, k: string) {
    && g.total == f.total + |cs|
    && Get(g.byScope, k) == Get(f.byScope, k) + CountIf(cs, InScope(k))
    && Get(g.driftByScope, k) == Get(f.driftByScope, k) + CountIf(cs, DriftInScope(k))
    && Get(g.byCredential, k) == Get(f.byCredential, k) + CountIf(cs, UsingCredential(k))
  }

  lemma AddOne(f: InFlight, c: Candidate, rest: seq<Candidate>, g: InFlight, k: string)
    requires Adds(Take(c, f), rest, g, k)
    ensures Adds(f, [c] + rest, g, k)
  {
    assert ([c] + rest)[1..] == rest;
  }

  /** Starting counts plus what was admitted are the final counts, for every scope and credential. */
  lemma {:induction false} CountsAddUp(cs: seq<Candidate>, caps: Caps, f: InFlight, k: string)
    ensures Adds(f, Admitted(cs, caps, f), Final(cs, caps, f), k)
    decreases |cs|
  {
    hide Refused, Take, Adds;
    if cs == [] {
      AddsNothing(f, k);
    } else if Refused(cs[0], caps, f) {
      CountsAddUp(cs[1..], caps, f, k);
    } else {
      CountsAddUp(cs[1..], caps, Take(cs[0], f), k);
      AddOne(f, cs[0], Admitted(cs[1..], caps, Take(cs[0], f)), Final(cs, caps, f), k);
    }
  }

  lemma AddsNothing(f: InFlight, k: string)
    ensures Adds(f, [], f, k)
  {
  }

  /** Drift always leaves at least one slot of a scope that has two. */
  lemma DriftLeavesASlot(cs: seq<Candidate>, caps: Caps, f: InFlight, scope: string)
    requires caps.driftSharePermille > 0 && ScopeCap(caps, scope) >= 2
    requires Get(f.driftByScope, scope) <= DriftSlots(ScopeCap(caps, scope), caps.driftSharePermille)
    ensures Get(Final(cs, caps, f).driftByScope, scope) < ScopeCap(caps, scope)
  {
    hide Final;
    CapsHold(cs, caps, f, f);
  }

  /** The drift slots of a scope of at least two are the share of the cap, rounded down, but at least one and never the
      whole scope; a scope of one lends its slot; without a share or a scope there are none. */
  lemma DriftSlotsExactly(cap: nat, share: nat)
    ensures share == 0 || cap == 0 ==> DriftSlots(cap, share) == 0
    ensures share > 0 && cap == 1 ==> DriftSlots(cap, share) == 1
    ensures share > 0 && cap >= 2 ==>
              && 1 <= DriftSlots(cap, share) < cap
              && forall m :: 2 <= m < cap ==>
                   (m <= DriftSlots(cap, share) <==> m * 1000 <= Min(cap * Min(share, 1000), USIZE_MAX))
  {
    if share > 0 && cap >= 2 {
      var product := Min(cap * Min(share, 1000), USIZE_MAX);
      forall m | 2 <= m < cap ensures m <= DriftSlots(cap, share) <==> m * 1000 <= product {
        assert m * 1000 <= product <==> m <= product / 1000;
      }
    }
  }
}
