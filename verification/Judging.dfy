/** The verdict over all leaves: counts, capped lists, and the transitions a restart announces. */
module Judging {
  import opened Prelude
  import opened Ordering
  import opened Grouping
  import opened Rollup

  datatype Verdict = Converged | Progressing | Partial

  datatype Kind = KReady | KPlanning | KApplying | KFailed | KStalled | KRateLimited | KBlocked

  datatype Counts = Counts(ready: nat, planning: nat, applying: nat, failed: nat, stalled: nat, rateLimited: nat,
      blocked: nat)

  datatype FailedLeaf = FailedLeaf(leaf: string, reason: string, since: Option<string>)
  datatype StalledLeaf = StalledLeaf(leaf: string, state: string, since: Option<string>)
  datatype RateLimitedLeaf = RateLimitedLeaf(leaf: string, until: string)
  datatype BlockedLeaf = BlockedLeaf(leaf: string, by_: seq<string>)

  datatype LeavesRollup = LeavesRollup(
    verdict: Verdict, total: nat, counts: Counts, failed: seq<FailedLeaf>, stalled: seq<StalledLeaf>,
    rateLimited: seq<RateLimitedLeaf>, blocked: seq<BlockedLeaf>, truncated: nat)

  /** A leaf and the holders found for it. */
  datatype Placed = Placed(leaf: LeafView, held: set<string>)

  function KindOf(p: Placed): Kind {
    if p.held != {} then KBlocked
    else match p.leaf.state
      case Ready => KReady
      case Planning => KPlanning
      case Applying => KApplying
      case Failed(_, _) => KFailed
      case Stalled(_, _) => KStalled
      case RateLimited(_) => KRateLimited
  }

  predicate NameLe(a: LeafView, b: LeafView) { StrLe(a.name, b.name) }

  lemma NameLeIsPreorder()
    ensures TotalPreorder(NameLe)
  {
    forall x: LeafView, y: LeafView ensures NameLe(x, y) || NameLe(y, x) { StrLeTotal(x.name, y.name); }
    forall x: LeafView, y: LeafView, z: LeafView | NameLe(x, y) && NameLe(y, z) ensures NameLe(x, z) {
      StrLeTransitive(x.name, y.name, z.name);
    }
  }

  /** The leaves by name; the last of a name wins. */
  function ByName(leaves: seq<LeafView>): Views {
    if leaves == [] then map[]
    else var last := leaves[|leaves| - 1]; ByName(leaves[..|leaves| - 1])[last.name := last]
  }

  /** The leaves with their holders, found one after another through one memo. */
  function Walk(leaves: seq<LeafView>, v: Views): (seq<Placed>, Memo) {
    if leaves == [] then ([], map[])
    else
      var last := leaves[|leaves| - 1];
      var (ps, memo) := Walk(leaves[..|leaves| - 1], v);
      var (held, memo') := if Holding(last.state) then ({}, memo) else Search(last.name, v, memo, {});
      (ps + [Placed(last, held)], memo')
  }

  function Placing(leaves: seq<LeafView>): seq<Placed> { Walk(Sort(leaves, NameLe), ByName(leaves)).0 }

  // ----- what the rollup says, read off the placed leaves ---------------------------------------

  const U32: nat := U32_MAX + 1

  function Take<T>(s: seq<T>, cap: nat): seq<T> { if |s| <= cap then s else s[..cap] }

  function Over(n: nat, cap: nat): nat { if n <= cap then 0 else n - cap }

  function FailedOf(p: Placed): seq<FailedLeaf> {
    if KindOf(p) == KFailed then [FailedLeaf(p.leaf.name, p.leaf.state.reason, p.leaf.state.since)] else []
  }

  function StalledOf(p: Placed): seq<StalledLeaf> {
    if KindOf(p) == KStalled then [StalledLeaf(p.leaf.name, p.leaf.state.state, p.leaf.state.since)] else []
  }

  function RateLimitedOf(p: Placed): seq<RateLimitedLeaf> {
    if KindOf(p) == KRateLimited then [RateLimitedLeaf(p.leaf.name, p.leaf.state.until)] else []
  }

  function BlockedOf(p: Placed): seq<BlockedLeaf> {
    StrLeIsTotalOrder();
    if KindOf(p) == KBlocked then [BlockedLeaf(p.leaf.name, InOrder(p.held, StrLe))] else []
  }

  function Of(ps: seq<Placed>, k: Kind): nat { |Having(ps, KindOf, {k})| }

  function CountsOf(ps: seq<Placed>): Counts {
    Counts(Of(ps, KReady) % U32, Of(ps, KPlanning) % U32, Of(ps, KApplying) % U32, Of(ps, KFailed) % U32,
           Of(ps, KStalled) % U32, Of(ps, KRateLimited) % U32, Of(ps, KBlocked) % U32)
  }

  function Dropped(ps: seq<Placed>, cap: nat): nat {
    Over(Of(ps, KFailed), cap) + Over(Of(ps, KStalled), cap) + Over(Of(ps, KRateLimited), cap) +
        Over(Of(ps, KBlocked), cap)
  }

  function VerdictOf(c: Counts, total: nat): Verdict {
    if (c.failed + c.stalled + c.blocked) % U32 > 0 then Partial
    else if c.ready == total then Converged
    else Progressing
  }

  function TotalOf(n: nat): nat { if n <= U32_MAX then n else U32_MAX }

  function RollupOf(leaves: seq<LeafView>, cap: nat): LeavesRollup {
    var ps := Placing(leaves);
    LeavesRollup(
      VerdictOf(CountsOf(ps), TotalOf(|leaves|)), TotalOf(|leaves|), CountsOf(ps),
      Take(Spread(ps, FailedOf), cap), Take(Spread(ps, StalledOf), cap),
      Take(Spread(ps, RateLimitedOf), cap), Take(Spread(ps, BlockedOf), cap), Dropped(ps, cap) % U32)
  }

  // ----- the loop ------------------------------------------------------------------------------------

  function Tick(n: nat): nat { (n + 1) % U32 }

  function Counted(c: Counts, k: Kind): Counts {
    match k
    case KReady => c.(ready := Tick(c.ready))
    case KPlanning => c.(planning := Tick(c.planning))
    case KApplying => c.(applying := Tick(c.applying))
    case KFailed => c.(failed := Tick(c.failed))
    case KStalled => c.(stalled := Tick(c.stalled))
    case KRateLimited => c.(rateLimited := Tick(c.rateLimited))
    case KBlocked => c.(blocked := Tick(c.blocked))
  }

  lemma TickIsMod(n: nat)
    ensures Tick(n % U32) == (n + 1) % U32
  {
  }

  lemma OfStep(ps: seq<Placed>, p: Placed, k: Kind)
    ensures Of(ps + [p], k) == Of(ps, k) + if KindOf(p) == k then 1 else 0
  {
    HavingStep(ps, p, KindOf, {k});
  }

  lemma CountsStep(ps: seq<Placed>, p: Placed)
    ensures CountsOf(ps + [p]) == Counted(CountsOf(ps), KindOf(p))
  {
    hide Of, KindOf, Tick;
    forall k ensures Of(ps + [p], k) == Of(ps, k) + if KindOf(p) == k then 1 else 0 { OfStep(ps, p, k); }
    TickIsMod(Of(ps, KindOf(p)));
  }

  lemma TakeStep<T>(s: seq<T>, x: T, cap: nat)
    ensures Take(s + [x], cap) == if |Take(s, cap)| < cap then Take(s, cap) + [x] else Take(s, cap)
    ensures |Take(s, cap)| < cap <==> |s| < cap
    ensures Over(|s| + 1, cap) == Over(|s|, cap) + if |Take(s, cap)| < cap then 0 else 1
  {
  }

  /** A list of the rollup is as long as its class. */
  lemma {:induction false} ListLength<U>(ps: seq<Placed>, w: Placed -> seq<U>, k: Kind)
    requires forall p :: |w(p)| == if KindOf(p) == k then 1 else 0
    ensures |Spread(ps, w)| == Of(ps, k)
  {
    hide KindOf;
    if ps != [] {
      var front, last := ps[..|ps| - 1], ps[|ps| - 1];
      assert ps == front + [last];
      ListLength(front, w, k);
      SpreadStep(ps[..|ps| - 1], last, w);
      OfStep(front, last, k);
    }
  }

  lemma FailedLength(ps: seq<Placed>)
    ensures |Spread(ps, FailedOf)| == Of(ps, KFailed)
  {
    ListLength(ps, FailedOf, KFailed);
  }

  lemma StalledLength(ps: seq<Placed>)
    ensures |Spread(ps, StalledOf)| == Of(ps, KStalled)
  {
    ListLength(ps, StalledOf, KStalled);
  }

  lemma RateLimitedLength(ps: seq<Placed>)
    ensures |Spread(ps, RateLimitedOf)| == Of(ps, KRateLimited)
  {
    ListLength(ps, RateLimitedOf, KRateLimited);
  }

  lemma BlockedLength(ps: seq<Placed>)
    ensures |Spread(ps, BlockedOf)| == Of(ps, KBlocked)
  {
    ListLength(ps, BlockedOf, KBlocked);
  }

  /** The rollup under construction says what the placed leaves say. */
  ghost predicate Tallies(r: LeavesRollup, truncated: nat, ps: seq<Placed>, cap: nat) {
    && r.counts == CountsOf(ps)
    && r.failed == Take(Spread(ps, FailedOf), cap)
    && r.stalled == Take(Spread(ps, StalledOf), cap)
    && r.rateLimited == Take(Spread(ps, RateLimitedOf), cap)
    && r.blocked == Take(Spread(ps, BlockedOf), cap)
    && truncated == Dropped(ps, cap) % U32
  }

  function Add(r: LeavesRollup, truncated: nat, p: Placed, cap: nat): (LeavesRollup, nat) {
    var r := r.(counts := Counted(r.counts, KindOf(p)));
    match KindOf(p)
    case KBlocked => if |r.blocked| < cap then (r.(blocked := r.blocked + BlockedOf(p)), truncated)
        else (r, Tick(truncated))
    case KFailed => if |r.failed| < cap then (r.(failed := r.failed + FailedOf(p)), truncated) else (r, Tick(truncated))
    case KStalled => if |r.stalled| < cap then (r.(stalled := r.stalled + StalledOf(p)), truncated)
        else (r, Tick(truncated))
    case KRateLimited =>
      if |r.rateLimited| < cap then (r.(rateLimited := r.rateLimited + RateLimitedOf(p)), truncated)
      else (r, Tick(truncated))
    case _ => (r, truncated)
  }

  lemma ListStep<U>(ps: seq<Placed>, p: Placed, w: Placed -> seq<U>, cap: nat)
    requires |w(p)| <= 1
    ensures var s, s' := Spread(ps, w), Spread(ps + [p], w);
            && |s'| == |s| + |w(p)|
            && Take(s', cap) == (if |Take(s, cap)| < cap then Take(s, cap) + w(p) else Take(s, cap))
            && Over(|s'|, cap) == Over(|s|, cap) + (if |Take(s, cap)| < cap then 0 else |w(p)|)
  {
    SpreadStep(ps, p, w);
    var s := Spread(ps, w);
    if w(p) == [] {
      assert s + w(p) == s;
      assert Take(s, cap) + w(p) == Take(s, cap);
    } else {
      TakeStep(s, w(p)[0], cap);
      assert w(p) == [w(p)[0]];
    }
  }

  lemma DroppedStep(ps: seq<Placed>, p: Placed, cap: nat)
    ensures Dropped(ps + [p], cap) == Dropped(ps, cap) + Lost(ps, p, cap)
  {
    hide KindOf, Of, Spread, Take;
    FailedLength(ps);
    StalledLength(ps);
    RateLimitedLength(ps);
    BlockedLength(ps);
    OfStep(ps, p, KFailed);
    OfStep(ps, p, KStalled);
    OfStep(ps, p, KRateLimited);
    OfStep(ps, p, KBlocked);
  }

  function Lost(ps: seq<Placed>, p: Placed, cap: nat): nat {
    if KindOf(p) in {KFailed, KStalled, KRateLimited, KBlocked} && Of(ps, KindOf(p)) >= cap then 1 else 0
  }

  lemma TakeLength<T>(s: seq<T>, cap: nat)
    ensures |Take(s, cap)| < cap <==> |s| < cap
    ensures |Take(s, cap)| <= cap && |Take(s, cap)| + Over(|s|, cap) == |s|
  {
  }

  lemma AddTallies(r: LeavesRollup, truncated: nat, ps: seq<Placed>, p: Placed, cap: nat)
    requires Tallies(r, truncated, ps, cap)
    ensures var next := Add(r, truncated, p, cap); Tallies(next.0, next.1, ps + [p], cap)
  {
    hide Spread, Take, Of, Dropped, CountsOf, Counted, Tick, InOrder;
    ListStep(ps, p, FailedOf, cap);
    ListStep(ps, p, StalledOf, cap);
    ListStep(ps, p, RateLimitedOf, cap);
    ListStep(ps, p, BlockedOf, cap);
    CountsStep(ps, p);
    DroppedStep(ps, p, cap);
    TickIsMod(Dropped(ps, cap));
    FailedLength(ps);
    StalledLength(ps);
    RateLimitedLength(ps);
    BlockedLength(ps);
    TakeLength(Spread(ps, FailedOf), cap);
    TakeLength(Spread(ps, StalledOf), cap);
    TakeLength(Spread(ps, RateLimitedOf), cap);
    TakeLength(Spread(ps, BlockedOf), cap);
  }

  lemma NothingTallied(total: nat, cap: nat)
    ensures Tallies(LeavesRollup(Converged, total, Counts(0, 0, 0, 0, 0, 0, 0), [], [], [], [], 0), 0, [], cap)
  {
  }

  lemma WalkStep(leaves: seq<LeafView>, v: Views, i: nat)
    requires i < |leaves|
    ensures var (ps, memo) := Walk(leaves[..i], v);
            var (held, memo') := if Holding(leaves[i].state) then ({}, memo) else Search(leaves[i].name, v, memo, {});
            Walk(leaves[..i + 1], v) == (ps + [Placed(leaves[i], held)], memo')
  {
    hide Search;
    var upto := leaves[..i + 1];
    assert upto[..|upto| - 1] == leaves[..i];
  }

  /** One round of the counting. */
  method Count(r0: LeavesRollup, t0: nat, leaf: LeafView, held: set<string>, cap: nat)
      returns (r: LeavesRollup, truncated: nat)
    ensures (r, truncated) == Add(r0, t0, Placed(leaf, held), cap)
    ensures r.total == r0.total
  {
    hide Counted, Tick, InOrder;
    r, truncated := r0, t0;
    if held != {} {
      r := r.(counts := Counted(r.counts, KBlocked));
      if |r.blocked| < cap {
        StrLeIsTotalOrder();
        r := r.(blocked := r.blocked + [BlockedLeaf(leaf.name, InOrder(held, StrLe))]);
      } else {
        truncated := Tick(truncated);
      }
    } else {
      match leaf.state
      case Ready => r := r.(counts := Counted(r.counts, KReady));
      case Planning => r := r.(counts := Counted(r.counts, KPlanning));
      case Applying => r := r.(counts := Counted(r.counts, KApplying));
      case Failed(reason, since) =>
        r := r.(counts := Counted(r.counts, KFailed));
        if |r.failed| < cap {
          r := r.(failed := r.failed + [FailedLeaf(leaf.name, reason, since)]);
        } else {
          truncated := Tick(truncated);
        }
      case Stalled(state, since) =>
        r := r.(counts := Counted(r.counts, KStalled));
        if |r.stalled| < cap {
          r := r.(stalled := r.stalled + [StalledLeaf(leaf.name, state, since)]);
        } else {
          truncated := Tick(truncated);
        }
      case RateLimited(until) =>
        r := r.(counts := Counted(r.counts, KRateLimited));
        if |r.rateLimited| < cap {
          r := r.(rateLimited := r.rateLimited + [RateLimitedLeaf(leaf.name, until)]);
        } else {
          truncated := Tick(truncated);
        }
    }
  }

  /** `judge`. */
  method Judge(leaves: seq<LeafView>, cap: nat) returns (r: LeavesRollup)
    ensures r == RollupOf(leaves, cap)
  {
    hide *;
    var byName := ByName(leaves);
    var memo: Memo := map[];
    r := LeavesRollup(Converged, TotalOf(|leaves|), Counts(0, 0, 0, 0, 0, 0, 0), [], [], [], [], 0);
    var truncated := 0;
    var sorted := Sort(leaves, NameLe);
    var i := 0;
    NothingTallied(r.total, cap);
    ghost var ps: seq<Placed> := [];
    assert sorted[..0] == [];
    WalkNothing(byName);
    while i < |sorted|
      invariant 0 <= i <= |sorted| && r.total == TotalOf(|leaves|)
      invariant (ps, memo) == Walk(sorted[..i], byName)
      invariant Tallies(r, truncated, ps, cap)
    {
      var leaf := sorted[i];
      WalkStep(sorted, byName, i);
      var held: set<string> := {};
      if !Holding(leaf.state) {
        var path: set<string>;
        held, memo, path := HoldersOf(leaf.name, byName, memo, {});
      }
      ghost var p := Placed(leaf, held);
      ghost var r0, t0 := r, truncated;
      r, truncated := Count(r, truncated, leaf, held, cap);
      AddTallies(r0, t0, ps, p, cap);
      ps := ps + [p];
      i := i + 1;
    }
    assert sorted[..i] == sorted;
    RollupFrom(leaves, cap, r, truncated, ps);
    r := r.(truncated := truncated);
    r := r.(verdict := VerdictOf(r.counts, r.total));
  }

  lemma RollupFrom(leaves: seq<LeafView>, cap: nat, r: LeavesRollup, truncated: nat, ps: seq<Placed>)
    requires Tallies(r, truncated, ps, cap) && ps == Walk(Sort(leaves, NameLe), ByName(leaves)).0
    requires r.total == TotalOf(|leaves|)
    ensures r.(truncated := truncated, verdict := VerdictOf(r.counts, r.total)) == RollupOf(leaves, cap)
  {
    hide Walk, Spread, Take, Dropped, Sort, ByName, VerdictOf, CountsOf;
  }

  // ----- who is reported as blocked, and by whom --------------------------------------------------

  ghost predicate PlacedOk(v: Views, l: LeafView, p: Placed) {
    p.leaf == l && if Holding(l.state) then p.held == {} else EntryOk(v, l.name, p.held)
  }

  lemma {:induction false} WalkOk(leaves: seq<LeafView>, v: Views)
    ensures var (ps, memo) := Walk(leaves, v);
            MemoOk(v, memo) && |ps| == |leaves| && forall i :: 0 <= i < |leaves| ==> PlacedOk(v, leaves[i], ps[i])
  {
    hide MemoOk, Search, EntryOk, PathOk;
    if leaves == [] {
      EmptyMemo(v);
    } else {
      var front, last := leaves[..|leaves| - 1], leaves[|leaves| - 1];
      WalkOk(front, v);
      assert leaves[..|leaves|] == leaves;
      WalkStep(leaves, v, |leaves| - 1);
      var (_, memo) := Walk(front, v);
      NoPath(v, last.name);
      SearchOk(last.name, v, memo, {});
    }
  }

  lemma EmptyMemo(v: Views)
    ensures MemoOk(v, map[])
  {
  }

  /** Every leaf is placed once, in name order; a holding leaf is held by nobody, any other by holders upstream of it
      and, where no cycle is upstream, by all of them. */
  lemma PlacingOk(leaves: seq<LeafView>)
    ensures var v, ps, sorted := ByName(leaves), Placing(leaves), Sort(leaves, NameLe);
            && |ps| == |sorted| == |leaves|
            && Sorted(sorted, NameLe) && multiset(sorted) == multiset(leaves)
            && forall i :: 0 <= i < |ps| ==>
                 && ps[i].leaf == sorted[i]
                 && (Holding(ps[i].leaf.state) ==> ps[i].held == {})
                 && (!Holding(ps[i].leaf.state) ==> ps[i].held <= Holders(v, ps[i].leaf.name))
                 && (!Holding(ps[i].leaf.state) && AcyclicFrom(v, ps[i].leaf.name) ==>
                     ps[i].held == Holders(v, ps[i].leaf.name))
  {
    hide Walk, Sort, Sorted, ByName, Holders, AcyclicFrom, TotalPreorder;
    NameLeIsPreorder();
    SortSorted(leaves, NameLe);
    SortPermutes(leaves, NameLe);
    WalkOk(Sort(leaves, NameLe), ByName(leaves));
  }

  /** A leaf that only holding leaves precede is held by all its holders, cycle or not. */
  lemma {:induction false} FirstIsExact(leaves: seq<LeafView>, i: nat)
    requires i < |Sort(leaves, NameLe)|
    requires forall j :: 0 <= j < i ==> Holding(Sort(leaves, NameLe)[j].state)
    requires !Holding(Sort(leaves, NameLe)[i].state)
    ensures i < |Placing(leaves)| && Placing(leaves)[i].held == Holders(ByName(leaves), Sort(leaves, NameLe)[i].name)
  {
    hide *;
    var sorted, v := Sort(leaves, NameLe), ByName(leaves);
    PlacingOk(leaves);
    NothingRemembered(sorted, v, i);
    WalkStep(sorted, v, i);
    EmptyMemo(v);
    OwnQueryIsComplete(sorted[i].name, v, map[]);
    WalkPrefix(sorted, v, i + 1);
    PlacingIsWalk(leaves);
  }

  lemma PlacingIsWalk(leaves: seq<LeafView>)
    ensures Placing(leaves) == Walk(Sort(leaves, NameLe), ByName(leaves)).0
  {
  }

  lemma {:induction false} NothingRemembered(sorted: seq<LeafView>, v: Views, i: nat)
    requires i <= |sorted| && forall j :: 0 <= j < i ==> Holding(sorted[j].state)
    ensures Walk(sorted[..i], v).1 == map[] && |Walk(sorted[..i], v).0| == i
  {
    hide Search, Holding, Walk;
    if i == 0 {
      assert sorted[..0] == [];
      WalkNothing(v);
    } else {
      NothingRemembered(sorted, v, i - 1);
      WalkStep(sorted, v, i - 1);
    }
  }

  lemma WalkNothing(v: Views)
    ensures Walk([], v) == ([], map[])
  {
  }

  lemma {:induction false} WalkPrefix(sorted: seq<LeafView>, v: Views, i: nat)
    requires i <= |sorted|
    ensures |Walk(sorted[..i], v).0| == i && Walk(sorted[..i], v).0 <= Walk(sorted, v).0
    decreases |sorted| - i
  {
    hide *;
    WalkOk(sorted[..i], v);
    if i == |sorted| {
      assert sorted[..i] == sorted;
    } else {
      WalkPrefix(sorted, v, i + 1);
      WalkStep(sorted, v, i);
    }
  }

  lemma {:induction false} HoldingKeepsMemo(sorted: seq<LeafView>, v: Views, i: nat, j: nat)
    requires i <= j <= |sorted| && forall k :: i <= k < j ==> Holding(sorted[k].state)
    ensures Walk(sorted[..j], v).1 == Walk(sorted[..i], v).1
  {
    hide Search, Holding, Walk;
    if i < j {
      HoldingKeepsMemo(sorted, v, i, j - 1);
      WalkStep(sorted, v, j - 1);
    }
  }

  /** The loss of `Rollup.CycleCutsShort` as `judge` reports it: where `a` and `b` are the first two leaves that do not
      hold, `b` is counted by its own state and not listed as blocked, although the failed `c` holds it. */
  lemma CycleHidesABlockedLeaf(leaves: seq<LeafView>, cap: nat, i: nat, j: nat, c: string)
    requires NamesDistinct(leaves) && i < j < |Sort(leaves, NameLe)|
    requires forall k :: 0 <= k <= j && k != i && k != j ==> Holding(Sort(leaves, NameLe)[k].state)
    requires var v, a, b := ByName(leaves), Sort(leaves, NameLe)[i], Sort(leaves, NameLe)[j];
             && c in v && Holding(v[c].state) && v[c].upstreams == []
             && !Holding(a.state) && !Holding(b.state) && a.upstreams == [b.name, c] && b.upstreams == [a.name]
    ensures var b, ps := Sort(leaves, NameLe)[j], Placing(leaves);
            && c in Holders(ByName(leaves), b.name)
            && j < |ps| && ps[j] == Placed(b, {})
            && KindOf(ps[j]) in {KReady, KPlanning, KApplying}
            && forall x :: x in RollupOf(leaves, cap).blocked ==> x.leaf != b.name
  {
    hide *;
    var sorted, v, ps := Sort(leaves, NameLe), ByName(leaves), Placing(leaves);
    var a, b := sorted[i], sorted[j];
    PlacingOk(leaves);
    SortedAreLeaves(leaves, i);
    SortedAreLeaves(leaves, j);
    assert c != a.name && c != b.name;
    SortedNames(leaves, i, j);
    CycleCutsShort(v, a.name, b.name, c);
    HeldShort(sorted, v, i, j);
    WalkPrefix(sorted, v, j + 1);
    PlacingIsWalk(leaves);
    OwnKind(ps[j]);
    forall x | x in RollupOf(leaves, cap).blocked ensures x.leaf != b.name { BlockedIsHeld(leaves, cap, x, j); }
  }

  lemma OwnKind(p: Placed)
    requires p.held == {} && !Holding(p.leaf.state)
    ensures KindOf(p) in {KReady, KPlanning, KApplying}
  {
  }

  lemma SortedAreLeaves(leaves: seq<LeafView>, i: nat)
    requires NamesDistinct(leaves) && i < |Sort(leaves, NameLe)|
    ensures var l := Sort(leaves, NameLe)[i]; l in leaves && l.name in ByName(leaves) && ByName(leaves)[l.name] == l
  {
    hide Sort, ByName, NamesDistinct;
    SortPermutes(leaves, NameLe);
    ByNameFinds(leaves, Sort(leaves, NameLe)[i]);
  }

  lemma SortedNames(leaves: seq<LeafView>, i: nat, j: nat)
    requires NamesDistinct(leaves) && i < j < |Sort(leaves, NameLe)|
    ensures Sort(leaves, NameLe)[i].name != Sort(leaves, NameLe)[j].name
  {
    hide Placing, NamesDistinct, Sort;
    PlacingOk(leaves);
    PlacedNames(leaves);
    var ps := Placing(leaves);
    assert ps[i].leaf.name != ps[j].leaf.name;
  }

  lemma HeldShort(sorted: seq<LeafView>, v: Views, i: nat, j: nat)
    requires i < j < |sorted| && forall k :: 0 <= k <= j && k != i && k != j ==> Holding(sorted[k].state)
    requires !Holding(sorted[i].state) && !Holding(sorted[j].state)
    requires Search(sorted[j].name, v, Search(sorted[i].name, v, map[], {}).1, {}).0 == {}
    ensures var ps := Walk(sorted[..j + 1], v).0; |ps| == j + 1 && ps[j] == Placed(sorted[j], {})
  {
    hide Walk, Search, Holding;
    NothingRemembered(sorted, v, i);
    WalkStep(sorted, v, i);
    HoldingKeepsMemo(sorted, v, i + 1, j);
    WalkStep(sorted, v, j);
    WalkPrefix(sorted, v, j);
  }

  /** Whoever is listed as blocked was placed with holders, and by its own name. */
  lemma BlockedIsHeld(leaves: seq<LeafView>, cap: nat, x: BlockedLeaf, j: nat)
    requires NamesDistinct(leaves) && x in RollupOf(leaves, cap).blocked
    requires j < |Placing(leaves)| && Placing(leaves)[j].held == {}
    ensures x.leaf != Placing(leaves)[j].leaf.name
  {
    var ps := Placing(leaves);
    PlacedNames(leaves);
    BlockedFrom(leaves, cap, x);
    hide Placing, NamesDistinct, RollupOf, BlockedOf, Spread;
    SpreadMembers(ps, BlockedOf);
    var k :| 0 <= k < |ps| && x in BlockedOf(ps[k]);
    BlockedOne(ps[k], x);
    if k < j { assert ps[k].leaf.name != ps[j].leaf.name; } else if j < k { assert ps[j].leaf.name != ps[k].leaf.name; }
  }

  lemma BlockedOne(p: Placed, x: BlockedLeaf)
    requires x in BlockedOf(p)
    ensures p.held != {} && x.leaf == p.leaf.name
  {
  }

  lemma BlockedFrom(leaves: seq<LeafView>, cap: nat, x: BlockedLeaf)
    requires x in RollupOf(leaves, cap).blocked
    ensures x in Spread(Placing(leaves), BlockedOf)
  {
    hide Placing, Spread, Dropped, CountsOf, VerdictOf, BlockedOf;
  }

  // ----- conservation and the verdict ------------------------------------------------------------

  lemma {:induction false} KindsPartition(ps: seq<Placed>)
    ensures Of(ps, KReady) + Of(ps, KPlanning) + Of(ps, KApplying) + Of(ps, KFailed) + Of(ps, KStalled) +
            Of(ps, KRateLimited) + Of(ps, KBlocked) == |ps|
  {
    if ps != [] {
      var front, last := ps[..|ps| - 1], ps[|ps| - 1];
      assert ps == front + [last];
      KindsPartition(front);
      hide Of, KindOf;
      forall k ensures Of(ps, k) == Of(front, k) + if KindOf(last) == k then 1 else 0 { OfStep(front, last, k); }
    }
  }

  lemma SmallMod(n: nat)
    ensures n <= U32_MAX ==> n % U32 == n
  {
  }

  lemma CountsSmall(ps: seq<Placed>)
    requires |ps| <= U32_MAX
    ensures CountsOf(ps) == Counts(Of(ps, KReady), Of(ps, KPlanning), Of(ps, KApplying), Of(ps, KFailed),
                                   Of(ps, KStalled), Of(ps, KRateLimited), Of(ps, KBlocked))
  {
    hide Of;
    KindsPartition(ps);
    SmallMod(Of(ps, KReady));
    SmallMod(Of(ps, KPlanning));
    SmallMod(Of(ps, KApplying));
    SmallMod(Of(ps, KFailed));
    SmallMod(Of(ps, KStalled));
    SmallMod(Of(ps, KRateLimited));
    SmallMod(Of(ps, KBlocked));
  }

  /** Below 2^32 leaves no counter wraps: the seven counts make the total, and listed plus truncated make the failed,
      stalled, rate-limited and blocked. */
  lemma RollupConserves(leaves: seq<LeafView>, cap: nat)
    requires |leaves| <= U32_MAX
    ensures var r := RollupOf(leaves, cap); var c := r.counts;
            && r.total == |leaves|
            && c.ready + c.planning + c.applying + c.failed + c.stalled + c.rateLimited + c.blocked == r.total
            && |r.failed| + |r.stalled| + |r.rateLimited| + |r.blocked| + r.truncated ==
               c.failed + c.stalled + c.rateLimited + c.blocked
            && |r.failed| <= cap && |r.stalled| <= cap && |r.rateLimited| <= cap && |r.blocked| <= cap
  {
    hide Of, Placing, Spread, Take, Over, CountsOf, VerdictOf;
    PlacingOk(leaves);
    var ps := Placing(leaves);
    KindsPartition(ps);
    CountsSmall(ps);
    FailedLength(ps);
    StalledLength(ps);
    RateLimitedLength(ps);
    BlockedLength(ps);
    TakeLength(Spread(ps, FailedOf), cap);
    TakeLength(Spread(ps, StalledOf), cap);
    TakeLength(Spread(ps, RateLimitedOf), cap);
    TakeLength(Spread(ps, BlockedOf), cap);
    SmallMod(Dropped(ps, cap));
  }

  lemma {:induction false} NoneOf(ps: seq<Placed>, k: Kind)
    ensures Of(ps, k) == 0 <==> forall i :: 0 <= i < |ps| ==> KindOf(ps[i]) != k
  {
    hide KindOf;
    if ps != [] {
      var front, last := ps[..|ps| - 1], ps[|ps| - 1];
      assert ps == front + [last];
      NoneOf(front, k);
      OfStep(front, last, k);
      assert forall i :: 0 <= i < |front| ==> ps[i] == front[i];
    }
  }

  ghost predicate NamesDistinct(leaves: seq<LeafView>) {
    forall i, j :: 0 <= i < j < |leaves| ==> leaves[i].name != leaves[j].name
  }

  lemma {:induction false} ByNameIsFrom(leaves: seq<LeafView>)
    ensures forall n :: n in ByName(leaves) ==> ByName(leaves)[n] in leaves && ByName(leaves)[n].name == n
    ensures forall l :: l in leaves ==> l.name in ByName(leaves)
  {
    if leaves != [] {
      var front, last := leaves[..|leaves| - 1], leaves[|leaves| - 1];
      ByNameIsFrom(front);
      assert leaves == front + [last];
    }
  }

  lemma DistinctNamesTell(leaves: seq<LeafView>, a: LeafView, b: LeafView)
    requires NamesDistinct(leaves) && a in leaves && b in leaves && a.name == b.name
    ensures a == b
  {
    var i :| 0 <= i < |leaves| && leaves[i] == a;
    var j :| 0 <= j < |leaves| && leaves[j] == b;
    assert i == j;
  }

  lemma ByNameFinds(leaves: seq<LeafView>, l: LeafView)
    requires NamesDistinct(leaves) && l in leaves
    ensures l.name in ByName(leaves) && ByName(leaves)[l.name] == l
  {
    ByNameIsFrom(leaves);
    DistinctNamesTell(leaves, ByName(leaves)[l.name], l);
  }

  lemma PlacedAt(leaves: seq<LeafView>, l: LeafView) returns (i: nat)
    requires l in leaves
    ensures i < |Placing(leaves)| && Placing(leaves)[i].leaf == l
  {
    hide Placing, Sort;
    PlacingOk(leaves);
    SameMembers(leaves, Sort(leaves, NameLe), l);
    i :| 0 <= i < |Sort(leaves, NameLe)| && Sort(leaves, NameLe)[i] == l;
  }

  lemma PlacedFrom(leaves: seq<LeafView>, i: nat)
    requires i < |Placing(leaves)|
    ensures Placing(leaves)[i].leaf in leaves
  {
    hide Placing, Sort;
    PlacingOk(leaves);
    SameMembers(leaves, Sort(leaves, NameLe), Placing(leaves)[i].leaf);
  }

  /** A leaf with a holding upstream is blocked, whatever the memo. */
  lemma {:induction false} WalkDirect(leaves: seq<LeafView>, v: Views)
    ensures var (ps, memo) := Walk(leaves, v);
            && DirectOk(v, memo) && |ps| == |leaves|
            && forall i :: 0 <= i < |ps| ==>
                ps[i].leaf == leaves[i] && (Holding(leaves[i].state) || Direct(v, leaves[i].name, ps[i].held))
  {
    hide DirectOk, Direct, Search, Holding;
    if leaves == [] {
      NothingDirect(v);
    } else {
      var front, last := leaves[..|leaves| - 1], leaves[|leaves| - 1];
      WalkDirect(front, v);
      assert leaves[..|leaves|] == leaves;
      WalkStep(leaves, v, |leaves| - 1);
      SearchDirect(last.name, v, Walk(front, v).1, {});
    }
  }

  ghost predicate InTrouble(v: Views, l: LeafView) {
    l.state.Failed? || l.state.Stalled? || (!Holding(l.state) && Holders(v, l.name) != {})
  }

  /** The verdict is exact: a cycle can shorten a list of holders, but never hide that a leaf is blocked from the
      verdict. */
  lemma VerdictExactly(leaves: seq<LeafView>, cap: nat)
    requires |leaves| <= U32_MAX && NamesDistinct(leaves)
    ensures RollupOf(leaves, cap).verdict == Converged <==> forall l :: l in leaves ==> l.state == Ready
    ensures RollupOf(leaves, cap).verdict == Partial <==> exists l :: l in leaves && InTrouble(ByName(leaves), l)
  {
    hide *;
    var ps := Placing(leaves);
    VerdictByKinds(leaves, cap);
    if exists i :: 0 <= i < |ps| && Troubled(ps[i]) {
      var i :| 0 <= i < |ps| && Troubled(ps[i]);
      TroubleIsReal(leaves, i);
    }
    if exists l :: l in leaves && InTrouble(ByName(leaves), l) {
      var l :| l in leaves && InTrouble(ByName(leaves), l);
      TroubleIsSeen(leaves, l);
    }
    if forall l :: l in leaves ==> l.state == Ready { AllReadyIsPlain(leaves); }
    if forall i :: 0 <= i < |ps| ==> KindOf(ps[i]) == KReady {
      forall l | l in leaves ensures l.state == Ready { PlainIsReady(leaves, l); }
    }
  }

  predicate Troubled(p: Placed) { KindOf(p) in {KFailed, KStalled, KBlocked} }

  lemma VerdictByKinds(leaves: seq<LeafView>, cap: nat)
    requires |leaves| <= U32_MAX
    ensures var ps, verdict := Placing(leaves), RollupOf(leaves, cap).verdict;
            && (verdict == Partial <==> exists i :: 0 <= i < |ps| && Troubled(ps[i]))
            && (verdict == Converged <==> forall i :: 0 <= i < |ps| ==> KindOf(ps[i]) == KReady)
  {
    hide Placing, Of, KindOf, CountsOf, Spread, Dropped, Take, VerdictOf;
    var ps := Placing(leaves);
    PlacingOk(leaves);
    VerdictNumbers(ps);
    AllOf(ps, KReady);
    NoneOf(ps, KFailed);
    NoneOf(ps, KStalled);
    NoneOf(ps, KBlocked);
  }

  lemma VerdictNumbers(ps: seq<Placed>)
    requires |ps| <= U32_MAX
    ensures var verdict := VerdictOf(CountsOf(ps), |ps|);
            && (verdict == Partial <==> Of(ps, KFailed) > 0 || Of(ps, KStalled) > 0 || Of(ps, KBlocked) > 0)
            && (verdict == Converged <==> Of(ps, KReady) == |ps|)
  {
    hide Of, CountsOf;
    CountsSmall(ps);
    KindsPartition(ps);
    SmallMod(Of(ps, KFailed) + Of(ps, KStalled) + Of(ps, KBlocked));
  }

  lemma {:induction false} AllOf(ps: seq<Placed>, k: Kind)
    ensures Of(ps, k) <= |ps|
    ensures Of(ps, k) == |ps| <==> forall i :: 0 <= i < |ps| ==> KindOf(ps[i]) == k
  {
    hide KindOf;
    if ps != [] {
      var front, last := ps[..|ps| - 1], ps[|ps| - 1];
      assert ps == front + [last];
      AllOf(front, k);
      OfStep(front, last, k);
      assert forall i :: 0 <= i < |front| ==> ps[i] == front[i];
    }
  }

  lemma TroubleIsReal(leaves: seq<LeafView>, i: nat)
    requires i < |Placing(leaves)| && Troubled(Placing(leaves)[i])
    ensures exists l :: l in leaves && InTrouble(ByName(leaves), l)
  {
    hide Placing, Holders, ByName;
    PlacingOk(leaves);
    PlacedFrom(leaves, i);
    assert InTrouble(ByName(leaves), Placing(leaves)[i].leaf);
  }

  lemma TroubleIsSeen(leaves: seq<LeafView>, l: LeafView)
    requires NamesDistinct(leaves) && l in leaves && InTrouble(ByName(leaves), l)
    ensures exists i :: 0 <= i < |Placing(leaves)| && Troubled(Placing(leaves)[i])
  {
    hide Placing, ByName;
    PlacingOk(leaves);
    if Holding(l.state) {
      var i := PlacedAt(leaves, l);
      assert Troubled(Placing(leaves)[i]);
    } else {
      var v := ByName(leaves);
      var h :| h in Holders(v, l.name);
      ByNameFinds(leaves, l);
      var m, u := HolderNextDoor(v, l.name, h);
      hide Holders;
      ByNameIsFrom(leaves);
      var i := PlacedAt(leaves, v[m]);
      PlacingDirect(leaves, i, u);
      assert Troubled(Placing(leaves)[i]);
    }
  }

  lemma PlacingDirect(leaves: seq<LeafView>, i: nat, u: string)
    requires i < |Placing(leaves)| && !Holding(Placing(leaves)[i].leaf.state)
    requires var v := ByName(leaves); Up(v, Placing(leaves)[i].leaf.name, u) && Holding(v[u].state)
    ensures u in Placing(leaves)[i].held
  {
    hide Walk, ByName, Up, Holding, Sort;
    WalkDirect(Sort(leaves, NameLe), ByName(leaves));
  }

  lemma AllReadyIsPlain(leaves: seq<LeafView>)
    requires forall l :: l in leaves ==> l.state == Ready
    ensures var ps := Placing(leaves); forall i :: 0 <= i < |ps| ==> KindOf(ps[i]) == KReady
  {
    hide Placing, ByName, Reach;
    var ps := Placing(leaves);
    PlacingOk(leaves);
    ByNameIsFrom(leaves);
    forall i | 0 <= i < |ps| ensures KindOf(ps[i]) == KReady { PlacedFrom(leaves, i); }
  }

  lemma PlainIsReady(leaves: seq<LeafView>, l: LeafView)
    requires l in leaves
    requires var ps := Placing(leaves); forall i :: 0 <= i < |ps| ==> KindOf(ps[i]) == KReady
    ensures l.state == Ready
  {
    hide Placing;
    var i := PlacedAt(leaves, l);
    assert KindOf(Placing(leaves)[i]) == KReady;
  }

  /** With distinct names the rollup does not depend on the order of the leaves. */
  lemma JudgeForgetsOrder(a: seq<LeafView>, b: seq<LeafView>, cap: nat)
    requires NamesDistinct(a) && NamesDistinct(b) && multiset(a) == multiset(b)
    ensures RollupOf(a, cap) == RollupOf(b, cap)
  {
    hide *;
    NameLeIsPreorder();
    forall x, y | x in a && y in a && NameLe(x, y) && NameLe(y, x) ensures x == y { SameNameSame(a, x, y); }
    SortForgetsOrder(a, b, NameLe);
    assert |a| == |multiset(a)| == |multiset(b)| == |b|;
    var va, vb := ByName(a), ByName(b);
    ByNameIsFrom(a);
    ByNameIsFrom(b);
    forall n ensures n in va <==> n in vb {
      if n in va { SameMembers(a, b, va[n]); }
      if n in vb { SameMembers(a, b, vb[n]); }
    }
    forall n | n in va ensures va[n] == vb[n] {
      SameMembers(a, b, va[n]);
      DistinctNamesTell(b, va[n], vb[n]);
    }
    assert va == vb;
    RollupIsOf(a, cap, b);
  }

  lemma SameNameSame(a: seq<LeafView>, x: LeafView, y: LeafView)
    requires NamesDistinct(a) && x in a && y in a && NameLe(x, y) && NameLe(y, x)
    ensures x == y
  {
    StrLeAntisymmetric(x.name, y.name);
    DistinctNamesTell(a, x, y);
  }

  lemma RollupIsOf(a: seq<LeafView>, cap: nat, b: seq<LeafView>)
    requires |a| == |b| && Sort(a, NameLe) == Sort(b, NameLe) && ByName(a) == ByName(b)
    ensures RollupOf(a, cap) == RollupOf(b, cap)
  {
    hide Walk, Sort, ByName;
  }

  // ----- what a restart announces ------------------------------------------------------------------

  datatype Held = HeldFailed | HeldStalled

  datatype Transition = Transition(leaf: string, held: Held, detail: string)

  function HeldOf(s: LeafState): Option<(Held, string)> {
    match s
    case Failed(reason, _) => Some((HeldFailed, reason))
    case Stalled(state, _) => Some((HeldStalled, state))
    case _ => None
  }

  type Marks = map<string, Held>

  /** `held`: the failed and stalled leaves; the last of a name wins. */
  function HeldMarks(leaves: seq<LeafView>): Marks {
    if leaves == [] then map[]
    else
      var front, last := HeldMarks(leaves[..|leaves| - 1]), leaves[|leaves| - 1];
      match HeldOf(last.state)
      case Some((h, _)) => front[last.name := h]
      case None => front
  }

  /** `seed`: what a rollup remembers of them; stalled entries are collected after failed ones. */
  function Seed(r: LeavesRollup): Marks {
    (map n | n in FailedNames(r.failed) :: HeldFailed) + (map n | n in StalledNames(r.stalled) :: HeldStalled)
  }

  function FailedNames(fs: seq<FailedLeaf>): set<string> { set f | f in fs :: f.leaf }

  function StalledNames(ss: seq<StalledLeaf>): set<string> { set s | s in ss :: s.leaf }

  function Announced(prev: Marks): LeafView -> seq<Transition> {
    (l: LeafView) =>
      match HeldOf(l.state)
      case None => []
      case Some((h, detail)) => if l.name in prev && prev[l.name] == h then [] else [Transition(l.name, h, detail)]
  }

  predicate LeafLe(a: Transition, b: Transition) { StrLe(a.leaf, b.leaf) }

  function Transitions(prev: Marks, leaves: seq<LeafView>): seq<Transition> {
    Sort(Spread(leaves, Announced(prev)), LeafLe)
  }

  lemma LeafLeIsPreorder()
    ensures TotalPreorder(LeafLe)
  {
    forall x: Transition, y: Transition ensures LeafLe(x, y) || LeafLe(y, x) { StrLeTotal(x.leaf, y.leaf); }
    forall x: Transition, y: Transition, z: Transition | LeafLe(x, y) && LeafLe(y, z) ensures LeafLe(x, z) {
      StrLeTransitive(x.leaf, y.leaf, z.leaf);
    }
  }

  /** A leaf is announced when it is failed or stalled and was not marked so before. */
  predicate News(prev: Marks, l: LeafView) {
    match HeldOf(l.state)
    case None => false
    case Some((h, _)) => !(l.name in prev && prev[l.name] == h)
  }

  function Telling(l: LeafView): (t: Transition)
    requires HeldOf(l.state).Some?
  {
    Transition(l.name, HeldOf(l.state).value.0, HeldOf(l.state).value.1)
  }

  /** The transitions are the news, once for each leaf, in name order. */
  lemma TransitionsAreNews(prev: Marks, leaves: seq<LeafView>)
    requires NamesDistinct(leaves)
    ensures var ts := Transitions(prev, leaves);
            && (forall t :: t in ts <==> exists l :: l in leaves && News(prev, l) && t == Telling(l))
            && Sorted(ts, LeafLe) && forall i, j :: 0 <= i < j < |ts| ==> ts[i].leaf != ts[j].leaf
  {
    hide Sort, Sorted, TotalPreorder, Spread;
    var raw := Spread(leaves, Announced(prev));
    LeafLeIsPreorder();
    SortSorted(raw, LeafLe);
    SortPermutes(raw, LeafLe);
    SpreadMembers(leaves, Announced(prev));
    forall t ensures t in raw <==> exists l :: l in leaves && News(prev, l) && t == Telling(l) {
      if t in raw {
        var i :| 0 <= i < |leaves| && t in Announced(prev)(leaves[i]);
        assert leaves[i] in leaves && News(prev, leaves[i]) && t == Telling(leaves[i]);
      }
      if exists l :: l in leaves && News(prev, l) && t == Telling(l) {
        var l :| l in leaves && News(prev, l) && t == Telling(l);
        var i :| 0 <= i < |leaves| && leaves[i] == l;
        assert t in Announced(prev)(leaves[i]);
      }
    }
    KeysStayDistinct(leaves, Announced(prev), (l: LeafView) => l.name, (t: Transition) => t.leaf);
    KeysPermute(raw, Sort(raw, LeafLe));
  }

  lemma KeysPermute(raw: seq<Transition>, ts: seq<Transition>)
    requires multiset(raw) == multiset(ts) && forall i, j :: 0 <= i < j < |raw| ==> raw[i].leaf != raw[j].leaf
    ensures forall i, j :: 0 <= i < j < |ts| ==> ts[i].leaf != ts[j].leaf
  {
    NoRepeatsIsPermutable(raw, ts);
    forall i, j | 0 <= i < j < |ts| ensures ts[i].leaf != ts[j].leaf {
      SameMembers(raw, ts, ts[i]);
      SameMembers(raw, ts, ts[j]);
      var a :| 0 <= a < |raw| && raw[a] == ts[i];
      var b :| 0 <= b < |raw| && raw[b] == ts[j];
      assert a != b;
    }
  }

  ghost predicate KeysDistinct<T(!new), K(!new)>(xs: seq<T>, key: T -> K) {
    forall i, j :: 0 <= i < j < |xs| ==> key(xs[i]) != key(xs[j])
  }

  /** Listing at most one item for each element, under the key of the element, keeps keys distinct. */
  lemma {:induction false} KeysStayDistinct<T(!new), U(!new), K(!new)>(
    xs: seq<T>, w: T -> seq<U>, tk: T -> K, uk: U -> K)
    requires KeysDistinct(xs, tk)
    requires forall x :: |w(x)| <= 1
    requires forall x, u :: u in w(x) ==> uk(u) == tk(x)
    ensures KeysDistinct(Spread(xs, w), uk)
  {
    if xs != [] {
      var front, last := xs[..|xs| - 1], xs[|xs| - 1];
      KeysStayDistinct(front, w, tk, uk);
      SpreadMembers(front, w);
      var s, all := Spread(front, w), Spread(xs, w);
      assert all == s + w(last);
      forall i, j | 0 <= i < j < |all| ensures uk(all[i]) != uk(all[j]) {
        if j >= |s| {
          assert all[j] == w(last)[j - |s|] && all[j] in w(last);
          assert all[i] == s[i] && all[i] in s;
          var k :| 0 <= k < |front| && all[i] in w(front[k]);
          assert tk(front[k]) == tk(xs[k]) != tk(last);
        }
      }
    }
  }

  function FailedEntry(l: LeafView): FailedLeaf
    requires l.state.Failed?
  {
    FailedLeaf(l.name, l.state.reason, l.state.since)
  }

  function StalledEntry(l: LeafView): StalledLeaf
    requires l.state.Stalled?
  {
    StalledLeaf(l.name, l.state.state, l.state.since)
  }

  lemma HoldingIsUnheld(leaves: seq<LeafView>, i: nat)
    requires i < |Placing(leaves)| && Holding(Placing(leaves)[i].leaf.state)
    ensures Placing(leaves)[i].held == {}
  {
    hide Placing;
    PlacingOk(leaves);
  }

  lemma FailedAreListed(leaves: seq<LeafView>)
    ensures forall f :: f in Spread(Placing(leaves), FailedOf) <==>
            exists l :: l in leaves && l.state.Failed? && f == FailedEntry(l)
  {
    hide Placing, Spread, FailedOf, FailedEntry;
    var ps := Placing(leaves);
    SpreadMembers(ps, FailedOf);
    forall f | f in Spread(ps, FailedOf) ensures exists l :: l in leaves && l.state.Failed? && f == FailedEntry(l) {
      var i :| 0 <= i < |ps| && f in FailedOf(ps[i]);
      PlacedFrom(leaves, i);
      FailedOfIsEntry(ps[i]);
    }
    forall l | l in leaves && l.state.Failed? ensures FailedEntry(l) in Spread(ps, FailedOf) {
      var i := PlacedAt(leaves, l);
      HoldingIsUnheld(leaves, i);
      FailedOfIsEntry(ps[i]);
      assert FailedEntry(l) in FailedOf(ps[i]);
    }
  }

  lemma FailedOfIsEntry(p: Placed)
    ensures FailedOf(p) != [] ==> p.leaf.state.Failed?
    ensures p.leaf.state.Failed? ==> forall f :: f in FailedOf(p) ==> f == FailedEntry(p.leaf)
    ensures p.held == {} && p.leaf.state.Failed? ==> FailedEntry(p.leaf) in FailedOf(p)
  {
  }

  lemma StalledAreListed(leaves: seq<LeafView>)
    ensures forall s :: s in Spread(Placing(leaves), StalledOf) <==>
            exists l :: l in leaves && l.state.Stalled? && s == StalledEntry(l)
  {
    hide Placing, Spread, StalledOf, StalledEntry;
    var ps := Placing(leaves);
    SpreadMembers(ps, StalledOf);
    forall s | s in Spread(ps, StalledOf) ensures exists l :: l in leaves && l.state.Stalled? && s == StalledEntry(l) {
      var i :| 0 <= i < |ps| && s in StalledOf(ps[i]);
      PlacedFrom(leaves, i);
      StalledOfIsEntry(ps[i]);
    }
    forall l | l in leaves && l.state.Stalled? ensures StalledEntry(l) in Spread(ps, StalledOf) {
      var i := PlacedAt(leaves, l);
      HoldingIsUnheld(leaves, i);
      StalledOfIsEntry(ps[i]);
      assert StalledEntry(l) in StalledOf(ps[i]);
    }
  }

  lemma StalledOfIsEntry(p: Placed)
    ensures StalledOf(p) != [] ==> p.leaf.state.Stalled?
    ensures p.leaf.state.Stalled? ==> forall s :: s in StalledOf(p) ==> s == StalledEntry(p.leaf)
    ensures p.held == {} && p.leaf.state.Stalled? ==> StalledEntry(p.leaf) in StalledOf(p)
  {
  }

  lemma PlacedNames(leaves: seq<LeafView>)
    requires NamesDistinct(leaves)
    ensures KeysDistinct(Placing(leaves), (p: Placed) => p.leaf.name)
  {
    hide Placing, Sort;
    PlacingOk(leaves);
    var sorted, ps := Sort(leaves, NameLe), Placing(leaves);
    assert NoRepeats(leaves);
    NoRepeatsIsPermutable(leaves, sorted);
    forall i, j | 0 <= i < j < |ps| ensures ps[i].leaf.name != ps[j].leaf.name {
      PlacedFrom(leaves, i);
      PlacedFrom(leaves, j);
      if ps[i].leaf.name == ps[j].leaf.name { DistinctNamesTell(leaves, sorted[i], sorted[j]); }
    }
  }

  lemma TakenOrNot<T(!new), K(!new)>(s: seq<T>, key: T -> K, cap: nat)
    requires KeysDistinct(s, key)
    ensures forall x, y :: x in s && y in Take(s, cap) && key(x) == key(y) ==> x == y
    ensures |s| <= cap <==> forall x :: x in s ==> x in Take(s, cap)
  {
    assert forall y :: y in Take(s, cap) ==> y in s;
    if |s| > cap {
      assert s[cap] in s;
      assert s[cap] !in s[..cap];
    }
  }

  /** The failed and stalled leaves that the rollup had no room for. */
  predicate Unlisted(r: LeavesRollup, l: LeafView) {
    || (l.state.Failed? && FailedEntry(l) !in r.failed)
    || (l.state.Stalled? && StalledEntry(l) !in r.stalled)
  }

  lemma ListsOf(leaves: seq<LeafView>, cap: nat)
    ensures var ps, r := Placing(leaves), RollupOf(leaves, cap);
            r.failed == Take(Spread(ps, FailedOf), cap) && r.stalled == Take(Spread(ps, StalledOf), cap)
  {
    hide Placing, Spread, Take, Dropped, CountsOf, VerdictOf;
  }

  lemma NewsIsUnlisted(leaves: seq<LeafView>, cap: nat, l: LeafView)
    requires NamesDistinct(leaves) && l in leaves
    ensures News(Seed(RollupOf(leaves, cap)), l) <==> Unlisted(RollupOf(leaves, cap), l)
  {
    hide Placing, Spread, RollupOf, NamesDistinct, KeysDistinct;
    var ps, r := Placing(leaves), RollupOf(leaves, cap);
    ListsOf(leaves, cap);
    FailedAreListed(leaves);
    StalledAreListed(leaves);
    TakeIsFrom(Spread(ps, FailedOf), cap);
    TakeIsFrom(Spread(ps, StalledOf), cap);
    hide Take;
    forall f | f in r.failed && f.leaf == l.name ensures l.state.Failed? && f == FailedEntry(l) {
      var l' :| l' in leaves && l'.state.Failed? && f == FailedEntry(l');
      DistinctNamesTell(leaves, l, l');
    }
    forall s | s in r.stalled && s.leaf == l.name ensures l.state.Stalled? && s == StalledEntry(l) {
      var l' :| l' in leaves && l'.state.Stalled? && s == StalledEntry(l');
      DistinctNamesTell(leaves, l, l');
    }
    assert l.name in FailedNames(r.failed) <==> l.state.Failed? && FailedEntry(l) in r.failed;
    assert l.name in StalledNames(r.stalled) <==> l.state.Stalled? && StalledEntry(l) in r.stalled;
  }

  lemma TakeIsFrom<T(!new)>(s: seq<T>, cap: nat)
    ensures forall x :: x in Take(s, cap) ==> x in s
  {
  }

  /** After a restart, seeding from the last rollup and replaying the same leaves announces exactly the leaves the
      rollup had no room for; nothing when the failed and the stalled are within the cap. */
  lemma RestartAnnouncesTheUnlisted(leaves: seq<LeafView>, cap: nat)
    requires NamesDistinct(leaves)
    ensures var ps, r := Placing(leaves), RollupOf(leaves, cap);
            var ts := Transitions(Seed(r), leaves);
            && (forall t :: t in ts <==> exists l :: l in leaves && Unlisted(r, l) && t == Telling(l))
            && (ts == [] <==> Of(ps, KFailed) <= cap && Of(ps, KStalled) <= cap)
            && (|leaves| <= U32_MAX ==> (ts == [] <==> r.counts.failed <= cap && r.counts.stalled <= cap))
  {
    hide Placing, RollupOf, Transitions, Seed, NamesDistinct, Of;
    var ps, r := Placing(leaves), RollupOf(leaves, cap);
    var ts := Transitions(Seed(r), leaves);
    TransitionsAreNews(Seed(r), leaves);
    forall l | l in leaves ensures News(Seed(r), l) <==> Unlisted(r, l) { NewsIsUnlisted(leaves, cap, l); }
    assert forall t :: t in ts <==> exists l :: l in leaves && Unlisted(r, l) && t == Telling(l);
    AllListed(leaves, cap);
    forall l | l in leaves && Unlisted(r, l) ensures ts != [] { assert Telling(l) in ts; }
    if ts != [] { assert ts[0] in ts; }
    if |leaves| <= U32_MAX { PlainCounts(leaves, cap); }
  }

  lemma PlainCounts(leaves: seq<LeafView>, cap: nat)
    requires |leaves| <= U32_MAX
    ensures var ps, c := Placing(leaves), RollupOf(leaves, cap).counts;
            c.failed == Of(ps, KFailed) && c.stalled == Of(ps, KStalled)
  {
    hide Placing, Of, CountsOf, Spread, Take, Dropped, VerdictOf;
    PlacingOk(leaves);
    CountsSmall(Placing(leaves));
  }

  lemma AllListed(leaves: seq<LeafView>, cap: nat)
    requires NamesDistinct(leaves)
    ensures var ps, r := Placing(leaves), RollupOf(leaves, cap);
            (forall l :: l in leaves ==> !Unlisted(r, l)) <==> Of(ps, KFailed) <= cap && Of(ps, KStalled) <= cap
  {
    hide Placing, Spread, RollupOf, NamesDistinct, KeysDistinct, Of, Take;
    var ps, r := Placing(leaves), RollupOf(leaves, cap);
    var fs, ss := Spread(ps, FailedOf), Spread(ps, StalledOf);
    ListsOf(leaves, cap);
    FailedAreListed(leaves);
    StalledAreListed(leaves);
    FailedLength(ps);
    StalledLength(ps);
    PlacedNames(leaves);
    KeysStayDistinct(ps, FailedOf, (p: Placed) => p.leaf.name, (f: FailedLeaf) => f.leaf);
    KeysStayDistinct(ps, StalledOf, (p: Placed) => p.leaf.name, (s: StalledLeaf) => s.leaf);
    TakenOrNot(fs, (f: FailedLeaf) => f.leaf, cap);
    TakenOrNot(ss, (s: StalledLeaf) => s.leaf, cap);
    assert (forall l :: l in leaves && l.state.Failed? ==> FailedEntry(l) in r.failed) <==>
        forall f :: f in fs ==> f in r.failed;
    assert (forall l :: l in leaves && l.state.Stalled? ==> StalledEntry(l) in r.stalled) <==>
        forall s :: s in ss ==> s in r.stalled;
  }

  /** Replaying the leaves against their own marks is silent. */
  lemma ReplayIsSilent(leaves: seq<LeafView>)
    requires NamesDistinct(leaves)
    ensures Transitions(HeldMarks(leaves), leaves) == []
  {
    hide Transitions, HeldMarks, NamesDistinct;
    var ts := Transitions(HeldMarks(leaves), leaves);
    TransitionsAreNews(HeldMarks(leaves), leaves);
    if ts != [] {
      assert ts[0] in ts;
      var l :| l in leaves && News(HeldMarks(leaves), l) && ts[0] == Telling(l);
      NoNews(leaves, l);
    }
  }

  lemma {:induction false} NoNews(leaves: seq<LeafView>, l: LeafView)
    requires NamesDistinct(leaves) && l in leaves
    ensures !News(HeldMarks(leaves), l)
  {
    var front, last := leaves[..|leaves| - 1], leaves[|leaves| - 1];
    assert leaves == front + [last];
    if l in front {
      assert NamesDistinct(front);
      NoNews(front, l);
      var i :| 0 <= i < |front| && front[i] == l;
      assert leaves[i].name != leaves[|leaves| - 1].name;
    }
  }
}
