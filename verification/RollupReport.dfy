/** What a rollup reports of each leaf, in terms of the leaves' states and upstreams. */
module RollupReport {
  import opened Prelude
  import opened Ordering
  import opened Grouping
  import opened Rollup
  import opened Judging

  /** A leaf in such a state holds back whatever is downstream of it. */
  predicate HoldsBack(s: LeafState) {
    match s
    case Ready | Planning | Applying => false
    case Failed(_, _) | Stalled(_, _) | RateLimited(_) => true
  }

  /** Leaf `l` is held back by leaf `h`, somewhere upstream of it. */
  ghost predicate HeldBackBy(leaves: seq<LeafView>, l: LeafView, h: LeafView) {
    !HoldsBack(l.state) && h in leaves && HoldsBack(h.state) && Reach(ByName(leaves), l.name, h.name)
  }

  ghost predicate HeldBack(leaves: seq<LeafView>, l: LeafView) { exists h :: HeldBackBy(leaves, l, h) }

  /** No cycle is upstream of any leaf. */
  ghost predicate CycleFree(leaves: seq<LeafView>) { forall l :: l in leaves ==> AcyclicFrom(ByName(leaves), l.name) }

  lemma HoldsBackIsHolding(s: LeafState)
    ensures Holding(s) == HoldsBack(s)
  {
  }

  lemma HoldersAre(leaves: seq<LeafView>, l: LeafView, n: string)
    requires NamesDistinct(leaves) && l in leaves && !HoldsBack(l.state)
    ensures n in Holders(ByName(leaves), l.name) <==> exists h :: HeldBackBy(leaves, l, h) && h.name == n
  {
    hide Reach, ByName, HoldsBack, Holding, NamesDistinct;
    ByNameIsFrom(leaves);
    var v := ByName(leaves);
    if n in v { HoldsBackIsHolding(v[n].state); }
    if n in Holders(v, l.name) { assert HeldBackBy(leaves, l, v[n]) && v[n].name == n; }
    if h :| HeldBackBy(leaves, l, h) && h.name == n { ByNameFinds(leaves, h); }
  }

  // ----- the lists ----------------------------------------------------------------------------------------

  ghost predicate NamedInOrder<E(!new)>(s: seq<E>, nm: E -> string) {
    forall i, j :: 0 <= i < j < |s| ==> StrLe(nm(s[i]), nm(s[j]))
  }

  /** `listed` is the first `cap` of the entries that belong, in the order of their names. */
  ghost predicate FirstOf<E(!new)>(listed: seq<E>, belongs: E -> bool, nm: E -> string, cap: nat) {
    && |listed| <= cap && NamedInOrder(listed, nm)
    && (forall e :: e in listed ==> belongs(e))
    && forall e :: belongs(e) && e !in listed ==> |listed| == cap && forall x :: x in listed ==> StrLe(nm(x), nm(e))
  }

  lemma {:induction false} SpreadInOrder<E(!new)>(ps: seq<Placed>, w: Placed -> seq<E>, nm: E -> string)
    requires forall i, j :: 0 <= i < j < |ps| ==> StrLe(ps[i].leaf.name, ps[j].leaf.name)
    requires forall p :: |w(p)| <= 1 && forall e :: e in w(p) ==> nm(e) == p.leaf.name
    ensures NamedInOrder(Spread(ps, w), nm)
  {
    hide StrLe;
    if ps != [] {
      var front, last := ps[..|ps| - 1], ps[|ps| - 1];
      SpreadInOrder(front, w, nm);
      SpreadMembers(front, w);
      var s, more := Spread(front, w), w(last);
      forall i, j | 0 <= i < j < |s + more| ensures StrLe(nm((s + more)[i]), nm((s + more)[j])) {
        if j >= |s| {
          assert (s + more)[j] in more && i < |s| && s[i] in s;
          var k :| 0 <= k < |front| && s[i] in w(front[k]);
        }
      }
    }
  }

  lemma FirstCome<E(!new)>(s: seq<E>, belongs: E -> bool, nm: E -> string, cap: nat)
    requires NamedInOrder(s, nm) && forall e :: e in s <==> belongs(e)
    ensures FirstOf(Take(s, cap), belongs, nm, cap)
  {
    hide StrLe;
    forall e | e in s && e !in Take(s, cap) ensures |s| > cap && forall x :: x in s[..cap] ==> StrLe(nm(x), nm(e)) {
      var j :| 0 <= j < |s| && s[j] == e;
      assert |s| > cap && j >= cap;
    }
  }

  lemma PlacedInOrder(leaves: seq<LeafView>)
    ensures var ps := Placing(leaves); forall i, j :: 0 <= i < j < |ps| ==> StrLe(ps[i].leaf.name, ps[j].leaf.name)
  {
    PlacingOk(leaves);
    hide Placing, StrLe, Sort;
    var ps := Placing(leaves);
    forall i, j | 0 <= i < j < |ps| ensures StrLe(ps[i].leaf.name, ps[j].leaf.name) {
      assert NameLe(ps[i].leaf, ps[j].leaf);
    }
  }

  ghost function FailedOnes(leaves: seq<LeafView>): FailedLeaf -> bool {
    (f: FailedLeaf) => exists l :: l in leaves && l.name == f.leaf && l.state == Failed(f.reason, f.since)
  }

  ghost function StalledOnes(leaves: seq<LeafView>): StalledLeaf -> bool {
    (s: StalledLeaf) => exists l :: l in leaves && l.name == s.leaf && l.state == Stalled(s.state, s.since)
  }

  ghost function RateLimitedOnes(leaves: seq<LeafView>): RateLimitedLeaf -> bool {
    (r: RateLimitedLeaf) => exists l :: l in leaves && l.name == r.leaf && l.state == RateLimited(r.until)
  }

  /** The names of the leaves that hold `l` back, in order, each once. */
  ghost predicate NamesHolders(leaves: seq<LeafView>, l: LeafView, by_: seq<string>) {
    && Sorted(by_, StrLe) && NoRepeats(by_)
    && forall n :: n in by_ <==> exists h :: HeldBackBy(leaves, l, h) && h.name == n
  }

  ghost function BlockedOnes(leaves: seq<LeafView>): BlockedLeaf -> bool {
    (b: BlockedLeaf) => b.by_ != [] && exists l :: l in leaves && l.name == b.leaf && NamesHolders(leaves, l, b.by_)
  }

  /** The failed leaves, with reason and time, the first `cap` of them by name. */
  lemma FailedReport(leaves: seq<LeafView>, cap: nat)
    ensures FirstOf(RollupOf(leaves, cap).failed, FailedOnes(leaves), (f: FailedLeaf) => f.leaf, cap)
  {
    var s := Spread(Placing(leaves), FailedOf);
    var nm := (f: FailedLeaf) => f.leaf;
    FailedAreListed(leaves);
    ListsOf(leaves, cap);
    PlacedInOrder(leaves);
    hide Placing, RollupOf, StrLe, Spread;
    SpreadInOrder(Placing(leaves), FailedOf, nm);
    forall f ensures f in s <==> FailedOnes(leaves)(f) {
      if f in s { var l :| l in leaves && l.state.Failed? && f == FailedEntry(l); }
      if FailedOnes(leaves)(f) {
        var l :| l in leaves && l.name == f.leaf && l.state == Failed(f.reason, f.since);
        assert f == FailedEntry(l);
      }
    }
    FirstCome(s, FailedOnes(leaves), nm, cap);
  }

  lemma StalledReport(leaves: seq<LeafView>, cap: nat)
    ensures FirstOf(RollupOf(leaves, cap).stalled, StalledOnes(leaves), (s: StalledLeaf) => s.leaf, cap)
  {
    var s := Spread(Placing(leaves), StalledOf);
    var nm := (f: StalledLeaf) => f.leaf;
    StalledAreListed(leaves);
    ListsOf(leaves, cap);
    PlacedInOrder(leaves);
    hide Placing, RollupOf, StrLe, Spread;
    SpreadInOrder(Placing(leaves), StalledOf, nm);
    forall f ensures f in s <==> StalledOnes(leaves)(f) {
      if f in s { var l :| l in leaves && l.state.Stalled? && f == StalledEntry(l); }
      if StalledOnes(leaves)(f) {
        var l :| l in leaves && l.name == f.leaf && l.state == Stalled(f.state, f.since);
        assert f == StalledEntry(l);
      }
    }
    FirstCome(s, StalledOnes(leaves), nm, cap);
  }

  lemma OtherLists(leaves: seq<LeafView>, cap: nat)
    ensures var ps, r := Placing(leaves), RollupOf(leaves, cap);
            r.rateLimited == Take(Spread(ps, RateLimitedOf), cap) && r.blocked == Take(Spread(ps, BlockedOf), cap)
  {
    hide Placing, Spread, Take, Dropped, CountsOf, VerdictOf;
  }

  lemma RateLimitedReport(leaves: seq<LeafView>, cap: nat)
    ensures FirstOf(RollupOf(leaves, cap).rateLimited, RateLimitedOnes(leaves), (r: RateLimitedLeaf) => r.leaf, cap)
  {
    var ps := Placing(leaves);
    var s := Spread(ps, RateLimitedOf);
    var nm := (f: RateLimitedLeaf) => f.leaf;
    OtherLists(leaves, cap);
    PlacedInOrder(leaves);
    hide Placing, RollupOf, StrLe, Spread;
    SpreadInOrder(ps, RateLimitedOf, nm);
    SpreadMembers(ps, RateLimitedOf);
    forall f ensures f in s <==> RateLimitedOnes(leaves)(f) {
      if f in s {
        var i :| 0 <= i < |ps| && f in RateLimitedOf(ps[i]);
        PlacedFrom(leaves, i);
        assert ps[i].leaf.name == f.leaf && ps[i].leaf.state == RateLimited(f.until);
      }
      if RateLimitedOnes(leaves)(f) {
        var l :| l in leaves && l.name == f.leaf && l.state == RateLimited(f.until);
        var i := PlacedAt(leaves, l);
        HoldingIsUnheld(leaves, i);
        assert f in RateLimitedOf(ps[i]);
      }
    }
    FirstCome(s, RateLimitedOnes(leaves), nm, cap);
  }

  /** Where no cycle is upstream, a placed leaf is held by exactly the leaves that hold it back. */
  lemma HeldExactly(leaves: seq<LeafView>, i: nat)
    requires NamesDistinct(leaves) && CycleFree(leaves) && i < |Placing(leaves)|
    ensures var p := Placing(leaves)[i];
            forall n :: n in p.held <==> exists h :: HeldBackBy(leaves, p.leaf, h) && h.name == n
  {
    hide *;
    var p := Placing(leaves)[i];
    PlacingOk(leaves);
    PlacedFrom(leaves, i);
    HoldsBackIsHolding(p.leaf.state);
    FreeOfCycles(leaves, p.leaf);
    forall n ensures n in p.held <==> exists h :: HeldBackBy(leaves, p.leaf, h) && h.name == n {
      if HoldsBack(p.leaf.state) { NotHeldBack(leaves, p.leaf); } else { HoldersAre(leaves, p.leaf, n); }
    }
  }

  lemma FreeOfCycles(leaves: seq<LeafView>, l: LeafView)
    requires CycleFree(leaves) && l in leaves
    ensures AcyclicFrom(ByName(leaves), l.name)
  {
  }

  lemma NotHeldBack(leaves: seq<LeafView>, l: LeafView)
    requires HoldsBack(l.state)
    ensures forall h :: !HeldBackBy(leaves, l, h)
  {
  }

  lemma BlockedOfIs(p: Placed)
    ensures TotalOrder(StrLe)
    ensures BlockedOf(p) == if p.held == {} then [] else [BlockedLeaf(p.leaf.name, InOrder(p.held, StrLe))]
  {
    StrLeIsTotalOrder();
  }

  lemma HoldersInOrder(leaves: seq<LeafView>, p: Placed, by_: seq<string>)
    requires forall n :: n in p.held <==> exists h :: HeldBackBy(leaves, p.leaf, h) && h.name == n
    requires NamesHolders(leaves, p.leaf, by_)
    ensures TotalOrder(StrLe) && by_ == InOrder(p.held, StrLe)
  {
    StrLeIsTotalOrder();
    hide HeldBackBy, StrLe, TotalOrder, NoRepeats, Sorted;
    SameElementsSameOrder(by_, InOrder(p.held, StrLe), StrLe);
  }

  /** The blocked leaves, each with exactly the leaves that hold it back, the first `cap` of them by name. */
  lemma BlockedReport(leaves: seq<LeafView>, cap: nat)
    requires NamesDistinct(leaves) && CycleFree(leaves)
    ensures FirstOf(RollupOf(leaves, cap).blocked, BlockedOnes(leaves), (b: BlockedLeaf) => b.leaf, cap)
  {
    hide *;
    var ps := Placing(leaves);
    var s := Spread(ps, BlockedOf);
    var nm := (b: BlockedLeaf) => b.leaf;
    OtherLists(leaves, cap);
    PlacedInOrder(leaves);
    forall p: Placed ensures |BlockedOf(p)| <= 1 && forall e :: e in BlockedOf(p) ==> nm(e) == p.leaf.name {
      BlockedOfIs(p);
    }
    SpreadInOrder(ps, BlockedOf, nm);
    SpreadMembers(ps, BlockedOf);
    forall b ensures b in s <==> BlockedOnes(leaves)(b) {
      BlockedOnesAre(leaves, b);
      if b in s {
        var i :| 0 <= i < |ps| && b in BlockedOf(ps[i]);
        BlockedEntry(leaves, i, b);
      }
      if b.by_ != [] && exists l :: l in leaves && l.name == b.leaf && NamesHolders(leaves, l, b.by_) {
        var l :| l in leaves && l.name == b.leaf && NamesHolders(leaves, l, b.by_);
        var i := PlacedAt(leaves, l);
        EntryBlocked(leaves, i, b);
        assert b in BlockedOf(ps[i]);
      }
    }
    FirstCome(s, BlockedOnes(leaves), nm, cap);
  }

  lemma BlockedOnesAre(leaves: seq<LeafView>, b: BlockedLeaf)
    ensures BlockedOnes(leaves)(b) <==>
            b.by_ != [] && exists l :: l in leaves && l.name == b.leaf && NamesHolders(leaves, l, b.by_)
  {
    hide NamesHolders;
  }

  lemma BlockedEntry(leaves: seq<LeafView>, i: nat, b: BlockedLeaf)
    requires NamesDistinct(leaves) && CycleFree(leaves) && i < |Placing(leaves)| && b in BlockedOf(Placing(leaves)[i])
    ensures var l := Placing(leaves)[i].leaf;
            b.by_ != [] && l in leaves && l.name == b.leaf && NamesHolders(leaves, l, b.by_)
  {
    HeldExactly(leaves, i);
    PlacedFrom(leaves, i);
    StrLeIsTotalOrder();
    hide Placing, HeldBackBy, StrLe, TotalOrder, InOrder, KindOf;
    var p := Placing(leaves)[i];
    BlockedOfIs(p);
    assert b == BlockedLeaf(p.leaf.name, InOrder(p.held, StrLe));
    var n :| n in p.held;
    assert n in b.by_;
  }

  lemma EntryBlocked(leaves: seq<LeafView>, i: nat, b: BlockedLeaf)
    requires NamesDistinct(leaves) && CycleFree(leaves) && i < |Placing(leaves)| && b.by_ != []
    requires var l := Placing(leaves)[i].leaf; l.name == b.leaf && NamesHolders(leaves, l, b.by_)
    ensures b in BlockedOf(Placing(leaves)[i])
  {
    HeldExactly(leaves, i);
    hide Placing, HeldBackBy, StrLe, InOrder, KindOf;
    var p := Placing(leaves)[i];
    HoldersInOrder(leaves, p, b.by_);
    assert b.by_[0] in b.by_;
    BlockedOfIs(p);
  }

  // ----- the counts --------------------------------------------------------------------------------------------

  ghost predicate CountedAs(leaves: seq<LeafView>, l: LeafView, k: Kind) {
    match l.state
    case Failed(_, _) => k == KFailed
    case Stalled(_, _) => k == KStalled
    case RateLimited(_) => k == KRateLimited
    case Ready => k == if HeldBack(leaves, l) then KBlocked else KReady
    case Planning => k == if HeldBack(leaves, l) then KBlocked else KPlanning
    case Applying => k == if HeldBack(leaves, l) then KBlocked else KApplying
  }

  lemma KindExactly(leaves: seq<LeafView>, i: nat, k: Kind)
    requires NamesDistinct(leaves) && CycleFree(leaves) && i < |Placing(leaves)|
    ensures KindOf(Placing(leaves)[i]) == k <==> CountedAs(leaves, Placing(leaves)[i].leaf, k)
  {
    HeldExactly(leaves, i);
    hide Placing, Reach;
    var p := Placing(leaves)[i];
    if p.held != {} {
      var n :| n in p.held;
      var h :| HeldBackBy(leaves, p.leaf, h) && h.name == n;
      assert HeldBack(leaves, p.leaf);
    } else {
      forall h ensures !HeldBackBy(leaves, p.leaf, h) { assert h.name !in p.held; }
    }
  }

  ghost function Those(leaves: seq<LeafView>, k: Kind): set<LeafView> { set l | l in leaves && CountedAs(leaves, l, k) }

  ghost predicate PlacedAs(ps: seq<Placed>, k: Kind, l: LeafView) {
    exists i :: 0 <= i < |ps| && ps[i].leaf == l && KindOf(ps[i]) == k
  }

  ghost predicate Apart(ps: seq<Placed>) { forall i, j :: 0 <= i < j < |ps| ==> ps[i].leaf != ps[j].leaf }

  lemma PlacedAsStep(front: seq<Placed>, p: Placed, k: Kind, l: LeafView)
    ensures PlacedAs(front + [p], k, l) <==> PlacedAs(front, k, l) || (p.leaf == l && KindOf(p) == k)
  {
    hide KindOf;
    var ps := front + [p];
    if i :| 0 <= i < |front| && front[i].leaf == l && KindOf(front[i]) == k { assert ps[i] == front[i]; }
    if p.leaf == l && KindOf(p) == k { assert ps[|front|] == p; }
  }

  lemma ApartStep(front: seq<Placed>, p: Placed, k: Kind)
    requires Apart(front + [p])
    ensures Apart(front) && !PlacedAs(front, k, p.leaf)
  {
    hide KindOf;
    var ps := front + [p];
    assert forall i :: 0 <= i < |front| ==> ps[i] == front[i];
    assert ps[|front|] == p;
  }

  lemma {:induction false} OfCounts(ps: seq<Placed>, k: Kind, those: set<LeafView>)
    requires Apart(ps) && forall l :: l in those <==> PlacedAs(ps, k, l)
    ensures Of(ps, k) == |those|
  {
    hide KindOf, Of;
    if ps == [] {
      assert those == {};
      NothingOf(k);
    } else {
      var front, p := ps[..|ps| - 1], ps[|ps| - 1];
      assert ps == front + [p];
      hide PlacedAs, Apart;
      OfStep(front, p, k);
      ApartStep(front, p, k);
      var rest := those - {p.leaf};
      forall l ensures l in rest <==> PlacedAs(front, k, l) { PlacedAsStep(front, p, k, l); }
      OfCounts(front, k, rest);
      PlacedAsStep(front, p, k, p.leaf);
      assert those == if KindOf(p) == k then rest + {p.leaf} else rest;
    }
  }

  lemma NothingOf(k: Kind)
    ensures Of([], k) == 0
  {
  }

  lemma OfExactly(leaves: seq<LeafView>, k: Kind)
    requires NamesDistinct(leaves) && CycleFree(leaves)
    ensures Of(Placing(leaves), k) == |Those(leaves, k)|
  {
    hide *;
    var ps, those := Placing(leaves), Those(leaves, k);
    PlacedApart(leaves);
    forall l ensures l in those <==> PlacedAs(ps, k, l) {
      ThoseAre(leaves, k, l);
      PlacedAsMeans(ps, k, l);
      if l in those {
        var i := PlacedAt(leaves, l);
        KindExactly(leaves, i, k);
      }
      if i :| 0 <= i < |ps| && ps[i].leaf == l && KindOf(ps[i]) == k {
        KindExactly(leaves, i, k);
        PlacedFrom(leaves, i);
      }
    }
    OfCounts(ps, k, those);
  }

  lemma PlacedAsMeans(ps: seq<Placed>, k: Kind, l: LeafView)
    ensures PlacedAs(ps, k, l) <==> exists i :: 0 <= i < |ps| && ps[i].leaf == l && KindOf(ps[i]) == k
  {
    hide KindOf;
  }

  lemma PlacedApart(leaves: seq<LeafView>)
    requires NamesDistinct(leaves)
    ensures Apart(Placing(leaves))
  {
    PlacedNames(leaves);
    hide Placing;
    var ps := Placing(leaves);
    var key := (p: Placed) => p.leaf.name;
    forall i, j | 0 <= i < j < |ps| ensures ps[i].leaf != ps[j].leaf { assert key(ps[i]) != key(ps[j]); }
  }

  lemma ThoseAre(leaves: seq<LeafView>, k: Kind, l: LeafView)
    ensures l in Those(leaves, k) <==> l in leaves && CountedAs(leaves, l, k)
  {
    hide CountedAs;
  }

  /** Every count is of the leaves in that state, save that a leaf which is ready, planning or applying and held back
      by another counts as blocked instead. */
  lemma CountsExactly(leaves: seq<LeafView>, cap: nat)
    requires NamesDistinct(leaves) && CycleFree(leaves) && |leaves| <= U32_MAX
    ensures var c := RollupOf(leaves, cap).counts;
            && c.ready == |Those(leaves, KReady)| && c.planning == |Those(leaves, KPlanning)|
            && c.applying == |Those(leaves, KApplying)| && c.failed == |Those(leaves, KFailed)|
            && c.stalled == |Those(leaves, KStalled)| && c.rateLimited == |Those(leaves, KRateLimited)|
            && c.blocked == |Those(leaves, KBlocked)|
  {
    hide *;
    PlacingOk(leaves);
    CountsSmall(Placing(leaves));
    RollupCounts(leaves, cap);
    OfExactly(leaves, KReady);
    OfExactly(leaves, KPlanning);
    OfExactly(leaves, KApplying);
    OfExactly(leaves, KFailed);
    OfExactly(leaves, KStalled);
    OfExactly(leaves, KRateLimited);
    OfExactly(leaves, KBlocked);
  }

  lemma RollupCounts(leaves: seq<LeafView>, cap: nat)
    ensures RollupOf(leaves, cap).counts == CountsOf(Placing(leaves))
  {
    hide Placing, Spread, Take, Dropped, CountsOf, VerdictOf;
  }

  /** Of any number of leaves: the total stops at the u32 maximum, and the counts make the number of leaves modulo
      2^32. */
  lemma CountsWrap(leaves: seq<LeafView>, cap: nat)
    ensures var r := RollupOf(leaves, cap); var c := r.counts;
            && r.total == (if |leaves| < 0x1_0000_0000 then |leaves| else 0xFFFF_FFFF)
            && Wrapped(c.ready + c.planning + c.applying + c.failed + c.stalled + c.rateLimited + c.blocked) ==
               Wrapped(|leaves|)
  {
    hide *;
    RollupTotal(leaves, cap);
    RollupCounts(leaves, cap);
    PlacingOk(leaves);
    var ps := Placing(leaves);
    KindsPartition(ps);
    CountsAre(ps);
    SevenSum(Of(ps, KReady), Of(ps, KPlanning), Of(ps, KApplying), Of(ps, KFailed), Of(ps, KStalled),
        Of(ps, KRateLimited), Of(ps, KBlocked));
  }

  lemma CountsAre(ps: seq<Placed>)
    ensures var c := CountsOf(ps);
            && c.ready == Wrapped(Of(ps, KReady)) && c.planning == Wrapped(Of(ps, KPlanning))
            && c.applying == Wrapped(Of(ps, KApplying)) && c.failed == Wrapped(Of(ps, KFailed))
            && c.stalled == Wrapped(Of(ps, KStalled)) && c.rateLimited == Wrapped(Of(ps, KRateLimited))
            && c.blocked == Wrapped(Of(ps, KBlocked))
  {
    hide Of;
  }

  function Wrapped(n: nat): nat { n % 0x1_0000_0000 }

  lemma SevenSum(a: nat, b: nat, c: nat, d: nat, e: nat, f: nat, g: nat)
    ensures Wrapped(Wrapped(a) + Wrapped(b) + Wrapped(c) + Wrapped(d) + Wrapped(e) + Wrapped(f) + Wrapped(g)) ==
            Wrapped(a + b + c + d + e + f + g)
  {
    hide Wrapped;
    WrapOnce(a, Wrapped(b) + Wrapped(c) + Wrapped(d) + Wrapped(e) + Wrapped(f) + Wrapped(g));
    WrapOnce(b, a + Wrapped(c) + Wrapped(d) + Wrapped(e) + Wrapped(f) + Wrapped(g));
    WrapOnce(c, a + b + Wrapped(d) + Wrapped(e) + Wrapped(f) + Wrapped(g));
    WrapOnce(d, a + b + c + Wrapped(e) + Wrapped(f) + Wrapped(g));
    WrapOnce(e, a + b + c + d + Wrapped(f) + Wrapped(g));
    WrapOnce(f, a + b + c + d + e + Wrapped(g));
    WrapOnce(g, a + b + c + d + e + f);
  }

  lemma WrapOnce(a: nat, rest: nat)
    ensures Wrapped(Wrapped(a) + rest) == Wrapped(a + rest)
  {
  }

  lemma RollupTotal(leaves: seq<LeafView>, cap: nat)
    ensures RollupOf(leaves, cap).total == if |leaves| < 0x1_0000_0000 then |leaves| else 0xFFFF_FFFF
  {
    hide Placing, Spread, Take, Dropped, CountsOf, VerdictOf;
  }

  /** With a cycle or without: the verdict is partial exactly when some leaf failed, stalled or is held back, and
      converged exactly when all are ready. */
  lemma VerdictMeans(leaves: seq<LeafView>, cap: nat)
    requires |leaves| <= U32_MAX && NamesDistinct(leaves)
    ensures var verdict := RollupOf(leaves, cap).verdict;
            && (verdict == Partial <==>
                  exists l :: l in leaves && (l.state.Failed? || l.state.Stalled? || HeldBack(leaves, l)))
            && (verdict == Converged <==> forall l :: l in leaves ==> l.state == Ready)
  {
    VerdictExactly(leaves, cap);
    hide RollupOf;
    forall l | l in leaves
      ensures InTrouble(ByName(leaves), l) <==> l.state.Failed? || l.state.Stalled? || HeldBack(leaves, l)
    {
      TroubleMeans(leaves, l);
    }
  }

  lemma TroubleMeans(leaves: seq<LeafView>, l: LeafView)
    requires NamesDistinct(leaves) && l in leaves
    ensures InTrouble(ByName(leaves), l) <==> l.state.Failed? || l.state.Stalled? || HeldBack(leaves, l)
  {
    HoldsBackIsHolding(l.state);
    hide ByName, Reach, Holders, NamesDistinct, Holding;
    if !HoldsBack(l.state) {
      var hs := Holders(ByName(leaves), l.name);
      forall n ensures n in hs <==> exists h :: HeldBackBy(leaves, l, h) && h.name == n { HoldersAre(leaves, l, n); }
      if hs != {} { var n :| n in hs; }
      if h :| HeldBackBy(leaves, l, h) { assert h.name in hs; }
    }
  }

  // ----- what is announced ----------------------------------------------------------------------------------------

  /** Leaf `l` is newly failed, or newly stalled, and `t` says so. */
  ghost predicate Tells(prev: Marks, l: LeafView, t: Transition) {
    match l.state
    case Failed(reason, _) =>
      t == Transition(l.name, HeldFailed, reason) && !(l.name in prev && prev[l.name] == HeldFailed)
    case Stalled(state, _) =>
      t == Transition(l.name, HeldStalled, state) && !(l.name in prev && prev[l.name] == HeldStalled)
    case Ready | Planning | Applying | RateLimited(_) => false
  }

  lemma AnnouncedExactly(prev: Marks, leaves: seq<LeafView>, t: Transition)
    requires NamesDistinct(leaves)
    ensures t in Transitions(prev, leaves) <==> exists l :: l in leaves && Tells(prev, l, t)
  {
    TransitionsAreNews(prev, leaves);
    hide Transitions;
    if l :| l in leaves && News(prev, l) && t == Telling(l) { assert Tells(prev, l, t); }
    if l :| l in leaves && Tells(prev, l, t) { assert News(prev, l) && t == Telling(l); }
  }

  /** The marks that are kept: the leaves that are failed or stalled now, as such. */
  lemma {:induction false} MarksExactly(leaves: seq<LeafView>, l: LeafView)
    requires NamesDistinct(leaves) && l in leaves
    ensures match l.state
            case Failed(_, _) => l.name in HeldMarks(leaves) && HeldMarks(leaves)[l.name] == HeldFailed
            case Stalled(_, _) => l.name in HeldMarks(leaves) && HeldMarks(leaves)[l.name] == HeldStalled
            case Ready | Planning | Applying | RateLimited(_) => l.name !in HeldMarks(leaves)
  {
    var front, last := leaves[..|leaves| - 1], leaves[|leaves| - 1];
    assert leaves == front + [last];
    assert NamesDistinct(front);
    MarksFrom(front);
    if l in front {
      var i :| 0 <= i < |front| && front[i] == l;
      assert leaves[i].name != leaves[|leaves| - 1].name;
      MarksExactly(front, l);
    } else {
      forall x | x in front ensures x.name != l.name {
        var i :| 0 <= i < |front| && front[i] == x;
        assert leaves[i].name != leaves[|leaves| - 1].name;
      }
    }
  }

  lemma {:induction false} MarksFrom(leaves: seq<LeafView>)
    ensures forall n :: n in HeldMarks(leaves) ==> exists l :: l in leaves && l.name == n
  {
    if leaves != [] {
      var front, last := leaves[..|leaves| - 1], leaves[|leaves| - 1];
      MarksFrom(front);
      assert leaves == front + [last];
      assert last in leaves;
    }
  }
}
