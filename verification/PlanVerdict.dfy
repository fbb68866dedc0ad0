/** What a plan says, in terms of the template's addresses and the references between them. */
module PlanVerdict {
  import opened Prelude
  import opened Ordering
  import opened Grouping
  import opened Address
  import opened UnionFind
  import opened Partitions
  import opened AddressDigest
  import opened Planning
  import opened PlanToSplit
  import Splitting
  import Dag

  // ----- the verdicts that plan nothing --------------------------------------------------------------

  ghost predicate OneKey(ms: seq<string>) { forall a, b :: a in ms && b in ms ==> KeyOf(a) == KeyOf(b) }

  predicate OverBudget(inp: Input) { inp.p95.Some? && inp.budget.Some? && inp.budget.value < inp.p95.value }

  lemma OneKeyExactly(ms: seq<string>)
    ensures |KeySet(ms)| <= 1 <==> OneKey(ms)
  {
    hide KeyOf;
    var ks := KeySet(ms);
    if ms == [] {
      assert ks == {};
    } else {
      var k := KeyOf(ms[0]);
      assert ms[0] in ms && k in ks;
      if OneKey(ms) { assert ks == {k}; }
      if |ks| <= 1 {
        assert |ks - {k}| == 0;
        forall a | a in ms ensures KeyOf(a) == k { assert KeyOf(a) !in ks - {k}; }
      }
    }
  }

  /** A template is fat exactly when two of its managed addresses have different keys, or it is over its budget; each
      of the two is given as a reason exactly when it holds. */
  lemma FatExactly(inp: Input)
    ensures var ms := Managed(inp.addresses);
            var c := Classified(|KeySet(ms)|, inp.p95, inp.budget);
            && (c.fat <==> !OneKey(ms) || OverBudget(inp))
            && (MultipleLeafKeys(|KeySet(ms)|) in c.reasons <==> !OneKey(ms))
            && (forall p: nat, b: nat :: CycleOverBudget(p, b) in c.reasons <==>
                  OverBudget(inp) && inp.p95 == Some(p) && inp.budget == Some(b))
  {
    hide Managed, KeySet, OneKey;
    OneKeyExactly(Managed(inp.addresses));
  }

  /** No plan is made exactly when the template has no name or no spec, an address does not parse, or the template is
      fat and repeats an address.  A repetition in a template that is not fat goes unnoticed. */
  lemma PlanFailsExactly(hash: seq<byte> -> string, names: LeafNames, inp: Input)
    ensures var ms := Managed(inp.addresses);
            PlanOf(hash, names, inp).Err? <==>
            || inp.fatName.None? || !inp.hasSpec
            || (exists a :: a in ms && LeafKeyOf(a).Err?)
            || (!NoRepeats(ms) && (!OneKey(ms) || OverBudget(inp)))
  {
    hide *;
    var ms := Managed(inp.addresses);
    PlanCases(hash, names, inp);
    FatExactly(inp);
    FirstBadExactly(ms);
    FaultExactly(ms);
  }

  /** A template that can be planned is called not fat, or has nothing to split, exactly when that is so. */
  lemma VerdictExactly(hash: seq<byte> -> string, names: LeafNames, inp: Input)
    requires PlanOf(hash, names, inp).Ok?
    ensures var ms, verdict := Managed(inp.addresses), PlanOf(hash, names, inp).value.verdict;
            && (verdict == NotFat <==> OneKey(ms) && !OverBudget(inp))
            && (verdict == NothingToSplit <==> (!OneKey(ms) || OverBudget(inp)) && |Target(inp)| <= 1)
            && (verdict == NotFat || verdict == NothingToSplit ==> PlanOf(hash, names, inp).value.moves == [])
  {
    hide *;
    var ms := Managed(inp.addresses);
    PlanCases(hash, names, inp);
    FatExactly(inp);
    if inp.fatName.Some? {
      var fat, c := inp.fatName.value, Classified(|KeySet(ms)|, inp.p95, inp.budget);
      NothingPlanned(fat, c, |Target(inp)|);
      OverVerdict(hash, names, inp, fat, c, Target(inp));
    }
  }

  lemma NothingPlanned(fat: string, c: Classification, n: nat)
    ensures EmptyPlan(fat, c, NotFat, 0).verdict == NotFat && EmptyPlan(fat, c, NotFat, 0).moves == []
    ensures EmptyPlan(fat, c, NothingToSplit, n).verdict == NothingToSplit &&
            EmptyPlan(fat, c, NothingToSplit, n).moves == []
  {
  }

  lemma OverVerdict(hash: seq<byte> -> string, names: LeafNames, inp: Input, fat: string, c: Classification,
      leaves: Leaves)
    ensures PlanOver(hash, names, inp, fat, c, leaves).verdict in {Ready, Refused}
  {
    hide ChecksOf, LeafEdges, ProjectedOf, SizesOf, BijectionOf, LeafPlans, Moves, KeysInOrder;
  }

  // ----- which addresses share a leaf --------------------------------------------------------------------

  /** Some address of key `k` reads `s` once its index is stripped. */
  ghost predicate Reads(ms: seq<string>, s: string, k: LeafKey) {
    exists a :: a in ms && KeyOf(a) == k && StripIndex(a) == Ok(s)
  }

  ghost predicate ReadsOnly(ms: seq<string>, s: string, k: LeafKey) { forall q :: Reads(ms, s, q) ==> q == k }

  /** A reference from one key to another, of which one end is found under one key only. */
  ghost predicate TiedBy(ms: seq<string>, r: (string, string), f: LeafKey, t: LeafKey) {
    && f != t && Reads(ms, r.0, f) && Reads(ms, r.1, t)
    && (ReadsOnly(ms, r.0, f) || ReadsOnly(ms, r.1, t))
  }

  ghost predicate TiedKeys(ms: seq<string>, refs: set<(string, string)>, f: LeafKey, t: LeafKey) {
    exists r :: r in refs && TiedBy(ms, r, f, t)
  }

  /** Keys each tied to the next, one way or the other. */
  ghost predicate Route(ms: seq<string>, refs: set<(string, string)>, p: seq<LeafKey>) {
    p != [] && forall i :: 0 <= i < |p| - 1 ==> TiedKeys(ms, refs, p[i], p[i + 1]) || TiedKeys(ms, refs, p[i + 1], p[i])
  }

  ghost predicate Routes(ms: seq<string>, refs: set<(string, string)>, p: seq<LeafKey>, f: LeafKey, t: LeafKey) {
    Route(ms, refs, p) && p[0] == f && p[|p| - 1] == t
  }

  lemma FiledReads(ms: seq<string>, s: string, k: LeafKey)
    ensures k in Filed(Built(ms), s) <==> Reads(ms, s, k)
  {
    var leaves := Built(ms);
    FiledMeans(leaves, s);
    hide Built, KeyOf, StripIndex;
    if k in Filed(leaves, s) {
      var a :| a in AddressesOf(leaves, k) && StripIndex(a) == Ok(s);
      BuiltPlaces(ms, k, a);
    }
    if Reads(ms, s, k) {
      var a :| a in ms && KeyOf(a) == k && StripIndex(a) == Ok(s);
      BuiltPlaces(ms, k, a);
      assert a in AddressesOf(leaves, k);
    }
  }

  lemma OnlyMember(s: set<LeafKey>, k: LeafKey)
    requires k in s
    ensures |s| == 1 <==> forall q :: q in s ==> q == k
  {
    if |s| == 1 { assert |s - {k}| == 0; forall q | q in s ensures q == k { assert q !in s - {k}; } }
    if forall q :: q in s ==> q == k { assert s == {k}; }
  }

  lemma TiedExactly(ms: seq<string>, refs: set<(string, string)>, f: LeafKey, t: LeafKey)
    ensures Tied(Built(ms), refs, f, t) <==> TiedKeys(ms, refs, f, t)
  {
    hide Built, Reads, Filed;
    forall r ensures Ties(Built(ms), r, f, t) <==> TiedBy(ms, r, f, t) {
      forall q ensures (q in Filed(Built(ms), r.0) <==> Reads(ms, r.0, q)) &&
                       (q in Filed(Built(ms), r.1) <==> Reads(ms, r.1, q)) {
        FiledReads(ms, r.0, q);
        FiledReads(ms, r.1, q);
      }
      if Reads(ms, r.0, f) { OnlyMember(Filed(Built(ms), r.0), f); }
      if Reads(ms, r.1, t) { OnlyMember(Filed(Built(ms), r.1), t); }
    }
  }

  lemma TiedInside(ms: seq<string>, refs: set<(string, string)>, f: LeafKey, t: LeafKey)
    requires TiedKeys(ms, refs, f, t)
    ensures f in Built(ms) && t in Built(ms)
  {
    hide Built, KeyOf, StripIndex;
    var r :| r in refs && TiedBy(ms, r, f, t);
    var a :| a in ms && KeyOf(a) == f && StripIndex(a) == Ok(r.0);
    var b :| b in ms && KeyOf(b) == t && StripIndex(b) == Ok(r.1);
    BuiltPlaces(ms, f, a);
    BuiltPlaces(ms, t, b);
  }

  lemma AdjacentIsTied(ms: seq<string>, refs: set<(string, string)>, f: LeafKey, t: LeafKey)
    ensures var leaves := Built(ms);
            var edges := AnyOrder(TieEdges(leaves, refs));
            f in leaves && t in leaves ==>
              (Adjacent(edges, f, t) <==> TiedKeys(ms, refs, f, t) || TiedKeys(ms, refs, t, f))
  {
    var leaves := Built(ms);
    TiedExactly(ms, refs, f, t);
    TiedExactly(ms, refs, t, f);
    hide Built, Tied, TiedKeys;
    if f in leaves && t in leaves {
      assert (f, t) in TieEdges(leaves, refs) <==> Tied(leaves, refs, f, t);
      assert (t, f) in TieEdges(leaves, refs) <==> Tied(leaves, refs, t, f);
    }
  }

  lemma LinkedIsRouted(ms: seq<string>, refs: set<(string, string)>, f: LeafKey, t: LeafKey)
    requires f in Built(ms)
    ensures var leaves := Built(ms);
            Linked(leaves.Keys, AnyOrder(TieEdges(leaves, refs)), f, t) <==> exists p :: Routes(ms, refs, p, f, t)
  {
    var keys, edges := Built(ms).Keys, AnyOrder(TieEdges(Built(ms), refs));
    hide Built, TieEdges, Adjacent, TiedKeys, AnyOrder;
    forall a, b | a in keys && b in keys
      ensures Adjacent(edges, a, b) <==> TiedKeys(ms, refs, a, b) || TiedKeys(ms, refs, b, a)
    {
      AdjacentIsTied(ms, refs, a, b);
    }
    if Linked(keys, edges, f, t) {
      var p :| Joins(keys, edges, p, f, t);
      assert Routes(ms, refs, p, f, t);
    }
    if p :| Routes(ms, refs, p, f, t) {
      forall i | 0 <= i < |p| ensures p[i] in keys { RouteInside(ms, refs, p, i); }
      assert Joins(keys, edges, p, f, t);
    }
  }

  lemma RouteInside(ms: seq<string>, refs: set<(string, string)>, p: seq<LeafKey>, i: nat)
    requires Route(ms, refs, p) && p[0] in Built(ms) && i < |p|
    ensures p[i] in Built(ms)
  {
    hide Built, TiedKeys;
    if i > 0 {
      assert TiedKeys(ms, refs, p[i - 1], p[i - 1 + 1]) || TiedKeys(ms, refs, p[i - 1 + 1], p[i - 1]);
      if TiedKeys(ms, refs, p[i - 1], p[i]) { TiedInside(ms, refs, p[i - 1], p[i]); }
      if TiedKeys(ms, refs, p[i], p[i - 1]) { TiedInside(ms, refs, p[i], p[i - 1]); }
    }
  }

  ghost predicate ShareALeaf(leaves: Leaves, a: string, b: string) {
    exists k :: k in leaves && a in leaves[k].addresses && b in leaves[k].addresses
  }

  /** Without grouping two managed addresses share a leaf exactly when they have the same key. */
  lemma SharedByKey(inp: Input, a: string, b: string)
    requires !inp.groupReferences || inp.plan.None?
    requires a in Managed(inp.addresses) && b in Managed(inp.addresses)
    ensures ShareALeaf(Target(inp), a, b) <==> KeyOf(a) == KeyOf(b)
  {
    hide *;
    TargetIs(inp);
    var ms := Managed(inp.addresses);
    BuiltPlaces(ms, KeyOf(a), a);
    BuiltPlaces(ms, KeyOf(a), b);
    ShareIs(Target(inp), a, b);
    if k :| k in Built(ms) && a in Built(ms)[k].addresses && b in Built(ms)[k].addresses {
      BuiltPlaces(ms, k, a);
      BuiltPlaces(ms, k, b);
    }
  }

  lemma ShareIs(leaves: Leaves, a: string, b: string)
    ensures ShareALeaf(leaves, a, b) <==>
            exists k :: k in leaves && a in leaves[k].addresses && b in leaves[k].addresses
  {
  }

  lemma InMergedLeaf(ms: seq<string>, edges: seq<Edge>, r: LeafKey, a: string)
    requires r in Merged(Built(ms), edges) && a in ms
    ensures a in Merged(Built(ms), edges)[r].addresses <==> Linked(Built(ms).Keys, edges, KeyOf(a), r)
    ensures KeyOf(a) in Built(ms)
  {
    hide *;
    var leaves := Built(ms);
    MergedPlaces(leaves, edges, r, a);
    BuiltPlaces(ms, KeyOf(a), a);
    if k :| k in leaves && Linked(leaves.Keys, edges, k, r) && a in leaves[k].addresses { BuiltPlaces(ms, k, a); }
  }

  /** With grouping they share one exactly when references tie their keys together, through however many others. */
  lemma SharedByReferences(inp: Input, a: string, b: string)
    requires inp.groupReferences && inp.plan.Some?
    requires a in Managed(inp.addresses) && b in Managed(inp.addresses)
    ensures ShareALeaf(Target(inp), a, b) <==>
            exists p :: Routes(Managed(inp.addresses), inp.plan.value.references, p, KeyOf(a), KeyOf(b))
  {
    hide *;
    TargetIs(inp);
    var ms, refs := Managed(inp.addresses), inp.plan.value.references;
    var leaves := Built(ms);
    var keys, edges := leaves.Keys, AnyOrder(TieEdges(leaves, refs));
    BuiltPlaces(ms, KeyOf(a), a);
    LinkedIsRouted(ms, refs, KeyOf(a), KeyOf(b));
    ShareIs(Target(inp), a, b);
    if k :| k in Target(inp) && a in Target(inp)[k].addresses && b in Target(inp)[k].addresses {
      InMergedLeaf(ms, edges, k, a);
      InMergedLeaf(ms, edges, k, b);
      LinkedSymmetric(keys, edges, KeyOf(b), k);
      LinkedTransitive(keys, edges, KeyOf(a), k, KeyOf(b));
    }
    if Linked(keys, edges, KeyOf(a), KeyOf(b)) {
      var r := MergedUnder(leaves, edges, KeyOf(a));
      LinkedSymmetric(keys, edges, KeyOf(a), KeyOf(b));
      LinkedTransitive(keys, edges, KeyOf(b), KeyOf(a), r);
      InMergedLeaf(ms, edges, r, a);
      InMergedLeaf(ms, edges, r, b);
    }
  }

  // ----- which leaf waits for which -------------------------------------------------------------------------

  /** The leaf of key `k` holds an address that reads `s` once its index is stripped. */
  ghost predicate LeafReads(leaves: Leaves, k: LeafKey, s: string) {
    k in leaves && exists a :: a in leaves[k].addresses && StripIndex(a) == Ok(s)
  }

  /** A reference from leaf `f` to an address that leaf `t`, and no other, holds. */
  ghost predicate WaitsBy(leaves: Leaves, r: (string, string), f: LeafKey, t: LeafKey) {
    f != t && LeafReads(leaves, f, r.0) && LeafReads(leaves, t, r.1) && forall q :: LeafReads(leaves, q, r.1) ==> q == t
  }

  ghost predicate Waits(leaves: Leaves, plan: Option<PlanView>, f: LeafKey, t: LeafKey) {
    plan.Some? && exists r :: r in plan.value.references && WaitsBy(leaves, r, f, t)
  }

  lemma LeansExactly(leaves: Leaves, r: (string, string), f: LeafKey, t: LeafKey)
    ensures Leans(leaves, r, f, t) <==> WaitsBy(leaves, r, f, t)
  {
    FiledMeans(leaves, r.0);
    FiledMeans(leaves, r.1);
    hide StripIndex;
    forall q ensures q in Filed(leaves, r.0) <==> LeafReads(leaves, q, r.0) {}
    forall q ensures q in Filed(leaves, r.1) <==> LeafReads(leaves, q, r.1) {}
    hide Filed, LeafReads;
    if WaitsBy(leaves, r, f, t) { assert Filed(leaves, r.1) == {t}; }
  }

  lemma EdgesExactly(leaves: Leaves, plan: Option<PlanView>, f: LeafKey, t: LeafKey)
    ensures (f, t) in LeafEdges(leaves, plan) <==> Waits(leaves, plan, f, t)
  {
    forall r ensures Leans(leaves, r, f, t) <==> WaitsBy(leaves, r, f, t) { LeansExactly(leaves, r, f, t); }
    hide Leans, StripIndex;
    if Waits(leaves, plan, f, t) {
      var r :| r in plan.value.references && WaitsBy(leaves, r, f, t);
      assert LeafReads(leaves, f, r.0) && LeafReads(leaves, t, r.1);
    }
  }

  /** In every order in which the leaves are dispatched, a leaf comes after each leaf it waits for. */
  lemma DispatchedAfter(leaves: Leaves, plan: Option<PlanView>, nm: LeafKey -> string, f: LeafKey, t: LeafKey,
      run: seq<string>, i: nat)
    requires Waits(leaves, plan, f, t)
    requires Dag.Dispatch(GraphOf(leaves.Keys, LeafEdges(leaves, plan), nm), run) && i < |run| && run[i] == nm(f)
    ensures exists j :: 0 <= j < i && run[j] == nm(t)
  {
    hide Waits, LeafEdges;
    EdgesExactly(leaves, plan, f, t);
    var g := GraphOf(leaves.Keys, LeafEdges(leaves, plan), nm);
    assert (nm((f, t).1), nm((f, t).0)) in g.edges;
    Dag.UpstreamsFirst(g, run, i, nm(t));
  }

  lemma UpstreamNames(leaves: Leaves, plan: Option<PlanView>, nm: LeafKey -> string, k: LeafKey, n: string)
    ensures n in UpNames(LeafEdges(leaves, plan), k, nm) <==> exists t :: Waits(leaves, plan, k, t) && nm(t) == n
  {
    var edges := LeafEdges(leaves, plan);
    var keys := KeysInOrder(UpsOf(edges, k));
    forall t ensures t in UpsOf(edges, k) <==> Waits(leaves, plan, k, t) {
      EdgesExactly(leaves, plan, k, t);
      UpsAre(edges, k, t);
    }
    hide Waits, LeafEdges, UpsOf, KeysInOrder;
    if t :| Waits(leaves, plan, k, t) && nm(t) == n {
      var i :| 0 <= i < |keys| && keys[i] == t;
      assert Named(keys, nm)[i] == n;
    }
    if n in Named(keys, nm) {
      var i :| 0 <= i < |keys| && Named(keys, nm)[i] == n;
      assert keys[i] in keys;
    }
  }

  lemma UpsAre(edges: set<Edge>, k: LeafKey, t: LeafKey)
    ensures t in UpsOf(edges, k) <==> (k, t) in edges
  {
    if (k, t) in edges { assert (k, t).0 == k && (k, t).1 == t; }
  }

  // ----- what the plan lists -----------------------------------------------------------------------------------

  /** One planned leaf: its name, what it was merged from, its addresses, and the names of the leaves it waits for. */
  ghost predicate Lists(p: LeafPlan, leaves: Leaves, plan: Option<PlanView>, nm: LeafKey -> string) {
    && p.key in leaves && p.template == nm(p.key)
    && p.mergedFrom == leaves[p.key].mergedFrom && p.addresses == leaves[p.key].addresses
    && forall n :: n in p.upstreams <==> exists t :: Waits(leaves, plan, p.key, t) && nm(t) == n
  }

  /** A plan with leaves lists each of them once, in the order of their keys; it has a move for each, from the fat
      template to the leaf, in the namespace of the input and with the leaf's addresses, if it is Ready, and none if it
      is refused. */
  lemma PlanLists(hash: seq<byte> -> string, names: LeafNames, inp: Input)
    requires PlanOf(hash, names, inp).Ok? && PlanOf(hash, names, inp).value.verdict in {Ready, Refused}
    ensures inp.fatName.Some?
    ensures var plan, leaves, nm := PlanOf(hash, names, inp).value, Target(inp), NamesIn(names, inp);
            && plan.fatTemplate == inp.fatName.value && plan.leafCount == |plan.leaves| == |leaves|
            && (forall i :: 0 <= i < |plan.leaves| ==> Lists(plan.leaves[i], leaves, inp.plan, nm))
            && (forall i, j :: 0 <= i < j < |plan.leaves| ==>
                  plan.leaves[i].key != plan.leaves[j].key && KeyLe(plan.leaves[i].key, plan.leaves[j].key))
            && |plan.moves| == (if plan.verdict == Ready then |leaves| else 0)
            && (forall i :: 0 <= i < |plan.moves| ==>
                  plan.moves[i] == Splitting.StateMove(inp.fatName.value, plan.leaves[i].template, inp.pangeaNamespace,
                      plan.leaves[i].addresses))
            && plan.projected.Some? == inp.plan.Some?
            && plan.bijection == Some(BijectionOf(hash, leaves, inp.addresses))
  {
    hide *;
    var ms := Managed(inp.addresses);
    PlanCases(hash, names, inp);
    NamesAre(names, inp);
    var c := Classified(|KeySet(ms)|, inp.p95, inp.budget);
    NothingPlanned(inp.fatName.value, c, |Target(inp)|);
    TargetKeys(inp);
    OverLists(hash, names, inp, inp.fatName.value, c, Target(inp));
  }

  lemma OverLists(hash: seq<byte> -> string, names: LeafNames, inp: Input, fat: string, c: Classification,
      leaves: Leaves)
    requires forall k :: k in leaves ==> leaves[k].key == k
    ensures var plan, nm := PlanOver(hash, names, inp, fat, c, leaves), names(fat, KeysInOrder(leaves.Keys));
            && plan.fatTemplate == fat && plan.leafCount == |plan.leaves| == |leaves|
            && (forall i :: 0 <= i < |plan.leaves| ==> Lists(plan.leaves[i], leaves, inp.plan, nm))
            && (forall i, j :: 0 <= i < j < |plan.leaves| ==>
                  plan.leaves[i].key != plan.leaves[j].key && KeyLe(plan.leaves[i].key, plan.leaves[j].key))
            && |plan.moves| == (if plan.verdict == Ready then |leaves| else 0)
            && (forall i :: 0 <= i < |plan.moves| ==>
                  plan.moves[i] == Splitting.StateMove(fat, plan.leaves[i].template, inp.pangeaNamespace,
                      plan.leaves[i].addresses))
            && plan.projected.Some? == inp.plan.Some?
            && plan.bijection == Some(BijectionOf(hash, leaves, inp.addresses))
  {
    var plan := PlanOver(hash, names, inp, fat, c, leaves);
    var keys := KeysInOrder(leaves.Keys);
    var nm, edges := names(fat, keys), LeafEdges(leaves, inp.plan);
    KeysSorted(leaves.Keys);
    hide ChecksOf, LeafEdges, ProjectedOf, SizesOf, BijectionOf, LeafPlans, Moves, KeysInOrder, KeyLe, UpNames, Waits;
    forall i | 0 <= i < |plan.leaves|
      ensures plan.leaves[i].key == keys[i] && Lists(plan.leaves[i], leaves, inp.plan, nm)
    {
      assert keys[i] in keys;
      assert plan.leaves[i] == PlanFor(leaves[keys[i]], keys[i], edges, nm);
      forall n
        ensures n in UpNames(edges, keys[i], nm) <==> exists t :: Waits(leaves, inp.plan, keys[i], t) && nm(t) == n
      {
        UpstreamNames(leaves, inp.plan, nm, keys[i], n);
      }
    }
  }

  lemma KeysSorted(keys: set<LeafKey>)
    ensures var ks := KeysInOrder(keys);
            forall i, j :: 0 <= i < j < |ks| ==> ks[i] != ks[j] && KeyLe(ks[i], ks[j])
  {
    KeyLeIsTotalOrder();
    hide KeyLe;
    assert Sorted(InOrder(keys, KeyLe), KeyLe);
  }

  lemma TargetKeys(inp: Input)
    ensures forall k :: k in Target(inp) ==> Target(inp)[k].key == k
  {
    hide *;
    TargetIs(inp);
    var leaves := Built(Managed(inp.addresses));
    forall k | k in Target(inp) ensures Target(inp)[k].key == k {
      if inp.groupReferences && inp.plan.Some? {
        MergedLeaf(leaves, AnyOrder(TieEdges(leaves, inp.plan.value.references)), k);
      } else {
        BuiltLeaf(Managed(inp.addresses), k);
      }
    }
  }

  // ----- the counts --------------------------------------------------------------------------------------------------

  /** How many changes of managed resources are of one kind. */
  function Number(changes: seq<Change>, act: PlanAction): nat {
    if changes == [] then 0
    else
      var last := changes[|changes| - 1];
      Number(changes[..|changes| - 1], act) + if !IsData(last.0) && last.1 == act then 1 else 0
  }

  /** A replacement counts as an addition and as a destruction; reads and data sources do not count. */
  lemma {:induction false} ProjectedCounts(changes: seq<Change>)
    ensures var p := ProjectedOf(changes);
            && p.add == Number(changes, Create) + Number(changes, Replace)
            && p.change == Number(changes, Update)
            && p.destroy == Number(changes, Delete) + Number(changes, Replace)
            && p.noOp == Number(changes, NoOp)
  {
    hide IsData, Tally;
    if changes == [] {
      NoTally(changes);
      assert changes[..0] == changes;
    } else {
      var n := |changes| - 1;
      ProjectedCounts(changes[..n]);
      assert changes[..n + 1] == changes;
      TallyStep(changes, n, LiveAdd);
      TallyStep(changes, n, LiveChange);
      TallyStep(changes, n, LiveDestroy);
      TallyStep(changes, n, LiveNoOp);
    }
  }

  lemma {:induction false} HavingApart<T(!new)>(xs: seq<T>, c: T -> nat, ks: set<nat>)
    requires NoRepeats(xs)
    ensures NoRepeats(Having(xs, c, ks))
  {
    if xs != [] {
      var front, last := xs[..|xs| - 1], xs[|xs| - 1];
      LastIsNew(xs);
      HavingApart(front, c, ks);
      HavingMembers(front, c, ks);
    }
  }

  lemma HavingOnce<T(!new)>(xs: seq<T>, c: T -> nat, n: nat, those: set<T>)
    requires NoRepeats(xs) && forall x :: x in those <==> x in xs && c(x) == n
    ensures |Having(xs, c, {n})| == |those|
  {
    hide Having, NoRepeats;
    HavingApart(xs, c, {n});
    HavingMembers(xs, c, {n});
    DistinctMeansNoRepeats(Having(xs, c, {n}));
    assert (set x | x in Having(xs, c, {n})) == those;
  }

  /** The partition sizes say, for each size, how many leaves have it. */
  lemma SizesExactly(leaves: Leaves, n: nat)
    ensures var m := SizesOf(leaves, KeysInOrder(leaves.Keys));
            var those := set k | k in leaves && |leaves[k].addresses| == n;
            (n in m <==> those != {}) && (n in m ==> m[n] == |those|)
  {
    var keys := KeysInOrder(leaves.Keys);
    var those := set k | k in leaves && |leaves[k].addresses| == n;
    forall k ensures k in those <==> k in keys && SizeIn(leaves)(k) == n {}
    hide *;
    SizesAt(leaves, keys, n);
    HavingOnce(keys, SizeIn(leaves), n, those);
    if n in SizesOf(leaves, keys) { var k :| k in keys && SizeIn(leaves)(k) == n; assert k in those; }
    if those != {} { var k :| k in those; }
  }
}
