/**
  A state's addresses grouped into leaves: `Build` groups by leaf key, `Merge` joins the
  leaves that edges connect.
*/
module Partitions {
  import opened Prelude
  import opened Ordering
  import opened Address
  import opened UnionFind
  import opened Grouping
  import opened AddressDigest

  datatype Leaf = Leaf(key: LeafKey, mergedFrom: seq<LeafKey>, addresses: seq<string>)

  type Leaves = map<LeafKey, Leaf>

  datatype PartitionError = BadAddress(error: AddressError) | Duplicate(address: string)

  function KeysInOrder(keys: set<LeafKey>): (r: seq<LeafKey>)
    ensures |r| == |keys| && NoRepeats(r)
    ensures forall k :: k in r <==> k in keys
  {
    KeyLeIsTotalOrder();
    InOrder(keys, KeyLe)
  }

  function AddressesOf(leaves: Leaves, k: LeafKey): seq<string> { if k in leaves then leaves[k].addresses else [] }

  function Holdings(leaves: Leaves): LeafKey -> seq<string> { k => AddressesOf(leaves, k) }

  /** All addresses, leaf by leaf. */
  function All(leaves: Leaves): seq<string> { Spread(KeysInOrder(leaves.Keys), Holdings(leaves)) }

  // ----- what building means ------------------------------------------------------------------

  function Managed(addresses: seq<string>): seq<string> {
    if addresses == [] then []
    else
      var front := Managed(addresses[..|addresses| - 1]);
      if IsData(addresses[|addresses| - 1]) then front else front + [addresses[|addresses| - 1]]
  }

  /** The leaf key of an address that has one. */
  function KeyOf(a: string): LeafKey { if LeafKeyOf(a).Ok? then LeafKeyOf(a).value else AddressKey(a) }

  /** The first fault of a list of addresses: a repetition, or an address that does not parse. */
  function Fault(ms: seq<string>): Option<PartitionError> {
    if ms == [] then None
    else
      var front, a := ms[..|ms| - 1], ms[|ms| - 1];
      if Fault(front).Some? then Fault(front)
      else if a in front then Some(Duplicate(a))
      else if LeafKeyOf(a).Err? then Some(BadAddress(LeafKeyOf(a).error))
      else None
  }

  /** One leaf per leaf key, holding the addresses with that key, in list order. */
  function Gathered(ms: seq<string>): Leaves {
    map k | k in (set a | a in ms :: KeyOf(a)) :: Leaf(k, [], Having(ms, KeyOf, {k}))
  }

  function Built(ms: seq<string>): Leaves {
    map k | k in Gathered(ms) :: SortLeaf(Gathered(ms)[k])
  }

  lemma BuildStarts(addresses: seq<string>)
    ensures addresses[..0] == [] && Managed([]) == [] && Fault([]) == None && Gathered([]) == map[]
  {
  }

  lemma ManagedStep(addresses: seq<string>, i: nat)
    requires i < |addresses|
    ensures Managed(addresses[..i + 1]) == Managed(addresses[..i]) + if IsData(addresses[i]) then [] else [addresses[i]]
  {
    hide IsData;
    assert addresses[..i + 1][..i] == addresses[..i];
  }

  lemma FaultStep(ms: seq<string>, a: string)
    requires Fault(ms) == None
    ensures a in ms ==> Fault(ms + [a]) == Some(Duplicate(a))
    ensures a !in ms && LeafKeyOf(a).Err? ==> Fault(ms + [a]) == Some(BadAddress(LeafKeyOf(a).error))
    ensures a !in ms && LeafKeyOf(a).Ok? ==> Fault(ms + [a]) == None
  {
    hide LeafKeyOf;
    assert (ms + [a])[..|ms + [a]| - 1] == ms;
  }

  lemma {:induction false} FaultSticks(addresses: seq<string>, i: nat)
    requires i <= |addresses| && Fault(Managed(addresses[..i])).Some?
    ensures Fault(Managed(addresses)) == Fault(Managed(addresses[..i]))
    decreases |addresses| - i
  {
    hide IsData, LeafKeyOf;
    if i == |addresses| {
      assert addresses[..i] == addresses;
    } else {
      ManagedStep(addresses, i);
      var ms, a := Managed(addresses[..i]), addresses[i];
      assert (ms + [a])[..|ms + [a]| - 1] == ms && ms + [] == ms;
      FaultSticks(addresses, i + 1);
    }
  }

  lemma GatheredStep(ms: seq<string>, a: string, k: LeafKey, slot: Leaf)
    requires LeafKeyOf(a) == Ok(k)
    requires slot == if k in Gathered(ms) then Gathered(ms)[k] else Leaf(k, [], [])
    ensures Gathered(ms + [a]) == Gathered(ms)[k := Leaf(k, [], slot.addresses + [a])]
  {
    hide Gathered, LeafKeyOf;
    assert KeyOf(a) == k;
    hide KeyOf;
    forall q ensures q in Gathered(ms + [a]) <==> q == k || q in Gathered(ms) { GatheredKey(ms, a, q); }
    forall q | q in Gathered(ms + [a])
      ensures Gathered(ms + [a])[q] == if q == k then Leaf(k, [], slot.addresses + [a]) else Gathered(ms)[q]
    {
      GatheredKey(ms, a, q);
      GatheredLeaf(ms, a, q);
    }
  }

  lemma GatheredKey(ms: seq<string>, a: string, q: LeafKey)
    ensures q in Gathered(ms + [a]) <==> q == KeyOf(a) || q in Gathered(ms)
  {
    hide KeyOf, Gathered;
    GatheredAt(ms + [a], q);
    GatheredAt(ms, q);
    assert a in ms + [a];
    if q in Gathered(ms) { var x :| x in ms && KeyOf(x) == q; assert x in ms + [a]; }
  }

  lemma GatheredLeaf(ms: seq<string>, a: string, q: LeafKey)
    requires q in Gathered(ms + [a])
    ensures q == KeyOf(a) ==>
            Gathered(ms + [a])[q] ==
            Leaf(q, [], (if q in Gathered(ms) then Gathered(ms)[q].addresses else []) + [a])
    ensures q != KeyOf(a) ==> q in Gathered(ms) && Gathered(ms + [a])[q] == Gathered(ms)[q]
  {
    hide KeyOf, Gathered, Having;
    GatheredKey(ms, a, q);
    GatheredAt(ms + [a], q);
    GatheredAt(ms, q);
    HavingStep(ms, a, KeyOf, {q});
    if q != KeyOf(a) {
      assert Having(ms, KeyOf, {q}) + [] == Having(ms, KeyOf, {q});
    } else if q !in Gathered(ms) {
      NoneHave(ms, KeyOf, q);
    }
  }

  lemma GatheredAt(ms: seq<string>, k: LeafKey)
    ensures k in Gathered(ms) <==> exists a :: a in ms && KeyOf(a) == k
    ensures k in Gathered(ms) ==> Gathered(ms)[k] == Leaf(k, [], Having(ms, KeyOf, {k}))
  {
  }

  lemma BuiltIsSorted(ms: seq<string>, r: Leaves)
    requires var g := Gathered(ms); r.Keys == g.Keys && forall k :: k in g ==> r[k] == SortLeaf(g[k])
    ensures r == Built(ms)
  {
    hide Gathered, SortLeaf;
  }

  /** Building fails exactly on a repetition or an address that does not parse. */
  lemma {:induction false} FaultExactly(ms: seq<string>)
    ensures Fault(ms).None? <==> NoRepeats(ms) && forall a :: a in ms ==> LeafKeyOf(a).Ok?
  {
    hide LeafKeyOf;
    if ms != [] {
      var front, a := ms[..|ms| - 1], ms[|ms| - 1];
      assert ms == front + [a];
      FaultExactly(front);
      if a in front {
        var i :| 0 <= i < |front| && front[i] == a;
        assert ms[i] == ms[|ms| - 1];
      } else {
        assert forall i :: 0 <= i < |front| ==> ms[i] == front[i] && front[i] in front;
      }
    }
  }

  lemma {:induction false} FaultStays(ms: seq<string>, i: nat)
    requires i <= |ms| && Fault(ms[..i]).Some?
    ensures Fault(ms) == Fault(ms[..i])
    decreases |ms| - i
  {
    hide LeafKeyOf;
    if i == |ms| {
      assert ms[..i] == ms;
    } else {
      assert ms[..i + 1][..i] == ms[..i];
      FaultStays(ms, i + 1);
    }
  }

  /** The first faulty address is reported: as a repetition if it is one, otherwise with what its parse says. */
  lemma FirstFaultyAddress(ms: seq<string>, i: nat)
    requires i < |ms| && NoRepeats(ms[..i]) && forall j :: 0 <= j < i ==> LeafKeyOf(ms[j]).Ok?
    ensures ms[i] in ms[..i] ==> Fault(ms) == Some(Duplicate(ms[i]))
    ensures ms[i] !in ms[..i] && LeafKeyOf(ms[i]).Err? ==> Fault(ms) == Some(BadAddress(LeafKeyOf(ms[i]).error))
  {
    hide LeafKeyOf, Fault, NoRepeats;
    FaultExactly(ms[..i]);
    assert ms[..i + 1] == ms[..i] + [ms[i]];
    FaultStep(ms[..i], ms[i]);
    if Fault(ms[..i + 1]).Some? { FaultStays(ms, i + 1); }
  }

  /** Building loses no address and invents none. */
  lemma BuiltKeepsAddresses(ms: seq<string>)
    ensures multiset(All(Built(ms))) == multiset(ms)
  {
    hide LeafKeyOf, KeyOf, Having, Spread;
    var ks := KeysInOrder(Built(ms).Keys);
    forall k | k in ks ensures multiset(Holdings(Built(ms))(k)) == multiset(Spread(Having(ms, KeyOf, {k}), Single)) {
      SortPermutes(Having(ms, KeyOf, {k}), StrLe);
      SpreadSingle(Having(ms, KeyOf, {k}));
    }
    ClassesWeighTheWhole(ms, KeyOf, Single, ks, Holdings(Built(ms)));
    forall a | a in ms ensures KeyOf(a) in set k | k in ks { assert KeyOf(a) in Built(ms); }
    HavingAll(ms, KeyOf, set k | k in ks);
    SpreadSingle(ms);
  }

  /** Every address is in the leaf of its own key, and nowhere else. */
  lemma BuiltPlaces(ms: seq<string>, k: LeafKey, a: string)
    ensures k in Built(ms) && a in Built(ms)[k].addresses <==> a in ms && KeyOf(a) == k
  {
    hide LeafKeyOf, KeyOf, Having;
    HavingMembers(ms, KeyOf, {k});
    SortPermutes(Having(ms, KeyOf, {k}), StrLe);
  }

  /** A built leaf goes by the key it is stored under, is merged from nothing and lists its addresses in order. */
  lemma BuiltLeaf(ms: seq<string>, k: LeafKey)
    requires k in Built(ms)
    ensures Built(ms)[k].key == k && Built(ms)[k].mergedFrom == [] && Sorted(Built(ms)[k].addresses, StrLe)
  {
    hide KeyOf, Having, StrLe;
    GatheredAt(ms, k);
    StrLeIsTotalOrder();
    SortSorted(Having(ms, KeyOf, {k}), StrLe);
  }

  // ----- what merging by edges means -----------------------------------------------------

  /** The keys linked to `r`, in order. */
  ghost function LinkedTo(ks: seq<LeafKey>, keys: set<LeafKey>, edges: seq<Edge>, r: LeafKey): seq<LeafKey> {
    if ks == [] then []
    else
      var front := LinkedTo(ks[..|ks| - 1], keys, edges, r);
      if Linked(keys, edges, ks[|ks| - 1], r) then front + [ks[|ks| - 1]] else front
  }

  ghost function Component(keys: set<LeafKey>, edges: seq<Edge>, r: LeafKey): seq<LeafKey> {
    LinkedTo(KeysInOrder(keys), keys, edges, r)
  }

  /** `r` is the least key of its component. */
  ghost predicate Leads(keys: set<LeafKey>, edges: seq<Edge>, r: LeafKey) {
    r in keys && forall x :: Linked(keys, edges, x, r) ==> KeyLe(r, x)
  }

  function Others(ks: seq<LeafKey>, r: LeafKey): seq<LeafKey> {
    if ks == [] then []
    else
      var front := Others(ks[..|ks| - 1], r);
      if ks[|ks| - 1] == r then front else front + [ks[|ks| - 1]]
  }

  /** The leaf a list of keys collects into. */
  function Slot(leaves: Leaves, r: LeafKey, ks: seq<LeafKey>): Leaf {
    Leaf(r, Others(ks, r), Spread(ks, Holdings(leaves)))
  }

  function SortLeaf(l: Leaf): Leaf { Leaf(l.key, Sort(l.mergedFrom, KeyLe), Sort(l.addresses, StrLe)) }

  /** One leaf for each connected component, under its least key. */
  ghost function Merged(leaves: Leaves, edges: seq<Edge>): Leaves {
    map r | r in leaves && Leads(leaves.Keys, edges, r) :: SortLeaf(Slot(leaves, r, Component(leaves.Keys, edges, r)))
  }

  // ----- the loops of `merge` -----------------------------------------------------------------

  ghost function Classes(roots: Parents): LeafKey -> LeafKey { k => if k in roots then roots[k] else k }

  /** The slots after the keys `ks` were collected under their roots. */
  ghost function Slots(leaves: Leaves, roots: Parents, ks: seq<LeafKey>): Leaves {
    map r | r in (set k | k in ks :: Classes(roots)(k)) :: Slot(leaves, r, Having(ks, Classes(roots), {r}))
  }

  lemma OthersStep(ks: seq<LeafKey>, k: LeafKey, r: LeafKey)
    ensures Others(ks + [k], r) == Others(ks, r) + if k == r then [] else [k]
  {
    assert (ks + [k])[..|ks + [k]| - 1] == ks;
  }

  lemma SlotStep(leaves: Leaves, r: LeafKey, ks: seq<LeafKey>, k: LeafKey)
    ensures Slot(leaves, r, ks + [k]) ==
            Leaf(r, Slot(leaves, r, ks).mergedFrom + (if k == r then [] else [k]),
                Slot(leaves, r, ks).addresses + AddressesOf(leaves, k))
  {
    OthersStep(ks, k, r);
    SpreadStep(ks, k, Holdings(leaves));
  }

  lemma SlotsStep(leaves: Leaves, roots: Parents, ks: seq<LeafKey>, k: LeafKey, r: LeafKey, slot: Leaf)
    requires r == Classes(roots)(k)
    requires slot == if r in Slots(leaves, roots, ks) then Slots(leaves, roots, ks)[r] else Leaf(r, [], [])
    ensures Slots(leaves, roots, ks + [k]) ==
            Slots(leaves, roots, ks)[r := Leaf(r, slot.mergedFrom + (if k == r then [] else [k]),
                slot.addresses + AddressesOf(leaves, k))]
  {
    hide Slots, Classes;
    var before, after := Slots(leaves, roots, ks), Slots(leaves, roots, ks + [k]);
    forall q ensures q in after <==> q == r || q in before { SlotsKey(leaves, roots, ks, k, q); }
    forall q | q in after ensures
      after[q] == if q == r then Leaf(r, slot.mergedFrom + (if k == r then [] else [k]),
          slot.addresses + AddressesOf(leaves, k)) else before[q]
    {
      SlotsKey(leaves, roots, ks, k, q);
      SlotsLeaf(leaves, roots, ks, k, q);
    }
  }

  lemma SlotsKey(leaves: Leaves, roots: Parents, ks: seq<LeafKey>, k: LeafKey, q: LeafKey)
    ensures q in Slots(leaves, roots, ks + [k]) <==> q == Classes(roots)(k) || q in Slots(leaves, roots, ks)
  {
    hide Slots, Classes;
    SlotsAt(leaves, roots, ks, q);
    SlotsAt(leaves, roots, ks + [k], q);
    assert k in ks + [k];
    if q in Slots(leaves, roots, ks) { var x :| x in ks && Classes(roots)(x) == q; assert x in ks + [k]; }
  }

  lemma SlotsLeaf(leaves: Leaves, roots: Parents, ks: seq<LeafKey>, k: LeafKey, q: LeafKey)
    requires q in Slots(leaves, roots, ks + [k])
    ensures q == Classes(roots)(k) ==>
              var slot := if q in Slots(leaves, roots, ks) then Slots(leaves, roots, ks)[q] else Leaf(q, [], []);
              Slots(leaves, roots, ks + [k])[q] ==
              Leaf(q, slot.mergedFrom + (if k == q then [] else [k]), slot.addresses + AddressesOf(leaves, k))
    ensures q != Classes(roots)(k) ==>
            q in Slots(leaves, roots, ks) && Slots(leaves, roots, ks + [k])[q] == Slots(leaves, roots, ks)[q]
  {
    hide Slots, Classes, Having, Slot, AddressesOf;
    var c := Classes(roots);
    SlotsKey(leaves, roots, ks, k, q);
    SlotsAt(leaves, roots, ks, q);
    SlotsAt(leaves, roots, ks + [k], q);
    HavingStep(ks, k, c, {q});
    if q != c(k) {
      assert Having(ks, c, {q}) + [] == Having(ks, c, {q});
    } else {
      if q !in Slots(leaves, roots, ks) {
        NoneHave(ks, c, q);
        EmptySlot(leaves, q);
      }
      SlotStep(leaves, q, Having(ks, c, {q}), k);
    }
  }

  lemma EmptySlot(leaves: Leaves, r: LeafKey)
    ensures Slot(leaves, r, []) == Leaf(r, [], [])
  {
  }

  // ----- the collected slots are the merged leaves ----------------------------------------------

  ghost function RootsOf(parent: Parents): Parents
    requires Forest(parent)
  {
    map k | k in parent :: Root(parent, k)
  }

  lemma RootLeads(parent: Parents, edges: seq<Edge>, k: LeafKey)
    requires Tracks(parent, edges) && k in parent
    ensures Leads(parent.Keys, edges, Root(parent, k))
  {
    hide Root, Linked, Forest, KeyLe;
    TracksForest(parent, edges);
    var r := Root(parent, k);
    forall x | Linked(parent.Keys, edges, x, r) ensures KeyLe(r, x) {
      LinkedKeys(parent.Keys, edges, x, r);
      TracksExactly(parent, edges, x, r);
      RootStep(parent, r);
      RootNotGreater(parent, x);
    }
  }

  lemma LeaderIsRoot(parent: Parents, edges: seq<Edge>, r: LeafKey)
    requires Tracks(parent, edges) && Leads(parent.Keys, edges, r)
    ensures r in parent && Root(parent, r) == r
  {
    hide Root, Linked, Forest, KeyLe;
    TracksForest(parent, edges);
    RootNotGreater(parent, r);
    RootStep(parent, Root(parent, r));
    TracksExactly(parent, edges, Root(parent, r), r);
    KeyAntisymmetric(r, Root(parent, r));
  }

  lemma {:induction false} HavingIsLinked(
    ks: seq<LeafKey>, c: LeafKey -> LeafKey, keys: set<LeafKey>, edges: seq<Edge>, r: LeafKey)
    requires forall k :: k in ks ==> (c(k) == r <==> Linked(keys, edges, k, r))
    ensures Having(ks, c, {r}) == LinkedTo(ks, keys, edges, r)
  {
    hide Linked;
    if ks != [] {
      assert ks[|ks| - 1] in ks;
      HavingIsLinked(ks[..|ks| - 1], c, keys, edges, r);
    }
  }

  lemma ClassesAreComponents(parent: Parents, edges: seq<Edge>, k: LeafKey, r: LeafKey)
    requires Tracks(parent, edges) && Forest(parent) && k in parent && r in parent && Root(parent, r) == r
    ensures Classes(RootsOf(parent))(k) == r <==> Linked(parent.Keys, edges, k, r)
  {
    hide *;
    ClassIsRoot(parent, k);
    TracksExactly(parent, edges, k, r);
  }

  lemma SlotsAt(leaves: Leaves, roots: Parents, ks: seq<LeafKey>, r: LeafKey)
    ensures r in Slots(leaves, roots, ks) ==> exists k :: k in ks && Classes(roots)(k) == r
    ensures forall k :: k in ks && Classes(roots)(k) == r ==> r in Slots(leaves, roots, ks)
    ensures r in Slots(leaves, roots, ks) ==>
            Slots(leaves, roots, ks)[r] == Slot(leaves, r, Having(ks, Classes(roots), {r}))
  {
  }

  lemma MergedAt(leaves: Leaves, edges: seq<Edge>, r: LeafKey)
    ensures r in Merged(leaves, edges) <==> Leads(leaves.Keys, edges, r)
    ensures r in Merged(leaves, edges) ==>
              Merged(leaves, edges)[r] == SortLeaf(Slot(leaves, r, Component(leaves.Keys, edges, r)))
  {
    hide Slot, SortLeaf, Component, Linked, KeyLe;
  }

  /** The slot of a root is the merged leaf of its component. */
  lemma SlotIsMerged(leaves: Leaves, parent: Parents, edges: seq<Edge>, r: LeafKey)
    requires Tracks(parent, edges) && parent.Keys == leaves.Keys && Forest(parent)
    ensures var slots := Slots(leaves, RootsOf(parent), KeysInOrder(leaves.Keys));
            && (r in slots <==> r in Merged(leaves, edges))
            && (r in slots ==> SortLeaf(slots[r]) == Merged(leaves, edges)[r])
  {
    hide *;
    var ks := KeysInOrder(leaves.Keys);
    SlotsAt(leaves, RootsOf(parent), ks, r);
    MergedAt(leaves, edges, r);
    if r in Slots(leaves, RootsOf(parent), ks) {
      var k :| k in ks && Classes(RootsOf(parent))(k) == r;
      RootLeads(parent, edges, k);
      ClassIsRoot(parent, k);
      SlotKeys(parent, edges, ks, r);
      ComponentIs(leaves.Keys, edges, r);
    }
    if Leads(leaves.Keys, edges, r) {
      LeaderIsRoot(parent, edges, r);
      ClassIsRoot(parent, r);
      assert r in ks;
    }
  }

  lemma ComponentIs(keys: set<LeafKey>, edges: seq<Edge>, r: LeafKey)
    ensures Component(keys, edges, r) == LinkedTo(KeysInOrder(keys), keys, edges, r)
  {
  }

  lemma SlotKeys(parent: Parents, edges: seq<Edge>, ks: seq<LeafKey>, r: LeafKey)
    requires Tracks(parent, edges) && Forest(parent) && r in parent && parent[r] == r
    requires forall k :: k in ks <==> k in parent.Keys
    ensures Having(ks, Classes(RootsOf(parent)), {r}) == LinkedTo(ks, parent.Keys, edges, r)
  {
    hide *;
    RootStep(parent, r);
    forall x | x in ks ensures Classes(RootsOf(parent))(x) == r <==> Linked(parent.Keys, edges, x, r) {
      ClassesAreComponents(parent, edges, x, r);
    }
    HavingIsLinked(ks, Classes(RootsOf(parent)), parent.Keys, edges, r);
  }

  lemma SlotsAreMerged(leaves: Leaves, parent: Parents, edges: seq<Edge>, result: Leaves)
    requires Tracks(parent, edges) && parent.Keys == leaves.Keys && Forest(parent)
    requires var slots := Slots(leaves, RootsOf(parent), KeysInOrder(leaves.Keys));
             result.Keys == slots.Keys && forall r :: r in slots ==> result[r] == SortLeaf(slots[r])
    ensures result == Merged(leaves, edges)
  {
    hide *;
    forall r ensures r in result <==> r in Merged(leaves, edges) { SlotIsMerged(leaves, parent, edges, r); }
    forall r | r in result ensures result[r] == Merged(leaves, edges)[r] { SlotIsMerged(leaves, parent, edges, r); }
  }

  class Partition {
    var leaves: Leaves

    constructor (leaves: Leaves)
      ensures this.leaves == leaves
    {
      this.leaves := leaves;
    }

    /** `build`: one leaf per leaf key, or the first fault. */
    static method Build(addresses: seq<string>) returns (r: Result<Partition, PartitionError>)
      ensures match Fault(Managed(addresses))
              case Some(e) => r == Err(e)
              case None => r.Ok? && fresh(r.value) && r.value.leaves == Built(Managed(addresses))
    {
      hide *;
      var seen: set<string>, leaves: Leaves := {}, map[];
      var i := 0;
      ghost var done: seq<string> := [];
      BuildStarts(addresses);
      while i < |addresses|
        invariant 0 <= i <= |addresses|
        invariant done == Managed(addresses[..i]) && Fault(done) == None
        invariant seen == (set x | x in done) && leaves == Gathered(done)
      {
        var a := addresses[i];
        ManagedStep(addresses, i);
        if !IsData(a) {
          FaultStep(done, a);
          if a in seen {
            FaultSticks(addresses, i + 1);
            return Err(Duplicate(a));
          }
          var key := LeafKeyOf(a);
          if key.Err? {
            FaultSticks(addresses, i + 1);
            return Err(BadAddress(key.error));
          }
          var slot := if key.value in leaves then leaves[key.value] else Leaf(key.value, [], []);
          GatheredStep(done, a, key.value, slot);
          leaves := leaves[key.value := Leaf(key.value, [], slot.addresses + [a])];
          seen := seen + {a};
          done := done + [a];
        }
        i := i + 1;
      }
      assert addresses[..i] == addresses;
      var sorted := SortAll(leaves);
      BuiltIsSorted(done, sorted);
      var p := new Partition(sorted);
      return Ok(p);
    }

    /** `merge`: join the leaves that the edges connect. */
    method Merge(edges: seq<Edge>)
      modifies this
      ensures leaves == Merged(old(leaves), edges)
    {
      hide *;
      ghost var start := leaves;
      var parent := UniteAll(leaves.Keys, edges);
      TracksForest(parent, edges);
      ghost var first := parent;
      ghost var roots := RootsOf(parent);
      var keys := KeysInOrder(leaves.Keys);
      var merged: Leaves := map[];
      var i := 0;
      assert keys[..0] == [];
      NoSlots(start, roots);
      SameRootsSelf(first);
      while i < |keys|
        invariant 0 <= i <= |keys|
        invariant leaves == start - set k | k in keys[..i]
        invariant SameRoots(first, parent)
        invariant merged == Slots(start, roots, keys[..i])
      {
        var k := keys[i];
        assert k in keys && k !in keys[..i] by { AtIndex(keys, i); }
        parent, merged := Collect(start, first, keys[..i], parent, merged, k, leaves[k]);
        leaves := leaves - {k};
        assert keys[..i] + [k] == keys[..i + 1];
        i := i + 1;
      }
      assert keys[..i] == keys;
      leaves := SortAll(merged);
      SlotsAreMerged(start, first, edges, leaves);
    }
  }

  lemma AtIndex<T(!new)>(s: seq<T>, i: nat)
    requires NoRepeats(s) && i < |s|
    ensures s[i] in s && s[i] !in s[..i]
  {
  }

  lemma SameRootsSelf(parent: Parents)
    requires Forest(parent)
    ensures SameRoots(parent, parent)
  {
  }

  lemma ClassIsRoot(parent: Parents, k: LeafKey)
    requires Forest(parent) && k in parent
    ensures Classes(RootsOf(parent))(k) == Root(parent, k)
  {
    hide Root;
  }

  /** One turn of the collecting loop: put the leaf of `k` into the slot of its root. */
  method Collect(
    ghost start: Leaves, ghost first: Parents, ghost done: seq<LeafKey>, parent: Parents, merged: Leaves, k: LeafKey,
        leaf: Leaf)
    returns (parent': Parents, merged': Leaves)
    requires SameRoots(first, parent) && k in first && k in start && leaf == start[k] && Forest(first)
    requires merged == Slots(start, RootsOf(first), done)
    ensures SameRoots(first, parent') && merged' == Slots(start, RootsOf(first), done + [k])
  {
    hide Root, Forest, Slots, Slot, SameRoots, RootsOf, Classes;
    SameRootsAt(first, parent, k);
    var root;
    root, parent' := Find(parent, k);
    SameRootsChain(first, parent, parent');
    ClassIsRoot(first, k);
    var slot := if root in merged then merged[root] else Leaf(root, [], []);
    SlotsStep(start, RootsOf(first), done, k, root, slot);
    merged' := merged[root := Leaf(root, slot.mergedFrom + (if k == root then [] else [k]),
        slot.addresses + leaf.addresses)];
  }

  lemma NoSlots(leaves: Leaves, roots: Parents)
    ensures Slots(leaves, roots, []) == map[]
  {
  }

  lemma SameRootsChain(a: Parents, b: Parents, c: Parents)
    requires SameRoots(a, b) && SameRoots(b, c)
    ensures SameRoots(a, c)
  {
    hide Root, Forest;
  }

  /** The last loop of `merge`: sort every leaf. */
  method SortAll(slots: Leaves) returns (r: Leaves)
    ensures r.Keys == slots.Keys && forall k :: k in slots ==> r[k] == SortLeaf(slots[k])
  {
    r := slots;
    var todo := slots.Keys;
    while todo != {}
      invariant todo <= slots.Keys && r.Keys == slots.Keys
      invariant forall k :: k in slots ==> r[k] == if k in todo then slots[k] else SortLeaf(slots[k])
      decreases |todo|
    {
      var k :| k in todo;
      r := r[k := SortLeaf(r[k])];
      todo := todo - {k};
    }
  }

  // ----- what merging keeps ---------------------------------------------------------------------

  ghost function ComponentSet(keys: set<LeafKey>, edges: seq<Edge>, k: LeafKey): set<LeafKey> {
    set x | x in keys && Linked(keys, edges, x, k)
  }

  /** The least key linked to `k`. */
  ghost function LeaderOf(keys: set<LeafKey>, edges: seq<Edge>, k: LeafKey): LeafKey {
    if k in keys then
      LinkedSelf(keys, edges, k);
      KeyLeIsTotalOrder();
      assert k in ComponentSet(keys, edges, k);
      Least(ComponentSet(keys, edges, k), KeyLe)
    else k
  }

  lemma LeaderIsLeast(keys: set<LeafKey>, edges: seq<Edge>, k: LeafKey)
    requires k in keys
    ensures Linked(keys, edges, LeaderOf(keys, edges, k), k)
    ensures forall x :: Linked(keys, edges, x, k) ==> KeyLe(LeaderOf(keys, edges, k), x)
  {
    LinkedSelf(keys, edges, k);
    KeyLeIsTotalOrder();
    hide Linked, KeyLe;
    var l := LeaderOf(keys, edges, k);
    assert IsLeast(l, ComponentSet(keys, edges, k), KeyLe);
    forall x | Linked(keys, edges, x, k) ensures KeyLe(l, x) {
      LinkedKeys(keys, edges, x, k);
      assert x in ComponentSet(keys, edges, k);
    }
  }

  lemma LeaderLeads(keys: set<LeafKey>, edges: seq<Edge>, k: LeafKey)
    requires k in keys
    ensures Leads(keys, edges, LeaderOf(keys, edges, k))
  {
    hide Linked, KeyLe, LeaderOf;
    LeaderIsLeast(keys, edges, k);
    var l := LeaderOf(keys, edges, k);
    LinkedKeys(keys, edges, l, k);
    forall x | Linked(keys, edges, x, l) ensures KeyLe(l, x) { LinkedTransitive(keys, edges, x, l, k); }
  }

  /** For a leader `r`: the keys led by `r` are the keys linked to `r`. */
  lemma LedByLinked(keys: set<LeafKey>, edges: seq<Edge>, k: LeafKey, r: LeafKey)
    requires k in keys && Leads(keys, edges, r)
    ensures LeaderOf(keys, edges, k) == r <==> Linked(keys, edges, k, r)
  {
    hide Linked, KeyLe, LeaderOf;
    LeaderIsLeast(keys, edges, k);
    var l := LeaderOf(keys, edges, k);
    LinkedSymmetric(keys, edges, l, k);
    if Linked(keys, edges, k, r) {
      LinkedTransitive(keys, edges, l, k, r);
      LinkedSymmetric(keys, edges, k, r);
      KeyAntisymmetric(l, r);
    }
  }

  ghost function Leaders(keys: set<LeafKey>, edges: seq<Edge>): LeafKey -> LeafKey { k => LeaderOf(keys, edges, k) }

  lemma MergedPart(leaves: Leaves, edges: seq<Edge>, r: LeafKey)
    requires r in Merged(leaves, edges)
    ensures multiset(Merged(leaves, edges)[r].addresses) ==
            multiset(Spread(Having(KeysInOrder(leaves.Keys), Leaders(leaves.Keys, edges), {r}), Holdings(leaves)))
  {
    hide Linked, KeyLe, LeaderOf, Leads, Spread, Having, LinkedTo, Merged;
    var keys, ks := leaves.Keys, KeysInOrder(leaves.Keys);
    MergedAt(leaves, edges, r);
    forall k | k in ks ensures Leaders(keys, edges)(k) == r <==> Linked(keys, edges, k, r) {
      LedByLinked(keys, edges, k, r);
    }
    HavingIsLinked(ks, Leaders(keys, edges), keys, edges, r);
    SortPermutes(Spread(Component(keys, edges, r), Holdings(leaves)), StrLe);
  }

  /** Merging loses no address and invents none. */
  lemma MergedKeepsAddresses(leaves: Leaves, edges: seq<Edge>)
    ensures multiset(All(Merged(leaves, edges))) == multiset(All(leaves))
  {
    hide Linked, KeyLe, LeaderOf, Leads, Spread, Having, LinkedTo, Merged;
    var keys, ks := leaves.Keys, KeysInOrder(leaves.Keys);
    var merged := Merged(leaves, edges);
    var rs := KeysInOrder(merged.Keys);
    var c := Leaders(keys, edges);
    forall r | r in rs ensures multiset(Holdings(merged)(r)) == multiset(Spread(Having(ks, c, {r}), Holdings(leaves))) {
      MergedPart(leaves, edges, r);
    }
    ClassesWeighTheWhole(ks, c, Holdings(leaves), rs, Holdings(merged));
    forall k | k in ks ensures c(k) in set r | r in rs {
      LeaderLeads(keys, edges, k);
      MergedAt(leaves, edges, c(k));
    }
    HavingAll(ks, c, set r | r in rs);
  }

  /** And keeps the leaves disjoint. */
  lemma MergedKeepsDisjoint(leaves: Leaves, edges: seq<Edge>)
    requires NoRepeats(All(leaves))
    ensures NoRepeats(All(Merged(leaves, edges)))
  {
    hide *;
    MergedKeepsAddresses(leaves, edges);
    NoRepeatsIsPermutable(All(leaves), All(Merged(leaves, edges)));
  }

  /** An address is in the merged leaf `r` exactly when a leaf linked to `r` held it. */
  lemma MergedPlaces(leaves: Leaves, edges: seq<Edge>, r: LeafKey, a: string)
    requires r in Merged(leaves, edges)
    ensures a in Merged(leaves, edges)[r].addresses <==>
            exists k :: k in leaves && Linked(leaves.Keys, edges, k, r) && a in leaves[k].addresses
  {
    hide *;
    var ks := Component(leaves.Keys, edges, r);
    MergedAddresses(leaves, edges, r);
    SpreadMembers(ks, Holdings(leaves));
    LinkedToMembers(KeysInOrder(leaves.Keys), leaves.Keys, edges, r);
    ComponentIs(leaves.Keys, edges, r);
    assert forall i :: 0 <= i < |ks| ==> ks[i] in ks;
    forall k ensures Holdings(leaves)(k) == AddressesOf(leaves, k) &&
        (k in leaves ==> AddressesOf(leaves, k) == leaves[k].addresses) {
      HoldingsAt(leaves, k);
    }
    if exists k :: k in leaves && Linked(leaves.Keys, edges, k, r) && a in leaves[k].addresses {
      var k :| k in leaves && Linked(leaves.Keys, edges, k, r) && a in leaves[k].addresses;
      assert k in ks;
      var i :| 0 <= i < |ks| && ks[i] == k;
      assert a in Holdings(leaves)(ks[i]);
    }
  }

  lemma HoldingsAt(leaves: Leaves, k: LeafKey)
    ensures Holdings(leaves)(k) == AddressesOf(leaves, k) &&
            (k in leaves ==> AddressesOf(leaves, k) == leaves[k].addresses)
  {
  }

  lemma MergedAddresses(leaves: Leaves, edges: seq<Edge>, r: LeafKey)
    requires r in Merged(leaves, edges)
    ensures forall a :: a in Merged(leaves, edges)[r].addresses <==>
            a in Spread(Component(leaves.Keys, edges, r), Holdings(leaves))
  {
    hide Linked, KeyLe, Leads, Spread, Merged, Component;
    MergedAt(leaves, edges, r);
    SortPermutes(Spread(Component(leaves.Keys, edges, r), Holdings(leaves)), StrLe);
  }

  lemma {:induction false} LinkedToMembers(ks: seq<LeafKey>, keys: set<LeafKey>, edges: seq<Edge>, r: LeafKey)
    ensures forall k :: k in LinkedTo(ks, keys, edges, r) <==> k in ks && Linked(keys, edges, k, r)
  {
    hide Linked;
    if ks != [] {
      var front, last := ks[..|ks| - 1], ks[|ks| - 1];
      LinkedToMembers(front, keys, edges, r);
      assert ks == front + [last];
    }
  }

  lemma {:induction false} OthersMembers(ks: seq<LeafKey>, r: LeafKey)
    ensures forall k :: k in Others(ks, r) <==> k in ks && k != r
  {
    if ks != [] {
      var front, last := ks[..|ks| - 1], ks[|ks| - 1];
      OthersMembers(front, r);
      assert ks == front + [last];
    }
  }

  lemma {:induction false} OthersOnce(ks: seq<LeafKey>, r: LeafKey)
    requires NoRepeats(ks)
    ensures NoRepeats(Others(ks, r))
  {
    if ks != [] {
      var front, last := ks[..|ks| - 1], ks[|ks| - 1];
      OthersOnce(front, r);
      OthersMembers(front, r);
      LastIsNew(ks);
    }
  }

  lemma {:induction false} LinkedToOnce(ks: seq<LeafKey>, keys: set<LeafKey>, edges: seq<Edge>, r: LeafKey)
    requires NoRepeats(ks)
    ensures NoRepeats(LinkedTo(ks, keys, edges, r))
  {
    hide Linked;
    if ks != [] {
      var front := ks[..|ks| - 1];
      LinkedToOnce(front, keys, edges, r);
      LinkedToMembers(front, keys, edges, r);
      LastIsNew(ks);
    }
  }

  /** A merged leaf goes by the key it is stored under, names exactly the leaves merged into it, each once and in
      order, and lists its addresses in order. */
  lemma MergedLeaf(leaves: Leaves, edges: seq<Edge>, r: LeafKey)
    requires r in Merged(leaves, edges)
    ensures var l := Merged(leaves, edges)[r];
            && l.key == r
            && (forall k :: k in l.mergedFrom <==> k in leaves && k != r && Linked(leaves.Keys, edges, k, r))
            && NoRepeats(l.mergedFrom) && Sorted(l.mergedFrom, KeyLe)
            && Sorted(l.addresses, StrLe)
  {
    hide *;
    var ks := Component(leaves.Keys, edges, r);
    MergedAt(leaves, edges, r);
    ComponentIs(leaves.Keys, edges, r);
    LinkedToMembers(KeysInOrder(leaves.Keys), leaves.Keys, edges, r);
    LinkedToOnce(KeysInOrder(leaves.Keys), leaves.Keys, edges, r);
    SlotSorted(leaves, r, ks);
  }

  lemma SlotSorted(leaves: Leaves, r: LeafKey, ks: seq<LeafKey>)
    requires NoRepeats(ks)
    ensures var l := SortLeaf(Slot(leaves, r, ks));
            && l.key == r && (forall k :: k in l.mergedFrom <==> k in ks && k != r)
            && NoRepeats(l.mergedFrom) && Sorted(l.mergedFrom, KeyLe) && Sorted(l.addresses, StrLe)
  {
    var others := Others(ks, r);
    OthersMembers(ks, r);
    OthersOnce(ks, r);
    SortedKeys(others);
    StrLeIsTotalOrder();
    hide *;
    SortLeafIs(Slot(leaves, r, ks));
    SlotIs(leaves, r, ks);
    TextOrder();
    SortSorted(Spread(ks, Holdings(leaves)), StrLe);
  }

  lemma TextOrder()
    ensures TotalPreorder(StrLe)
  {
    StrLeIsTotalOrder();
  }

  lemma SortLeafIs(l: Leaf)
    ensures SortLeaf(l) == Leaf(l.key, Sort(l.mergedFrom, KeyLe), Sort(l.addresses, StrLe))
  {
  }

  lemma SlotIs(leaves: Leaves, r: LeafKey, ks: seq<LeafKey>)
    ensures Slot(leaves, r, ks) == Leaf(r, Others(ks, r), Spread(ks, Holdings(leaves)))
  {
  }

  lemma SortedKeys(ks: seq<LeafKey>)
    requires NoRepeats(ks)
    ensures var s := Sort(ks, KeyLe); Sorted(s, KeyLe) && NoRepeats(s) && forall k :: k in s <==> k in ks
  {
    KeyLeIsTotalOrder();
    hide KeyLe, Sorted, NoRepeats;
    SortPermutes(ks, KeyLe);
    SortSorted(ks, KeyLe);
    NoRepeatsIsPermutable(ks, Sort(ks, KeyLe));
    assert forall k :: k in ks <==> k in multiset(ks);
  }

  /** A leaf that was merged goes to a leaf keyed by an index if it is linked to any, otherwise to one of a module if it
      is linked to any, and among those to the one whose text comes first. */
  lemma MergedUnder(leaves: Leaves, edges: seq<Edge>, k: LeafKey) returns (r: LeafKey)
    requires k in leaves
    ensures r in Merged(leaves, edges) && Linked(leaves.Keys, edges, k, r)
    ensures forall x :: Linked(leaves.Keys, edges, x, k) ==>
              match x
              case Keyed(t) => r.Keyed? && StrLe(r.raw, t)
              case ModuleKey(t) => r.Keyed? || (r.ModuleKey? && StrLe(r.raw, t))
              case AddressKey(t) => !r.AddressKey? || StrLe(r.raw, t)
  {
    r := LeaderOf(leaves.Keys, edges, k);
    LeaderIsLeast(leaves.Keys, edges, k);
    LeaderLeads(leaves.Keys, edges, k);
    hide Linked, LeaderOf, Leads, StrLe;
    LinkedSymmetric(leaves.Keys, edges, r, k);
    MergedAt(leaves, edges, r);
  }

  /** The result depends on which existing keys the edges connect, not on their order or direction. */
  lemma MergeForgetsEdgeOrder(leaves: Leaves, edges: seq<Edge>, others: seq<Edge>)
    requires forall a, b :: a in leaves && b in leaves ==> (Adjacent(edges, a, b) <==> Adjacent(others, a, b))
    ensures Merged(leaves, edges) == Merged(leaves, others)
  {
    hide Linked, KeyLe, Slot, SortLeaf;
    var keys := leaves.Keys;
    forall a, b ensures Linked(keys, edges, a, b) <==> Linked(keys, others, a, b) {
      SameAdjacencyLinks(keys, edges, others, a, b);
      SameAdjacencyLinks(keys, others, edges, a, b);
    }
    forall r ensures Component(keys, edges, r) == Component(keys, others, r) {
      SameLinksSameComponent(KeysInOrder(keys), keys, edges, others, r);
    }
  }

  lemma SameAdjacencyLinks(keys: set<LeafKey>, edges: seq<Edge>, others: seq<Edge>, a: LeafKey, b: LeafKey)
    requires forall x, y :: x in keys && y in keys && Adjacent(edges, x, y) ==> Adjacent(others, x, y)
    ensures Linked(keys, edges, a, b) ==> Linked(keys, others, a, b)
  {
    hide Adjacent;
    if Linked(keys, edges, a, b) {
      var p :| Joins(keys, edges, p, a, b);
      assert Joins(keys, others, p, a, b);
    }
  }

  lemma {:induction false} SameLinksSameComponent(
    ks: seq<LeafKey>, keys: set<LeafKey>, edges: seq<Edge>, others: seq<Edge>, r: LeafKey)
    requires forall a, b :: Linked(keys, edges, a, b) <==> Linked(keys, others, a, b)
    ensures LinkedTo(ks, keys, edges, r) == LinkedTo(ks, keys, others, r)
  {
    hide Linked;
    if ks != [] { SameLinksSameComponent(ks[..|ks| - 1], keys, edges, others, r); }
  }

  // ----- the planner's own check -------------------------------------------------------------------

  datatype Bijection = Bijection(
    countBefore: nat, countAfter: nat, hashBefore: string, hashAfter: string, disjoint: bool, ok: bool)

  /** `Partition::bijection`. */
  function BijectionOf(hash: seq<byte> -> string, leaves: Leaves, addresses: seq<string>): Bijection {
    var before, after := Managed(addresses), All(leaves);
    var hashBefore, hashAfter := MultisetHash(hash, before), MultisetHash(hash, after);
    var disjoint := AllDistinct(after);
    Bijection(|before|, |after|, hashBefore, hashAfter, disjoint, disjoint && hashBefore == hashAfter)
  }

  /** The check passes on everything `build` and `merge` produce, whatever the hash. */
  lemma BijectionHolds(hash: seq<byte> -> string, addresses: seq<string>, edges: seq<Edge>)
    requires Fault(Managed(addresses)).None?
    ensures BijectionOf(hash, Built(Managed(addresses)), addresses).ok
    ensures BijectionOf(hash, Merged(Built(Managed(addresses)), edges), addresses).ok
  {
    hide Built, Merged, Managed, All, AllDistinct, Preimage;
    var ms := Managed(addresses);
    FaultExactly(ms);
    BuiltKeepsAddresses(ms);
    MergedKeepsAddresses(Built(ms), edges);
    ConservedIsOk(ms, All(Built(ms)));
    ConservedIsOk(ms, All(Merged(Built(ms), edges)));
  }

  lemma ConservedIsOk(before: seq<string>, after: seq<string>)
    requires NoRepeats(before) && multiset(before) == multiset(after)
    ensures AllDistinct(after) && Preimage(before) == Preimage(after)
  {
    hide *;
    NoRepeatsIsPermutable(before, after);
    DistinctMeansNoRepeats(after);
    SameMultisetSamePreimage(before, after);
  }

  /** What the check reports: it counts both sides, and unless the hash confuses the two lists it passes exactly when
      the leaves hold every managed address once and nothing else. */
  lemma BijectionExactly(hash: seq<byte> -> string, leaves: Leaves, addresses: seq<string>)
    requires var before, after := Managed(addresses), All(leaves);
             InMemory(before) && InMemory(after) &&
             (hash(Preimage(before)) == hash(Preimage(after)) ==> Preimage(before) == Preimage(after))
    ensures var b := BijectionOf(hash, leaves, addresses);
            && b.countBefore == |Managed(addresses)| && b.countAfter == |All(leaves)|
            && (b.disjoint <==> NoRepeats(All(leaves)))
            && b.hashBefore == hash(Preimage(Managed(addresses))) && b.hashAfter == hash(Preimage(All(leaves)))
            && (b.hashBefore == b.hashAfter <==> multiset(Managed(addresses)) == multiset(All(leaves)))
            && (b.ok <==> NoRepeats(All(leaves)) && multiset(Managed(addresses)) == multiset(All(leaves)))
  {
    hide Managed, All, AllDistinct, Preimage, InMemory, NoRepeats;
    PreimageIsMultiset(Managed(addresses), All(leaves));
    DistinctMeansNoRepeats(All(leaves));
  }
}
