/**
  `plan_migration`: partition the addresses of a fat template, check the partition, and say
  which addresses move where.  Leaf names and the hash are arbitrary functions.
*/
module Planning {
  import opened Prelude
  import opened Ordering
  import opened Grouping
  import opened Address
  import opened UnionFind
  import opened Partitions
  import opened AddressDigest
  import Splitting
  import Dag

  datatype PlanAction = NoOp | Read | Create | Update | Delete | Replace {
    predicate Adds() { this == Create || this == Replace }
    predicate Changes() { this == Update }
    predicate Destroys() { this == Delete || this == Replace }
  }

  type Change = (string, PlanAction)

  datatype PlanView = PlanView(changes: seq<Change>, references: set<(string, string)>)

  datatype Input = Input(
    fatName: Option<string>, hasSpec: bool, pangeaNamespace: Option<string>, addresses: seq<string>,
    plan: Option<PlanView>, p95: Option<nat>, budget: Option<nat>, groupReferences: bool)

  datatype FatReason = MultipleLeafKeys(leafKeys: nat) | CycleOverBudget(p95: nat, budget: nat)

  datatype Classification = Classification(
    leafKeys: nat, p95: Option<nat>, budget: Option<nat>, fat: bool, reasons: seq<FatReason>)

  datatype PlanError = NoName | NoSpec | BadPartition(error: PartitionError)

  datatype CheckStatus = Pass | Fail | Unproven

  datatype Verdict = NotFat | NothingToSplit | Refused | Ready

  datatype Projected = Projected(add: nat, change: nat, destroy: nat, noOp: nat)

  datatype LeafPlan = LeafPlan(
    template: string, key: LeafKey, mergedFrom: seq<LeafKey>, addresses: seq<string>, upstreams: seq<string>)

  datatype MigrationPlan = MigrationPlan(
    fatTemplate: string, classification: Classification, verdict: Verdict, checks: seq<CheckStatus>,
    bijection: Option<Bijection>, projected: Option<Projected>, leafCount: nat, partitionSizes: map<nat, nat>,
    leaves: seq<LeafPlan>, moves: seq<Splitting.StateMove>)

  /** The name of each leaf, given the fat template's name and all keys. */
  type LeafNames = (string, seq<LeafKey>) -> (LeafKey -> string)

  // ----- classification -------------------------------------------------------------------------

  function KeySet(ms: seq<string>): set<LeafKey> { set a | a in ms :: KeyOf(a) }

  function FirstBad(ms: seq<string>): Option<AddressError> {
    if ms == [] then None
    else if FirstBad(ms[..|ms| - 1]).Some? then FirstBad(ms[..|ms| - 1])
    else if LeafKeyOf(ms[|ms| - 1]).Err? then Some(LeafKeyOf(ms[|ms| - 1]).error)
    else None
  }

  function Classified(leafKeys: nat, p95: Option<nat>, budget: Option<nat>): Classification {
    var several := if leafKeys > 1 then [MultipleLeafKeys(leafKeys)] else [];
    var over := p95.Some? && budget.Some? && p95.value > budget.value;
    var slow := if over then [CycleOverBudget(p95.value, budget.value)] else [];
    Classification(leafKeys, p95, budget, several + slow != [], several + slow)
  }

  lemma {:induction false} BadSticks(addresses: seq<string>, i: nat)
    requires i <= |addresses| && FirstBad(Managed(addresses[..i])).Some?
    ensures FirstBad(Managed(addresses)) == FirstBad(Managed(addresses[..i]))
    decreases |addresses| - i
  {
    hide IsData, LeafKeyOf;
    if i == |addresses| {
      assert addresses[..i] == addresses;
    } else {
      ManagedStep(addresses, i);
      var ms, a := Managed(addresses[..i]), addresses[i];
      assert (ms + [a])[..|ms + [a]| - 1] == ms && ms + [] == ms;
      BadSticks(addresses, i + 1);
    }
  }

  lemma BadStep(ms: seq<string>, a: string)
    requires FirstBad(ms).None?
    ensures FirstBad(ms + [a]) == if LeafKeyOf(a).Err? then Some(LeafKeyOf(a).error) else None
    ensures LeafKeyOf(a).Ok? ==> KeySet(ms + [a]) == KeySet(ms) + {LeafKeyOf(a).value}
  {
    hide LeafKeyOf;
    assert (ms + [a])[..|ms + [a]| - 1] == ms;
    if LeafKeyOf(a).Ok? {
      assert KeyOf(a) == LeafKeyOf(a).value;
      forall k ensures k in KeySet(ms + [a]) <==> k in KeySet(ms) + {LeafKeyOf(a).value} {
        if k in KeySet(ms + [a]) { var x :| x in ms + [a] && KeyOf(x) == k; }
        assert a in ms + [a];
      }
    }
  }

  method Classify(addresses: seq<string>, p95: Option<nat>, budget: Option<nat>)
      returns (r: Result<Classification, AddressError>)
    ensures r == match FirstBad(Managed(addresses))
                 case Some(e) => Err(e)
                 case None => Ok(Classified(|KeySet(Managed(addresses))|, p95, budget))
  {
    var keys: set<LeafKey>, i := {}, 0;
    ghost var done: seq<string> := [];
    BuildStarts(addresses);
    assert KeySet([]) == {} && FirstBad([]) == None;
    hide *;
    while i < |addresses|
      invariant 0 <= i <= |addresses|
      invariant done == Managed(addresses[..i]) && FirstBad(done) == None && keys == KeySet(done)
    {
      var a := addresses[i];
      ManagedStep(addresses, i);
      if !IsData(a) {
        BadStep(done, a);
        var key := LeafKeyOf(a);
        if key.Err? {
          BadSticks(addresses, i + 1);
          return Err(key.error);
        }
        keys := keys + {key.value};
        done := done + [a];
      }
      i := i + 1;
    }
    assert addresses[..i] == addresses;
    return Ok(Classified(|keys|, p95, budget));
  }

  // ----- references between leaves ------------------------------------------------------------------

  type Index = map<string, set<LeafKey>>

  function At(m: Index, s: string): set<LeafKey> { if s in m then m[s] else {} }

  predicate Strips(addresses: seq<string>, s: string) { exists a :: a in addresses && StripIndex(a) == Ok(s) }

  /** The leaves that hold an address which is `s` without its indices. */
  function Filed(leaves: Leaves, s: string): set<LeafKey> { set k | k in leaves && Strips(leaves[k].addresses, s) }

  method FileLeaf(m: Index, k: LeafKey, addresses: seq<string>) returns (m': Index)
    ensures forall s, q :: q in At(m', s) <==> q in At(m, s) || (q == k && Strips(addresses, s))
  {
    m' := m;
    var j := 0;
    hide StripIndex;
    while j < |addresses|
      invariant 0 <= j <= |addresses|
      invariant forall s, q :: q in At(m', s) <==> q in At(m, s) || (q == k && Strips(addresses[..j], s))
    {
      var a := addresses[j];
      assert addresses[..j + 1] == addresses[..j] + [a];
      var stripped := StripIndex(a);
      StripsStep(addresses[..j], a);
      if stripped.Ok? {
        m' := m'[stripped.value := At(m', stripped.value) + {k}];
      }
      j := j + 1;
    }
    assert addresses[..j] == addresses;
  }

  lemma StripsStep(addresses: seq<string>, a: string)
    ensures forall s :: Strips(addresses + [a], s) <==> Strips(addresses, s) || StripIndex(a) == Ok(s)
  {
    hide StripIndex;
    forall s ensures Strips(addresses + [a], s) <==> Strips(addresses, s) || StripIndex(a) == Ok(s) {
      if Strips(addresses, s) { var x :| x in addresses && StripIndex(x) == Ok(s); assert x in addresses + [a]; }
      if StripIndex(a) == Ok(s) { assert a in addresses + [a]; }
    }
  }

  method StrippedIndex(leaves: Leaves) returns (m: Index)
    ensures forall s :: At(m, s) == Filed(leaves, s)
  {
    hide *;
    m := map[];
    var keys, i := KeysInOrder(leaves.Keys), 0;
    ghost var done: set<LeafKey> := {};
    NothingFiled();
    while i < |keys|
      invariant 0 <= i <= |keys| && done == set k | k in keys[..i]
      invariant forall s, q :: q in At(m, s) <==> q in done && Strips(AddressesOf(leaves, q), s)
    {
      var k := keys[i];
      assert k in keys;
      assert keys[..i + 1] == keys[..i] + [k];
      AddressesAre(leaves, k);
      m := FileLeaf(m, k, leaves[k].addresses);
      done := done + {k};
      i := i + 1;
    }
    assert keys[..i] == keys;
    assert done == leaves.Keys;
    forall s ensures At(m, s) == Filed(leaves, s) { FiledMeans(leaves, s); }
  }

  lemma NothingFiled()
    ensures forall s :: At(map[], s) == {}
  {
  }

  lemma AddressesAre(leaves: Leaves, k: LeafKey)
    requires k in leaves
    ensures AddressesOf(leaves, k) == leaves[k].addresses
  {
  }

  lemma FiledMeans(leaves: Leaves, s: string)
    ensures forall q :: q in Filed(leaves, s) <==> q in leaves && Strips(AddressesOf(leaves, q), s)
  {
    hide Strips;
  }

  /** Reference `r` ties leaf `f` to leaf `t`: one of its two ends is in one leaf only. */
  predicate Ties(leaves: Leaves, r: (string, string), f: LeafKey, t: LeafKey) {
    && f in Filed(leaves, r.0) && t in Filed(leaves, r.1) && f != t
    && (|Filed(leaves, r.0)| == 1 || |Filed(leaves, r.1)| == 1)
  }

  ghost predicate Tied(leaves: Leaves, refs: set<(string, string)>, f: LeafKey, t: LeafKey) {
    exists r :: r in refs && Ties(leaves, r, f, t)
  }

  method EdgesFrom(f: LeafKey, ts: seq<LeafKey>) returns (out: seq<Edge>)
    ensures forall e :: e in out <==> e.0 == f && e.1 in ts && e.0 != e.1
  {
    out := [];
    var j := 0;
    while j < |ts|
      invariant 0 <= j <= |ts|
      invariant forall e :: e in out <==> e.0 == f && e.1 in ts[..j] && e.0 != e.1
    {
      assert ts[..j + 1] == ts[..j] + [ts[j]];
      if f != ts[j] { out := out + [(f, ts[j])]; }
      j := j + 1;
    }
    assert ts[..j] == ts;
  }

  method CrossEdges(fs: set<LeafKey>, ts: set<LeafKey>) returns (out: seq<Edge>)
    ensures forall e :: e in out <==> e.0 in fs && e.1 in ts && e.0 != e.1 && (|fs| == 1 || |ts| == 1)
  {
    hide *;
    out := [];
    if |fs| != 1 && |ts| != 1 { return; }
    var froms, tos, i := KeysInOrder(fs), KeysInOrder(ts), 0;
    while i < |froms|
      invariant 0 <= i <= |froms|
      invariant forall e :: e in out <==> e.0 in froms[..i] && e.1 in tos && e.0 != e.1
    {
      assert froms[..i + 1] == froms[..i] + [froms[i]];
      var more := EdgesFrom(froms[i], tos);
      out := out + more;
      i := i + 1;
    }
    assert froms[..i] == froms;
  }

  /** `reference_leaf_edges`. */
  method ReferenceLeafEdges(leaves: Leaves, refs: set<(string, string)>) returns (out: seq<Edge>)
    ensures forall e :: e in out <==> Tied(leaves, refs, e.0, e.1)
  {
    var idx := StrippedIndex(leaves);
    out := [];
    var todo, done := refs, {};
    hide Filed;
    while todo != {}
      invariant todo + done == refs && todo !! done
      invariant forall e :: e in out <==> Tied(leaves, done, e.0, e.1)
      decreases |todo|
    {
      var r :| r in todo;
      var more := CrossEdges(At(idx, r.0), At(idx, r.1));
      ghost var before := done;
      todo, done := todo - {r}, done + {r};
      forall e ensures e in out + more <==> Tied(leaves, done, e.0, e.1) { TiedStep(leaves, before, r, e.0, e.1); }
      out := out + more;
    }
    assert done == refs;
  }

  lemma TiedStep(leaves: Leaves, refs: set<(string, string)>, r: (string, string), f: LeafKey, t: LeafKey)
    ensures Tied(leaves, refs + {r}, f, t) <==> Tied(leaves, refs, f, t) || Ties(leaves, r, f, t)
  {
    hide Ties;
    if Tied(leaves, refs, f, t) { var x :| x in refs && Ties(leaves, x, f, t); assert x in refs + {r}; }
    if Ties(leaves, r, f, t) { assert r in refs + {r}; }
  }

  /** `singleton_edges`: from each leaf to the one leaf that holds what it refers to. */
  predicate Leans(leaves: Leaves, r: (string, string), f: LeafKey, t: LeafKey) {
    f in Filed(leaves, r.0) && Filed(leaves, r.1) == {t} && f != t
  }

  ghost predicate LeansSome(leaves: Leaves, refs: set<(string, string)>, f: LeafKey, t: LeafKey) {
    exists r :: r in refs && Leans(leaves, r, f, t)
  }

  ghost function LeafEdges(leaves: Leaves, plan: Option<PlanView>): set<Edge> {
    if plan.None? then {}
    else set f, t | f in leaves && t in leaves && LeansSome(leaves, plan.value.references, f, t) :: (f, t)
  }

  method SingletonEdges(leaves: Leaves, plan: Option<PlanView>) returns (out: set<Edge>)
    ensures out == LeafEdges(leaves, plan)
  {
    out := {};
    if plan.None? { return; }
    var idx := StrippedIndex(leaves);
    var refs := plan.value.references;
    var todo, done := refs, {};
    hide *;
    while todo != {}
      invariant todo + done == refs && todo !! done
      invariant forall e :: e in out <==> exists r :: r in done && Leans(leaves, r, e.0, e.1)
      decreases |todo|
    {
      var r :| r in todo;
      var more := LeanOn(At(idx, r.0), At(idx, r.1));
      forall e ensures e in out + more <==> exists x :: x in done + {r} && Leans(leaves, x, e.0, e.1) {
        LeansStep(leaves, done, r, e);
        LeansMeans(leaves, r, e);
      }
      out := out + more;
      todo, done := todo - {r}, done + {r};
    }
    assert done == refs;
    LeafEdgesAre(leaves, plan.value, out);
  }

  lemma LeansMeans(leaves: Leaves, r: (string, string), e: Edge)
    ensures Leans(leaves, r, e.0, e.1) <==> e.0 in Filed(leaves, r.0) && Filed(leaves, r.1) == {e.1} && e.0 != e.1
  {
  }

  lemma LeansStep(leaves: Leaves, done: set<(string, string)>, r: (string, string), e: Edge)
    ensures (exists x :: x in done + {r} && Leans(leaves, x, e.0, e.1)) <==>
            (exists x :: x in done && Leans(leaves, x, e.0, e.1)) || Leans(leaves, r, e.0, e.1)
  {
    hide Leans;
    if x :| x in done && Leans(leaves, x, e.0, e.1) { assert x in done + {r}; }
    if Leans(leaves, r, e.0, e.1) { assert r in done + {r}; }
  }

  lemma LeafEdgesAre(leaves: Leaves, view: PlanView, out: set<Edge>)
    requires forall e :: e in out <==> exists r :: r in view.references && Leans(leaves, r, e.0, e.1)
    ensures out == LeafEdges(leaves, Some(view))
  {
    forall e | e in out ensures e in LeafEdges(leaves, Some(view)) {
      var r :| r in view.references && Leans(leaves, r, e.0, e.1);
      assert e.1 in Filed(leaves, r.1);
    }
  }

  method LeanOn(fs: set<LeafKey>, ts: set<LeafKey>) returns (out: set<Edge>)
    ensures forall e :: e in out <==> e.0 in fs && ts == {e.1} && e.0 != e.1
  {
    if |ts| != 1 { return {}; }
    var t := OnlyOne(ts);
    return set f | f in fs && f != t :: (f, t);
  }

  method OnlyOne(ts: set<LeafKey>) returns (t: LeafKey)
    requires |ts| == 1
    ensures ts == {t}
  {
    t :| t in ts;
    assert |ts - {t}| == 0;
    assert ts == {t};
  }

  // ----- the leaves to migrate to ---------------------------------------------------------------------

  ghost function TieEdges(leaves: Leaves, refs: set<(string, string)>): set<Edge> {
    set f, t | f in leaves && t in leaves && Tied(leaves, refs, f, t) :: (f, t)
  }

  /** The elements of a set in some order; what is done with them below does not depend on which. */
  ghost function AnyOrder<T(!new)>(s: set<T>): (r: seq<T>)
    ensures forall x :: x in r <==> x in s
    decreases |s|
  {
    if s == {} then [] else var x :| x in s; [x] + AnyOrder(s - {x})
  }

  /** The leaves by key, joined along references when asked to. */
  ghost function Target(inp: Input): Leaves {
    var leaves := Built(Managed(inp.addresses));
    if inp.groupReferences && inp.plan.Some?
    then Merged(leaves, AnyOrder(TieEdges(leaves, inp.plan.value.references)))
    else leaves
  }

  lemma TiesAreEdges(leaves: Leaves, refs: set<(string, string)>, edges: seq<Edge>)
    requires forall e :: e in edges <==> Tied(leaves, refs, e.0, e.1)
    ensures Merged(leaves, edges) == Merged(leaves, AnyOrder(TieEdges(leaves, refs)))
  {
    hide Merged, Tied;
    var others := AnyOrder(TieEdges(leaves, refs));
    forall a, b | a in leaves && b in leaves ensures Adjacent(edges, a, b) <==> Adjacent(others, a, b) {
      assert (a, b) in edges <==> Tied(leaves, refs, (a, b).0, (a, b).1);
      assert (b, a) in edges <==> Tied(leaves, refs, (b, a).0, (b, a).1);
      assert (a, b) in TieEdges(leaves, refs) <==> Tied(leaves, refs, a, b);
      assert (b, a) in TieEdges(leaves, refs) <==> Tied(leaves, refs, b, a);
    }
    MergeForgetsEdgeOrder(leaves, edges, others);
  }

  // ----- leaf sizes ------------------------------------------------------------------------------------

  function SizeIn(leaves: Leaves): LeafKey -> nat { k => |AddressesOf(leaves, k)| }

  /** How many leaves have each size. */
  function SizesOf(leaves: Leaves, keys: seq<LeafKey>): map<nat, nat> {
    map n | n in (set k | k in keys :: SizeIn(leaves)(k)) :: |Having(keys, SizeIn(leaves), {n})|
  }

  lemma SizesAt(leaves: Leaves, keys: seq<LeafKey>, n: nat)
    ensures n in SizesOf(leaves, keys) <==> exists k :: k in keys && SizeIn(leaves)(k) == n
    ensures n in SizesOf(leaves, keys) ==> SizesOf(leaves, keys)[n] == |Having(keys, SizeIn(leaves), {n})|
  {
    hide SizeIn, Having;
  }

  lemma SizesStep(leaves: Leaves, keys: seq<LeafKey>, k: LeafKey)
    ensures var m, n := SizesOf(leaves, keys), SizeIn(leaves)(k);
            SizesOf(leaves, keys + [k]) == m[n := (if n in m then m[n] else 0) + 1]
  {
    hide SizesOf, SizeIn, Having;
    var size, m, n := SizeIn(leaves), SizesOf(leaves, keys), SizeIn(leaves)(k);
    var after, m' := SizesOf(leaves, keys + [k]), m[n := (if n in m then m[n] else 0) + 1];
    assert k in keys + [k];
    forall q: nat ensures (q in after <==> q in m') && (q in after ==> after[q] == m'[q]) {
      SizesAt(leaves, keys, q);
      SizesAt(leaves, keys + [k], q);
      HavingStep(keys, k, size, {q});
      if q in m { var x :| x in keys && size(x) == q; assert x in keys + [k]; }
      if q == n && q !in m { NoneHave(keys, size, q); }
    }
    assert after.Keys == m'.Keys;
  }

  lemma NoSizes(leaves: Leaves, keys: seq<LeafKey>)
    requires keys == []
    ensures SizesOf(leaves, keys) == map[]
  {
  }

  method CountSizes(leaves: Leaves, keys: seq<LeafKey>) returns (m: map<nat, nat>)
    ensures m == SizesOf(leaves, keys)
  {
    hide *;
    m := map[];
    var i := 0;
    NoSizes(leaves, keys[..0]);
    while i < |keys|
      invariant 0 <= i <= |keys| && m == SizesOf(leaves, keys[..i])
    {
      var n := SizeIn(leaves)(keys[i]);
      SizesStep(leaves, keys[..i], keys[i]);
      assert keys[..i] + [keys[i]] == keys[..i + 1];
      m := m[n := (if n in m then m[n] else 0) + 1];
      i := i + 1;
    }
    assert keys[..i] == keys;
  }

  // ----- upstreams -----------------------------------------------------------------------------------

  function UpsOf(edges: set<Edge>, k: LeafKey): set<LeafKey> { set e | e in edges && e.0 == k :: e.1 }

  type Ups = map<LeafKey, set<LeafKey>>

  function UpsAt(ups: Ups, k: LeafKey): set<LeafKey> { if k in ups then ups[k] else {} }

  method CollectUpstreams(edges: set<Edge>) returns (ups: Ups)
    ensures forall k :: UpsAt(ups, k) == UpsOf(edges, k)
  {
    ups := map[];
    var todo, done := edges, {};
    hide *;
    NoUps();
    while todo != {}
      invariant todo + done == edges && todo !! done
      invariant forall k :: UpsAt(ups, k) == UpsOf(done, k)
      decreases |todo|
    {
      var e :| e in todo;
      UpsGrow(ups, done, e);
      ups := ups[e.0 := UpsAt(ups, e.0) + {e.1}];
      todo, done := todo - {e}, done + {e};
    }
    assert done == edges;
  }

  lemma NoUps()
    ensures forall k :: UpsAt(map[], k) == UpsOf({}, k)
  {
  }

  lemma UpsGrow(ups: Ups, edges: set<Edge>, e: Edge)
    requires forall k :: UpsAt(ups, k) == UpsOf(edges, k)
    ensures forall k :: UpsAt(ups[e.0 := UpsAt(ups, e.0) + {e.1}], k) == UpsOf(edges + {e}, k)
  {
    hide UpsOf;
    UpsStep(edges, e);
    var more := ups[e.0 := UpsAt(ups, e.0) + {e.1}];
    forall k ensures UpsAt(more, k) == UpsOf(edges + {e}, k) {
      if k == e.0 {
        assert UpsAt(more, k) == UpsAt(ups, k) + {e.1};
      } else {
        assert UpsAt(more, k) == UpsAt(ups, k) + {};
      }
    }
  }

  lemma UpsStep(edges: set<Edge>, e: Edge)
    ensures forall k :: UpsOf(edges + {e}, k) == UpsOf(edges, k) + if k == e.0 then {e.1} else {}
  {
    forall k ensures UpsOf(edges + {e}, k) == UpsOf(edges, k) + if k == e.0 then {e.1} else {} {
      if k == e.0 { assert e in edges + {e}; }
      assert forall x :: x in edges ==> x in edges + {e};
    }
  }

  function Named(keys: seq<LeafKey>, nm: LeafKey -> string): (r: seq<string>)
    ensures |r| == |keys| && forall i :: 0 <= i < |r| ==> r[i] == nm(keys[i])
  {
    seq(|keys|, i requires 0 <= i < |keys| => nm(keys[i]))
  }

  function UpNames(edges: set<Edge>, k: LeafKey, nm: LeafKey -> string): seq<string> {
    Named(KeysInOrder(UpsOf(edges, k)), nm)
  }

  /** The dependency graph of the leaf templates. */
  function GraphOf(keys: set<LeafKey>, edges: set<Edge>, nm: LeafKey -> string): Dag.Graph {
    Dag.Graph((set k | k in keys :: nm(k)), (set e | e in edges :: (nm(e.1), nm(e.0))))
  }

  method BuildDag(keys: seq<LeafKey>, edges: set<Edge>, ups: Ups, nm: LeafKey -> string) returns (dag: Dag.TemplateDag)
    requires forall e :: e in edges ==> e.0 in keys && e.1 in keys
    requires forall k :: UpsAt(ups, k) == UpsOf(edges, k)
    ensures dag.graph == GraphOf((set k | k in keys), edges, nm) && Dag.WellFormed(dag.graph)
  {
    dag := new Dag.TemplateDag();
    var i := 0;
    hide UpsOf, GraphOf, KeysInOrder, NoRepeats;
    DagStarts(keys, edges, nm);
    while i < |keys|
      invariant 0 <= i <= |keys| && Dag.WellFormed(dag.graph) && fresh(dag)
      invariant dag.graph == Registered(keys[..i], edges, nm)
    {
      var k := keys[i];
      dag.Add(nm(k), Named(KeysInOrder(UpsAt(ups, k)), nm));
      RegisteredStep(keys, i, edges, nm);
      i := i + 1;
    }
    assert keys[..i] == keys;
    AllRegistered(keys, edges, nm);
  }

  /** The graph after some templates were added. */
  function Registered(keys: seq<LeafKey>, edges: set<Edge>, nm: LeafKey -> string): Dag.Graph {
    Dag.Graph((set k | k in keys :: nm(k)) + (set e | e in edges && e.0 in keys :: nm(e.1)),
              (set e | e in edges && e.0 in keys :: (nm(e.1), nm(e.0))))
  }

  lemma DagStarts(keys: seq<LeafKey>, edges: set<Edge>, nm: LeafKey -> string)
    ensures Registered(keys[..0], edges, nm) == Dag.Graph({}, {}) && Dag.WellFormed(Dag.Graph({}, {}))
  {
  }

  lemma UpNamesAre(edges: set<Edge>, k: LeafKey, nm: LeafKey -> string)
    ensures forall u :: u in UpNames(edges, k, nm) <==> exists e :: e in edges && e.0 == k && nm(e.1) == u
  {
    var ks := KeysInOrder(UpsOf(edges, k));
    var us := Named(ks, nm);
    forall u ensures u in us <==> exists e :: e in edges && e.0 == k && nm(e.1) == u {
      if u in us {
        var i :| 0 <= i < |us| && us[i] == u;
        assert ks[i] in UpsOf(edges, k);
        var e :| e in edges && e.0 == k && e.1 == ks[i];
      }
      if e :| e in edges && e.0 == k && nm(e.1) == u {
        assert e.1 in UpsOf(edges, k);
        var i :| 0 <= i < |ks| && ks[i] == e.1;
        assert us[i] == u;
      }
    }
  }

  lemma RegisteredStep(keys: seq<LeafKey>, i: nat, edges: set<Edge>, nm: LeafKey -> string)
    requires i < |keys|
    ensures var before, after, us := Registered(keys[..i], edges, nm), Registered(keys[..i + 1], edges, nm),
            UpNames(edges, keys[i], nm);
            && after.names == before.names + {nm(keys[i])} + Dag.Elements(us)
            && after.edges == before.edges + (set u | u in us :: (u, nm(keys[i])))
  {
    hide UpNames;
    UpNamesAre(edges, keys[i], nm);
    assert keys[..i + 1] == keys[..i] + [keys[i]];
    var before, after, us := Registered(keys[..i], edges, nm), Registered(keys[..i + 1], edges, nm),
        UpNames(edges, keys[i], nm);
    forall n ensures n in after.names <==> n in before.names + {nm(keys[i])} + Dag.Elements(us) {
      if e :| e in edges && e.0 in keys[..i + 1] && nm(e.1) == n {
        if e.0 == keys[i] { assert n in us; }
      }
    }
    forall p ensures p in after.edges <==> p in before.edges + (set u | u in us :: (u, nm(keys[i]))) {
      if p in after.edges {
        var e :| e in edges && e.0 in keys[..i + 1] && (nm(e.1), nm(e.0)) == p;
        if e.0 == keys[i] { assert nm(e.1) in us; }
      }
      if p in (set u | u in us :: (u, nm(keys[i]))) {
        var u :| u in us && p == (u, nm(keys[i]));
        var e :| e in edges && e.0 == keys[i] && nm(e.1) == u;
        assert (nm(e.1), nm(e.0)) == p;
      }
    }
  }

  lemma AllRegistered(keys: seq<LeafKey>, edges: set<Edge>, nm: LeafKey -> string)
    requires forall e :: e in edges ==> e.0 in keys && e.1 in keys
    ensures Registered(keys, edges, nm) == GraphOf((set k | k in keys), edges, nm)
  {
  }

  // ----- what the tool's plan says -----------------------------------------------------------------------

  predicate Live(c: Change) { !IsData(c.0) && c.1 != Read }

  predicate LiveAdd(c: Change) { Live(c) && c.1.Adds() }
  predicate LiveChange(c: Change) { Live(c) && c.1.Changes() }
  predicate LiveDestroy(c: Change) { Live(c) && c.1.Destroys() }
  predicate LiveNoOp(c: Change) { Live(c) && c.1 == NoOp }

  function Tally(changes: seq<Change>, p: Change -> bool): nat { |Having(changes, p, {true})| }

  lemma TallyStep(changes: seq<Change>, i: nat, p: Change -> bool)
    requires i < |changes|
    ensures Tally(changes[..i + 1], p) == Tally(changes[..i], p) + if p(changes[i]) then 1 else 0
  {
    HavingStep(changes[..i], changes[i], p, {true});
    assert changes[..i + 1] == changes[..i] + [changes[i]];
  }

  lemma {:induction false} TallyNone(changes: seq<Change>, p: Change -> bool)
    ensures Tally(changes, p) == 0 <==> forall c :: c in changes ==> !p(c)
  {
    if changes != [] {
      var front, last := changes[..|changes| - 1], changes[|changes| - 1];
      assert changes == front + [last];
      TallyNone(front, p);
    }
  }

  /** `project`: how many managed resources the plan adds, changes, destroys and leaves alone. */
  method Project(changes: seq<Change>) returns (p: Projected)
    ensures p == ProjectedOf(changes)
  {
    p := Projected(0, 0, 0, 0);
    var i := 0;
    hide IsData, Tally;
    NoTally(changes);
    while i < |changes|
      invariant 0 <= i <= |changes| && p == ProjectedOf(changes[..i])
    {
      var c := changes[i];
      TallyStep(changes, i, LiveAdd);
      TallyStep(changes, i, LiveChange);
      TallyStep(changes, i, LiveDestroy);
      TallyStep(changes, i, LiveNoOp);
      i := i + 1;
      if IsData(c.0) || c.1 == Read { continue; }
      if c.1.Adds() { p := p.(add := p.add + 1); }
      if c.1.Changes() { p := p.(change := p.change + 1); }
      if c.1.Destroys() { p := p.(destroy := p.destroy + 1); }
      if c.1 == NoOp { p := p.(noOp := p.noOp + 1); }
    }
    assert changes[..i] == changes;
  }

  lemma NoTally(changes: seq<Change>)
    ensures ProjectedOf(changes[..0]) == Projected(0, 0, 0, 0)
  {
  }

  function ProjectedOf(changes: seq<Change>): Projected {
    Projected(Tally(changes, LiveAdd), Tally(changes, LiveChange), Tally(changes, LiveDestroy),
        Tally(changes, LiveNoOp))
  }

  /** `leaf_of`: the first leaf, in key order, that holds the address.  The addresses of a leaf are sorted, so the
      binary search of the source is a membership test. */
  function LeafOf(leaves: Leaves, a: string): (r: Option<LeafKey>)
    ensures r.Some? <==> exists k :: k in leaves && a in leaves[k].addresses
    ensures r.Some? ==> r.value in leaves && a in leaves[r.value].addresses
  {
    var holding := set k | k in leaves && a in leaves[k].addresses;
    assert forall k :: k in leaves && a in leaves[k].addresses ==> k in holding;
    if holding == {} then None
    else KeyLeIsTotalOrder(); Some(Least(holding, KeyLe))
  }

  function Unplaced(changes: seq<Change>, leaves: Leaves): seq<Change> {
    Having(changes, (c: Change) => !c.1.Adds() && LeafOf(leaves, c.0).None? && !IsData(c.0), {true})
  }

  function NoChange(plan: Option<PlanView>, leaves: Leaves): CheckStatus {
    if plan.None? then Unproven
    else
      var changes := plan.value.changes;
      var p := ProjectedOf(changes);
      if p.add + p.change + p.destroy > 0 || Unplaced(changes, leaves) != [] then Fail else Pass
  }

  /** The check passes exactly when every planned change is of a data source or leaves alone a resource that has a
      leaf. */
  lemma NoChangeExactly(view: PlanView, leaves: Leaves)
    ensures NoChange(Some(view), leaves) == Pass <==>
            forall c :: c in view.changes ==> IsData(c.0) || (c.1 in {NoOp, Read} && LeafOf(leaves, c.0).Some?)
  {
    hide IsData, Tally, LeafOf, Having;
    var changes := view.changes;
    TallyNone(changes, LiveAdd);
    TallyNone(changes, LiveChange);
    TallyNone(changes, LiveDestroy);
    var lost := (c: Change) => !c.1.Adds() && LeafOf(leaves, c.0).None? && !IsData(c.0);
    HavingMembers(changes, lost, {true});
    var un := Unplaced(changes, leaves);
    assert un == Having(changes, lost, {true});
    if un != [] {
      assert un[0] in un;
      assert un[0] in changes && lost(un[0]);
    } else {
      forall c | c in changes ensures !lost(c) { assert c !in un; }
    }
    forall c: Change ensures !LiveAdd(c) && !LiveChange(c) && !LiveDestroy(c) <==> IsData(c.0) || c.1 in {NoOp, Read} {}
  }

  // ----- the plan ------------------------------------------------------------------------------------------

  function EmptyPlan(fat: string, c: Classification, verdict: Verdict, n: nat): MigrationPlan {
    MigrationPlan(fat, c, verdict, [], None, None, n, map[], [], [])
  }

  function PlanFor(leaf: Leaf, k: LeafKey, edges: set<Edge>, nm: LeafKey -> string): LeafPlan {
    LeafPlan(nm(k), leaf.key, leaf.mergedFrom, leaf.addresses, UpNames(edges, k, nm))
  }

  function LeafPlans(leaves: Leaves, keys: seq<LeafKey>, edges: set<Edge>, nm: LeafKey -> string): (r: seq<LeafPlan>)
    requires forall i :: 0 <= i < |keys| ==> keys[i] in leaves
    ensures |r| == |keys|
    ensures forall i :: 0 <= i < |keys| ==> r[i] == PlanFor(leaves[keys[i]], keys[i], edges, nm)
  {
    seq(|keys|, i requires 0 <= i < |keys| => PlanFor(leaves[keys[i]], keys[i], edges, nm))
  }

  function Moves(fat: string, ns: Option<string>, plans: seq<LeafPlan>): (r: seq<Splitting.StateMove>)
    ensures |r| == |plans|
    ensures forall i :: 0 <= i < |r| ==> r[i] == Splitting.StateMove(fat, plans[i].template, ns, plans[i].addresses)
  {
    seq(|plans|, i requires 0 <= i < |plans| => Splitting.StateMove(fat, plans[i].template, ns, plans[i].addresses))
  }

  function Status(ok: bool): CheckStatus { if ok then Pass else Fail }

  ghost function ChecksOf(hash: seq<byte> -> string, inp: Input, leaves: Leaves,
      nm: LeafKey -> string): seq<CheckStatus> {
    [Status(BijectionOf(hash, leaves, inp.addresses).ok),
     Status(Dag.Acyclic(GraphOf(leaves.Keys, LeafEdges(leaves, inp.plan), nm))),
     Status(AllDistinct(Named(KeysInOrder(leaves.Keys), nm))),
     NoChange(inp.plan, leaves)]
  }

  ghost function PlanOver(hash: seq<byte> -> string, names: LeafNames, inp: Input, fat: string, c: Classification,
      leaves: Leaves): MigrationPlan {
    var keys := KeysInOrder(leaves.Keys);
    var nm := names(fat, keys);
    var checks := ChecksOf(hash, inp, leaves, nm);
    var verdict := if Fail in checks then Refused else Ready;
    var plans := LeafPlans(leaves, keys, LeafEdges(leaves, inp.plan), nm);
    MigrationPlan(fat, c, verdict, checks, Some(BijectionOf(hash, leaves, inp.addresses)),
                  (if inp.plan.Some? then Some(ProjectedOf(inp.plan.value.changes)) else None),
                  |plans|, SizesOf(leaves, keys), plans,
                  if verdict == Ready then Moves(fat, inp.pangeaNamespace, plans) else [])
  }

  ghost function PlanOf(hash: seq<byte> -> string, names: LeafNames, inp: Input): Result<MigrationPlan, PlanError> {
    if inp.fatName.None? then Err(NoName)
    else if !inp.hasSpec then Err(NoSpec)
    else
      var ms := Managed(inp.addresses);
      if FirstBad(ms).Some? then Err(BadPartition(BadAddress(FirstBad(ms).value)))
      else
        var c := Classified(|KeySet(ms)|, inp.p95, inp.budget);
        if !c.fat then Ok(EmptyPlan(inp.fatName.value, c, NotFat, 0))
        else if Fault(ms).Some? then Err(BadPartition(Fault(ms).value))
        else if |Target(inp)| <= 1 then Ok(EmptyPlan(inp.fatName.value, c, NothingToSplit, |Target(inp)|))
        else Ok(PlanOver(hash, names, inp, inp.fatName.value, c, Target(inp)))
  }

  /** `plan_migration`. */
  method PlanMigration(hash: seq<byte> -> string, names: LeafNames, inp: Input)
      returns (r: Result<MigrationPlan, PlanError>)
    ensures r == PlanOf(hash, names, inp)
  {
    hide *;
    PlanCases(hash, names, inp);
    if inp.fatName.None? { return Err(NoName); }
    var fat := inp.fatName.value;
    if !inp.hasSpec { return Err(NoSpec); }
    var class_ := Classify(inp.addresses, inp.p95, inp.budget);
    if class_.Err? { return Err(BadPartition(BadAddress(class_.error))); }
    var c := class_.value;
    if !c.fat { return Ok(EmptyPlan(fat, c, NotFat, 0)); }
    var built := Partition.Build(inp.addresses);
    if built.Err? { return Err(BadPartition(built.error)); }
    var partition := built.value;
    if inp.groupReferences && inp.plan.Some? {
      var edges := ReferenceLeafEdges(partition.leaves, inp.plan.value.references);
      TiesAreEdges(partition.leaves, inp.plan.value.references, edges);
      partition.Merge(edges);
    }
    TargetIs(inp);
    if |partition.leaves| <= 1 { return Ok(EmptyPlan(fat, c, NothingToSplit, |partition.leaves|)); }
    var plan := PlanLeaves(hash, names, inp, fat, c, partition.leaves);
    return Ok(plan);
  }

  lemma TargetIs(inp: Input)
    ensures var leaves := Built(Managed(inp.addresses));
            Target(inp) == if inp.groupReferences && inp.plan.Some?
                           then Merged(leaves, AnyOrder(TieEdges(leaves, inp.plan.value.references)))
                           else leaves
  {
  }

  lemma PlanCases(hash: seq<byte> -> string, names: LeafNames, inp: Input)
    ensures var ms := Managed(inp.addresses);
            var c := Classified(|KeySet(ms)|, inp.p95, inp.budget);
            PlanOf(hash, names, inp) ==
            if inp.fatName.None? then Err(NoName)
            else if !inp.hasSpec then Err(NoSpec)
            else if FirstBad(ms).Some? then Err(BadPartition(BadAddress(FirstBad(ms).value)))
            else if !c.fat then Ok(EmptyPlan(inp.fatName.value, c, NotFat, 0))
            else if Fault(ms).Some? then Err(BadPartition(Fault(ms).value))
            else if |Target(inp)| <= 1 then Ok(EmptyPlan(inp.fatName.value, c, NothingToSplit, |Target(inp)|))
            else Ok(PlanOver(hash, names, inp, inp.fatName.value, c, Target(inp)))
  {
    hide Managed, KeySet, Classified, FirstBad, Fault, Target, PlanOver, EmptyPlan;
  }

  /** The checks, the verdict and the moves, for the leaves found. */
  method PlanLeaves(hash: seq<byte> -> string, names: LeafNames, inp: Input, fat: string, c: Classification,
      leaves: Leaves)
    returns (plan: MigrationPlan)
    ensures plan == PlanOver(hash, names, inp, fat, c, leaves)
  {
    hide BijectionOf, LeafEdges, GraphOf, NoChange, AllDistinct, ProjectedOf, SizesOf, Moves, LeafPlans, NoRepeats;
    hide UpsOf, UpNames, UpsAt, Dag.Acyclic, Dag.WellFormed, Dag.Stuck, Dag.DependsOn, Ordering.Sorted;
    var keys := KeysInOrder(leaves.Keys);
    assert (set k | k in keys) == leaves.Keys;
    var nm := names(fat, keys);
    var sizes := CountSizes(leaves, keys);
    var edges := SingletonEdges(leaves, inp.plan);
    LeafEdgesInside(leaves, inp.plan);
    var upstreams := CollectUpstreams(edges);
    var dag := BuildDag(keys, edges, upstreams, nm);
    var bijection := BijectionOf(hash, leaves, inp.addresses);
    var stuck := dag.UnresolvableNodes();
    var projected := None;
    if inp.plan.Some? {
      var p := Project(inp.plan.value.changes);
      projected := Some(p);
    }
    var checks := [Status(bijection.ok), Status(stuck == []), Status(AllDistinct(Named(keys, nm))),
        NoChange(inp.plan, leaves)];
    var verdict := if Fail in checks then Refused else Ready;
    var plans := LeafPlans(leaves, keys, edges, nm);
    plan := MigrationPlan(fat, c, verdict, checks, Some(bijection), projected, |plans|, sizes, plans, []);
    if verdict == Ready { plan := plan.(moves := Moves(fat, inp.pangeaNamespace, plans)); }
  }

  lemma LeafEdgesInside(leaves: Leaves, plan: Option<PlanView>)
    ensures forall e :: e in LeafEdges(leaves, plan) ==> e.0 in leaves && e.1 in leaves
  {
  }
}
