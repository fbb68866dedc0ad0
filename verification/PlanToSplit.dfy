/** From a plan to the split it describes: a Ready plan is always accepted, and can always be undone. */
module PlanToSplit {
  import opened Prelude
  import opened Ordering
  import opened Grouping
  import opened Address
  import opened Partitions
  import opened AddressDigest
  import opened Planning
  import StateDoc
  import Splitting
  import Merging
  import RoundTrip
  import Dag

  lemma {:induction false} FirstBadExactly(ms: seq<string>)
    ensures FirstBad(ms).None? <==> forall a :: a in ms ==> LeafKeyOf(a).Ok?
  {
    hide LeafKeyOf;
    if ms != [] {
      var front, last := ms[..|ms| - 1], ms[|ms| - 1];
      assert ms == front + [last];
      FirstBadExactly(front);
    }
  }

  lemma BuiltKeys(ms: seq<string>)
    ensures Built(ms).Keys == KeySet(ms)
  {
    hide KeyOf, Having;
  }

  lemma TargetIsWhole(hash: seq<byte> -> string, inp: Input)
    requires Fault(Managed(inp.addresses)).None?
    ensures multiset(All(Target(inp))) == multiset(Managed(inp.addresses))
    ensures BijectionOf(hash, Target(inp), inp.addresses).ok
    ensures Target(inp).Keys <= KeySet(Managed(inp.addresses))
  {
    hide Built, Merged, Managed, All, KeySet, Fault, BijectionOf, AnyOrder, TieEdges;
    var ms := Managed(inp.addresses);
    var leaves := Built(ms);
    BuiltKeepsAddresses(ms);
    BuiltKeys(ms);
    BijectionHolds(hash, inp.addresses, []);
    if inp.groupReferences && inp.plan.Some? {
      var edges := AnyOrder(TieEdges(leaves, inp.plan.value.references));
      MergedKeepsAddresses(leaves, edges);
      BijectionHolds(hash, inp.addresses, edges);
      forall r | r in Merged(leaves, edges) ensures r in leaves { MergedAt(leaves, edges, r); }
    }
  }

  ghost predicate IsReady(r: Result<MigrationPlan, PlanError>) { r.Ok? && r.value.verdict == Ready }

  ghost function NamesIn(names: LeafNames, inp: Input): LeafKey -> string {
    names(inp.fatName.GetOr(""), KeysInOrder(Target(inp).Keys))
  }

  /** The plan is Ready exactly when the template can be read, its addresses are distinct and parse, there are at least
      two leaves, their dependencies are acyclic, their names distinct, and the tool's plan, if given, changes nothing.
      The bijection check never fails, and two leaves already make the template fat. */
  lemma ReadyExactly(hash: seq<byte> -> string, names: LeafNames, inp: Input)
    ensures var leaves, nm := Target(inp), NamesIn(names, inp);
            IsReady(PlanOf(hash, names, inp)) <==>
            && inp.fatName.Some? && inp.hasSpec
            && Fault(Managed(inp.addresses)).None?
            && |leaves| > 1
            && Dag.Acyclic(GraphOf(leaves.Keys, LeafEdges(leaves, inp.plan), nm))
            && NoRepeats(Named(KeysInOrder(leaves.Keys), nm))
            && (inp.plan.Some? ==> forall c :: c in inp.plan.value.changes ==>
                                     IsData(c.0) || (c.1 in {NoOp, Read} && LeafOf(leaves, c.0).Some?))
  {
    hide *;
    var ms, leaves, nm := Managed(inp.addresses), Target(inp), NamesIn(names, inp);
    PlanCases(hash, names, inp);
    ReadyMeans(PlanOf(hash, names, inp));
    if inp.fatName.Some? {
      EmptyIsNotReady(inp.fatName.value, Classified(|KeySet(ms)|, inp.p95, inp.budget), |leaves|);
      OverIsReady(hash, names, inp, Classified(|KeySet(ms)|, inp.p95, inp.budget), leaves);
      NamesAre(names, inp);
    }
    FirstBadExactly(ms);
    FaultExactly(ms);
    if Fault(ms).None? {
      TargetIsWhole(hash, inp);
      if |leaves| > 1 { ManyLeavesAreFat(inp); }
    }
  }

  lemma ReadyMeans(r: Result<MigrationPlan, PlanError>)
    ensures IsReady(r) <==> r.Ok? && r.value.verdict == Ready
  {
  }

  lemma NamesAre(names: LeafNames, inp: Input)
    ensures inp.fatName.Some? ==> NamesIn(names, inp) == names(inp.fatName.value, KeysInOrder(Target(inp).Keys))
  {
    hide Target, KeysInOrder;
  }

  lemma EmptyIsNotReady(fat: string, c: Classification, n: nat)
    ensures EmptyPlan(fat, c, NotFat, 0).verdict == NotFat &&
            EmptyPlan(fat, c, NothingToSplit, n).verdict == NothingToSplit
  {
  }

  lemma ManyLeavesAreFat(inp: Input)
    requires |Target(inp)| > 1 && Target(inp).Keys <= KeySet(Managed(inp.addresses))
    ensures Classified(|KeySet(Managed(inp.addresses))|, inp.p95, inp.budget).fat
  {
    hide Target, KeySet, Managed;
    SubsetNotLarger(Target(inp).Keys, KeySet(Managed(inp.addresses)));
  }

  lemma OverIsReady(hash: seq<byte> -> string, names: LeafNames, inp: Input, c: Classification, leaves: Leaves)
    requires inp.fatName.Some?
    ensures var nm := names(inp.fatName.value, KeysInOrder(leaves.Keys));
            PlanOver(hash, names, inp, inp.fatName.value, c, leaves).verdict == Ready <==>
            && BijectionOf(hash, leaves, inp.addresses).ok
            && Dag.Acyclic(GraphOf(leaves.Keys, LeafEdges(leaves, inp.plan), nm))
            && NoRepeats(Named(KeysInOrder(leaves.Keys), nm))
            && (inp.plan.Some? ==> forall c :: c in inp.plan.value.changes ==>
                                     IsData(c.0) || (c.1 in {NoOp, Read} && LeafOf(leaves, c.0).Some?))
  {
    hide BijectionOf, Dag.Acyclic, GraphOf, LeafEdges, NoRepeats, Named, KeysInOrder, IsData, LeafOf, NoChange,
        AllDistinct, LeafPlans, Moves, ProjectedOf, SizesOf;
    var nm := names(inp.fatName.value, KeysInOrder(leaves.Keys));
    DistinctMeansNoRepeats(Named(KeysInOrder(leaves.Keys), nm));
    NoChangeNever(inp.plan, leaves);
    if inp.plan.Some? { NoChangeExactly(inp.plan.value, leaves); }
    assert Fail in ChecksOf(hash, inp, leaves, nm) <==>
           ChecksOf(hash, inp, leaves, nm)[0] == Fail || ChecksOf(hash, inp, leaves, nm)[1] == Fail ||
           ChecksOf(hash, inp, leaves, nm)[2] == Fail || ChecksOf(hash, inp, leaves, nm)[3] == Fail;
  }

  lemma NoChangeNever(plan: Option<PlanView>, leaves: Leaves)
    ensures plan.None? ==> NoChange(plan, leaves) == Unproven
    ensures plan.Some? ==> NoChange(plan, leaves) in {Pass, Fail}
  {
  }

  // ----- the moves of a Ready plan --------------------------------------------------------------------

  lemma {:induction false} MovesClaim(leaves: Leaves, keys: seq<LeafKey>, moves: seq<Splitting.StateMove>)
    requires |moves| == |keys| && forall i :: 0 <= i < |keys| ==>
            keys[i] in leaves && moves[i].addresses == leaves[keys[i]].addresses
    ensures Splitting.Claimed(moves) == Spread(keys, Holdings(leaves))
  {
    Splitting.SameSpread(moves, Splitting.MoveAddresses, keys, Holdings(leaves));
  }

  lemma OverMoves(hash: seq<byte> -> string, names: LeafNames, inp: Input, fat: string, c: Classification,
      leaves: Leaves)
    requires PlanOver(hash, names, inp, fat, c, leaves).verdict == Ready
    ensures var moves := PlanOver(hash, names, inp, fat, c, leaves).moves;
            var keys := KeysInOrder(leaves.Keys);
            && |moves| == |keys| == |leaves|
            && forall i :: 0 <= i < |keys| ==>
                 moves[i] == Splitting.StateMove(fat, Named(keys, names(fat, keys))[i], inp.pangeaNamespace,
                     leaves[keys[i]].addresses)
  {
    hide ChecksOf, LeafEdges, ProjectedOf, UpNames, NoRepeats, SizesOf, BijectionOf;
    var keys := KeysInOrder(leaves.Keys);
    var plans := LeafPlans(leaves, keys, LeafEdges(leaves, inp.plan), names(fat, keys));
    assert |plans| == |keys|;
    assert PlanOver(hash, names, inp, fat, c, leaves).moves == Moves(fat, inp.pangeaNamespace, plans);
    hide PlanOver, LeafPlans, Moves;
    forall i | 0 <= i < |keys| ensures Moves(fat, inp.pangeaNamespace, plans)[i] ==
      Splitting.StateMove(fat, Named(keys, names(fat, keys))[i], inp.pangeaNamespace, leaves[keys[i]].addresses)
    {
      assert keys[i] in keys;
    }
  }

  /** The moves of a Ready plan are at least two, go from the fat template to distinct leaves, and claim every managed
      address exactly once. */
  lemma ReadyMoves(hash: seq<byte> -> string, names: LeafNames, inp: Input)
    requires IsReady(PlanOf(hash, names, inp))
    ensures inp.fatName.Some?
    ensures var moves := PlanOf(hash, names, inp).value.moves;
            && |moves| >= 2
            && Splitting.MovesFault(inp.fatName.value, moves).None?
            && Splitting.Bijective(Managed(inp.addresses), Splitting.Claimed(moves))
  {
    hide *;
    var leaves, ms := Target(inp), Managed(inp.addresses);
    var keys, nm := KeysInOrder(leaves.Keys), NamesIn(names, inp);
    ReadyExactly(hash, names, inp);
    PlanCases(hash, names, inp);
    ReadyMeans(PlanOf(hash, names, inp));
    NamesAre(names, inp);
    var fat := inp.fatName.value;
    var c := Classified(|KeySet(ms)|, inp.p95, inp.budget);
    EmptyIsNotReady(fat, c, |leaves|);
    var moves := PlanOf(hash, names, inp).value.moves;
    FaultExactly(ms);
    OverMoves(hash, names, inp, fat, c, leaves);
    MovesPass(fat, moves, keys, nm);
    forall i | 0 <= i < |keys| ensures keys[i] in leaves { assert keys[i] in keys; }
    MovesClaim(leaves, keys, moves);
    TargetIsWhole(hash, inp);
    AllIs(leaves);
    Splitting.BijectiveMeans(ms, Splitting.Claimed(moves));
  }

  lemma AllIs(leaves: Leaves)
    ensures All(leaves) == Spread(KeysInOrder(leaves.Keys), Holdings(leaves))
  {
  }

  lemma MovesPass(fat: string, moves: seq<Splitting.StateMove>, keys: seq<LeafKey>, nm: LeafKey -> string)
    requires |moves| == |keys| > 1 && NoRepeats(Named(keys, nm))
    requires forall i :: 0 <= i < |keys| ==> moves[i].fromTemplate == fat && moves[i].toTemplate == Named(keys, nm)[i]
    ensures Splitting.MovesFault(fat, moves).None?
  {
    hide Splitting.MoveFault, Named;
    Splitting.MovesOkExactly(fat, moves);
  }

  lemma {:induction false} ManagedIsAll(addresses: seq<string>)
    ensures |Managed(addresses)| <= |addresses|
    ensures |Managed(addresses)| == |addresses| ==> Managed(addresses) == addresses
    ensures Managed(addresses) == addresses <==> forall a :: a in addresses ==> !IsData(a)
  {
    hide IsData;
    if addresses != [] {
      var front, last := addresses[..|addresses| - 1], addresses[|addresses| - 1];
      assert addresses == front + [last];
      ManagedIsAll(front);
      assert |Managed(addresses)| <= |Managed(front)| + 1;
    }
  }

  /** A Ready plan over the managed addresses of a state, none of them shaped like a data source, is accepted by
      `split`; and merging the leaves back gives the fat state. */
  lemma ReadyIsAccepted(h: Splitting.Hashes, names: LeafNames, inp: Input, fat: StateDoc.State)
    requires StateDoc.Addresses(fat) == Ok(inp.addresses) && IsReady(PlanOf(h.ofBytes, names, inp))
    requires forall a :: a in inp.addresses ==> !IsData(a)
    ensures inp.fatName.Some?
    ensures var split := Splitting.SplitOf(h, inp.fatName.value, fat, PlanOf(h.ofBytes, names, inp).value.moves);
            split.Ok? && Merging.MergeOf(h, fat, split.value.receipt, split.value.leaves) == Ok(fat)
  {
    hide *;
    ReadyMeans(PlanOf(h.ofBytes, names, inp));
    ReadyMoves(h.ofBytes, names, inp);
    ManagedIsAll(inp.addresses);
    var moves := PlanOf(h.ofBytes, names, inp).value.moves;
    Splitting.SplitAccepts(h, inp.fatName.value, fat, moves);
    var split := Splitting.SplitOf(h, inp.fatName.value, fat, moves).value;
    RoundTrip.MergeIsInverse(h, inp.fatName.value, fat, moves, split);
  }

  /** Unless the hash collides, that is exactly when: an address shaped like a data source is planned away, and the
      split refuses. */
  lemma ReadyIsAcceptedExactly(h: Splitting.Hashes, names: LeafNames, inp: Input, fat: StateDoc.State)
    requires StateDoc.Addresses(fat) == Ok(inp.addresses) && IsReady(PlanOf(h.ofBytes, names, inp))
    requires Splitting.NoCollision(h, inp.addresses, Splitting.Claimed(PlanOf(h.ofBytes, names, inp).value.moves))
    ensures inp.fatName.Some?
    ensures Splitting.SplitOf(h, inp.fatName.value, fat, PlanOf(h.ofBytes, names, inp).value.moves).Ok? <==>
            forall a :: a in inp.addresses ==> !IsData(a)
  {
    hide *;
    ReadyMeans(PlanOf(h.ofBytes, names, inp));
    ReadyMoves(h.ofBytes, names, inp);
    ManagedIsAll(inp.addresses);
    var moves := PlanOf(h.ofBytes, names, inp).value.moves;
    Splitting.SplitAcceptsExactly(h, inp.fatName.value, fat, moves);
    var claimed, ms := Splitting.Claimed(moves), Managed(inp.addresses);
    Splitting.BijectiveMeans(inp.addresses, claimed);
    Splitting.BijectiveMeans(ms, claimed);
    if multiset(inp.addresses) == multiset(claimed) {
      assert |inp.addresses| == |multiset(inp.addresses)| == |multiset(ms)| == |ms|;
    }
  }

  /** Every leaf keeps its addresses sorted, so that a binary search in them is a membership test. */
  lemma TargetSorted(inp: Input, k: LeafKey)
    requires k in Target(inp)
    ensures Sorted(Target(inp)[k].addresses, StrLe)
  {
    StrLeIsTotalOrder();
    hide TotalOrder, TotalPreorder, Sorted, StrLe, Merged, Gathered, AnyOrder, TieEdges;
    OrderIsPreorder(StrLe);
    var leaves := Built(Managed(inp.addresses));
    if inp.groupReferences && inp.plan.Some? {
      var edges := AnyOrder(TieEdges(leaves, inp.plan.value.references));
      MergedAt(leaves, edges, k);
      SortSorted(Slot(leaves, k, Component(leaves.Keys, edges, k)).addresses, StrLe);
    } else {
      SortSorted(Gathered(Managed(inp.addresses))[k].addresses, StrLe);
    }
  }

  // ----- a Ready plan that `split` refuses -----------------------------------------------------------------

  function OneOf(ty: string, name: string): StateDoc.Block {
    StateDoc.Block(StateDoc.Missing, StateDoc.Text("managed"), StateDoc.Text(ty), StateDoc.Text(name), "",
                   StateDoc.List([StateDoc.Instance(StateDoc.NoIndex, "")]))
  }

  /** A state with a managed resource of type `data`. */
  function OddState(): StateDoc.State {
    StateDoc.State(None, None, "", 1, "", "", Some([OneOf("data", "x"), OneOf("a", "b"), OneOf("c", "d")]))
  }

  function OddInput(): Input { Input(Some("fat"), true, None, ["data.x", "a.b", "c.d"], None, None, None, false) }

  lemma OneAddress(ty: string, name: string)
    ensures StateDoc.OneBlock(OneOf(ty, name)) == [ty + "." + name] && StateDoc.BlockFault(OneOf(ty, name)).None?
  {
    var b := OneOf(ty, name);
    var items := StateDoc.Items(b);
    assert items[..0] == [] && |items| == 1;
    assert StateDoc.AddressesAt(ty + "." + name, items[..0]) == [];
  }

  lemma OneMoreBlock(bs: seq<StateDoc.Block>, ty: string, name: string)
    requires StateDoc.FirstFault(bs).None?
    ensures StateDoc.BlockAddresses(bs + [OneOf(ty, name)]) == StateDoc.BlockAddresses(bs) + [ty + "." + name]
    ensures StateDoc.FirstFault(bs + [OneOf(ty, name)]).None?
  {
    OneAddress(ty, name);
    hide StateDoc.OneBlock, StateDoc.BlockFault;
    var more := bs + [OneOf(ty, name)];
    assert more[..|more| - 1] == bs;
  }

  lemma NoBlocks()
    ensures StateDoc.BlockAddresses([]) == [] && StateDoc.FirstFault([]).None?
  {
  }

  lemma ThreeBlocks(doc: StateDoc.State, t: string, u: string, v: string, n: string, m: string, k: string)
    requires doc.resources == Some([OneOf(t, n), OneOf(u, m), OneOf(v, k)])
    ensures StateDoc.Addresses(doc) == Ok([t + "." + n, u + "." + m, v + "." + k])
  {
    hide StateDoc.BlockAddresses, StateDoc.FirstFault, OneOf;
    var none: seq<StateDoc.Block> := [];
    NoBlocks();
    OneMoreBlock(none, t, n);
    OneMoreBlock(none + [OneOf(t, n)], u, m);
    OneMoreBlock(none + [OneOf(t, n)] + [OneOf(u, m)], v, k);
    assert none + [OneOf(t, n)] + [OneOf(u, m)] + [OneOf(v, k)] == [OneOf(t, n), OneOf(u, m), OneOf(v, k)];
    var nothing: seq<string> := [];
    assert nothing + [t + "." + n] + [u + "." + m] + [v + "." + k] == [t + "." + n, u + "." + m, v + "." + k];
  }

  lemma OddAddresses()
    ensures StateDoc.Addresses(OddState()) == Ok(OddInput().addresses)
  {
    hide StateDoc.Addresses, OneOf;
    ThreeBlocks(OddState(), "data", "a", "c", "x", "b", "d");
    assert "data" + "." + "x" == "data.x" && "a" + "." + "b" == "a.b" && "c" + "." + "d" == "c.d";
  }

  lemma PlainKey(ty: string, name: string)
    requires NameOk(ty) && NameOk(name) && ty != "module"
    ensures LeafKeyOf(ty + "." + name) == Ok(AddressKey(ty + "." + name))
  {
    var xs := [Step(ty, None), Step(name, None)];
    PrintParses(xs);
    assert xs[1..] == [Step(name, None)];
    assert Print(xs) == ty + "." + name;
    assert xs[1..][1..] == [];
    assert FirstKey(xs[1..]) == FirstKey(xs[1..][1..]);
    hide Print, Parse;
  }

  lemma OddManaged()
    ensures Managed(OddInput().addresses) == ["a.b", "c.d"]
    ensures IsData("data.x")
  {
    var all := OddInput().addresses;
    assert all[..2] == ["data.x", "a.b"] && all[..2][..1] == ["data.x"] && ["data.x"][..0] == [];
    assert "data." <= "data.x";
    assert !IsData("a.b") && !IsData("c.d") by {
      assert "a.b"[0] != "data."[0] && "c.d"[0] != "data."[0] && "a.b"[0] != "module."[0] && "c.d"[0] != "module."[0];
    }
    assert Managed(["data.x"]) == [];
    assert Managed(["data.x", "a.b"]) == ["a.b"];
  }

  lemma KeyOfTwo(a: string, b: string)
    requires a != b && LeafKeyOf(a).Ok? && LeafKeyOf(b).Ok?
    ensures Fault([a, b]).None? && KeyOf(a) == LeafKeyOf(a).value && KeyOf(b) == LeafKeyOf(b).value
    ensures Built([a, b]).Keys == {KeyOf(a), KeyOf(b)}
  {
    hide LeafKeyOf, Fault, Built;
    FaultExactly([a, b]);
    BuiltKeys([a, b]);
    assert KeySet([a, b]) == {KeyOf(a), KeyOf(b)};
  }

  lemma OddKeys()
    ensures Fault(["a.b", "c.d"]).None? && Built(["a.b", "c.d"]).Keys == {AddressKey("a.b"), AddressKey("c.d")}
  {
    assert NameOk("a") && NameOk("b") && NameOk("c") && NameOk("d");
    assert "a" != "module" && "c" != "module";
    assert "a.b" != "c.d" by { assert "a.b"[0] != "c.d"[0]; }
    hide *;
    PlainKey("a", "b");
    PlainKey("c", "d");
    assert "a" + "." + "b" == "a.b" && "c" + "." + "d" == "c.d";
    KeyOfTwo("a.b", "c.d");
  }

  lemma OddTarget()
    ensures Target(OddInput()).Keys == {AddressKey("a.b"), AddressKey("c.d")}
  {
    hide Built, Managed;
    OddManaged();
    OddKeys();
  }

  lemma NoEdgesAcyclic(keys: set<LeafKey>, nm: LeafKey -> string)
    ensures Dag.Acyclic(GraphOf(keys, {}, nm))
  {
    forall c ensures !Dag.Cycle(GraphOf(keys, {}, nm), c) {
      if |c| >= 2 { assert !Dag.DependsOn(GraphOf(keys, {}, nm), c[0], c[0 + 1]); }
    }
  }

  lemma NoPlanNoEdges(leaves: Leaves)
    ensures LeafEdges(leaves, None) == {}
  {
  }

  lemma TwoKeys()
    ensures |{AddressKey("a.b"), AddressKey("c.d")}| == 2
  {
    assert "a.b"[0] != "c.d"[0];
  }

  lemma OddFacts()
    ensures Fault(Managed(OddInput().addresses)).None? && |Target(OddInput())| == 2
  {
    hide *;
    OddManaged();
    OddKeys();
    OddTarget();
    TwoKeys();
    assert |Target(OddInput())| == |Target(OddInput()).Keys|;
  }

  lemma TwoDiffer(keys: seq<LeafKey>, nm: LeafKey -> string)
    requires |keys| == 2 && forall k, q :: k in keys && q in keys && k != q ==> nm(k) != nm(q)
    requires NoRepeats(keys)
    ensures NoRepeats(Named(keys, nm))
  {
    assert keys[0] in keys && keys[1] in keys;
  }

  /** The two leaves of the odd state get different names. */
  ghost predicate NamesDiffer(names: LeafNames) {
    NamesIn(names, OddInput())(AddressKey("a.b")) != NamesIn(names, OddInput())(AddressKey("c.d"))
  }

  lemma OddNamesDiffer(names: LeafNames)
    requires NamesDiffer(names)
    ensures forall k, q :: k in Target(OddInput()) && q in Target(OddInput()) && k != q ==>
              NamesIn(names, OddInput())(k) != NamesIn(names, OddInput())(q)
  {
    hide NamesIn, Target, OddInput;
    OddTarget();
    forall k | k in Target(OddInput()) ensures k == AddressKey("a.b") || k == AddressKey("c.d") {
      assert k in Target(OddInput()).Keys;
    }
  }

  lemma OddIsReady(hash: seq<byte> -> string, names: LeafNames)
    requires NamesDiffer(names)
    ensures IsReady(PlanOf(hash, names, OddInput()))
  {
    var inp := OddInput();
    assert inp.fatName.Some? && inp.hasSpec && inp.plan == None;
    hide *;
    OddFacts();
    OddNamesDiffer(names);
    SmallPlanIsReady(hash, names, inp);
  }

  lemma SmallPlanIsReady(hash: seq<byte> -> string, names: LeafNames, inp: Input)
    requires inp.fatName.Some? && inp.hasSpec && inp.plan == None
    requires Fault(Managed(inp.addresses)).None? && |Target(inp)| == 2
    requires forall k, q :: k in Target(inp) && q in Target(inp) && k != q ==>
            NamesIn(names, inp)(k) != NamesIn(names, inp)(q)
    ensures IsReady(PlanOf(hash, names, inp))
  {
    hide *;
    var keys, nm := KeysInOrder(Target(inp).Keys), NamesIn(names, inp);
    NoPlanNoEdges(Target(inp));
    NoEdgesAcyclic(Target(inp).Keys, nm);
    TwoDiffer(keys, nm);
    ReadyExactly(hash, names, inp);
  }

  /** The state with a managed resource of type `data` has a Ready plan, whatever names its two leaves get as long as
      they differ, and `split` refuses its moves. */
  lemma OddPlanIsRefused(h: Splitting.Hashes, names: LeafNames)
    requires NamesDiffer(names)
    ensures StateDoc.Addresses(OddState()) == Ok(OddInput().addresses)
    ensures IsReady(PlanOf(h.ofBytes, names, OddInput()))
    ensures var moves := PlanOf(h.ofBytes, names, OddInput()).value.moves;
            Splitting.NoCollision(h, OddInput().addresses, Splitting.Claimed(moves)) ==>
            !Splitting.SplitOf(h, "fat", OddState(), moves).Ok?
  {
    var inp := OddInput();
    assert inp.fatName == Some("fat") && "data.x" in inp.addresses;
    hide *;
    OddAddresses();
    OddIsReady(h.ofBytes, names);
    OddManaged();
    ReadyMeans(PlanOf(h.ofBytes, names, inp));
    var moves := PlanOf(h.ofBytes, names, inp).value.moves;
    if Splitting.NoCollision(h, inp.addresses, Splitting.Claimed(moves)) {
      ReadyIsAcceptedExactly(h, names, inp, OddState());
    }
  }
}
