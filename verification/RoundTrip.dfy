/** What merging conserves, when it succeeds, and that it undoes splitting. */
module RoundTrip {
  import opened Prelude
  import opened Ordering
  import opened Grouping
  import opened StateDoc
  import opened Splitting
  import opened Merging
  import opened AddressDigest

  // ----- instances by identity ---------------------------------------------------------------

  predicate ManagedId(id: Id) { id.mode == "managed" }

  lemma ManagedByMode(b: Block)
    ensures IsManaged(b) <==> ManagedId(BlockId(b))
  {
    assert "" != "managed";
  }

  lemma DropNullKeeps(b: Block)
    ensures BlockId(DropNull(b)) == BlockId(b) && Items(DropNull(b)) == Items(b) &&
            IsManaged(DropNull(b)) == IsManaged(b)
  {
  }

  lemma {:induction false} DropNullsInstances(bs: seq<Block>, id: Id)
    ensures InstancesOf(DropNulls(bs), id) == InstancesOf(bs, id)
  {
    hide InstancesOf, DropNull, BlockId, Items;
    if bs != [] {
      var front, last := bs[..|bs| - 1], bs[|bs| - 1];
      assert bs == front + [last];
      DropNullsInstances(front, id);
      DropNullKeeps(last);
      InstancesStep(front, last, id);
      InstancesStep(DropNulls(front), DropNull(last), id);
    }
  }

  lemma OneInstances(b: Block, id: Id)
    ensures InstancesOf([b], id) == if BlockId(b) == id then Items(b) else []
  {
    hide InstancesOf, BlockId, Items;
    InstancesStep([], b, id);
    NoInstances_(id);
    assert [] + [b] == [b];
    assert [] + Items(b) == Items(b);
  }

  lemma RefillInstances(before: seq<Block>, b: Block, bs: seq<Block>, id: Id)
    requires ManagedId(id)
    ensures InstancesOf(Refill(before, b, bs), id) ==
            if BlockId(b) == id && id in Ids(bs) && id !in ManagedIds(before) then InstancesOf(bs, id) else []
  {
    ManagedByMode(b);
    hide InstancesOf, Ids, ManagedIds;
    NoInstances_(id);
    if !IsManaged(b) {
      OneInstances(b, id);
    } else {
      var x := WithItems(b, InstancesOf(bs, BlockId(b)));
      assert BlockId(x) == BlockId(b) && Items(x) == InstancesOf(bs, BlockId(b));
      OneInstances(x, id);
    }
  }

  lemma {:induction false} KeptInstances(archive: seq<Block>, bs: seq<Block>, id: Id)
    requires ManagedId(id)
    ensures InstancesOf(Kept(archive, bs), id) ==
            if id in ManagedIds(archive) && id in Ids(bs) then InstancesOf(bs, id) else []
  {
    hide InstancesOf, Ids, Refill, BlockId, IsManaged;
    if archive == [] {
      NoInstances_(id);
    } else {
      var front, last := archive[..|archive| - 1], archive[|archive| - 1];
      assert archive == front + [last];
      hide ManagedIds;
      KeptInstances(front, bs, id);
      InstancesConcat(Kept(front, bs), Refill(front, last, bs), id);
      RefillInstances(front, last, bs, id);
      ManagedIdsStep(front, last);
      ManagedByMode(last);
      assert InstancesOf(bs, id) + [] == InstancesOf(bs, id);
    }
  }

  lemma NewBlockIs(id: Id, items: seq<Instance>)
    ensures BlockId(NewBlock(id, items)) == id && Items(NewBlock(id, items)) == items
  {
  }

  lemma {:induction false} ExtrasInstances(order: seq<Id>, taken: set<Id>, bs: seq<Block>, id: Id)
    requires NoRepeats(order)
    ensures InstancesOf(Extras(order, taken, bs), id) == if id in order && id !in taken then InstancesOf(bs, id) else []
  {
    hide InstancesOf, NewBlock, BlockId, Items;
    if order == [] {
      NoInstances_(id);
    } else {
      var front, last := order[..|order| - 1], order[|order| - 1];
      LastIsNew(order);
      ExtrasInstances(front, taken, bs, id);
      if last !in taken {
        NewBlockIs(last, InstancesOf(bs, last));
        InstancesStep(Extras(front, taken, bs), NewBlock(last, InstancesOf(bs, last)), id);
        assert [] + InstancesOf(bs, id) == InstancesOf(bs, id);
      }
    }
  }

  /** After refilling, every managed identity holds exactly what the leaves hold for it, in order. */
  lemma RefilledInstances(archive: seq<Block>, bs: seq<Block>, id: Id)
    requires ManagedId(id)
    ensures InstancesOf(Refilled(archive, bs), id) == InstancesOf(bs, id)
  {
    hide InstancesOf, Kept, Extras, FirstIds, Ids, ManagedIds, DropNulls;
    var kept, extras := Kept(archive, bs), Extras(FirstIds(bs), ManagedIds(archive), bs);
    DropNullsInstances(kept + extras, id);
    InstancesConcat(kept, extras, id);
    KeptInstances(archive, bs, id);
    FirstIdsMembers(bs);
    ExtrasInstances(FirstIds(bs), ManagedIds(archive), bs, id);
    if id !in Ids(bs) { NoneFiled(bs, id); }
    assert InstancesOf(bs, id) + [] == InstancesOf(bs, id) && [] + InstancesOf(bs, id) == InstancesOf(bs, id);
  }

  // ----- instances as tags ---------------------------------------------------------------------

  function TagId(t: Tagged): Id { t.id }

  lemma {:induction false} TagAllById(id: Id, items: seq<Instance>, key: Id)
    ensures Having(TagAll(id, items), TagId, {key}) == if id == key then TagAll(id, items) else []
  {
    if items != [] {
      var front, last := items[..|items| - 1], items[|items| - 1];
      TagAllById(id, front, key);
      HavingStep(TagAll(id, front), Tagged(id, last), TagId, {key});
    }
  }

  lemma {:induction false} TagAllConcat(id: Id, a: seq<Instance>, b: seq<Instance>)
    ensures TagAll(id, a + b) == TagAll(id, a) + TagAll(id, b)
  {
    if b == [] {
      assert a + b == a;
    } else {
      assert (a + b)[..|a + b| - 1] == a + b[..|b| - 1];
      TagAllConcat(id, a, b[..|b| - 1]);
    }
  }

  /** The tags of one identity are its instances. */
  lemma {:induction false} TagsById(bs: seq<Block>, id: Id)
    ensures Having(Tags(bs), TagId, {id}) == if ManagedId(id) then TagAll(id, InstancesOf(bs, id)) else []
  {
    hide InstancesOf, Having, TagAll, BlockId, Items, IsManaged;
    if bs == [] {
      NoInstances_(id);
      NothingHere(id);
    } else {
      var front, last := bs[..|bs| - 1], bs[|bs| - 1];
      assert bs == front + [last];
      TagsById(front, id);
      ManagedByMode(last);
      InstancesStep(front, last, id);
      var more := if IsManaged(last) then TagAll(BlockId(last), Items(last)) else [];
      HavingConcat(Tags(front), more, TagId, {id});
      NothingHere(id);
      if IsManaged(last) { TagAllById(BlockId(last), Items(last), id); }
      TagAllConcat(id, InstancesOf(front, id), if BlockId(last) == id then Items(last) else []);
    }
  }

  lemma NothingHere(id: Id)
    ensures Having([], TagId, {id}) == [] && TagAll(id, []) == []
  {
  }

  lemma {:induction false} CountInClass(ts: seq<Tagged>, t: Tagged)
    ensures multiset(Having(ts, TagId, {t.id}))[t] == multiset(ts)[t]
  {
    if ts != [] {
      var front, last := ts[..|ts| - 1], ts[|ts| - 1];
      assert ts == front + [last];
      CountInClass(front, t);
      HavingStep(front, last, TagId, {t.id});
    }
  }

  lemma {:induction false} TagAllCount(id: Id, items: seq<Instance>, inst: Instance)
    ensures multiset(TagAll(id, items))[Tagged(id, inst)] == multiset(items)[inst]
  {
    if items != [] {
      var front, last := items[..|items| - 1], items[|items| - 1];
      assert items == front + [last];
      TagAllCount(id, front, inst);
    }
  }

  /** How often an instance occurs under an identity, either way of counting. */
  lemma TagCount(bs: seq<Block>, t: Tagged)
    ensures multiset(Tags(bs))[t] == if ManagedId(t.id) then multiset(InstancesOf(bs, t.id))[t.inst] else 0
  {
    hide InstancesOf, Tags, Having, TagAll;
    CountInClass(Tags(bs), t);
    TagsById(bs, t.id);
    TagAllCount(t.id, InstancesOf(bs, t.id), t.inst);
    assert t == Tagged(t.id, t.inst);
  }

  lemma SameInstancesSameTags(a: seq<Block>, b: seq<Block>)
    requires forall id :: ManagedId(id) ==> multiset(InstancesOf(a, id)) == multiset(InstancesOf(b, id))
    ensures multiset(Tags(a)) == multiset(Tags(b))
  {
    hide InstancesOf, Tags;
    forall t ensures multiset(Tags(a))[t] == multiset(Tags(b))[t] {
      TagCount(a, t);
      TagCount(b, t);
    }
  }

  lemma SameTagsSameInstances(a: seq<Block>, b: seq<Block>, id: Id)
    requires multiset(Tags(a)) == multiset(Tags(b)) && ManagedId(id)
    ensures multiset(InstancesOf(a, id)) == multiset(InstancesOf(b, id))
  {
    hide InstancesOf, Tags;
    forall x ensures multiset(InstancesOf(a, id))[x] == multiset(InstancesOf(b, id))[x] {
      TagCount(a, Tagged(id, x));
      TagCount(b, Tagged(id, x));
    }
  }

  /** Refilling loses no managed instance and invents none. */
  lemma RefilledKeepsInstances(archive: seq<Block>, bs: seq<Block>)
    ensures multiset(Tags(Refilled(archive, bs))) == multiset(Tags(bs))
  {
    hide InstancesOf, Tags, Refilled;
    forall id | ManagedId(id) ensures multiset(InstancesOf(Refilled(archive, bs), id)) ==
        multiset(InstancesOf(bs, id)) {
      RefilledInstances(archive, bs, id);
    }
    SameInstancesSameTags(Refilled(archive, bs), bs);
  }

  // ----- unmanaged blocks, attributes, serial ----------------------------------------------------

  function Unmanaged(bs: seq<Block>): seq<Block> {
    if bs == [] then []
    else Unmanaged(bs[..|bs| - 1]) + if IsManaged(bs[|bs| - 1]) then [] else [bs[|bs| - 1]]
  }

  lemma {:induction false} UnmanagedConcat(a: seq<Block>, b: seq<Block>)
    ensures Unmanaged(a + b) == Unmanaged(a) + Unmanaged(b)
  {
    hide IsManaged;
    if b == [] {
      assert a + b == a;
    } else {
      assert (a + b)[..|a + b| - 1] == a + b[..|b| - 1];
      UnmanagedConcat(a, b[..|b| - 1]);
    }
  }

  lemma {:induction false} KeptUnmanaged(archive: seq<Block>, bs: seq<Block>)
    ensures Unmanaged(Kept(archive, bs)) == Unmanaged(archive)
  {
    hide InstancesOf, Ids, ManagedIds;
    if archive != [] {
      var front, last := archive[..|archive| - 1], archive[|archive| - 1];
      KeptUnmanaged(front, bs);
      UnmanagedConcat(Kept(front, bs), Refill(front, last, bs));
      RefillUnmanaged(front, last, bs);
    }
  }

  lemma RefillUnmanaged(before: seq<Block>, b: Block, bs: seq<Block>)
    ensures Unmanaged(Refill(before, b, bs)) == if IsManaged(b) then [] else [b]
  {
    hide InstancesOf, Ids, ManagedIds;
    var r := Refill(before, b, bs);
    if r != [] { assert r[..0] == []; assert IsManaged(r[0]) == IsManaged(b); }
  }

  lemma {:induction false} DropNullsUnmanaged(bs: seq<Block>)
    ensures Unmanaged(DropNulls(bs)) == DropNulls(Unmanaged(bs))
  {
    hide IsManaged, DropNull;
    if bs != [] {
      var front, last := bs[..|bs| - 1], bs[|bs| - 1];
      DropNullsUnmanaged(front);
      DropNullKeeps(last);
      var u := Unmanaged(front);
      assert (u + [last])[..|u + [last]| - 1] == u;
      assert u + [] == u;
    }
  }

  lemma UnmanagedStep(bs: seq<Block>, b: Block)
    ensures Unmanaged([]) == []
    ensures Unmanaged(bs + [b]) == Unmanaged(bs) + if IsManaged(b) then [] else [b]
  {
    hide IsManaged;
    assert (bs + [b])[..|bs + [b]| - 1] == bs;
  }

  lemma {:induction false} ExtrasUnmanaged(order: seq<Id>, taken: set<Id>, bs: seq<Block>)
    requires forall id :: id in taken ==> ManagedId(id)
    ensures Unmanaged(Extras(order, taken, bs)) == [] <==> forall id :: id in order ==> ManagedId(id)
  {
    hide InstancesOf, NewBlock, ManagedId, Unmanaged, IsManaged, BlockId;
    if order == [] {
      UnmanagedStep([], NewBlock(Id("", "", "", ""), []));
    } else {
      var front, last := order[..|order| - 1], order[|order| - 1];
      assert order == front + [last];
      ExtrasUnmanaged(front, taken, bs);
      var x := NewBlock(last, InstancesOf(bs, last));
      NewBlockIs(last, InstancesOf(bs, last));
      ManagedByMode(x);
      UnmanagedStep(Extras(front, taken, bs), x);
    }
  }

  lemma TakenAreManaged(archive: seq<Block>)
    ensures forall id :: id in ManagedIds(archive) ==> ManagedId(id)
  {
    hide BlockId, IsManaged, ManagedId;
    forall id | id in ManagedIds(archive) ensures ManagedId(id) {
      var b :| b in archive && IsManaged(b) && BlockId(b) == id;
      ManagedByMode(b);
    }
  }

  lemma FiledAreManaged(bs: seq<Block>)
    ensures (forall id :: id in FirstIds(bs) ==> ManagedId(id)) <==> forall b :: b in bs ==> IsManaged(b)
  {
    hide FirstIds, BlockId, IsManaged, ManagedId;
    FirstIdsMembers(bs);
    forall b | b in bs ensures BlockId(b) in FirstIds(bs) && (IsManaged(b) <==> ManagedId(BlockId(b))) {
      ManagedByMode(b);
    }
    forall id | id in FirstIds(bs) ensures exists b :: b in bs && BlockId(b) == id { assert id in Ids(bs); }
  }

  /** The unmanaged blocks are those of the archive, in order, save that a null module is left out, exactly when the
      leaves hold managed blocks only: an unmanaged block of a leaf is appended, even if the archive has it already. */
  lemma RefilledKeepsUnmanagedExactly(archive: seq<Block>, bs: seq<Block>)
    ensures Unmanaged(Refilled(archive, bs)) == DropNulls(Unmanaged(archive)) <==> forall b :: b in bs ==> IsManaged(b)
  {
    hide Kept, Extras, FirstIds, InstancesOf, ManagedIds, DropNulls, IsManaged, Unmanaged, ManagedId;
    var kept, extras := Kept(archive, bs), Extras(FirstIds(bs), ManagedIds(archive), bs);
    DropNullsUnmanaged(kept + extras);
    UnmanagedConcat(kept, extras);
    KeptUnmanaged(archive, bs);
    TakenAreManaged(archive);
    ExtrasUnmanaged(FirstIds(bs), ManagedIds(archive), bs);
    FiledAreManaged(bs);
    DropNullsLength(Unmanaged(archive));
    DropNullsLength(Unmanaged(archive) + Unmanaged(extras));
    assert Unmanaged(archive) + [] == Unmanaged(archive);
  }

  lemma {:induction false} DropNullsLength(bs: seq<Block>)
    ensures |DropNulls(bs)| == |bs|
  {
    hide DropNull;
    if bs != [] { DropNullsLength(bs[..|bs| - 1]); }
  }

  /** A data source that was read when the leaf was applied. */
  function DataBlock(): Block { Block(Missing, Text("data"), Text("t"), Text("n"), "body", List([])) }

  function WithBlock(b: Block): State { State(None, None, "", 1, "", "", Some([b])) }

  /** Such a block comes back twice, and the merge accepts that: its check reads managed addresses only. */
  lemma DataBlockComesTwice(h: Hashes)
    ensures var doc := WithBlock(DataBlock());
            var merged := SlowMerge(h, doc, [doc]);
            merged.Ok? && Blocks(merged.value) == [DataBlock(), DataBlock().(body := "")]
  {
    var b, doc := DataBlock(), WithBlock(DataBlock());
    assert !IsManaged(b) by { assert "data"[0] != "managed"[0]; }
    var id, new_ := BlockId(b), NewBlock(BlockId(b), []);
    assert DropNull(b) == b && DropNull(new_) == b.(body := "") && Items(b) == [];
    hide BlockId, IsManaged, DropNull, Items, NewBlock, DocsFault, Addresses, Spread, DataBlock, AllBlocks;
    OnlyUnmanaged(b, doc);
    OneInstances(b, id);
    RefilledOnce(b, id, new_);
    SlowMergeAcceptsExactly(h, doc, [doc]);
  }

  lemma OnlyUnmanaged(b: Block, doc: State)
    requires !IsManaged(b) && doc.resources == Some([b])
    ensures DocsFault([doc]).None? && Addresses(doc).Ok? && AllBlocks([doc]) == [b] && Spread([doc], DocAddresses) == []
  {
    hide IsManaged, FirstFault, BlockAddresses, DocsFault, DocFault, Spread;
    NothingManaged(b);
    LeafDocReads(doc);
    NoDocFault([doc]);
    SpreadOne(doc, DocBlocks);
    SpreadOne(doc, DocAddresses);
  }

  lemma SpreadOne<T>(doc: State, w: State -> seq<T>)
    ensures Spread([doc], w) == w(doc)
  {
    assert [doc][..0] == [];
  }

  lemma NothingManaged(b: Block)
    requires !IsManaged(b)
    ensures FirstFault([b]).None? && BlockAddresses([b]) == []
  {
    hide IsManaged;
    assert [b][..0] == [];
  }

  lemma RefilledOnce(b: Block, id: Id, new_: Block)
    requires !IsManaged(b) && BlockId(b) == id && new_ == NewBlock(id, InstancesOf([b], id))
    ensures Refilled([b], [b]) == [DropNull(b), DropNull(new_)]
  {
    hide InstancesOf, NewBlock, DropNull, BlockId, IsManaged;
    assert [b][..0] == [] && [id][..0] == [] && [b] + [new_] == [b, new_] && [] + [b] == [b];
    assert Kept([b], [b]) == [b] && FirstIds([b]) == [id] && ManagedIds([b]) == {};
    assert Extras([id], {}, [b]) == [new_];
    DropNullsConcat([b], [new_]);
    DropNullsOne(b);
    DropNullsOne(new_);
  }

  lemma {:induction false} MaxSerialBounds(start: nat, ds: seq<State>)
    ensures start <= MaxSerial(start, ds) && forall d :: d in ds ==> d.serial <= MaxSerial(start, ds)
    ensures MaxSerial(start, ds) == start || exists d :: d in ds && d.serial == MaxSerial(start, ds)
  {
    if ds != [] { MaxSerialBounds(start, ds[..|ds| - 1]); }
  }

  /** The merged serial is above every input exactly when none of them is the largest u64. */
  lemma SerialAboveExactly(archive: State, ds: seq<State>)
    requires archive.serial < U64_BOUND && forall d :: d in ds ==> d.serial < U64_BOUND
    ensures (&& MergedDoc(archive, ds).serial > archive.serial
             && forall d :: d in ds ==> MergedDoc(archive, ds).serial > d.serial)
       <==> (archive.serial < U64_BOUND - 1 && forall d :: d in ds ==> d.serial < U64_BOUND - 1)
  {
    hide Refilled, AllBlocks, MaxSerial;
    MaxSerialBounds(archive.serial, ds);
  }

  // ----- when the slow path succeeds --------------------------------------------------------------

  lemma {:induction false} KeptMembers(archive: seq<Block>, bs: seq<Block>)
    ensures forall x :: x in Kept(archive, bs) && IsManaged(x) ==>
              x.instances.List? && exists b :: b in archive && IsManaged(b) && x == WithItems(b, Items(x))
  {
    hide InstancesOf, Ids, ManagedIds;
    if archive != [] {
      var front, last := archive[..|archive| - 1], archive[|archive| - 1];
      KeptMembers(front, bs);
      forall x | x in Kept(archive, bs) && IsManaged(x)
        ensures x.instances.List? && exists b :: b in archive && IsManaged(b) && x == WithItems(b, Items(x))
      {
        if x in Kept(front, bs) {
          var b :| b in front && IsManaged(b) && x == WithItems(b, Items(x));
          assert b in archive;
        } else {
          assert x in Refill(front, last, bs) && last in archive;
        }
      }
    }
  }

  lemma {:induction false} ExtrasReadable(order: seq<Id>, taken: set<Id>, bs: seq<Block>)
    ensures forall x :: x in Extras(order, taken, bs) ==> Readable(x)
  {
    hide InstancesOf;
    if order != [] { ExtrasReadable(order[..|order| - 1], taken, bs); }
  }

  lemma {:induction false} DropNullsMembers(bs: seq<Block>)
    ensures forall x :: x in DropNulls(bs) ==> exists b :: b in bs && x == DropNull(b)
  {
    hide DropNull;
    if bs != [] {
      DropNullsMembers(bs[..|bs| - 1]);
      assert bs[|bs| - 1] in bs;
    }
  }

  lemma RefilledReadable(archive: seq<Block>, bs: seq<Block>)
    requires FirstFault(archive).None?
    ensures FirstFault(Refilled(archive, bs)).None?
  {
    hide FirstFault, Kept, Extras, DropNulls, FirstIds, ManagedIds, InstancesOf;
    ReadableExactly(archive);
    ReadableExactly(Refilled(archive, bs));
    KeptMembers(archive, bs);
    ExtrasReadable(FirstIds(bs), ManagedIds(archive), bs);
    var both := Kept(archive, bs) + Extras(FirstIds(bs), ManagedIds(archive), bs);
    DropNullsMembers(both);
    forall x | x in Refilled(archive, bs) && IsManaged(x) ensures Readable(x) {
      var y :| y in both && x == DropNull(y);
      DropNullKeeps(y);
      if y in Kept(archive, bs) {
        var b :| b in archive && IsManaged(b) && y == WithItems(b, Items(y));
      }
    }
  }

  lemma {:induction false} BlockAddressesConcat(a: seq<Block>, b: seq<Block>)
    ensures BlockAddresses(a + b) == BlockAddresses(a) + BlockAddresses(b)
  {
    hide OneBlock, IsManaged;
    if b == [] {
      assert a + b == a;
    } else {
      assert (a + b)[..|a + b| - 1] == a + b[..|b| - 1];
      BlockAddressesConcat(a, b[..|b| - 1]);
    }
  }

  lemma {:induction false} AddressesOfAllBlocks(ds: seq<State>)
    ensures Spread(ds, DocAddresses) == BlockAddresses(AllBlocks(ds))
  {
    hide BlockAddresses;
    if ds == [] {
      NoAddresses();
    } else {
      var front, last := ds[..|ds| - 1], ds[|ds| - 1];
      AddressesOfAllBlocks(front);
      BlockAddressesConcat(AllBlocks(front), Blocks(last));
    }
  }

  lemma NoAddresses()
    ensures BlockAddresses([]) == []
  {
  }

  /** Refilling changes no address. */
  lemma RefilledKeepsAddresses(archive: seq<Block>, ds: seq<State>)
    ensures multiset(BlockAddresses(Refilled(archive, AllBlocks(ds)))) == multiset(Spread(ds, DocAddresses))
  {
    hide *;
    RefilledKeepsInstances(archive, AllBlocks(ds));
    AddressesAreTags(Refilled(archive, AllBlocks(ds)));
    AddressesAreTags(AllBlocks(ds));
    SameTagsSameAddresses(Tags(Refilled(archive, AllBlocks(ds))), Tags(AllBlocks(ds)));
    AddressesOfAllBlocks(ds);
  }

  /** On a readable archive and readable leaves the slow path succeeds exactly when no address is in the
      leaves twice, whatever the hash. */
  lemma SlowMergeAcceptsExactly(h: Hashes, archive: State, ds: seq<State>)
    requires DocsFault(ds).None? && Addresses(archive).Ok?
    ensures SlowMerge(h, archive, ds).Ok? <==> NoRepeats(Spread(ds, DocAddresses))
    ensures SlowMerge(h, archive, ds).Ok? ==> SlowMerge(h, archive, ds).value == MergedDoc(archive, ds)
  {
    hide DocsFault, Refilled, AllBlocks, BlockAddresses, FirstFault, MaxSerial, Preimage, AllDistinct, NoRepeats,
        Spread;
    ReadableFat(archive);
    var bs := Refilled(Blocks(archive), AllBlocks(ds));
    RefilledReadable(Blocks(archive), AllBlocks(ds));
    RefilledKeepsAddresses(Blocks(archive), ds);
    var expected, merged := Spread(ds, DocAddresses), BlockAddresses(bs);
    SameMultisetSamePreimage(expected, merged);
    DistinctMeansNoRepeats(merged);
    if NoRepeats(expected) { NoRepeatsIsPermutable(expected, merged); }
    if NoRepeats(merged) { NoRepeatsIsPermutable(merged, expected); }
  }

  // ----- the archive comes back in its own order --------------------------------------------------

  /** What becomes of one archive block, whatever stands around it: an unmanaged block stays, a managed one keeps its
      attributes and takes the instances that the leaves hold for it, and goes if they hold none. */
  function Returned(bs: seq<Block>): Block -> seq<Block> {
    b =>
      if !IsManaged(b) then [DropNull(b)]
      else if BlockId(b) in Ids(bs) then [WithItems(DropNull(b), InstancesOf(bs, BlockId(b)))]
      else []
  }

  /** The block that is made for a new identity. */
  function Made(bs: seq<Block>): Id -> seq<Block> {
    (id: Id) =>
      [Block(if id.module_ == "" then Missing else Text(id.module_), Text(id.mode), Text(id.ty), Text(id.name), "",
             List(InstancesOf(bs, id)))]
  }

  function IsIn(taken: set<Id>): Id -> bool { id => id in taken }

  /** The identities no managed block of the archive has, in the order the leaves show them. */
  function NewIds(archive: seq<Block>, bs: seq<Block>): seq<Id> {
    Having(FirstIds(bs), IsIn(ManagedIds(archive)), {false})
  }

  /** The archive block by block, then the new identities. */
  function InArchiveOrder(archive: seq<Block>, bs: seq<Block>): seq<Block> {
    Spread(archive, Returned(bs)) + Spread(NewIds(archive, bs), Made(bs))
  }

  /** Of the managed blocks of the archive, at most one has an identity that the leaves hold. */
  ghost predicate OneTaker(archive: seq<Block>, bs: seq<Block>) {
    forall i, j :: Sharers(archive, i, j) ==> BlockId(archive[i]) !in Ids(bs)
  }

  /** Two managed blocks with one identity. */
  ghost predicate Sharers(bs: seq<Block>, i: int, j: int) {
    0 <= i < j < |bs| && IsManaged(bs[i]) && IsManaged(bs[j]) && BlockId(bs[i]) == BlockId(bs[j])
  }

  lemma {:induction false} ExtrasMade(order: seq<Id>, taken: set<Id>, bs: seq<Block>)
    ensures DropNulls(Extras(order, taken, bs)) == Spread(Having(order, IsIn(taken), {false}), Made(bs))
  {
    hide InstancesOf, Having, Spread, DropNulls;
    if order == [] {
      NothingMade(taken, bs);
    } else {
      var front, last := order[..|order| - 1], order[|order| - 1];
      assert order == front + [last];
      ExtrasMade(front, taken, bs);
      HavingStep(front, last, IsIn(taken), {false});
      if last in taken {
        assert Having(front, IsIn(taken), {false}) + [] == Having(front, IsIn(taken), {false});
      } else {
        var x := NewBlock(last, InstancesOf(bs, last));
        DropNullsConcat(Extras(front, taken, bs), [x]);
        DropNullsOne(x);
        SpreadStep(Having(front, IsIn(taken), {false}), last, Made(bs));
      }
    }
  }

  lemma NothingMade(taken: set<Id>, bs: seq<Block>)
    ensures DropNulls([]) == [] && Spread(Having([], IsIn(taken), {false}), Made(bs)) == []
  {
  }

  /** One block of the archive, after those before it. */
  lemma RefillOne(front: seq<Block>, b: Block, bs: seq<Block>)
    ensures IsManaged(b) && BlockId(b) in Ids(bs) && BlockId(b) in ManagedIds(front) ==>
              Refill(front, b, bs) == [] && |Returned(bs)(b)| == 1
    ensures !(IsManaged(b) && BlockId(b) in Ids(bs) && BlockId(b) in ManagedIds(front)) ==>
              DropNulls(Refill(front, b, bs)) == Returned(bs)(b)
  {
    hide InstancesOf, Ids, ManagedIds, DropNulls;
    DropNullsOne(b);
    if IsManaged(b) && BlockId(b) in Ids(bs) { DropNullsOne(WithItems(b, InstancesOf(bs, BlockId(b)))); }
  }

  lemma OneTakerStep(archive: seq<Block>, bs: seq<Block>)
    requires archive != []
    ensures var front, last := archive[..|archive| - 1], archive[|archive| - 1];
            OneTaker(archive, bs) <==>
            OneTaker(front, bs) && !(IsManaged(last) && BlockId(last) in Ids(bs) && BlockId(last) in ManagedIds(front))
  {
    hide BlockId, IsManaged, Ids;
    var front, last := archive[..|archive| - 1], archive[|archive| - 1];
    assert forall i, j :: Sharers(front, i, j) ==> Sharers(archive, i, j) && front[i] == archive[i];
    forall i, j | Sharers(archive, i, j) && !Sharers(front, i, j) ensures j == |front| && archive[i] in front {}
    if IsManaged(last) && BlockId(last) in Ids(bs) && BlockId(last) in ManagedIds(front) {
      var b :| b in front && IsManaged(b) && BlockId(b) == BlockId(last);
      var i :| 0 <= i < |front| && front[i] == b;
      assert Sharers(archive, i, |archive| - 1);
    }
  }

  lemma {:induction false} KeptInOrder(archive: seq<Block>, bs: seq<Block>)
    ensures OneTaker(archive, bs) ==> DropNulls(Kept(archive, bs)) == Spread(archive, Returned(bs))
    ensures !OneTaker(archive, bs) ==> |Kept(archive, bs)| < |Spread(archive, Returned(bs))|
  {
    if archive == [] {
    } else {
      hide *;
      var front, last := archive[..|archive| - 1], archive[|archive| - 1];
      assert archive == front + [last];
      KeptInOrder(front, bs);
      OneTakerStep(archive, bs);
      KeptStep(archive, bs);
      RefillOne(front, last, bs);
      SpreadStep(front, last, Returned(bs));
      DropNullsConcat(Kept(front, bs), Refill(front, last, bs));
      DropNullsLength(Kept(front, bs));
      DropNullsLength(Refill(front, last, bs));
    }
  }

  /** For any archive and any leaf blocks: the merged blocks are the archive's own, in order, each with its attributes
      and the leaves' instances, followed by the new identities, exactly when no two managed blocks of the archive
      compete for what the leaves hold. */
  lemma RefilledInOrderExactly(archive: seq<Block>, bs: seq<Block>)
    ensures Refilled(archive, bs) == InArchiveOrder(archive, bs) <==> OneTaker(archive, bs)
  {
    hide Kept, Extras, FirstIds, ManagedIds, DropNulls, Spread, OneTaker, Having;
    var kept, extras := Kept(archive, bs), Extras(FirstIds(bs), ManagedIds(archive), bs);
    KeptInOrder(archive, bs);
    ExtrasMade(FirstIds(bs), ManagedIds(archive), bs);
    DropNullsConcat(kept, extras);
    DropNullsLength(kept);
  }

  /** What stands at position `i` of the archive becomes this: a managed block takes all that the leaves hold for its
      identity if it is the first to have it, and is lost otherwise. */
  function PlaceAt(archive: seq<Block>, bs: seq<Block>, i: nat): seq<Block>
    requires i < |archive|
  {
    var b := archive[i];
    if !IsManaged(b) then [DropNull(b)]
    else if BlockId(b) in Ids(bs) && BlockId(b) !in ManagedIds(archive[..i])
    then [WithItems(DropNull(b), InstancesOf(bs, BlockId(b)))]
    else []
  }

  function Place(archive: seq<Block>, bs: seq<Block>): nat -> seq<Block> {
    (i: nat) => if i < |archive| then PlaceAt(archive, bs, i) else []
  }

  function Positions(n: nat): (r: seq<nat>)
    ensures |r| == n && forall i :: 0 <= i < n ==> r[i] == i
  {
    seq(n, i => i)
  }

  /** The archive position by position, then the new identities. */
  function ByPosition(archive: seq<Block>, bs: seq<Block>): seq<Block> {
    Spread(Positions(|archive|), Place(archive, bs)) + Spread(NewIds(archive, bs), Made(bs))
  }

  lemma PlaceIsRefill(archive: seq<Block>, bs: seq<Block>, i: nat)
    requires i < |archive|
    ensures DropNulls(Refill(archive[..i], archive[i], bs)) == PlaceAt(archive, bs, i) == Place(archive, bs)(i)
  {
    hide InstancesOf, Ids, ManagedIds, DropNulls;
    var b := archive[i];
    DropNullsOne(b);
    if IsManaged(b) && BlockId(b) in Ids(bs) { DropNullsOne(WithItems(b, InstancesOf(bs, BlockId(b)))); }
  }

  lemma SamePlaces(archive: seq<Block>, bs: seq<Block>)
    requires archive != []
    ensures var front := archive[..|archive| - 1];
            Spread(Positions(|front|), Place(front, bs)) == Spread(Positions(|front|), Place(archive, bs))
  {
    hide Spread, Ids, ManagedIds, InstancesOf;
    var front := archive[..|archive| - 1];
    forall i | 0 <= i < |front| ensures Place(front, bs)(i) == Place(archive, bs)(i) {
      assert front[i] == archive[i] && front[..i] == archive[..i];
    }
    SameSpread(Positions(|front|), Place(front, bs), Positions(|front|), Place(archive, bs));
  }

  lemma NothingPlaced(archive: seq<Block>, bs: seq<Block>)
    requires archive == []
    ensures DropNulls(Kept(archive, bs)) == [] && Spread(Positions(|archive|), Place(archive, bs)) == []
  {
    hide Place;
    assert Positions(0) == [];
  }

  lemma {:induction false} KeptByPosition(archive: seq<Block>, bs: seq<Block>)
    ensures DropNulls(Kept(archive, bs)) == Spread(Positions(|archive|), Place(archive, bs))
  {
    hide *;
    if archive == [] {
      NothingPlaced(archive, bs);
    } else {
      var n: nat := |archive| - 1;
      var front := archive[..n];
      KeptByPosition(front, bs);
      SamePlaces(archive, bs);
      KeptStep(archive, bs);
      DropNullsConcat(Kept(front, bs), Refill(front, archive[n], bs));
      PlaceIsRefill(archive, bs, n);
      assert Positions(n + 1) == Positions(n) + [n];
      SpreadStep(Positions(n), n, Place(archive, bs));
    }
  }

  /** For any archive and any leaf blocks, without condition: who shares an identity gets nothing but the first. */
  lemma RefilledByPosition(archive: seq<Block>, bs: seq<Block>)
    ensures Refilled(archive, bs) == ByPosition(archive, bs)
  {
    hide Kept, Extras, FirstIds, ManagedIds, DropNulls, Spread, Having;
    var kept, extras := Kept(archive, bs), Extras(FirstIds(bs), ManagedIds(archive), bs);
    KeptByPosition(archive, bs);
    ExtrasMade(FirstIds(bs), ManagedIds(archive), bs);
    DropNullsConcat(kept, extras);
  }

  /** The same of a merge that took the slow path: it changes nothing of the archive but the blocks and the serial. */
  lemma SlowMergeInOrderExactly(h: Hashes, archive: State, ds: seq<State>)
    requires SlowMerge(h, archive, ds).Ok?
    ensures var doc := SlowMerge(h, archive, ds).value;
            && doc == archive.(serial := doc.serial, resources := doc.resources)
            && doc.resources == Some(ByPosition(Blocks(archive), AllBlocks(ds)))
            && (doc.resources == Some(InArchiveOrder(Blocks(archive), AllBlocks(ds))) <==>
                OneTaker(Blocks(archive), AllBlocks(ds)))
            && (DistinctIds(Blocks(archive)) ==> doc.resources == Some(InArchiveOrder(Blocks(archive), AllBlocks(ds))))
  {
    if DistinctIds(Blocks(archive)) { assert OneTaker(Blocks(archive), AllBlocks(ds)); }
    hide DocsFault, Addresses, Bijection, Refilled, MaxSerial, InArchiveOrder, OneTaker, ByPosition;
    RefilledByPosition(Blocks(archive), AllBlocks(ds));
    RefilledInOrderExactly(Blocks(archive), AllBlocks(ds));
  }

  ghost predicate DistinctIds(bs: seq<Block>) { forall i, j :: !Sharers(bs, i, j) }

  // ----- merge after split ------------------------------------------------------------------------

  /** `x` is `b` again: the same attributes, the same instances in some order. */
  ghost predicate SameBlock(b: Block, x: Block) {
    if IsManaged(b) then x == WithItems(DropNull(b), Items(x)) && multiset(Items(x)) == multiset(Items(b))
    else x == DropNull(b)
  }

  /** `out` is the archive again, block by block, without its empty managed blocks. */
  ghost predicate Restored(archive: seq<Block>, out: seq<Block>) {
    if archive == [] then out == []
    else
      var front, last := archive[..|archive| - 1], archive[|archive| - 1];
      if IsManaged(last) && Items(last) == [] then Restored(front, out)
      else out != [] && SameBlock(last, out[|out| - 1]) && Restored(front, out[..|out| - 1])
  }

  /** What stands at position `i` comes back there: nothing of an empty managed block, else the same block. */
  ghost predicate BackInPlace(archive: seq<Block>, bs: seq<Block>, i: int) {
    0 <= i < |archive| ==>
      if IsManaged(archive[i]) && Items(archive[i]) == [] then PlaceAt(archive, bs, i) == []
      else |PlaceAt(archive, bs, i)| == 1 && SameBlock(archive[i], PlaceAt(archive, bs, i)[0])
  }

  /** Of the managed blocks that share an identity, only the first holds anything. */
  ghost predicate OnlyFirstHolds(bs: seq<Block>) { forall i, j :: Sharers(bs, i, j) ==> Items(bs[j]) == [] }

  /** The leaves hold, for every managed identity, the instances that the archive holds. */
  ghost predicate SameHoldings(bs: seq<Block>, archive: seq<Block>) {
    forall id :: ManagedId(id) ==> HoldsSame(bs, archive, id)
  }

  ghost predicate HoldsSame(bs: seq<Block>, archive: seq<Block>, id: Id) {
    && multiset(InstancesOf(bs, id)) == multiset(InstancesOf(archive, id))
    && (id in Ids(bs) <==> InstancesOf(archive, id) != [])
  }

  lemma RestoredStep(front: seq<Block>, last: Block, out: seq<Block>, more: seq<Block>)
    requires Restored(front, out)
    requires if IsManaged(last) && Items(last) == [] then more == [] else |more| == 1 && SameBlock(last, more[0])
    ensures Restored(front + [last], out + more)
  {
    hide SameBlock;
    assert (front + [last])[..|front + [last]| - 1] == front;
    if IsManaged(last) && Items(last) == [] {
      assert out + more == out;
    } else {
      assert (out + more)[..|out + more| - 1] == out;
    }
  }

  lemma {:induction false} DropNullsConcat(a: seq<Block>, b: seq<Block>)
    ensures DropNulls(a + b) == DropNulls(a) + DropNulls(b)
  {
    hide DropNull;
    if b == [] {
      assert a + b == a;
    } else {
      assert (a + b)[..|a + b| - 1] == a + b[..|b| - 1];
      DropNullsConcat(a, b[..|b| - 1]);
    }
  }

  lemma DropNullsOne(b: Block)
    ensures DropNulls([]) == [] && DropNulls([b]) == [DropNull(b)]
  {
    assert [b][..0] == [];
  }

  lemma KeptStep(archive: seq<Block>, bs: seq<Block>)
    requires archive != []
    ensures Kept(archive, bs) ==
            Kept(archive[..|archive| - 1], bs) + Refill(archive[..|archive| - 1], archive[|archive| - 1], bs)
  {
  }

  lemma {:induction false} NonEmptyFiled(bs: seq<Block>, b: Block)
    requires b in bs && Items(b) != []
    ensures InstancesOf(bs, BlockId(b)) != []
  {
    hide InstancesOf, BlockId, Items;
    var front, last := bs[..|bs| - 1], bs[|bs| - 1];
    assert bs == front + [last];
    InstancesStep(front, last, BlockId(b));
    if b != last { NonEmptyFiled(front, b); }
  }

  lemma {:induction false} AllEmpty(bs: seq<Block>, id: Id)
    requires forall k :: 0 <= k < |bs| && BlockId(bs[k]) == id ==> Items(bs[k]) == []
    ensures InstancesOf(bs, id) == []
  {
    hide InstancesOf, BlockId, Items;
    if bs == [] {
      NoInstances_(id);
    } else {
      var front, last := bs[..|bs| - 1], bs[|bs| - 1];
      assert bs == front + [last];
      AllEmpty(front, id);
      InstancesStep(front, last, id);
    }
  }

  /** Where only position `k` holds anything under its identity, that is all there is. */
  lemma {:induction false} OnlyOneHolds(bs: seq<Block>, k: nat)
    requires k < |bs|
    requires forall i :: 0 <= i < |bs| && i != k && BlockId(bs[i]) == BlockId(bs[k]) ==> Items(bs[i]) == []
    ensures InstancesOf(bs, BlockId(bs[k])) == Items(bs[k])
  {
    hide InstancesOf, BlockId, Items;
    var front, last := bs[..|bs| - 1], bs[|bs| - 1];
    assert bs == front + [last];
    assert forall i :: 0 <= i < |front| ==> front[i] == bs[i];
    InstancesStep(front, last, BlockId(bs[k]));
    if k < |front| {
      OnlyOneHolds(front, k);
      assert Items(bs[k]) + [] == Items(bs[k]);
    } else {
      AllEmpty(front, BlockId(last));
      assert [] + Items(last) == Items(last);
    }
  }

  lemma EarlierTaker(archive: seq<Block>, i: nat)
    requires i < |archive| && IsManaged(archive[i])
    ensures BlockId(archive[i]) in ManagedIds(archive[..i]) <==> exists k :: Sharers(archive, k, i)
  {
    hide BlockId, IsManaged;
    var front := archive[..i];
    if BlockId(archive[i]) in ManagedIds(front) {
      var b :| b in front && IsManaged(b) && BlockId(b) == BlockId(archive[i]);
      var k :| 0 <= k < |front| && front[k] == b;
      assert Sharers(archive, k, i);
    }
    if k :| Sharers(archive, k, i) { assert front[k] == archive[k] && front[k] in front; }
  }

  lemma FirstHoldsAll(archive: seq<Block>, i: nat)
    requires OnlyFirstHolds(archive) && i < |archive| && IsManaged(archive[i])
    requires BlockId(archive[i]) !in ManagedIds(archive[..i]) || Items(archive[i]) != []
    ensures BlockId(archive[i]) !in ManagedIds(archive[..i])
    ensures InstancesOf(archive, BlockId(archive[i])) == Items(archive[i])
  {
    hide InstancesOf, BlockId, Items, IsManaged, ManagedIds;
    EarlierTaker(archive, i);
    forall k | 0 <= k < |archive| && k != i && BlockId(archive[k]) == BlockId(archive[i])
      ensures Items(archive[k]) == []
    {
      ManagedByMode(archive[i]);
      ManagedByMode(archive[k]);
      assert if k < i then Sharers(archive, k, i) else Sharers(archive, i, k);
    }
    OnlyOneHolds(archive, i);
  }

  lemma ComesBack(archive: seq<Block>, bs: seq<Block>, i: nat)
    requires SameHoldings(bs, archive) && OnlyFirstHolds(archive) && i < |archive|
    ensures BackInPlace(archive, bs, i)
  {
    var b := archive[i];
    if IsManaged(b) {
      ManagedByMode(b);
      assert HoldsSame(bs, archive, BlockId(b));
      if BlockId(b) !in ManagedIds(archive[..i]) || Items(b) != [] { FirstHoldsAll(archive, i); }
      hide InstancesOf, Ids, ManagedIds, OnlyFirstHolds, SameHoldings;
    }
  }

  /** Every block comes back in its place exactly when, of the managed blocks that share an identity, only the first
      holds anything. */
  lemma BackInPlaceExactly(archive: seq<Block>, bs: seq<Block>)
    requires SameHoldings(bs, archive)
    ensures (forall i :: BackInPlace(archive, bs, i)) <==> OnlyFirstHolds(archive)
  {
    hide InstancesOf, Ids, ManagedIds, IsManaged, BlockId, Items, SameBlock, SameHoldings;
    if OnlyFirstHolds(archive) {
      forall i ensures BackInPlace(archive, bs, i) { if 0 <= i < |archive| { ComesBack(archive, bs, i); } }
    } else {
      var i, j :| Sharers(archive, i, j) && Items(archive[j]) != [];
      EarlierTaker(archive, j);
      assert PlaceAt(archive, bs, j) == [];
      assert !BackInPlace(archive, bs, j);
    }
  }

  lemma FrontInPlace(archive: seq<Block>, bs: seq<Block>, i: int)
    requires archive != [] && BackInPlace(archive, bs, i)
    ensures BackInPlace(archive[..|archive| - 1], bs, i)
  {
    hide Ids, ManagedIds, InstancesOf, SameBlock, IsManaged, Items;
    var front := archive[..|archive| - 1];
    if 0 <= i < |front| { assert front[i] == archive[i] && front[..i] == archive[..i]; }
  }

  lemma LastInPlace(archive: seq<Block>, bs: seq<Block>)
    requires archive != [] && BackInPlace(archive, bs, |archive| - 1)
    ensures var n, last := |archive| - 1, archive[|archive| - 1];
            var more := Place(archive, bs)(n);
            if IsManaged(last) && Items(last) == [] then more == [] else |more| == 1 && SameBlock(last, more[0])
  {
    hide PlaceAt, SameBlock, IsManaged, Items;
  }

  lemma NothingRestored(archive: seq<Block>, bs: seq<Block>)
    requires archive == []
    ensures Restored(archive, Spread(Positions(|archive|), Place(archive, bs)))
  {
    hide *;
    NothingPlaced(archive, bs);
    RestoredNothing();
  }

  lemma RestoredNothing()
    ensures Restored([], [])
  {
  }

  lemma {:induction false} PlacesRestore(archive: seq<Block>, bs: seq<Block>)
    requires forall i :: BackInPlace(archive, bs, i)
    ensures Restored(archive, Spread(Positions(|archive|), Place(archive, bs)))
  {
    hide *;
    if archive == [] {
      NothingRestored(archive, bs);
    } else {
      var n: nat := |archive| - 1;
      var front := archive[..n];
      assert archive == front + [archive[n]];
      forall i ensures BackInPlace(front, bs, i) { FrontInPlace(archive, bs, i); }
      LastInPlace(archive, bs);
      PlacesRestore(front, bs);
      SamePlaces(archive, bs);
      assert Positions(n + 1) == Positions(n) + [n];
      SpreadStep(Positions(n), n, Place(archive, bs));
      RestoredStep(front, archive[n], Spread(Positions(n), Place(archive, bs)), Place(archive, bs)(n));
    }
  }

  /** The leaf documents `split` wrote, in order. */
  function WrittenDocs(sp: Split): (r: seq<State>)
    ensures |r| == |sp.leaves| && forall i :: 0 <= i < |r| ==> r[i] == sp.leaves[i].doc
  {
    seq(|sp.leaves|, i requires 0 <= i < |sp.leaves| => sp.leaves[i].doc)
  }

  lemma {:induction false} ByNameFinds(leaves: seq<LeafState>, i: nat)
    requires i < |leaves| && forall j, k :: 0 <= j < k < |leaves| ==> leaves[j].template != leaves[k].template
    ensures leaves[i].template in ByName(leaves) && ByName(leaves)[leaves[i].template] == leaves[i].doc
  {
    var front := leaves[..|leaves| - 1];
    if i < |front| { ByNameFinds(front, i); }
  }

  /** `merge` finds the very documents that `split` wrote. */
  lemma WrittenAreFound(h: Hashes, fatTemplate: string, fat: State, moves: seq<StateMove>, sp: Split)
    requires SplitOf(h, fatTemplate, fat, moves) == Ok(sp)
    ensures var docs := ByName(sp.leaves);
            && FirstMissing(sp.receipt.leaves, docs).None?
            && (forall i :: 0 <= i < |sp.receipt.leaves| ==> sp.receipt.leaves[i].template in docs)
            && DocsOf(sp.receipt.leaves, docs) == WrittenDocs(sp)
  {
    hide ByName, AllOwned, Bijection, LeafPart, Tags, FirstMissing, MoveFault, BlockAddresses, Addresses;
    MovesOkExactly(fatTemplate, moves);
    var rs, docs := sp.receipt.leaves, ByName(sp.leaves);
    forall i | 0 <= i < |rs| ensures rs[i].template in docs && docs[rs[i].template] == sp.leaves[i].doc {
      ByNameFinds(sp.leaves, i);
    }
    NoneMissing(rs, docs);
  }

  /** With nothing changed since the split, the archive itself comes back. */
  lemma MergeIsInverse(h: Hashes, fatTemplate: string, fat: State, moves: seq<StateMove>, sp: Split)
    requires SplitOf(h, fatTemplate, fat, moves) == Ok(sp)
    ensures MergeOf(h, fat, sp.receipt, sp.leaves) == Ok(fat)
  {
    hide ByName, AllOwned, Bijection, LeafPart, Tags, FirstMissing, MovesFault, BlockAddresses, Addresses, SlowMerge;
    WrittenAreFound(h, fatTemplate, fat, moves, sp);
  }

  lemma {:induction false} TagsOfAllBlocks(sp: Split, k: nat)
    requires k <= |sp.leaves|
    ensures Tags(AllBlocks(WrittenDocs(sp)[..k])) == Spread(sp.leaves[..k], LeafTags)
  {
    hide Tags, Spread;
    var ds := WrittenDocs(sp);
    if k == 0 {
      NoTags();
    } else {
      TagsOfAllBlocks(sp, k - 1);
      assert ds[..k] == ds[..k - 1] + [ds[k - 1]] && sp.leaves[..k] == sp.leaves[..k - 1] + [sp.leaves[k - 1]];
      SpreadStep(ds[..k - 1], ds[k - 1], DocBlocks);
      SpreadStep(sp.leaves[..k - 1], sp.leaves[k - 1], LeafTags);
      TagsConcat(AllBlocks(ds[..k - 1]), Blocks(ds[k - 1]));
    }
  }

  lemma NoTags()
    ensures Tags([]) == [] && AllBlocks([]) == [] && Spread([], LeafTags) == []
  {
  }

  /** The facts about a successful split that the round trip rests on. */
  lemma SplitFacts(h: Hashes, fatTemplate: string, fat: State, moves: seq<StateMove>, sp: Split)
    requires SplitOf(h, fatTemplate, fat, moves) == Ok(sp)
    ensures Addresses(fat).Ok? && DocsFault(WrittenDocs(sp)).None?
    ensures multiset(Tags(AllBlocks(WrittenDocs(sp)))) == multiset(Tags(Blocks(fat)))
    ensures NoRepeats(Spread(WrittenDocs(sp), DocAddresses))
  {
    hide AllOwned, LeafPart, Tags, MovesFault, BlockAddresses, Spread, DocsFault, Preimage, AllDistinct, NoRepeats,
        Addresses;
    var ds := WrittenDocs(sp);
    LeavesKeepInstances(h, fat, moves);
    TagsOfAllBlocks(sp, |sp.leaves|);
    assert ds[..|sp.leaves|] == ds && sp.leaves[..|sp.leaves|] == sp.leaves;
    SameSpread(ds, DocAddresses, sp.leaves, LeafAddresses);
    DistinctMeansNoRepeats(Spread(sp.leaves, LeafAddresses));
    ReadableFat(fat);
    forall i | 0 <= i < |ds| ensures DocFault(ds[i]).None? {
      LeafReads(moves, Blocks(fat), i);
      LeafDocReads(ds[i]);
    }
    NoDocFault(ds);
  }

  lemma LeafDocReads(d: State)
    requires d.resources.Some? && FirstFault(Blocks(d)).None?
    ensures DocFault(d).None?
  {
  }

  lemma {:induction false} NoDocFault(ds: seq<State>)
    requires forall i :: 0 <= i < |ds| ==> DocFault(ds[i]).None?
    ensures DocsFault(ds).None?
  {
    hide DocFault;
    if ds != [] { NoDocFault(ds[..|ds| - 1]); }
  }

  /** Every written block is a non-empty managed block with an identity of the fat state. */
  lemma WrittenBlocks(h: Hashes, fatTemplate: string, fat: State, moves: seq<StateMove>, sp: Split, x: Block)
    requires SplitOf(h, fatTemplate, fat, moves) == Ok(sp) && x in AllBlocks(WrittenDocs(sp))
    ensures IsManaged(x) && Items(x) != [] && BlockId(x) in ManagedIds(Blocks(fat))
  {
    hide AllOwned, LeafPart, Tags, MovesFault, BlockAddresses, Spread, Bijection, Addresses;
    var ds := WrittenDocs(sp);
    SpreadMembers(ds, DocBlocks);
    var i :| 0 <= i < |ds| && x in DocBlocks(ds[i]);
    LeafPartBlocks(moves, Blocks(fat), i);
    var b :| b in Blocks(fat) && IsManaged(b) && x == WithItems(b, Items(x));
    assert BlockId(x) == BlockId(b);
  }

  lemma NothingNew(h: Hashes, fatTemplate: string, fat: State, moves: seq<StateMove>, sp: Split)
    requires SplitOf(h, fatTemplate, fat, moves) == Ok(sp)
    ensures NewIds(Blocks(fat), AllBlocks(WrittenDocs(sp))) == []
  {
    hide SplitOf, FirstIds, ManagedIds, AllBlocks, BlockId;
    var bs := AllBlocks(WrittenDocs(sp));
    FirstIdsMembers(bs);
    forall id | id in FirstIds(bs) ensures id in ManagedIds(Blocks(fat)) {
      var x :| x in bs && BlockId(x) == id;
      WrittenBlocks(h, fatTemplate, fat, moves, sp, x);
    }
    NoneHave(FirstIds(bs), IsIn(ManagedIds(Blocks(fat))), false);
  }

  lemma MergedBlocks(archive: State, ds: seq<State>)
    ensures Blocks(MergedDoc(archive, ds)) == Refilled(Blocks(archive), AllBlocks(ds))
  {
    hide Refilled, AllBlocks, MaxSerial;
  }

  lemma PositionsWithoutNew(archive: seq<Block>, bs: seq<Block>)
    requires NewIds(archive, bs) == []
    ensures ByPosition(archive, bs) == Spread(Positions(|archive|), Place(archive, bs))
  {
    hide NewIds, Place;
  }

  /** The leaves hold an identity exactly when some block of the fat state does. */
  lemma WrittenIds(h: Hashes, fatTemplate: string, fat: State, moves: seq<StateMove>, sp: Split, id: Id)
    requires SplitOf(h, fatTemplate, fat, moves) == Ok(sp) && ManagedId(id)
    ensures id in Ids(AllBlocks(WrittenDocs(sp))) <==> InstancesOf(Blocks(fat), id) != []
  {
    hide SplitOf, InstancesOf, Tags, AllBlocks, BlockId, ManagedId;
    var bs := AllBlocks(WrittenDocs(sp));
    SplitFacts(h, fatTemplate, fat, moves, sp);
    SameTagsSameInstances(bs, Blocks(fat), id);
    assert |multiset(InstancesOf(bs, id))| == |multiset(InstancesOf(Blocks(fat), id))|;
    if id in Ids(bs) {
      var x :| x in bs && BlockId(x) == id;
      WrittenBlocks(h, fatTemplate, fat, moves, sp, x);
      NonEmptyFiled(bs, x);
    } else {
      NoneFiled(bs, id);
    }
  }

  lemma WrittenHoldSame(h: Hashes, fatTemplate: string, fat: State, moves: seq<StateMove>, sp: Split)
    requires SplitOf(h, fatTemplate, fat, moves) == Ok(sp)
    ensures SameHoldings(AllBlocks(WrittenDocs(sp)), Blocks(fat))
  {
    hide SplitOf, InstancesOf, Tags, AllBlocks, Ids, ManagedId;
    SplitFacts(h, fatTemplate, fat, moves, sp);
    forall id | ManagedId(id) ensures HoldsSame(AllBlocks(WrittenDocs(sp)), Blocks(fat), id) {
      SameTagsSameInstances(AllBlocks(WrittenDocs(sp)), Blocks(fat), id);
      WrittenIds(h, fatTemplate, fat, moves, sp, id);
    }
  }

  /** On what a split wrote the slow path succeeds too.  Every block comes back in its place, with its attributes and
      the same instances in some order, exactly when, of the managed blocks that share an identity, only the first holds
      anything; the merged blocks are then the archive's, in order, without its empty managed blocks. */
  lemma SlowMergeRestoresExactly(h: Hashes, fatTemplate: string, fat: State, moves: seq<StateMove>, sp: Split)
    requires SplitOf(h, fatTemplate, fat, moves) == Ok(sp)
    ensures var ds := WrittenDocs(sp);
            var archive, bs, out := Blocks(fat), AllBlocks(ds), Blocks(MergedDoc(fat, ds));
            && SlowMerge(h, fat, ds) == Ok(MergedDoc(fat, ds))
            && out == Spread(Positions(|archive|), Place(archive, bs))
            && ((forall i :: BackInPlace(archive, bs, i)) <==> OnlyFirstHolds(archive))
            && (OnlyFirstHolds(archive) ==> Restored(archive, out))
  {
    hide *;
    var ds := WrittenDocs(sp);
    var archive, bs := Blocks(fat), AllBlocks(ds);
    SplitFacts(h, fatTemplate, fat, moves, sp);
    SlowMergeAcceptsExactly(h, fat, ds);
    MergedBlocks(fat, ds);
    NothingNew(h, fatTemplate, fat, moves, sp);
    RefilledByPosition(archive, bs);
    PositionsWithoutNew(archive, bs);
    WrittenHoldSame(h, fatTemplate, fat, moves, sp);
    BackInPlaceExactly(archive, bs);
    if OnlyFirstHolds(archive) { PlacesRestore(archive, bs); }
  }

  // ----- reading back what was written -----------------------------------------------------------------

  /** `verify_written`: none when the leaves read back as recorded. */
  function WrittenFault(h: Hashes, receipt: Receipt, leaves: seq<State>): Option<MigrateError> {
    match DocsFault(leaves)
    case Some(e) => Some(Source(e))
    case None =>
      var after := Spread(leaves, DocAddresses);
      var check := Bijection(h, after, after);
      if !check.disjoint || check.hashAfter != receipt.hashBefore || |after| != receipt.countBefore
      then Some(BijectionRefused) else None
  }

  method VerifyWritten(h: Hashes, receipt: Receipt, leaves: seq<State>) returns (r: Option<MigrateError>)
    ensures r == WrittenFault(h, receipt, leaves)
  {
    var after: seq<string>, i := [], 0;
    hide Addresses, Bijection, BlockAddresses;
    assert leaves[..0] == [];
    while i < |leaves|
      invariant 0 <= i <= |leaves|
      invariant DocsFault(leaves[..i]) == None && after == Spread(leaves[..i], DocAddresses)
    {
      assert leaves[..i + 1][..i] == leaves[..i] && leaves[..i + 1] == leaves[..i] + [leaves[i]];
      var read := AddressesFromState(leaves[i]);
      if read.Err? {
        DocsFaultSticks(leaves, i + 1);
        return Some(Source(read.error));
      }
      ReadableFat(leaves[i]);
      SpreadStep(leaves[..i], leaves[i], DocAddresses);
      after := after + read.value;
      i := i + 1;
    }
    assert leaves[..i] == leaves;
    var check := Bijection(h, after, after);
    if !check.disjoint || check.hashAfter != receipt.hashBefore || |after| != receipt.countBefore {
      return Some(BijectionRefused);
    }
    return None;
  }

  /** What `split` wrote passes; and whatever passes has, unless the hash collides, the addresses of the fat state. */
  lemma WrittenVerifies(h: Hashes, fatTemplate: string, fat: State, moves: seq<StateMove>, sp: Split)
    requires SplitOf(h, fatTemplate, fat, moves) == Ok(sp)
    ensures WrittenFault(h, sp.receipt, WrittenDocs(sp)).None?
  {
    hide AllOwned, LeafPart, Tags, MovesFault, BlockAddresses, Spread, DocsFault, Preimage, AllDistinct, NoRepeats,
        Addresses, FirstFault;
    SplitFacts(h, fatTemplate, fat, moves, sp);
    SameSpread(WrittenDocs(sp), DocAddresses, sp.leaves, LeafAddresses);
    LeavesKeepAddresses(h, fat, moves);
    ReadableFat(fat);
    var before, after := BlockAddresses(Blocks(fat)), Spread(sp.leaves, LeafAddresses);
    assert |before| == |multiset(before)| == |after|;
  }

  lemma VerifiedIsTheFatState(h: Hashes, fatTemplate: string, fat: State, moves: seq<StateMove>, sp: Split,
      leaves: seq<State>)
    requires SplitOf(h, fatTemplate, fat, moves) == Ok(sp)
    requires WrittenFault(h, sp.receipt, leaves).None? &&
            NoCollision(h, BlockAddresses(Blocks(fat)), Spread(leaves, DocAddresses))
    ensures multiset(Spread(leaves, DocAddresses)) == multiset(BlockAddresses(Blocks(fat)))
  {
    hide AllOwned, LeafPart, Tags, MovesFault, BlockAddresses, Spread, DocsFault, Preimage, AllDistinct, Addresses,
        InMemory;
    ReadableFat(fat);
    PreimageIsMultiset(BlockAddresses(Blocks(fat)), Spread(leaves, DocAddresses));
  }

  /** And, on leaves that can be read, exactly that is checked. */
  lemma VerifiedExactly(h: Hashes, fatTemplate: string, fat: State, moves: seq<StateMove>, sp: Split,
      leaves: seq<State>)
    requires SplitOf(h, fatTemplate, fat, moves) == Ok(sp)
    requires NoCollision(h, BlockAddresses(Blocks(fat)), Spread(leaves, DocAddresses))
    ensures WrittenFault(h, sp.receipt, leaves).None? <==>
              DocsFault(leaves).None? && multiset(Spread(leaves, DocAddresses)) == multiset(BlockAddresses(Blocks(fat)))
  {
    hide *;
    var before, after, written := BlockAddresses(Blocks(fat)), Spread(leaves, DocAddresses), WrittenDocs(sp);
    WrittenMeans(h, sp.receipt, leaves);
    WrittenMeans(h, sp.receipt, written);
    WrittenVerifies(h, fatTemplate, fat, moves, sp);
    SplitFacts(h, fatTemplate, fat, moves, sp);
    AddressesOfAllBlocks(written);
    AddressesAreTags(AllBlocks(written));
    AddressesAreTags(Blocks(fat));
    SameTagsSameAddresses(Tags(AllBlocks(written)), Tags(Blocks(fat)));
    if WrittenFault(h, sp.receipt, leaves).None? {
      VerifiedIsTheFatState(h, fatTemplate, fat, moves, sp, leaves);
    } else if multiset(after) == multiset(before) {
      NoRepeatsIsPermutable(Spread(written, DocAddresses), after);
      SameMultisetSamePreimage(Spread(written, DocAddresses), after);
      SameCount(Spread(written, DocAddresses), after);
    }
  }

  lemma WrittenMeans(h: Hashes, receipt: Receipt, leaves: seq<State>)
    ensures WrittenFault(h, receipt, leaves).None? <==>
              var after := Spread(leaves, DocAddresses);
              && DocsFault(leaves).None? && NoRepeats(after) && |after| == receipt.countBefore
              && h.ofBytes(Preimage(after)) == receipt.hashBefore
  {
    hide DocsFault, Spread, Preimage, AllDistinct, NoRepeats;
    DistinctMeansNoRepeats(Spread(leaves, DocAddresses));
  }

  // ----- which way `merge` takes ------------------------------------------------------------------------

  /** The last leaf of that name, which is the one that counts. */
  ghost predicate LastNamed(leaves: seq<LeafState>, name: string, j: int) {
    && 0 <= j < |leaves| && leaves[j].template == name
    && forall k :: j < k < |leaves| ==> leaves[k].template != name
  }

  lemma {:induction false} ByNameIs(leaves: seq<LeafState>, name: string)
    ensures name in ByName(leaves) <==> exists j :: LastNamed(leaves, name, j)
    ensures forall j :: LastNamed(leaves, name, j) ==> name in ByName(leaves) && ByName(leaves)[name] == leaves[j].doc
  {
    if leaves != [] {
      var front, n := leaves[..|leaves| - 1], |leaves| - 1;
      ByNameIs(front, name);
      if leaves[n].template == name {
        assert LastNamed(leaves, name, n);
      } else {
        assert forall j :: LastNamed(leaves, name, j) <==> LastNamed(front, name, j);
      }
    }
  }

  /** The first leaf of the receipt that nobody supplied is the one reported missing. */
  lemma MergeMissing(h: Hashes, archive: State, receipt: Receipt, leaves: seq<LeafState>, i: nat)
    requires i < |receipt.leaves|
    requires forall k :: 0 <= k < |leaves| ==> leaves[k].template != receipt.leaves[i].template
    requires forall j :: 0 <= j < i ==> exists k :: LastNamed(leaves, receipt.leaves[j].template, k)
    ensures MergeOf(h, archive, receipt, leaves) == Err(MissingLeaf(receipt.leaves[i].template))
  {
    var rs, docs := receipt.leaves, ByName(leaves);
    hide ByName, SlowMerge, Unchanged;
    assert rs[..i + 1][..i] == rs[..i];
    forall j | 0 <= j < i ensures rs[..i][j].template in docs { ByNameIs(leaves, rs[j].template); }
    NoneMissing(rs[..i], docs);
    ByNameIs(leaves, rs[i].template);
    MissingSticks(rs, docs, i + 1);
  }

  /** The document the receipt's `i`th leaf is read from. */
  ghost predicate Supplied(rs: seq<LeafReceipt>, leaves: seq<LeafState>, ds: seq<State>, i: int)
    requires |ds| == |rs|
  {
    0 <= i < |rs| && exists j :: LastNamed(leaves, rs[i].template, j) && ds[i] == leaves[j].doc
  }

  /** With every leaf there, the archive itself comes back exactly if it and every leaf still have the content hash of
      the receipt; in every other case the archive is refilled from the leaves, in the order of the receipt. */
  lemma MergeByHashes(h: Hashes, archive: State, receipt: Receipt, leaves: seq<LeafState>, ds: seq<State>)
    requires |ds| == |receipt.leaves| && forall i :: 0 <= i < |ds| ==> Supplied(receipt.leaves, leaves, ds, i)
    ensures var same := h.ofState(archive) == receipt.archiveHash &&
                forall i :: 0 <= i < |ds| ==> h.ofState(ds[i]) == receipt.leaves[i].contentHash;
            MergeOf(h, archive, receipt, leaves) == if same then Ok(archive) else SlowMerge(h, archive, ds)
  {
    var rs, docs := receipt.leaves, ByName(leaves);
    hide ByName, SlowMerge, FirstMissing;
    forall i | 0 <= i < |rs| ensures rs[i].template in docs && docs[rs[i].template] == ds[i] {
      assert Supplied(rs, leaves, ds, i);
      ByNameIs(leaves, rs[i].template);
    }
    NoneMissing(rs, docs);
    assert DocsOf(rs, docs) == ds;
  }

  /** So nothing that was changed in a leaf is lost: once a leaf or the archive differs from the receipt, the merged
      state holds the managed instances of the leaves as they are now, under the archive's own lineage, versions and
      outputs. */
  lemma ChangedLeavesSurvive(h: Hashes, archive: State, receipt: Receipt, leaves: seq<LeafState>, ds: seq<State>)
    requires |ds| == |receipt.leaves| && forall i :: 0 <= i < |ds| ==> Supplied(receipt.leaves, leaves, ds, i)
    requires h.ofState(archive) != receipt.archiveHash ||
             exists i :: 0 <= i < |ds| && h.ofState(ds[i]) != receipt.leaves[i].contentHash
    requires DocsFault(ds).None? && Addresses(archive).Ok? && NoRepeats(Spread(ds, DocAddresses))
    ensures var r := MergeOf(h, archive, receipt, leaves);
            && r.Ok? && multiset(Tags(Blocks(r.value))) == multiset(Tags(AllBlocks(ds)))
            && r.value.lineage == archive.lineage && r.value.outputs == archive.outputs
            && r.value.version == archive.version && r.value.terraformVersion == archive.terraformVersion
            && r.value.others == archive.others
  {
    hide *;
    MergeByHashes(h, archive, receipt, leaves, ds);
    SlowMergeAcceptsExactly(h, archive, ds);
    MergedBlocks(archive, ds);
    MergedTop(archive, ds);
    RefilledKeepsInstances(Blocks(archive), AllBlocks(ds));
  }

  lemma MergedTop(archive: State, ds: seq<State>)
    ensures var d := MergedDoc(archive, ds);
            && d.lineage == archive.lineage && d.outputs == archive.outputs && d.version == archive.version
            && d.terraformVersion == archive.terraformVersion && d.others == archive.others
  {
    hide Refilled, AllBlocks, MaxSerial;
  }

  /** A merged state never says that a module is null. */
  lemma NoNullModule(archive: seq<Block>, bs: seq<Block>)
    ensures forall x :: x in Refilled(archive, bs) ==> x.module_ != Null
  {
    hide Kept, Extras, DropNulls, FirstIds, ManagedIds;
    DropNullsMembers(Kept(archive, bs) + Extras(FirstIds(bs), ManagedIds(archive), bs));
  }
}
