/**
  `merge`: put the leaf states back into the archived fat state.  When nothing changed the
  archive itself comes back; otherwise its blocks are refilled from the leaves.
*/
module Merging {
  import opened Prelude
  import opened Ordering
  import opened Grouping
  import opened StateDoc
  import opened Splitting

  const U64_BOUND: nat := 0x1_0000_0000_0000_0000

  // ----- leaves by name ------------------------------------------------------------------

  type Docs = map<string, State>

  /** A later leaf of the same name replaces an earlier one. */
  function ByName(leaves: seq<LeafState>): Docs {
    if leaves == [] then map[]
    else ByName(leaves[..|leaves| - 1])[leaves[|leaves| - 1].template := leaves[|leaves| - 1].doc]
  }

  function FirstMissing(rs: seq<LeafReceipt>, docs: Docs): Option<string> {
    if rs == [] then None
    else if FirstMissing(rs[..|rs| - 1], docs).Some? then FirstMissing(rs[..|rs| - 1], docs)
    else if rs[|rs| - 1].template in docs then None else Some(rs[|rs| - 1].template)
  }

  lemma {:induction false} NoneMissing(rs: seq<LeafReceipt>, docs: Docs)
    ensures FirstMissing(rs, docs).None? <==> forall i :: 0 <= i < |rs| ==> rs[i].template in docs
  {
    if rs != [] { NoneMissing(rs[..|rs| - 1], docs); }
  }

  /** The documents of the receipt's leaves, in the receipt's order. */
  function DocsOf(rs: seq<LeafReceipt>, docs: Docs): (r: seq<State>)
    requires forall i :: 0 <= i < |rs| ==> rs[i].template in docs
    ensures |r| == |rs| && forall i :: 0 <= i < |rs| ==> r[i] == docs[rs[i].template]
  {
    seq(|rs|, i requires 0 <= i < |rs| => docs[rs[i].template])
  }

  predicate Unchanged(h: Hashes, rs: seq<LeafReceipt>, ds: seq<State>)
    requires |rs| == |ds|
  {
    forall i :: 0 <= i < |rs| ==> h.ofState(ds[i]) == rs[i].contentHash
  }

  // ----- gathering the leaves' blocks --------------------------------------------------------

  function DocFault(d: State): Option<SourceError> {
    match Addresses(d)
    case Err(e) => Some(e)
    case Ok(_) => None
  }

  function DocsFault(ds: seq<State>): Option<SourceError> {
    if ds == [] then None
    else if DocsFault(ds[..|ds| - 1]).Some? then DocsFault(ds[..|ds| - 1])
    else DocFault(ds[|ds| - 1])
  }

  function DocBlocks(d: State): seq<Block> { Blocks(d) }

  function AllBlocks(ds: seq<State>): seq<Block> { Spread(ds, DocBlocks) }

  function Max(a: nat, b: nat): nat { if a < b then b else a }

  function MaxSerial(start: nat, ds: seq<State>): nat {
    if ds == [] then start else Max(MaxSerial(start, ds[..|ds| - 1]), ds[|ds| - 1].serial)
  }

  function Ids(bs: seq<Block>): set<Id> { set b | b in bs :: BlockId(b) }

  /** All instances filed under an identity, in order. */
  function InstancesOf(bs: seq<Block>, id: Id): seq<Instance> { Spread(Having(bs, BlockId, {id}), Items) }

  /** The identities in order of first appearance. */
  function FirstIds(bs: seq<Block>): seq<Id> {
    if bs == [] then []
    else
      var front := FirstIds(bs[..|bs| - 1]);
      if BlockId(bs[|bs| - 1]) in front then front else front + [BlockId(bs[|bs| - 1])]
  }

  lemma {:induction false} FirstIdsMembers(bs: seq<Block>)
    ensures NoRepeats(FirstIds(bs)) && forall id :: id in FirstIds(bs) <==> id in Ids(bs)
  {
    hide BlockId;
    if bs != [] {
      var front, last := bs[..|bs| - 1], bs[|bs| - 1];
      FirstIdsMembers(front);
      assert bs == front + [last];
      assert Ids(bs) == Ids(front) + {BlockId(last)};
    }
  }

  /** The identities come in the order in which they are first seen. */
  lemma {:induction false} FirstIdsInOrder(bs: seq<Block>, i: nat, j: nat) returns (p: nat)
    requires i < j < |FirstIds(bs)|
    ensures p < |bs| && BlockId(bs[p]) == FirstIds(bs)[i]
    ensures forall q :: 0 <= q <= p ==> BlockId(bs[q]) != FirstIds(bs)[j]
  {
    hide BlockId;
    var front := bs[..|bs| - 1];
    if j < |FirstIds(front)| {
      p := FirstIdsInOrder(front, i, j);
    } else {
      FirstIdsMembers(front);
      assert FirstIds(front)[i] in Ids(front);
      var b :| b in front && BlockId(b) == FirstIds(front)[i];
      p :| 0 <= p < |front| && front[p] == b;
      forall q | 0 <= q <= p ensures BlockId(bs[q]) != FirstIds(bs)[j] { assert BlockId(front[q]) in Ids(front); }
    }
  }

  lemma InstancesStep(bs: seq<Block>, b: Block, id: Id)
    ensures InstancesOf(bs + [b], id) == InstancesOf(bs, id) + if BlockId(b) == id then Items(b) else []
  {
    hide Having, Spread, Items, BlockId;
    HavingStep(bs, b, BlockId, {id});
    if BlockId(b) == id {
      SpreadStep(Having(bs, BlockId, {id}), b, Items);
    } else {
      assert Having(bs, BlockId, {id}) + [] == Having(bs, BlockId, {id});
      assert InstancesOf(bs, id) + [] == InstancesOf(bs, id);
    }
  }

  lemma NoInstances_(id: Id)
    ensures InstancesOf([], id) == []
  {
  }

  lemma {:induction false} InstancesConcat(a: seq<Block>, b: seq<Block>, id: Id)
    ensures InstancesOf(a + b, id) == InstancesOf(a, id) + InstancesOf(b, id)
  {
    hide Having, Spread, Items, BlockId;
    HavingConcat(a, b, BlockId, {id});
    SpreadConcat(Having(a, BlockId, {id}), Having(b, BlockId, {id}), Items);
  }

  type Filed = map<Id, seq<Instance>>

  /** `filed` holds, for each identity among `bs`, its instances. */
  ghost predicate FiledOf(filed: Filed, bs: seq<Block>) { forall id :: FiledAt(filed, bs, id) }

  ghost predicate FiledAt(filed: Filed, bs: seq<Block>, id: Id) {
    (id in filed <==> id in Ids(bs)) && (id in filed ==> filed[id] == InstancesOf(bs, id))
  }

  lemma FiledStep(filed: Filed, bs: seq<Block>, b: Block)
    requires FiledOf(filed, bs)
    ensures FiledOf(filed[BlockId(b) := (if BlockId(b) in filed then filed[BlockId(b)] else []) + Items(b)], bs + [b])
  {
    hide BlockId, Items, InstancesOf;
    var k := BlockId(b);
    var filed' := filed[k := (if k in filed then filed[k] else []) + Items(b)];
    assert Ids(bs + [b]) == Ids(bs) + {k};
    forall id ensures FiledAt(filed', bs + [b], id) {
      InstancesStep(bs, b, id);
      assert FiledAt(filed, bs, id);
      assert InstancesOf(bs, id) + [] == InstancesOf(bs, id);
      if id == k && k !in filed { NoneFiled(bs, k); }
    }
  }

  lemma NoneFiled(bs: seq<Block>, id: Id)
    requires id !in Ids(bs)
    ensures InstancesOf(bs, id) == []
  {
    hide BlockId;
    forall b | b in bs ensures BlockId(b) != id { assert BlockId(b) in Ids(bs); }
    NoneHave(bs, BlockId, id);
  }

  /** File one document's blocks. */
  method FileBlocks(filed: Filed, order: seq<Id>, ghost before: seq<Block>, blocks: seq<Block>)
    returns (filed': Filed, order': seq<Id>)
    requires FiledOf(filed, before) && order == FirstIds(before)
    ensures FiledOf(filed', before + blocks) && order' == FirstIds(before + blocks)
  {
    hide *;
    filed', order' := filed, order;
    var j := 0;
    assert before + blocks[..0] == before;
    while j < |blocks|
      invariant 0 <= j <= |blocks|
      invariant FiledOf(filed', before + blocks[..j]) && order' == FirstIds(before + blocks[..j])
    {
      var b := blocks[j];
      var id := BlockId(b);
      ghost var done := before + blocks[..j];
      assert before + blocks[..j + 1] == done + [b];
      FirstIdsStep(done, b);
      FiledKeys(filed', done, id);
      if id !in filed' { order' := order' + [id]; }
      FiledStep(filed', done, b);
      filed' := filed'[id := (if id in filed' then filed'[id] else []) + Items(b)];
      j := j + 1;
    }
    assert blocks[..j] == blocks;
  }

  lemma FirstIdsStep(bs: seq<Block>, b: Block)
    ensures FirstIds(bs + [b]) == if BlockId(b) in Ids(bs) then FirstIds(bs) else FirstIds(bs) + [BlockId(b)]
  {
    hide BlockId, Ids;
    assert (bs + [b])[..|bs + [b]| - 1] == bs;
    FirstIdsMembers(bs);
  }

  lemma FiledKeys(filed: Filed, bs: seq<Block>, id: Id)
    requires FiledOf(filed, bs)
    ensures id in filed <==> id in Ids(bs)
    ensures id in filed ==> filed[id] == InstancesOf(bs, id)
  {
    hide InstancesOf, Ids;
    assert FiledAt(filed, bs, id);
  }

  function DocAddresses(d: State): seq<string> { BlockAddresses(Blocks(d)) }

  /** The first loop of the slow path: read every leaf, file its blocks. */
  method GatherLeaves(start: nat, ds: seq<State>) returns (r: Result<(Filed, seq<Id>, nat, seq<string>), SourceError>)
    ensures match DocsFault(ds)
            case Some(e) => r == Err(e)
            case None => r.Ok? && FiledOf(r.value.0, AllBlocks(ds)) && r.value.1 == FirstIds(AllBlocks(ds)) &&
                         r.value.2 == MaxSerial(start, ds) && r.value.3 == Spread(ds, DocAddresses)
  {
    var filed: Filed, order: seq<Id>, serial, expected: seq<string>, i := map[], [], start, [], 0;
    assert ds[..0] == [];
    hide FiledOf, Addresses, InstancesOf, BlockAddresses;
    NothingFiled();
    while i < |ds|
      invariant 0 <= i <= |ds|
      invariant DocsFault(ds[..i]) == None && serial == MaxSerial(start, ds[..i])
      invariant FiledOf(filed, AllBlocks(ds[..i])) && order == FirstIds(AllBlocks(ds[..i]))
      invariant expected == Spread(ds[..i], DocAddresses)
    {
      var d := ds[i];
      assert ds[..i + 1][..i] == ds[..i] && ds[..i + 1] == ds[..i] + [d];
      serial := Max(serial, d.serial);
      var read := AddressesFromState(d);
      if read.Err? {
        DocsFaultSticks(ds, i + 1);
        return Err(read.error);
      }
      ReadableFat(d);
      SpreadStep(ds[..i], d, DocAddresses);
      SpreadStep(ds[..i], d, DocBlocks);
      expected := expected + read.value;
      filed, order := FileBlocks(filed, order, AllBlocks(ds[..i]), Blocks(d));
      i := i + 1;
    }
    assert ds[..i] == ds;
    return Ok((filed, order, serial, expected));
  }

  lemma NothingFiled()
    ensures AllBlocks([]) == [] && FiledOf(map[], []) && FirstIds([]) == []
  {
    forall id ensures FiledAt(map[], [], id) {}
  }

  lemma {:induction false} DocsFaultSticks(ds: seq<State>, i: nat)
    requires i <= |ds| && DocsFault(ds[..i]).Some?
    ensures DocsFault(ds) == DocsFault(ds[..i])
    decreases |ds| - i
  {
    hide DocFault;
    if i == |ds| {
      assert ds[..i] == ds;
    } else {
      assert ds[..i + 1][..i] == ds[..i];
      DocsFaultSticks(ds, i + 1);
    }
  }

  // ----- refilling the archive -----------------------------------------------------------------

  /** The identities of the managed blocks. */
  function ManagedIds(bs: seq<Block>): set<Id> { set b | b in bs && IsManaged(b) :: BlockId(b) }

  /** What one archive block becomes, after the blocks `before` it. */
  function Refill(before: seq<Block>, b: Block, bs: seq<Block>): seq<Block> {
    if !IsManaged(b) then [b]
    else if BlockId(b) in Ids(bs) && BlockId(b) !in ManagedIds(before) then [WithItems(b, InstancesOf(bs, BlockId(b)))]
    else []
  }

  /** The archive's blocks with the leaves' instances: the first managed block of an identity takes them all. */
  function Kept(archive: seq<Block>, bs: seq<Block>): seq<Block> {
    if archive == [] then []
    else Kept(archive[..|archive| - 1], bs) + Refill(archive[..|archive| - 1], archive[|archive| - 1], bs)
  }

  function NewBlock(id: Id, items: seq<Instance>): Block {
    var module_ := if id.module_ == "" then Null else Text(id.module_);
    Block(module_, Text(id.mode), Text(id.ty), Text(id.name), "", List(items))
  }

  /** New blocks for the identities the archive does not have. */
  function Extras(order: seq<Id>, taken: set<Id>, bs: seq<Block>): seq<Block> {
    if order == [] then []
    else
      var front, id := Extras(order[..|order| - 1], taken, bs), order[|order| - 1];
      if id in taken then front else front + [NewBlock(id, InstancesOf(bs, id))]
  }

  function DropNull(b: Block): Block { if b.module_.Null? then b.(module_ := Missing) else b }

  function DropNulls(bs: seq<Block>): seq<Block> {
    if bs == [] then [] else DropNulls(bs[..|bs| - 1]) + [DropNull(bs[|bs| - 1])]
  }

  function Refilled(archive: seq<Block>, bs: seq<Block>): seq<Block> {
    DropNulls(Kept(archive, bs) + Extras(FirstIds(bs), ManagedIds(archive), bs))
  }

  /** `filed` still holds what no managed block of `archive` has taken. */
  ghost predicate LeftOver(filed: Filed, bs: seq<Block>, archive: seq<Block>) {
    forall id :: LeftAt(filed, bs, archive, id)
  }

  ghost predicate LeftAt(filed: Filed, bs: seq<Block>, archive: seq<Block>, id: Id) {
    (id in filed <==> id in Ids(bs) && id !in ManagedIds(archive)) && (id in filed ==> filed[id] == InstancesOf(bs, id))
  }

  lemma LeftOverAt(filed: Filed, bs: seq<Block>, archive: seq<Block>, id: Id)
    requires LeftOver(filed, bs, archive)
    ensures id in filed <==> id in Ids(bs) && id !in ManagedIds(archive)
    ensures id in filed ==> filed[id] == InstancesOf(bs, id)
  {
    hide InstancesOf, Ids, ManagedIds;
    assert LeftAt(filed, bs, archive, id);
  }

  lemma ManagedIdsStep(archive: seq<Block>, b: Block)
    ensures ManagedIds(archive + [b]) == ManagedIds(archive) + if IsManaged(b) then {BlockId(b)} else {}
  {
    hide BlockId, IsManaged;
  }

  lemma LeftOverStep(filed: Filed, bs: seq<Block>, archive: seq<Block>, b: Block)
    requires LeftOver(filed, bs, archive)
    ensures LeftOver(if IsManaged(b) then filed - {BlockId(b)} else filed, bs, archive + [b])
  {
    hide BlockId, IsManaged, InstancesOf, Ids, ManagedIds;
    ManagedIdsStep(archive, b);
    var filed' := if IsManaged(b) then filed - {BlockId(b)} else filed;
    forall id ensures LeftAt(filed', bs, archive + [b], id) { assert LeftAt(filed, bs, archive, id); }
  }

  lemma KeptStep(archive: seq<Block>, k: nat, bs: seq<Block>)
    requires k < |archive|
    ensures Kept(archive[..k + 1], bs) == Kept(archive[..k], bs) + Refill(archive[..k], archive[k], bs)
  {
    hide Refill;
    assert archive[..k + 1][..k] == archive[..k];
  }

  method KeepArchive(archive: seq<Block>, ghost bs: seq<Block>, filed: Filed) returns (out: seq<Block>, filed': Filed)
    requires FiledOf(filed, bs)
    ensures out == Kept(archive, bs) && LeftOver(filed', bs, archive)
  {
    hide *;
    out, filed' := [], filed;
    var k := 0;
    assert archive[..0] == [];
    NothingTaken(filed, bs);
    while k < |archive|
      invariant 0 <= k <= |archive|
      invariant out == Kept(archive[..k], bs) && LeftOver(filed', bs, archive[..k])
    {
      var b := archive[k];
      assert archive[..k + 1] == archive[..k] + [b];
      KeptStep(archive, k, bs);
      LeftOverStep(filed', bs, archive[..k], b);
      LeftOverAt(filed', bs, archive[..k], BlockId(b));
      RefillIs(archive[..k], b, bs);
      if !IsManaged(b) {
        out := out + [b];
      } else {
        var id := BlockId(b);
        if id in filed' {
          out := out + [WithItems(b, filed'[id])];
        } else {
          assert out + [] == out;
        }
        filed' := filed' - {id};
      }
      k := k + 1;
    }
    assert archive[..k] == archive;
  }

  lemma RefillIs(before: seq<Block>, b: Block, bs: seq<Block>)
    ensures Refill(before, b, bs) ==
            if !IsManaged(b) then [b]
            else if BlockId(b) in Ids(bs) &&
                BlockId(b) !in ManagedIds(before) then [WithItems(b, InstancesOf(bs, BlockId(b)))]
            else []
  {
  }

  lemma NothingTaken(filed: Filed, bs: seq<Block>)
    requires FiledOf(filed, bs)
    ensures LeftOver(filed, bs, []) && Kept([], bs) == []
  {
    hide InstancesOf, Ids;
    forall id ensures LeftAt(filed, bs, [], id) { assert FiledAt(filed, bs, id); }
  }

  method AddExtras(out: seq<Block>, order: seq<Id>, ghost bs: seq<Block>, ghost archive: seq<Block>, filed: Filed)
      returns (r: seq<Block>)
    requires LeftOver(filed, bs, archive) && order == FirstIds(bs)
    ensures r == out + Extras(order, ManagedIds(archive), bs)
  {
    hide *;
    NothingAdded(order, ManagedIds(archive), bs, filed);
    assert out + [] == out;
    r := out;
    var rest, i := filed, 0;
    FirstIdsMembers(bs);
    while i < |order|
      invariant 0 <= i <= |order|
      invariant r == out + Extras(order[..i], ManagedIds(archive), bs)
      invariant forall j :: i <= j < |order| ==> Still(rest, filed, order[j])
    {
      var id := order[i];
      assert Still(rest, filed, order[i]);
      LeftOverAt(filed, bs, archive, id);
      ExtrasStep(order, i, ManagedIds(archive), bs);
      AtOnce(order, i);
      assert id in order;
      StillIs(rest, filed, id);
      if id in rest {
        r := r + [NewBlock(id, rest[id])];
      }
      forall j | i < j < |order| ensures Still(rest - {id}, filed, order[j]) { StillThere(rest, filed, id, order[j]); }
      rest := rest - {id};
      i := i + 1;
    }
    assert order[..i] == order;
  }

  lemma NothingAdded(order: seq<Id>, taken: set<Id>, bs: seq<Block>, filed: Filed)
    ensures Extras(order[..0], taken, bs) == [] && forall j :: 0 <= j < |order| ==> Still(filed, filed, order[j])
  {
  }

  /** The entry of `id` has not been taken. */
  ghost predicate Still(rest: Filed, filed: Filed, id: Id) {
    (id in rest <==> id in filed) && (id in rest ==> rest[id] == filed[id])
  }

  lemma StillIs(rest: Filed, filed: Filed, id: Id)
    requires Still(rest, filed, id)
    ensures (id in rest <==> id in filed) && (id in rest ==> rest[id] == filed[id])
  {
  }

  lemma StillThere(rest: Filed, filed: Filed, id: Id, other: Id)
    requires Still(rest, filed, other) && other != id
    ensures Still(rest - {id}, filed, other)
  {
  }

  lemma AtOnce(order: seq<Id>, i: nat)
    requires NoRepeats(order) && i < |order|
    ensures forall j :: i < j < |order| ==> order[j] != order[i]
  {
  }

  lemma ExtrasStep(order: seq<Id>, i: nat, taken: set<Id>, bs: seq<Block>)
    requires i < |order|
    ensures order[i] in taken ==> Extras(order[..i + 1], taken, bs) == Extras(order[..i], taken, bs)
    ensures order[i] !in taken ==>
            Extras(order[..i + 1], taken, bs) ==
            Extras(order[..i], taken, bs) + [NewBlock(order[i], InstancesOf(bs, order[i]))]
  {
    hide InstancesOf, NewBlock;
    assert order[..i + 1][..i] == order[..i];
  }

  method DropAll(bs: seq<Block>) returns (r: seq<Block>)
    ensures r == DropNulls(bs)
  {
    hide DropNull;
    r := [];
    var i := 0;
    while i < |bs|
      invariant 0 <= i <= |bs| && r == DropNulls(bs[..i])
    {
      assert bs[..i + 1][..i] == bs[..i];
      r := r + [DropNull(bs[i])];
      i := i + 1;
    }
    assert bs[..i] == bs;
  }

  // ----- the whole of `merge` ---------------------------------------------------------------------

  function NextSerial(n: nat): nat { (n + 1) % U64_BOUND }

  function MergedDoc(archive: State, ds: seq<State>): State {
    archive.(serial := NextSerial(MaxSerial(archive.serial, ds)),
        resources := Some(Refilled(Blocks(archive), AllBlocks(ds))))
  }

  /** The slow path, on the documents of the receipt's leaves. */
  function SlowMerge(h: Hashes, archive: State, ds: seq<State>): Result<State, MigrateError> {
    match DocsFault(ds)
    case Some(e) => Err(Source(e))
    case None =>
      if archive.resources.None? then Err(Source(NoResources))
      else
        var doc := MergedDoc(archive, ds);
        match Addresses(doc)
        case Err(e) => Err(Source(e))
        case Ok(merged) => if Bijection(h, Spread(ds, DocAddresses), merged).ok then Ok(doc) else Err(BijectionRefused)
  }

  /** What `merge` returns. */
  function MergeOf(h: Hashes, archive: State, receipt: Receipt, leaves: seq<LeafState>): Result<State, MigrateError> {
    var docs := ByName(leaves);
    match FirstMissing(receipt.leaves, docs)
    case Some(name) => Err(MissingLeaf(name))
    case None =>
      NoneMissing(receipt.leaves, docs);
      var ds := DocsOf(receipt.leaves, docs);
      if Unchanged(h, receipt.leaves, ds) && h.ofState(archive) == receipt.archiveHash then Ok(archive)
      else SlowMerge(h, archive, ds)
  }

  method IndexByName(leaves: seq<LeafState>) returns (docs: Docs)
    ensures docs == ByName(leaves)
  {
    docs := map[];
    var i := 0;
    while i < |leaves|
      invariant 0 <= i <= |leaves| && docs == ByName(leaves[..i])
    {
      assert leaves[..i + 1][..i] == leaves[..i];
      docs := docs[leaves[i].template := leaves[i].doc];
      i := i + 1;
    }
    assert leaves[..i] == leaves;
  }

  method CheckPresent(rs: seq<LeafReceipt>, docs: Docs) returns (r: Option<string>)
    ensures r == FirstMissing(rs, docs)
  {
    var i := 0;
    while i < |rs|
      invariant 0 <= i <= |rs| && FirstMissing(rs[..i], docs) == None
    {
      assert rs[..i + 1][..i] == rs[..i];
      if rs[i].template !in docs {
        MissingSticks(rs, docs, i + 1);
        return Some(rs[i].template);
      }
      i := i + 1;
    }
    assert rs[..i] == rs;
    return None;
  }

  lemma {:induction false} MissingSticks(rs: seq<LeafReceipt>, docs: Docs, i: nat)
    requires i <= |rs| && FirstMissing(rs[..i], docs).Some?
    ensures FirstMissing(rs, docs) == FirstMissing(rs[..i], docs)
    decreases |rs| - i
  {
    if i == |rs| {
      assert rs[..i] == rs;
    } else {
      assert rs[..i + 1][..i] == rs[..i];
      MissingSticks(rs, docs, i + 1);
    }
  }

  method MergeStates(h: Hashes, archive: State, receipt: Receipt, leaves: seq<LeafState>)
      returns (r: Result<State, MigrateError>)
    ensures r == MergeOf(h, archive, receipt, leaves)
  {
    hide ByName, FirstMissing, Unchanged, SlowMerge;
    var docs := IndexByName(leaves);
    var missing := CheckPresent(receipt.leaves, docs);
    if missing.Some? { return Err(MissingLeaf(missing.value)); }
    NoneMissing(receipt.leaves, docs);
    var ds := DocsOf(receipt.leaves, docs);
    if Unchanged(h, receipt.leaves, ds) && h.ofState(archive) == receipt.archiveHash { return Ok(archive); }
    r := RefillArchive(h, archive, ds);
  }

  method RefillArchive(h: Hashes, archive: State, ds: seq<State>) returns (r: Result<State, MigrateError>)
    ensures r == SlowMerge(h, archive, ds)
  {
    hide DocsFault, FiledOf, FirstIds, MaxSerial, Spread, Addresses, Bijection, LeftOver, Kept, Extras, DropNulls,
        ManagedIds;
    var gathered := GatherLeaves(archive.serial, ds);
    if gathered.Err? { return Err(Source(gathered.error)); }
    var (filed, order, serial, expected) := gathered.value;
    if archive.resources.None? { return Err(Source(NoResources)); }
    var out, rest := KeepArchive(Blocks(archive), AllBlocks(ds), filed);
    out := AddExtras(out, order, AllBlocks(ds), Blocks(archive), rest);
    out := DropAll(out);
    var doc := archive.(serial := NextSerial(serial), resources := Some(out));
    var merged := AddressesFromState(doc);
    if merged.Err? { return Err(Source(merged.error)); }
    if !Bijection(h, expected, merged.value).ok { return Err(BijectionRefused); }
    return Ok(doc);
  }
}
