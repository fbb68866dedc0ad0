/**
  `split`: cut a fat state into one leaf state per move.  The hashes are arbitrary functions:
  nothing below depends on what they compute.
*/
module Splitting {
  import opened Prelude
  import opened Ordering
  import opened Grouping
  import opened StateDoc
  import opened AddressDigest

  /** blake3 over bytes, the lineage derived from it, and the content hash of a written document. */
  datatype Hashes = Hashes(ofBytes: seq<byte> -> string, lineage: (string, string) -> string, ofState: State -> string)

  datatype StateMove = StateMove(
    fromTemplate: string, toTemplate: string, pangeaNamespace: Option<string>, addresses: seq<string>)

  datatype MigrateError =
    | Source(error: SourceError)
    | NoMoves
    | DuplicateLeaf(leaf: string)
    | WrongSource(fat: string, named: string, leaf: string)
    | BijectionRefused
    | MissingLeaf(leaf: string)

  datatype LeafReceipt = LeafReceipt(template: string, addresses: nat, contentHash: string)

  datatype Direction = Forward | Reversed

  datatype Receipt = Receipt(
    fatTemplate: string, direction: Direction, fatLineage: string, fatSerial: nat, archiveHash: string,
    countBefore: nat, countAfter: nat, hashBefore: string, hashAfter: string, disjoint: bool,
    leaves: seq<LeafReceipt>)

  datatype LeafState = LeafState(template: string, doc: State)

  datatype Split = Split(leaves: seq<LeafState>, receipt: Receipt)

  // ----- the checks ---------------------------------------------------------------------------

  datatype Check = Check(hashBefore: string, hashAfter: string, disjoint: bool, ok: bool)

  function Bijection(h: Hashes, before: seq<string>, after: seq<string>): Check {
    var hb, ha := MultisetHash(h.ofBytes, before), MultisetHash(h.ofBytes, after);
    var disjoint := AllDistinct(after);
    Check(hb, ha, disjoint, disjoint && hb == ha)
  }

  function Targets(moves: seq<StateMove>): set<string> { set m | m in moves :: m.toTemplate }

  function MoveFault(fat: string, moves: seq<StateMove>): Option<MigrateError> {
    if moves == [] then None
    else
      var front, m := moves[..|moves| - 1], moves[|moves| - 1];
      if MoveFault(fat, front).Some? then MoveFault(fat, front)
      else if m.fromTemplate != fat then Some(WrongSource(fat, m.fromTemplate, m.toTemplate))
      else if m.toTemplate in Targets(front) then Some(DuplicateLeaf(m.toTemplate))
      else None
  }

  function MovesFault(fat: string, moves: seq<StateMove>): Option<MigrateError> {
    if moves == [] then Some(NoMoves) else MoveFault(fat, moves)
  }

  lemma {:induction false} MoveFaultSticks(fat: string, moves: seq<StateMove>, i: nat)
    requires i <= |moves| && MoveFault(fat, moves[..i]).Some?
    ensures MoveFault(fat, moves) == MoveFault(fat, moves[..i])
    decreases |moves| - i
  {
    if i == |moves| {
      assert moves[..i] == moves;
    } else {
      assert moves[..i + 1][..i] == moves[..i];
      MoveFaultSticks(fat, moves, i + 1);
    }
  }

  method CheckMoves(fat: string, moves: seq<StateMove>) returns (r: Option<MigrateError>)
    ensures r == MovesFault(fat, moves)
  {
    if moves == [] { return Some(NoMoves); }
    var seen: set<string>, i := {}, 0;
    while i < |moves|
      invariant 0 <= i <= |moves|
      invariant MoveFault(fat, moves[..i]) == None && seen == Targets(moves[..i])
    {
      var m := moves[i];
      assert moves[..i + 1][..i] == moves[..i];
      if m.fromTemplate != fat {
        MoveFaultSticks(fat, moves, i + 1);
        return Some(WrongSource(fat, m.fromTemplate, m.toTemplate));
      }
      if m.toTemplate in seen {
        MoveFaultSticks(fat, moves, i + 1);
        return Some(DuplicateLeaf(m.toTemplate));
      }
      TargetsStep(moves, i);
      seen := seen + {m.toTemplate};
      i := i + 1;
    }
    assert moves[..i] == moves;
    return None;
  }

  lemma TargetsStep(moves: seq<StateMove>, i: nat)
    requires i < |moves|
    ensures Targets(moves[..i + 1]) == Targets(moves[..i]) + {moves[i].toTemplate}
  {
    assert moves[..i + 1] == moves[..i] + [moves[i]];
  }

  /** The move check passes exactly on a non-empty list of moves from the fat template to distinct leaves. */
  lemma {:induction false} MovesOkExactly(fat: string, moves: seq<StateMove>)
    ensures MoveFault(fat, moves).None? <==>
              (forall i :: 0 <= i < |moves| ==> moves[i].fromTemplate == fat) &&
              (forall i, j :: 0 <= i < j < |moves| ==> moves[i].toTemplate != moves[j].toTemplate)
  {
    hide Targets;
    if moves != [] {
      var front, m := moves[..|moves| - 1], moves[|moves| - 1];
      assert forall i :: 0 <= i < |front| ==> front[i] == moves[i];
      MovesOkExactly(fat, front);
      InTargets(front, m.toTemplate);
    }
  }

  /** The first faulty move decides the error: a wrong source before a target already taken. */
  lemma {:induction false} FirstFaultyMove(fat: string, moves: seq<StateMove>, i: nat)
    requires i < |moves|
    requires forall j :: 0 <= j < i ==> moves[j].fromTemplate == fat
    requires forall j, k :: 0 <= j < k < i ==> moves[j].toTemplate != moves[k].toTemplate
    ensures moves[i].fromTemplate != fat ==>
              MovesFault(fat, moves) == Some(WrongSource(fat, moves[i].fromTemplate, moves[i].toTemplate))
    ensures moves[i].fromTemplate == fat && (exists j :: 0 <= j < i && moves[j].toTemplate == moves[i].toTemplate) ==>
              MovesFault(fat, moves) == Some(DuplicateLeaf(moves[i].toTemplate))
    ensures MovesFault(fat, []) == Some(NoMoves)
  {
    var front, upto := moves[..i], moves[..i + 1];
    assert upto[..i] == front;
    MovesOkExactly(fat, front);
    InTargets(front, moves[i].toTemplate);
    hide Targets;
    if j :| 0 <= j < i && moves[j].toTemplate == moves[i].toTemplate { assert front[j] == moves[j]; }
    if MoveFault(fat, upto).Some? { MoveFaultSticks(fat, moves, i + 1); }
  }

  lemma InTargets(moves: seq<StateMove>, t: string)
    ensures t in Targets(moves) <==> exists i :: 0 <= i < |moves| && moves[i].toTemplate == t
  {
    if i :| 0 <= i < |moves| && moves[i].toTemplate == t { assert moves[i] in moves; }
  }

  // ----- owners -------------------------------------------------------------------------------

  function MoveAddresses(m: StateMove): seq<string> { m.addresses }

  function Claimed(moves: seq<StateMove>): seq<string> { Spread(moves, MoveAddresses) }

  /** The move that claims an address; the last one if several do. */
  function OwnerOf(moves: seq<StateMove>, a: string): Option<nat> {
    if moves == [] then None
    else if a in moves[|moves| - 1].addresses then Some(|moves| - 1)
    else OwnerOf(moves[..|moves| - 1], a)
  }

  lemma {:induction false} OwnerClaims(moves: seq<StateMove>, a: string)
    ensures match OwnerOf(moves, a)
            case Some(i) => i < |moves| && a in moves[i].addresses
            case None => forall i :: 0 <= i < |moves| ==> a !in moves[i].addresses
  {
    if moves != [] { OwnerClaims(moves[..|moves| - 1], a); }
  }

  lemma OwnedIfClaimed(moves: seq<StateMove>, a: string)
    requires a in Claimed(moves)
    ensures OwnerOf(moves, a).Some?
  {
    hide OwnerOf, Spread;
    OwnerClaims(moves, a);
    SpreadMembers(moves, MoveAddresses);
    var i :| 0 <= i < |moves| && a in MoveAddresses(moves[i]);
  }

  type Owners = map<string, nat>

  ghost predicate OwnersOf(owner: Owners, moves: seq<StateMove>) {
    forall a :: (a in owner <==> OwnerOf(moves, a).Some?) && (a in owner ==> Some(owner[a]) == OwnerOf(moves, a))
  }

  method CollectOwners(moves: seq<StateMove>) returns (owner: Owners)
    ensures OwnersOf(owner, moves)
  {
    owner := map[];
    var i := 0;
    while i < |moves|
      invariant 0 <= i <= |moves| && OwnersOf(owner, moves[..i])
    {
      var add := moves[i].addresses;
      ghost var before := owner;
      var j := 0;
      while j < |add|
        invariant 0 <= j <= |add|
        invariant forall a :: a in owner <==> a in before || a in add[..j]
        invariant forall a :: a in owner ==> owner[a] == if a in add[..j] then i else before[a]
      {
        assert add[..j + 1] == add[..j] + [add[j]];
        owner := owner[add[j] := i];
        j := j + 1;
      }
      assert add[..j] == add;
      assert moves[..i + 1][..i] == moves[..i];
      i := i + 1;
    }
    assert moves[..i] == moves;
  }

  // ----- buckets --------------------------------------------------------------------------------

  function InstanceOwner(moves: seq<StateMove>, id: Id): Instance -> Option<nat> {
    inst => OwnerOf(moves, InstanceAddress(BaseOf(id), inst))
  }

  function TagOwner(moves: seq<StateMove>): Tagged -> Option<nat> { t => OwnerOf(moves, TagAddress(t)) }

  /** The instances of one block that belong to leaf `i`. */
  function Bucket(moves: seq<StateMove>, id: Id, items: seq<Instance>, i: nat): seq<Instance> {
    Having(items, InstanceOwner(moves, id), {Some(i)})
  }

  /** The part of one block that goes to leaf `i`; nothing when no instance does. */
  function BlockPart(moves: seq<StateMove>, b: Block, i: nat): seq<Block> {
    if IsManaged(b) && Bucket(moves, BlockId(b), Items(b), i) != []
    then [WithItems(b, Bucket(moves, BlockId(b), Items(b), i))]
    else []
  }

  /** The blocks of leaf `i`. */
  function LeafPart(moves: seq<StateMove>, bs: seq<Block>, i: nat): seq<Block> {
    if bs == [] then [] else LeafPart(moves, bs[..|bs| - 1], i) + BlockPart(moves, bs[|bs| - 1], i)
  }

  ghost predicate AllOwned(moves: seq<StateMove>, ts: seq<Tagged>) {
    forall t :: t in ts ==> TagOwner(moves)(t).Some?
  }

  lemma AllOwnedConcat(moves: seq<StateMove>, a: seq<Tagged>, b: seq<Tagged>)
    ensures AllOwned(moves, a + b) <==> AllOwned(moves, a) && AllOwned(moves, b)
  {
    hide TagOwner;
    assert forall t :: t in a + b <==> t in a || t in b;
  }

  type Buckets = map<nat, seq<Instance>>

  /** `buckets` holds exactly the non-empty buckets of `items`. */
  ghost predicate BucketsOf(moves: seq<StateMove>, id: Id, items: seq<Instance>, buckets: Buckets) {
    forall i: nat {:trigger Bucket(moves, id, items, i)} ::
      (i in buckets <==> Bucket(moves, id, items, i) != []) &&
          (i in buckets ==> buckets[i] == Bucket(moves, id, items, i))
  }

  lemma BucketsStep(moves: seq<StateMove>, id: Id, items: seq<Instance>, buckets: Buckets, inst: Instance, i: nat)
    requires BucketsOf(moves, id, items, buckets) && InstanceOwner(moves, id)(inst) == Some(i)
    ensures BucketsOf(moves, id, items + [inst], buckets[i := (if i in buckets then buckets[i] else []) + [inst]])
  {
    hide InstanceOwner, Having;
    forall k: nat ensures Bucket(moves, id, items + [inst], k) == Bucket(moves, id, items, k) + if k == i then [inst]
        else [] {
      HavingStep(items, inst, InstanceOwner(moves, id), {Some(k)});
    }
  }

  lemma TagAllStep(id: Id, items: seq<Instance>, inst: Instance)
    ensures TagAll(id, items + [inst]) == TagAll(id, items) + [Tagged(id, inst)]
  {
    assert (items + [inst])[..|items + [inst]| - 1] == items;
  }

  /** The inner loop of `split`: sort the instances of one block by owner. */
  method FillBuckets(moves: seq<StateMove>, owner: Owners, id: Id, items: seq<Instance>) returns (r: Option<Buckets>)
    requires OwnersOf(owner, moves)
    ensures r.Some? <==> AllOwned(moves, TagAll(id, items))
    ensures r.Some? ==> BucketsOf(moves, id, items, r.value)
  {
    var buckets: Buckets, j := map[], 0;
    assert items[..0] == [];
    hide InstanceOwner, OwnerOf, TagAddress, AllOwned;
    NoTagsOwned(moves, id);
    while j < |items|
      invariant 0 <= j <= |items|
      invariant AllOwned(moves, TagAll(id, items[..j])) && BucketsOf(moves, id, items[..j], buckets)
    {
      hide Bucket, BucketsOf;
      var inst := items[j];
      var addr := InstanceAddress(BaseOf(id), inst);
      OwnedStep(moves, id, items, j);
      if addr !in owner {
        UnownedSticks(moves, id, items, j + 1);
        return None;
      }
      var i := owner[addr];
      BucketsStep(moves, id, items[..j], buckets, inst, i);
      buckets := buckets[i := (if i in buckets then buckets[i] else []) + [inst]];
      assert items[..j] + [inst] == items[..j + 1];
      j := j + 1;
    }
    assert items[..j] == items;
    return Some(buckets);
  }

  lemma NoTagsOwned(moves: seq<StateMove>, id: Id)
    ensures AllOwned(moves, TagAll(id, [])) && BucketsOf(moves, id, [], map[])
  {
  }

  lemma OwnedStep(moves: seq<StateMove>, id: Id, items: seq<Instance>, j: nat)
    requires j < |items| && AllOwned(moves, TagAll(id, items[..j]))
    ensures InstanceOwner(moves, id)(items[j]) == OwnerOf(moves, InstanceAddress(BaseOf(id), items[j]))
    ensures AllOwned(moves, TagAll(id, items[..j + 1])) <==> OwnerOf(moves, InstanceAddress(BaseOf(id), items[j])).Some?
  {
    hide OwnerOf;
    assert items[..j + 1] == items[..j] + [items[j]];
    TagAllStep(id, items[..j], items[j]);
    AllOwnedConcat(moves, TagAll(id, items[..j]), [Tagged(id, items[j])]);
    assert Tagged(id, items[j]) in [Tagged(id, items[j])];
  }

  lemma {:induction false} UnownedSticks(moves: seq<StateMove>, id: Id, items: seq<Instance>, j: nat)
    requires j <= |items| && !AllOwned(moves, TagAll(id, items[..j]))
    ensures !AllOwned(moves, TagAll(id, items))
    decreases |items| - j
  {
    hide AllOwned;
    if j == |items| {
      assert items[..j] == items;
    } else {
      assert items[..j + 1] == items[..j] + [items[j]];
      TagAllStep(id, items[..j], items[j]);
      AllOwnedConcat(moves, TagAll(id, items[..j]), [Tagged(id, items[j])]);
      UnownedSticks(moves, id, items, j + 1);
    }
  }

  /** Add one block's buckets to the leaves under construction. */
  method PushBuckets(per: seq<seq<Block>>, b: Block, buckets: Buckets) returns (r: seq<seq<Block>>)
    requires forall i :: i in buckets ==> i < |per|
    ensures |r| == |per|
    ensures forall i :: 0 <= i < |per| ==> r[i] == per[i] + if i in buckets then [WithItems(b, buckets[i])] else []
  {
    r := per;
    var todo := buckets.Keys;
    while todo != {}
      invariant todo <= buckets.Keys && |r| == |per|
      invariant forall i :: 0 <= i < |per| ==>
          r[i] == per[i] + if i in buckets && i !in todo then [WithItems(b, buckets[i])] else []
      decreases |todo|
    {
      var i :| i in todo;
      r := r[i := r[i] + [WithItems(b, buckets[i])]];
      todo := todo - {i};
    }
  }

  lemma LeafPartStep(moves: seq<StateMove>, bs: seq<Block>, k: nat, i: nat)
    requires k < |bs|
    ensures LeafPart(moves, bs[..k + 1], i) == LeafPart(moves, bs[..k], i) + BlockPart(moves, bs[k], i)
  {
    assert bs[..k + 1][..k] == bs[..k];
  }

  lemma TagsStep(bs: seq<Block>, k: nat)
    requires k < |bs|
    ensures Tags(bs[..k + 1]) == Tags(bs[..k]) + if IsManaged(bs[k]) then TagAll(BlockId(bs[k]), Items(bs[k])) else []
  {
    assert bs[..k + 1][..k] == bs[..k];
  }

  lemma {:induction false} UnownedBlockSticks(moves: seq<StateMove>, bs: seq<Block>, k: nat)
    requires k <= |bs| && !AllOwned(moves, Tags(bs[..k]))
    ensures !AllOwned(moves, Tags(bs))
    decreases |bs| - k
  {
    hide AllOwned, Tags;
    if k == |bs| {
      assert bs[..k] == bs;
    } else {
      TagsStep(bs, k);
      AllOwnedConcat(moves, Tags(bs[..k]), if IsManaged(bs[k]) then TagAll(BlockId(bs[k]), Items(bs[k])) else []);
      UnownedBlockSticks(moves, bs, k + 1);
    }
  }

  lemma BucketMember(moves: seq<StateMove>, id: Id, items: seq<Instance>, i: nat, inst: Instance)
    requires inst in Bucket(moves, id, items, i)
    ensures inst in items && OwnerOf(moves, InstanceAddress(BaseOf(id), inst)) == Some(i)
  {
    hide OwnerOf;
    var mine: set<Option<nat>> := {Some(i)};
    HavingMembers(items, InstanceOwner(moves, id), mine);
    assert InstanceOwner(moves, id)(inst) in mine;
  }

  lemma BucketsInRange(moves: seq<StateMove>, id: Id, items: seq<Instance>, buckets: Buckets)
    requires BucketsOf(moves, id, items, buckets)
    ensures forall i :: i in buckets ==> i < |moves|
  {
    hide OwnerOf, Having;
    forall i | i in buckets ensures i < |moves| {
      var part := Bucket(moves, id, items, i);
      assert part != [];
      var inst := part[0];
      assert inst in part;
      BucketMember(moves, id, items, i, inst);
      OwnerClaims(moves, InstanceAddress(BaseOf(id), inst));
    }
  }

  /** One block's parts, as its buckets. */
  lemma BucketsAreParts(moves: seq<StateMove>, b: Block, buckets: Buckets, i: nat)
    requires IsManaged(b) && BucketsOf(moves, BlockId(b), Items(b), buckets)
    ensures BlockPart(moves, b, i) == if i in buckets then [WithItems(b, buckets[i])] else []
  {
    hide Bucket;
    var part := Bucket(moves, BlockId(b), Items(b), i);
  }

  /** The outer loop of `split`: distribute the managed blocks over the leaves. */
  method Distribute(moves: seq<StateMove>, bs: seq<Block>) returns (r: Option<seq<seq<Block>>>)
    ensures r.Some? <==> AllOwned(moves, Tags(bs))
    ensures r.Some? ==> |r.value| == |moves| && forall i :: 0 <= i < |moves| ==> r.value[i] == LeafPart(moves, bs, i)
  {
    hide OwnersOf, AllOwned, Tags, TagAll, BlockPart, BucketsOf;
    var owner := CollectOwners(moves);
    var per: seq<seq<Block>> := seq(|moves|, _ => []);
    var k := 0;
    assert bs[..0] == [];
    NothingDistributed(moves);
    while k < |bs|
      invariant 0 <= k <= |bs| && |per| == |moves|
      invariant AllOwned(moves, Tags(bs[..k]))
      invariant forall i :: 0 <= i < |moves| ==> per[i] == LeafPart(moves, bs[..k], i)
    {
      hide LeafPart;
      var b := bs[k];
      TagsStep(bs, k);
      AllOwnedConcat(moves, Tags(bs[..k]), if IsManaged(b) then TagAll(BlockId(b), Items(b)) else []);
      if IsManaged(b) {
        var filled := FillBuckets(moves, owner, BlockId(b), Items(b));
        if filled.None? {
          UnownedBlockSticks(moves, bs, k + 1);
          return None;
        }
        BucketsInRange(moves, BlockId(b), Items(b), filled.value);
        ghost var before := per;
        per := PushBuckets(per, b, filled.value);
        forall i | 0 <= i < |moves| ensures per[i] == LeafPart(moves, bs[..k + 1], i) {
          LeafPartStep(moves, bs, k, i);
          BucketsAreParts(moves, b, filled.value, i);
        }
      } else {
        forall i | 0 <= i < |moves| ensures per[i] == LeafPart(moves, bs[..k + 1], i) {
          LeafPartStep(moves, bs, k, i);
          UnmanagedPart(moves, b, i);
        }
        NothingOwned(moves);
      }
      k := k + 1;
    }
    assert bs[..k] == bs;
    return Some(per);
  }

  lemma NothingDistributed(moves: seq<StateMove>)
    ensures AllOwned(moves, Tags([])) && forall i: nat :: LeafPart(moves, [], i) == []
  {
  }

  lemma NothingOwned(moves: seq<StateMove>)
    ensures AllOwned(moves, [])
  {
  }

  lemma UnmanagedPart(moves: seq<StateMove>, b: Block, i: nat)
    requires !IsManaged(b)
    ensures BlockPart(moves, b, i) == []
  {
  }

  // ----- the whole of `split` -----------------------------------------------------------------

  function Blocks(doc: State): seq<Block> { doc.resources.GetOr([]) }

  /** `leaf_document`: the two versions, with defaults, and nothing else of the fat state's top level. */
  function LeafDoc(h: Hashes, fat: State, leaf: string, blocks: seq<Block>): State {
    State(Some(fat.version.GetOr("4")), Some(fat.terraformVersion.GetOr("\"\"")), "",
          1, h.lineage(fat.lineage, leaf), "{}", Some(blocks))
  }

  function LeafOf(h: Hashes, fat: State, moves: seq<StateMove>, i: nat): LeafState
    requires i < |moves|
  {
    LeafState(moves[i].toTemplate, LeafDoc(h, fat, moves[i].toTemplate, LeafPart(moves, Blocks(fat), i)))
  }

  function LeavesOf(h: Hashes, fat: State, moves: seq<StateMove>): (r: seq<LeafState>)
    ensures |r| == |moves| && forall i :: 0 <= i < |moves| ==> r[i] == LeafOf(h, fat, moves, i)
  {
    seq(|moves|, i requires 0 <= i < |moves| => LeafOf(h, fat, moves, i))
  }

  function LeafAddresses(l: LeafState): seq<string> { BlockAddresses(Blocks(l.doc)) }

  function ReceiptOf(h: Hashes, l: LeafState): LeafReceipt {
    LeafReceipt(l.template, |LeafAddresses(l)|, h.ofState(l.doc))
  }

  function ReceiptsOf(h: Hashes, ls: seq<LeafState>): (r: seq<LeafReceipt>)
    ensures |r| == |ls| && forall i :: 0 <= i < |ls| ==> r[i] == ReceiptOf(h, ls[i])
  {
    seq(|ls|, i requires 0 <= i < |ls| => ReceiptOf(h, ls[i]))
  }

  /** What `split` returns. */
  ghost function SplitOf(h: Hashes, fatTemplate: string, fat: State, moves: seq<StateMove>)
    : Result<Split, MigrateError>
  {
    if MovesFault(fatTemplate, moves).Some? then Err(MovesFault(fatTemplate, moves).value)
    else match Addresses(fat)
      case Err(e) => Err(Source(e))
      case Ok(before) =>
        if !Bijection(h, before, Claimed(moves)).ok || !AllOwned(moves, Tags(Blocks(fat))) then Err(BijectionRefused)
        else
          var leaves := LeavesOf(h, fat, moves);
          var after := Spread(leaves, LeafAddresses);
          var check := Bijection(h, before, after);
          if !check.ok then Err(BijectionRefused)
          else Ok(Split(leaves, Receipt(
            fatTemplate, Forward, fat.lineage, fat.serial, h.ofState(fat), |before|, |after|,
            check.hashBefore, check.hashAfter, check.disjoint, ReceiptsOf(h, leaves))))
  }

  method SplitState(h: Hashes, fatTemplate: string, fat: State, moves: seq<StateMove>)
      returns (r: Result<Split, MigrateError>)
    ensures r == SplitOf(h, fatTemplate, fat, moves)
  {
    hide Bijection, MovesFault, AllOwned, Tags, LeafPart, BlockAddresses, Claimed;
    var fault := CheckMoves(fatTemplate, moves);
    if fault.Some? { return Err(fault.value); }
    var read := AddressesFromState(fat);
    if read.Err? { return Err(Source(read.error)); }
    var before := read.value;
    if !Bijection(h, before, Claimed(moves)).ok { return Err(BijectionRefused); }
    var per := Distribute(moves, Blocks(fat));
    if per.None? { return Err(BijectionRefused); }
    ReadableFat(fat);
    var leaves, receipts, after := WriteLeaves(h, fat, moves, per.value);
    var check := Bijection(h, before, after);
    if !check.ok { return Err(BijectionRefused); }
    return Ok(Split(leaves, Receipt(
      fatTemplate, Forward, fat.lineage, fat.serial, h.ofState(fat), |before|, |after|,
      check.hashBefore, check.hashAfter, check.disjoint, receipts)));
  }

  lemma ReadableFat(fat: State)
    requires Addresses(fat).Ok?
    ensures FirstFault(Blocks(fat)).None? && Addresses(fat).value == BlockAddresses(Blocks(fat))
  {
  }

  /** A written leaf can always be read back. */
  lemma LeafReads(moves: seq<StateMove>, bs: seq<Block>, i: nat)
    requires FirstFault(bs).None?
    ensures FirstFault(LeafPart(moves, bs, i)).None?
  {
    hide LeafPart, FirstFault;
    ReadableExactly(bs);
    ReadableExactly(LeafPart(moves, bs, i));
    LeafPartBlocks(moves, bs, i);
  }

  lemma NoLeavesYet(h: Hashes)
    ensures ReceiptsOf(h, []) == [] && Spread([], LeafAddresses) == []
  {
  }

  /** The last loop of `split`: one document and one receipt per move. */
  method WriteLeaves(h: Hashes, fat: State, moves: seq<StateMove>, per: seq<seq<Block>>)
    returns (leaves: seq<LeafState>, receipts: seq<LeafReceipt>, after: seq<string>)
    requires FirstFault(Blocks(fat)).None?
    requires |per| == |moves| && forall i :: 0 <= i < |moves| ==> per[i] == LeafPart(moves, Blocks(fat), i)
    ensures leaves == LeavesOf(h, fat, moves) && receipts == ReceiptsOf(h, leaves) &&
            after == Spread(leaves, LeafAddresses)
  {
    hide LeafPart, BlockAddresses, FirstFault, Spread;
    NoLeavesYet(h);
    leaves, receipts, after := [], [], [];
    var i := 0;
    while i < |moves|
      invariant 0 <= i <= |moves| && |leaves| == i
      invariant forall j :: 0 <= j < i ==> leaves[j] == LeafOf(h, fat, moves, j)
      invariant receipts == ReceiptsOf(h, leaves) && after == Spread(leaves, LeafAddresses)
    {
      var leaf := LeafState(moves[i].toTemplate, LeafDoc(h, fat, moves[i].toTemplate, per[i]));
      var read := AddressesFromState(leaf.doc);
      LeafReads(moves, Blocks(fat), i);
      var got := read.value;
      receipts := receipts + [LeafReceipt(leaf.template, |got|, h.ofState(leaf.doc))];
      after := after + got;
      SpreadStep(leaves, leaf, LeafAddresses);
      leaves := leaves + [leaf];
      i := i + 1;
    }
  }

  // ----- what `split` conserves ------------------------------------------------------------------

  lemma {:induction false} TagsOfBucket(moves: seq<StateMove>, id: Id, items: seq<Instance>, i: nat)
    ensures TagAll(id, Bucket(moves, id, items, i)) == Having(TagAll(id, items), TagOwner(moves), {Some(i)})
  {
    hide OwnerOf;
    if items != [] {
      var front, last := items[..|items| - 1], items[|items| - 1];
      assert items == front + [last];
      TagsOfBucket(moves, id, front, i);
      HavingStep(front, last, InstanceOwner(moves, id), {Some(i)});
      HavingStep(TagAll(id, front), Tagged(id, last), TagOwner(moves), {Some(i)});
      TagAllStep(id, Bucket(moves, id, front, i), last);
      TagAllStep(id, front, last);
    }
  }

  lemma TagsOfPart(moves: seq<StateMove>, b: Block, i: nat)
    ensures Tags(BlockPart(moves, b, i)) ==
            Having(if IsManaged(b) then TagAll(BlockId(b), Items(b)) else [], TagOwner(moves), {Some(i)})
  {
    hide Bucket, Having, OwnerOf;
    HavingEmpty(moves, i);
    if IsManaged(b) {
      TagsOfBucket(moves, BlockId(b), Items(b), i);
      var part := Bucket(moves, BlockId(b), Items(b), i);
      if part != [] { TagsOfOne(WithItems(b, part)); }
    }
  }

  lemma HavingEmpty(moves: seq<StateMove>, i: nat)
    ensures Having([], TagOwner(moves), {Some(i)}) == []
  {
  }

  lemma TagsOfOne(b: Block)
    requires IsManaged(b)
    ensures Tags([b]) == TagAll(BlockId(b), Items(b))
  {
    hide TagAll;
    assert [b][..0] == [];
  }

  /** Leaf `i` holds exactly the instances its move owns, in the order of the fat state. */
  lemma {:induction false} LeafPartTags(moves: seq<StateMove>, bs: seq<Block>, i: nat)
    ensures Tags(LeafPart(moves, bs, i)) == Having(Tags(bs), TagOwner(moves), {Some(i)})
  {
    hide BlockPart, Having, TagAll, OwnerOf;
    if bs == [] {
      HavingEmpty(moves, i);
    } else {
      var front, last := bs[..|bs| - 1], bs[|bs| - 1];
      LeafPartTags(moves, front, i);
      TagsOfPart(moves, last, i);
      TagsConcat(LeafPart(moves, front, i), BlockPart(moves, last, i));
      var more := if IsManaged(last) then TagAll(BlockId(last), Items(last)) else [];
      HavingConcat(Tags(front), more, TagOwner(moves), {Some(i)});
    }
  }

  /** Its blocks keep their attributes: each is a managed block of the fat state with fewer instances. */
  lemma {:induction false} LeafPartBlocks(moves: seq<StateMove>, bs: seq<Block>, i: nat)
    ensures forall x :: x in LeafPart(moves, bs, i) ==>
              IsManaged(x) && Items(x) != [] && exists b :: b in bs && IsManaged(b) && x == WithItems(b, Items(x))
  {
    hide Bucket;
    if bs != [] {
      var front, last := bs[..|bs| - 1], bs[|bs| - 1];
      LeafPartBlocks(moves, front, i);
      forall x | x in LeafPart(moves, bs, i)
        ensures IsManaged(x) && Items(x) != [] && exists b :: b in bs && IsManaged(b) && x == WithItems(b, Items(x))
      {
        if x in LeafPart(moves, front, i) {
          var b :| b in front && IsManaged(b) && x == WithItems(b, Items(x));
          assert b in bs;
        } else {
          assert x in BlockPart(moves, last, i) && last in bs;
        }
      }
    }
  }

  function LeafTags(l: LeafState): seq<Tagged> { Tags(Blocks(l.doc)) }

  /** All leaves together hold the instances of the fat state, each once. */
  lemma LeavesKeepInstances(h: Hashes, fat: State, moves: seq<StateMove>)
    requires AllOwned(moves, Tags(Blocks(fat)))
    ensures multiset(Spread(LeavesOf(h, fat, moves), LeafTags)) == multiset(Tags(Blocks(fat)))
  {
    hide Having, Spread, OwnerOf, TagAddress, Tags, LeafPart;
    var ts := Tags(Blocks(fat));
    var ks := seq(|moves|, i requires 0 <= i < |moves| => Some(i as nat));
    var parts := (k: Option<nat>) => if k.Some? then Tags(LeafPart(moves, Blocks(fat), k.value)) else [];
    forall t | t in ts ensures TagOwner(moves)(t) in ks {
      OwnerClaims(moves, TagAddress(t));
      var i := TagOwner(moves)(t).value;
      assert ks[i] == TagOwner(moves)(t);
    }
    forall k | k in ks ensures parts(k) == Having(ts, TagOwner(moves), {k}) {
      LeafPartTags(moves, Blocks(fat), k.value);
    }
    ClassesRearrange(ts, TagOwner(moves), ks, parts);
    SameSpread(LeavesOf(h, fat, moves), LeafTags, ks, parts);
  }

  lemma {:induction false} SameSpread<S, T, U>(xs: seq<S>, v: S -> seq<U>, ys: seq<T>, w: T -> seq<U>)
    requires |xs| == |ys| && forall i :: 0 <= i < |xs| ==> v(xs[i]) == w(ys[i])
    ensures Spread(xs, v) == Spread(ys, w)
  {
    if xs != [] { SameSpread(xs[..|xs| - 1], v, ys[..|ys| - 1], w); }
  }

  lemma {:induction false} SpreadAddresses(ls: seq<LeafState>)
    ensures Spread(ls, LeafAddresses) == TagAddresses(Spread(ls, LeafTags))
  {
    hide Tags, BlockAddresses, TagAddresses;
    if ls == [] {
      NoTagAddresses();
    } else {
      var front, last := ls[..|ls| - 1], ls[|ls| - 1];
      SpreadAddresses(front);
      AddressesAreTags(Blocks(last.doc));
      TagAddressesConcat(Spread(front, LeafTags), LeafTags(last));
    }
  }

  lemma NoTagAddresses()
    ensures TagAddresses([]) == []
  {
  }

  /** So the written leaves have the addresses of the fat state. */
  lemma LeavesKeepAddresses(h: Hashes, fat: State, moves: seq<StateMove>)
    requires AllOwned(moves, Tags(Blocks(fat)))
    ensures multiset(Spread(LeavesOf(h, fat, moves), LeafAddresses)) == multiset(BlockAddresses(Blocks(fat)))
  {
    hide *;
    LeavesKeepInstances(h, fat, moves);
    SpreadAddresses(LeavesOf(h, fat, moves));
    AddressesAreTags(Blocks(fat));
    SameTagsSameAddresses(Spread(LeavesOf(h, fat, moves), LeafTags), Tags(Blocks(fat)));
  }

  // ----- when `split` accepts -----------------------------------------------------------------------

  /** The claims are exactly the addresses, without repetition. */
  ghost predicate Bijective(before: seq<string>, claimed: seq<string>) {
    NoRepeats(before) && multiset(before) == multiset(claimed)
  }

  lemma BijectiveMeans(before: seq<string>, claimed: seq<string>)
    ensures Bijective(before, claimed) <==> NoRepeats(before) && multiset(before) == multiset(claimed)
  {
  }

  lemma BijectiveIsOk(h: Hashes, before: seq<string>, after: seq<string>)
    requires Bijective(before, after)
    ensures Bijection(h, before, after).ok
  {
    hide Preimage, AllDistinct, NoRepeats;
    NoRepeatsIsPermutable(before, after);
    DistinctMeansNoRepeats(after);
    SameMultisetSamePreimage(before, after);
  }

  lemma {:induction false} TagOfAddress(ts: seq<Tagged>, t: Tagged)
    requires t in ts
    ensures TagAddress(t) in TagAddresses(ts)
  {
    hide TagAddress;
    if t != ts[|ts| - 1] { TagOfAddress(ts[..|ts| - 1], t); }
  }

  lemma ClaimedMeansOwned(moves: seq<StateMove>, bs: seq<Block>)
    requires multiset(BlockAddresses(bs)) == multiset(Claimed(moves))
    ensures AllOwned(moves, Tags(bs))
  {
    hide OwnerOf, TagAddress, Tags, TagAddresses, BlockAddresses, Claimed;
    AddressesAreTags(bs);
    forall t | t in Tags(bs) ensures TagOwner(moves)(t).Some? {
      TagOfAddress(Tags(bs), t);
      SameMembers(BlockAddresses(bs), Claimed(moves), TagAddress(t));
      OwnedIfClaimed(moves, TagAddress(t));
    }
  }

  /** `split` accepts whenever the moves pass their check and claim every address exactly once. */
  lemma SplitAccepts(h: Hashes, fatTemplate: string, fat: State, moves: seq<StateMove>)
    requires MovesFault(fatTemplate, moves).None? && Addresses(fat).Ok? &&
            Bijective(Addresses(fat).value, Claimed(moves))
    ensures SplitOf(h, fatTemplate, fat, moves).Ok?
  {
    hide Bijection, MovesFault, AllOwned, Tags, LeafPart, BlockAddresses, Claimed, NoRepeats, FirstFault;
    var before := Addresses(fat).value;
    assert before == BlockAddresses(Blocks(fat));
    BijectiveIsOk(h, before, Claimed(moves));
    ClaimedMeansOwned(moves, Blocks(fat));
    LeavesKeepAddresses(h, fat, moves);
    BijectiveIsOk(h, before, Spread(LeavesOf(h, fat, moves), LeafAddresses));
  }

  /** The hash does not confuse these two lists. */
  ghost predicate NoCollision(h: Hashes, a: seq<string>, b: seq<string>) {
    InMemory(a) && InMemory(b) && (h.ofBytes(Preimage(a)) == h.ofBytes(Preimage(b)) ==> Preimage(a) == Preimage(b))
  }

  /** And, unless the hash collides, only then. */
  lemma SplitAcceptsExactly(h: Hashes, fatTemplate: string, fat: State, moves: seq<StateMove>)
    requires Addresses(fat).Ok? && NoCollision(h, Addresses(fat).value, Claimed(moves))
    ensures SplitOf(h, fatTemplate, fat, moves).Ok? <==>
              MovesFault(fatTemplate, moves).None? && Bijective(Addresses(fat).value, Claimed(moves))
  {
    hide MovesFault, AllOwned, Tags, LeafPart, BlockAddresses, Claimed, NoRepeats, FirstFault, Preimage, AllDistinct,
        InMemory;
    var before := Addresses(fat).value;
    if SplitOf(h, fatTemplate, fat, moves).Ok? {
      PreimageIsMultiset(before, Claimed(moves));
      DistinctMeansNoRepeats(Claimed(moves));
      NoRepeatsIsPermutable(Claimed(moves), before);
    }
    if MovesFault(fatTemplate, moves).None? && Bijective(before, Claimed(moves)) {
      SplitAccepts(h, fatTemplate, fat, moves);
    }
  }

  // ----- what `split` writes ------------------------------------------------------------------------

  lemma {:induction false} TagAddressMembers(ts: seq<Tagged>, a: string)
    ensures a in TagAddresses(ts) <==> exists t :: t in ts && TagAddress(t) == a
  {
    hide TagAddress;
    if ts != [] {
      var front, last := ts[..|ts| - 1], ts[|ts| - 1];
      TagAddressMembers(front, a);
      assert ts == front + [last];
    }
  }

  lemma LeafMembers(moves: seq<StateMove>, bs: seq<Block>, i: nat, a: string)
    ensures a in BlockAddresses(LeafPart(moves, bs, i)) <==> a in BlockAddresses(bs) && OwnerOf(moves, a) == Some(i)
  {
    var mine: set<Option<nat>> := {Some(i)};
    LeafPartTags(moves, bs, i);
    HavingMembers(Tags(bs), TagOwner(moves), mine);
    AddressesAreTags(bs);
    AddressesAreTags(LeafPart(moves, bs, i));
    TagAddressMembers(Tags(bs), a);
    TagAddressMembers(Tags(LeafPart(moves, bs, i)), a);
    assert forall t :: TagOwner(moves)(t) == OwnerOf(moves, TagAddress(t));
    hide *;
    assert forall t :: t in Tags(LeafPart(moves, bs, i)) <==> t in Tags(bs) && TagOwner(moves)(t) == Some(i);
  }

  lemma OnlyOwner(moves: seq<StateMove>, i: nat, a: string)
    requires i < |moves| && NoRepeats(Claimed(moves))
    ensures a in moves[i].addresses <==> OwnerOf(moves, a) == Some(i)
  {
    OwnerClaims(moves, a);
    SpreadApart(moves, MoveAddresses);
    hide OwnerOf, Spread;
    if a in moves[i].addresses {
      var k := OwnerOf(moves, a).value;
      assert a in MoveAddresses(moves[i]) && a in MoveAddresses(moves[k]);
    }
  }

  /** Leaf `i` has exactly the addresses that move `i` names. */
  lemma LeafIsItsMove(moves: seq<StateMove>, bs: seq<Block>, i: nat)
    requires i < |moves| && Bijective(BlockAddresses(bs), Claimed(moves)) && FirstFault(bs).None?
    ensures multiset(BlockAddresses(LeafPart(moves, bs, i))) == multiset(moves[i].addresses)
  {
    hide *;
    var before, part, named := BlockAddresses(bs), BlockAddresses(LeafPart(moves, bs, i)), moves[i].addresses;
    BijectiveMeans(before, Claimed(moves));
    NoRepeatsIsPermutable(before, Claimed(moves));
    ClaimedIs(moves);
    SpreadApart(moves, MoveAddresses);
    assert named == MoveAddresses(moves[i]) by { MoveAddressesIs(moves[i]); }
    LeafPartApart(moves, bs, i);
    forall a ensures multiset(part)[a] == multiset(named)[a] {
      LeafMembers(moves, bs, i, a);
      OnlyOwner(moves, i, a);
      NamedIsClaimed(moves, i, a);
      SameMembers(before, Claimed(moves), a);
      CountOnce(part, a);
      CountOnce(named, a);
    }
    assert multiset(part) == multiset(named);
  }

  lemma MoveAddressesIs(m: StateMove)
    ensures MoveAddresses(m) == m.addresses
  {
  }

  lemma ClaimedIs(moves: seq<StateMove>)
    ensures Claimed(moves) == Spread(moves, MoveAddresses)
  {
  }

  lemma NamedIsClaimed(moves: seq<StateMove>, i: nat, a: string)
    requires i < |moves|
    ensures a in moves[i].addresses ==> a in Claimed(moves)
  {
    SpreadMembers(moves, MoveAddresses);
    if a in moves[i].addresses { assert a in MoveAddresses(moves[i]); }
  }

  lemma CountOnce(s: seq<string>, a: string)
    requires NoRepeats(s)
    ensures multiset(s)[a] == if a in s then 1 else 0
  {
    NoRepeatsCounts(s);
  }

  lemma {:induction false} TagsApart(ts: seq<Tagged>, c: Tagged -> Option<nat>, ks: set<Option<nat>>)
    requires NoRepeats(TagAddresses(ts))
    ensures NoRepeats(TagAddresses(Having(ts, c, ks)))
  {
    if ts != [] {
      var front, last := ts[..|ts| - 1], ts[|ts| - 1];
      hide TagAddress;
      NoRepeatsParts(TagAddresses(front), [TagAddress(last)]);
      TagsApart(front, c, ks);
      var kept := Having(front, c, ks);
      HavingMembers(front, c, ks);
      TagAddressMembers(front, TagAddress(last));
      TagAddressMembers(kept, TagAddress(last));
      TagAddressesConcat(kept, [last]);
      TagAddressesConcat([], [last]);
    }
  }

  lemma LeafPartApart(moves: seq<StateMove>, bs: seq<Block>, i: nat)
    requires NoRepeats(BlockAddresses(bs))
    ensures NoRepeats(BlockAddresses(LeafPart(moves, bs, i)))
  {
    hide *;
    AddressesAreTags(bs);
    AddressesAreTags(LeafPart(moves, bs, i));
    LeafPartTags(moves, bs, i);
    TagsApart(Tags(bs), TagOwner(moves), {Some(i)});
  }

  /** The document of leaf `i`: its move's target, serial 1, a lineage of its own, no outputs, and exactly the addresses
      its move names. */
  ghost predicate WroteLeaf(h: Hashes, fat: State, m: StateMove, l: LeafState, r: LeafReceipt) {
    && l.template == m.toTemplate
    && l.doc.serial == 1 && l.doc.lineage == h.lineage(fat.lineage, m.toTemplate)
    && l.doc.outputs == "{}" && l.doc.others == ""
    && l.doc.version == Some(fat.version.GetOr("4"))
    && l.doc.terraformVersion == Some(fat.terraformVersion.GetOr("\"\""))
    && (Addresses(l.doc).Ok? && multiset(Addresses(l.doc).value) == multiset(m.addresses))
    && r.template == m.toTemplate && r.addresses == |m.addresses| && r.contentHash == h.ofState(l.doc)
  }

  /** What an accepted split returns, move by move, unless the hash collides. */
  lemma SplitWrites(h: Hashes, fatTemplate: string, fat: State, moves: seq<StateMove>)
    requires SplitOf(h, fatTemplate, fat, moves).Ok?
    requires Addresses(fat).Ok? ==> NoCollision(h, Addresses(fat).value, Claimed(moves))
    ensures var sp := SplitOf(h, fatTemplate, fat, moves).value;
            var r := sp.receipt;
            && |sp.leaves| == |r.leaves| == |moves|
            && (forall i :: 0 <= i < |moves| ==> WroteLeaf(h, fat, moves[i], sp.leaves[i], r.leaves[i]))
            && r.fatTemplate == fatTemplate && r.direction == Forward
            && r.fatLineage == fat.lineage && r.fatSerial == fat.serial && r.archiveHash == h.ofState(fat)
            && Addresses(fat).Ok? && r.countBefore == |Addresses(fat).value| == r.countAfter
            && r.hashBefore == h.ofBytes(Preimage(Addresses(fat).value)) == r.hashAfter && r.disjoint
  {
    hide *;
    SplitIs(h, fatTemplate, fat, moves);
    SplitAcceptsExactly(h, fatTemplate, fat, moves);
    BijectiveMeans(Addresses(fat).value, Claimed(moves));
    ReadableFat(fat);
    var sp := SplitOf(h, fatTemplate, fat, moves).value;
    ClaimedMeansOwned(moves, Blocks(fat));
    LeavesKeepAddresses(h, fat, moves);
    SameCount(BlockAddresses(Blocks(fat)), Spread(sp.leaves, LeafAddresses));
    forall i | 0 <= i < |moves| ensures WroteLeaf(h, fat, moves[i], sp.leaves[i], sp.receipt.leaves[i]) {
      LeafIsItsMove(moves, Blocks(fat), i);
      LeafReads(moves, Blocks(fat), i);
      SameCount(BlockAddresses(LeafPart(moves, Blocks(fat), i)), moves[i].addresses);
      LeafWritten(h, fat, moves, i);
    }
  }

  lemma SameCount(a: seq<string>, b: seq<string>)
    requires multiset(a) == multiset(b)
    ensures |a| == |b|
  {
    assert |multiset(a)| == |a| && |multiset(b)| == |b|;
  }

  lemma SplitIs(h: Hashes, fatTemplate: string, fat: State, moves: seq<StateMove>)
    requires SplitOf(h, fatTemplate, fat, moves).Ok?
    ensures Addresses(fat).Ok?
    ensures var sp := SplitOf(h, fatTemplate, fat, moves).value;
            var r, before := sp.receipt, Addresses(fat).value;
            && sp.leaves == LeavesOf(h, fat, moves) && |sp.leaves| == |moves| && |r.leaves| == |moves|
            && (forall i :: 0 <= i < |moves| ==> sp.leaves[i] == LeafOf(h, fat, moves, i))
            && (forall i :: 0 <= i < |moves| ==> r.leaves[i] == ReceiptOf(h, sp.leaves[i]))
            && r.fatTemplate == fatTemplate && r.direction == Forward
            && r.fatLineage == fat.lineage && r.fatSerial == fat.serial && r.archiveHash == h.ofState(fat)
            && r.countBefore == |before| && r.countAfter == |Spread(sp.leaves, LeafAddresses)|
            && r.hashBefore == h.ofBytes(Preimage(before)) == r.hashAfter && r.disjoint
  {
    hide MovesFault, AllOwned, Tags, LeafPart, BlockAddresses, Claimed, NoRepeats, FirstFault, Preimage, AllDistinct;
    hide LeafOf, ReceiptOf, Spread;
  }

  lemma LeafWritten(h: Hashes, fat: State, moves: seq<StateMove>, i: nat)
    requires i < |moves|
    requires var part := LeafPart(moves, Blocks(fat), i);
             && FirstFault(part).None? && multiset(BlockAddresses(part)) == multiset(moves[i].addresses)
             && |BlockAddresses(part)| == |moves[i].addresses|
    ensures var l := LeafOf(h, fat, moves, i); WroteLeaf(h, fat, moves[i], l, ReceiptOf(h, l))
  {
    hide LeafPart, BlockAddresses, FirstFault;
  }
}
