/**
  A terraform state document as typed blocks and instances, and the addresses read from it.
  `body`, `outputs`, the versions and the other top-level fields stand for the JSON the migration only copies.
*/
module StateDoc {
  import opened Prelude
  import opened Address

  /** A JSON field that the migration reads as text. */
  datatype Field = Missing | Null | Text(s: string) | Other(json: string)

  datatype Index = NoIndex | StringIndex(s: string) | NumberIndex(text: string) | OtherIndex(json: string)

  datatype Instance = Instance(index: Index, body: string)

  datatype Instances = NoArray | List(items: seq<Instance>)

  datatype Block = Block(
    module_: Field, mode: Field, ty: Field, name: Field, body: string, instances: Instances)

  datatype State = State(
    version: Option<string>, terraformVersion: Option<string>, others: string,
    serial: nat, lineage: string, outputs: string, resources: Option<seq<Block>>)

  datatype SourceError = NoResources | NoType | NoName | NoInstances(base: string)

  function TextOf(f: Field): string { if f.Text? then f.s else "" }

  predicate IsManaged(b: Block) { b.mode == Text("managed") }

  /** The instances, where the source takes a missing array for an empty one. */
  function Items(b: Block): seq<Instance> { if b.instances.List? then b.instances.items else [] }

  function WithItems(b: Block, items: seq<Instance>): Block { b.(instances := List(items)) }

  function Base(module_: string, ty: string, name: string): string {
    if module_ != "" then module_ + "." + ty + "." + name else ty + "." + name
  }

  function ResourceBase(b: Block): Result<string, SourceError> {
    if !b.ty.Text? then Err(NoType)
    else if !b.name.Text? then Err(NoName)
    else Ok(Base(TextOf(b.module_), b.ty.s, b.name.s))
  }

  function InstanceAddress(base: string, inst: Instance): string {
    match inst.index
    case StringIndex(s) => base + IndexText(s)
    case NumberIndex(n) => base + "[" + n + "]"
    case _ => base
  }

  function AddressesAt(base: string, items: seq<Instance>): seq<string> {
    if items == [] then [] else AddressesAt(base, items[..|items| - 1]) + [InstanceAddress(base, items[|items| - 1])]
  }

  // ----- block identities -----------------------------------------------------------------

  datatype Id = Id(module_: string, mode: string, ty: string, name: string)

  /** `block_id`. */
  function BlockId(b: Block): Id { Id(TextOf(b.module_), TextOf(b.mode), TextOf(b.ty), TextOf(b.name)) }

  function BaseOf(id: Id): string { Base(id.module_, id.ty, id.name) }

  /** A managed block that can be read: it has a type, a name and an array of instances. */
  predicate Readable(b: Block) { b.ty.Text? && b.name.Text? && b.instances.List? }

  function BlockFault(b: Block): Option<SourceError> {
    if !IsManaged(b) then None
    else match ResourceBase(b)
      case Err(e) => Some(e)
      case Ok(base) => if b.instances.List? then None else Some(NoInstances(base))
  }

  /** The addresses of the managed instances of a list of blocks. */
  function BlockAddresses(bs: seq<Block>): seq<string> {
    if bs == [] then []
    else BlockAddresses(bs[..|bs| - 1]) + if IsManaged(bs[|bs| - 1]) then OneBlock(bs[|bs| - 1]) else []
  }

  function OneBlock(b: Block): seq<string> { AddressesAt(BaseOf(BlockId(b)), Items(b)) }

  function FirstFault(bs: seq<Block>): Option<SourceError> {
    if bs == [] then None
    else if FirstFault(bs[..|bs| - 1]).Some? then FirstFault(bs[..|bs| - 1])
    else BlockFault(bs[|bs| - 1])
  }

  /** `addresses_from_state`. */
  function Addresses(doc: State): Result<seq<string>, SourceError> {
    if doc.resources.None? then Err(NoResources)
    else match FirstFault(doc.resources.value)
      case Some(e) => Err(e)
      case None => Ok(BlockAddresses(doc.resources.value))
  }

  lemma {:induction false} FaultSticks(bs: seq<Block>, i: nat)
    requires i <= |bs| && FirstFault(bs[..i]).Some?
    ensures FirstFault(bs) == FirstFault(bs[..i])
    decreases |bs| - i
  {
    if i == |bs| {
      assert bs[..i] == bs;
    } else {
      assert bs[..i + 1][..i] == bs[..i];
      FaultSticks(bs, i + 1);
    }
  }

  method AddressesFromState(doc: State) returns (r: Result<seq<string>, SourceError>)
    ensures r == Addresses(doc)
  {
    if doc.resources.None? { return Err(NoResources); }
    var bs := doc.resources.value;
    var out: seq<string>, i := [], 0;
    hide AddressesAt, InstanceAddress;
    while i < |bs|
      invariant 0 <= i <= |bs|
      invariant FirstFault(bs[..i]) == None && out == BlockAddresses(bs[..i])
    {
      assert bs[..i + 1][..i] == bs[..i];
      var b := bs[i];
      if IsManaged(b) {
        var base := ResourceBase(b);
        if base.Err? { FaultSticks(bs, i + 1); return Err(base.error); }
        if !b.instances.List? { FaultSticks(bs, i + 1); return Err(NoInstances(base.value)); }
        out := out + AddressesAt(base.value, b.instances.items);
      }
      i := i + 1;
    }
    assert bs[..i] == bs;
    return Ok(out);
  }

  /** Reading succeeds exactly when every managed block is readable. */
  lemma {:induction false} ReadableExactly(bs: seq<Block>)
    ensures FirstFault(bs).None? <==> forall b :: b in bs && IsManaged(b) ==> Readable(b)
  {
    if bs != [] {
      var front, last := bs[..|bs| - 1], bs[|bs| - 1];
      ReadableExactly(front);
      assert bs == front + [last];
    }
  }

  // ----- tagged instances -------------------------------------------------------------------

  /** An instance with the identity of its block. */
  datatype Tagged = Tagged(id: Id, inst: Instance)

  function TagAll(id: Id, items: seq<Instance>): seq<Tagged> {
    if items == [] then [] else TagAll(id, items[..|items| - 1]) + [Tagged(id, items[|items| - 1])]
  }

  /** The managed instances of a list of blocks, in order. */
  function Tags(bs: seq<Block>): seq<Tagged> {
    if bs == [] then []
    else
      var last := bs[|bs| - 1];
      Tags(bs[..|bs| - 1]) + if IsManaged(last) then TagAll(BlockId(last), Items(last)) else []
  }

  function TagAddress(t: Tagged): string { InstanceAddress(BaseOf(t.id), t.inst) }

  function TagAddresses(ts: seq<Tagged>): seq<string> {
    if ts == [] then [] else TagAddresses(ts[..|ts| - 1]) + [TagAddress(ts[|ts| - 1])]
  }

  lemma {:induction false} TagAddressesConcat(a: seq<Tagged>, b: seq<Tagged>)
    ensures TagAddresses(a + b) == TagAddresses(a) + TagAddresses(b)
  {
    hide TagAddress;
    if b == [] {
      assert a + b == a;
    } else {
      assert (a + b)[..|a + b| - 1] == a + b[..|b| - 1];
      TagAddressesConcat(a, b[..|b| - 1]);
    }
  }

  lemma {:induction false} TagAllAddresses(id: Id, items: seq<Instance>)
    ensures TagAddresses(TagAll(id, items)) == AddressesAt(BaseOf(id), items)
  {
    hide InstanceAddress;
    if items != [] {
      TagAllAddresses(id, items[..|items| - 1]);
      TagAddressesConcat(TagAll(id, items[..|items| - 1]), [Tagged(id, items[|items| - 1])]);
    }
  }

  /** The first managed block that cannot be read is reported: for its type, then its name, then its instances. */
  lemma FirstFaultyBlock(bs: seq<Block>, i: nat)
    requires i < |bs| && IsManaged(bs[i]) && forall j :: 0 <= j < i && IsManaged(bs[j]) ==> Readable(bs[j])
    ensures !bs[i].ty.Text? ==> FirstFault(bs) == Some(NoType)
    ensures bs[i].ty.Text? && !bs[i].name.Text? ==> FirstFault(bs) == Some(NoName)
    ensures bs[i].ty.Text? && bs[i].name.Text? && !bs[i].instances.List? ==>
              FirstFault(bs) == Some(NoInstances(Base(TextOf(bs[i].module_), bs[i].ty.s, bs[i].name.s)))
  {
    hide IsManaged;
    ReadableExactly(bs[..i]);
    assert bs[..i + 1][..i] == bs[..i];
    if FirstFault(bs[..i + 1]).Some? { FaultSticks(bs, i + 1); }
  }

  /** The addresses are those of the tagged instances. */
  lemma {:induction false} AddressesAreTags(bs: seq<Block>)
    ensures BlockAddresses(bs) == TagAddresses(Tags(bs))
  {
    hide AddressesAt, TagAll;
    if bs != [] {
      var front, last := bs[..|bs| - 1], bs[|bs| - 1];
      AddressesAreTags(front);
      var more := if IsManaged(last) then TagAll(BlockId(last), Items(last)) else [];
      TagAddressesConcat(Tags(front), more);
      if IsManaged(last) { TagAllAddresses(BlockId(last), Items(last)); }
    }
  }

  lemma {:induction false} TagsConcat(a: seq<Block>, b: seq<Block>)
    ensures Tags(a + b) == Tags(a) + Tags(b)
  {
    hide TagAll;
    if b == [] {
      assert a + b == a;
    } else {
      assert (a + b)[..|a + b| - 1] == a + b[..|b| - 1];
      TagsConcat(a, b[..|b| - 1]);
    }
  }

  /** The same instances, in any order, have the same addresses. */
  lemma {:induction false} SameTagsSameAddresses(a: seq<Tagged>, b: seq<Tagged>)
    requires multiset(a) == multiset(b)
    ensures multiset(TagAddresses(a)) == multiset(TagAddresses(b))
    decreases |a|
  {
    hide TagAddress;
    if a == [] {
      assert |multiset(b)| == 0;
    } else {
      var front, t := a[..|a| - 1], a[|a| - 1];
      assert a == front + [t];
      assert t in multiset(b);
      var i :| 0 <= i < |b| && b[i] == t;
      var rest := b[..i] + b[i + 1..];
      assert b == b[..i] + [t] + b[i + 1..];
      assert multiset(rest) == multiset(b) - multiset{t};
      SameTagsSameAddresses(front, rest);
      TagAddressesConcat(b[..i] + [t], b[i + 1..]);
      TagAddressesConcat(b[..i], [t]);
      TagAddressesConcat(b[..i], b[i + 1..]);
      TagAddressOf(t);
    }
  }

  lemma TagAddressOf(t: Tagged)
    ensures TagAddresses([t]) == [TagAddress(t)]
  {
  }

  /** An instance with a string index, of a block whose base has no index itself, has exactly that string as its leaf
      key. */
  lemma StringIndexIsLeafKey(b: Block, inst: Instance)
    requires ResourceBase(b).Ok? && inst.index.StringIndex?
    requires Parse(ResourceBase(b).value).Ok? && forall x :: x in Parse(ResourceBase(b).value).value ==> x.key.None?
    ensures LeafKeyOf(InstanceAddress(ResourceBase(b).value, inst)) == Ok(Keyed(inst.index.s))
  {
    hide Base, LeafKeyOf, ParseRest, Print, IndexText;
    var base := ResourceBase(b).value;
    UnindexedPrints(base);
    ParsedNames(base);
    IndexIsLeafKey(Parse(base).value, inst.index.s);
  }
}
