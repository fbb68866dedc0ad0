/** `moves_by_claims`: the moves that a list of declared leaves asks for. */
module Claims {
  import opened Prelude
  import opened Ordering
  import opened Grouping
  import opened Address
  import opened StateDoc
  import opened Splitting

  datatype LeafClaim = LeafClaim(leaf: string, key: string, addresses: seq<string>)

  datatype ClaimError =
    | DuplicateKey(key: string)
    | DuplicateAddress(address: string, prev: string, leaf: string)
    | BadSource(error: SourceError)
    | Unplaced(count: nat, first: string)

  // ----- who claims what ----------------------------------------------------------------------------

  /** The leaf that declares a key; the last one if several do. */
  function KeyLeaf(claims: seq<LeafClaim>, key: string): Option<string> {
    if claims == [] then None
    else if claims[|claims| - 1].key == key then Some(claims[|claims| - 1].leaf)
    else KeyLeaf(claims[..|claims| - 1], key)
  }

  function AddressLeaf(claims: seq<LeafClaim>, a: string): Option<string> {
    if claims == [] then None
    else if a in claims[|claims| - 1].addresses then Some(claims[|claims| - 1].leaf)
    else AddressLeaf(claims[..|claims| - 1], a)
  }

  /** The leaf of an address: the one that lists it, else the one that declares its leaf key. */
  function PlaceOf(claims: seq<LeafClaim>): string -> Option<string> {
    a =>
      if AddressLeaf(claims, a).Some? then AddressLeaf(claims, a)
      else match LeafKeyOf(a)
        case Ok(Keyed(k)) => KeyLeaf(claims, k)
        case _ => None
  }

  function AddressFault(front: seq<LeafClaim>, c: LeafClaim, j: nat): Option<ClaimError>
    requires j <= |c.addresses|
  {
    if j == 0 then None
    else if AddressFault(front, c, j - 1).Some? then AddressFault(front, c, j - 1)
    else
      var a := c.addresses[j - 1];
      if a in c.addresses[..j - 1] then Some(DuplicateAddress(a, c.leaf, c.leaf))
      else match AddressLeaf(front, a)
        case Some(prev) => Some(DuplicateAddress(a, prev, c.leaf))
        case None => None
  }

  function ClaimFault(claims: seq<LeafClaim>): Option<ClaimError> {
    if claims == [] then None
    else
      var front, c := claims[..|claims| - 1], claims[|claims| - 1];
      if ClaimFault(front).Some? then ClaimFault(front)
      else if KeyLeaf(front, c.key).Some? then Some(DuplicateKey(c.key))
      else AddressFault(front, c, |c.addresses|)
  }

  function Listed(c: LeafClaim): seq<string> { c.addresses }

  ghost predicate KeysDiffer(claims: seq<LeafClaim>) {
    forall i, j :: 0 <= i < j < |claims| ==> claims[i].key != claims[j].key
  }

  lemma {:induction false} KeyLeafExactly(claims: seq<LeafClaim>, key: string)
    ensures KeyLeaf(claims, key).Some? <==> exists i :: 0 <= i < |claims| && claims[i].key == key
  {
    if claims != [] {
      var front := claims[..|claims| - 1];
      KeyLeafExactly(front, key);
      assert forall i :: 0 <= i < |front| ==> front[i] == claims[i];
      if KeyLeaf(front, key).Some? { var i :| 0 <= i < |front| && front[i].key == key; assert claims[i].key == key; }
    }
  }

  lemma {:induction false} AddressLeafExactly(claims: seq<LeafClaim>, a: string)
    ensures AddressLeaf(claims, a).Some? <==> a in Spread(claims, Listed)
  {
    if claims != [] { AddressLeafExactly(claims[..|claims| - 1], a); }
  }

  lemma {:induction false} AddressFaultExactly(front: seq<LeafClaim>, c: LeafClaim, j: nat)
    requires j <= |c.addresses|
    ensures AddressFault(front, c, j).None? <==>
            NoRepeats(c.addresses[..j]) && forall i :: 0 <= i < j ==> c.addresses[i] !in Spread(front, Listed)
  {
    hide Spread;
    if j > 0 {
      AddressFaultExactly(front, c, j - 1);
      var a := c.addresses[j - 1];
      AddressLeafExactly(front, a);
      assert c.addresses[..j] == c.addresses[..j - 1] + [a];
      OneMoreDistinct(c.addresses[..j - 1], a);
    }
  }

  lemma OneMoreDistinct(s: seq<string>, a: string)
    ensures NoRepeats(s + [a]) <==> NoRepeats(s) && a !in s
  {
    var t := s + [a];
    assert forall i :: 0 <= i < |s| ==> t[i] == s[i];
    assert t[|s|] == a;
    if a in s { var i :| 0 <= i < |s| && s[i] == a; assert t[i] == t[|s|]; }
  }

  lemma ConcatDistinct(s: seq<string>, t: seq<string>)
    ensures NoRepeats(s + t) <==> NoRepeats(s) && NoRepeats(t) && forall i :: 0 <= i < |t| ==> t[i] !in s
  {
    var u := s + t;
    assert forall i :: 0 <= i < |s| ==> u[i] == s[i];
    assert forall i :: 0 <= i < |t| ==> u[|s| + i] == t[i];
    if NoRepeats(u) {
      forall i, j | 0 <= i < j < |s| ensures s[i] != s[j] { assert u[i] != u[j]; }
      forall i, j | 0 <= i < j < |t| ensures t[i] != t[j] { assert u[|s| + i] != u[|s| + j]; }
      forall i | 0 <= i < |t| ensures t[i] !in s {
        forall k | 0 <= k < |s| ensures s[k] != t[i] { assert u[k] != u[|s| + i]; }
      }
    } else {
      var i, j :| 0 <= i < j < |u| && u[i] == u[j];
      if j >= |s| && i < |s| { assert t[j - |s|] == s[i]; }
      if i >= |s| { assert t[i - |s|] == t[j - |s|]; }
      if j < |s| { assert s[i] == s[j]; }
    }
  }

  /** Claims are in order exactly when no key is declared twice and no address listed twice. */
  lemma {:induction false} ClaimFaultExactly(claims: seq<LeafClaim>)
    ensures ClaimFault(claims).None? <==> KeysDiffer(claims) && NoRepeats(Spread(claims, Listed))
  {
    hide NoRepeats, AddressFault, KeyLeaf;
    if claims == [] {
      NothingRepeats();
    } else {
      var front, c := claims[..|claims| - 1], claims[|claims| - 1];
      ClaimFaultExactly(front);
      KeyLeafExactly(front, c.key);
      AddressFaultExactly(front, c, |c.addresses|);
      assert c.addresses[..|c.addresses|] == c.addresses;
      ConcatDistinct(Spread(front, Listed), c.addresses);
      assert forall i :: 0 <= i < |front| ==> front[i] == claims[i];
      LastKey(claims);
    }
  }

  lemma NothingRepeats()
    ensures NoRepeats<string>([])
  {
  }

  lemma LastKey(claims: seq<LeafClaim>)
    requires claims != []
    ensures var front, c := claims[..|claims| - 1], claims[|claims| - 1];
            KeysDiffer(claims) <==> KeysDiffer(front) && !(exists i :: 0 <= i < |front| && front[i].key == c.key)
  {
    var front, c := claims[..|claims| - 1], claims[|claims| - 1];
    assert forall i :: 0 <= i < |front| ==> front[i] == claims[i];
    if i :| 0 <= i < |front| && front[i].key == c.key { assert claims[i].key == claims[|claims| - 1].key; }
  }

  // ----- the moves --------------------------------------------------------------------------------------

  ghost function Placed(claims: seq<LeafClaim>, addresses: seq<string>): set<string> {
    set a | a in addresses && PlaceOf(claims)(a).Some? :: PlaceOf(claims)(a).value
  }

  function Lost(claims: seq<LeafClaim>, addresses: seq<string>): seq<string> {
    Having(addresses, PlaceOf(claims), {None})
  }

  function Mine(claims: seq<LeafClaim>, addresses: seq<string>): string -> seq<string> {
    leaf => Having(addresses, PlaceOf(claims), {Some(leaf)})
  }

  function InNameOrder(names: set<string>): (r: seq<string>)
    ensures |r| == |names| && NoRepeats(r) && forall x :: x in r <==> x in names
  {
    StrLeIsTotalOrder();
    InOrder(names, StrLe)
  }

  function MovesFor(fat: string, ns: Option<string>, leaves: seq<string>,
      mine: string -> seq<string>): (r: seq<StateMove>)
    ensures |r| == |leaves| && forall i :: 0 <= i < |r| ==> r[i] == StateMove(fat, leaves[i], ns, mine(leaves[i]))
  {
    seq(|leaves|, i requires 0 <= i < |leaves| => StateMove(fat, leaves[i], ns, mine(leaves[i])))
  }

  ghost function MovesOf(fat: string, ns: Option<string>, doc: State, claims: seq<LeafClaim>)
    : Result<seq<StateMove>, ClaimError>
  {
    if ClaimFault(claims).Some? then Err(ClaimFault(claims).value)
    else match Addresses(doc)
      case Err(e) => Err(BadSource(e))
      case Ok(addresses) =>
        var lost := Lost(claims, addresses);
        if lost != [] then Err(Unplaced(|lost|, lost[0]))
        else Ok(MovesFor(fat, ns, InNameOrder(Placed(claims, addresses)), Mine(claims, addresses)))
  }

  type Index = map<string, string>

  function Get(m: Index, k: string): Option<string> { if k in m then Some(m[k]) else None }

  ghost predicate Indexes(byKey: Index, byAddress: Index, claims: seq<LeafClaim>) {
    (forall k :: Get(byKey, k) == KeyLeaf(claims, k)) && (forall a :: Get(byAddress, a) == AddressLeaf(claims, a))
  }

  lemma {:induction false} ClaimFaultSticks(claims: seq<LeafClaim>, i: nat)
    requires i <= |claims| && ClaimFault(claims[..i]).Some?
    ensures ClaimFault(claims) == ClaimFault(claims[..i])
    decreases |claims| - i
  {
    hide AddressFault, KeyLeaf;
    if i == |claims| {
      assert claims[..i] == claims;
    } else {
      assert claims[..i + 1][..i] == claims[..i];
      ClaimFaultSticks(claims, i + 1);
    }
  }

  lemma {:induction false} AddressFaultSticks(front: seq<LeafClaim>, c: LeafClaim, j: nat)
    requires j <= |c.addresses| && AddressFault(front, c, j).Some?
    ensures AddressFault(front, c, |c.addresses|) == AddressFault(front, c, j)
    decreases |c.addresses| - j
  {
    hide AddressLeaf;
    if j < |c.addresses| { AddressFaultSticks(front, c, j + 1); }
  }

  method IndexAddresses(byAddress: Index, ghost front: seq<LeafClaim>, c: LeafClaim)
      returns (r: Result<Index, ClaimError>)
    requires forall a :: Get(byAddress, a) == AddressLeaf(front, a)
    ensures match AddressFault(front, c, |c.addresses|)
            case Some(e) => r == Err(e)
            case None => r.Ok? && forall a :: Get(r.value, a) == if a in c.addresses then Some(c.leaf)
                else AddressLeaf(front, a)
  {
    var m, j := byAddress, 0;
    hide AddressLeaf;
    while j < |c.addresses|
      invariant 0 <= j <= |c.addresses| && AddressFault(front, c, j).None?
      invariant forall a :: Get(m, a) == if a in c.addresses[..j] then Some(c.leaf) else AddressLeaf(front, a)
    {
      var a := c.addresses[j];
      assert Get(m, a) == if a in c.addresses[..j] then Some(c.leaf) else AddressLeaf(front, a);
      if a in m {
        AddressFaultSticks(front, c, j + 1);
        return Err(DuplicateAddress(a, m[a], c.leaf));
      }
      assert c.addresses[..j + 1] == c.addresses[..j] + [a];
      m := m[a := c.leaf];
      j := j + 1;
    }
    assert c.addresses[..j] == c.addresses;
    return Ok(m);
  }

  lemma KeyLeafStep(claims: seq<LeafClaim>, i: nat, k: string)
    requires i < |claims|
    ensures KeyLeaf(claims[..i + 1], k) == if k == claims[i].key then Some(claims[i].leaf) else KeyLeaf(claims[..i], k)
  {
    assert claims[..i + 1][..i] == claims[..i];
  }

  lemma AddressLeafStep(claims: seq<LeafClaim>, i: nat, a: string)
    requires i < |claims|
    ensures AddressLeaf(claims[..i + 1], a) == if a in claims[i].addresses then Some(claims[i].leaf)
            else AddressLeaf(claims[..i], a)
  {
    assert claims[..i + 1][..i] == claims[..i];
  }

  lemma ClaimStep(claims: seq<LeafClaim>, i: nat)
    requires i < |claims| && ClaimFault(claims[..i]).None?
    ensures var front, c := claims[..i], claims[i];
            ClaimFault(claims[..i + 1]) == if KeyLeaf(front, c.key).Some? then Some(DuplicateKey(c.key))
                else AddressFault(front, c, |c.addresses|)
  {
    hide AddressFault, KeyLeaf;
    assert claims[..i + 1][..i] == claims[..i];
  }

  lemma IndexStep(claims: seq<LeafClaim>, i: nat, byKey: Index, byAddress: Index, byAddress': Index)
    requires i < |claims| && Indexes(byKey, byAddress, claims[..i])
    requires forall a :: Get(byAddress', a) == if a in claims[i].addresses then Some(claims[i].leaf)
            else AddressLeaf(claims[..i], a)
    ensures Indexes(byKey[claims[i].key := claims[i].leaf], byAddress', claims[..i + 1])
  {
    hide KeyLeaf, AddressLeaf;
    var byKey' := byKey[claims[i].key := claims[i].leaf];
    forall k ensures Get(byKey', k) == KeyLeaf(claims[..i + 1], k) {
      KeyLeafStep(claims, i, k);
      assert Get(byKey, k) == KeyLeaf(claims[..i], k);
    }
    forall a ensures Get(byAddress', a) == AddressLeaf(claims[..i + 1], a) { AddressLeafStep(claims, i, a); }
  }

  method IndexClaims(claims: seq<LeafClaim>) returns (r: Result<(Index, Index), ClaimError>)
    ensures match ClaimFault(claims)
            case Some(e) => r == Err(e)
            case None => r.Ok? && Indexes(r.value.0, r.value.1, claims)
  {
    var byKey: Index, byAddress: Index, i := map[], map[], 0;
    hide AddressFault;
    while i < |claims|
      invariant 0 <= i <= |claims| && ClaimFault(claims[..i]).None?
      invariant Indexes(byKey, byAddress, claims[..i])
    {
      hide KeyLeaf, AddressLeaf, ClaimFault;
      var c := claims[i];
      ClaimStep(claims, i);
      assert Get(byKey, c.key) == KeyLeaf(claims[..i], c.key);
      if c.key in byKey {
        ClaimFaultSticks(claims, i + 1);
        return Err(DuplicateKey(c.key));
      }
      var more := IndexAddresses(byAddress, claims[..i], c);
      if more.Err? {
        ClaimFaultSticks(claims, i + 1);
        return Err(more.error);
      }
      IndexStep(claims, i, byKey, byAddress, more.value);
      byKey, byAddress := byKey[c.key := c.leaf], more.value;
      i := i + 1;
    }
    assert claims[..i] == claims;
    return Ok((byKey, byAddress));
  }

  type Buckets = map<string, seq<string>>

  ghost predicate Filled(claims: seq<LeafClaim>, addresses: seq<string>, placed: Buckets, unplaced: seq<string>) {
    && unplaced == Lost(claims, addresses)
    && placed.Keys == Placed(claims, addresses)
    && forall l :: l in placed ==> placed[l] == Mine(claims, addresses)(l)
  }

  lemma NothingFilled(claims: seq<LeafClaim>)
    ensures Filled(claims, [], map[], [])
  {
  }

  lemma PlacedStep(claims: seq<LeafClaim>, addresses: seq<string>, a: string)
    ensures Placed(claims, addresses + [a]) ==
            Placed(claims, addresses) + (if PlaceOf(claims)(a).Some? then {PlaceOf(claims)(a).value} else {})
  {
    hide PlaceOf;
    forall l ensures l in Placed(claims, addresses + [a]) <==>
                     l in Placed(claims, addresses) || PlaceOf(claims)(a) == Some(l) {
      if l in Placed(claims, addresses) {
        var x :| x in addresses && PlaceOf(claims)(x) == Some(l);
        assert x in addresses + [a];
      }
      assert a in addresses + [a];
    }
  }

  lemma MineStep(claims: seq<LeafClaim>, addresses: seq<string>, a: string, l: string)
    ensures PlaceOf(claims)(a) == Some(l) ==> Mine(claims, addresses + [a])(l) == Mine(claims, addresses)(l) + [a]
    ensures PlaceOf(claims)(a) != Some(l) ==> Mine(claims, addresses + [a])(l) == Mine(claims, addresses)(l)
  {
    hide PlaceOf, Having;
    HavingStep(addresses, a, PlaceOf(claims), {Some(l)});
    assert Mine(claims, addresses)(l) + [] == Mine(claims, addresses)(l);
  }

  lemma LostStep(claims: seq<LeafClaim>, addresses: seq<string>, a: string)
    ensures Lost(claims, addresses + [a]) == if PlaceOf(claims)(a).None? then Lost(claims, addresses) + [a]
            else Lost(claims, addresses)
  {
    hide PlaceOf, Having;
    var nowhere: set<Option<string>> := {None};
    HavingStep(addresses, a, PlaceOf(claims), nowhere);
    assert Lost(claims, addresses) + [] == Lost(claims, addresses);
  }

  lemma FilledStep(claims: seq<LeafClaim>, addresses: seq<string>, a: string, placed: Buckets, unplaced: seq<string>)
    requires Filled(claims, addresses, placed, unplaced)
    ensures match PlaceOf(claims)(a)
            case Some(l) => Filled(claims, addresses + [a], placed[l := (if l in placed then placed[l] else []) + [a]],
                unplaced)
            case None => Filled(claims, addresses + [a], placed, unplaced + [a])
  {
    hide PlaceOf, Mine, Placed, Lost;
    PlacedStep(claims, addresses, a);
    LostStep(claims, addresses, a);
    var where := PlaceOf(claims)(a);
    var placed' := if where.None? then placed
        else placed[where.value := (if where.value in placed then placed[where.value] else []) + [a]];
    forall l | l in placed' ensures placed'[l] == Mine(claims, addresses + [a])(l) {
      MineStep(claims, addresses, a, l);
      if l !in placed { NotYet(claims, addresses, l); }
    }
  }

  lemma NotYet(claims: seq<LeafClaim>, addresses: seq<string>, l: string)
    requires l !in Placed(claims, addresses)
    ensures Mine(claims, addresses)(l) == []
  {
    hide PlaceOf, Having;
    forall a | a in addresses ensures PlaceOf(claims)(a) != Some(l) {}
    NoneHave(addresses, PlaceOf(claims), Some(l));
  }

  lemma PlaceIs(claims: seq<LeafClaim>, byKey: Index, byAddress: Index, a: string)
    requires Indexes(byKey, byAddress, claims)
    ensures PlaceOf(claims)(a) ==
            if a in byAddress then Some(byAddress[a])
            else match LeafKeyOf(a)
              case Ok(Keyed(k)) => if k in byKey then Some(byKey[k]) else None
              case _ => None
  {
    hide KeyLeaf, AddressLeaf, LeafKeyOf;
    assert Get(byAddress, a) == AddressLeaf(claims, a);
    if LeafKeyOf(a).Ok? && LeafKeyOf(a).value.Keyed? {
      assert Get(byKey, LeafKeyOf(a).value.raw) == KeyLeaf(claims, LeafKeyOf(a).value.raw);
    }
  }

  method PlaceAll(claims: seq<LeafClaim>, byKey: Index, byAddress: Index, addresses: seq<string>)
    returns (placed: Buckets, unplaced: seq<string>)
    requires Indexes(byKey, byAddress, claims)
    ensures Filled(claims, addresses, placed, unplaced)
  {
    placed, unplaced := map[], [];
    var i := 0;
    NothingFilled(claims);
    assert addresses[..0] == [];
    hide *;
    while i < |addresses|
      invariant 0 <= i <= |addresses| && Filled(claims, addresses[..i], placed, unplaced)
    {
      var a := addresses[i];
      FilledStep(claims, addresses[..i], a, placed, unplaced);
      PlaceIs(claims, byKey, byAddress, a);
      assert addresses[..i] + [a] == addresses[..i + 1];
      var leaf: Option<string> := None;
      if a in byAddress {
        leaf := Some(byAddress[a]);
      } else {
        var key := LeafKeyOf(a);
        if key.Ok? && key.value.Keyed? && key.value.raw in byKey { leaf := Some(byKey[key.value.raw]); }
      }
      assert leaf == PlaceOf(claims)(a);
      if leaf.Some? {
        placed := placed[leaf.value := (if leaf.value in placed then placed[leaf.value] else []) + [a]];
      } else {
        unplaced := unplaced + [a];
      }
      i := i + 1;
    }
    assert addresses[..i] == addresses;
  }

  /** `moves_by_claims`. */
  method MovesByClaims(fat: string, ns: Option<string>, doc: State, claims: seq<LeafClaim>)
    returns (r: Result<seq<StateMove>, ClaimError>)
    ensures r == MovesOf(fat, ns, doc, claims)
  {
    hide ClaimFault, Addresses, Lost, Placed, Mine, Indexes;
    var index := IndexClaims(claims);
    if index.Err? { return Err(index.error); }
    var (byKey, byAddress) := index.value;
    var addresses := AddressesFromState(doc);
    if addresses.Err? { return Err(BadSource(addresses.error)); }
    var placed, unplaced := PlaceAll(claims, byKey, byAddress, addresses.value);
    if unplaced != [] { return Err(Unplaced(|unplaced|, unplaced[0])); }
    var leaves := InNameOrder(placed.Keys);
    SameMoves(fat, ns, leaves, Mine(claims, addresses.value), placed);
    return Ok(MovesFor(fat, ns, leaves, (l: string) => if l in placed then placed[l] else []));
  }

  lemma SameMoves(fat: string, ns: Option<string>, leaves: seq<string>, mine: string -> seq<string>, placed: Buckets)
    requires forall l :: l in leaves ==> l in placed && placed[l] == mine(l)
    ensures MovesFor(fat, ns, leaves, (l: string) => if l in placed then placed[l] else []) ==
            MovesFor(fat, ns, leaves, mine)
  {
  }

  // ----- the moves are good -----------------------------------------------------------------------------------

  /** Moves are found exactly when the claims are in order, the state can be read, and every address has a leaf. */
  lemma MovesExactly(fat: string, ns: Option<string>, doc: State, claims: seq<LeafClaim>)
    ensures MovesOf(fat, ns, doc, claims).Ok? <==>
            && KeysDiffer(claims) && NoRepeats(Spread(claims, Listed))
            && Addresses(doc).Ok? && forall a :: a in Addresses(doc).value ==> PlaceOf(claims)(a).Some?
  {
    hide KeysDiffer, NoRepeats, Spread, ClaimFault, PlaceOf, Addresses, Having, Placed;
    ClaimFaultExactly(claims);
    if Addresses(doc).Ok? {
      var addresses := Addresses(doc).value;
      var nowhere: set<Option<string>> := {None};
      HavingMembers(addresses, PlaceOf(claims), nowhere);
      var lost := Lost(claims, addresses);
      if lost != [] { assert lost[0] in lost; }
    }
  }

  /** They go to distinct leaves and claim every address of the state as often as it occurs. */
  lemma MovesCover(fat: string, ns: Option<string>, doc: State, claims: seq<LeafClaim>)
    requires MovesOf(fat, ns, doc, claims).Ok?
    ensures var moves := MovesOf(fat, ns, doc, claims).value;
            && MoveFault(fat, moves).None? && (moves == [] <==> Addresses(doc).value == [])
            && multiset(Claimed(moves)) == multiset(Addresses(doc).value)
  {
    hide KeysDiffer, Spread, ClaimFault, PlaceOf, Addresses, Having, MoveFault, NoRepeats;
    var addresses := Addresses(doc).value;
    var leaves, mine := InNameOrder(Placed(claims, addresses)), Mine(claims, addresses);
    var moves := MovesFor(fat, ns, leaves, mine);
    MovesExactly(fat, ns, doc, claims);
    MovesOkExactly(fat, moves);
    LeavesDiffer(leaves);
    SameSpread(moves, MoveAddresses, leaves, mine);
    CoversAll(claims, addresses, leaves);
    if addresses != [] { assert addresses[0] in addresses; assert PlaceOf(claims)(addresses[0]).value in leaves; }
    if moves != [] { assert leaves[0] in leaves; }
  }

  lemma LeavesDiffer(leaves: seq<string>)
    requires NoRepeats(leaves)
    ensures forall i, j :: 0 <= i < j < |leaves| ==> leaves[i] != leaves[j]
  {
  }

  lemma CoversAll(claims: seq<LeafClaim>, addresses: seq<string>, leaves: seq<string>)
    requires NoRepeats(leaves) && (forall l :: l in leaves <==> l in Placed(claims, addresses))
    requires forall a :: a in addresses ==> PlaceOf(claims)(a).Some?
    ensures multiset(Spread(leaves, Mine(claims, addresses))) == multiset(addresses)
  {
    hide PlaceOf, Having, Spread;
    var c := (a: string) => PlaceOf(claims)(a).GetOr("");
    forall l | l in leaves ensures Mine(claims, addresses)(l) == Having(addresses, c, {l}) {
      SameClass(claims, addresses, c, l);
    }
    forall a | a in addresses ensures c(a) in leaves { assert PlaceOf(claims)(a).value in Placed(claims, addresses); }
    ClassesRearrange(addresses, c, leaves, Mine(claims, addresses));
  }

  lemma {:induction false} SameClass(claims: seq<LeafClaim>, addresses: seq<string>, c: string -> string, l: string)
    requires forall a :: a in addresses ==> PlaceOf(claims)(a).Some? && c(a) == PlaceOf(claims)(a).value
    ensures Mine(claims, addresses)(l) == Having(addresses, c, {l})
  {
    hide PlaceOf;
    if addresses != [] {
      var front, last := addresses[..|addresses| - 1], addresses[|addresses| - 1];
      assert last in addresses && forall a :: a in front ==> a in addresses;
      SameClass(claims, front, c, l);
    }
  }

  /** So `split` accepts the moves of any claims over a state that is not empty and repeats no address. */
  lemma ClaimsAreAccepted(h: Hashes, fat: string, ns: Option<string>, doc: State, claims: seq<LeafClaim>)
    requires MovesOf(fat, ns, doc, claims).Ok?
    requires Addresses(doc).value != [] && NoRepeats(Addresses(doc).value)
    ensures SplitOf(h, fat, doc, MovesOf(fat, ns, doc, claims).value).Ok?
  {
    var moves := MovesOf(fat, ns, doc, claims).value;
    hide *;
    MovesCover(fat, ns, doc, claims);
    NotEmptyOk(fat, moves);
    BijectiveMeans(Addresses(doc).value, Claimed(moves));
    SplitAccepts(h, fat, doc, moves);
  }

  /** And, unless the hash collides, only those. */
  lemma ClaimsAreAcceptedExactly(h: Hashes, fat: string, ns: Option<string>, doc: State, claims: seq<LeafClaim>)
    requires MovesOf(fat, ns, doc, claims).Ok?
    requires Addresses(doc).Ok? ==> NoCollision(h, Addresses(doc).value, Claimed(MovesOf(fat, ns, doc, claims).value))
    ensures SplitOf(h, fat, doc, MovesOf(fat, ns, doc, claims).value).Ok? <==>
            Addresses(doc).value != [] && NoRepeats(Addresses(doc).value)
  {
    var moves := MovesOf(fat, ns, doc, claims).value;
    hide *;
    MovesCover(fat, ns, doc, claims);
    MovesExactly(fat, ns, doc, claims);
    NotEmptyOk(fat, moves);
    SplitAcceptsExactly(h, fat, doc, moves);
    BijectiveMeans(Addresses(doc).value, Claimed(moves));
  }

  lemma NotEmptyOk(fat: string, moves: seq<StateMove>)
    requires MoveFault(fat, moves).None?
    ensures MovesFault(fat, moves).None? <==> moves != []
  {
  }

  // ----- which leaf gets which address ---------------------------------------------------------------------

  ghost predicate ListedBySome(claims: seq<LeafClaim>, a: string) { exists c :: c in claims && a in c.addresses }

  /** The claim of a leaf to an address: it lists the address, or nobody does and the address has its key. */
  ghost predicate ClaimedBy(claims: seq<LeafClaim>, a: string, c: LeafClaim) {
    c in claims && (a in c.addresses || (!ListedBySome(claims, a) && LeafKeyOf(a) == Ok(Keyed(c.key))))
  }

  ghost predicate Belongs(claims: seq<LeafClaim>, a: string, leaf: string) {
    exists c :: ClaimedBy(claims, a, c) && c.leaf == leaf
  }

  lemma {:induction false} KeyLeafIs(claims: seq<LeafClaim>, key: string)
    requires KeysDiffer(claims)
    ensures forall c :: c in claims && c.key == key ==> KeyLeaf(claims, key) == Some(c.leaf)
    ensures KeyLeaf(claims, key).Some? ==>
              exists c :: c in claims && c.key == key && KeyLeaf(claims, key) == Some(c.leaf)
  {
    if claims != [] {
      var front, last := claims[..|claims| - 1], claims[|claims| - 1];
      assert claims == front + [last];
      LastKey(claims);
      KeyLeafIs(front, key);
      hide KeysDiffer;
      assert forall c :: c in front ==> exists i :: 0 <= i < |front| && front[i] == c;
      assert last in claims;
    }
  }

  lemma {:induction false} AddressLeafIs(claims: seq<LeafClaim>, a: string)
    requires NoRepeats(Spread(claims, Listed))
    ensures forall c :: c in claims && a in c.addresses ==> AddressLeaf(claims, a) == Some(c.leaf)
    ensures AddressLeaf(claims, a).Some? ==>
              exists c :: c in claims && a in c.addresses && AddressLeaf(claims, a) == Some(c.leaf)
  {
    if claims != [] {
      var front, last := claims[..|claims| - 1], claims[|claims| - 1];
      assert claims == front + [last];
      NoRepeatsParts(Spread(front, Listed), last.addresses);
      AddressLeafIs(front, a);
      AddressLeafExactly(front, a);
      hide NoRepeats, Spread;
      assert last in claims;
    }
  }

  /** Where claims are in order, an address goes to the leaf that lists it, if one does, and otherwise to the leaf of
      its key. */
  lemma PlacedExactly(claims: seq<LeafClaim>, a: string, leaf: string)
    requires ClaimFault(claims).None?
    ensures PlaceOf(claims)(a) == Some(leaf) <==> Belongs(claims, a, leaf)
  {
    hide LeafKeyOf, KeyLeaf, AddressLeaf, NoRepeats, KeysDiffer, Spread, ClaimFault;
    ClaimFaultExactly(claims);
    AddressLeafIs(claims, a);
    assert ListedBySome(claims, a) <==> AddressLeaf(claims, a).Some?;
    if AddressLeaf(claims, a).Some? {
      var c :| c in claims && a in c.addresses && AddressLeaf(claims, a) == Some(c.leaf);
      assert ClaimedBy(claims, a, c);
    } else if LeafKeyOf(a).Ok? && LeafKeyOf(a).value.Keyed? {
      var key := LeafKeyOf(a).value.raw;
      KeyLeafIs(claims, key);
      if KeyLeaf(claims, key).Some? {
        var c :| c in claims && c.key == key && KeyLeaf(claims, key) == Some(c.leaf);
        assert ClaimedBy(claims, a, c);
      }
    }
  }

  /** Every move leaves the fat template for a leaf of the claims, in the namespace given, with exactly the addresses of
      the state that belong to that leaf; the moves are in the order of their targets. */
  lemma MovesHold(fat: string, ns: Option<string>, doc: State, claims: seq<LeafClaim>)
    requires MovesOf(fat, ns, doc, claims).Ok?
    ensures var moves := MovesOf(fat, ns, doc, claims).value;
            && Addresses(doc).Ok?
            && (forall i :: 0 <= i < |moves| ==>
                  && moves[i].fromTemplate == fat && moves[i].pangeaNamespace == ns
                  && forall a :: a in moves[i].addresses <==>
                                 a in Addresses(doc).value && Belongs(claims, a, moves[i].toTemplate))
            && (forall i, j :: 0 <= i < j < |moves| ==>
                  StrLe(moves[i].toTemplate, moves[j].toTemplate) && moves[i].toTemplate != moves[j].toTemplate)
  {
    hide ClaimFault, PlaceOf, Addresses, Having, Placed, Belongs, Lost, StrLe, TotalOrder, InOrder;
    StrLeIsTotalOrder();
    var moves, addresses := MovesOf(fat, ns, doc, claims).value, Addresses(doc).value;
    var leaves := InNameOrder(Placed(claims, addresses));
    assert leaves == InOrder(Placed(claims, addresses), StrLe);
    forall i | 0 <= i < |moves|
      ensures moves[i].fromTemplate == fat && moves[i].pangeaNamespace == ns
      ensures forall a :: a in moves[i].addresses <==>
                          a in addresses && Belongs(claims, a, moves[i].toTemplate)
    {
      MineExactly(claims, addresses, moves[i].toTemplate);
    }
  }

  lemma MineExactly(claims: seq<LeafClaim>, addresses: seq<string>, leaf: string)
    requires ClaimFault(claims).None?
    ensures forall a :: a in Mine(claims, addresses)(leaf) <==> a in addresses && Belongs(claims, a, leaf)
  {
    hide ClaimFault, PlaceOf, Having, Belongs;
    var there: set<Option<string>> := {Some(leaf)};
    HavingMembers(addresses, PlaceOf(claims), there);
    forall a ensures PlaceOf(claims)(a) in there <==> Belongs(claims, a, leaf) { PlacedExactly(claims, a, leaf); }
  }

  /** A key claimed again is reported at the claim that repeats it, before any of that claim's addresses. */
  lemma FirstFaultyKey(claims: seq<LeafClaim>, i: nat)
    requires i < |claims| && ClaimFault(claims[..i]).None?
    requires exists k :: 0 <= k < i && claims[k].key == claims[i].key
    ensures ClaimFault(claims) == Some(DuplicateKey(claims[i].key))
  {
    var front := claims[..i];
    hide KeyLeaf;
    KeyLeafExactly(front, claims[i].key);
    assert claims[..i + 1][..i] == front;
    var k :| 0 <= k < i && claims[k].key == claims[i].key;
    assert front[k] == claims[k];
    ClaimFaultSticks(claims, i + 1);
  }

  /** An address claimed again is reported with the leaf that had it first and the leaf that repeats it. */
  lemma FirstFaultyAddress(claims: seq<LeafClaim>, i: nat, j: nat, first: LeafClaim)
    requires i < |claims| && ClaimFault(claims[..i]).None? && j < |claims[i].addresses|
    requires forall k :: 0 <= k < i ==> claims[k].key != claims[i].key
    requires NoRepeats(claims[i].addresses[..j])
    requires forall q, k :: 0 <= q < j && 0 <= k < i ==> claims[i].addresses[q] !in claims[k].addresses
    requires var a := claims[i].addresses[j];
             if a in claims[i].addresses[..j] then first == claims[i] else first in claims[..i] && a in first.addresses
    ensures ClaimFault(claims) == Some(DuplicateAddress(claims[i].addresses[j], first.leaf, claims[i].leaf))
  {
    var front, c := claims[..i], claims[i];
    hide KeyLeaf, AddressLeaf, NoRepeats, KeysDiffer, Spread;
    ClaimFaultExactly(front);
    KeyLeafExactly(front, c.key);
    assert claims[..i + 1][..i] == front;
    SpreadMembers(front, Listed);
    AddressFaultExactly(front, c, j);
    AddressLeafIs(front, c.addresses[j]);
    AddressFaultSticks(front, c, j + 1);
    ClaimFaultSticks(claims, i + 1);
  }

  lemma {:induction false} LostAt(claims: seq<LeafClaim>, addresses: seq<string>) returns (at: seq<nat>)
    ensures forall i :: 0 <= i < |addresses| ==> (i in at <==> PlaceOf(claims)(addresses[i]).None?)
    ensures forall k :: 0 <= k < |at| ==> at[k] < |addresses|
    ensures forall k, l :: 0 <= k < l < |at| ==> at[k] < at[l]
    ensures |Lost(claims, addresses)| == |at|
    ensures at != [] ==> Lost(claims, addresses)[0] == addresses[at[0]]
  {
    hide PlaceOf;
    if addresses == [] {
      at := [];
    } else {
      var n := |addresses| - 1;
      var front := addresses[..n];
      assert addresses == front + [addresses[n]];
      LostStep(claims, front, addresses[n]);
      at := LostAt(claims, front);
      assert n !in at;
      if PlaceOf(claims)(addresses[n]).None? { at := at + [n]; }
    }
  }

  /** Claims that leave addresses without a leaf are refused with the number of these and the first of them: `at` lists
      their positions. */
  lemma UnplacedExactly(fat: string, ns: Option<string>, doc: State, claims: seq<LeafClaim>) returns (at: seq<nat>)
    requires ClaimFault(claims).None? && Addresses(doc).Ok?
    ensures var addresses := Addresses(doc).value;
            && (forall i :: 0 <= i < |addresses| ==> (i in at <==> forall leaf :: !Belongs(claims, addresses[i], leaf)))
            && (forall k :: 0 <= k < |at| ==> at[k] < |addresses|)
            && (forall k, l :: 0 <= k < l < |at| ==> at[k] < at[l])
            && (at != [] ==> MovesOf(fat, ns, doc, claims) == Err(Unplaced(|at|, addresses[at[0]])))
            && (at == [] ==> MovesOf(fat, ns, doc, claims).Ok?)
  {
    hide ClaimFault, Addresses, Belongs, PlaceOf, Lost;
    var addresses := Addresses(doc).value;
    at := LostAt(claims, addresses);
    forall i | 0 <= i < |addresses| ensures i in at <==> forall leaf :: !Belongs(claims, addresses[i], leaf) {
      var where := PlaceOf(claims)(addresses[i]);
      forall leaf ensures where == Some(leaf) <==> Belongs(claims, addresses[i], leaf) {
        PlacedExactly(claims, addresses[i], leaf);
      }
      if where.Some? { assert Belongs(claims, addresses[i], where.value); }
    }
  }
}
