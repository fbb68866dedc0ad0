/**
  The interpreter's class hierarchy and the uncached method lookup: ancestors, lookup chains and
  the first definition along a chain.  Modules and objects are named by their ids.
*/
module Hierarchy {
  import opened Prelude

  type Id = nat

  datatype Meth = Defined(body: nat) | Undefined

  datatype Module = Module(
    isClass: bool, superclass: Option<Id>, methods: map<string, Meth>, includes: seq<Id>, prepends: seq<Id>,
        meta: Option<Id>)

  datatype Obj = Obj(class_: Id, singleton: Option<Id>)

  /** An object, a module, or a core value, which is known by its built-in class. */
  datatype Value = Object(o: Id) | Mod(m: Id) | Core(cls: Id)

  /** `classId` and `moduleId` are the built-in classes `Class` and `Module`. */
  datatype Hier = Hier(mods: map<Id, Module>, objs: map<Id, Obj>, classId: Id, moduleId: Id)

  function Blank(): Module { Module(false, None, map[], [], [], None) }

  function At(h: Hier, m: Id): Module { if m in h.mods then h.mods[m] else Blank() }

  function ObjAt(h: Hier, o: Id): Obj { if o in h.objs then h.objs[o] else Obj(h.classId, None) }

  // ----- acyclic hierarchies ---------------------------------------------------------------------

  ghost predicate Link(h: Hier, m: Id, l: Id) {
    m in h.mods && (h.mods[m].superclass == Some(l) || l in h.mods[m].includes || l in h.mods[m].prepends)
  }

  ghost predicate Ranks(h: Hier, r: Id -> nat) { forall m, l :: Link(h, m, l) ==> r(l) < r(m) }

  /** No module is its own ancestor: every link goes down in some rank.  On any other hierarchy the walks below
      would not end. */
  ghost predicate Acyclic(h: Hier) { exists r: Id -> nat :: Ranks(h, r) }

  ghost function RankOf(h: Hier): (r: Id -> nat)
    requires Acyclic(h)
    ensures Ranks(h, r)
  {
    var r: Id -> nat :| Ranks(h, r);
    r
  }

  lemma Lower(h: Hier, m: Id, l: Id)
    requires Acyclic(h) && Link(h, m, l)
    ensures RankOf(h)(l) < RankOf(h)(m)
  {
  }

  // ----- ancestors ---------------------------------------------------------------------------------

  /** A module followed by what it includes, last included first. */
  function Push(h: Hier, m: Id): seq<Id>
    requires Acyclic(h)
    decreases RankOf(h)(m), 1, 0
  {
    [m] + PushIncludes(h, m, |At(h, m).includes|)
  }

  function PushIncludes(h: Hier, m: Id, i: nat): seq<Id>
    requires Acyclic(h) && i <= |At(h, m).includes|
    decreases RankOf(h)(m), 0, i
  {
    if i == 0 then []
    else
      var inc := At(h, m).includes[i - 1];
      Lower(h, m, inc);
      Push(h, inc) + PushIncludes(h, m, i - 1)
  }

  function PushPrepends(h: Hier, m: Id, i: nat): seq<Id>
    requires Acyclic(h) && i <= |At(h, m).prepends|
  {
    if i == 0 then [] else Push(h, At(h, m).prepends[i - 1]) + PushPrepends(h, m, i - 1)
  }

  /** One class with its prepended and included modules. */
  function Around(h: Hier, m: Id): seq<Id>
    requires Acyclic(h)
  {
    PushPrepends(h, m, |At(h, m).prepends|) + [m] + PushIncludes(h, m, |At(h, m).includes|)
  }

  function Raw(h: Hier, m: Id): seq<Id>
    requires Acyclic(h)
    decreases RankOf(h)(m)
  {
    match At(h, m).superclass
    case None => Around(h, m)
    case Some(s) =>
      Lower(h, m, s);
      Around(h, m) + Raw(h, s)
  }

  /** The last occurrence of each module. */
  function Dedup(s: seq<Id>): seq<Id> {
    if s == [] then [] else if s[0] in s[1..] then Dedup(s[1..]) else [s[0]] + Dedup(s[1..])
  }

  function Ancestors(h: Hier, m: Id): seq<Id>
    requires Acyclic(h)
  {
    Dedup(Raw(h, m))
  }

  // ----- lookup chains --------------------------------------------------------------------------------

  function Tail(s: seq<Id>): seq<Id> { if s == [] then [] else s[1..] }

  function SingletonPart(h: Hier, s: Id, i: nat): seq<Id>
    requires Acyclic(h) && i <= |At(h, s).includes|
  {
    if i == 0 then []
    else
      var inc := At(h, s).includes[i - 1];
      [inc] + Tail(Ancestors(h, inc)) + SingletonPart(h, s, i - 1)
  }

  function MetaIncludes(h: Hier, t: Id, i: nat): seq<Id>
    requires Acyclic(h) && i <= |At(h, t).includes|
  {
    if i == 0 then [] else Ancestors(h, At(h, t).includes[i - 1]) + MetaIncludes(h, t, i - 1)
  }

  function MetaPart(h: Hier, m: Id): seq<Id>
    requires Acyclic(h)
  {
    match At(h, m).meta
    case None => []
    case Some(t) => [t] + MetaIncludes(h, t, |At(h, t).includes|)
  }

  function MetaChain(h: Hier, m: Id): seq<Id>
    requires Acyclic(h)
    decreases RankOf(h)(m)
  {
    if At(h, m).isClass && At(h, m).superclass.Some? then
      var s := At(h, m).superclass.value;
      Lower(h, m, s);
      MetaPart(h, m) + MetaChain(h, s)
    else MetaPart(h, m)
  }

  /** `lookup_chain_uncached`. */
  function Chain(h: Hier, v: Value): seq<Id>
    requires Acyclic(h)
  {
    match v
    case Object(o) =>
      (match ObjAt(h, o).singleton
       case Some(s) => [s] + SingletonPart(h, s, |At(h, s).includes|) + Ancestors(h, ObjAt(h, o).class_)
       case None => Ancestors(h, ObjAt(h, o).class_))
    case Mod(m) => MetaChain(h, m) + Ancestors(h, if At(h, m).isClass then h.classId else h.moduleId)
    case Core(c) => Ancestors(h, c)
  }

  type Found = Option<(Meth, Id)>

  /** The first definition along a chain; an undefinition hides what comes after it. */
  function Pick(h: Hier, chain: seq<Id>, name: string): Found {
    if chain == [] then None
    else if name in At(h, chain[0]).methods then
      (if At(h, chain[0]).methods[name].Undefined? then None else Some((At(h, chain[0]).methods[name], chain[0])))
    else Pick(h, chain[1..], name)
  }

  /** The uncached lookup. */
  function Lookup(h: Hier, v: Value, name: string): Found
    requires Acyclic(h)
  {
    Pick(h, Chain(h, v), name)
  }

  /** What the caches are indexed by. */
  type Key = (nat, Id)

  function ChainKey(h: Hier, v: Value): Key {
    match v
    case Object(o) => (match ObjAt(h, o).singleton case Some(s) => (1, s) case None => (0, ObjAt(h, o).class_))
    case Mod(m) => (2, m)
    case Core(c) => (0, c)
  }

  // ----- the walks --------------------------------------------------------------------------------------

  method PushModuleWithIncludes(h: Hier, m: Id, out: seq<Id>) returns (out': seq<Id>)
    requires Acyclic(h)
    ensures out' == out + Push(h, m)
    decreases RankOf(h)(m)
  {
    out' := out + [m];
    var incs := At(h, m).includes;
    var i := |incs|;
    while i > 0
      invariant 0 <= i <= |incs|
      invariant out' + PushIncludes(h, m, i) == out + Push(h, m)
    {
      Lower(h, m, incs[i - 1]);
      out' := PushModuleWithIncludes(h, incs[i - 1], out');
      i := i - 1;
    }
  }

  /** `ancestors`: class after class, then the duplicates out. */
  method WalkAncestors(h: Hier, m: Id) returns (r: seq<Id>)
    requires Acyclic(h)
    ensures r == Ancestors(h, m)
  {
    var out: seq<Id> := [];
    var cur := Some(m);
    while cur.Some?
      invariant out + (if cur.Some? then Raw(h, cur.value) else []) == Raw(h, m)
      decreases cur.Some?, if cur.Some? then RankOf(h)(cur.value) else 0
    {
      var c := cur.value;
      var more := WalkAround(h, c);
      out := out + more;
      cur := At(h, c).superclass;
      if cur.Some? { Lower(h, c, cur.value); }
    }
    assert out + [] == out;
    r := KeepLast(out);
  }

  method WalkAround(h: Hier, c: Id) returns (out: seq<Id>)
    requires Acyclic(h)
    ensures out == Around(h, c)
  {
    hide Acyclic, PushIncludes, PushPrepends;
    out := WalkPrepends(h, c);
    out := out + [c];
    var incs := WalkIncludes(h, c);
    out := out + incs;
  }

  method WalkPrepends(h: Hier, c: Id) returns (out: seq<Id>)
    requires Acyclic(h)
    ensures out == PushPrepends(h, c, |At(h, c).prepends|)
  {
    hide Acyclic, Push;
    out := [];
    var ps, i := At(h, c).prepends, |At(h, c).prepends|;
    while i > 0
      invariant 0 <= i <= |ps| && out + PushPrepends(h, c, i) == PushPrepends(h, c, |ps|)
    {
      out := PushModuleWithIncludes(h, ps[i - 1], out);
      i := i - 1;
    }
    assert out + [] == out;
  }

  method WalkIncludes(h: Hier, c: Id) returns (out: seq<Id>)
    requires Acyclic(h)
    ensures out == PushIncludes(h, c, |At(h, c).includes|)
  {
    hide Acyclic, Push;
    out := [];
    var incs, i := At(h, c).includes, |At(h, c).includes|;
    while i > 0
      invariant 0 <= i <= |incs| && out + PushIncludes(h, c, i) == PushIncludes(h, c, |incs|)
    {
      out := PushModuleWithIncludes(h, incs[i - 1], out);
      i := i - 1;
    }
    assert out + [] == out;
  }

  /** Walk backwards, keep what was not seen. */
  method KeepLast(out: seq<Id>) returns (dedup: seq<Id>)
    ensures dedup == Dedup(out)
  {
    var seen: set<Id> := {};
    dedup := [];
    var i := |out|;
    while i > 0
      invariant 0 <= i <= |out|
      invariant seen == (set x | x in out[i..]) && dedup == Dedup(out[i..])
    {
      i := i - 1;
      assert out[i..][1..] == out[i + 1..];
      assert out[i..] == [out[i]] + out[i + 1..];
      if out[i] !in seen {
        seen := seen + {out[i]};
        dedup := [out[i]] + dedup;
      }
    }
    assert out[0..] == out;
  }

  /** What `ancestors` returns has the same members, each once. */
  lemma {:induction false} DedupIsSet(s: seq<Id>)
    ensures forall x :: x in Dedup(s) <==> x in s
    ensures forall i, j :: 0 <= i < j < |Dedup(s)| ==> Dedup(s)[i] != Dedup(s)[j]
  {
    if s != [] {
      DedupIsSet(s[1..]);
      assert s == [s[0]] + s[1..];
    }
  }

  method WalkChain(h: Hier, v: Value) returns (out: seq<Id>)
    requires Acyclic(h)
    ensures out == Chain(h, v)
  {
    match v
    case Object(o) =>
      var obj := ObjAt(h, o);
      if obj.singleton.Some? {
        var s := obj.singleton.value;
        var c := WalkSingleton(h, s);
        var up := WalkAncestors(h, obj.class_);
        out := [s] + c + up;
      } else {
        out := WalkAncestors(h, obj.class_);
      }
    case Mod(m) =>
      var front := WalkMeta(h, m);
      var up := WalkAncestors(h, if At(h, m).isClass then h.classId else h.moduleId);
      out := front + up;
    case Core(c) => out := WalkAncestors(h, c);
  }

  method WalkSingleton(h: Hier, s: Id) returns (c: seq<Id>)
    requires Acyclic(h)
    ensures c == SingletonPart(h, s, |At(h, s).includes|)
  {
    hide Acyclic, Ancestors, Tail, SingletonPart;
    c := [];
    var incs, i := At(h, s).includes, |At(h, s).includes|;
    while i > 0
      invariant 0 <= i <= |incs| && c + SingletonPart(h, s, i) == SingletonPart(h, s, |incs|)
    {
      SingletonStep(h, s, i);
      var up := WalkAncestors(h, incs[i - 1]);
      c := c + ([incs[i - 1]] + Tail(up));
      i := i - 1;
    }
    NoSingletonPart(h, s);
    assert c + [] == c;
  }

  lemma SingletonStep(h: Hier, s: Id, i: nat)
    requires Acyclic(h) && 0 < i <= |At(h, s).includes|
    ensures var inc := At(h, s).includes[i - 1];
            SingletonPart(h, s, i) == ([inc] + Tail(Ancestors(h, inc))) + SingletonPart(h, s, i - 1)
  {
    hide Acyclic, Ancestors, Tail;
  }

  lemma NoSingletonPart(h: Hier, s: Id)
    requires Acyclic(h)
    ensures SingletonPart(h, s, 0) == []
  {
  }

  method WalkMeta(h: Hier, m: Id) returns (out: seq<Id>)
    requires Acyclic(h)
    ensures out == MetaChain(h, m)
  {
    out := [];
    var cur := Some(m);
    hide MetaChain, MetaIncludes, MetaPart, Acyclic;
    while cur.Some?
      invariant out + (if cur.Some? then MetaChain(h, cur.value) else []) == MetaChain(h, m)
      decreases cur.Some?, if cur.Some? then RankOf(h)(cur.value) else 0
    {
      var c := cur.value;
      MetaStep(h, c);
      var part := WalkMetaPart(h, c);
      out := out + part;
      cur := if At(h, c).isClass then At(h, c).superclass else None;
      if cur.Some? { Lower(h, c, cur.value); }
    }
    assert out + [] == out;
  }

  lemma MetaStep(h: Hier, c: Id)
    requires Acyclic(h)
    ensures var next := if At(h, c).isClass then At(h, c).superclass else None;
            MetaChain(h, c) == MetaPart(h, c) + if next.Some? then MetaChain(h, next.value) else []
  {
    hide MetaPart;
  }

  method WalkMetaPart(h: Hier, c: Id) returns (out: seq<Id>)
    requires Acyclic(h)
    ensures out == MetaPart(h, c)
  {
    out := [];
    if At(h, c).meta.Some? {
      var part := WalkMetaIncludes(h, At(h, c).meta.value);
      out := [At(h, c).meta.value] + part;
    }
  }

  method WalkMetaIncludes(h: Hier, t: Id) returns (out: seq<Id>)
    requires Acyclic(h)
    ensures out == MetaIncludes(h, t, |At(h, t).includes|)
  {
    hide Acyclic, Ancestors;
    out := [];
    var incs, i := At(h, t).includes, |At(h, t).includes|;
    while i > 0
      invariant 0 <= i <= |incs| && out + MetaIncludes(h, t, i) == MetaIncludes(h, t, |incs|)
    {
      var up := WalkAncestors(h, incs[i - 1]);
      out := out + up;
      i := i - 1;
    }
  }

  method WalkPick(h: Hier, chain: seq<Id>, name: string) returns (found: Found)
    ensures found == Pick(h, chain, name)
  {
    found := None;
    var i := 0;
    assert chain[0..] == chain;
    while i < |chain|
      invariant 0 <= i <= |chain| && found == None
      invariant Pick(h, chain[i..], name) == Pick(h, chain, name)
    {
      assert chain[i..][0] == chain[i] && chain[i..][1..] == chain[i + 1..];
      if name in At(h, chain[i]).methods {
        var me := At(h, chain[i]).methods[name];
        if !me.Undefined? { found := Some((me, chain[i])); }
        return;
      }
      i := i + 1;
    }
  }
}
