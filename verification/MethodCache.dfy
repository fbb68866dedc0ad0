/**
  The interpreter's two caches, chains by value and methods by value and name, stamped with a
  global epoch that the hierarchy's accessors advance.
*/
module MethodCache {
  import opened Prelude
  import opened Hierarchy

  // ----- well-formed hierarchies ------------------------------------------------------------------

  ghost predicate Closed(h: Hier) {
    && h.classId in h.mods && h.moduleId in h.mods
    && (forall m, l :: Link(h, m, l) ==> l in h.mods)
    && (forall m :: m in h.mods && h.mods[m].meta.Some? ==> h.mods[m].meta.value in h.mods)
    && (forall o :: o in h.objs ==> h.objs[o].class_ in h.mods)
    && (forall o :: o in h.objs && h.objs[o].singleton.Some? ==> h.objs[o].singleton.value in h.mods)
  }

  /** Objects that share a singleton share their class: a singleton is made for one object, and only `clone` copies
      it, together with the class. */
  ghost predicate Shared(h: Hier) {
    forall o, p :: o in h.objs && p in h.objs && h.objs[o].singleton.Some? && h.objs[o].singleton == h.objs[p].singleton
      ==> h.objs[o].class_ == h.objs[p].class_
  }

  ghost predicate Good(h: Hier) { Closed(h) && Acyclic(h) && Shared(h) }

  predicate Known(h: Hier, v: Value) {
    match v
    case Object(o) => o in h.objs
    case Mod(m) => m in h.mods
    case Core(c) => c in h.mods
  }

  /** The key tells all that a chain depends on. */
  lemma SameKeySameChain(h: Hier, v: Value, w: Value)
    requires Good(h) && Known(h, v) && Known(h, w) && ChainKey(h, v) == ChainKey(h, w)
    ensures Chain(h, v) == Chain(h, w)
  {
    hide Ancestors, SingletonPart, MetaChain, Acyclic, Closed;
  }

  lemma KeyIsKnown(h: Hier, v: Value)
    requires Good(h) && Known(h, v)
    ensures ChainKey(h, v).1 in h.mods
  {
    hide Acyclic, Shared;
  }

  // ----- changes ----------------------------------------------------------------------------------

  /** What a program does to the hierarchy.  The `Set` changes go through an accessor that advances the epoch;
      new modules and objects do not, and neither does `Push`, the `include` and `prepend` of a running program. */
  datatype Op =
    | NewModule(id: Id, isClass: bool, superclass: Option<Id>)
    | NewObject(id: Id, class_: Id)
    | CopyObject(id: Id, original: Id, withSingleton: bool)
    | SetMethods(m: Id, methods: map<string, Meth>)
    | SetIncludes(m: Id, includes: seq<Id>)
    | SetPrepends(m: Id, prepends: seq<Id>)
    | SetMeta(m: Id, meta: Option<Id>)
    | SetSuperclass(m: Id, superclass: Option<Id>)
    | SetSingleton(o: Id, singleton: Option<Id>)
    | Push(m: Id, inc: Id, prepend: bool)

  predicate Bumps(op: Op) { !(op.NewModule? || op.NewObject? || op.CopyObject? || op.Push?) }

  function WithModule(h: Hier, m: Id, new_: Module): Hier { h.(mods := h.mods[m := new_]) }

  function Pushed(m: Module, inc: Id, prepend: bool): Module {
    if prepend then (if inc in m.prepends then m else m.(prepends := m.prepends + [inc]))
    else (if inc in m.includes then m else m.(includes := m.includes + [inc]))
  }

  function Apply(h: Hier, op: Op): Hier {
    match op
    case NewModule(id, isClass, superclass) => WithModule(h, id, Module(isClass, superclass, map[], [], [], None))
    case NewObject(id, class_) => h.(objs := h.objs[id := Obj(class_, None)])
    case CopyObject(id, original, with) =>
      h.(objs := h.objs[id := Obj(ObjAt(h, original).class_, if with then ObjAt(h, original).singleton else None)])
    case SetMethods(m, methods) => WithModule(h, m, At(h, m).(methods := methods))
    case SetIncludes(m, includes) => WithModule(h, m, At(h, m).(includes := includes))
    case SetPrepends(m, prepends) => WithModule(h, m, At(h, m).(prepends := prepends))
    case SetMeta(m, meta) => WithModule(h, m, At(h, m).(meta := meta))
    case SetSuperclass(m, superclass) => WithModule(h, m, At(h, m).(superclass := superclass))
    case SetSingleton(o, singleton) => h.(objs := h.objs[o := ObjAt(h, o).(singleton := singleton)])
    case Push(m, inc, prepend) => WithModule(h, m, Pushed(At(h, m), inc, prepend))
  }

  /** A change that a program can make: it names what exists, new ids are new, and the result is again well formed. */
  ghost predicate Allowed(h: Hier, op: Op) {
    && Good(Apply(h, op))
    && match op
       case NewModule(id, _, _) => id !in h.mods
       case NewObject(id, _) => id !in h.objs
       case CopyObject(id, original, _) => id !in h.objs && original in h.objs
       case SetSingleton(o, _) => o in h.objs
       case SetMethods(m, _) => m in h.mods
       case SetIncludes(m, _) => m in h.mods
       case SetPrepends(m, _) => m in h.mods
       case SetMeta(m, _) => m in h.mods
       case SetSuperclass(m, _) => m in h.mods
       case Push(m, _, _) => m in h.mods
  }

  // ----- new modules and objects change no chain --------------------------------------------------

  /** `h'` is `h` with more modules and objects. */
  ghost predicate Extends(h: Hier, h': Hier) {
    && h'.classId == h.classId && h'.moduleId == h.moduleId
    && (forall m :: m in h.mods ==> m in h'.mods && h'.mods[m] == h.mods[m])
    && (forall o :: o in h.objs ==> o in h'.objs && h'.objs[o] == h.objs[o])
  }

  ghost predicate Grown(h: Hier, h': Hier) { Good(h) && Good(h') && Extends(h, h') }

  lemma GrownAt(h: Hier, h': Hier, m: Id)
    requires Grown(h, h') && m in h.mods
    ensures Acyclic(h) && Acyclic(h') && At(h', m) == At(h, m)
    ensures forall l :: Link(h, m, l) ==> l in h.mods
    ensures forall i :: 0 <= i < |At(h, m).includes| ==>
            At(h, m).includes[i] in h.mods && Link(h, m, At(h, m).includes[i])
    ensures forall i :: 0 <= i < |At(h, m).prepends| ==>
            At(h, m).prepends[i] in h.mods && Link(h, m, At(h, m).prepends[i])
    ensures At(h, m).superclass.Some? ==> At(h, m).superclass.value in h.mods && Link(h, m, At(h, m).superclass.value)
    ensures At(h, m).meta.Some? ==> At(h, m).meta.value in h.mods
  {
    hide Acyclic, Shared;
    assert forall i :: 0 <= i < |At(h, m).includes| ==> Link(h, m, At(h, m).includes[i]);
    assert forall i :: 0 <= i < |At(h, m).prepends| ==> Link(h, m, At(h, m).prepends[i]);
  }

  lemma {:induction false} PushSame(h: Hier, h': Hier, m: Id)
    requires Grown(h, h') && m in h.mods
    ensures Acyclic(h) && Acyclic(h') && Hierarchy.Push(h', m) == Hierarchy.Push(h, m)
    decreases RankOf(h)(m), 1, 0
  {
    hide Acyclic, Grown, Link;
    GrownAt(h, h', m);
    PushIncludesSame(h, h', m, |At(h, m).includes|);
  }

  lemma {:induction false} PushIncludesSame(h: Hier, h': Hier, m: Id, i: nat)
    requires Grown(h, h') && m in h.mods && i <= |At(h, m).includes|
    ensures Acyclic(h) && Acyclic(h') && At(h', m) == At(h, m) && PushIncludes(h', m, i) == PushIncludes(h, m, i)
    decreases RankOf(h)(m), 0, i
  {
    hide Acyclic, Grown, Link, Hierarchy.Push;
    GrownAt(h, h', m);
    if i > 0 {
      Lower(h, m, At(h, m).includes[i - 1]);
      PushSame(h, h', At(h, m).includes[i - 1]);
      PushIncludesSame(h, h', m, i - 1);
    }
  }

  lemma {:induction false} PushPrependsSame(h: Hier, h': Hier, m: Id, i: nat)
    requires Grown(h, h') && m in h.mods && i <= |At(h, m).prepends|
    ensures Acyclic(h) && Acyclic(h') && At(h', m) == At(h, m) && PushPrepends(h', m, i) == PushPrepends(h, m, i)
  {
    hide Acyclic, Grown, Link, Hierarchy.Push;
    GrownAt(h, h', m);
    if i > 0 {
      PushSame(h, h', At(h, m).prepends[i - 1]);
      PushPrependsSame(h, h', m, i - 1);
    }
  }

  lemma {:induction false} RawSame(h: Hier, h': Hier, m: Id)
    requires Grown(h, h') && m in h.mods
    ensures Acyclic(h) && Acyclic(h') && Raw(h', m) == Raw(h, m)
    decreases RankOf(h)(m)
  {
    hide Acyclic, Grown, Link, PushIncludes, PushPrepends;
    GrownAt(h, h', m);
    PushPrependsSame(h, h', m, |At(h, m).prepends|);
    PushIncludesSame(h, h', m, |At(h, m).includes|);
    if At(h, m).superclass.Some? {
      Lower(h, m, At(h, m).superclass.value);
      RawSame(h, h', At(h, m).superclass.value);
    }
  }

  lemma AncestorsSame(h: Hier, h': Hier, m: Id)
    requires Grown(h, h') && m in h.mods
    ensures Acyclic(h) && Acyclic(h') && Ancestors(h', m) == Ancestors(h, m)
  {
    hide Acyclic, Grown, Raw, Dedup;
    RawSame(h, h', m);
  }

  lemma {:induction false} SingletonSame(h: Hier, h': Hier, s: Id, i: nat)
    requires Grown(h, h') && s in h.mods && i <= |At(h, s).includes|
    ensures Acyclic(h) && Acyclic(h') && At(h', s) == At(h, s) && SingletonPart(h', s, i) == SingletonPart(h, s, i)
  {
    hide Acyclic, Grown, Link, Ancestors, Tail;
    GrownAt(h, h', s);
    if i > 0 {
      AncestorsSame(h, h', At(h, s).includes[i - 1]);
      SingletonSame(h, h', s, i - 1);
    }
  }

  lemma {:induction false} MetaIncludesSame(h: Hier, h': Hier, t: Id, i: nat)
    requires Grown(h, h') && t in h.mods && i <= |At(h, t).includes|
    ensures Acyclic(h) && Acyclic(h') && At(h', t) == At(h, t) && MetaIncludes(h', t, i) == MetaIncludes(h, t, i)
  {
    hide Acyclic, Grown, Link, Ancestors;
    GrownAt(h, h', t);
    if i > 0 {
      AncestorsSame(h, h', At(h, t).includes[i - 1]);
      MetaIncludesSame(h, h', t, i - 1);
    }
  }

  lemma MetaPartSame(h: Hier, h': Hier, m: Id)
    requires Grown(h, h') && m in h.mods
    ensures Acyclic(h) && Acyclic(h') && MetaPart(h', m) == MetaPart(h, m)
  {
    hide Acyclic, Grown, Link, MetaIncludes;
    GrownAt(h, h', m);
    if At(h, m).meta.Some? { MetaIncludesSame(h, h', At(h, m).meta.value, |At(h, At(h, m).meta.value).includes|); }
  }

  lemma {:induction false} MetaChainSame(h: Hier, h': Hier, m: Id)
    requires Grown(h, h') && m in h.mods
    ensures Acyclic(h) && Acyclic(h') && MetaChain(h', m) == MetaChain(h, m)
    decreases RankOf(h)(m)
  {
    hide Acyclic, Grown, Link, MetaPart;
    GrownAt(h, h', m);
    MetaPartSame(h, h', m);
    if At(h, m).superclass.Some? {
      Lower(h, m, At(h, m).superclass.value);
      MetaChainSame(h, h', At(h, m).superclass.value);
    }
  }

  /** Whatever exists keeps its key, its chain and its methods when modules and objects are added. */
  lemma ChainSame(h: Hier, h': Hier, v: Value)
    requires Grown(h, h') && Known(h, v)
    ensures Acyclic(h) && Acyclic(h') && ChainKey(h', v) == ChainKey(h, v) && Chain(h', v) == Chain(h, v)
  {
    hide Acyclic, SingletonPart, Ancestors, MetaChain, Shared, Link;
    match v
    case Object(o) =>
      AncestorsSame(h, h', h.objs[o].class_);
      if h.objs[o].singleton.Some? {
        SingletonSame(h, h', h.objs[o].singleton.value, |At(h, h.objs[o].singleton.value).includes|);
      }
    case Mod(m) =>
      MetaChainSame(h, h', m);
      AncestorsSame(h, h', if At(h, m).isClass then h.classId else h.moduleId);
    case Core(c) => AncestorsSame(h, h', c);
  }

  ghost predicate SameMethods(h: Hier, h': Hier) { forall m :: At(h', m).methods == At(h, m).methods }

  lemma {:induction false} PickSame(h: Hier, h': Hier, chain: seq<Id>, name: string)
    requires SameMethods(h, h')
    ensures Pick(h', chain, name) == Pick(h, chain, name)
  {
    hide At;
    if chain != [] { PickSame(h, h', chain[1..], name); }
  }

  /** A new module has no methods, and the other changes that keep the epoch touch none. */
  lemma QuietKeepsMethods(h: Hier, op: Op)
    requires Allowed(h, op) && !Bumps(op)
    ensures SameMethods(h, Apply(h, op))
  {
    hide Good;
  }

  lemma CreationGrows(h: Hier, op: Op)
    requires Good(h) && Allowed(h, op) && !Bumps(op) && !op.Push?
    ensures Grown(h, Apply(h, op))
  {
    hide Good;
  }

  // ----- the cached interpreter ------------------------------------------------------------------

  datatype Machine = Machine(
    h: Hier, epoch: nat, chains: map<Key, (nat, seq<Id>)>, methods: map<(Key, string), (nat, Found)>)

  predicate ChainHit(s: Machine, key: Key) { key in s.chains && s.chains[key].0 == s.epoch }

  predicate MethodHit(s: Machine, key: Key, name: string) {
    (key, name) in s.methods && s.methods[(key, name)].0 == s.epoch
  }

  /** `lookup_chain_rc`. */
  function LookupChain(s: Machine, v: Value): (Machine, seq<Id>)
    requires Acyclic(s.h)
  {
    var key := ChainKey(s.h, v);
    if ChainHit(s, key) then (s, s.chains[key].1)
    else
      var c := Chain(s.h, v);
      (s.(chains := s.chains[key := (s.epoch, c)]), c)
  }

  /** `find_method`. */
  function FindMethod(s: Machine, v: Value, name: string): (Machine, Found)
    requires Acyclic(s.h)
  {
    var key := ChainKey(s.h, v);
    if MethodHit(s, key, name) then (s, s.methods[(key, name)].1)
    else
      var (s', chain) := LookupChain(s, v);
      var found := Pick(s.h, chain, name);
      (s'.(methods := s'.methods[(key, name) := (s.epoch, found)]), found)
  }

  function Do(s: Machine, op: Op): Machine {
    s.(h := Apply(s.h, op), epoch := if Bumps(op) then s.epoch + 1 else s.epoch)
  }

  // ----- the invariant ---------------------------------------------------------------------------------

  /** No entry is from the future, and every entry is about a module that exists.  Every change keeps this. */
  ghost predicate Stamped(s: Machine) {
    && Good(s.h)
    && (forall k :: k in s.chains ==> s.chains[k].0 <= s.epoch && k.1 in s.h.mods)
    && (forall k, n :: (k, n) in s.methods ==> s.methods[(k, n)].0 <= s.epoch && k.1 in s.h.mods)
  }

  /** Every current entry says what the uncached walk says. */
  ghost predicate ChainRight(s: Machine, v: Value)
    requires Acyclic(s.h)
  {
    ChainHit(s, ChainKey(s.h, v)) ==> s.chains[ChainKey(s.h, v)].1 == Chain(s.h, v)
  }

  ghost predicate MethodRight(s: Machine, v: Value, name: string)
    requires Acyclic(s.h)
  {
    MethodHit(s, ChainKey(s.h, v), name) ==> s.methods[(ChainKey(s.h, v), name)].1 == Lookup(s.h, v, name)
  }

  ghost predicate Coherent(s: Machine) {
    && Stamped(s)
    && (forall v :: Known(s.h, v) ==> ChainRight(s, v))
    && (forall v, name :: Known(s.h, v) ==> MethodRight(s, v, name))
  }

  /** A fresh interpreter is coherent. */
  lemma FreshIsCoherent(h: Hier, epoch: nat)
    requires Good(h)
    ensures Coherent(Machine(h, epoch, map[], map[]))
  {
  }

  /** The uncached answer is what a coherent machine answers, and asking keeps it coherent. */
  lemma LookupChainAgrees(s: Machine, v: Value)
    requires Coherent(s) && Known(s.h, v)
    ensures Acyclic(s.h) && LookupChain(s, v).1 == Chain(s.h, v) && Coherent(LookupChain(s, v).0) &&
            LookupChain(s, v).0.h == s.h
    ensures LookupChain(s, v).0.epoch == s.epoch && LookupChain(s, v).0.methods == s.methods
  {
    hide Good, Acyclic, Chain, ChainKey, Lookup;
    GoodIsAcyclic(s.h);
    assert ChainRight(s, v);
    var s' := LookupChain(s, v).0;
    KeyIsKnown(s.h, v);
    forall w | Known(s.h, w) ensures ChainRight(s', w) {
      assert ChainRight(s, w);
      if ChainKey(s.h, w) == ChainKey(s.h, v) { SameKeySameChain(s.h, v, w); }
    }
    forall w, name | Known(s.h, w) ensures MethodRight(s', w, name) { assert MethodRight(s, w, name); }
  }

  lemma GoodIsAcyclic(h: Hier)
    requires Good(h)
    ensures Acyclic(h)
  {
    hide Acyclic;
  }

  lemma FindMethodAgrees(s: Machine, v: Value, name: string)
    requires Coherent(s) && Known(s.h, v)
    ensures Acyclic(s.h) && FindMethod(s, v, name).1 == Lookup(s.h, v, name) && Coherent(FindMethod(s, v, name).0)
    ensures FindMethod(s, v, name).0.h == s.h
  {
    hide Good, Acyclic, Chain, ChainKey, LookupChain, Pick, ChainRight;
    GoodIsAcyclic(s.h);
    assert MethodRight(s, v, name);
    LookupChainAgrees(s, v);
    KeyIsKnown(s.h, v);
    var mid, s' := LookupChain(s, v).0, FindMethod(s, v, name).0;
    if s' != s {
      forall w | Known(s.h, w) ensures ChainRight(s', w) { assert ChainRight(mid, w); ChainsOnly(mid, s', w); }
      forall w, n | Known(s.h, w) ensures MethodRight(s', w, n) {
        assert MethodRight(mid, w, n);
        if ChainKey(s.h, w) == ChainKey(s.h, v) { SameKeySameChain(s.h, v, w); }
      }
    }
  }

  lemma ChainsOnly(s: Machine, s': Machine, w: Value)
    requires Acyclic(s.h) && s'.h == s.h && s'.epoch == s.epoch && s'.chains == s.chains && ChainRight(s, w)
    ensures ChainRight(s', w)
  {
    hide Acyclic, Chain;
  }

  /** Whatever the caches hold, a change through an accessor leaves no current entry. */
  lemma BumpRestores(s: Machine, op: Op)
    requires Stamped(s) && Allowed(s.h, op) && Bumps(op)
    ensures Coherent(Do(s, op))
  {
    hide Good, Acyclic, Chain, Lookup;
    GoodIsAcyclic(Apply(s.h, op));
  }

  lemma AnyChangeKeepsStamps(s: Machine, op: Op)
    requires Stamped(s) && Allowed(s.h, op)
    ensures Stamped(Do(s, op))
  {
    hide Good;
  }

  /** A new value has the key of an old one, or a key that no entry can have. */
  lemma StandIn(h: Hier, op: Op, v: Value) returns (w: Value)
    requires Good(h) && Allowed(h, op) && !Bumps(op) && !op.Push?
    requires Known(Apply(h, op), v) && ChainKey(Apply(h, op), v).1 in h.mods
    ensures Known(h, w) && Known(Apply(h, op), w) && ChainKey(Apply(h, op), w) == ChainKey(Apply(h, op), v)
  {
    hide Acyclic, Shared;
    w := v;
    if !Known(h, v) {
      if op.CopyObject? && op.withSingleton {
        w := Object(op.original);
      } else {
        w := Core(ChainKey(Apply(h, op), v).1);
      }
    }
  }

  lemma NoSuchEntry(s: Machine, key: Key)
    requires Stamped(s) && key.1 !in s.h.mods
    ensures key !in s.chains && forall name :: (key, name) !in s.methods
  {
    hide Good;
  }

  lemma LookupIs(h: Hier, v: Value, name: string)
    requires Acyclic(h)
    ensures Lookup(h, v, name) == Pick(h, Chain(h, v), name)
  {
    hide Acyclic, Chain, Pick;
  }

  lemma StampedIsGood(s: Machine)
    requires Stamped(s)
    ensures Good(s.h) && Acyclic(s.h)
  {
    hide Acyclic;
  }

  /** New modules and objects need no new epoch. */
  lemma CreationKeepsCoherent(s: Machine, op: Op)
    requires Coherent(s) && Allowed(s.h, op) && !Bumps(op) && !op.Push?
    ensures Coherent(Do(s, op))
  {
    hide Good, Acyclic, Chain, Lookup, Apply, ChainKey, Allowed, Stamped, Known;
    var h, s' := s.h, Do(s, op);
    var h' := s'.h;
    StampedIsGood(s);
    CreationGrows(h, op);
    QuietKeepsMethods(h, op);
    AnyChangeKeepsStamps(s, op);
    StampedIsGood(s');
    forall v, name | Known(h', v) ensures ChainRight(s', v) && MethodRight(s', v, name) {
      var key := ChainKey(h', v);
      if key.1 in h.mods {
        var w := StandIn(h, op, v);
        assert ChainRight(s, w) && MethodRight(s, w, name);
        ChainSame(h, h', w);
        SameKeySameChain(h', v, w);
        PickSame(h, h', Chain(h, w), name);
        LookupIs(h, w, name);
        LookupIs(h', v, name);
      } else {
        NoSuchEntry(s, key);
      }
    }
    forall v | Known(h', v) ensures ChainRight(s', v) { assert MethodRight(s', v, ""); }
  }

  lemma ChangeKeepsCoherent(s: Machine, op: Op)
    requires Coherent(s) && Allowed(s.h, op) && !op.Push?
    ensures Coherent(Do(s, op))
  {
    hide Stamped, ChainRight, MethodRight, Allowed, Good, Known, Do;
    if Bumps(op) { BumpRestores(s, op); } else { CreationKeepsCoherent(s, op); }
  }

  // ----- whole runs ----------------------------------------------------------------------------------------

  datatype Cmd = Change(op: Op) | AskChain(v: Value) | AskMethod(v: Value, name: string)

  datatype Answer = ChainIs(chain: seq<Id>) | MethodIs(found: Found)

  /** A change must be possible when it is made, a value must exist when it is asked about. */
  ghost predicate Can(h: Hier, c: Cmd) {
    Good(h) && match c
      case Change(op) => Allowed(h, op)
      case AskChain(v) => Known(h, v)
      case AskMethod(v, _) => Known(h, v)
  }

  function Next(h: Hier, c: Cmd): Hier { if c.Change? then Apply(h, c.op) else h }

  /** The answer without any cache. */
  ghost function Right(h: Hier, c: Cmd): seq<Answer>
    requires Can(h, c)
  {
    match c
    case Change(_) => []
    case AskChain(v) => [ChainIs(Chain(h, v))]
    case AskMethod(v, name) => [MethodIs(Lookup(h, v, name))]
  }

  ghost function Exec(s: Machine, c: Cmd): (Machine, seq<Answer>)
    requires Can(s.h, c)
  {
    match c
    case Change(op) => (Do(s, op), [])
    case AskChain(v) => var (s', chain) := LookupChain(s, v); (s', [ChainIs(chain)])
    case AskMethod(v, name) => var (s', found) := FindMethod(s, v, name); (s', [MethodIs(found)])
  }

  lemma ExecKeepsStamps(s: Machine, c: Cmd)
    requires Stamped(s) && Can(s.h, c)
    ensures Stamped(Exec(s, c).0) && Exec(s, c).0.h == Next(s.h, c) && |Exec(s, c).1| == |Right(s.h, c)|
  {
    hide Stamped, Good, Allowed, Known, Lookup, Chain, Apply, LookupChain, FindMethod;
    match c
    case Change(op) => AnyChangeKeepsStamps(s, op);
    case AskChain(v) => AskingKeepsStamps(s, v, "");
    case AskMethod(v, name) => AskingKeepsStamps(s, v, name);
  }

  lemma ExecAgrees(s: Machine, c: Cmd)
    requires Coherent(s) && Can(s.h, c) && !(c.Change? && c.op.Push?)
    ensures Exec(s, c).1 == Right(s.h, c) && Coherent(Exec(s, c).0) && Exec(s, c).0.h == Next(s.h, c)
  {
    hide Coherent, Good, Allowed, Known, Lookup, Chain, Apply, LookupChain, FindMethod;
    match c
    case Change(op) => ChangeKeepsCoherent(s, op);
    case AskChain(v) => LookupChainAgrees(s, v);
    case AskMethod(v, name) => FindMethodAgrees(s, v, name);
  }

  /** A program that the interpreter can run. */
  ghost predicate Runs(h: Hier, cmds: seq<Cmd>)
    decreases |cmds|
  {
    cmds == [] || (Can(h, cmds[0]) && Runs(Next(h, cmds[0]), cmds[1..]))
  }

  /** All its answers without any cache. */
  ghost function Reference(h: Hier, cmds: seq<Cmd>): seq<Answer>
    requires Runs(h, cmds)
    decreases |cmds|
  {
    if cmds == [] then [] else Right(h, cmds[0]) + Reference(Next(h, cmds[0]), cmds[1..])
  }

  /** The hierarchy after the commands. */
  ghost function After(h: Hier, cmds: seq<Cmd>): Hier
    decreases |cmds|
  {
    if cmds == [] then h else After(Next(h, cmds[0]), cmds[1..])
  }

  lemma ExecNext(s: Machine, c: Cmd)
    requires Can(s.h, c)
    ensures Exec(s, c).0.h == Next(s.h, c)
  {
    hide Good, Allowed, Known, Lookup, Chain, Apply, ChainKey;
  }

  /** The machine after the commands, and its answers. */
  ghost function Run(s: Machine, cmds: seq<Cmd>): (Machine, seq<Answer>)
    requires Runs(s.h, cmds)
    decreases |cmds|
  {
    if cmds == [] then (s, [])
    else
      ExecNext(s, cmds[0]);
      var (s', answer) := Exec(s, cmds[0]);
      var (t, rest) := Run(s', cmds[1..]);
      (t, answer + rest)
  }

  ghost predicate NoPush(cmds: seq<Cmd>) { forall c :: c in cmds ==> !(c.Change? && c.op.Push?) }

  /** Through both caches, every lookup of every run without an unbumped push answers what the uncached walk answers. */
  lemma {:induction false} CachedRunsAgree(s: Machine, cmds: seq<Cmd>)
    requires Coherent(s) && Runs(s.h, cmds) && NoPush(cmds)
    ensures Run(s, cmds).1 == Reference(s.h, cmds) && Coherent(Run(s, cmds).0)
    decreases |cmds|
  {
    hide Coherent, Can, Exec, Right, Next;
    if cmds != [] {
      assert cmds[0] in cmds;
      var rest := cmds[1..];
      assert forall c :: c in rest ==> c in cmds;
      ExecAgrees(s, cmds[0]);
      CachedRunsAgree(Exec(s, cmds[0]).0, rest);
    }
  }

  lemma AskingKeepsStamps(s: Machine, v: Value, name: string)
    requires Stamped(s) && Known(s.h, v)
    ensures Acyclic(s.h) && Stamped(LookupChain(s, v).0) && LookupChain(s, v).0.h == s.h
    ensures Stamped(FindMethod(s, v, name).0) && FindMethod(s, v, name).0.h == s.h
  {
    hide Good, Acyclic, Chain, ChainKey, Pick, Known;
    StampedIsGood(s);
    KeyIsKnown(s.h, v);
  }

  /** Running in two parts. */
  lemma {:induction false} RunSplits(s: Machine, a: seq<Cmd>, b: seq<Cmd>)
    requires Stamped(s) && Runs(s.h, a + b)
    ensures Runs(s.h, a) && Stamped(Run(s, a).0) && Run(s, a).0.h == After(s.h, a) && Runs(After(s.h, a), b)
    ensures Run(s, a + b).1 == Run(s, a).1 + Run(Run(s, a).0, b).1
    ensures Reference(s.h, a + b) == Reference(s.h, a) + Reference(After(s.h, a), b)
    ensures |Run(s, a).1| == |Reference(s.h, a)|
    decreases |a|
  {
    hide Stamped, Can, Exec, Right, Next;
    if a == [] {
      assert a + b == b;
    } else {
      assert (a + b)[1..] == a[1..] + b && (a + b)[0] == a[0];
      ExecKeepsStamps(s, a[0]);
      RunSplits(Exec(s, a[0]).0, a[1..], b);
    }
  }

  /** An unbumped push can spoil answers only until the next bump: whatever happened before, and whatever the caches
      held to begin with, the answers after a bump are right as long as no other push follows. */
  lemma AgreeAfterBump(s: Machine, before: seq<Cmd>, op: Op, after: seq<Cmd>)
    requires Stamped(s) && Bumps(op) && NoPush(after) && Runs(s.h, before + [Change(op)] + after)
    ensures Runs(s.h, before)
    ensures var n := |Run(s, before).1|;
            var answers, right := Run(s, before + [Change(op)] + after).1,
                Reference(s.h, before + [Change(op)] + after);
            |answers| == |right| && n <= |right| && answers[n..] == right[n..]
  {
    hide Stamped, Good, Allowed, Apply, Do, Coherent, Bumps, NoPush, Run, Reference, Runs;
    var tail := [Change(op)] + after;
    assert before + [Change(op)] + after == before + tail;
    RunSplits(s, before, tail);
    var mid := Run(s, before).0;
    RunChange(mid, op, after);
    BumpRestores(mid, op);
    CachedRunsAgree(Do(mid, op), after);
  }

  lemma RunChange(s: Machine, op: Op, after: seq<Cmd>)
    requires Runs(s.h, [Change(op)] + after)
    ensures Do(s, op).h == Apply(s.h, op) && Allowed(s.h, op) && Runs(Apply(s.h, op), after)
    ensures Run(s, [Change(op)] + after).1 == Run(Do(s, op), after).1
    ensures Reference(s.h, [Change(op)] + after) == Reference(Apply(s.h, op), after)
  {
    hide Allowed, Good, Apply;
    assert ([Change(op)] + after)[1..] == after;
  }

  /** Right after an unbumped push a lookup is wrong exactly when something current was remembered for that value and
      the push changed the answer. */
  lemma StaleExactly(s: Machine, op: Op, v: Value, name: string)
    requires Coherent(s) && op.Push? && Allowed(s.h, op) && Known(s.h, v)
    ensures Acyclic(s.h) && Acyclic(Apply(s.h, op))
    ensures FindMethod(Do(s, op), v, name).1 != Lookup(Apply(s.h, op), v, name) <==>
            && (MethodHit(s, ChainKey(s.h, v), name) || ChainHit(s, ChainKey(s.h, v)))
            && Lookup(s.h, v, name) != Lookup(Apply(s.h, op), v, name)
  {
    hide Good, Acyclic, Chain, Pick, Known, Stamped, Allowed, Lookup;
    StampedIsGood(s);
    AnyChangeKeepsStamps(s, op);
    StampedIsGood(Do(s, op));
    PushKeepsKeys(s.h, op, v);
    QuietKeepsMethods(s.h, op);
    PickSame(s.h, Apply(s.h, op), Chain(s.h, v), name);
    LookupIs(s.h, v, name);
    LookupIs(Apply(s.h, op), v, name);
    assert ChainRight(s, v) && MethodRight(s, v, name);
    hide ChainKey, Apply;
  }

  lemma PushKeepsKeys(h: Hier, op: Op, v: Value)
    requires op.Push?
    ensures ChainKey(Apply(h, op), v) == ChainKey(h, v)
  {
  }

  /** The same for whole chains. */
  lemma StaleChainExactly(s: Machine, op: Op, v: Value)
    requires Coherent(s) && op.Push? && Allowed(s.h, op) && Known(s.h, v)
    ensures Acyclic(s.h) && Acyclic(Apply(s.h, op))
    ensures LookupChain(Do(s, op), v).1 != Chain(Apply(s.h, op), v) <==>
            ChainHit(s, ChainKey(s.h, v)) && Chain(s.h, v) != Chain(Apply(s.h, op), v)
  {
    hide Good, Acyclic, Chain, Known, Stamped, Allowed;
    StampedIsGood(s);
    AnyChangeKeepsStamps(s, op);
    StampedIsGood(Do(s, op));
    PushKeepsKeys(s.h, op, v);
    assert ChainRight(s, v);
    hide ChainKey, Apply;
  }

  // ----- between two bumps every answer is as of the first question --------------------------------------------

  /** For each key asked about since the last bump: the hierarchy at that time and the value asked. */
  type Firsts = map<Key, (Hier, Value)>

  ghost predicate FirstOk(h: Hier, k: Key, g: Hier, w: Value) {
    Good(g) && Known(g, w) && ChainKey(g, w) == k && SameMethods(g, h)
  }

  ghost predicate FrozenChain(s: Machine, first: Firsts, k: Key) {
    && (ChainHit(s, k) <==> k in first)
    && (k in first ==> FirstOk(s.h, k, first[k].0, first[k].1) && s.chains[k].1 == Chain(first[k].0, first[k].1))
  }

  ghost predicate FrozenMethod(s: Machine, first: Firsts, k: Key, name: string) {
    MethodHit(s, k, name) && FrozenChain(s, first, k) ==>
      k in first && s.methods[(k, name)].1 == Lookup(first[k].0, first[k].1, name)
  }

  ghost predicate Frozen(s: Machine, first: Firsts) {
    && Stamped(s)
    && (forall k :: FrozenChain(s, first, k))
    && (forall k, name :: FrozenMethod(s, first, k, name))
  }

  /** No entry is current, as after a bump. */
  ghost predicate Cleared(s: Machine) {
    Stamped(s) && (forall k :: !ChainHit(s, k)) && forall k, name :: !MethodHit(s, k, name)
  }

  lemma BumpClears(s: Machine, op: Op)
    requires Stamped(s) && Allowed(s.h, op) && Bumps(op)
    ensures Cleared(Do(s, op))
  {
    hide Good, Apply;
    AnyChangeKeepsStamps(s, op);
  }

  lemma ClearedIsFrozen(s: Machine)
    requires Cleared(s)
    ensures Frozen(s, map[])
  {
    hide Stamped;
  }

  function Noted(h: Hier, first: Firsts, v: Value): Firsts {
    if ChainKey(h, v) in first then first else first[ChainKey(h, v) := (h, v)]
  }

  lemma AskChainFrozen(s: Machine, first: Firsts, v: Value)
    requires Frozen(s, first) && Known(s.h, v)
    ensures Acyclic(s.h) && Frozen(LookupChain(s, v).0, Noted(s.h, first, v))
    ensures LookupChain(s, v).0 == s.(chains := LookupChain(s, v).0.chains)
    ensures var (g, w) := Noted(s.h, first, v)[ChainKey(s.h, v)];
            FirstOk(s.h, ChainKey(s.h, v), g, w) && LookupChain(s, v).1 == Chain(g, w)
  {
    hide Good, Acyclic, Chain, ChainKey, Known, Pick, Stamped;
    assert SameMethods(s.h, s.h);
    hide SameMethods;
    StampedIsGood(s);
    AskingKeepsStamps(s, v, "");
    var key := ChainKey(s.h, v);
    assert FrozenChain(s, first, key);
    if key !in first { ChainAdded(s, LookupChain(s, v).0, first, key, v); }
  }

  lemma ChainAdded(s: Machine, s': Machine, first: Firsts, key: Key, v: Value)
    requires Frozen(s, first) && key !in first && Stamped(s') && FirstOk(s.h, key, s.h, v) && Acyclic(s.h)
    requires s' == s.(chains := s.chains[key := (s.epoch, Chain(s.h, v))])
    ensures Frozen(s', first[key := (s.h, v)])
  {
    hide FirstOk, Acyclic, Chain, Stamped, Lookup;
    var first' := first[key := (s.h, v)];
    forall k ensures FrozenChain(s', first', k) { assert FrozenChain(s, first, k); }
    forall k, name ensures FrozenMethod(s', first', k, name) {
      assert FrozenChain(s, first, k) && FrozenMethod(s, first, k, name);
    }
  }

  lemma AskMethodFrozen(s: Machine, first: Firsts, v: Value, name: string)
    requires Frozen(s, first) && Known(s.h, v)
    ensures Acyclic(s.h) && Frozen(FindMethod(s, v, name).0, Noted(s.h, first, v))
    ensures var (g, w) := Noted(s.h, first, v)[ChainKey(s.h, v)];
            FirstOk(s.h, ChainKey(s.h, v), g, w) && Acyclic(g) && FindMethod(s, v, name).1 == Lookup(g, w, name)
  {
    hide Good, Acyclic, Chain, ChainKey, Known, LookupChain, Pick, Lookup, SameMethods;
    AskChainFrozen(s, first, v);
    AskingKeepsStamps(s, v, name);
    var key, mid, s', first' := ChainKey(s.h, v), LookupChain(s, v).0, FindMethod(s, v, name).0, Noted(s.h, first, v);
    var (g, w) := first'[key];
    GoodIsAcyclic(g);
    PickSame(g, s.h, Chain(g, w), name);
    LookupIs(g, w, name);
    assert FrozenChain(s, first, key) && FrozenMethod(s, first, key, name);
    if MethodHit(s, key, name) {
      assert first' == first;
    } else {
      MethodAdded(mid, s', first', key, name, Lookup(g, w, name));
    }
  }

  lemma MethodAdded(mid: Machine, s: Machine, first: Firsts, key: Key, name: string, found: Found)
    requires Frozen(mid, first) && key in first && Stamped(s)
    requires FirstOk(mid.h, key, first[key].0, first[key].1) && found == Lookup(first[key].0, first[key].1, name)
    requires s == mid.(methods := mid.methods[(key, name) := (mid.epoch, found)])
    ensures Frozen(s, first)
  {
    hide Good, Acyclic, Chain, ChainKey, Known, Stamped, Lookup, SameMethods;
    forall k ensures FrozenChain(s, first, k) { assert FrozenChain(mid, first, k); }
    forall k, n ensures FrozenMethod(s, first, k, n) {
      assert FrozenChain(mid, first, k) && FrozenMethod(mid, first, k, n);
    }
  }

  lemma ChangeFrozen(s: Machine, first: Firsts, op: Op)
    requires Frozen(s, first) && Allowed(s.h, op) && !Bumps(op)
    ensures Frozen(Do(s, op), first)
  {
    hide Good, Acyclic, Chain, ChainKey, Known, Stamped, Lookup, Apply, Allowed, Bumps;
    AnyChangeKeepsStamps(s, op);
    QuietKeepsMethods(s.h, op);
    var s' := Do(s, op);
    forall k ensures FrozenChain(s', first, k) { assert FrozenChain(s, first, k); }
    forall k, n ensures FrozenMethod(s', first, k, n) {
      assert FrozenChain(s, first, k) && FrozenMethod(s, first, k, n);
    }
  }

  /** The answers of a program that remembers, for each key, only when it was first asked about. */
  ghost function FirstAnswers(h: Hier, first: Firsts, cmds: seq<Cmd>): seq<Answer>
    requires Runs(h, cmds) && forall k :: k in first ==> Acyclic(first[k].0)
    decreases |cmds|
  {
    if cmds == [] then []
    else match cmds[0]
      case Change(op) => FirstAnswers(Apply(h, op), first, cmds[1..])
      case AskChain(v) =>
        var (g, w) := Noted(h, first, v)[ChainKey(h, v)];
        [ChainIs(Chain(g, w))] + FirstAnswers(h, Noted(h, first, v), cmds[1..])
      case AskMethod(v, name) =>
        var (g, w) := Noted(h, first, v)[ChainKey(h, v)];
        [MethodIs(Lookup(g, w, name))] + FirstAnswers(h, Noted(h, first, v), cmds[1..])
  }

  ghost predicate NoBump(cmds: seq<Cmd>) { forall c :: c in cmds && c.Change? ==> !Bumps(c.op) }

  lemma FrozenIsAcyclic(s: Machine, first: Firsts)
    requires Frozen(s, first)
    ensures forall k :: k in first ==> Acyclic(first[k].0)
  {
    hide Acyclic, Chain, ChainKey, Known, Stamped, SameMethods;
    forall k | k in first ensures Acyclic(first[k].0) { assert FrozenChain(s, first, k); }
  }

  lemma {:induction false} FrozenRuns(s: Machine, first: Firsts, cmds: seq<Cmd>)
    requires Frozen(s, first) && Runs(s.h, cmds) && NoBump(cmds)
    ensures forall k :: k in first ==> Acyclic(first[k].0)
    ensures Run(s, cmds).1 == FirstAnswers(s.h, first, cmds)
    decreases |cmds|
  {
    hide Frozen, Good, Allowed, Known, Lookup, Chain, Apply, LookupChain, FindMethod, Noted, Acyclic, ChainKey, Bumps,
        FirstOk;
    FrozenIsAcyclic(s, first);
    if cmds != [] {
      var rest := cmds[1..];
      assert cmds[0] in cmds && forall c :: c in rest ==> c in cmds;
      ExecNext(s, cmds[0]);
      match cmds[0]
      case Change(op) =>
        ChangeFrozen(s, first, op);
        FrozenRuns(Do(s, op), first, rest);
      case AskChain(v) =>
        AskChainFrozen(s, first, v);
        FrozenRuns(LookupChain(s, v).0, Noted(s.h, first, v), rest);
      case AskMethod(v, name) =>
        AskMethodFrozen(s, first, v, name);
        FrozenRuns(FindMethod(s, v, name).0, Noted(s.h, first, v), rest);
    }
  }

  /** Between two bumps, unbumped pushes or not, every answer is the uncached answer as of the first question since the
      bump about a value with the same key. */
  lemma AnswersAreFirstAnswers(s: Machine, op: Op, cmds: seq<Cmd>)
    requires Stamped(s) && Allowed(s.h, op) && Bumps(op) && NoBump(cmds) && Runs(Apply(s.h, op), cmds)
    ensures Run(Do(s, op), cmds).1 == FirstAnswers(Apply(s.h, op), map[], cmds)
  {
    hide Stamped, Allowed, Bumps, Frozen, Cleared, Run, FirstAnswers, Apply, Runs, NoBump;
    BumpClears(s, op);
    ClearedIsFrozen(Do(s, op));
    FrozenRuns(Do(s, op), map[], cmds);
  }

  /** Which for a value that existed at that question is its own uncached answer then. */
  lemma FirstAnswerIsOwn(h: Hier, k: Key, g: Hier, w: Value, v: Value, name: string)
    requires FirstOk(h, k, g, w) && Known(g, v) && ChainKey(g, v) == k
    ensures Acyclic(g) && Chain(g, w) == Chain(g, v) && Lookup(g, w, name) == Lookup(g, v, name)
  {
    hide Acyclic, Chain, Pick, ChainKey;
    SameKeySameChain(g, w, v);
  }

  // ----- a program that sees a stale answer --------------------------------------------------------------

  /** Only `c` differs. */
  ghost predicate SameBut(h: Hier, h': Hier, c: Id) { forall x :: x != c ==> At(h', x) == At(h, x) }

  lemma IncludeLink(h: Hier, m: Id, i: nat)
    requires i < |At(h, m).includes|
    ensures Link(h, m, At(h, m).includes[i])
  {
  }

  lemma PrependLink(h: Hier, m: Id, i: nat)
    requires i < |At(h, m).prepends|
    ensures Link(h, m, At(h, m).prepends[i])
  {
  }

  /** Below `c` nothing differs. */
  lemma {:induction false} PushBelow(h: Hier, h': Hier, c: Id, x: Id)
    requires Acyclic(h) && Acyclic(h') && SameBut(h, h', c) && RankOf(h')(x) < RankOf(h')(c)
    ensures Hierarchy.Push(h', x) == Hierarchy.Push(h, x)
    decreases RankOf(h')(x), 1, 0
  {
    hide Acyclic;
    PushIncludesBelow(h, h', c, x, |At(h, x).includes|);
  }

  lemma {:induction false} PushIncludesBelow(h: Hier, h': Hier, c: Id, x: Id, i: nat)
    requires Acyclic(h) && Acyclic(h') && SameBut(h, h', c) && RankOf(h')(x) <= RankOf(h')(c)
    requires i <= |At(h, x).includes| && At(h, x).includes <= At(h', x).includes
    ensures PushIncludes(h', x, i) == PushIncludes(h, x, i)
    decreases RankOf(h')(x), 0, i
  {
    hide Acyclic, Link, Hierarchy.Push;
    if i > 0 {
      assert At(h', x).includes[i - 1] == At(h, x).includes[i - 1];
      IncludeLink(h', x, i - 1);
      Lower(h', x, At(h', x).includes[i - 1]);
      PushBelow(h, h', c, At(h, x).includes[i - 1]);
      PushIncludesBelow(h, h', c, x, i - 1);
    }
  }

  lemma {:induction false} PushPrependsBelow(h: Hier, h': Hier, c: Id, x: Id, i: nat)
    requires Acyclic(h) && Acyclic(h') && SameBut(h, h', c) && RankOf(h')(x) <= RankOf(h')(c)
    requires i <= |At(h, x).prepends| && At(h, x).prepends == At(h', x).prepends
    ensures PushPrepends(h', x, i) == PushPrepends(h, x, i)
  {
    hide Acyclic, Link, Hierarchy.Push;
    if i > 0 {
      PrependLink(h', x, i - 1);
      Lower(h', x, At(h', x).prepends[i - 1]);
      PushBelow(h, h', c, At(h, x).prepends[i - 1]);
      PushPrependsBelow(h, h', c, x, i - 1);
    }
  }

  lemma {:induction false} RawBelow(h: Hier, h': Hier, c: Id, x: Id)
    requires Acyclic(h) && Acyclic(h') && SameBut(h, h', c) && RankOf(h')(x) < RankOf(h')(c)
    ensures Raw(h', x) == Raw(h, x)
    decreases RankOf(h')(x)
  {
    hide Acyclic, PushIncludes, PushPrepends;
    PushPrependsBelow(h, h', c, x, |At(h, x).prepends|);
    PushIncludesBelow(h, h', c, x, |At(h, x).includes|);
    if At(h, x).superclass.Some? {
      Lower(h', x, At(h, x).superclass.value);
      RawBelow(h, h', c, At(h, x).superclass.value);
    }
  }

  /** What `c` has above it besides itself and what is prepended to it. */
  ghost function Rest(h: Hier, c: Id): seq<Id>
    requires Acyclic(h)
  {
    if At(h, c).superclass.Some? then Raw(h, At(h, c).superclass.value) else []
  }

  lemma RawParts(h: Hier, c: Id)
    requires Acyclic(h)
    ensures Raw(h, c) == PushPrepends(h, c, |At(h, c).prepends|) + [c] + PushIncludes(h, c, |At(h, c).includes|) +
            Rest(h, c)
  {
    hide Acyclic, PushIncludes, PushPrepends;
  }

  lemma PushedShape(h: Hier, c: Id, m: Id)
    requires m !in At(h, c).includes
    ensures var h' := Apply(h, Push(c, m, false));
            SameBut(h, h', c) && At(h', c) == At(h, c).(includes := At(h, c).includes + [m])
  {
  }

  lemma PushIncludesStep(h: Hier, m: Id, i: nat)
    requires Acyclic(h) && i < |At(h, m).includes|
    ensures PushIncludes(h, m, i + 1) == Hierarchy.Push(h, At(h, m).includes[i]) + PushIncludes(h, m, i)
  {
    hide Acyclic, Hierarchy.Push;
  }

  lemma RestBelow(h: Hier, h': Hier, c: Id)
    requires Acyclic(h) && Acyclic(h') && SameBut(h, h', c) && At(h', c).superclass == At(h, c).superclass
    ensures Rest(h', c) == Rest(h, c)
  {
    if At(h, c).superclass.Some? {
      Lower(h', c, At(h, c).superclass.value);
      hide Acyclic, Raw, SameBut;
      RawBelow(h, h', c, At(h, c).superclass.value);
    }
  }

  /** An include puts the module right behind its class, and leaves the order of all others. */
  lemma IncludedRaw(h: Hier, h': Hier, c: Id, m: Id)
    requires Acyclic(h) && Acyclic(h') && SameBut(h, h', c)
    requires At(h', c) == At(h, c).(includes := At(h, c).includes + [m])
    ensures var front := PushPrepends(h, c, |At(h, c).prepends|) + [c];
            var back := PushIncludes(h, c, |At(h, c).includes|) + Rest(h, c);
            Raw(h, c) == front + back && Raw(h', c) == front + Hierarchy.Push(h, m) + back
  {
    hide *;
    var n := |At(h, c).includes|;
    assert At(h', c).includes[n] == m;
    IncludeLink(h', c, n);
    Lower(h', c, m);
    PushBelow(h, h', c, m);
    PushIncludesBelow(h, h', c, c, n);
    PushPrependsBelow(h, h', c, c, |At(h, c).prepends|);
    PushIncludesStep(h', c, n);
    RestBelow(h, h', c);
    RawParts(h, c);
    RawParts(h', c);
  }

  lemma {:induction false} LowerInPush(h: Hier, m: Id, x: Id)
    requires Acyclic(h) && x in Hierarchy.Push(h, m)
    ensures x == m || RankOf(h)(x) < RankOf(h)(m)
    decreases RankOf(h)(m), 1, 0
  {
    hide Acyclic;
    if x != m { LowerInIncludes(h, m, |At(h, m).includes|, x); }
  }

  lemma {:induction false} LowerInIncludes(h: Hier, m: Id, i: nat, x: Id)
    requires Acyclic(h) && i <= |At(h, m).includes| && x in PushIncludes(h, m, i)
    ensures RankOf(h)(x) < RankOf(h)(m)
    decreases RankOf(h)(m), 0, i
  {
    hide Acyclic, Hierarchy.Push, Link;
    var inc := At(h, m).includes[i - 1];
    IncludeLink(h, m, i - 1);
    Lower(h, m, inc);
    if x in Hierarchy.Push(h, inc) { LowerInPush(h, inc, x); } else { LowerInIncludes(h, m, i - 1, x); }
  }

  /** A module is not among what it includes. */
  lemma PushHead(h: Hier, m: Id)
    requires Acyclic(h)
    ensures Hierarchy.Push(h, m) == [m] + PushIncludes(h, m, |At(h, m).includes|)
    ensures m !in PushIncludes(h, m, |At(h, m).includes|)
  {
    hide Acyclic;
    if m in PushIncludes(h, m, |At(h, m).includes|) { LowerInIncludes(h, m, |At(h, m).includes|, m); }
  }

  /** Where nothing before `m` defines the name, the lookup ends at `m`. */
  lemma {:induction false} PickBehind(h: Hier, front: seq<Id>, m: Id, back: seq<Id>, name: string)
    requires (forall x :: x in front ==> name !in At(h, x).methods) && m !in back
    requires name in At(h, m).methods && At(h, m).methods[name].Defined?
    ensures Pick(h, Dedup(front + [m] + back), name) == Some((At(h, m).methods[name], m))
  {
    hide At;
    var s := front + [m] + back;
    if front == [] {
      assert s == [m] + back && s[1..] == back;
    } else {
      assert s[0] == front[0] && s[0] in front;
      assert s[1..] == front[1..] + [m] + back;
      PickBehind(h, front[1..], m, back, name);
      var d := Dedup(s[1..]);
      assert ([s[0]] + d)[1..] == d;
    }
  }

  lemma {:induction false} PickNothing(h: Hier, chain: seq<Id>, name: string)
    requires forall x :: x in chain ==> name !in At(h, x).methods
    ensures Pick(h, chain, name) == None
  {
    hide At;
    if chain != [] {
      assert chain[0] in chain;
      PickNothing(h, chain[1..], name);
    }
  }

  /** What `include` does to the uncached lookup of an object of the class. */
  lemma IncludeIsFound(h: Hier, o: Id, m: Id, name: string)
    requires Good(h) && o in h.objs && h.objs[o].singleton.None? && Allowed(h, Push(h.objs[o].class_, m, false))
    requires Acyclic(h) ==> m !in Chain(h, Object(o)) && forall x :: x in Chain(h, Object(o)) ==>
            name !in At(h, x).methods
    requires name in At(h, m).methods && At(h, m).methods[name].Defined?
    ensures Acyclic(h) && Acyclic(Apply(h, Push(h.objs[o].class_, m, false)))
    ensures Lookup(h, Object(o), name) == None
    ensures Lookup(Apply(h, Push(h.objs[o].class_, m, false)), Object(o), name) == Some((At(h, m).methods[name], m))
  {
    var c := h.objs[o].class_;
    var op := Push(c, m, false);
    var h' := Apply(h, op);
    GoodIsAcyclic(h);
    AllowedIsGood(h, op);
    GoodIsAcyclic(h');
    QuietKeepsMethods(h, op);
    PlainChain(h, o);
    PlainChain(h', o);
    hide Good, Acyclic, Allowed, Apply, Chain, Raw, PushIncludes, PushPrepends, Hierarchy.Push, Rest, Pick, Dedup;
    PickNothing(h, Chain(h, Object(o)), name);
    DedupIsSet(Raw(h, c));
    IncludesAreAbove(h, c, m);
    PushedShape(h, c, m);
    IncludedRaw(h, h', c, m);
    PushHead(h, m);
    FoundBehind(h, h', c, m, name);
  }

  lemma FoundBehind(h: Hier, h': Hier, c: Id, m: Id, name: string)
    requires Acyclic(h) && Acyclic(h') && SameMethods(h, h') && name in At(h, m).methods &&
            At(h, m).methods[name].Defined?
    requires m !in Raw(h, c) && forall x :: x in Raw(h, c) ==> name !in At(h, x).methods
    requires var front := PushPrepends(h, c, |At(h, c).prepends|) + [c];
             var back := PushIncludes(h, c, |At(h, c).includes|) + Rest(h, c);
             Raw(h, c) == front + back && Raw(h', c) == front + Hierarchy.Push(h, m) + back
    ensures Pick(h', Dedup(Raw(h', c)), name) == Some((At(h, m).methods[name], m))
  {
    hide Acyclic, Raw, PushIncludes, PushPrepends, Hierarchy.Push, Rest, Pick, Dedup, At;
    PushHead(h, m);
    var front := PushPrepends(h, c, |At(h, c).prepends|) + [c];
    var under := PushIncludes(h, m, |At(h, m).includes|);
    var back := PushIncludes(h, c, |At(h, c).includes|) + Rest(h, c);
    assert front + ([m] + under) + back == front + [m] + (under + back);
    PickBehind(h', front, m, under + back, name);
  }

  lemma AllowedIsGood(h: Hier, op: Op)
    requires Allowed(h, op)
    ensures Good(Apply(h, op))
  {
  }

  /** The chain of an object without a singleton; a push touches no object. */
  lemma PlainChain(h: Hier, o: Id)
    requires Acyclic(h) && o in h.objs && h.objs[o].singleton.None?
    ensures Chain(h, Object(o)) == Dedup(Raw(h, h.objs[o].class_))
  {
    hide Acyclic, Raw, Dedup;
  }

  lemma IncludesAreAbove(h: Hier, c: Id, m: Id)
    requires Acyclic(h) && m !in Raw(h, c)
    ensures m !in At(h, c).includes
  {
    if m in At(h, c).includes {
      hide Acyclic, PushPrepends;
      InIncludes(h, c, |At(h, c).includes|, m);
      RawParts(h, c);
    }
  }

  lemma {:induction false} InIncludes(h: Hier, c: Id, i: nat, m: Id)
    requires Acyclic(h) && i <= |At(h, c).includes| && m in At(h, c).includes[..i]
    ensures m in PushIncludes(h, c, i)
  {
    hide Acyclic;
    if At(h, c).includes[i - 1] == m {
      assert Hierarchy.Push(h, m)[0] == m;
    } else {
      InIncludes(h, c, i - 1, m);
    }
  }

  /** An object whose class and ancestors lack a method is asked for it; its class then includes a module that defines
      it; the object still answers that it has none. */
  lemma IncludeIsMissed(h: Hier, epoch: nat, o: Id, m: Id, name: string)
    requires Good(h) && o in h.objs && h.objs[o].singleton.None? && Allowed(h, Push(h.objs[o].class_, m, false))
    requires Acyclic(h) ==> m !in Chain(h, Object(o)) && forall x :: x in Chain(h, Object(o)) ==>
            name !in At(h, x).methods
    requires name in At(h, m).methods && At(h, m).methods[name].Defined?
    ensures var op, s, v := Push(h.objs[o].class_, m, false), Machine(h, epoch, map[], map[]), Object(o);
            && Acyclic(h) && Acyclic(Apply(h, op))
            && Do(FindMethod(s, v, name).0, op).h == Apply(h, op)
            && FindMethod(Do(FindMethod(s, v, name).0, op), v, name).1 == None
            && Lookup(Apply(h, op), v, name) == Some((At(h, m).methods[name], m))
  {
    IncludeIsFound(h, o, m, name);
    hide Good, Acyclic, Coherent, Chain, Pick, Allowed;
    var op, s, v := Push(h.objs[o].class_, m, false), Machine(h, epoch, map[], map[]), Object(o);
    FreshIsCoherent(h, epoch);
    FindMethodAgrees(s, v, name);
    var s1 := FindMethod(s, v, name).0;
    PushKeepsKeys(h, op, v);
    hide ChainKey, Apply, Lookup;
    assert MethodHit(s1, ChainKey(h, v), name) && s1.methods[(ChainKey(h, v), name)].1 == None;
  }

  /** A class below Object below BasicObject, an object of it, and a module that defines `greet`. */
  function Greeters(): Hier {
    Hier(map x: Id | x in {1, 2, 3, 4} :: Greeter(x), map[5 := Obj(3, None)], 1, 1)
  }

  function Greeter(x: Id): Module {
    if x == 4 then Module(false, None, map["greet" := Defined(0)], [], [], None)
    else Module(true, if 1 < x then Some(x - 1) else None, map[], [], [], None)
  }

  lemma SmallIsGood(h: Hier, r: Id -> nat)
    requires h.classId in h.mods && h.moduleId in h.mods
    requires forall x :: x in h.mods ==> h.mods[x].meta.None? && h.mods[x].prepends == []
    requires forall x :: x in h.mods && h.mods[x].superclass.Some? ==>
               h.mods[x].superclass.value in h.mods && r(h.mods[x].superclass.value) < r(x)
    requires forall x, l :: x in h.mods && l in h.mods[x].includes ==> l in h.mods && r(l) < r(x)
    requires forall o :: o in h.objs ==> h.objs[o].singleton.None? && h.objs[o].class_ in h.mods
    ensures Good(h)
  {
    assert forall x, l :: Link(h, x, l) ==> l in h.mods && r(l) < r(x);
    hide Link, Acyclic;
    IsAcyclic(h, r);
  }

  function GreeterRank(x: Id): nat { if x == 4 then 0 else x }

  lemma GreetersAreGood()
    ensures Good(Greeters())
  {
    hide Good;
    SmallIsGood(Greeters(), GreeterRank);
  }

  lemma GreetersGrow()
    ensures var h' := Apply(Greeters(), Push(3, 4, false));
            && h'.mods.Keys == {1, 2, 3, 4} && h'.objs == Greeters().objs && h'.classId == 1 && h'.moduleId == 1
            && forall x :: x in h'.mods ==> h'.mods[x] == if x == 3 then Greeter(3).(includes := [4]) else Greeter(x)
  {
  }

  lemma GreetersGrowGood()
    ensures Good(Apply(Greeters(), Push(3, 4, false)))
  {
    hide Good, Apply;
    GreetersGrow();
    SmallIsGood(Apply(Greeters(), Push(3, 4, false)), GreeterRank);
  }

  lemma IsAcyclic(h: Hier, r: Id -> nat)
    requires Ranks(h, r)
    ensures Acyclic(h)
  {
  }

  lemma BareAncestors(h: Hier, c: Id)
    requires Acyclic(h) && At(h, c).includes == [] && At(h, c).prepends == []
    ensures Raw(h, c) == [c] + Rest(h, c)
  {
    hide Acyclic, Raw;
    assert PushIncludes(h, c, 0) == [] && PushPrepends(h, c, 0) == [];
    RawParts(h, c);
  }

  /** The greeter is asked, is given the module, and is asked again. */
  lemma GreeterStaysSilent(epoch: nat)
    ensures var h, op, v := Greeters(), Push(3, 4, false), Object(5);
            var s := Machine(h, epoch, map[], map[]);
            && Acyclic(h) && Acyclic(Apply(h, op))
            && Do(FindMethod(s, v, "greet").0, op).h == Apply(h, op)
            && FindMethod(Do(FindMethod(s, v, "greet").0, op), v, "greet").1 == None
            && Lookup(Apply(h, op), v, "greet") == Some((Defined(0), 4))
  {
    GreetersAreGood();
    GreeterChain();
    GreeterAllowed();
    hide Good, Acyclic, Chain, Allowed, Apply, FindMethod, Do, Lookup;
    IncludeIsMissed(Greeters(), epoch, 5, 4, "greet");
  }

  lemma GreeterAllowed()
    ensures Allowed(Greeters(), Push(3, 4, false))
  {
    hide Good;
    GreetersGrowGood();
  }

  lemma GreeterChain()
    ensures Acyclic(Greeters()) && forall x :: x in Chain(Greeters(), Object(5)) <==> x in {1, 2, 3}
  {
    var h := Greeters();
    GreetersAreGood();
    GoodIsAcyclic(h);
    hide Good, Acyclic, Raw, Dedup, Chain;
    BareAncestors(h, 1);
    BareAncestors(h, 2);
    BareAncestors(h, 3);
    assert Raw(h, 3) == [3] + ([2] + ([1] + []));
    DedupIsSet(Raw(h, 3));
    PlainChain(h, 5);
  }

  // ----- the object ------------------------------------------------------------------------------------------

  class Interp {
    var hier: Hier
    var epoch: nat
    var chainCache: map<Key, (nat, seq<Id>)>
    var methodCache: map<(Key, string), (nat, Found)>

    function Abs(): Machine
      reads this
    {
      Machine(hier, epoch, chainCache, methodCache)
    }

    constructor (h: Hier)
      ensures Abs() == Machine(h, 1, map[], map[])
    {
      hier, epoch, chainCache, methodCache := h, 1, map[], map[];
    }

    /** `lookup_chain_rc`. */
    method LookupChainRc(v: Value) returns (c: seq<Id>)
      requires Acyclic(hier)
      modifies this`chainCache
      ensures (Abs(), c) == LookupChain(old(Abs()), v)
      ensures old(Coherent(Abs()) && Known(hier, v)) ==> c == Chain(hier, v) && Coherent(Abs())
    {
      ghost var start := Abs();
      if Coherent(Abs()) && Known(hier, v) { LookupChainAgrees(Abs(), v); }
      hide Acyclic, Chain, ChainKey, Coherent, Known;
      var key := ChainKey(hier, v);
      if key in chainCache && chainCache[key].0 == epoch { return chainCache[key].1; }
      c := WalkChain(hier, v);
      chainCache := chainCache[key := (epoch, c)];
      assert (Abs(), c) == LookupChain(start, v);
    }

    /** `find_method`. */
    method Find(v: Value, name: string) returns (found: Found)
      requires Acyclic(hier)
      modifies this`chainCache, this`methodCache
      ensures (Abs(), found) == FindMethod(old(Abs()), v, name)
      ensures old(Coherent(Abs()) && Known(hier, v)) ==> found == Lookup(hier, v, name) && Coherent(Abs())
    {
      ghost var start := Abs();
      if Coherent(Abs()) && Known(hier, v) { FindMethodAgrees(Abs(), v, name); }
      hide Acyclic, Chain, ChainKey, Coherent, Known, LookupChain, Lookup;
      var key := ChainKey(hier, v);
      if (key, name) in methodCache && methodCache[(key, name)].0 == epoch { return methodCache[(key, name)].1; }
      var chain := LookupChainRc(v);
      found := WalkPick(hier, chain, name);
      methodCache := methodCache[(key, name) := (epoch, found)];
      assert (Abs(), found) == FindMethod(start, v, name);
    }

    /** Any change of the hierarchy; the accessors advance the epoch before they hand out the field. */
    method Change(op: Op)
      requires Allowed(hier, op)
      modifies this`hier, this`epoch
      ensures Abs() == Do(old(Abs()), op)
      ensures old(Stamped(Abs())) ==> Stamped(Abs())
      ensures old(Stamped(Abs())) && Bumps(op) ==> Coherent(Abs())
      ensures old(Coherent(Abs())) && !op.Push? ==> Coherent(Abs())
    {
      hide Coherent, Stamped, Allowed, Apply, Bumps;
      if Stamped(Abs()) {
        AnyChangeKeepsStamps(Abs(), op);
        if Bumps(op) { BumpRestores(Abs(), op); }
      }
      if Coherent(Abs()) && !op.Push? { ChangeKeepsCoherent(Abs(), op); }
      if Bumps(op) { epoch := epoch + 1; }
      hier := Apply(hier, op);
    }
  }
}
