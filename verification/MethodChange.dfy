/** What a change to the modules and objects does to the methods they answer with. */
module MethodChange {
  import opened Prelude
  import opened Hierarchy
  import opened LookupOrder
  import opened MethodCache

  lemma AllowedIsAcyclic(h: Hier, op: Op)
    requires Allowed(h, op)
    ensures Acyclic(Apply(h, op))
  {
    hide Apply, Acyclic;
    GoodIsAcyclic(Apply(h, op));
  }

  /** A class answers with the methods it was given last, and says no to a name it was told to undefine. */
  lemma MethodsTakeEffect(h: Hier, c: Id, methods: map<string, Meth>, name: string)
    requires Allowed(h, SetMethods(c, methods)) && At(h, c).prepends == [] && name in methods
    ensures var h' := Apply(h, SetMethods(c, methods));
            Acyclic(h') && Lookup(h', Core(c), name) == if methods[name] == Undefined then None
                else Some((methods[name], c))
  {
    AllowedIsAcyclic(h, SetMethods(c, methods));
    hide Acyclic, Allowed, Lookup, Under;
    var h' := Apply(h, SetMethods(c, methods));
    ClassDecides(h', c, name);
  }

  /** A singleton, or a meta, decides as soon as it is set. */
  lemma SingletonTakesEffect(h: Hier, o: Id, s: Id, name: string)
    requires Allowed(h, SetSingleton(o, Some(s))) && Mentions(h, s, name)
    ensures var h' := Apply(h, SetSingleton(o, Some(s))); Acyclic(h') && Lookup(h', Object(o), name) == Says(h, s, name)
  {
    AllowedIsAcyclic(h, SetSingleton(o, Some(s)));
    hide Acyclic, Good, Lookup;
    SingletonDecides(Apply(h, SetSingleton(o, Some(s))), o, s, name);
  }

  lemma MetaTakesEffect(h: Hier, m: Id, t: Id, name: string)
    requires Allowed(h, SetMeta(m, Some(t))) && Mentions(h, t, name)
    ensures var h' := Apply(h, SetMeta(m, Some(t))); Acyclic(h') && Lookup(h', Mod(m), name) == Says(h, t, name)
  {
    AllowedIsAcyclic(h, SetMeta(m, Some(t)));
    hide Acyclic, Good, Lookup;
    MetaDecides(Apply(h, SetMeta(m, Some(t))), m, t, name);
  }

  /** A class that says nothing itself answers as the superclass it was given last, and a new class from the start. */
  lemma SuperclassTakesEffect(h: Hier, c: Id, s: Id, name: string)
    requires Allowed(h, SetSuperclass(c, Some(s)))
    requires At(h, c).includes == [] && At(h, c).prepends == [] && !Mentions(h, c, name)
    ensures var h' := Apply(h, SetSuperclass(c, Some(s)));
            Acyclic(h') && Lookup(h', Core(c), name) == Lookup(h', Core(s), name)
  {
    AllowedIsAcyclic(h, SetSuperclass(c, Some(s)));
    var h' := Apply(h, SetSuperclass(c, Some(s)));
    BareBeside(h', c);
    hide Acyclic, Allowed, Lookup, Beside;
    SuperclassDecides(h', c, name);
  }

  lemma NewClassAnswers(h: Hier, c: Id, isClass: bool, s: Id, name: string)
    requires Allowed(h, NewModule(c, isClass, Some(s)))
    ensures var h' := Apply(h, NewModule(c, isClass, Some(s)));
            Acyclic(h') && Lookup(h', Core(c), name) == Lookup(h', Core(s), name)
  {
    AllowedIsAcyclic(h, NewModule(c, isClass, Some(s)));
    var h' := Apply(h, NewModule(c, isClass, Some(s)));
    BareBeside(h', c);
    hide Acyclic, Allowed, Lookup, Beside;
    SuperclassDecides(h', c, name);
  }

  lemma BareBeside(h: Hier, c: Id)
    requires At(h, c).includes == [] && At(h, c).prepends == []
    ensures forall x :: Beside(h, c, x) ==> x == c
  {
    forall x | Under(h, c, x) ensures x == c { BareUnder(h, c, x); }
  }

  lemma BareUnder(h: Hier, c: Id, x: Id)
    requires At(h, c).includes == [] && Under(h, c, x)
    ensures x == c
  {
    UnderStep(h, c, x);
  }

  lemma PushedLast(h: Hier, m: Id, inc: Id, prepend: bool)
    requires Allowed(h, Op.Push(m, inc, prepend)) && inc !in (if prepend then At(h, m).prepends else At(h, m).includes)
    ensures var h' := Apply(h, Op.Push(m, inc, prepend));
            && Acyclic(h') && inc != m && At(h', m).methods == At(h, m).methods && At(h', inc) == At(h, inc)
            && At(h', m).superclass == At(h, m).superclass
            && At(h', m).includes == At(h, m).includes + (if prepend then [] else [inc])
            && At(h', m).prepends == At(h, m).prepends + (if prepend then [inc] else [])
  {
    AllowedIsAcyclic(h, Op.Push(m, inc, prepend));
    var h' := Apply(h, Op.Push(m, inc, prepend));
    assert At(h, m).includes + [] == At(h, m).includes && At(h, m).prepends + [] == At(h, m).prepends;
    assert Link(h', m, inc);
    var r := RankOf(h');
    assert r(inc) < r(m);
  }

  /** A module included last decides over what was included before and over the superclass, if nothing nearer mentions
      the name. */
  lemma IncludeTakesEffect(h: Hier, m: Id, inc: Id, name: string)
    requires Allowed(h, Op.Push(m, inc, false)) && inc !in At(h, m).includes
    requires At(h, m).prepends == [] && !Mentions(h, m, name) && Mentions(h, inc, name)
    requires var h' := Apply(h, Op.Push(m, inc, false));
             && (forall j :: 0 <= j < |At(h, m).includes| ==> !Under(h', At(h, m).includes[j], inc))
             && (At(h, m).superclass.Some? ==> !Above(h', At(h, m).superclass.value, inc))
    ensures var h' := Apply(h, Op.Push(m, inc, false)); Acyclic(h') && Lookup(h', Core(m), name) == Says(h, inc, name)
  {
    PushedLast(h, m, inc, false);
    hide Acyclic, Allowed, Apply, Lookup, Under, Above, At;
    IncludedDecides(Apply(h, Op.Push(m, inc, false)), m, |At(h, m).includes|, name);
  }

  /** A module prepended last decides over the class itself, if the class has it as an ancestor in no other way. */
  lemma PrependTakesEffect(h: Hier, m: Id, inc: Id, name: string)
    requires Allowed(h, Op.Push(m, inc, true)) && inc !in At(h, m).prepends && Mentions(h, inc, name)
    requires var h' := Apply(h, Op.Push(m, inc, true));
             && NotAgain(h', m, inc)
             && forall j :: 0 <= j < |At(h, m).prepends| ==> !Under(h', At(h, m).prepends[j], inc)
    ensures var h' := Apply(h, Op.Push(m, inc, true)); Acyclic(h') && Lookup(h', Core(m), name) == Says(h, inc, name)
  {
    PushedLast(h, m, inc, true);
    hide Acyclic, Allowed, Apply, Lookup, Under, NotAgain, At;
    PrependedDecides(Apply(h, Op.Push(m, inc, true)), m, |At(h, m).prepends|, name);
  }

  /** The same for a list of includes, or of prepends, that is set as a whole. */
  lemma IncludesTakeEffect(h: Hier, m: Id, inc: Id, name: string)
    requires Allowed(h, SetIncludes(m, [inc])) && At(h, m).prepends == []
    requires inc != m && !Mentions(h, m, name) && Mentions(h, inc, name)
    requires At(h, m).superclass.Some? ==> !Above(Apply(h, SetIncludes(m, [inc])), At(h, m).superclass.value, inc)
    ensures var h' := Apply(h, SetIncludes(m, [inc])); Acyclic(h') && Lookup(h', Core(m), name) == Says(h, inc, name)
  {
    AllowedIsAcyclic(h, SetIncludes(m, [inc]));
    var h' := Apply(h, SetIncludes(m, [inc]));
    assert At(h', m).includes == [inc] && At(h', m).prepends == [] && At(h', inc) == At(h, inc);
    assert At(h', m).superclass == At(h, m).superclass && At(h', m).methods == At(h, m).methods;
    hide Acyclic, Allowed, Apply, Lookup, Under, Above, At;
    IncludedDecides(h', m, 0, name);
  }

  lemma PrependsTakeEffect(h: Hier, m: Id, inc: Id, name: string)
    requires Allowed(h, SetPrepends(m, [inc])) && inc != m && Mentions(h, inc, name)
    requires NotAgain(Apply(h, SetPrepends(m, [inc])), m, inc)
    ensures var h' := Apply(h, SetPrepends(m, [inc])); Acyclic(h') && Lookup(h', Core(m), name) == Says(h, inc, name)
  {
    AllowedIsAcyclic(h, SetPrepends(m, [inc]));
    var h' := Apply(h, SetPrepends(m, [inc]));
    assert At(h', m).prepends == [inc] && At(h', inc) == At(h, inc);
    hide Acyclic, Allowed, Apply, Lookup, Under, NotAgain, At;
    PrependedDecides(h', m, 0, name);
  }

  /** Including or prepending a module again changes nothing. */
  lemma PushAgain(h: Hier, m: Id, inc: Id, prepend: bool)
    requires m in h.mods && inc in (if prepend then h.mods[m].prepends else h.mods[m].includes)
    ensures Apply(h, Op.Push(m, inc, prepend)) == h
  {
    assert h.mods[m := h.mods[m]] == h.mods;
  }

  /** A copy answers as the original if it takes the singleton along, and otherwise as the class. */
  lemma CopiesAnswer(h: Hier, id: Id, original: Id, with: bool, name: string)
    requires Good(h) && Allowed(h, CopyObject(id, original, with))
    ensures var h' := Apply(h, CopyObject(id, original, with));
            Acyclic(h) && Acyclic(h') && Lookup(h', Object(id), name) ==
                if with then Lookup(h, Object(original), name) else Lookup(h, Core(h.objs[original].class_), name)
  {
    var op := CopyObject(id, original, with);
    var h' := Apply(h, op);
    AllowedIsAcyclic(h, op);
    GoodIsAcyclic(h);
    QuietKeepsMethods(h, op);
    CreationGrows(h, op);
    assert Known(h, Object(original));
    hide Acyclic, Good, Ancestors, SingletonPart;
    ChainSame(h, h', Object(original));
    KnownClass(h, original);
    ChainSame(h, h', Core(h.objs[original].class_));
    PickSame(h, h', Chain(h, Object(original)), name);
    PickSame(h, h', Chain(h, Core(h.objs[original].class_)), name);
  }

  lemma KnownClass(h: Hier, o: Id)
    requires Good(h) && o in h.objs
    ensures Known(h, Core(h.objs[o].class_))
  {
    hide Acyclic;
  }

  /** A new object answers as its class. */
  lemma NewObjectAnswers(h: Hier, id: Id, c: Id, name: string)
    requires Allowed(h, NewObject(id, c))
    ensures var h' := Apply(h, NewObject(id, c));
            Acyclic(h') && Lookup(h', Object(id), name) == Lookup(h', Core(c), name)
  {
    AllowedIsAcyclic(h, NewObject(id, c));
    hide Acyclic, Allowed, Lookup;
    PlainObjectLookup(Apply(h, NewObject(id, c)), id, name);
  }
}
