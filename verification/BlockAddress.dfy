/** What address an instance of a block has, in terms of the block's module, type, name and index. */
module BlockAddress {
  import opened Prelude
  import opened Address
  import opened AddressGrammar
  import opened StateDoc

  /** A block with a proper type and name, in the module with the steps `ms`: the root module when there are none. */
  ghost predicate Proper(b: Block, ms: seq<Step>) {
    && b.ty.Text? && NameOk(b.ty.s) && b.name.Text? && NameOk(b.name.s)
    && if ms == [] then TextOf(b.module_) == "" else Spells(TextOf(b.module_), ms)
  }

  /** The key an index stands for; a number's text has no bracket or quote. */
  ghost predicate IndexKey(index: Index, key: Option<string>) {
    match index
    case StringIndex(s) => key == Some(s)
    case NumberIndex(n) => key == Some(n) && Bare(n)
    case _ => key == None
  }

  lemma {:induction false} SpellsJoin(s: string, xs: seq<Step>, r: string, ys: seq<Step>)
    requires Spells(s, xs) && Spells(r, ys)
    ensures Spells(s + "." + r, xs + ys)
    decreases |xs|
  {
    hide StepSpells;
    var all := xs + ys;
    if |xs| == 1 {
      assert all[0] == xs[0] && all[1..] == ys;
      assert Joins(s + "." + r, s, r, all);
    } else {
      var u, q :| Joins(s, u, q, xs);
      SpellsJoin(q, xs[1..], r, ys);
      assert all[0] == xs[0] && all[1..] == xs[1..] + ys;
      assert s + "." + r == u + "." + (q + "." + r);
      assert Joins(s + "." + r, u, q + "." + r, all);
    }
  }

  lemma {:induction false} EscapeQuotes(key: string)
    ensures Quotes(Escape(key), key)
  {
    hide Escape;
    if key == "" {
      NoEscape();
    } else {
      EscapeStep(key);
      EscapeQuotes(key[1..]);
      var e, tail := Escape(key), Escape(key[1..]);
      if key[0] == '\\' || key[0] == '"' {
        assert e[0] == '\\' && e[1] == key[0] && e[2..] == tail;
      } else {
        assert e[0] == key[0] && e[1..] == tail;
      }
    }
  }

  lemma NoEscape()
    ensures Escape("") == ""
  {
  }

  lemma NameSpells(name: string, t: string, key: Option<string>)
    requires NameOk(name) && IndexSpells(t, key)
    ensures Spells(name + t, [Step(name, key)])
  {
    hide IndexSpells;
    assert (name + t)[|name|..] == t;
  }

  lemma IndexIsSpelled(inst: Instance, key: Option<string>)
    requires IndexKey(inst.index, key)
    ensures exists t :: IndexSpells(t, key) && forall base :: InstanceAddress(base, inst) == base + t
  {
    match inst.index
    case StringIndex(s) =>
      EscapeQuotes(s);
      var t := IndexText(s);
      assert QuotedIndex(t, s, Escape(s));
      hide Quotes, Escape;
      assert IndexSpells(t, key);
    case NumberIndex(n) =>
      var t := "[" + n + "]";
      assert IndexSpells(t, key);
      forall base ensures InstanceAddress(base, inst) == base + t { assert base + "[" + n + "]" == base + t; }
    case _ =>
      assert IndexSpells("", key);
      forall base: string ensures InstanceAddress(base, inst) == base + "" { assert base + "" == base; }
  }

  lemma NoneSpells()
    ensures IndexSpells("", None)
  {
  }

  /** The address of an instance is the steps of its module, then its type, then its name with its index. */
  lemma AddressSpells(b: Block, inst: Instance, ms: seq<Step>, key: Option<string>)
    requires Proper(b, ms) && IndexKey(inst.index, key)
    ensures ResourceBase(b).Ok?
    ensures Spells(InstanceAddress(ResourceBase(b).value, inst), ms + [Step(b.ty.s, None), Step(b.name.s, key)])
  {
    hide *;
    BaseIs(b, ms);
    ProperParts(b, ms);
    IndexIsSpelled(inst, key);
    var t :| IndexSpells(t, key) && forall base :: InstanceAddress(base, inst) == base + t;
    var base, module_ := b.ty.s + "." + b.name.s, TextOf(b.module_);
    var last := [Step(b.ty.s, None), Step(b.name.s, key)];
    TailSpells(b.ty.s, b.name.s, t, key);
    if ms == [] {
      assert ms + last == last;
    } else {
      SpellsJoin(module_, ms, base + t, last);
      assert module_ + "." + base + t == module_ + "." + (base + t);
    }
  }

  lemma TailSpells(ty: string, name: string, t: string, key: Option<string>)
    requires NameOk(ty) && NameOk(name) && IndexSpells(t, key)
    ensures Spells(ty + "." + name + t, [Step(ty, None), Step(name, key)])
  {
    hide *;
    NoneSpells();
    NameSpells(ty, "", None);
    assert ty + "" == ty;
    NameSpells(name, t, key);
    SpellsJoin(ty, [Step(ty, None)], name + t, [Step(name, key)]);
    assert [Step(ty, None)] + [Step(name, key)] == [Step(ty, None), Step(name, key)];
    assert ty + "." + name + t == ty + "." + (name + t);
  }

  lemma ProperParts(b: Block, ms: seq<Step>)
    requires Proper(b, ms)
    ensures b.ty.Text? && NameOk(b.ty.s) && b.name.Text? && NameOk(b.name.s)
    ensures ms != [] ==> Spells(TextOf(b.module_), ms) && TextOf(b.module_) != ""
    ensures ms == [] ==> TextOf(b.module_) == ""
  {
    hide Spells, NameOk;
    EmptySpellsNothing(ms);
  }

  lemma BaseIs(b: Block, ms: seq<Step>)
    requires Proper(b, ms)
    ensures b.ty.Text? && b.name.Text?
    ensures ms == [] ==> ResourceBase(b) == Ok(b.ty.s + "." + b.name.s)
    ensures ms != [] ==> ResourceBase(b) == Ok(TextOf(b.module_) + "." + (b.ty.s + "." + b.name.s))
  {
    ProperParts(b, ms);
    hide Spells, NameOk, Proper;
    var m, ty, name := TextOf(b.module_), b.ty.s, b.name.s;
    assert m + "." + ty + "." + name == m + "." + (ty + "." + name);
  }

  lemma EmptySpellsNothing(ms: seq<Step>)
    ensures !Spells("", ms)
  {
    NothingSpelled(ms);
  }

  /** So it reads back as those, and instances whose module, type, name or index differ have different addresses. */
  lemma AddressesTell(
    b: Block, i: Instance, ms: seq<Step>, key: Option<string>,
    c: Block, j: Instance, ns: seq<Step>, key': Option<string>)
    requires Proper(b, ms) && IndexKey(i.index, key) && Proper(c, ns) && IndexKey(j.index, key')
    ensures ResourceBase(b).Ok? && ResourceBase(c).Ok?
    ensures Parse(InstanceAddress(ResourceBase(b).value, i)) == Ok(ms + [Step(b.ty.s, None), Step(b.name.s, key)])
    ensures InstanceAddress(ResourceBase(b).value, i) == InstanceAddress(ResourceBase(c).value, j) ==>
              ms == ns && b.ty == c.ty && b.name == c.name && key == key'
  {
    hide Proper, Spells, InstanceAddress, Parse;
    AddressSpells(b, i, ms, key);
    AddressSpells(c, j, ns, key');
    var xs, ys := ms + [Step(b.ty.s, None), Step(b.name.s, key)], ns + [Step(c.ty.s, None), Step(c.name.s, key')];
    ParseExactly(InstanceAddress(ResourceBase(b).value, i), xs);
    ParseExactly(InstanceAddress(ResourceBase(c).value, j), ys);
    ProperTexts(b, ms);
    ProperTexts(c, ns);
    if xs == ys {
      assert |ms| == |ns| && xs[|ms|] == ys[|ns|] && xs[|ms| + 1] == ys[|ns| + 1];
      assert ms == xs[..|ms|] && ns == ys[..|ns|];
    }
  }

  lemma ProperTexts(b: Block, ms: seq<Step>)
    requires Proper(b, ms)
    ensures b.ty.Text? && b.name.Text?
  {
  }

  /** Proper blocks with the same base are in the same module and have the same type and name. */
  lemma BasesTell(b: Block, ms: seq<Step>, c: Block, ns: seq<Step>)
    requires Proper(b, ms) && Proper(c, ns) && ResourceBase(b) == ResourceBase(c)
    ensures TextOf(b.module_) == TextOf(c.module_) && b.ty == c.ty && b.name == c.name
  {
    var plain := Instance(NoIndex, "");
    AddressesTell(b, plain, ms, None, c, plain, ns, None);
    BaseIs(b, ms);
    BaseIs(c, ns);
    ProperParts(b, ms);
    ProperParts(c, ns);
    hide Spells, Proper, NameOk, ResourceBase;
    if ms != [] {
      SameFront(TextOf(b.module_), TextOf(c.module_), b.ty.s + "." + b.name.s);
    }
  }

  lemma SameFront(a: string, b: string, tail: string)
    requires a + "." + tail == b + "." + tail
    ensures a == b
  {
    assert |a| == |b|;
    assert a == (a + "." + tail)[..|a|] && b == (b + "." + tail)[..|b|];
  }
}
