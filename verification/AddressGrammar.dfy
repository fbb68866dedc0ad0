/**
  What an address is, as a relation between text and steps that knows nothing of the parser, and
  what the reader makes of it.
*/
module AddressGrammar {
  import opened Prelude
  import opened Address

  /** `e` spells the text `key` between quotes: a backslash takes the next character as it is. */
  ghost predicate Quotes(e: string, key: string)
    decreases |e|
  {
    if e == "" then key == ""
    else if e[0] == '"' then false
    else if e[0] == '\\' then |e| >= 2 && key != "" && key[0] == e[1] && Quotes(e[2..], key[1..])
    else key != "" && key[0] == e[0] && Quotes(e[1..], key[1..])
  }

  /** A bare index: any text without a closing bracket that does not start with a quote. */
  ghost predicate Bare(key: string) { ']' !in key && (key != "" ==> key[0] != '"') }

  ghost predicate QuotedIndex(t: string, key: string, e: string) { t == "[\"" + e + "\"]" && Quotes(e, key) }

  ghost predicate IndexSpells(t: string, key: Option<string>) {
    match key
    case None => t == ""
    case Some(k) => (Bare(k) && t == "[" + k + "]") || exists e :: QuotedIndex(t, k, e)
  }

  ghost predicate StepSpells(u: string, x: Step) {
    NameOk(x.name) && x.name <= u && IndexSpells(u[|x.name|..], x.key)
  }

  ghost predicate Joins(s: string, u: string, r: string, xs: seq<Step>)
    requires |xs| > 1
    decreases |xs|, 0
  {
    s == u + "." + r && StepSpells(u, xs[0]) && Spells(r, xs[1..])
  }

  /** `s` is an address with the steps `xs`: spelled steps, joined by dots. */
  ghost predicate Spells(s: string, xs: seq<Step>)
    decreases |xs|, 1
  {
    if xs == [] then false
    else if |xs| == 1 then StepSpells(s, xs[0])
    else exists u, r :: Joins(s, u, r, xs)
  }

  // ----- what is spelled is read -------------------------------------------------------------------

  lemma {:induction false} UnquoteReads(e: string, key: string, rest: string)
    requires Quotes(e, key)
    ensures Unquote(e + "\"" + rest) == Ok((key, rest))
    decreases |e|
  {
    var t := e + "\"" + rest;
    if e == "" {
      assert t == "\"" + rest;
    } else if e[0] == '\\' {
      UnquoteReads(e[2..], key[1..], rest);
      assert t[2..] == e[2..] + "\"" + rest;
      assert key == [key[0]] + key[1..];
    } else {
      UnquoteReads(e[1..], key[1..], rest);
      assert t[1..] == e[1..] + "\"" + rest;
      assert key == [key[0]] + key[1..];
    }
  }

  lemma {:induction false} UptoClose(key: string, rest: string)
    requires ']' !in key
    ensures Upto(key + "]" + rest, Closes) == |key|
  {
    if key == "" {
      assert key + "]" + rest == "]" + rest;
    } else {
      assert (key + "]" + rest)[1..] == key[1..] + "]" + rest;
      assert key[0] in key && forall c :: c in key[1..] ==> c in key;
      UptoClose(key[1..], rest);
    }
  }

  lemma IndexReads(t: string, key: Option<string>, rest: string)
    requires IndexSpells(t, key) && (rest == "" || rest[0] == '.')
    ensures ParseIndex(t + rest) == Ok((key, rest))
  {
    if key == None {
      assert t + rest == rest;
    } else if Bare(key.value) && t == "[" + key.value + "]" {
      BareReads(key.value, rest);
    } else {
      var e :| QuotedIndex(t, key.value, e);
      QuotedReads(e, key.value, rest);
    }
  }

  lemma BareReads(k: string, rest: string)
    requires Bare(k)
    ensures ParseIndex("[" + k + "]" + rest) == Ok((Some(k), rest))
  {
    hide Upto;
    var s := "[" + k + "]" + rest;
    assert s[1..] == k + "]" + rest;
    UptoClose(k, rest);
    assert s[1] == if k == "" then ']' else k[0];
    assert s[1..1 + |k|] == k && s[|k| + 2..] == rest;
  }

  lemma QuotedReads(e: string, k: string, rest: string)
    requires Quotes(e, k)
    ensures ParseIndex("[\"" + e + "\"]" + rest) == Ok((Some(k), rest))
  {
    hide Unquote;
    var s := "[\"" + e + "\"]" + rest;
    assert s[2..] == e + "\"" + ("]" + rest);
    UnquoteReads(e, k, "]" + rest);
    assert ("]" + rest)[1..] == rest;
  }

  lemma StepReads(u: string, x: Step, rest: string)
    requires StepSpells(u, x) && (rest == "" || rest[0] == '.')
    ensures ParseOne(u + rest) == Ok((x, rest))
  {
    hide Upto, ParseIndex;
    var t := u[|x.name|..];
    assert u == x.name + t;
    assert u + rest == x.name + (t + rest);
    IndexStarts(t, x.key);
    UptoName(x.name, t + rest);
    assert (u + rest)[|x.name|..] == t + rest && (u + rest)[..|x.name|] == x.name;
    IndexReads(t, x.key, rest);
  }

  lemma IndexStarts(t: string, key: Option<string>)
    requires IndexSpells(t, key)
    ensures t == "" || t[0] == '['
  {
  }

  lemma {:induction false} SpelledIsRead(s: string, xs: seq<Step>)
    requires Spells(s, xs)
    ensures ParseRest(s) == Ok(xs)
    decreases |xs|
  {
    hide ParseOne, StepSpells;
    if |xs| == 1 {
      StepReads(s, xs[0], "");
      assert s + "" == s && xs == [xs[0]];
    } else {
      var u, r :| Joins(s, u, r, xs);
      SpelledIsRead(r, xs[1..]);
      StepReads(u, xs[0], "." + r);
      assert s == u + ("." + r) && ("." + r)[1..] == r && xs == [xs[0]] + xs[1..];
    }
  }

  // ----- what is read was spelled -------------------------------------------------------------------

  lemma {:induction false} UnquoteSpells(s: string) returns (e: string)
    requires Unquote(s).Ok?
    ensures var (key, rest) := Unquote(s).value; s == e + "\"" + rest && Quotes(e, key)
    decreases |s|
  {
    if s[0] == '"' {
      e := "";
      assert s == "" + "\"" + s[1..];
    } else if s[0] == '\\' {
      var f := UnquoteSpells(s[2..]);
      e := s[..2] + f;
      assert e[2..] == f && s == s[..2] + s[2..];
      QuoteBehind(s[..2], f, Unquote(s).value.1);
    } else {
      var f := UnquoteSpells(s[1..]);
      e := [s[0]] + f;
      assert e[1..] == f && s == [s[0]] + s[1..];
      QuoteBehind([s[0]], f, Unquote(s).value.1);
    }
  }

  lemma QuoteBehind(a: string, f: string, rest: string)
    ensures a + (f + "\"" + rest) == a + f + "\"" + rest
  {
  }

  lemma ParsedIndexSpells(s: string)
    requires ParseIndex(s).Ok?
    ensures var (key, rest) := ParseIndex(s).value;
            |rest| <= |s| && s[|s| - |rest|..] == rest && IndexSpells(s[..|s| - |rest|], key)
  {
    hide Unquote, Upto, Quotes;
    var (key, rest) := ParseIndex(s).value;
    var t := s[..|s| - |rest|];
    if key.Some? {
      if |s| > 1 && s[1] == '"' {
        var e := UnquoteSpells(s[2..]);
        var (_, tail) := Unquote(s[2..]).value;
        assert tail == "]" + rest;
        assert s == "[\"" + e + "\"]" + rest;
        assert QuotedIndex(t, key.value, e);
      } else {
        var n := Upto(s[1..], Closes);
        assert s[1..][n] == ']' && s == "[" + key.value + "]" + rest;
        assert forall i :: 0 <= i < n ==> s[1..][i] != ']';
        assert Bare(key.value);
      }
    }
  }

  lemma ParsedStepSpells(s: string)
    requires ParseOne(s).Ok?
    ensures var (x, rest) := ParseOne(s).value;
            |rest| < |s| && s == s[..|s| - |rest|] + rest && StepSpells(s[..|s| - |rest|], x)
  {
    hide ParseIndex, IndexSpells, Upto;
    var (x, rest) := ParseOne(s).value;
    var n := Upto(s, EndsName);
    var t := s[n..];
    assert x == Step(s[..n], ParseIndex(t).value.0) && rest == ParseIndex(t).value.1;
    assert NameOk(s[..n]) by { NoEnds(s, n); }
    ParsedIndexSpells(t);
    hide ParseOne, NameOk;
    var u := s[..|s| - |rest|];
    assert u == s[..n] + t[..|t| - |rest|] by { assert s == s[..n] + t; }
    assert u[n..] == t[..|t| - |rest|];
    assert s == u + rest by { assert t == t[..|t| - |rest|] + rest; }
  }

  lemma NoEnds(s: string, n: nat)
    requires 0 < n <= |s| && forall i :: 0 <= i < n ==> !EndsName(s[i])
    ensures NameOk(s[..n])
  {
  }

  lemma {:induction false} ReadWasSpelled(s: string)
    requires ParseRest(s).Ok?
    ensures Spells(s, ParseRest(s).value)
    decreases |s|
  {
    hide ParseOne, ParseRest, StepSpells;
    RestParts(s);
    ParsedStepSpells(s);
    var (x, rest) := ParseOne(s).value;
    var u := s[..|s| - |rest|];
    if rest == "" {
      assert u == s;
    } else {
      ReadWasSpelled(rest[1..]);
      var xs := ParseRest(s).value;
      assert rest == "." + rest[1..];
      assert s == u + "." + rest[1..];
      assert xs[0] == x && xs[1..] == ParseRest(rest[1..]).value;
      ParsedSome(rest[1..]);
      assert Joins(s, u, rest[1..], xs);
    }
  }

  lemma ParsedSome(s: string)
    requires ParseRest(s).Ok?
    ensures ParseRest(s).value != []
  {
    hide ParseOne;
  }

  /** The reader accepts exactly the addresses, and gives their steps. */
  lemma ParseExactly(s: string, xs: seq<Step>)
    ensures Parse(s) == Ok(xs) <==> Spells(s, xs)
  {
    hide ParseRest;
    if s == "" {
      NothingSpelled(xs);
    } else {
      if Spells(s, xs) { SpelledIsRead(s, xs); }
      if ParseRest(s) == Ok(xs) { ReadWasSpelled(s); }
    }
  }

  lemma NothingSpelled(xs: seq<Step>)
    ensures !Spells("", xs)
  {
    if |xs| > 1 { forall u, r ensures !Joins("", u, r, xs) { assert |u + "." + r| > 0; } }
  }

  // ----- what is no address --------------------------------------------------------------------------------

  ghost predicate QuoteEnds(q: string, e: string, key: string, rest: string) { q == e + "\"" + rest && Quotes(e, key) }

  ghost predicate OpenString(s: string, name: string, q: string) {
    NameOk(name) && s == name + ("[\"" + q) && forall e, key, rest :: !QuoteEnds(q, e, key, rest)
  }

  ghost predicate OpenBare(s: string, name: string, k: string) { NameOk(name) && s == name + ("[" + k) && Bare(k) }

  ghost predicate OpenQuoted(s: string, name: string, q: string, e: string, key: string, rest: string) {
    NameOk(name) && s == name + ("[\"" + q) && QuoteEnds(q, e, key, rest) && (rest == "" || rest[0] != ']')
  }

  ghost predicate Trails(s: string, u: string, x: Step, c: char, rest: string) {
    StepSpells(u, x) && x.key.Some? && s == u + ([c] + rest) && c != '.'
  }

  /** What is wrong with the first step of `s`. */
  ghost predicate StepFault(s: string, err: AddressError) {
    match err
    case Empty => false
    case EmptySegment => s == "" || s[0] == '.' || s[0] == '['
    case UnterminatedString => exists name, q :: OpenString(s, name, q)
    case UnterminatedIndex =>
      (exists name, k :: OpenBare(s, name, k)) || (exists name, q, e, key, rest :: OpenQuoted(s, name, q, e, key, rest))
    case TrailingAfterIndex(c) => exists u, x, rest :: Trails(s, u, x, c, rest)
  }

  ghost predicate StepThen(s: string, u: string, x: Step, r: string) { StepSpells(u, x) && s == u + ("." + r) }

  /** Good steps and then a faulty one. */
  ghost predicate Faulty(s: string, err: AddressError)
    decreases |s|
  {
    StepFault(s, err) || exists u, x, r :: StepThen(s, u, x, r) && |r| < |s| && Faulty(r, err)
  }

  lemma {:induction false} UnquoteFails(q: string)
    ensures Unquote(q).Err? ==> Unquote(q) == Err(UnterminatedString)
    ensures Unquote(q).Err? <==> forall e, key, rest :: !QuoteEnds(q, e, key, rest)
    decreases |q|
  {
    if Unquote(q).Ok? {
      var e := UnquoteSpells(q);
      assert QuoteEnds(q, e, Unquote(q).value.0, Unquote(q).value.1);
    } else {
      forall e, key, rest ensures !QuoteEnds(q, e, key, rest) {
        if QuoteEnds(q, e, key, rest) { UnquoteReads(e, key, rest); }
      }
      OnlyUnterminated(q);
    }
  }

  lemma {:induction false} OnlyUnterminated(q: string)
    ensures Unquote(q).Err? ==> Unquote(q) == Err(UnterminatedString)
    decreases |q|
  {
    if |q| > 1 && q[0] == '\\' { OnlyUnterminated(q[2..]); } else if q != "" { OnlyUnterminated(q[1..]); }
  }

  lemma {:induction false} UptoEnd(k: string)
    ensures Upto(k, Closes) == |k| <==> ']' !in k
  {
    if k != "" {
      UptoEnd(k[1..]);
      assert k == [k[0]] + k[1..];
    }
  }

  lemma NameThenIndex(name: string, t: string)
    requires NameOk(name) && t != "" && t[0] == '['
    ensures ParseOne(name + t) == match ParseIndex(t)
                                  case Err(e) => Err(e)
                                  case Ok((key, rest)) => Ok((Step(name, key), rest))
  {
    hide Upto, ParseIndex;
    UptoName(name, t);
    assert (name + t)[|name|..] == t && (name + t)[..|name|] == name;
  }

  lemma OpenStringFails(s: string, name: string, q: string)
    requires OpenString(s, name, q)
    ensures ParseOne(s) == Err(UnterminatedString)
  {
    var t := "[\"" + q;
    assert t[2..] == q && t[0] == '[' && t[1] == '"';
    UnquoteFails(q);
    hide Unquote, ParseOne;
    NameThenIndex(name, t);
  }

  lemma OpenBareFails(s: string, name: string, k: string)
    requires OpenBare(s, name, k)
    ensures ParseOne(s) == Err(UnterminatedIndex)
  {
    var t := "[" + k;
    assert t[1..] == k && t[0] == '[' && (|t| > 1 ==> t[1] == k[0]);
    UptoEnd(k);
    hide Upto, ParseOne;
    NameThenIndex(name, t);
  }

  lemma OpenQuotedFails(s: string, name: string, q: string, e: string, key: string, rest: string)
    requires OpenQuoted(s, name, q, e, key, rest)
    ensures ParseOne(s) == Err(UnterminatedIndex)
  {
    var t := "[\"" + q;
    assert t[2..] == q && t[0] == '[' && t[1] == '"';
    UnquoteReads(e, key, rest);
    hide Unquote, ParseOne;
    NameThenIndex(name, t);
  }

  lemma KeyedStepReads(u: string, x: Step, rest: string)
    requires StepSpells(u, x) && x.key.Some?
    ensures ParseOne(u + rest) == Ok((x, rest))
  {
    hide ParseOne;
    var t := u[|x.name|..];
    assert u == x.name + t && u + rest == x.name + (t + rest);
    KeyedIndexReads(t, x.key.value, rest);
    NameThenIndex(x.name, t + rest);
  }

  lemma KeyedIndexReads(t: string, k: string, rest: string)
    requires IndexSpells(t, Some(k))
    ensures ParseIndex(t + rest) == Ok((Some(k), rest)) && t + rest != "" && (t + rest)[0] == '['
  {
    hide ParseIndex;
    if Bare(k) && t == "[" + k + "]" {
      BareReads(k, rest);
    } else {
      var e :| QuotedIndex(t, k, e);
      QuotedReads(e, k, rest);
    }
  }

  lemma FaultFails(s: string, err: AddressError)
    requires StepFault(s, err)
    ensures ParseRest(s) == Err(err)
  {
    hide ParseOne, StepSpells, OpenString, OpenBare, OpenQuoted;
    match err
    case EmptySegment => NothingNamed(s);
    case UnterminatedString =>
      var name, q :| OpenString(s, name, q);
      OpenStringFails(s, name, q);
    case UnterminatedIndex =>
      if name, k :| OpenBare(s, name, k) {
        OpenBareFails(s, name, k);
      } else {
        var name, q, e, key, rest :| OpenQuoted(s, name, q, e, key, rest);
        OpenQuotedFails(s, name, q, e, key, rest);
      }
    case TrailingAfterIndex(c) =>
      var u, x, rest :| Trails(s, u, x, c, rest);
      KeyedStepReads(u, x, [c] + rest);
  }

  lemma NothingNamed(s: string)
    requires s == "" || s[0] == '.' || s[0] == '['
    ensures ParseOne(s) == Err(EmptySegment)
  {
  }

  lemma {:induction false} FaultyFails(s: string, err: AddressError)
    requires Faulty(s, err)
    ensures ParseRest(s) == Err(err)
    decreases |s|
  {
    hide ParseOne, StepSpells, StepFault;
    if StepFault(s, err) {
      FaultFails(s, err);
    } else {
      var u, x, r :| StepThen(s, u, x, r) && |r| < |s| && Faulty(r, err);
      FaultyFails(r, err);
      StepReads(u, x, "." + r);
      assert ("." + r)[1..] == r;
    }
  }

  lemma FailedStep(s: string, err: AddressError)
    requires ParseOne(s) == Err(err)
    ensures StepFault(s, err)
  {
    hide Upto, ParseIndex;
    var n := Upto(s, EndsName);
    if n > 0 {
      assert NameOk(s[..n]) by { NoEnds(s, n); }
      assert s == s[..n] + s[n..];
      FailedIndex(s, s[..n], s[n..], err);
    }
  }

  lemma FailedIndex(s: string, name: string, t: string, err: AddressError)
    requires NameOk(name) && s == name + t && ParseIndex(t) == Err(err)
    ensures StepFault(s, err)
  {
    hide Upto, Unquote, Quotes, NameOk;
    if |t| > 1 && t[1] == '"' {
      var q := t[2..];
      assert t == "[\"" + q;
      UnquoteFails(q);
      if Unquote(q).Err? {
        assert OpenString(s, name, q);
      } else {
        var e := UnquoteSpells(q);
        assert OpenQuoted(s, name, q, e, Unquote(q).value.0, Unquote(q).value.1);
      }
    } else {
      var k := t[1..];
      assert t == "[" + k;
      UptoEnd(k);
      assert OpenBare(s, name, k);
    }
  }

  lemma OnlyIndexedTrail(s: string)
    requires ParseOne(s).Ok? && ParseOne(s).value.1 != "" && ParseOne(s).value.1[0] != '.'
    ensures ParseOne(s).value.0.key.Some?
  {
    hide Upto, Unquote;
    var n := Upto(s, EndsName);
    assert n < |s| ==> EndsName(s[n]);
  }

  lemma {:induction false} FailedWasFaulty(s: string, err: AddressError)
    requires ParseRest(s) == Err(err)
    ensures Faulty(s, err)
    decreases |s|
  {
    hide ParseOne, StepSpells;
    if ParseOne(s).Err? {
      FailedStep(s, err);
    } else {
      var (x, rest) := ParseOne(s).value;
      ParsedStepSpells(s);
      var u := s[..|s| - |rest|];
      assert rest == [rest[0]] + rest[1..];
      if rest[0] == '.' {
        FailedWasFaulty(rest[1..], err);
        assert StepThen(s, u, x, rest[1..]);
      } else {
        OnlyIndexedTrail(s);
        assert Trails(s, u, x, rest[0], rest[1..]);
      }
    }
  }

  /** What is no address fails for the first fault in it, and for nothing else. */
  lemma ParseFailsExactly(s: string, err: AddressError)
    ensures Parse(s) == Err(err) <==> if s == "" then err == Empty else Faulty(s, err)
  {
    hide ParseRest, Faulty;
    if s != "" {
      if Faulty(s, err) { FaultyFails(s, err); }
      if ParseRest(s) == Err(err) { FailedWasFaulty(s, err); }
    }
  }

  // ----- leaf keys -------------------------------------------------------------------------------------

  lemma {:induction false} FirstKeyIs(xs: seq<Step>, i: nat)
    requires i < |xs| && xs[i].key.Some? && forall j :: 0 <= j < i ==> xs[j].key.None?
    ensures FirstKey(xs) == xs[i].key
  {
    if i > 0 { FirstKeyIs(xs[1..], i - 1); }
  }

  lemma {:induction false} NoKey(xs: seq<Step>)
    requires forall j :: 0 <= j < |xs| ==> xs[j].key.None?
    ensures FirstKey(xs) == None
  {
    if xs != [] { NoKey(xs[1..]); }
  }

  /** The leaf key of an address is its first index; without an index, the first module's name; else the address. */
  lemma LeafKeyExactly(s: string, xs: seq<Step>)
    requires Spells(s, xs)
    ensures forall i :: 0 <= i < |xs| && xs[i].key.Some? && (forall j :: 0 <= j < i ==> xs[j].key.None?) ==>
              LeafKeyOf(s) == Ok(Keyed(xs[i].key.value))
    ensures (forall j :: 0 <= j < |xs| ==> xs[j].key.None?) ==>
              LeafKeyOf(s) ==
              Ok(if |xs| > 1 && xs[0].name == "module" then ModuleKey("module." + xs[1].name) else AddressKey(s))
  {
    hide Spells, Parse, FirstKey;
    ParseExactly(s, xs);
    forall i | 0 <= i < |xs| && xs[i].key.Some? && (forall j :: 0 <= j < i ==> xs[j].key.None?)
      ensures LeafKeyOf(s) == Ok(Keyed(xs[i].key.value))
    {
      FirstKeyIs(xs, i);
    }
    if forall j :: 0 <= j < |xs| ==> xs[j].key.None? { NoKey(xs); }
  }

  /** What is no address has no leaf key. */
  lemma NoLeafKey(s: string)
    requires forall xs :: !Spells(s, xs)
    ensures LeafKeyOf(s).Err?
  {
    hide Spells, Parse;
    if LeafKeyOf(s).Ok? { ParseExactly(s, Parse(s).value); }
  }

  ghost predicate Unindexed(xs: seq<Step>, ys: seq<Step>) {
    |ys| == |xs| && forall i :: 0 <= i < |xs| ==> ys[i] == Step(xs[i].name, None)
  }

  /** Stripping an address gives the address with the same names and no index, and fails on nothing else. */
  lemma StripExactly(s: string, xs: seq<Step>)
    requires Spells(s, xs)
    ensures StripIndex(s).Ok?
    ensures exists ys :: Spells(StripIndex(s).value, ys) && Unindexed(xs, ys)
  {
    ParseExactly(s, xs);
    hide Spells, Parse;
    StripIndexIdempotent(s);
    var ys := Names(xs);
    ParseExactly(StripIndex(s).value, ys);
    assert Unindexed(xs, ys);
  }

  // ----- data sources ----------------------------------------------------------------------------------

  ghost predicate InModule(s: string, m: string, t: string) { '.' !in m && s == "module." + m + ".data." + t }

  ghost predicate AtRoot(s: string, t: string) { s == "data." + t }

  lemma {:induction false} UptoDot(m: string, rest: string)
    requires '.' !in m && rest != "" && rest[0] == '.'
    ensures Upto(m + rest, IsDot) == |m|
  {
    if m == "" {
      assert m + rest == rest;
    } else {
      assert (m + rest)[1..] == m[1..] + rest;
      assert m[0] in m && forall c :: c in m[1..] ==> c in m;
      UptoDot(m[1..], rest);
    }
  }

  lemma DataInModule(s: string, m: string, t: string)
    requires InModule(s, m, t)
    ensures IsData(s)
  {
    hide Upto;
    var r := s[7..];
    assert "module." <= s && r == m + (".data." + t);
    UptoDot(m, ".data." + t);
    assert r[|m| + 1..] == "data." + t;
  }

  lemma Assemble(s: string, pre: string, d: string, n: nat)
    requires pre <= s && n < |s| - |pre| && s[|pre| + n] == '.' && d <= s[|pre| + n + 1..]
    ensures var r := s[|pre|..]; s == pre + r[..n] + ("." + d) + r[n + 1..][|d|..]
  {
    var r := s[|pre|..];
    assert s == pre + r && r == r[..n] + [r[n]] + r[n + 1..] && r[n + 1..] == s[|pre| + n + 1..];
    assert r[n + 1..] == d + r[n + 1..][|d|..];
  }

  lemma Dotted()
    ensures "." + "data." == ".data." && |"module."| == 7 && |"data."| == 5
  {
  }

  lemma BehindModule(s: string)
    requires IsData(s) && !("data." <= s)
    ensures "module." <= s
    ensures var r := s[7..]; var n := Upto(r, IsDot); n < |r| && "data." <= r[n + 1..]
  {
    hide Upto;
  }

  lemma DataIsInModule(s: string)
    requires IsData(s) && !("data." <= s)
    ensures exists m, t :: InModule(s, m, t)
  {
    BehindModule(s);
    Dotted();
    hide Upto, IsData, IsDot;
    var r := s[7..];
    var n := Upto(r, IsDot);
    AroundDot(r, n);
    InModuleIs(s, "module.", "data.", n);
  }

  lemma InModuleIs(s: string, pre: string, d: string, n: nat)
    requires pre == "module." && d == "data." && |pre| == 7 && |d| == 5 && "." + d == ".data."
    requires pre <= s && n < |s| - 7 && s[7..][n] == '.' && d <= s[7..][n + 1..] && '.' !in s[7..][..n]
    ensures exists m, t :: InModule(s, m, t)
  {
    var r := s[7..];
    assert s[|pre| + n] == r[n] && s[|pre| + n + 1..] == r[n + 1..];
    Assemble(s, pre, d, n);
    assert InModule(s, r[..n], r[n + 1..][5..]);
  }

  lemma AroundDot(r: string, n: nat)
    requires n == Upto(r, IsDot) && n < |r|
    ensures r[n] == '.' && '.' !in r[..n]
  {
    hide Upto;
    assert forall i :: 0 <= i < n ==> !IsDot(r[i]);
  }

  /** An address counts as a data source exactly when it starts with `data.`, or with `module.`, a text without dots and
      `.data.`: a data source of a nested module, or behind a key with a dot, is not seen as one. */
  lemma IsDataExactly(s: string)
    ensures IsData(s) <==> (exists t :: AtRoot(s, t)) || (exists m, t :: InModule(s, m, t))
  {
    if "data." <= s { assert AtRoot(s, s[5..]); }
    if t :| AtRoot(s, t) { assert "data." <= s; }
    if IsData(s) && !("data." <= s) { DataIsInModule(s); }
    if m, t :| InModule(s, m, t) { DataInModule(s, m, t); }
  }
}
