/**
  Resource addresses: steps separated by dots, each with an optional index in brackets.
  `ParseSteps` is the index-driven scanner; `Parse` says what it computes; `Print` is the
  text the state reader produces.
*/
module Address {
  import opened Prelude
  import opened Ordering

  datatype AddressError =
    | Empty
    | UnterminatedIndex
    | UnterminatedString
    | EmptySegment
    | TrailingAfterIndex(found: char)

  datatype Step = Step(name: string, key: Option<string>)

  // ----- the grammar, read from the left ------------------------------------------------

  predicate EndsName(c: char) { c == '.' || c == '[' }

  /** Where the first character satisfying `stop` is, or the end. */
  function Upto(s: string, stop: char -> bool): (n: nat)
    ensures n <= |s| && (n < |s| ==> stop(s[n]))
    ensures forall i :: 0 <= i < n ==> !stop(s[i])
  {
    if s == "" || stop(s[0]) then 0 else 1 + Upto(s[1..], stop)
  }

  /** The text of a quoted key, after its opening quote; a backslash takes the next character as it is. */
  function Unquote(s: string): (r: Result<(string, string), AddressError>)
    ensures r.Ok? ==> |r.value.1| < |s|
  {
    if s == "" then Err(UnterminatedString)
    else if s[0] == '"' then Ok(("", s[1..]))
    else if s[0] == '\\' then
      if |s| == 1 then Err(UnterminatedString)
      else Push(s[1], Unquote(s[2..]))
    else Push(s[0], Unquote(s[1..]))
  }

  function Push(c: char, r: Result<(string, string), AddressError>): Result<(string, string), AddressError> {
    match r
    case Err(e) => Err(e)
    case Ok((key, rest)) => Ok(([c] + key, rest))
  }

  predicate Closes(c: char) { c == ']' }

  function ParseIndex(s: string): (r: Result<(Option<string>, string), AddressError>)
    ensures r.Ok? ==> |r.value.1| <= |s|
  {
    if s == "" || s[0] != '[' then Ok((None, s))
    else if |s| > 1 && s[1] == '"' then
      match Unquote(s[2..])
      case Err(e) => Err(e)
      case Ok((key, rest)) =>
        if rest != "" && rest[0] == ']' then Ok((Some(key), rest[1..])) else Err(UnterminatedIndex)
    else
      var n := Upto(s[1..], Closes);
      if n == |s| - 1 then Err(UnterminatedIndex) else Ok((Some(s[1..1 + n]), s[n + 2..]))
  }

  function ParseOne(s: string): (r: Result<(Step, string), AddressError>)
    ensures r.Ok? ==> |r.value.1| < |s|
  {
    var n := Upto(s, EndsName);
    if n == 0 then Err(EmptySegment)
    else match ParseIndex(s[n..])
      case Err(e) => Err(e)
      case Ok((key, rest)) => Ok((Step(s[..n], key), rest))
  }

  function ParseRest(s: string): Result<seq<Step>, AddressError>
    decreases |s|
  {
    match ParseOne(s)
    case Err(e) => Err(e)
    case Ok((x, rest)) =>
      if rest == "" then Ok([x])
      else if rest[0] == '.' then Cons(x, ParseRest(rest[1..]))
      else Err(TrailingAfterIndex(rest[0]))
  }

  function Cons(x: Step, r: Result<seq<Step>, AddressError>): Result<seq<Step>, AddressError> {
    match r
    case Err(e) => Err(e)
    case Ok(xs) => Ok([x] + xs)
  }

  function Parse(s: string): Result<seq<Step>, AddressError> {
    if s == "" then Err(Empty) else ParseRest(s)
  }

  // ----- the scanner ---------------------------------------------------------------------

  method ScanUntil(s: string, start: nat, stop: char -> bool) returns (i: nat)
    requires start <= |s|
    ensures i == start + Upto(s[start..], stop)
  {
    i := start;
    while i < |s| && !stop(s[i])
      invariant start <= i <= |s|
      invariant i + Upto(s[i..], stop) == start + Upto(s[start..], stop)
    {
      assert s[i..][1..] == s[i + 1..];
      i := i + 1;
    }
  }

  /** Put characters in front of an already scanned key. */
  ghost function Glue(buf: string, r: Result<(string, string), AddressError>): Result<(string, string), AddressError> {
    match r
    case Err(e) => Err(e)
    case Ok((key, rest)) => Ok((buf + key, rest))
  }

  lemma GluePush(buf: string, c: char, r: Result<(string, string), AddressError>)
    ensures Glue(buf, Push(c, r)) == Glue(buf + [c], r)
  {
    if r.Ok? { assert buf + ([c] + r.value.0) == buf + [c] + r.value.0; }
  }

  lemma GlueNothing(r: Result<(string, string), AddressError>)
    ensures Glue("", r) == r
  {
    if r.Ok? { assert "" + r.value.0 == r.value.0; }
  }

  method ScanQuoted(s: string, start: nat) returns (r: Result<(string, nat), AddressError>)
    requires start <= |s|
    ensures match Unquote(s[start..])
            case Err(e) => r == Err(e)
            case Ok((key, rest)) => r.Ok? && r.value.0 == key && r.value.1 <= |s| && s[r.value.1..] == rest
  {
    var i, buf := start, "";
    GlueNothing(Unquote(s[start..]));
    while i < |s| && s[i] != '"'
      invariant start <= i <= |s|
      invariant Unquote(s[start..]) == Glue(buf, Unquote(s[i..]))
    {
      if s[i] == '\\' {
        if i + 1 == |s| { return Err(UnterminatedString); }
        assert s[i..][1] == s[i + 1] && s[i..][2..] == s[i + 2..];
        GluePush(buf, s[i + 1], Unquote(s[i + 2..]));
        buf, i := buf + [s[i + 1]], i + 2;
      } else {
        assert s[i..][1..] == s[i + 1..];
        GluePush(buf, s[i], Unquote(s[i + 1..]));
        buf, i := buf + [s[i]], i + 1;
      }
    }
    if i == |s| { return Err(UnterminatedString); }
    assert s[i..][1..] == s[i + 1..] && buf + "" == buf;
    return Ok((buf, i + 1));
  }

  method ScanIndex(s: string, start: nat) returns (r: Result<(Option<string>, nat), AddressError>)
    requires start <= |s|
    ensures match ParseIndex(s[start..])
            case Err(e) => r == Err(e)
            case Ok((key, rest)) => r.Ok? && r.value.0 == key && start <= r.value.1 <= |s| && s[r.value.1..] == rest
  {
    if start == |s| || s[start] != '[' { return Ok((None, start)); }
    if start + 1 < |s| && s[start + 1] == '"' {
      r := ScanQuotedIndex(s, start);
    } else {
      r := ScanBareIndex(s, start);
    }
  }

  method ScanQuotedIndex(s: string, start: nat) returns (r: Result<(Option<string>, nat), AddressError>)
    requires start + 1 < |s| && s[start] == '[' && s[start + 1] == '"'
    ensures match ParseIndex(s[start..])
            case Err(e) => r == Err(e)
            case Ok((key, rest)) => r.Ok? && r.value.0 == key && start <= r.value.1 <= |s| && s[r.value.1..] == rest
  {
    assert s[start..][2..] == s[start + 2..];
    var q := ScanQuoted(s, start + 2);
    if q.Err? { return Err(q.error); }
    var (key, j) := q.value;
    if j == |s| || s[j] != ']' { return Err(UnterminatedIndex); }
    assert s[j..][1..] == s[j + 1..];
    return Ok((Some(key), j + 1));
  }

  method ScanBareIndex(s: string, start: nat) returns (r: Result<(Option<string>, nat), AddressError>)
    requires start < |s| && s[start] == '[' && (start + 1 == |s| || s[start + 1] != '"')
    ensures match ParseIndex(s[start..])
            case Err(e) => r == Err(e)
            case Ok((key, rest)) => r.Ok? && r.value.0 == key && start <= r.value.1 <= |s| && s[r.value.1..] == rest
  {
    var i := start + 1;
    assert s[start..][1..] == s[i..];
    var j := ScanUntil(s, i, Closes);
    if j == |s| { return Err(UnterminatedIndex); }
    assert s[start..][1..1 + (j - i)] == s[i..j] && s[start..][j - i + 2..] == s[j + 1..];
    return Ok((Some(s[i..j]), j + 1));
  }

  ghost function Append(steps: seq<Step>, r: Result<seq<Step>, AddressError>): Result<seq<Step>, AddressError> {
    match r
    case Err(e) => Err(e)
    case Ok(xs) => Ok(steps + xs)
  }

  lemma AppendCons(steps: seq<Step>, x: Step, r: Result<seq<Step>, AddressError>)
    ensures Append(steps, Cons(x, r)) == Append(steps + [x], r)
  {
    if r.Ok? { assert steps + ([x] + r.value) == steps + [x] + r.value; }
  }

  method ScanStep(s: string, start: nat) returns (r: Result<(Step, nat), AddressError>)
    requires start <= |s|
    ensures match ParseOne(s[start..])
            case Err(e) => r == Err(e)
            case Ok((x, rest)) => r.Ok? && r.value.0 == x && start < r.value.1 <= |s| && s[r.value.1..] == rest
  {
    var i := ScanUntil(s, start, EndsName);
    if i == start { return Err(EmptySegment); }
    var name := s[start..i];
    assert s[start..][i - start..] == s[i..] && s[start..][..i - start] == name;
    var index := ScanIndex(s, i);
    if index.Err? { return Err(index.error); }
    var (key, j) := index.value;
    return Ok((Step(name, key), j));
  }

  /** What one scanned step says about the rest of the address. */
  lemma RestAfterStep(s: string, i: nat, x: Step, j: nat)
    requires i < j <= |s| && ParseOne(s[i..]) == Ok((x, s[j..]))
    ensures j == |s| ==> ParseRest(s[i..]) == Ok([x])
    ensures j < |s| && s[j] == '.' ==> ParseRest(s[i..]) == Cons(x, ParseRest(s[j + 1..]))
    ensures j < |s| && s[j] != '.' ==> ParseRest(s[i..]) == Err(TrailingAfterIndex(s[j]))
  {
    if j < |s| { assert s[j..][1..] == s[j + 1..]; }
  }

  lemma RestError(s: string, e: AddressError)
    requires ParseOne(s) == Err(e)
    ensures ParseRest(s) == Err(e)
  {
  }

  lemma AppendToNothing(r: Result<seq<Step>, AddressError>)
    ensures Append([], r) == r
  {
    if r.Ok? { assert [] + r.value == r.value; }
  }

  lemma ParseStarts(s: string)
    ensures s == "" ==> Parse(s) == Err(Empty)
    ensures s != "" ==> Parse(s) == Append([], ParseRest(s[0..]))
  {
    assert s[0..] == s;
    AppendToNothing(ParseRest(s));
  }

  method ParseSteps(address: string) returns (r: Result<seq<Step>, AddressError>)
    ensures r == Parse(address)
  {
    hide Parse, ParseRest, ParseOne;
    ParseStarts(address);
    if address == "" { return Err(Empty); }
    var steps: seq<Step>, i := [], 0;
    while true
      invariant 0 <= i <= |address|
      invariant Parse(address) == Append(steps, ParseRest(address[i..]))
      decreases |address| - i
    {
      var one := ScanStep(address, i);
      if one.Err? {
        RestError(address[i..], one.error);
        return Err(one.error);
      }
      var (x, j) := one.value;
      RestAfterStep(address, i, x, j);
      if j == |address| { return Ok(steps + [x]); }
      if address[j] != '.' { return Err(TrailingAfterIndex(address[j])); }
      AppendCons(steps, x, ParseRest(address[j + 1..]));
      steps, i := steps + [x], j + 1;
    }
  }

  // ----- the printer -----------------------------------------------------------------------

  function Replace(s: string, c: char, by_: string): string {
    if s == "" then "" else (if s[0] == c then by_ else [s[0]]) + Replace(s[1..], c, by_)
  }

  function Escape(s: string): string { Replace(Replace(s, '\\', "\\\\"), '"', "\\\"") }

  /** The index of a string key, as the state reader prints it. */
  function IndexText(key: string): string { "[\"" + Escape(key) + "\"]" }

  function PrintStep(x: Step): string { x.name + if x.key.Some? then IndexText(x.key.value) else "" }

  function Print(xs: seq<Step>): string
    requires xs != []
  {
    if |xs| == 1 then PrintStep(xs[0]) else PrintStep(xs[0]) + "." + Print(xs[1..])
  }

  ghost predicate NameOk(name: string) { name != "" && forall c :: c in name ==> !EndsName(c) }

  ghost predicate StepsOk(xs: seq<Step>) { xs != [] && forall x :: x in xs ==> NameOk(x.name) }

  // ----- round trips -------------------------------------------------------------------------

  function EscapeChar(c: char): string { if c == '\\' then "\\\\" else if c == '"' then "\\\"" else [c] }

  lemma {:induction false} ReplaceConcat(a: string, b: string, c: char, by_: string)
    ensures Replace(a + b, c, by_) == Replace(a, c, by_) + Replace(b, c, by_)
  {
    if a == "" {
      assert a + b == b;
    } else {
      assert (a + b)[1..] == a[1..] + b;
      ReplaceConcat(a[1..], b, c, by_);
    }
  }

  /** The two replacements escape one character at a time. */
  lemma EscapeStep(s: string)
    requires s != ""
    ensures Escape(s) == EscapeChar(s[0]) + Escape(s[1..])
  {
    var first := if s[0] == '\\' then "\\\\" else [s[0]];
    ReplaceConcat(first, Replace(s[1..], '\\', "\\\\"), '"', "\\\"");
    if s[0] == '\\' {
      assert "\\\\"[1..] == "\\";
      assert Replace("\\", '"', "\\\"") == "\\" + Replace("\\"[1..], '"', "\\\"");
      assert Replace("\\\\", '"', "\\\"") == "\\" + Replace("\\", '"', "\\\"");
    } else {
      assert [s[0]][1..] == "";
    }
  }

  lemma {:induction false} UnquoteEscape(key: string, rest: string)
    ensures Unquote(Escape(key) + "\"" + rest) == Ok((key, rest))
  {
    var t := Escape(key) + "\"" + rest;
    if key == "" {
      assert t == "\"" + rest;
    } else {
      EscapeStep(key);
      var tail := Escape(key[1..]) + "\"" + rest;
      assert t == EscapeChar(key[0]) + tail;
      UnquoteEscape(key[1..], rest);
      assert key == [key[0]] + key[1..];
      if key[0] == '\\' || key[0] == '"' {
        assert t[0] == '\\' && t[1] == key[0] && t[2..] == tail;
      } else {
        assert t[0] == key[0] && t[1..] == tail;
      }
    }
  }

  lemma ParseIndexText(key: string, rest: string)
    ensures ParseIndex(IndexText(key) + rest) == Ok((Some(key), rest))
  {
    var t := IndexText(key) + rest;
    assert t[0] == '[' && t[1] == '"';
    assert t[2..] == Escape(key) + "\"" + ("]" + rest);
    UnquoteEscape(key, "]" + rest);
    assert ("]" + rest)[1..] == rest;
  }

  lemma {:induction false} UptoName(name: string, rest: string)
    requires forall c :: c in name ==> !EndsName(c)
    requires rest == "" || EndsName(rest[0])
    ensures Upto(name + rest, EndsName) == |name|
  {
    if name == "" {
      assert name + rest == rest;
    } else {
      assert name[0] in name;
      assert (name + rest)[1..] == name[1..] + rest;
      UptoName(name[1..], rest);
    }
  }

  /** One printed step in front of more text is read back as that step. */
  lemma ParseStep(x: Step, rest: string)
    requires NameOk(x.name) && (rest == "" || rest[0] == '.')
    ensures ParseOne(PrintStep(x) + rest) == Ok((x, rest))
  {
    var t := PrintStep(x) + rest;
    var index := if x.key.Some? then IndexText(x.key.value) else "";
    assert t == x.name + (index + rest);
    UptoName(x.name, index + rest);
    assert t[|x.name|..] == index + rest;
    if x.key.Some? { ParseIndexText(x.key.value, rest); } else { assert index + rest == rest; }
  }

  /** Any steps with proper names, whatever their keys, are read back from their printed form. */
  lemma {:induction false} PrintParses(xs: seq<Step>)
    requires StepsOk(xs)
    ensures Parse(Print(xs)) == Ok(xs)
  {
    hide ParseOne, PrintStep;
    assert NameOk(xs[0].name);
    if |xs| == 1 {
      ParseStep(xs[0], "");
      assert PrintStep(xs[0]) + "" == PrintStep(xs[0]);
      assert [xs[0]] == xs;
    } else {
      var rest := "." + Print(xs[1..]);
      PrintParses(xs[1..]);
      ParseStep(xs[0], rest);
      assert Print(xs) == PrintStep(xs[0]) + rest;
      assert rest[1..] == Print(xs[1..]);
      assert [xs[0]] + xs[1..] == xs;
    }
  }

  /** Whatever parses has proper names. */
  lemma {:induction false} ParsedNames(s: string)
    ensures ParseRest(s).Ok? ==> StepsOk(ParseRest(s).value)
    decreases |s|
  {
    if ParseOne(s).Ok? {
      var (x, rest) := ParseOne(s).value;
      assert NameOk(x.name);
      if rest != "" && rest[0] == '.' { ParsedNames(rest[1..]); }
    }
  }

  /** Printing the result of any successful parse gives an address with the same steps. */
  lemma ReprintParses(s: string)
    requires Parse(s).Ok?
    ensures Parse(s).value != [] && Parse(Print(Parse(s).value)) == Parse(s)
  {
    ParsedNames(s);
    PrintParses(Parse(s).value);
  }

  // ----- leaf keys ---------------------------------------------------------------------------

  datatype LeafKey = Keyed(raw: string) | ModuleKey(raw: string) | AddressKey(raw: string)

  function Tag(k: LeafKey): nat {
    match k
    case Keyed(_) => 0
    case ModuleKey(_) => 1
    case AddressKey(_) => 2
  }

  /** The derived order: by variant, then by text. */
  predicate KeyLe(a: LeafKey, b: LeafKey) { Tag(a) < Tag(b) || (Tag(a) == Tag(b) && StrLe(a.raw, b.raw)) }

  lemma KeyLeIsTotalOrder()
    ensures TotalOrder(KeyLe)
  {
    StrLeIsTotalOrder();
    forall x: LeafKey, y: LeafKey ensures KeyLe(x, y) || KeyLe(y, x) { Total(StrLe, x.raw, y.raw); }
    forall x: LeafKey, y: LeafKey, z: LeafKey | KeyLe(x, y) && KeyLe(y, z) ensures KeyLe(x, z) {
      if Tag(x) == Tag(y) == Tag(z) { Transitive(StrLe, x.raw, y.raw, z.raw); }
    }
    forall x: LeafKey, y: LeafKey | KeyLe(x, y) && KeyLe(y, x) ensures x == y { Antisymmetric(StrLe, x.raw, y.raw); }
  }

  function FirstKey(xs: seq<Step>): Option<string> {
    if xs == [] then None else if xs[0].key.Some? then xs[0].key else FirstKey(xs[1..])
  }

  function LeafKeyOf(address: string): Result<LeafKey, AddressError> {
    match Parse(address)
    case Err(e) => Err(e)
    case Ok(steps) =>
      match FirstKey(steps)
      case Some(key) => Ok(Keyed(key))
      case None =>
        if |steps| >= 2 && steps[0].name == "module" then Ok(ModuleKey("module." + steps[1].name))
        else Ok(AddressKey(address))
  }

  function Names(xs: seq<Step>): seq<Step> {
    seq(|xs|, i requires 0 <= i < |xs| => Step(xs[i].name, None))
  }

  /** `strip_index`: the names joined by dots, which is how steps without keys print. */
  function StripIndex(address: string): Result<string, AddressError> {
    match Parse(address)
    case Err(e) => Err(e)
    case Ok(steps) => if steps == [] then Ok("") else Ok(Print(Names(steps)))
  }

  predicate StartsWith(s: string, prefix: string) { prefix <= s }

  predicate IsDot(c: char) { c == '.' }

  function IsData(address: string): bool {
    var rest :=
      if StartsWith(address, "module.") then
        var r := address[7..];
        var n := Upto(r, IsDot);
        if n < |r| then r[n + 1..] else address
      else address;
    StartsWith(address, "data.") || StartsWith(rest, "data.")
  }

  lemma {:induction false} FirstKeyLast(xs: seq<Step>, x: Step)
    requires (forall y :: y in xs ==> y.key.None?) && x.key.Some?
    ensures FirstKey(xs + [x]) == x.key
  {
    if xs == [] {
      assert xs + [x] == [x];
    } else {
      assert xs[0] in xs;
      assert (xs + [x])[1..] == xs[1..] + [x];
      FirstKeyLast(xs[1..], x);
    }
  }

  lemma {:induction false} PrintIndexed(xs: seq<Step>, name: string, key: string)
    ensures Print(xs + [Step(name, Some(key))]) == Print(xs + [Step(name, None)]) + IndexText(key)
  {
    if xs == [] {
      assert xs + [Step(name, Some(key))] == [Step(name, Some(key))];
      assert xs + [Step(name, None)] == [Step(name, None)];
      assert name + "" + IndexText(key) == name + IndexText(key);
    } else {
      assert (xs + [Step(name, Some(key))])[1..] == xs[1..] + [Step(name, Some(key))];
      assert (xs + [Step(name, None)])[1..] == xs[1..] + [Step(name, None)];
      PrintIndexed(xs[1..], name, key);
    }
  }

  /** An unindexed base with a string index appended has exactly that string as its leaf key. */
  lemma IndexIsLeafKey(base: seq<Step>, key: string)
    requires StepsOk(base) && forall x :: x in base ==> x.key.None?
    ensures LeafKeyOf(Print(base) + IndexText(key)) == Ok(Keyed(key))
  {
    var front, last := base[..|base| - 1], base[|base| - 1];
    assert base == front + [last] && last in base;
    var indexed := front + [Step(last.name, Some(key))];
    PrintIndexed(front, last.name, key);
    assert last == Step(last.name, None);
    forall x | x in indexed ensures NameOk(x.name) {
      if x in front { assert x in base; }
    }
    PrintParses(indexed);
    FirstKeyLast(front, Step(last.name, Some(key)));
  }

  lemma RestParts(s: string)
    requires ParseRest(s).Ok?
    ensures ParseOne(s).Ok?
    ensures var (x, rest) := ParseOne(s).value;
            && |rest| < |s|
            && (rest == "" ==> ParseRest(s).value == [x])
            && (rest != "" ==>
                  && rest[0] == '.' && ParseRest(rest[1..]).Ok?
                  && ParseRest(s).value == [x] + ParseRest(rest[1..]).value)
  {
    hide ParseOne;
  }

  lemma PrintMore(x: Step, xs: seq<Step>)
    requires xs != []
    ensures Print([x] + xs) == PrintStep(x) + "." + Print(xs)
  {
    hide PrintStep;
    assert ([x] + xs)[1..] == xs;
  }

  /** An address without an index prints back as it was. */
  lemma {:induction false} UnindexedPrints(s: string)
    requires ParseRest(s).Ok? && forall x :: x in ParseRest(s).value ==> x.key.None?
    ensures ParseRest(s).value != [] && Print(ParseRest(s).value) == s
    decreases |s|
  {
    hide ParseOne, ParseRest, PrintStep, Print;
    RestParts(s);
    var (x, rest) := ParseOne(s).value;
    assert x in ParseRest(s).value;
    UnindexedStep(s);
    if rest == "" {
      PrintOne(x);
      assert PrintStep(x) + "" == PrintStep(x);
    } else {
      var xs := ParseRest(rest[1..]).value;
      forall y | y in xs ensures y.key.None? { assert y in [x] + xs; }
      UnindexedPrints(rest[1..]);
      PrintMore(x, xs);
      assert rest == "." + rest[1..];
    }
  }

  lemma PrintOne(x: Step)
    ensures Print([x]) == PrintStep(x)
  {
  }

  lemma UnindexedStep(s: string)
    requires ParseOne(s).Ok? && ParseOne(s).value.0.key.None?
    ensures var (x, rest) := ParseOne(s).value; s == PrintStep(x) + rest
  {
    var n := Upto(s, EndsName);
    assert s == s[..n] + s[n..];
  }

  /** Stripping the indices twice is stripping them once, and keeps the names. */
  lemma StripIndexIdempotent(address: string)
    requires StripIndex(address).Ok?
    ensures Parse(StripIndex(address).value) == Ok(Names(Parse(address).value))
    ensures StripIndex(StripIndex(address).value) == StripIndex(address)
  {
    ParsedNames(address);
    var xs := Parse(address).value;
    forall x | x in Names(xs) ensures NameOk(x.name) {
      var i :| 0 <= i < |xs| && Names(xs)[i] == x;
      assert xs[i] in xs;
    }
    PrintParses(Names(xs));
    assert Names(Names(xs)) == Names(xs);
  }
}
