/**
  The pre-image of the inputs digest: three optional JSON values in canonical form, each
  followed by a bar, an absent one as a tilde.  Strings are escaped as section 7 of RFC 8259
  requires; a number is the text it prints as; an object is a map, so its key order is
  forgotten from the start and restored by sorting.
*/
module InputsDigest {
  import opened Prelude
  import opened Ordering

  datatype Json =
    | Null
    | Bool(b: bool)
    | Number(text: string)
    | Str(s: string)
    | Array(items: seq<Json>)
    | Object(members: map<string, Json>)

  predicate NumberChar(c: char) { '0' <= c <= '9' || c == '-' || c == '+' || c == '.' || c == 'e' || c == 'E' }

  /** Numbers print as JSON numbers do. */
  predicate NumberOk(t: string) {
    t != "" && (t[0] == '-' || '0' <= t[0] <= '9') && forall i :: 0 <= i < |t| ==> NumberChar(t[i])
  }

  ghost predicate Printable(v: Json) {
    match v
    case Number(t) => NumberOk(t)
    case Array(items) => forall i :: 0 <= i < |items| ==> Printable(items[i])
    case Object(m) => forall k :: k in m ==> Printable(m[k])
    case _ => true
  }

  // ----- printing --------------------------------------------------------------------

  function HexDigit(n: int): char
    requires 0 <= n < 16
  {
    if n < 10 then '0' + n as char else 'a' + (n - 10) as char
  }

  /** The letter of a two-character escape. */
  function ShortEscape(c: char): Option<char> {
    if c == '"' then Some('"')
    else if c == '\\' then Some('\\')
    else if c as int == 8 then Some('b')
    else if c as int == 9 then Some('t')
    else if c as int == 10 then Some('n')
    else if c as int == 12 then Some('f')
    else if c as int == 13 then Some('r')
    else None
  }

  function EscapeChar(c: char): string {
    if ShortEscape(c).Some? then ['\\', ShortEscape(c).value]
    else if (c as int) < 32 then ['\\', 'u', '0', '0', HexDigit(c as int / 16), HexDigit(c as int % 16)]
    else [c]
  }

  function EscapeText(s: string): string {
    if s == "" then "" else EscapeChar(s[0]) + EscapeText(s[1..])
  }

  function Quote(s: string): string { ['"'] + EscapeText(s) + ['"'] }

  function Keys(m: map<string, Json>): (r: seq<string>)
    ensures forall k :: k in r <==> k in m.Keys
    ensures NoRepeats(r)
  {
    StrLeIsTotalOrder();
    InOrder(m.Keys, StrLe)
  }

  function Canon(v: Json): string
    decreases v, 0
  {
    match v
    case Null => "null"
    case Bool(b) => if b then "true" else "false"
    case Number(t) => t
    case Str(s) => Quote(s)
    case Array(items) => ['['] + CanonItems(items) + [']']
    case Object(m) => ['{'] + CanonMembers(v, m, Keys(m)) + ['}']
  }

  function CanonItems(items: seq<Json>): string
    decreases items, 1
  {
    if items == [] then "" else Canon(items[0]) + [','] + CanonItems(items[1..])
  }

  function CanonMembers(ghost v: Json, m: map<string, Json>, keys: seq<string>): string
    requires v == Object(m) && forall k :: k in keys ==> k in m
    decreases v, 0, |keys|
  {
    if keys == [] then ""
    else Quote(keys[0]) + [':'] + Canon(m[keys[0]]) + [','] + CanonMembers(v, m, keys[1..])
  }

  /** `canonical`: append the canonical form of `v` to a buffer. */
  method Canonical(v: Json, out: string) returns (r: string)
    ensures r == out + Canon(v)
    decreases v, 1
  {
    hide CanonItems, CanonMembers, Keys, Quote;
    match v {
      case Object(m) =>
        r := CanonicalMembers(v, m, out + ['{']);
        r := r + ['}'];
        assert r == out + (['{'] + CanonMembers(v, m, Keys(m)) + ['}']);
      case Array(items) =>
        r := CanonicalItems(items, out + ['[']);
        r := r + [']'];
        assert r == out + (['['] + CanonItems(items) + [']']);
      case Null => r := out + "null";
      case Bool(b) => r := out + if b then "true" else "false";
      case Number(t) => r := out + t;
      case Str(t) => r := out + Quote(t);
    }
  }

  lemma MembersStep(r: string, v: Json, m: map<string, Json>, keys: seq<string>, i: nat)
    requires v == Object(m) && (forall k :: k in keys ==> k in m) && i < |keys|
    ensures r + CanonMembers(v, m, keys[i..]) ==
            r + Quote(keys[i]) + [':'] + Canon(m[keys[i]]) + [','] + CanonMembers(v, m, keys[i + 1..])
  {
    hide Canon, Quote;
    assert keys[i..][0] == keys[i] && keys[i..][1..] == keys[i + 1..];
  }

  method CanonicalMembers(v: Json, m: map<string, Json>, out: string) returns (r: string)
    requires v == Object(m)
    ensures r == out + CanonMembers(v, m, Keys(m))
    decreases v, 0
  {
    hide Canon, Quote, CanonMembers;
    var keys := Keys(m);
    r := out;
    var i := 0;
    assert keys[0..] == keys;
    while i < |keys|
      invariant 0 <= i <= |keys|
      invariant r + CanonMembers(v, m, keys[i..]) == out + CanonMembers(v, m, keys)
    {
      var k := keys[i];
      MembersStep(r, v, m, keys, i);
      r := r + Quote(k) + [':'];
      r := Canonical(m[k], r);
      r := r + [','];
      i := i + 1;
    }
    NoMembers(r, v, m, keys[i..]);
  }

  lemma NoMembers(r: string, v: Json, m: map<string, Json>, keys: seq<string>)
    requires v == Object(m) && keys == []
    ensures r + CanonMembers(v, m, keys) == r
  {
  }

  lemma ItemsStep(r: string, items: seq<Json>, i: nat)
    requires i < |items|
    ensures r + CanonItems(items[i..]) == r + Canon(items[i]) + [','] + CanonItems(items[i + 1..])
  {
    hide Canon;
    assert items[i..][0] == items[i] && items[i..][1..] == items[i + 1..];
  }

  method CanonicalItems(items: seq<Json>, out: string) returns (r: string)
    ensures r == out + CanonItems(items)
    decreases items, 0
  {
    hide Canon, CanonItems;
    r := out;
    var i := 0;
    assert items[0..] == items;
    while i < |items|
      invariant 0 <= i <= |items|
      invariant r + CanonItems(items[i..]) == out + CanonItems(items)
    {
      ItemsStep(r, items, i);
      r := Canonical(items[i], r);
      r := r + [','];
      i := i + 1;
    }
    NoItems(r, items[i..]);
  }

  lemma NoItems(r: string, items: seq<Json>)
    requires items == []
    ensures r + CanonItems(items) == r
  {
  }

  function Part(p: Option<Json>): string { if p.Some? then Canon(p.value) else ['~'] }

  /** What `inputs_digest` feeds to the hash. */
  function Preimage(parts: seq<Option<Json>>): string {
    if parts == [] then "" else Part(parts[0]) + ['|'] + Preimage(parts[1..])
  }

  method InputsPreimage(catalog: Option<Json>, template: Option<Json>, refs: Option<Json>) returns (r: string)
    ensures r == Preimage([catalog, template, refs])
  {
    hide Canon, Preimage;
    var parts := [catalog, template, refs];
    r := "";
    var i := 0;
    assert parts[0..] == parts && r + Preimage(parts) == Preimage(parts);
    while i < |parts|
      invariant 0 <= i <= |parts|
      invariant r + Preimage(parts[i..]) == Preimage(parts)
    {
      PartsStep(r, parts, i);
      if parts[i].Some? { r := Canonical(parts[i].value, r); } else { r := r + ['~']; }
      r := r + ['|'];
      i := i + 1;
    }
    NoParts(r, parts[i..]);
  }

  lemma PartsStep(r: string, parts: seq<Option<Json>>, i: nat)
    requires i < |parts|
    ensures r + Preimage(parts[i..]) == r + Part(parts[i]) + ['|'] + Preimage(parts[i + 1..])
  {
    hide Part;
    assert parts[i..][0] == parts[i] && parts[i..][1..] == parts[i + 1..];
  }

  lemma NoParts(r: string, parts: seq<Option<Json>>)
    requires parts == []
    ensures r + Preimage(parts) == r
  {
  }

  // ----- unique reading -------------------------------------------------------------------

  /** Two concatenations that start with the same character agree on the rest. */
  lemma DropHead(c: char, s: string, d: char, t: string)
    requires [c] + s == [d] + t
    ensures c == d && s == t
  {
    assert ([c] + s)[0] == c && ([d] + t)[0] == d;
    assert ([c] + s)[1..] == s && ([d] + t)[1..] == t;
  }

  lemma DropSame(a: string, s: string, t: string)
    requires a + s == a + t
    ensures s == t
  {
    assert (a + s)[|a|..] == s && (a + t)[|a|..] == t;
  }

  lemma Assoc(a: string, b: string, c: string)
    ensures a + b + c == a + (b + c)
  {
  }

  lemma NothingBefore(c: char, s: string)
    ensures "" + [c] + s == [c] + s && ("" + [c] + s)[0] == c
  {
  }

  lemma HexInjective(n: int, m: int)
    requires 0 <= n < 16 && 0 <= m < 16 && HexDigit(n) == HexDigit(m)
    ensures n == m
  {
  }

  lemma EscapeCharUnique(c: char, s: string, d: char, t: string)
    requires EscapeChar(c) + s == EscapeChar(d) + t
    ensures c == d && s == t
  {
    var x, y := EscapeChar(c), EscapeChar(d);
    assert (x + s)[0] == x[0] && (y + t)[0] == y[0];
    if x[0] == '\\' {
      assert (x + s)[1] == x[1] && (y + t)[1] == y[1];
      assert |x| == |y|;
      if |x| == 6 {
        assert (x + s)[4] == x[4] && (y + t)[4] == y[4] && (x + s)[5] == x[5] && (y + t)[5] == y[5];
        HexInjective(c as int / 16, d as int / 16);
        HexInjective(c as int % 16, d as int % 16);
      }
    }
    assert c == d;
    DropSame(x, s, t);
  }

  lemma EscapeNeverQuote(c: char)
    ensures EscapeChar(c) != "" && EscapeChar(c)[0] != '"'
  {
  }

  lemma {:induction false} EscapeTextUnique(a: string, s: string, b: string, t: string)
    requires EscapeText(a) + ['"'] + s == EscapeText(b) + ['"'] + t
    ensures a == b && s == t
    decreases |a|
  {
    hide EscapeChar;
    if a == "" { NothingBefore('"', s); } else { EscapeNeverQuote(a[0]); TextHead(a, s); }
    if b == "" { NothingBefore('"', t); } else { EscapeNeverQuote(b[0]); TextHead(b, t); }
    assert a == "" <==> b == "";
    if a == "" {
      DropHead('"', s, '"', t);
    } else {
      EscapeCharUnique(a[0], EscapeText(a[1..]) + ['"'] + s, b[0], EscapeText(b[1..]) + ['"'] + t);
      EscapeTextUnique(a[1..], s, b[1..], t);
      assert a == [a[0]] + a[1..] && b == [b[0]] + b[1..];
    }
  }

  lemma TextHead(a: string, s: string)
    requires a != ""
    ensures EscapeText(a) + ['"'] + s == EscapeChar(a[0]) + (EscapeText(a[1..]) + ['"'] + s)
    ensures EscapeChar(a[0]) != "" ==> (EscapeText(a) + ['"'] + s)[0] == EscapeChar(a[0])[0]
  {
  }

  lemma QuoteUnique(a: string, s: string, b: string, t: string)
    requires Quote(a) + s == Quote(b) + t
    ensures a == b && s == t
  {
    assert Quote(a) + s == ['"'] + (EscapeText(a) + ['"'] + s);
    assert Quote(b) + t == ['"'] + (EscapeText(b) + ['"'] + t);
    DropHead('"', EscapeText(a) + ['"'] + s, '"', EscapeText(b) + ['"'] + t);
    EscapeTextUnique(a, s, b, t);
  }

  /** What may follow a value: the comma of its container, or the bar. */
  predicate Stops(s: string) { s != "" && (s[0] == ',' || s[0] == '|') }

  lemma {:induction false} NumberUnique(a: string, s: string, b: string, t: string)
    requires (forall i :: 0 <= i < |a| ==> NumberChar(a[i])) && (forall i :: 0 <= i < |b| ==> NumberChar(b[i]))
    requires Stops(s) && Stops(t) && a + s == b + t
    ensures a == b && s == t
  {
    assert (a + s)[|a|] == s[0] && (b + t)[|b|] == t[0];
    assert forall i :: 0 <= i < |a| ==> (a + s)[i] == a[i];
    assert forall i :: 0 <= i < |b| ==> (b + t)[i] == b[i];
    assert |a| == |b|;
    assert (a + s)[..|a|] == a && (b + t)[..|b|] == b && (a + s)[|a|..] == s && (b + t)[|b|..] == t;
  }

  // ----- what the text says ---------------------------------------------------------------

  /** The two-character escapes of section 7 of RFC 8259. */
  function Escaped(c: char): Option<char> {
    match c
    case '"' => Some('"')
    case '\\' => Some('\\')
    case '/' => Some('/')
    case 'b' => Some(8 as char)
    case 'f' => Some(12 as char)
    case 'n' => Some(10 as char)
    case 'r' => Some(13 as char)
    case 't' => Some(9 as char)
    case _ => None
  }

  function HexValue(c: char): Option<int> {
    if '0' <= c <= '9' then Some(c as int - '0' as int)
    else if 'a' <= c <= 'f' then Some(c as int - 'a' as int + 10)
    else if 'A' <= c <= 'F' then Some(c as int - 'A' as int + 10)
    else None
  }

  /** The character that one escape or one plain character at the head of a JSON string stands for, and its length. */
  function ReadChar(s: string): Option<(char, nat)> {
    if s == "" || s[0] == '"' || (s[0] as int) < 32 then None
    else if s[0] != '\\' then Some((s[0], 1))
    else if |s| >= 2 && Escaped(s[1]).Some? then Some((Escaped(s[1]).value, 2))
    else if |s| >= 6 && s[1] == 'u' && s[2] == '0' && s[3] == '0' && HexValue(s[4]).Some? && HexValue(s[5]).Some?
    then Some(((16 * HexValue(s[4]).value + HexValue(s[5]).value) as char, 6))
    else None
  }

  /** What the inside of a JSON string stands for. */
  function Unescape(s: string): Option<string> {
    if s == "" then Some("")
    else match ReadChar(s)
      case None => None
      case Some((c, n)) =>
        if n == 0 || n > |s| then None
        else match Unescape(s[n..])
          case None => None
          case Some(rest) => Some([c] + rest)
  }

  lemma HexReadsBack(n: int)
    requires 0 <= n < 16
    ensures HexValue(HexDigit(n)) == Some(n)
  {
  }

  lemma CharReadsBack(c: char, s: string)
    ensures ReadChar(EscapeChar(c) + s) == Some((c, |EscapeChar(c)|))
  {
    var e := EscapeChar(c);
    assert forall i :: 0 <= i < |e| ==> (e + s)[i] == e[i];
    if |e| == 6 {
      HexReadsBack(c as int / 16);
      HexReadsBack(c as int % 16);
    }
  }

  /** The escaped text reads back as the string: quotes, backslashes and control characters included. */
  lemma {:induction false} EscapeReadsBack(s: string)
    ensures Unescape(EscapeText(s)) == Some(s)
  {
    if s != "" {
      hide EscapeChar, ReadChar;
      EscapeReadsBack(s[1..]);
      EscapeNeverQuote(s[0]);
      var e, rest := EscapeChar(s[0]), EscapeText(s[1..]);
      CharReadsBack(s[0], rest);
      assert (e + rest)[|e|..] == rest;
      assert s == [s[0]] + s[1..];
    }
  }

  /** Every scalar as the text that stands for it. */
  lemma ScalarForms(t: string, s: string)
    ensures Canon(Null) == "null" && Canon(Bool(true)) == "true" && Canon(Bool(false)) == "false"
    ensures Canon(Number(t)) == t
    ensures exists e :: Canon(Str(s)) == ['"'] + e + ['"'] && Unescape(e) == Some(s)
  {
    EscapeReadsBack(s);
    assert Canon(Str(s)) == ['"'] + EscapeText(s) + ['"'];
  }

  lemma {:induction false} ItemsAppend(items: seq<Json>, x: Json)
    ensures CanonItems(items + [x]) == CanonItems(items) + Canon(x) + [',']
  {
    hide Canon;
    if items == [] {
      assert items + [x] == [x] && [x][1..] == [];
    } else {
      ItemsAppend(items[1..], x);
      assert (items + [x])[1..] == items[1..] + [x];
      Regroup(Canon(items[0]), CanonItems(items[1..]), Canon(x));
    }
  }

  lemma Regroup(a: string, b: string, c: string)
    ensures a + [','] + (b + c + [',']) == a + [','] + b + c + [',']
  {
  }

  /** An array is its items in order, each with its comma. */
  lemma ArrayForm(items: seq<Json>, x: Json)
    ensures Canon(Array([])) == "[]"
    ensures exists front :: Canon(Array(items)) == front + [']'] &&
              Canon(Array(items + [x])) == front + Canon(x) + [','] + [']']
  {
    hide *;
    ItemsAppend(items, x);
    ArrayText(items);
    ArrayText(items + [x]);
    NoItemsAtAll();
    var inside := CanonItems(items);
    Bracketed(inside, Canon(x));
    assert Canon(Array(items)) == (['['] + inside) + [']'];
    assert Canon(Array(items + [x])) == (['['] + inside) + Canon(x) + [','] + [']'];
  }

  lemma ArrayText(items: seq<Json>)
    ensures Canon(Array(items)) == ['['] + CanonItems(items) + [']']
  {
  }

  lemma Bracketed(inside: string, one: string)
    ensures ['['] + (inside + one + [',']) + [']'] == (['['] + inside) + one + [','] + [']']
  {
  }

  lemma NoItemsAtAll()
    ensures Canon(Array([])) == "[]" && Canon(Object(map[])) == "{}"
  {
  }

  lemma {:induction false} MembersAppend(m: map<string, Json>, m': map<string, Json>, keys: seq<string>, k: string)
    requires (forall q :: q in keys ==> q in m && q in m' && m'[q] == m[q]) && k in m'
    ensures CanonMembers(Object(m'), m', keys + [k]) ==
            CanonMembers(Object(m), m, keys) + (Quote(k) + [':'] + Canon(m'[k]) + [','])
  {
    hide Canon, Quote;
    if keys == [] {
      assert keys + [k] == [k] && [k][1..] == [];
    } else {
      MembersAppend(m, m', keys[1..], k);
      assert (keys + [k])[1..] == keys[1..] + [k];
      Assoc(Quote(keys[0]) + [':'] + Canon(m[keys[0]]) + [','], CanonMembers(Object(m), m, keys[1..]),
          Quote(k) + [':'] + Canon(m'[k]) + [',']);
    }
  }

  lemma KeysAppend(m: map<string, Json>, k: string, x: Json)
    requires k !in m && forall q :: q in m ==> StrLe(q, k)
    ensures Keys(m[k := x]) == Keys(m) + [k]
  {
    StrLeIsTotalOrder();
    hide StrLe, TotalOrder, InOrder;
    assert m[k := x].Keys == m.Keys + {k};
    InOrderAppend(m.Keys, k, StrLe);
  }

  /** An object is its members in the order of their keys, each with its colon and comma. */
  lemma ObjectForm(m: map<string, Json>, k: string, x: Json)
    requires k !in m && forall q :: q in m ==> StrLe(q, k)
    ensures Canon(Object(map[])) == "{}"
    ensures exists front, e :: Canon(Object(m)) == front + ['}'] && Unescape(e) == Some(k) &&
              Canon(Object(m[k := x])) == front + (['"'] + e + ['"'] + [':'] + Canon(x) + [',']) + ['}']
  {
    hide *;
    NoItemsAtAll();
    KeysAppend(m, k, x);
    EscapeReadsBack(k);
    MembersAppend(m, m[k := x], Keys(m), k);
    ObjectText(m);
    ObjectText(m[k := x]);
    var inside, e := CanonMembers(Object(m), m, Keys(m)), EscapeText(k);
    var one := ['"'] + e + ['"'] + [':'] + Canon(x) + [','];
    QuoteText(k);
    Braced(inside, one);
    assert Canon(Object(m)) == (['{'] + inside) + ['}'];
    assert Canon(Object(m[k := x])) == (['{'] + inside) + one + ['}'];
  }

  lemma ObjectText(m: map<string, Json>)
    ensures Canon(Object(m)) == ['{'] + CanonMembers(Object(m), m, Keys(m)) + ['}']
  {
  }

  lemma QuoteText(k: string)
    ensures Quote(k) == ['"'] + EscapeText(k) + ['"']
  {
  }

  lemma Braced(inside: string, one: string)
    ensures ['{'] + (inside + one) + ['}'] == (['{'] + inside) + one + ['}']
  {
  }

  /** The first character tells the kinds of value apart, and from every closing character. */
  function Kind(c: char): nat {
    if c == 'n' then 0 else if c == 't' then 1 else if c == 'f' then 2
    else if c == '-' || '0' <= c <= '9' then 3
    else if c == '"' then 4 else if c == '[' then 5 else if c == '{' then 6 else 7
  }

  function KindOf(v: Json): nat {
    match v
    case Null => 0
    case Bool(b) => if b then 1 else 2
    case Number(_) => 3
    case Str(_) => 4
    case Array(_) => 5
    case Object(_) => 6
  }

  lemma FirstChar(v: Json, s: string)
    requires Printable(v)
    ensures Canon(v) != "" && Kind((Canon(v) + s)[0]) == KindOf(v)
  {
    hide CanonItems, CanonMembers, Keys, EscapeText;
    assert Canon(v) != "" ==> (Canon(v) + s)[0] == Canon(v)[0];
  }

  /** A canonical form followed by a stop is read in one way only. */
  lemma {:induction false} CanonUnique(v: Json, s: string, w: Json, t: string)
    requires Printable(v) && Printable(w) && Stops(s) && Stops(t)
    requires Canon(v) + s == Canon(w) + t
    ensures v == w && s == t
    decreases v, 1
  {
    hide CanonItems, CanonMembers, Quote;
    FirstChar(v, s);
    FirstChar(w, t);
    match v {
      case Null => DropSame("null", s, t);
      case Bool(b) => DropSame(Canon(v), s, t);
      case Number(a) => NumberUnique(a, s, w.text, t);
      case Str(a) => QuoteUnique(a, s, w.s, t);
      case Array(xs) => ArrayUnique(xs, s, w.items, t);
      case Object(m) => ObjectUnique(v, m, s, w, w.members, t);
    }
  }

  lemma {:induction false} ArrayUnique(xs: seq<Json>, s: string, ys: seq<Json>, t: string)
    requires Printable(Array(xs)) && Printable(Array(ys)) && Canon(Array(xs)) + s == Canon(Array(ys)) + t
    ensures xs == ys && s == t
    decreases xs, 2
  {
    hide CanonItems;
    Brackets('[', CanonItems(xs), ']', s, CanonItems(ys), t);
    ItemsUnique(xs, s, ys, t);
  }

  lemma {:induction false} ObjectUnique(v: Json, m: map<string, Json>, s: string, w: Json, n: map<string, Json>,
      t: string)
    requires v == Object(m) && w == Object(n) && Printable(v) && Printable(w) && Canon(v) + s == Canon(w) + t
    ensures m == n && s == t
    decreases v, 0
  {
    hide CanonMembers;
    Brackets('{', CanonMembers(v, m, Keys(m)), '}', s, CanonMembers(w, n, Keys(n)), t);
    MembersUnique(v, m, Keys(m), s, w, n, Keys(n), t);
    assert forall k :: k in m.Keys <==> k in n.Keys by {
      assert forall k :: k in m.Keys <==> k in Keys(m);
      assert forall k :: k in n.Keys <==> k in Keys(n);
    }
    assert m.Keys == n.Keys;
  }

  lemma Brackets(open: char, a: string, close: char, s: string, b: string, t: string)
    requires [open] + a + [close] + s == [open] + b + [close] + t
    ensures a + [close] + s == b + [close] + t
  {
    assert [open] + a + [close] + s == [open] + (a + [close] + s);
    assert [open] + b + [close] + t == [open] + (b + [close] + t);
    DropHead(open, a + [close] + s, open, b + [close] + t);
  }

  lemma ItemsHead(xs: seq<Json>, s: string)
    requires xs != []
    ensures CanonItems(xs) + [']'] + s == Canon(xs[0]) + ([','] + (CanonItems(xs[1..]) + [']'] + s))
  {
  }

  lemma {:induction false} ItemsUnique(xs: seq<Json>, s: string, ys: seq<Json>, t: string)
    requires (forall i :: 0 <= i < |xs| ==> Printable(xs[i])) && (forall i :: 0 <= i < |ys| ==> Printable(ys[i]))
    requires CanonItems(xs) + [']'] + s == CanonItems(ys) + [']'] + t
    ensures xs == ys && s == t
    decreases xs, 1
  {
    hide Canon, Printable;
    if xs == [] {
      NothingBefore(']', s);
    } else {
      ItemsHead(xs, s);
      FirstChar(xs[0], [','] + (CanonItems(xs[1..]) + [']'] + s));
    }
    if ys == [] {
      NothingBefore(']', t);
    } else {
      ItemsHead(ys, t);
      FirstChar(ys[0], [','] + (CanonItems(ys[1..]) + [']'] + t));
    }
    assert xs == [] <==> ys == [];
    if xs == [] {
      DropHead(']', s, ']', t);
    } else {
      var s', t' := CanonItems(xs[1..]) + [']'] + s, CanonItems(ys[1..]) + [']'] + t;
      CanonUnique(xs[0], [','] + s', ys[0], [','] + t');
      DropHead(',', s', ',', t');
      ItemsUnique(xs[1..], s, ys[1..], t);
      assert xs == [xs[0]] + xs[1..] && ys == [ys[0]] + ys[1..];
    }
  }

  lemma MembersHead(v: Json, m: map<string, Json>, ks: seq<string>, s: string)
    requires v == Object(m) && (forall k :: k in ks ==> k in m) && ks != []
    ensures CanonMembers(v, m, ks) + ['}'] + s ==
            Quote(ks[0]) + ([':'] + (Canon(m[ks[0]]) + ([','] + (CanonMembers(v, m, ks[1..]) + ['}'] + s))))
    ensures (CanonMembers(v, m, ks) + ['}'] + s)[0] == '"'
  {
    hide Canon;
  }

  lemma {:induction false} MembersUnique(
    v: Json, m: map<string, Json>, ks: seq<string>, s: string, w: Json, n: map<string, Json>, ls: seq<string>,
        t: string)
    requires v == Object(m) && (forall k :: k in ks ==> k in m) && w == Object(n) && (forall k :: k in ls ==> k in n)
    requires Printable(v) && Printable(w)
    requires CanonMembers(v, m, ks) + ['}'] + s == CanonMembers(w, n, ls) + ['}'] + t
    ensures ks == ls && s == t && forall k :: k in ks ==> k in n && m[k] == n[k]
    decreases v, 0, |ks|
  {
    hide Canon, Quote;
    if ks == [] { NothingBefore('}', s); } else { MembersHead(v, m, ks, s); }
    if ls == [] { NothingBefore('}', t); } else { MembersHead(w, n, ls, t); }
    assert ks == [] <==> ls == [];
    if ks == [] {
      DropHead('}', s, '}', t);
    } else {
      var k, l := ks[0], ls[0];
      assert k in ks && l in ls;
      var s', t' := CanonMembers(v, m, ks[1..]) + ['}'] + s, CanonMembers(w, n, ls[1..]) + ['}'] + t;
      var s'', t'' := Canon(m[k]) + ([','] + s'), Canon(n[l]) + ([','] + t');
      QuoteUnique(k, [':'] + s'', l, [':'] + t'');
      DropHead(':', s'', ':', t'');
      CanonUnique(m[k], [','] + s', n[l], [','] + t');
      DropHead(',', s', ',', t');
      MembersUnique(v, m, ks[1..], s, w, n, ls[1..], t);
      assert ks == [k] + ks[1..] && ls == [l] + ls[1..];
    }
  }

  ghost predicate PartOk(p: Option<Json>) { p.Some? ==> Printable(p.value) }

  lemma PartUnique(p: Option<Json>, s: string, q: Option<Json>, t: string)
    requires PartOk(p) && PartOk(q) && Part(p) + (['|'] + s) == Part(q) + (['|'] + t)
    ensures p == q && s == t
  {
    hide Canon, Printable;
    if p.Some? { FirstChar(p.value, ['|'] + s); }
    if q.Some? { FirstChar(q.value, ['|'] + t); }
    if p.Some? && q.Some? {
      CanonUnique(p.value, ['|'] + s, q.value, ['|'] + t);
    } else {
      assert Kind('~') == 7;
      assert p.None? ==> (Part(p) + (['|'] + s))[0] == '~';
      assert q.None? ==> (Part(q) + (['|'] + t))[0] == '~';
      DropSame(['~'], ['|'] + s, ['|'] + t);
    }
    DropHead('|', s, '|', t);
  }

  lemma {:induction false} PreimageUniqueSeq(ps: seq<Option<Json>>, qs: seq<Option<Json>>)
    requires |ps| == |qs| && (forall i :: 0 <= i < |ps| ==> PartOk(ps[i]) && PartOk(qs[i]))
    requires Preimage(ps) == Preimage(qs)
    ensures ps == qs
  {
    hide Part, PartOk;
    if ps != [] {
      Assoc(Part(ps[0]), ['|'], Preimage(ps[1..]));
      Assoc(Part(qs[0]), ['|'], Preimage(qs[1..]));
      PartUnique(ps[0], Preimage(ps[1..]), qs[0], Preimage(qs[1..]));
      PreimageUniqueSeq(ps[1..], qs[1..]);
      assert ps == [ps[0]] + ps[1..] && qs == [qs[0]] + qs[1..];
    }
  }

  /** The hashed text determines all three inputs, and absent is not null. */
  lemma PreimageUnique(a: Option<Json>, b: Option<Json>, c: Option<Json>, x: Option<Json>, y: Option<Json>,
      z: Option<Json>)
    requires PartOk(a) && PartOk(b) && PartOk(c) && PartOk(x) && PartOk(y) && PartOk(z)
    ensures Preimage([a, b, c]) == Preimage([x, y, z]) <==> a == x && b == y && c == z
  {
    if Preimage([a, b, c]) == Preimage([x, y, z]) {
      PreimageUniqueSeq([a, b, c], [x, y, z]);
      assert [a, b, c][0] == [x, y, z][0] && [a, b, c][1] == [x, y, z][1] && [a, b, c][2] == [x, y, z][2];
    }
  }
}
