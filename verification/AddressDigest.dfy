/**
  The pre-image of the address multiset hash: the number of addresses, then every
  address in order, each preceded by its length; numbers as eight little-endian bytes,
  text as UTF-8.
*/
module AddressDigest {
  import opened Ordering

  newtype byte = n: int | 0 <= n < 256

  // ----- UTF-8 -----------------------------------------------------------------------

  function EncodeChar(c: char): seq<byte> {
    var n := c as int;
    if n < 0x80 then [n as byte]
    else if n < 0x800 then [(0xC0 + n / 64) as byte, (0x80 + n % 64) as byte]
    else if n < 0x1_0000 then [(0xE0 + n / 4096) as byte, (0x80 + n / 64 % 64) as byte, (0x80 + n % 64) as byte]
    else [(0xF0 + n / 262144) as byte, (0x80 + n / 4096 % 64) as byte, (0x80 + n / 64 % 64) as byte,
        (0x80 + n % 64) as byte]
  }

  function Utf8(s: string): seq<byte> {
    if s == "" then [] else EncodeChar(s[0]) + Utf8(s[1..])
  }

  function CharWidth(first: byte): nat {
    if first < 0x80 then 1 else if first < 0xE0 then 2 else if first < 0xF0 then 3 else 4
  }

  lemma WidthFromFirstByte(c: char)
    ensures |EncodeChar(c)| == CharWidth(EncodeChar(c)[0])
  {
  }

  lemma EncodeCharInjective(c: char, d: char)
    requires EncodeChar(c) == EncodeChar(d)
    ensures c == d
  {
    var x, y := EncodeChar(c), EncodeChar(d);
    assert forall i :: 0 <= i < |x| ==> x[i] == y[i];
    Digits(c as int);
    Digits(d as int);
  }

  lemma Digits(n: int)
    ensures n == n / 64 * 64 + n % 64
    ensures n / 64 == n / 4096 * 64 + n / 64 % 64
    ensures n / 4096 == n / 262144 * 64 + n / 4096 % 64
  {
  }

  /** A byte after the first: the bits 10, then six bits of the code point (section 3 of RFC 3629). */
  predicate Continues(b: byte) { 0x80 <= b < 0xC0 }

  function SixBits(b: byte): int { b as int - 0x80 }

  /** The code point is read back from the bytes, which are as few as its size needs (section 3 of RFC 3629). */
  lemma CharReadsBack(c: char)
    ensures var e, n := EncodeChar(c), c as int;
            && |e| == (if n <= 0x7F then 1 else if n <= 0x7FF then 2 else if n <= 0xFFFF then 3 else 4)
            && (forall i :: 1 <= i < |e| ==> Continues(e[i]))
            && (|e| == 1 ==> e[0] as int == n)
            && (|e| == 2 ==> 0xC0 <= e[0] < 0xE0 && n == (e[0] as int - 0xC0) * 64 + SixBits(e[1]))
            && (|e| == 3 ==>
                  0xE0 <= e[0] < 0xF0 && n == (e[0] as int - 0xE0) * 4096 + SixBits(e[1]) * 64 + SixBits(e[2]))
            && (|e| == 4 ==>
                  && 0xF0 <= e[0] < 0xF8
                  && n == (e[0] as int - 0xF0) * 262144 + SixBits(e[1]) * 4096 + SixBits(e[2]) * 64 + SixBits(e[3]))
  {
    Digits(c as int);
  }

  predicate BytesLe(a: seq<byte>, b: seq<byte>) {
    a == [] || (b != [] && (a[0] < b[0] || (a[0] == b[0] && BytesLe(a[1..], b[1..]))))
  }

  /** Two byte strings first differ at `i`, where the first is smaller. */
  ghost predicate Below(a: seq<byte>, b: seq<byte>, i: nat) {
    i < |a| && i < |b| && a[..i] == b[..i] && a[i] < b[i]
  }

  /** A smaller code point has the smaller bytes. */
  lemma CharOrder(c: char, d: char) returns (i: nat)
    requires c < d
    ensures Below(EncodeChar(c), EncodeChar(d), i)
  {
    hide EncodeChar;
    CharReadsBack(c);
    CharReadsBack(d);
    var x, y := EncodeChar(c), EncodeChar(d);
    i := if x[0] != y[0] then 0 else if x[1] != y[1] then 1 else if x[2] != y[2] then 2 else 3;
  }

  lemma {:induction false} BelowDecides(a: seq<byte>, b: seq<byte>, i: nat, s: seq<byte>, t: seq<byte>)
    requires Below(a, b, i)
    ensures BytesLe(a + s, b + t) && !BytesLe(b + t, a + s)
    decreases i
  {
    assert (a + s)[0] == a[0] && (b + t)[0] == b[0];
    if i > 0 {
      assert a[..i][0] == b[..i][0];
      assert a[1..][..i - 1] == a[..i][1..] && b[1..][..i - 1] == b[..i][1..];
      BelowDecides(a[1..], b[1..], i - 1, s, t);
      assert (a + s)[1..] == a[1..] + s && (b + t)[1..] == b[1..] + t;
    }
  }

  lemma {:induction false} BytesLePrefix(p: seq<byte>, s: seq<byte>, t: seq<byte>)
    ensures BytesLe(p + s, p + t) <==> BytesLe(s, t)
  {
    if p == [] {
      assert p + s == s && p + t == t;
    } else {
      BytesLePrefix(p[1..], s, t);
      assert (p + s)[0] == (p + t)[0] == p[0];
      assert (p + s)[1..] == p[1..] + s && (p + t)[1..] == p[1..] + t;
    }
  }

  /** Comparing texts by code points is comparing their UTF-8 bytes, as Rust does. */
  lemma {:induction false} ByteOrderIsTextOrder(a: string, b: string)
    ensures BytesLe(Utf8(a), Utf8(b)) <==> StrLe(a, b)
    decreases |a|
  {
    hide EncodeChar, BytesLe;
    if a == "" || b == "" {
      EmptyBytes(a, b);
    } else if a[0] == b[0] {
      BytesLePrefix(EncodeChar(a[0]), Utf8(a[1..]), Utf8(b[1..]));
      ByteOrderIsTextOrder(a[1..], b[1..]);
    } else if a[0] < b[0] {
      var i := CharOrder(a[0], b[0]);
      BelowDecides(EncodeChar(a[0]), EncodeChar(b[0]), i, Utf8(a[1..]), Utf8(b[1..]));
    } else {
      var i := CharOrder(b[0], a[0]);
      BelowDecides(EncodeChar(b[0]), EncodeChar(a[0]), i, Utf8(b[1..]), Utf8(a[1..]));
    }
  }

  lemma EmptyBytes(a: string, b: string)
    requires a == "" || b == ""
    ensures BytesLe(Utf8(a), Utf8(b)) <==> a == ""
  {
    if a != "" { assert Utf8(a) != []; }
  }

  lemma {:induction false} Utf8Injective(a: string, b: string)
    requires Utf8(a) == Utf8(b)
    ensures a == b
    decreases |a|
  {
    if a != "" && b != "" {
      var x, y := EncodeChar(a[0]), EncodeChar(b[0]);
      assert (x + Utf8(a[1..]))[0] == (y + Utf8(b[1..]))[0];
      WidthFromFirstByte(a[0]);
      WidthFromFirstByte(b[0]);
      SplitAt(x, Utf8(a[1..]), y, Utf8(b[1..]));
      EncodeCharInjective(a[0], b[0]);
      Utf8Injective(a[1..], b[1..]);
      assert a == [a[0]] + a[1..] && b == [b[0]] + b[1..];
    }
  }

  /** Two concatenations with heads of the same length are equal part by part. */
  lemma SplitAt<T>(a: seq<T>, s: seq<T>, b: seq<T>, t: seq<T>)
    requires a + s == b + t && |a| == |b|
    ensures a == b && s == t
  {
    assert (a + s)[..|a|] == a && (b + t)[..|b|] == b;
    assert (a + s)[|a|..] == s && (b + t)[|b|..] == t;
  }

  // ----- little-endian numbers ----------------------------------------------------------

  function Pow256(k: nat): (r: nat)
    ensures r > 0
  {
    if k == 0 then 1 else 256 * Pow256(k - 1)
  }

  function LittleEndian(n: nat, k: nat): (r: seq<byte>)
    ensures |r| == k
  {
    if k == 0 then [] else [(n % 256) as byte] + LittleEndian(n / 256, k - 1)
  }

  /** The number that bytes stand for, the least significant first. */
  function Value(bytes: seq<byte>): nat { if bytes == [] then 0 else bytes[0] as nat + 256 * Value(bytes[1..]) }

  lemma {:induction false} LittleEndianReadsBack(n: nat, k: nat)
    ensures Value(LittleEndian(n, k)) == n % Pow256(k)
  {
    if k > 0 {
      LittleEndianReadsBack(n / 256, k - 1);
      assert LittleEndian(n, k)[1..] == LittleEndian(n / 256, k - 1);
      DigitOff(n, Pow256(k - 1));
    }
  }

  lemma DigitOff(n: nat, p: nat)
    requires p > 0
    ensures n % (256 * p) == n % 256 + 256 * (n / 256 % p)
  {
    var q := n / 256 / p;
    var r := n % 256 + 256 * (n / 256 % p);
    assert n / 256 == q * p + n / 256 % p;
    assert n == 256 * (q * p + n / 256 % p) + n % 256;
    assert 256 * (q * p) == (256 * p) * q;
    assert n == (256 * p) * q + r && 0 <= r < 256 * p;
    ModIs(n, 256 * p, q, r);
  }

  lemma ModIs(n: nat, m: nat, q: nat, r: nat)
    requires m > 0 && n == m * q + r && r < m
    ensures n % m == r
  {
    var d := n / m - q;
    assert n == m * (n / m) + n % m;
    assert m * (n / m) - m * q == m * d;
  }

  lemma {:induction false} LittleEndianInjective(n: nat, m: nat, k: nat)
    requires n < Pow256(k) && m < Pow256(k) && LittleEndian(n, k) == LittleEndian(m, k)
    ensures n == m
  {
    if k > 0 {
      SplitAt([(n % 256) as byte], LittleEndian(n / 256, k - 1), [(m % 256) as byte], LittleEndian(m / 256, k - 1));
      assert [(n % 256) as byte][0] == [(m % 256) as byte][0];
      LittleEndianInjective(n / 256, m / 256, k - 1);
    }
  }

  function U64(n: nat): seq<byte> { LittleEndian(n, 8) }

  // ----- the pre-image ---------------------------------------------------------------------

  function Framed(sorted: seq<string>): seq<byte> {
    if sorted == [] then [] else U64(|Utf8(sorted[0])|) + Utf8(sorted[0]) + Framed(sorted[1..])
  }

  function Preimage(addresses: seq<string>): seq<byte> {
    U64(|addresses|) + Framed(Sort(addresses, StrLe))
  }

  function MultisetHash(hash: seq<byte> -> string, addresses: seq<string>): string { hash(Preimage(addresses)) }

  method HashAddresses(hash: seq<byte> -> string, addresses: seq<string>) returns (r: string)
    ensures r == MultisetHash(hash, addresses)
  {
    var sorted := Sort(addresses, StrLe);
    SortPermutes(addresses, StrLe);
    var fed := U64(|sorted|);
    var i := 0;
    while i < |sorted|
      invariant 0 <= i <= |sorted|
      invariant fed + Framed(sorted[i..]) == Preimage(addresses)
    {
      var a := sorted[i];
      assert sorted[i..][1..] == sorted[i + 1..];
      FeedOne(fed, a, Framed(sorted[i + 1..]));
      fed := fed + U64(|Utf8(a)|) + Utf8(a);
      i := i + 1;
    }
    assert fed + [] == fed;
    r := hash(fed);
  }

  lemma FeedOne(fed: seq<byte>, a: string, rest: seq<byte>)
    ensures fed + (U64(|Utf8(a)|) + Utf8(a) + rest) == fed + U64(|Utf8(a)|) + Utf8(a) + rest
  {
  }

  /** Sizes that fit the u64 they are written as. */
  ghost predicate InMemory(addresses: seq<string>) {
    |addresses| < Pow256(8) && forall a :: a in addresses ==> |Utf8(a)| < Pow256(8)
  }

  lemma FramedOnce(x: seq<byte>, s: seq<byte>, y: seq<byte>, t: seq<byte>)
    requires |x| < Pow256(8) && |y| < Pow256(8) && U64(|x|) + (x + s) == U64(|y|) + (y + t)
    ensures x == y && s == t
  {
    hide Pow256, LittleEndian;
    SplitAt(U64(|x|), x + s, U64(|y|), y + t);
    LittleEndianInjective(|x|, |y|, 8);
    SplitAt(x, s, y, t);
  }

  lemma {:induction false} FramedInjective(a: seq<string>, b: seq<string>)
    requires |a| == |b| && Framed(a) == Framed(b)
    requires forall x :: x in a || x in b ==> |Utf8(x)| < Pow256(8)
    ensures a == b
    decreases |a|
  {
    hide Pow256, Utf8, U64;
    if a != [] {
      var x, y := Utf8(a[0]), Utf8(b[0]);
      var s, t := Framed(a[1..]), Framed(b[1..]);
      assert a[0] in a && b[0] in b;
      assert U64(|x|) + x + s == U64(|x|) + (x + s) && U64(|y|) + y + t == U64(|y|) + (y + t);
      FramedOnce(x, s, y, t);
      Utf8Injective(a[0], b[0]);
      FramedInjective(a[1..], b[1..]);
      assert a == [a[0]] + a[1..] && b == [b[0]] + b[1..];
    }
  }

  /** The pre-image is the same exactly when the multisets of addresses are. */
  lemma PreimageIsMultiset(a: seq<string>, b: seq<string>)
    requires InMemory(a) && InMemory(b)
    ensures Preimage(a) == Preimage(b) <==> multiset(a) == multiset(b)
  {
    SortPermutes(a, StrLe);
    SortPermutes(b, StrLe);
    if Preimage(a) == Preimage(b) {
      SplitAt(U64(|a|), Framed(Sort(a, StrLe)), U64(|b|), Framed(Sort(b, StrLe)));
      LittleEndianInjective(|a|, |b|, 8);
      FramedInjective(Sort(a, StrLe), Sort(b, StrLe));
    }
    if multiset(a) == multiset(b) { SameMultisetSamePreimage(a, b); }
  }

  /** Without any bound on sizes: the same multiset is always fed to the hash as the same bytes. */
  lemma SameMultisetSamePreimage(a: seq<string>, b: seq<string>)
    requires multiset(a) == multiset(b)
    ensures Preimage(a) == Preimage(b)
  {
    StrLeIsTotalOrder();
    assert |a| == |multiset(a)| == |b|;
    SortForgetsOrder(a, b, StrLe);
  }
}
