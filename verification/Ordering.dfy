/**
  Orders, sorting and sorted enumeration.  Rust compares strings by their UTF-8 bytes,
  which is the order of their code points; `sort_by` is stable; a BTreeMap or BTreeSet
  is walked in key order.
*/
module Ordering {

  ghost predicate TotalPreorder<T(!new)>(le: (T, T) -> bool) {
    && (forall x, y :: le(x, y) || le(y, x))
    && (forall x, y, z :: le(x, y) && le(y, z) ==> le(x, z))
  }

  ghost predicate TotalOrder<T(!new)>(le: (T, T) -> bool) {
    && TotalPreorder(le)
    && (forall x, y :: le(x, y) && le(y, x) ==> x == y)
  }

  lemma Total<T(!new)>(le: (T, T) -> bool, x: T, y: T)
    requires TotalPreorder(le)
    ensures le(x, y) || le(y, x)
  {
  }

  lemma Transitive<T(!new)>(le: (T, T) -> bool, x: T, y: T, z: T)
    requires TotalPreorder(le) && le(x, y) && le(y, z)
    ensures le(x, z)
  {
  }

  lemma Antisymmetric<T(!new)>(le: (T, T) -> bool, x: T, y: T)
    requires TotalOrder(le) && le(x, y) && le(y, x)
    ensures x == y
  {
  }

  lemma OrderIsPreorder<T(!new)>(le: (T, T) -> bool)
    requires TotalOrder(le)
    ensures TotalPreorder(le)
  {
  }

  // ----- strings -------------------------------------------------------------------

  predicate StrLe(a: string, b: string) {
    a == [] || (b != [] && (a[0] < b[0] || (a[0] == b[0] && StrLe(a[1..], b[1..]))))
  }

  lemma {:induction false} StrLeTotal(a: string, b: string)
    ensures StrLe(a, b) || StrLe(b, a)
    decreases |a|
  {
    if a != [] && b != [] { StrLeTotal(a[1..], b[1..]); }
  }

  lemma {:induction false} StrLeAntisymmetric(a: string, b: string)
    requires StrLe(a, b) && StrLe(b, a)
    ensures a == b
    decreases |a|
  {
    if a != [] && b != [] {
      StrLeAntisymmetric(a[1..], b[1..]);
      assert a == [a[0]] + a[1..] && b == [b[0]] + b[1..];
    }
  }

  lemma {:induction false} StrLeTransitive(a: string, b: string, c: string)
    requires StrLe(a, b) && StrLe(b, c)
    ensures StrLe(a, c)
    decreases |a|
  {
    if a != [] && b != [] && c != [] && a[0] == b[0] == c[0] { StrLeTransitive(a[1..], b[1..], c[1..]); }
  }

  /** The order of a dictionary: a prefix comes first, and otherwise the first difference decides. */
  lemma {:induction false} StrLeIsLexicographic(a: string, b: string)
    ensures StrLe(a, b) <==> a <= b || exists i :: 0 <= i < |a| && i < |b| && a[..i] == b[..i] && a[i] < b[i]
    decreases |a|
  {
    if a != [] && b != [] && a[0] == b[0] {
      StrLeIsLexicographic(a[1..], b[1..]);
      assert a == [a[0]] + a[1..] && b == [b[0]] + b[1..];
      if i :| 0 <= i < |a[1..]| && i < |b[1..]| && a[1..][..i] == b[1..][..i] && a[1..][i] < b[1..][i] {
        assert a[..i + 1] == [a[0]] + a[1..][..i] && b[..i + 1] == [b[0]] + b[1..][..i];
      }
      if i :| 0 <= i < |a| && i < |b| && a[..i] == b[..i] && a[i] < b[i] {
        assert a[1..][..i - 1] == a[..i][1..] && b[1..][..i - 1] == b[..i][1..];
      }
    } else if a != [] && b != [] && a[0] < b[0] {
      assert a[..0] == b[..0];
    } else {
      forall i | 0 < i < |a| && i < |b| ensures a[..i] != b[..i] { assert a[..i][0] != b[..i][0]; }
    }
  }

  lemma StrLeIsTotalOrder()
    ensures TotalOrder(StrLe)
  {
    forall x: string, y: string ensures StrLe(x, y) || StrLe(y, x) { StrLeTotal(x, y); }
    forall x: string, y: string, z: string | StrLe(x, y) && StrLe(y, z) ensures StrLe(x, z) {
      StrLeTransitive(x, y, z);
    }
    forall x: string, y: string | StrLe(x, y) && StrLe(y, x) ensures x == y { StrLeAntisymmetric(x, y); }
  }

  // ----- stable sorting ---------------------------------------------------------------

  ghost predicate Sorted<T(!new)>(s: seq<T>, le: (T, T) -> bool) {
    forall i, j :: 0 <= i < j < |s| ==> le(s[i], s[j])
  }

  function Insert<T>(x: T, s: seq<T>, le: (T, T) -> bool): seq<T> {
    if s == [] then [x]
    else if le(x, s[0]) then [x] + s
    else [s[0]] + Insert(x, s[1..], le)
  }

  function Sort<T>(s: seq<T>, le: (T, T) -> bool): seq<T> {
    if s == [] then [] else Insert(s[0], Sort(s[1..], le), le)
  }

  lemma {:induction false} InsertPermutes<T>(x: T, s: seq<T>, le: (T, T) -> bool)
    ensures multiset(Insert(x, s, le)) == multiset{x} + multiset(s)
    ensures |Insert(x, s, le)| == |s| + 1
  {
    if s != [] && !le(x, s[0]) {
      InsertPermutes(x, s[1..], le);
      assert s == [s[0]] + s[1..];
    }
  }

  lemma {:induction false} SortPermutes<T>(s: seq<T>, le: (T, T) -> bool)
    ensures multiset(Sort(s, le)) == multiset(s)
    ensures |Sort(s, le)| == |s|
    ensures forall x :: x in Sort(s, le) <==> x in s
  {
    if s != [] {
      SortPermutes(s[1..], le);
      InsertPermutes(s[0], Sort(s[1..], le), le);
      assert s == [s[0]] + s[1..];
    }
    forall x ensures x in Sort(s, le) <==> x in s { SameMembers(Sort(s, le), s, x); }
  }

  lemma SameMembers<T>(a: seq<T>, b: seq<T>, x: T)
    requires multiset(a) == multiset(b)
    ensures x in a <==> x in b
  {
    assert x in a <==> x in multiset(a);
    assert x in b <==> x in multiset(b);
  }

  lemma {:induction false} InsertSorted<T(!new)>(x: T, s: seq<T>, le: (T, T) -> bool)
    requires TotalPreorder(le) && Sorted(s, le)
    ensures Sorted(Insert(x, s, le), le)
  {
    if s != [] {
      if le(x, s[0]) {
      } else {
        InsertSorted(x, s[1..], le);
        var t := Insert(x, s[1..], le);
        InsertPermutes(x, s[1..], le);
        forall j | 0 <= j < |t| ensures le(s[0], t[j]) {
          assert t[j] in multiset(t);
          assert t[j] == x || t[j] in s[1..];
        }
      }
    }
  }

  lemma {:induction false} SortSorted<T(!new)>(s: seq<T>, le: (T, T) -> bool)
    requires TotalPreorder(le)
    ensures Sorted(Sort(s, le), le)
  {
    if s != [] {
      SortSorted(s[1..], le);
      InsertSorted(s[0], Sort(s[1..], le), le);
    }
  }

  lemma HeadIsLeast<T(!new)>(s: seq<T>, x: T, le: (T, T) -> bool)
    requires TotalPreorder(le) && Sorted(s, le) && x in s
    ensures le(s[0], x)
  {
    var i :| 0 <= i < |s| && s[i] == x;
    if i == 0 { Total(le, x, x); }
  }

  lemma TailOf<T(!new)>(s: seq<T>, le: (T, T) -> bool)
    requires s != [] && Sorted(s, le)
    ensures Sorted(s[1..], le) && multiset(s[1..]) == multiset(s) - multiset{s[0]} && s == [s[0]] + s[1..]
  {
    assert s == [s[0]] + s[1..];
  }

  /** Where the order tells the elements apart, a sorted arrangement is unique. */
  lemma {:induction false} SortedUnique<T(!new)>(a: seq<T>, b: seq<T>, le: (T, T) -> bool)
    requires TotalPreorder(le) && Sorted(a, le) && Sorted(b, le) && multiset(a) == multiset(b)
    requires forall x, y :: x in a && y in a && le(x, y) && le(y, x) ==> x == y
    ensures a == b
    decreases |a|
  {
    hide TotalPreorder, Sorted;
    assert |a| == |multiset(a)| == |multiset(b)| == |b|;
    if a != [] {
      SameMembers(a, b, a[0]);
      SameMembers(a, b, b[0]);
      HeadIsLeast(a, b[0], le);
      HeadIsLeast(b, a[0], le);
      TailOf(a, le);
      TailOf(b, le);
      SortedUnique(a[1..], b[1..], le);
    }
  }

  /** So sorting forgets the order of its input. */
  lemma SortForgetsOrder<T(!new)>(a: seq<T>, b: seq<T>, le: (T, T) -> bool)
    requires TotalPreorder(le) && multiset(a) == multiset(b)
    requires forall x, y :: x in a && y in a && le(x, y) && le(y, x) ==> x == y
    ensures Sort(a, le) == Sort(b, le)
  {
    SortSorted(a, le);
    SortSorted(b, le);
    SortPermutes(a, le);
    SortPermutes(b, le);
    SortedUnique(Sort(a, le), Sort(b, le), le);
  }

  // ----- sorted enumeration of a set ------------------------------------------------------

  predicate IsLeast<T(==)>(m: T, s: set<T>, le: (T, T) -> bool) { m in s && forall y | y in s :: le(m, y) }

  lemma {:induction false} LeastExists<T(!new)>(s: set<T>, le: (T, T) -> bool)
    requires s != {} && TotalOrder(le)
    ensures exists m :: IsLeast(m, s, le)
    decreases |s|
  {
    var m :| m in s;
    hide TotalOrder, TotalPreorder;
    OrderIsPreorder(le);
    Total(le, m, m);
    var rest := s - {m};
    if rest == {} {
      assert s == {m};
      assert IsLeast(m, s, le);
    } else {
      LeastExists(rest, le);
      var k :| IsLeast(k, rest, le);
      if le(k, m) {
        assert IsLeast(k, s, le);
      } else {
        Total(le, m, k);
        forall y | y in s ensures le(m, y) {
          if y != m { assert y in rest; Transitive(le, m, k, y); }
        }
        assert IsLeast(m, s, le);
      }
    }
  }

  function Least<T(==,!new)>(s: set<T>, le: (T, T) -> bool): (m: T)
    requires s != {} && TotalOrder(le)
    ensures IsLeast(m, s, le)
  {
    LeastExists(s, le);
    var m :| IsLeast(m, s, le);
    m
  }

  ghost predicate NoRepeats<T(!new)>(s: seq<T>) { forall i, j :: 0 <= i < j < |s| ==> s[i] != s[j] }

  /** The elements of a set in order. */
  function InOrder<T(==,!new)>(s: set<T>, le: (T, T) -> bool): (r: seq<T>)
    requires TotalOrder(le)
    ensures |r| == |s|
    ensures forall x :: x in r <==> x in s
    ensures Sorted(r, le) && NoRepeats(r)
    decreases |s|
  {
    if s == {} then []
    else
      var m := Least(s, le);
      assert |s - {m}| == |s| - 1;
      [m] + InOrder(s - {m}, le)
  }

  lemma {:induction false} SubsetNotLarger<T>(a: set<T>, b: set<T>)
    requires a <= b
    ensures |a| <= |b|
    decreases a
  {
    if a != {} {
      var x :| x in a;
      SubsetNotLarger(a - {x}, b - {x});
    }
  }

  // ----- repetitions ------------------------------------------------------------------------

  /** The distinctness test of the source: the set of elements is as large as the list. */
  predicate AllDistinct<T(==)>(s: seq<T>) { |set x | x in s| == |s| }

  lemma {:induction false} SetNotLarger<T>(s: seq<T>)
    ensures |set x | x in s| <= |s|
  {
    if s != [] {
      var r := s[1..];
      SetNotLarger(r);
      assert (set x | x in s) == (set x | x in r) + {s[0]};
    }
  }

  lemma {:induction false} DistinctMeansNoRepeats<T(!new)>(s: seq<T>)
    ensures AllDistinct(s) <==> NoRepeats(s)
    decreases |s|
  {
    if s != [] {
      var r := s[1..];
      assert (set x | x in s) == (set x | x in r) + {s[0]};
      DistinctMeansNoRepeats(r);
      SetNotLarger(r);
      if s[0] in r {
        var j :| 0 <= j < |r| && r[j] == s[0];
        assert s[0] == s[j + 1];
      } else if NoRepeats(r) {
        forall i, j | 0 <= i < j < |s| ensures s[i] != s[j] {
          if i == 0 { assert s[j] == r[j - 1]; } else { assert s[i] == r[i - 1] && s[j] == r[j - 1]; }
        }
      } else {
        var i, j :| 0 <= i < j < |r| && r[i] == r[j];
        assert s[i + 1] == s[j + 1];
      }
    }
  }

  lemma {:induction false} NoRepeatsCounts<T(!new)>(s: seq<T>)
    ensures NoRepeats(s) <==> forall x :: multiset(s)[x] <= 1
    decreases |s|
  {
    if s != [] {
      var r := s[1..];
      assert s == [s[0]] + r;
      assert multiset(s) == multiset{s[0]} + multiset(r);
      NoRepeatsCounts(r);
      if s[0] in r {
        var j :| 0 <= j < |r| && r[j] == s[0];
        assert s[0] == s[j + 1];
        assert s[0] in multiset(r);
        assert multiset(s)[s[0]] >= 2;
      } else {
        assert s[0] !in multiset(r);
        if NoRepeats(r) {
          forall i, j | 0 <= i < j < |s| ensures s[i] != s[j] {
            if i == 0 { assert s[j] == r[j - 1]; } else { assert s[i] == r[i - 1] && s[j] == r[j - 1]; }
          }
          assert forall x :: multiset(s)[x] <= 1;
        } else {
          var x :| multiset(r)[x] > 1;
          assert multiset(s)[x] > 1;
          var i, j :| 0 <= i < j < |r| && r[i] == r[j];
          assert s[i + 1] == s[j + 1];
        }
      }
    }
  }

  /** Distinctness depends on the multiset alone. */
  lemma NoRepeatsIsPermutable<T(!new)>(a: seq<T>, b: seq<T>)
    requires multiset(a) == multiset(b) && NoRepeats(a)
    ensures NoRepeats(b)
  {
    NoRepeatsCounts(a);
    NoRepeatsCounts(b);
  }

  /** A set is enumerated in order in only one way. */
  lemma SameElementsSameOrder<T(!new)>(a: seq<T>, b: seq<T>, le: (T, T) -> bool)
    requires TotalOrder(le) && Sorted(a, le) && Sorted(b, le) && NoRepeats(a) && NoRepeats(b)
    requires forall x :: x in a <==> x in b
    ensures a == b
  {
    NoRepeatsCounts(a);
    NoRepeatsCounts(b);
    hide Sorted, NoRepeats;
    forall x ensures multiset(a)[x] == multiset(b)[x] {
      assert x in multiset(a) <==> x in a;
      assert x in multiset(b) <==> x in b;
    }
    assert multiset(a) == multiset(b);
    SortedUnique(a, b, le);
  }

  lemma GreatestLast<T(!new)>(a: seq<T>, x: T, le: (T, T) -> bool)
    requires TotalOrder(le) && Sorted(a, le) && NoRepeats(a) && x !in a && forall y :: y in a ==> le(y, x)
    ensures Sorted(a + [x], le) && NoRepeats(a + [x])
  {
    assert le(x, x);
  }

  lemma InOrderAppend<T(!new)>(s: set<T>, x: T, le: (T, T) -> bool)
    requires TotalOrder(le) && x !in s && forall y :: y in s ==> le(y, x)
    ensures InOrder(s + {x}, le) == InOrder(s, le) + [x]
  {
    hide InOrder;
    var a, b := InOrder(s + {x}, le), InOrder(s, le);
    GreatestLast(b, x, le);
    assert forall y :: y in b + [x] <==> y in b || y == x;
    hide TotalOrder, Sorted, NoRepeats;
    SameElementsSameOrder(a, b + [x], le);
  }
}
