/** Splitting a list into classes and putting the classes back together. */
module Grouping {
  import opened Ordering

  /** The elements of `xs` whose class is in `ks`, in order. */
  function Having<T, K(==)>(xs: seq<T>, c: T -> K, ks: set<K>): seq<T> {
    if xs == [] then []
    else
      var front := Having(xs[..|xs| - 1], c, ks);
      if c(xs[|xs| - 1]) in ks then front + [xs[|xs| - 1]] else front
  }

  /** The payloads of `xs`, one after another. */
  function Spread<T, U>(xs: seq<T>, w: T -> seq<U>): seq<U> {
    if xs == [] then [] else Spread(xs[..|xs| - 1], w) + w(xs[|xs| - 1])
  }

  lemma HavingStep<T, K>(xs: seq<T>, x: T, c: T -> K, ks: set<K>)
    ensures Having(xs + [x], c, ks) == Having(xs, c, ks) + if c(x) in ks then [x] else []
  {
    assert (xs + [x])[..|xs + [x]| - 1] == xs;
  }

  lemma SpreadStep<T, U>(xs: seq<T>, x: T, w: T -> seq<U>)
    ensures Spread(xs + [x], w) == Spread(xs, w) + w(x)
  {
    assert (xs + [x])[..|xs + [x]| - 1] == xs;
  }

  lemma {:induction false} HavingMembers<T, K>(xs: seq<T>, c: T -> K, ks: set<K>)
    ensures forall x :: x in Having(xs, c, ks) <==> x in xs && c(x) in ks
  {
    if xs != [] {
      var front, last := xs[..|xs| - 1], xs[|xs| - 1];
      HavingMembers(front, c, ks);
      assert xs == front + [last];
    }
  }

  lemma {:induction false} SpreadMembers<T, U>(xs: seq<T>, w: T -> seq<U>)
    ensures forall a :: a in Spread(xs, w) <==> exists i :: 0 <= i < |xs| && a in w(xs[i])
  {
    if xs != [] {
      var front, last := xs[..|xs| - 1], xs[|xs| - 1];
      SpreadMembers(front, w);
      forall a ensures a in Spread(xs, w) <==> exists i :: 0 <= i < |xs| && a in w(xs[i]) {
        if a in Spread(front, w) {
          var i :| 0 <= i < |front| && a in w(front[i]);
          assert a in w(xs[i]);
        }
        if exists i :: 0 <= i < |xs| && a in w(xs[i]) {
          var i :| 0 <= i < |xs| && a in w(xs[i]);
          if i < |front| { assert a in w(front[i]); }
        }
      }
    }
  }

  /** A class and the rest weigh together what they weigh apart. */
  lemma {:induction false} HavingSplits<T, K, U>(xs: seq<T>, c: T -> K, w: T -> seq<U>, k: K, ks: set<K>)
    requires k !in ks
    ensures multiset(Spread(Having(xs, c, {k} + ks), w)) ==
            multiset(Spread(Having(xs, c, {k}), w)) + multiset(Spread(Having(xs, c, ks), w))
  {
    if xs != [] {
      var front, last := xs[..|xs| - 1], xs[|xs| - 1];
      assert xs == front + [last];
      HavingSplits(front, c, w, k, ks);
      HavingStep(front, last, c, {k} + ks);
      HavingStep(front, last, c, {k});
      HavingStep(front, last, c, ks);
      SpreadStep(Having(front, c, {k} + ks), last, w);
      SpreadStep(Having(front, c, {k}), last, w);
      SpreadStep(Having(front, c, ks), last, w);
    }
  }

  lemma {:induction false} NoneHave<T, K>(xs: seq<T>, c: T -> K, k: K)
    requires forall x :: x in xs ==> c(x) != k
    ensures Having(xs, c, {k}) == []
  {
    if xs != [] {
      assert xs[|xs| - 1] in xs;
      NoneHave(xs[..|xs| - 1], c, k);
    }
  }

  lemma {:induction false} HavingNone<T, K>(xs: seq<T>, c: T -> K)
    ensures Having(xs, c, {}) == []
  {
    if xs != [] { HavingNone(xs[..|xs| - 1], c); }
  }

  lemma {:induction false} HavingAll<T, K>(xs: seq<T>, c: T -> K, ks: set<K>)
    requires forall x :: x in xs ==> c(x) in ks
    ensures Having(xs, c, ks) == xs
  {
    if xs != [] {
      var front, last := xs[..|xs| - 1], xs[|xs| - 1];
      assert xs == front + [last];
      HavingAll(front, c, ks);
    }
  }

  /** Whatever is weighed class by class, in any order of the classes and rearranged within each,
      is what the whole list weighs. */
  lemma {:induction false} ClassesWeighTheWhole<T, K(!new), U>(
    xs: seq<T>, c: T -> K, w: T -> seq<U>, ks: seq<K>, parts: K -> seq<U>)
    requires NoRepeats(ks)
    requires forall k :: k in ks ==> multiset(parts(k)) == multiset(Spread(Having(xs, c, {k}), w))
    ensures multiset(Spread(ks, parts)) == multiset(Spread(Having(xs, c, set k | k in ks), w))
  {
    hide *;
    if ks == [] {
      NothingWeighsNothing(xs, c, w, ks, parts);
    } else {
      var front, last := ks[..|ks| - 1], ks[|ks| - 1];
      LastIsNew(ks);
      ClassesWeighTheWhole(xs, c, w, front, parts);
      HavingSplits(xs, c, w, last, set k | k in front);
      SpreadStep(front, last, parts);
      assert last in ks;
    }
  }

  lemma NothingWeighsNothing<T, K(!new), U>(
    xs: seq<T>, c: T -> K, w: T -> seq<U>, ks: seq<K>, parts: K -> seq<U>)
    requires ks == []
    ensures multiset(Spread(ks, parts)) == multiset(Spread(Having(xs, c, set k | k in ks), w))
  {
    assert (set k | k in ks) == {};
    HavingNone(xs, c);
  }

  lemma LastIsNew<K(!new)>(ks: seq<K>)
    requires NoRepeats(ks) && ks != []
    ensures var front, last := ks[..|ks| - 1], ks[|ks| - 1];
            ks == front + [last] && NoRepeats(front) && last !in front &&
                (set k | k in ks) == {last} + (set k | k in front)
  {
    var front, last := ks[..|ks| - 1], ks[|ks| - 1];
    assert ks == front + [last];
    assert forall i :: 0 <= i < |front| ==> front[i] == ks[i];
  }

  lemma {:induction false} HavingConcat<T, K>(a: seq<T>, b: seq<T>, c: T -> K, ks: set<K>)
    ensures Having(a + b, c, ks) == Having(a, c, ks) + Having(b, c, ks)
  {
    if b == [] {
      assert a + b == a;
    } else {
      assert (a + b)[..|a + b| - 1] == a + b[..|b| - 1];
      HavingConcat(a, b[..|b| - 1], c, ks);
    }
  }

  lemma {:induction false} SpreadConcat<T, U>(a: seq<T>, b: seq<T>, w: T -> seq<U>)
    ensures Spread(a + b, w) == Spread(a, w) + Spread(b, w)
  {
    if b == [] {
      assert a + b == a;
    } else {
      assert (a + b)[..|a + b| - 1] == a + b[..|b| - 1];
      SpreadConcat(a, b[..|b| - 1], w);
    }
  }

  function Single<T>(x: T): seq<T> { [x] }

  lemma {:induction false} SpreadSingle<T>(xs: seq<T>)
    ensures Spread(xs, Single) == xs
  {
    if xs != [] {
      SpreadSingle(xs[..|xs| - 1]);
      assert xs == xs[..|xs| - 1] + [xs[|xs| - 1]];
    }
  }

  /** The classes of a list, one after another and in any order, are a rearrangement of the list. */
  lemma ClassesRearrange<T, K(!new)>(xs: seq<T>, c: T -> K, ks: seq<K>, parts: K -> seq<T>)
    requires NoRepeats(ks) && forall x :: x in xs ==> c(x) in ks
    requires forall k :: k in ks ==> parts(k) == Having(xs, c, {k})
    ensures multiset(Spread(ks, parts)) == multiset(xs)
  {
    hide Having, Spread;
    forall k | k in ks ensures multiset(parts(k)) == multiset(Spread(Having(xs, c, {k}), Single)) {
      SpreadSingle(Having(xs, c, {k}));
    }
    ClassesWeighTheWhole(xs, c, Single, ks, parts);
    HavingAll(xs, c, set k | k in ks);
    SpreadSingle(xs);
  }

  lemma NoRepeatsParts<U(!new)>(a: seq<U>, b: seq<U>)
    requires NoRepeats(a + b)
    ensures NoRepeats(a) && NoRepeats(b) && forall x :: x in a ==> x !in b
  {
    assert forall i :: 0 <= i < |a| ==> (a + b)[i] == a[i];
    assert forall i :: 0 <= i < |b| ==> (a + b)[|a| + i] == b[i];
  }

  /** Parts of a list without repetitions have none and share nothing. */
  lemma {:induction false} SpreadApart<T, U(!new)>(xs: seq<T>, w: T -> seq<U>)
    requires NoRepeats(Spread(xs, w))
    ensures forall i :: 0 <= i < |xs| ==> NoRepeats(w(xs[i]))
    ensures forall i, j, a :: 0 <= i < |xs| && 0 <= j < |xs| && a in w(xs[i]) && a in w(xs[j]) ==> i == j
  {
    if xs != [] {
      var front, last := xs[..|xs| - 1], xs[|xs| - 1];
      NoRepeatsParts(Spread(front, w), w(last));
      SpreadApart(front, w);
      SpreadMembers(front, w);
      assert forall i :: 0 <= i < |front| ==> xs[i] == front[i];
      hide Spread, NoRepeats;
      assert forall i, a :: 0 <= i < |front| && a in w(front[i]) ==> a in Spread(front, w);
      assert forall i :: 0 <= i < |front| ==> NoRepeats(w(front[i]));
    }
  }
}
