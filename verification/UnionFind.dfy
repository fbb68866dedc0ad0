/**
  The union-find inside `Partition::merge`: a map from every key to a parent that is never
  greater, path compression in `find`, the greater root hung below the smaller.
*/
module UnionFind {
  import opened Ordering
  import opened Address

  type Parents = map<LeafKey, LeafKey>
  type Edge = (LeafKey, LeafKey)

  // ----- the key order -------------------------------------------------------------------

  lemma KeyTotal(a: LeafKey, b: LeafKey)
    ensures KeyLe(a, b) || KeyLe(b, a)
  {
    StrLeTotal(a.raw, b.raw);
  }

  lemma KeyTransitive(a: LeafKey, b: LeafKey, c: LeafKey)
    requires KeyLe(a, b) && KeyLe(b, c)
    ensures KeyLe(a, c)
  {
    if Tag(a) == Tag(b) == Tag(c) { StrLeTransitive(a.raw, b.raw, c.raw); }
  }

  lemma KeyAntisymmetric(a: LeafKey, b: LeafKey)
    requires KeyLe(a, b) && KeyLe(b, a)
    ensures a == b
  {
    StrLeAntisymmetric(a.raw, b.raw);
  }

  // ----- forests ---------------------------------------------------------------------------

  /** The parent of `k` is a key, not greater than `k`. */
  ghost predicate Up(parent: Parents, k: LeafKey)
    requires k in parent
  {
    parent[k] in parent && KeyLe(parent[k], k)
  }

  ghost predicate Forest(parent: Parents) {
    forall k {:trigger Up(parent, k)} :: k in parent ==> Up(parent, k)
  }

  ghost function Below(parent: Parents, k: LeafKey): set<LeafKey> { set x | x in parent && KeyLe(x, k) && x != k }

  /** Climbing to a parent leaves fewer keys below. */
  lemma BelowShrinks(parent: Parents, k: LeafKey)
    requires Forest(parent) && k in parent && parent[k] != k
    ensures |Below(parent, parent[k])| < |Below(parent, k)|
  {
    hide KeyLe;
    assert Up(parent, k);
    var p := parent[k];
    forall x | x in Below(parent, p) ensures x in Below(parent, k) {
      KeyTransitive(x, p, k);
      if x == k { KeyAntisymmetric(p, k); }
    }
    Smaller(Below(parent, p), Below(parent, k), p);
  }

  lemma Smaller<T>(a: set<T>, b: set<T>, x: T)
    requires a <= b && x in b && x !in a
    ensures |a| < |b|
  {
    assert a <= b - {x};
    SubsetNotLarger(a, b - {x});
  }

  ghost function Root(parent: Parents, k: LeafKey): (r: LeafKey)
    requires Forest(parent) && k in parent
    ensures r in parent && parent[r] == r
    decreases |Below(parent, k)|
  {
    assert Up(parent, k);
    if parent[k] == k then k else (BelowShrinks(parent, k); Root(parent, parent[k]))
  }

  lemma RootStep(parent: Parents, k: LeafKey)
    requires Forest(parent) && k in parent
    ensures parent[k] in parent
    ensures Root(parent, k) == if parent[k] == k then k else Root(parent, parent[k])
  {
    assert Up(parent, k);
  }

  lemma {:induction false} RootNotGreater(parent: Parents, k: LeafKey)
    requires Forest(parent) && k in parent
    ensures KeyLe(Root(parent, k), k)
    decreases |Below(parent, k)|
  {
    hide KeyLe;
    assert Up(parent, k);
    if parent[k] == k {
      KeyTotal(k, k);
    } else {
      BelowShrinks(parent, k);
      RootNotGreater(parent, parent[k]);
      KeyTransitive(Root(parent, k), parent[k], k);
    }
  }

  /** Pointing a key straight at its root changes no root. */
  lemma {:induction false} CompressKeepsRoots(parent: Parents, c: LeafKey, parent': Parents, k: LeafKey)
    requires Forest(parent) && c in parent && k in parent && parent' == parent[c := Root(parent, c)]
    ensures Forest(parent') && Root(parent', k) == Root(parent, k)
    decreases |Below(parent, k)|
  {
    hide KeyLe, Root, Below;
    CompressKeepsForest(parent, c, parent');
    RootStep(parent, k);
    RootStep(parent', k);
    if k == c {
      RootStep(parent', Root(parent, c));
    } else if parent[k] != k {
      BelowShrinks(parent, k);
      CompressKeepsRoots(parent, c, parent', parent[k]);
    }
  }

  lemma CompressKeepsForest(parent: Parents, c: LeafKey, parent': Parents)
    requires Forest(parent) && c in parent && parent' == parent[c := Root(parent, c)]
    ensures Forest(parent')
  {
    hide KeyLe, Root;
    RootNotGreater(parent, c);
    forall k | k in parent' ensures Up(parent', k) { assert Up(parent, k); }
  }

  ghost predicate SameRoots(a: Parents, b: Parents) {
    Forest(a) && Forest(b) && a.Keys == b.Keys &&
    forall k {:trigger Root(a, k)} {:trigger Root(b, k)} :: k in a ==> Root(a, k) == Root(b, k)
  }

  method Find(parent: Parents, k: LeafKey) returns (root: LeafKey, parent': Parents)
    requires Forest(parent) && k in parent
    ensures root == Root(parent, k)
    ensures SameRoots(parent, parent')
  {
    hide KeyLe, Root, Below, Forest;
    root := k;
    while parent[root] != root
      invariant root in parent && Root(parent, root) == Root(parent, k)
      decreases |Below(parent, root)|
    {
      BelowShrinks(parent, root);
      RootStep(parent, root);
      ParentIn(parent, root);
      root := parent[root];
    }
    RootStep(parent, root);
    parent' := parent;
    var cur := k;
    while parent'[cur] != root
      invariant cur in parent' && SameRoots(parent, parent')
      invariant Root(parent', cur) == root
      decreases |Below(parent', cur)|
    {
      parent', cur := CompressOne(parent, parent', cur, root);
    }
  }

  lemma ParentIn(parent: Parents, k: LeafKey)
    requires Forest(parent) && k in parent
    ensures parent[k] in parent
  {
    assert Up(parent, k);
  }

  /** One turn of the compression loop: `cur` now points at the root, and the walk moves up. */
  method CompressOne(ghost parent: Parents, before: Parents, cur: LeafKey, root: LeafKey)
    returns (after: Parents, next: LeafKey)
    requires SameRoots(parent, before) && cur in before && Root(before, cur) == root && before[cur] != root
    ensures SameRoots(parent, after) && next in after && Root(after, next) == root
    ensures |Below(after, next)| < |Below(before, cur)|
  {
    hide KeyLe, Root, Forest;
    next := before[cur];
    RootStep(before, cur);
    BelowShrinks(before, cur);
    ParentIn(before, cur);
    after := before[cur := root];
    assert Below(after, next) == Below(before, next);
    CompressStep(parent, before, cur, after);
  }

  lemma CompressStep(parent: Parents, before: Parents, cur: LeafKey, after: Parents)
    requires SameRoots(parent, before) && cur in parent && after == before[cur := Root(parent, cur)]
    ensures SameRoots(parent, after)
  {
    hide KeyLe, Root, Forest;
    CompressKeepsForest(before, cur, after);
    forall x | x in parent ensures Root(parent, x) == Root(after, x) { CompressKeepsRoots(before, cur, after, x); }
  }

  /** Hanging root `hi` below root `lo` moves exactly the keys of `hi`. */
  lemma {:induction false} HangMovesRoots(parent: Parents, lo: LeafKey, hi: LeafKey, parent': Parents, k: LeafKey)
    requires Forest(parent) && k in parent && lo in parent && hi in parent && parent[lo] == lo && parent[hi] == hi
    requires lo != hi && KeyLe(lo, hi) && parent' == parent[hi := lo]
    ensures Forest(parent')
    ensures Root(parent', k) == if Root(parent, k) == hi then lo else Root(parent, k)
    decreases |Below(parent, k)|
  {
    hide KeyLe, Root, Below;
    forall x | x in parent' ensures Up(parent', x) { assert Up(parent, x); }
    RootStep(parent, k);
    RootStep(parent', k);
    if k == hi {
      RootStep(parent', lo);
    } else if parent[k] != k {
      BelowShrinks(parent, k);
      HangMovesRoots(parent, lo, hi, parent', parent[k]);
    }
  }

  // ----- connected keys ----------------------------------------------------------------------

  ghost predicate Adjacent(edges: seq<Edge>, a: LeafKey, b: LeafKey) { (a, b) in edges || (b, a) in edges }

  ghost predicate Path(keys: set<LeafKey>, edges: seq<Edge>, p: seq<LeafKey>) {
    && p != []
    && (forall i :: 0 <= i < |p| ==> p[i] in keys)
    && (forall i :: 0 <= i < |p| - 1 ==> Adjacent(edges, p[i], p[i + 1]))
  }

  ghost predicate Joins(keys: set<LeafKey>, edges: seq<Edge>, p: seq<LeafKey>, a: LeafKey, b: LeafKey) {
    Path(keys, edges, p) && p[0] == a && p[|p| - 1] == b
  }

  /** `a` and `b` are joined by edges between existing keys. */
  ghost predicate Linked(keys: set<LeafKey>, edges: seq<Edge>, a: LeafKey, b: LeafKey) {
    exists p :: Joins(keys, edges, p, a, b)
  }

  lemma LinkedSelf(keys: set<LeafKey>, edges: seq<Edge>, a: LeafKey)
    requires a in keys
    ensures Linked(keys, edges, a, a)
  {
    assert Joins(keys, edges, [a], a, a);
  }

  lemma LinkedKeys(keys: set<LeafKey>, edges: seq<Edge>, a: LeafKey, b: LeafKey)
    requires Linked(keys, edges, a, b)
    ensures a in keys && b in keys
  {
    var p :| Joins(keys, edges, p, a, b);
  }

  lemma LinkedSymmetric(keys: set<LeafKey>, edges: seq<Edge>, a: LeafKey, b: LeafKey)
    requires Linked(keys, edges, a, b)
    ensures Linked(keys, edges, b, a)
  {
    var p :| Joins(keys, edges, p, a, b);
    var q := seq(|p|, i requires 0 <= i < |p| => p[|p| - 1 - i]);
    forall i | 0 <= i < |q| - 1 ensures Adjacent(edges, q[i], q[i + 1]) {
      var j := |p| - 2 - i;
      assert Adjacent(edges, p[j], p[j + 1]);
    }
    assert Joins(keys, edges, q, b, a);
  }

  lemma LinkedTransitive(keys: set<LeafKey>, edges: seq<Edge>, a: LeafKey, b: LeafKey, c: LeafKey)
    requires Linked(keys, edges, a, b) && Linked(keys, edges, b, c)
    ensures Linked(keys, edges, a, c)
  {
    var p :| Joins(keys, edges, p, a, b);
    var q :| Joins(keys, edges, q, b, c);
    var r := p + q[1..];
    forall i | 0 <= i < |r| - 1 ensures Adjacent(edges, r[i], r[i + 1]) {
      if i < |p| - 1 {
        assert Adjacent(edges, p[i], p[i + 1]);
      } else {
        var j := i - (|p| - 1);
        assert r[i] == q[j] && r[i + 1] == q[j + 1];
        assert Adjacent(edges, q[j], q[j + 1]);
      }
    }
    assert Joins(keys, edges, r, a, c);
  }

  lemma LinkedByMore(keys: set<LeafKey>, edges: seq<Edge>, more: seq<Edge>, a: LeafKey, b: LeafKey)
    requires Linked(keys, edges, a, b)
    requires forall x, y :: Adjacent(edges, x, y) ==> Adjacent(more, x, y)
    ensures Linked(keys, more, a, b)
  {
    var p :| Joins(keys, edges, p, a, b);
    assert Joins(keys, more, p, a, b);
  }

  // ----- the forest tracks the components ------------------------------------------------------

  /** Every processed edge between existing keys has equal roots, and equal roots mean linked. */
  ghost predicate Tracks(parent: Parents, edges: seq<Edge>) {
    && Forest(parent)
    && (forall e :: e in edges && e.0 in parent && e.1 in parent ==> Root(parent, e.0) == Root(parent, e.1))
    && (forall x, y {:trigger Root(parent, x), Root(parent, y)} ::
          x in parent && y in parent && Root(parent, x) == Root(parent, y) ==> Linked(parent.Keys, edges, x, y))
  }

  lemma {:induction false} PathKeepsRoot(parent: Parents, edges: seq<Edge>, p: seq<LeafKey>)
    requires Tracks(parent, edges) && Path(parent.Keys, edges, p)
    ensures Root(parent, p[0]) == Root(parent, p[|p| - 1])
    decreases |p|
  {
    if |p| > 1 {
      assert Adjacent(edges, p[0], p[1]);
      var q := p[1..];
      assert Path(parent.Keys, edges, q) by {
        forall i | 0 <= i < |q| - 1 ensures Adjacent(edges, q[i], q[i + 1]) {
          assert Adjacent(edges, p[i + 1], p[i + 1 + 1]);
        }
      }
      PathKeepsRoot(parent, edges, q);
      assert (p[0], p[1]) in edges || (p[1], p[0]) in edges;
      assert (p[0], p[1]).0 == p[0] && (p[1], p[0]).0 == p[1];
    }
  }

  /** Same root exactly when linked. */
  lemma TracksExactly(parent: Parents, edges: seq<Edge>, a: LeafKey, b: LeafKey)
    requires Tracks(parent, edges) && a in parent && b in parent
    ensures Root(parent, a) == Root(parent, b) <==> Linked(parent.Keys, edges, a, b)
  {
    if Linked(parent.Keys, edges, a, b) {
      var p :| Joins(parent.Keys, edges, p, a, b);
      PathKeepsRoot(parent, edges, p);
    }
  }

  /** The root is the least key of its component. */
  lemma RootIsLeast(parent: Parents, edges: seq<Edge>, a: LeafKey, b: LeafKey)
    requires Tracks(parent, edges) && Linked(parent.Keys, edges, a, b)
    ensures a in parent && b in parent && KeyLe(Root(parent, a), b)
    ensures Linked(parent.Keys, edges, Root(parent, a), b)
  {
    LinkedKeys(parent.Keys, edges, a, b);
    TracksExactly(parent, edges, a, b);
    RootNotGreater(parent, b);
    TracksExactly(parent, edges, Root(parent, a), b);
  }

  lemma TracksSameRoots(parent: Parents, parent': Parents, edges: seq<Edge>)
    requires Tracks(parent, edges) && SameRoots(parent, parent')
    ensures Tracks(parent', edges)
  {
    hide Root, Linked, Forest;
  }

  lemma MoreAdjacent(edges: seq<Edge>, e: Edge)
    ensures forall x, y :: Adjacent(edges, x, y) ==> Adjacent(edges + [e], x, y)
    ensures Adjacent(edges + [e], e.0, e.1)
  {
  }

  /** An edge with a missing end is skipped. */
  lemma TracksSkipped(parent: Parents, edges: seq<Edge>, e: Edge)
    requires Tracks(parent, edges) && (e.0 !in parent || e.1 !in parent || Root(parent, e.0) == Root(parent, e.1))
    ensures Tracks(parent, edges + [e])
  {
    hide Root, Linked;
    MoreAdjacent(edges, e);
    forall x, y | x in parent && y in parent && Root(parent, x) == Root(parent, y)
      ensures Linked(parent.Keys, edges + [e], x, y)
    {
      LinkedByMore(parent.Keys, edges, edges + [e], x, y);
    }
  }

  /** `parent'` differs from `parent` in that the keys of root `hi` now have root `lo`. */
  ghost predicate Moved(parent: Parents, lo: LeafKey, hi: LeafKey, parent': Parents) {
    && Forest(parent) && Forest(parent') && parent'.Keys == parent.Keys
    && forall k {:trigger Root(parent', k)} {:trigger Root(parent, k)} ::
         k in parent ==> Root(parent', k) == if Root(parent, k) == hi then lo else Root(parent, k)
  }

  lemma HangMoves(parent: Parents, lo: LeafKey, hi: LeafKey, parent': Parents)
    requires Forest(parent) && lo in parent && hi in parent && parent[lo] == lo && parent[hi] == hi
    requires lo != hi && KeyLe(lo, hi) && parent' == parent[hi := lo]
    ensures Moved(parent, lo, hi, parent')
  {
    hide Root, KeyLe;
    HangMovesRoots(parent, lo, hi, parent', lo);
    forall k | k in parent
      ensures Root(parent', k) == if Root(parent, k) == hi then lo else Root(parent, k)
    {
      HangMovesRoots(parent, lo, hi, parent', k);
    }
  }

  /** An edge between two components joins them under the smaller root. */
  lemma TracksJoined(parent: Parents, edges: seq<Edge>, e: Edge, lo: LeafKey, hi: LeafKey, parent': Parents)
    requires Tracks(parent, edges) && e.0 in parent && e.1 in parent && Moved(parent, lo, hi, parent')
    requires (lo, hi) == (Root(parent, e.0), Root(parent, e.1)) || (lo, hi) == (Root(parent, e.1), Root(parent, e.0))
    ensures Tracks(parent', edges + [e])
  {
    hide Root, Linked, Forest;
    var more := edges + [e];
    forall d | d in more && d.0 in parent' && d.1 in parent' ensures Root(parent', d.0) == Root(parent', d.1) {
      if d in edges { assert Root(parent, d.0) == Root(parent, d.1); }
    }
    forall x, y | x in parent' && y in parent' && Root(parent', x) == Root(parent', y)
        ensures Linked(parent'.Keys, more, x, y) {
      JoinedLinks(parent, edges, e, lo, hi, parent', x, y);
    }
  }

  lemma JoinedLinks(
    parent: Parents, edges: seq<Edge>, e: Edge, lo: LeafKey, hi: LeafKey, parent': Parents, x: LeafKey, y: LeafKey)
    requires Tracks(parent, edges) && e.0 in parent && e.1 in parent && Moved(parent, lo, hi, parent')
    requires (lo, hi) == (Root(parent, e.0), Root(parent, e.1)) || (lo, hi) == (Root(parent, e.1), Root(parent, e.0))
    requires x in parent && y in parent && Root(parent', x) == Root(parent', y)
    ensures Linked(parent.Keys, edges + [e], x, y)
  {
    hide Root, Linked, Forest;
    if Root(parent, x) == Root(parent, y) {
      MoreAdjacent(edges, e);
      LinkedByMore(parent.Keys, edges, edges + [e], x, y);
    } else if Root(parent, x) == Root(parent, e.0) {
      LinkedAcross(parent, edges, e, x, e.0, e.1, y);
    } else {
      LinkedAcross(parent, edges, e, x, e.1, e.0, y);
    }
  }

  lemma LinkedAcross(parent: Parents, edges: seq<Edge>, e: Edge, x: LeafKey, a: LeafKey, b: LeafKey, y: LeafKey)
    requires Tracks(parent, edges) && x in parent && y in parent && a in parent && b in parent
    requires Root(parent, x) == Root(parent, a) && Root(parent, b) == Root(parent, y) && (e == (a, b) || e == (b, a))
    ensures Linked(parent.Keys, edges + [e], x, y)
  {
    hide Root, Linked, Forest;
    var keys, more := parent.Keys, edges + [e];
    MoreAdjacent(edges, e);
    LinkedByMore(keys, edges, more, x, a);
    LinkedByMore(keys, edges, more, b, y);
    LinkedEdge(keys, more, a, b);
    LinkedTransitive(keys, more, x, a, b);
    LinkedTransitive(keys, more, x, b, y);
  }

  lemma LinkedEdge(keys: set<LeafKey>, edges: seq<Edge>, a: LeafKey, b: LeafKey)
    requires a in keys && b in keys && Adjacent(edges, a, b)
    ensures Linked(keys, edges, a, b)
  {
    assert Joins(keys, edges, [a, b], a, b);
  }

  lemma TracksStart(keys: set<LeafKey>, parent: Parents)
    requires parent == map k | k in keys :: k
    ensures Tracks(parent, [])
  {
    forall k | k in parent ensures Up(parent, k) { KeyTotal(k, k); }
    forall x, y | x in parent && y in parent && Root(parent, x) == Root(parent, y)
        ensures Linked(parent.Keys, [], x, y) {
      LinkedSelf(parent.Keys, [], x);
    }
  }

  /** The edge loop of `merge`: afterwards roots are exactly the connected components. */
  method UniteAll(keys: set<LeafKey>, edges: seq<Edge>) returns (parent: Parents)
    ensures parent.Keys == keys && Tracks(parent, edges)
  {
    parent := map k | k in keys :: k;
    TracksStart(keys, parent);
    hide Tracks, Root, Forest, KeyLe;
    var i := 0;
    assert edges[..0] == [];
    while i < |edges|
      invariant 0 <= i <= |edges|
      invariant parent.Keys == keys && Tracks(parent, edges[..i])
    {
      parent := UniteOne(parent, edges[..i], edges[i]);
      assert edges[..i] + [edges[i]] == edges[..i + 1];
      i := i + 1;
    }
    assert edges[..i] == edges;
  }

  lemma TracksForest(parent: Parents, edges: seq<Edge>)
    requires Tracks(parent, edges)
    ensures Forest(parent)
  {
  }

  lemma SameRootsAt(a: Parents, b: Parents, k: LeafKey)
    requires SameRoots(a, b) && k in a
    ensures Forest(a) && Forest(b) && a.Keys == b.Keys && k in b && Root(a, k) == Root(b, k)
  {
  }

  method UniteOne(parent: Parents, ghost done: seq<Edge>, e: Edge) returns (parent': Parents)
    requires Tracks(parent, done)
    ensures parent'.Keys == parent.Keys && Tracks(parent', done + [e])
  {
    hide KeyLe, Root, Linked, Tracks, Forest, SameRoots, Moved;
    var (a, b) := e;
    TracksForest(parent, done);
    if a !in parent || b !in parent {
      TracksSkipped(parent, done, e);
      return parent;
    }
    var ra, rb, p1;
    ra, p1 := Find(parent, a);
    SameRootsAt(parent, p1, a);
    TracksSameRoots(parent, p1, done);
    rb, parent' := Find(p1, b);
    SameRootsAt(p1, parent', a);
    SameRootsAt(p1, parent', b);
    TracksSameRoots(p1, parent', done);
    if ra != rb {
      var lo, hi := if KeyLe(ra, rb) then ra else rb, if KeyLe(ra, rb) then rb else ra;
      KeyTotal(ra, rb);
      ghost var p2 := parent';
      parent' := parent'[hi := lo];
      HangMoves(p2, lo, hi, parent');
      TracksJoined(p2, done, e, lo, hi, parent');
    } else {
      TracksSkipped(parent', done, e);
    }
  }
}
