/**
  The health of all leaves at once: who holds whom up, the counts, the verdict, and which
  transitions a restart announces.
*/
module Rollup {
  import opened Prelude

  const U32_MAX: nat := 0xFFFF_FFFF

  datatype LeafState =
    | Ready
    | Planning
    | Applying
    | Failed(reason: string, since: Option<string>)
    | Stalled(state: string, since: Option<string>)
    | RateLimited(until: string)

  datatype LeafView = LeafView(name: string, state: LeafState, upstreams: seq<string>)

  type Views = map<string, LeafView>

  predicate Holding(s: LeafState) { s.Failed? || s.Stalled? || s.RateLimited? }

  // ----- who holds a leaf -------------------------------------------------------------------

  /** `u` is a known upstream of the known leaf `n`. */
  predicate Up(v: Views, n: string, u: string) { n in v && u in v && u in v[n].upstreams }

  ghost predicate Climb(v: Views, p: seq<string>) {
    |p| >= 2 && forall i :: 0 <= i < |p| - 1 ==> Up(v, p[i], p[i + 1])
  }

  ghost predicate Climbs(v: Views, p: seq<string>, n: string, h: string) {
    Climb(v, p) && p[0] == n && p[|p| - 1] == h
  }

  /** `h` is upstream of `n`, at any distance. */
  ghost predicate Reach(v: Views, n: string, h: string) { exists p :: Climbs(v, p, n, h) }

  /** The leaves that hold `n`: upstream of it, and themselves failed, stalled or rate-limited. */
  ghost function Holders(v: Views, n: string): set<string> { set h | h in v && Holding(v[h].state) && Reach(v, n, h) }

  /** No cycle is upstream of `n`. */
  ghost predicate AcyclicFrom(v: Views, n: string) {
    !Reach(v, n, n) && forall m :: Reach(v, n, m) ==> !Reach(v, m, m)
  }

  lemma ReachOne(v: Views, n: string, u: string)
    requires Up(v, n, u)
    ensures Reach(v, n, u)
  {
    assert Climbs(v, [n, u], n, u);
  }

  lemma ReachOver(v: Views, a: string, b: string, c: string)
    requires Reach(v, a, b) && Reach(v, b, c)
    ensures Reach(v, a, c)
  {
    hide Up;
    var p :| Climbs(v, p, a, b);
    var q :| Climbs(v, q, b, c);
    var r := p + q[1..];
    forall i | 0 <= i < |r| - 1 ensures Up(v, r[i], r[i + 1]) {
      if i < |p| - 1 {
        assert Up(v, p[i], p[i + 1]);
      } else {
        var j := i - (|p| - 1);
        assert r[i] == q[j] && r[i + 1] == q[j + 1];
        assert Up(v, q[j], q[j + 1]);
      }
    }
    assert Climbs(v, r, a, c);
  }

  /** What is upstream is an upstream, or upstream of one. */
  lemma ReachFirst(v: Views, n: string, h: string) returns (u: string)
    requires Reach(v, n, h)
    ensures Up(v, n, u) && (u == h || Reach(v, u, h))
  {
    hide Up;
    var p :| Climbs(v, p, n, h);
    u := p[1];
    assert Up(v, p[0], p[0 + 1]);
    if |p| > 2 {
      var q := p[1..];
      forall i | 0 <= i < |q| - 1 ensures Up(v, q[i], q[i + 1]) { assert Up(v, p[i + 1], p[i + 1 + 1]); }
      assert Climbs(v, q, u, h);
    }
  }

  lemma AcyclicUp(v: Views, n: string, u: string)
    requires AcyclicFrom(v, n) && Up(v, n, u)
    ensures AcyclicFrom(v, u)
  {
    hide Reach;
    ReachOne(v, n, u);
    forall m | Reach(v, u, m) ensures !Reach(v, m, m) { ReachOver(v, n, u, m); }
  }

  /** What the upstreams `ups` contribute. */
  ghost predicate Contributed(v: Views, ups: seq<string>, h: string) {
    exists i :: 0 <= i < |ups| && ups[i] in v && ((h == ups[i] && Holding(v[h].state)) || h in Holders(v, ups[i]))
  }

  /** The holders of a leaf are its holding upstreams and theirs. */
  lemma HoldersAreContributed(v: Views, n: string, h: string)
    requires n in v
    ensures h in Holders(v, n) <==> Contributed(v, v[n].upstreams, h)
  {
    hide Reach;
    var ups := v[n].upstreams;
    if h in Holders(v, n) {
      var u := ReachFirst(v, n, h);
      var i :| 0 <= i < |ups| && ups[i] == u;
      assert u in v && ((h == ups[i] && Holding(v[h].state)) || h in Holders(v, ups[i]));
    }
    if Contributed(v, ups, h) {
      var i :| 0 <= i < |ups| && ups[i] in v && ((h == ups[i] && Holding(v[h].state)) || h in Holders(v, ups[i]));
      assert Up(v, n, ups[i]);
      ReachOne(v, n, ups[i]);
      if h in Holders(v, ups[i]) { ReachOver(v, n, ups[i], h); }
    }
  }

  lemma UnknownHasNoHolders(v: Views, n: string)
    requires n !in v
    ensures Holders(v, n) == {}
  {
    forall h ensures h !in Holders(v, n) {
      if Reach(v, n, h) { var u := ReachFirst(v, n, h); }
    }
  }

  type Memo = map<string, set<string>>

  /** What is remembered is sound, and complete for every leaf without a cycle upstream. */
  ghost predicate MemoOk(v: Views, memo: Memo) { forall k :: k in memo ==> EntryOk(v, k, memo[k]) }

  ghost predicate EntryOk(v: Views, k: string, hs: set<string>) {
    hs <= Holders(v, k) && (AcyclicFrom(v, k) ==> hs == Holders(v, k))
  }

  ghost predicate PathOk(v: Views, path: set<string>, n: string) { forall s :: s in path ==> Reach(v, s, n) }

  /** The memoised search: the holders found and the memo afterwards.  It ends because the path only grows by
      known leaves. */
  function Search(n: string, v: Views, memo: Memo, path: set<string>): (set<string>, Memo)
    decreases |v.Keys - path|, 0, 0
  {
    if n in memo then (memo[n], memo)
    else if n in path then ({}, memo)
    else if n !in v then ({}, memo[n := {}])
    else
      LessLeft(v, path, n);
      var (out, memo') := SearchUps(v[n].upstreams, {}, v, memo, path + {n});
      (out, memo'[n := out])
  }

  function SearchUps(ups: seq<string>, out: set<string>, v: Views, memo: Memo, path: set<string>): (set<string>, Memo)
    decreases |v.Keys - path|, 1, |ups|
  {
    if ups == [] then (out, memo)
    else if ups[0] !in v then SearchUps(ups[1..], out, v, memo, path)
    else
      var (more, memo') := Search(ups[0], v, memo, path);
      SearchUps(ups[1..], (if Holding(v[ups[0]].state) then out + {ups[0]} else out) + more, v, memo', path)
  }

  /** `holders_of`, with the memo and the path passed in and out. */
  method HoldersOf(n: string, v: Views, memo: Memo, path: set<string>)
      returns (out: set<string>, memo': Memo, path': set<string>)
    ensures (out, memo') == Search(n, v, memo, path) && path' == path
    decreases |v.Keys - path|
  {
    memo', path' := memo, path;
    if n in memo { return memo[n], memo', path'; }
    if n in path { return {}, memo', path'; }
    path' := path' + {n};
    out := {};
    if n in v {
      LessLeft(v, path, n);
      ghost var inner := path';
      var ups, i := v[n].upstreams, 0;
      assert ups[0..] == ups;
      hide Search;
      while i < |ups|
        invariant 0 <= i <= |ups| && path' == inner
        invariant SearchUps(ups[i..], out, v, memo', inner) == SearchUps(ups, {}, v, memo, inner)
      {
        var u := ups[i];
        assert ups[i..][0] == u && ups[i..][1..] == ups[i + 1..];
        if u in v {
          var more, memo'' := {}, memo';
          more, memo'', path' := HoldersOf(u, v, memo', path');
          if Holding(v[u].state) { out := out + {u}; }
          out, memo' := out + more, memo'';
        }
        i := i + 1;
      }
      assert ups[i..] == [];
      SearchKnown(n, v, memo, path);
    } else {
      SearchUnknown(n, v, memo, path);
    }
    path' := path' - {n};
    memo' := memo'[n := out];
  }

  lemma SearchKnown(n: string, v: Views, memo: Memo, path: set<string>)
    requires n !in memo && n !in path && n in v
    ensures var r := SearchUps(v[n].upstreams, {}, v, memo, path + {n});
            Search(n, v, memo, path) == (r.0, r.1[n := r.0])
  {
  }

  lemma SearchUnknown(n: string, v: Views, memo: Memo, path: set<string>)
    requires n !in memo && n !in path && n !in v
    ensures Search(n, v, memo, path) == ({}, memo[n := {}])
  {
  }

  /** The search is sound always, and complete where no cycle is upstream, even when the memo holds results that a
      cycle cut short. */
  lemma {:induction false} SearchOk(n: string, v: Views, memo: Memo, path: set<string>)
    requires MemoOk(v, memo) && PathOk(v, path, n)
    ensures EntryOk(v, n, Search(n, v, memo, path).0) && MemoOk(v, Search(n, v, memo, path).1)
    decreases |v.Keys - path|, 0, 0
  {
    hide MemoOk, EntryOk, PathOk, Holders, AcyclicFrom, SearchUps;
    if n in memo {
      Remembered(v, memo, n);
    } else if n in path {
      OnPath(v, path, n);
    } else if n !in v {
      NoEntry(v, n);
      Remember(v, memo, n, {});
    } else {
      var ups := v[n].upstreams;
      LessLeft(v, path, n);
      NothingYet(v, n);
      assert ups[..0] == [] && ups[0..] == ups;
      SearchUpsOk(n, 0, {}, v, memo, path);
      var (out, memo') := SearchUps(ups, {}, v, memo, path + {n});
      SoFarIsAll(v, n, out);
      Remember(v, memo', n, out);
    }
  }

  lemma {:induction false} SearchUpsOk(n: string, i: nat, out: set<string>, v: Views, memo: Memo, path: set<string>)
    requires n in v && n !in path && i <= |v[n].upstreams| && MemoOk(v, memo) && PathOk(v, path, n)
    requires SoFar(v, n, v[n].upstreams[..i], out)
    ensures var r := SearchUps(v[n].upstreams[i..], out, v, memo, path + {n});
            SoFar(v, n, v[n].upstreams, r.0) && MemoOk(v, r.1)
    decreases |v.Keys - (path + {n})|, 1, |v[n].upstreams| - i
  {
    hide MemoOk, EntryOk, PathOk, Holders, AcyclicFrom, Search, SoFar;
    var ups := v[n].upstreams;
    if i == |ups| {
      assert ups[i..] == [] && ups[..i] == ups;
    } else {
      var u := ups[i];
      assert ups[i..][0] == u && ups[i..][1..] == ups[i + 1..] && ups[..i + 1] == ups[..i] + [u];
      if u in v {
        PathGrows(v, path, n, u);
        SearchOk(u, v, memo, path + {n});
        var (more, memo') := Search(u, v, memo, path + {n});
        OneMore(v, n, ups[..i], out, u, more);
        SearchUpsOk(n, i + 1, (if Holding(v[u].state) then out + {u} else out) + more, v, memo', path);
      } else {
        Unknown(v, n, ups[..i], out, u);
        SearchUpsOk(n, i + 1, out, v, memo, path);
      }
    }
  }

  /** `out` is what the upstreams `ups` of `n` contribute: soundly, and fully when `n` has no cycle upstream. */
  ghost predicate SoFar(v: Views, n: string, ups: seq<string>, out: set<string>) {
    && (forall h :: h in out ==> Contributed(v, ups, h))
    && (AcyclicFrom(v, n) ==> forall h :: Contributed(v, ups, h) ==> h in out)
  }

  lemma Remembered(v: Views, memo: Memo, n: string)
    requires MemoOk(v, memo) && n in memo
    ensures EntryOk(v, n, memo[n])
  {
  }

  lemma Remember(v: Views, memo: Memo, n: string, out: set<string>)
    requires MemoOk(v, memo) && EntryOk(v, n, out)
    ensures MemoOk(v, memo[n := out])
  {
    hide EntryOk;
  }

  /** A leaf met again on its own path has a cycle upstream, so the cut is no loss of completeness. */
  lemma OnPath(v: Views, path: set<string>, n: string)
    requires PathOk(v, path, n) && n in path
    ensures EntryOk(v, n, {})
  {
    hide Reach, Holders;
  }

  lemma NoEntry(v: Views, n: string)
    requires n !in v
    ensures EntryOk(v, n, {})
  {
    hide Holders;
    UnknownHasNoHolders(v, n);
  }

  lemma NothingYet(v: Views, n: string)
    requires n in v
    ensures SoFar(v, n, v[n].upstreams[..0], {})
  {
  }

  lemma PathGrows(v: Views, path: set<string>, n: string, u: string)
    requires PathOk(v, path, n) && Up(v, n, u)
    ensures PathOk(v, path + {n}, u)
  {
    hide Reach;
    ReachOne(v, n, u);
    forall s | s in path + {n} ensures Reach(v, s, u) {
      if s in path { ReachOver(v, s, n, u); }
    }
  }

  lemma LessLeft(v: Views, path: set<string>, n: string)
    requires n in v && n !in path
    ensures |v.Keys - (path + {n})| < |v.Keys - path|
  {
    var big, small := v.Keys - path, v.Keys - (path + {n});
    assert big == small + {n} && n !in small;
  }

  lemma ContributedStep(v: Views, ups: seq<string>, u: string, h: string)
    ensures Contributed(v, ups + [u], h) <==>
            Contributed(v, ups, h) || (u in v && ((h == u && Holding(v[h].state)) || h in Holders(v, u)))
  {
    hide Holders;
    var more := ups + [u];
    if Contributed(v, ups, h) {
      var i :| 0 <= i < |ups| && ups[i] in v && ((h == ups[i] && Holding(v[h].state)) || h in Holders(v, ups[i]));
      assert more[i] == ups[i];
    }
    if Contributed(v, more, h) {
      var i :| 0 <= i < |more| && more[i] in v && ((h == more[i] && Holding(v[h].state)) || h in Holders(v, more[i]));
      if i < |ups| { assert ups[i] == more[i]; }
    }
    if u in v { assert more[|ups|] == u; }
  }

  lemma OneMore(v: Views, n: string, ups: seq<string>, out: set<string>, u: string, more: set<string>)
    requires SoFar(v, n, ups, out) && Up(v, n, u) && EntryOk(v, u, more)
    ensures SoFar(v, n, ups + [u], (if Holding(v[u].state) then out + {u} else out) + more)
  {
    hide Holders, Contributed, AcyclicFrom;
    forall h ensures Contributed(v, ups + [u], h) <==>
                     Contributed(v, ups, h) || (u in v && ((h == u && Holding(v[h].state)) || h in Holders(v, u))) {
      ContributedStep(v, ups, u, h);
    }
    if AcyclicFrom(v, n) { AcyclicUp(v, n, u); }
  }

  lemma Unknown(v: Views, n: string, ups: seq<string>, out: set<string>, u: string)
    requires SoFar(v, n, ups, out) && u !in v
    ensures SoFar(v, n, ups + [u], out)
  {
    hide Holders, Contributed, AcyclicFrom;
    forall h ensures Contributed(v, ups + [u], h) <==> Contributed(v, ups, h) { ContributedStep(v, ups, u, h); }
  }

  lemma SoFarIsAll(v: Views, n: string, out: set<string>)
    requires n in v && SoFar(v, n, v[n].upstreams, out)
    ensures EntryOk(v, n, out)
  {
    hide Holders, Contributed, AcyclicFrom;
    forall h ensures h in Holders(v, n) <==> Contributed(v, v[n].upstreams, h) { HoldersAreContributed(v, n, h); }
  }

  // ----- a query of its own is never cut short ----------------------------------------------------

  /** What a search from `n` adds to the memo is closed upstream, up to the path, and everything met on the way is
      in the answer. */
  ghost predicate Swept(v: Views, memo: Memo, memo': Memo, path: set<string>, out: set<string>) {
    && (forall k :: k in memo ==> k in memo' && memo'[k] == memo[k])
    && (forall k, u {:trigger Up(v, k, u)} :: k in memo' && k !in memo && Up(v, k, u) ==>
        Met(v, memo, memo', path, out, u))
  }

  ghost predicate Met(v: Views, memo: Memo, memo': Memo, path: set<string>, out: set<string>, u: string) {
    && (u in memo' || u in path)
    && (u in v && Holding(v[u].state) ==> u in out)
    && (u in memo ==> memo[u] <= out)
  }

  lemma SweptNothing(v: Views, memo: Memo, path: set<string>, out: set<string>)
    ensures Swept(v, memo, memo, path, out)
  {
    hide Met, Up;
  }

  lemma MetStays(v: Views, memo: Memo, m1: Memo, m2: Memo, path: set<string>, out: set<string>, more: set<string>,
      u: string)
    requires Met(v, memo, m1, path, out, u) && out <= more && forall k :: k in m1 ==> k in m2
    ensures Met(v, memo, m2, path, more, u)
  {
  }

  /** A leaf met against the later memo is met against the earlier one. */
  lemma MetEarlier(v: Views, memo: Memo, m1: Memo, m2: Memo, path: set<string>, out: set<string>, more: set<string>,
      u: string)
    requires Met(v, m1, m2, path, out, u) && out <= more && forall k :: k in memo ==> k in m1 && m1[k] == memo[k]
    ensures Met(v, memo, m2, path, more, u)
  {
  }

  lemma SweptTwice(v: Views, memo: Memo, m1: Memo, m2: Memo, path: set<string>, out: set<string>, more: set<string>,
      all: set<string>)
    requires Swept(v, memo, m1, path, out) && Swept(v, m1, m2, path, more) && out <= all && more <= all
    ensures Swept(v, memo, m2, path, all)
  {
    hide Met, Up;
    forall k, u | k in m2 && k !in memo && Up(v, k, u) ensures Met(v, memo, m2, path, all, u) {
      if k in m1 {
        MetStays(v, memo, m1, m2, path, out, all, u);
      } else {
        MetEarlier(v, memo, m1, m2, path, more, all, u);
      }
    }
  }

  /** Closing the frame of `n`: it leaves the path and enters the memo. */
  lemma SweptClose(v: Views, memo: Memo, m1: Memo, path: set<string>, out: set<string>, n: string)
    requires n in v && n !in memo && Swept(v, memo, m1, path + {n}, out)
    requires forall u :: Up(v, n, u) ==> Met(v, memo, m1, path + {n}, out, u)
    ensures Swept(v, memo, m1[n := out], path, out)
  {
    hide Up;
    var m2 := m1[n := out];
    forall k, u | k in m2 && k !in memo && Up(v, k, u) ensures Met(v, memo, m2, path, out, u) {
      assert k == n || k in m1;
      assert Met(v, memo, m1, path + {n}, out, u);
    }
  }

  lemma {:induction false} SearchSweeps(n: string, v: Views, memo: Memo, path: set<string>)
    ensures var r := Search(n, v, memo, path);
            Swept(v, memo, r.1, path, r.0) && (n in r.1 || n in path) && (n in memo ==> r.0 == memo[n])
    decreases |v.Keys - path|, 0, 0
  {
    hide Swept, SearchUps, Met, Up;
    if n in memo || n in path {
      SweptNothing(v, memo, path, Search(n, v, memo, path).0);
    } else if n !in v {
      SweptUnknown(v, memo, path, n);
    } else {
      var ups := v[n].upstreams;
      LessLeft(v, path, n);
      SweptNothing(v, memo, path + {n}, {});
      assert ups[0..] == ups;
      SearchUpsSweeps(n, 0, {}, v, memo, memo, path);
      var (out, memo') := SearchUps(ups, {}, v, memo, path + {n});
      UpsMet(v, memo, memo', path + {n}, out, n);
      SweptClose(v, memo, memo', path, out, n);
    }
  }

  lemma SweptUnknown(v: Views, memo: Memo, path: set<string>, n: string)
    requires n !in v && n !in memo
    ensures Swept(v, memo, memo[n := {}], path, {})
  {
  }

  lemma UpsMet(v: Views, memo: Memo, memo': Memo, path: set<string>, out: set<string>, n: string)
    requires n in v
    requires forall i :: 0 <= i < |v[n].upstreams| && v[n].upstreams[i] in v ==>
            Met(v, memo, memo', path, out, v[n].upstreams[i])
    ensures forall u :: Up(v, n, u) ==> Met(v, memo, memo', path, out, u)
  {
    hide Met;
  }

  lemma {:induction false} SearchUpsSweeps(n: string, i: nat, out: set<string>, v: Views, memo: Memo, m1: Memo,
      path: set<string>)
    requires n in v && n !in path && i <= |v[n].upstreams| && Swept(v, memo, m1, path + {n}, out)
    requires forall j :: 0 <= j < i && v[n].upstreams[j] in v ==> Met(v, memo, m1, path + {n}, out, v[n].upstreams[j])
    ensures var r := SearchUps(v[n].upstreams[i..], out, v, m1, path + {n});
            && Swept(v, memo, r.1, path + {n}, r.0)
            && forall j :: 0 <= j < |v[n].upstreams| && v[n].upstreams[j] in v ==>
                 Met(v, memo, r.1, path + {n}, r.0, v[n].upstreams[j])
    decreases |v.Keys - (path + {n})|, 1, |v[n].upstreams| - i
  {
    hide Swept, Search, Met, Up;
    var ups, inner := v[n].upstreams, path + {n};
    if i == |ups| {
      assert ups[i..] == [];
    } else {
      var u := ups[i];
      assert ups[i..][0] == u && ups[i..][1..] == ups[i + 1..];
      if u in v {
        SearchSweeps(u, v, m1, inner);
        var (more, m2) := Search(u, v, m1, inner);
        var all := (if Holding(v[u].state) then out + {u} else out) + more;
        SweptTwice(v, memo, m1, m2, inner, out, more, all);
        SweptKeeps(v, m1, m2, inner, more);
        SweptKeeps(v, memo, m1, inner, out);
        forall j | 0 <= j < i && ups[j] in v ensures Met(v, memo, m2, inner, all, ups[j]) {
          MetStays(v, memo, m1, m2, inner, out, all, ups[j]);
        }
        NowMet(v, memo, m1, m2, inner, all, u);
        SearchUpsSweeps(n, i + 1, all, v, memo, m2, path);
      } else {
        SearchUpsSweeps(n, i + 1, out, v, memo, m1, path);
      }
    }
  }

  lemma SweptKeeps(v: Views, memo: Memo, memo': Memo, path: set<string>, out: set<string>)
    requires Swept(v, memo, memo', path, out)
    ensures forall k :: k in memo ==> k in memo' && memo'[k] == memo[k]
  {
    hide Met, Up;
  }

  lemma NowMet(v: Views, memo: Memo, m1: Memo, m2: Memo, path: set<string>, all: set<string>, u: string)
    requires u in m2 || u in path
    requires u in v && Holding(v[u].state) ==> u in all
    requires u in m1 ==> m1[u] <= all
    requires forall k :: k in memo ==> k in m1 && m1[k] == memo[k]
    ensures Met(v, memo, m2, path, all, u)
  {
  }

  /** A query with an empty path finds every holder, cycles or not, if what the memo already says of the leaves
      upstream is right.  So the first leaf judged is never short of a holder. */
  lemma OwnQueryIsComplete(n: string, v: Views, memo: Memo)
    requires MemoOk(v, memo)
    requires forall k :: k in memo && (k == n || Reach(v, n, k)) ==> memo[k] == Holders(v, k)
    ensures Search(n, v, memo, {}).0 == Holders(v, n)
  {
    hide MemoOk, EntryOk, Search, Reach, Met;
    SearchOk(n, v, memo, {}) by { NoPath(v, n); }
    var (out, memo') := Search(n, v, memo, {});
    SearchSweeps(n, v, memo, {});
    EntrySound(v, n, out);
    if n !in memo {
      forall h | h in Holders(v, n) ensures h in out { FoundOnTheWay(v, memo, memo', out, n, n, h); }
    }
  }

  lemma NoPath(v: Views, n: string)
    ensures PathOk(v, {}, n)
  {
  }

  lemma EntrySound(v: Views, n: string, out: set<string>)
    requires EntryOk(v, n, out)
    ensures out <= Holders(v, n)
  {
    hide Holders;
  }

  /** From a newly remembered leaf `k`, every holder upstream was put in the answer. */
  lemma {:induction false} FoundOnTheWay(v: Views, memo: Memo, memo': Memo, out: set<string>, n: string, k: string,
      h: string)
    requires Swept(v, memo, memo', {}, out) && k in memo' && k !in memo && (k == n || Reach(v, n, k))
    requires forall k :: k in memo && (k == n || Reach(v, n, k)) ==> memo[k] == Holders(v, k)
    requires h in v && Holding(v[h].state) && Reach(v, k, h)
    ensures h in out
  {
    var p :| Climbs(v, p, k, h);
    hide Reach, Swept, Holders, Met, Up;
    FoundAlong(v, memo, memo', out, n, p);
  }

  lemma {:induction false} FoundAlong(v: Views, memo: Memo, memo': Memo, out: set<string>, n: string, p: seq<string>)
    requires Climb(v, p) && Swept(v, memo, memo', {}, out)
    requires p[0] in memo' && p[0] !in memo && (p[0] == n || Reach(v, n, p[0]))
    requires forall k :: k in memo && (k == n || Reach(v, n, k)) ==> memo[k] == Holders(v, k)
    requires p[|p| - 1] in v && Holding(v[p[|p| - 1]].state)
    ensures p[|p| - 1] in out
    decreases |p|
  {
    hide Reach, Holders, Up;
    var k, u, h := p[0], p[0 + 1], p[|p| - 1];
    assert Up(v, k, u);
    assert Met(v, memo, memo', {}, out, u);
    if |p| > 2 {
      ReachOne(v, k, u);
      if k != n { ReachOver(v, n, k, u); }
      var q := p[1..];
      forall i | 0 <= i < |q| - 1 ensures Up(v, q[i], q[i + 1]) { assert Up(v, p[i + 1], p[i + 1 + 1]); }
      if u in memo {
        HolderAlong(v, q);
      } else {
        FoundAlong(v, memo, memo', out, n, q);
      }
    }
  }

  lemma HolderAlong(v: Views, q: seq<string>)
    requires Climb(v, q) && q[|q| - 1] in v && Holding(v[q[|q| - 1]].state)
    ensures q[|q| - 1] in Holders(v, q[0])
  {
    assert Climbs(v, q, q[0], q[|q| - 1]);
  }

  // ----- exactly what a query finds ----------------------------------------------------------------------

  /** A climb that stays clear of `avoid`, its start included. */
  ghost predicate Clear(v: Views, avoid: set<string>, p: seq<string>) {
    && p != []
    && (forall i :: 0 <= i < |p| ==> p[i] !in avoid)
    && forall i :: 0 <= i < |p| - 1 ==> Up(v, p[i], p[i + 1])
  }

  ghost predicate ClearTo(v: Views, avoid: set<string>, p: seq<string>, n: string, x: string) {
    Clear(v, avoid, p) && p[0] == n && p[|p| - 1] == x
  }

  ghost predicate Clears(v: Views, avoid: set<string>, n: string, x: string) { exists p :: ClearTo(v, avoid, p, n, x) }

  /** `h` is the holding upstream `u` itself, or the memo has it for `u`. */
  ghost predicate Tells(v: Views, memo: Memo, u: string, h: string) {
    (h == u && u in v && Holding(v[u].state)) || (u in memo && h in memo[u])
  }

  /** From `n`, clear of the memo and the path, the search comes to `x`, whose upstream `u` tells it of `h`. */
  ghost predicate TellsFrom(v: Views, memo: Memo, path: set<string>, n: string, h: string, x: string, u: string) {
    Clears(v, memo.Keys + path, n, x) && Up(v, x, u) && Tells(v, memo, u, h)
  }

  ghost predicate Yields(v: Views, memo: Memo, path: set<string>, n: string, h: string) {
    exists x, u :: TellsFrom(v, memo, path, n, h, x, u)
  }

  lemma ClearSelf(v: Views, avoid: set<string>, n: string)
    requires n !in avoid
    ensures Clears(v, avoid, n, n)
  {
    assert ClearTo(v, avoid, [n], n, n);
  }

  lemma ClearStep(v: Views, avoid: set<string>, n: string, u: string, x: string)
    requires n !in avoid && Up(v, n, u) && Clears(v, avoid, u, x)
    ensures Clears(v, avoid, n, x)
  {
    hide Up;
    var p :| ClearTo(v, avoid, p, u, x);
    var q := [n] + p;
    forall i | 0 <= i < |q| - 1 ensures Up(v, q[i], q[i + 1]) {
      if i > 0 { assert Up(v, p[i - 1], p[i - 1 + 1]); }
    }
    assert ClearTo(v, avoid, q, n, x);
  }

  lemma YieldsDirect(v: Views, memo: Memo, path: set<string>, n: string, u: string, h: string)
    requires n !in memo && n !in path && Up(v, n, u) && Tells(v, memo, u, h)
    ensures Yields(v, memo, path, n, h)
  {
    ClearSelf(v, memo.Keys + path, n);
    hide Clears, Up, Tells;
    assert TellsFrom(v, memo, path, n, h, n, u);
  }

  lemma YieldsUp(v: Views, memo: Memo, path: set<string>, n: string, u: string, h: string)
    requires n !in memo && n !in path && Up(v, n, u) && Yields(v, memo, path, u, h)
    ensures Yields(v, memo, path, n, h)
  {
    hide Clears, Up, Tells;
    var x, w :| TellsFrom(v, memo, path, u, h, x, w);
    ClearStep(v, memo.Keys + path, n, u, x);
    assert TellsFrom(v, memo, path, n, h, x, w);
  }

  ghost predicate YieldsAll(v: Views, memo: Memo, path: set<string>, n: string, out: set<string>) {
    forall h :: h in out ==> Yields(v, memo, path, n, h)
  }

  /** `m1` is `memo` with entries that a query from `memo` and `path` can make. */
  ghost predicate Based(v: Views, memo: Memo, path: set<string>, m1: Memo) {
    && (forall k :: k in memo ==> k in m1 && m1[k] == memo[k])
    && forall k :: k in m1 && k !in memo ==> k !in path && YieldsAll(v, memo, path, k, m1[k])
  }

  /** What one upstream adds. */
  lemma YieldsMore(v: Views, memo: Memo, path: set<string>, n: string, u: string, out: set<string>, more: set<string>)
    requires n !in memo && n !in path && Up(v, n, u) && YieldsAll(v, memo, path, n, out)
    requires u in memo ==> more == memo[u]
    requires u !in memo && u in path ==> more == {}
    requires u !in memo && u !in path ==> YieldsAll(v, memo, path, u, more)
    ensures YieldsAll(v, memo, path, n, (if Holding(v[u].state) then out + {u} else out) + more)
  {
    hide Yields;
    if Holding(v[u].state) { YieldsDirect(v, memo, path, n, u, u); }
    forall h | h in more ensures Yields(v, memo, path, n, h) {
      if u in memo { YieldsDirect(v, memo, path, n, u, h); } else { YieldsUp(v, memo, path, n, u, h); }
    }
  }

  lemma {:induction false} SearchWithin(n: string, v: Views, m1: Memo, p1: set<string>, memo: Memo, path: set<string>)
    requires Based(v, memo, path, m1) && path <= p1
    ensures var r := Search(n, v, m1, p1);
            && Based(v, memo, path, r.1)
            && (n in memo ==> r.0 == memo[n])
            && (n !in memo && n in path ==> r.0 == {})
            && (n !in memo && n !in path ==> YieldsAll(v, memo, path, n, r.0))
    decreases |v.Keys - p1|, 0, 0
  {
    hide YieldsAll, SearchUps;
    YieldsNone(v, memo, path, n);
    if n !in m1 && n !in p1 {
      if n !in v {
        BasedAgain(v, memo, path, m1, n, {});
      } else {
        LessLeft(v, p1, n);
        var ups := v[n].upstreams;
        assert ups[0..] == ups;
        SearchUpsWithin(n, 0, {}, v, m1, p1, memo, path);
        var (out, m2) := SearchUps(ups, {}, v, m1, p1 + {n});
        BasedAgain(v, memo, path, m2, n, out);
      }
    }
  }

  lemma YieldsNone(v: Views, memo: Memo, path: set<string>, n: string)
    ensures YieldsAll(v, memo, path, n, {})
  {
  }

  lemma BasedAgain(v: Views, memo: Memo, path: set<string>, m2: Memo, n: string, out: set<string>)
    requires Based(v, memo, path, m2) && n !in memo && n !in path && YieldsAll(v, memo, path, n, out)
    ensures Based(v, memo, path, m2[n := out])
  {
    hide YieldsAll;
  }

  lemma {:induction false} SearchUpsWithin(
    n: string, i: nat, out: set<string>, v: Views, m1: Memo, p1: set<string>, memo: Memo, path: set<string>)
    requires n in v && n !in memo && n !in p1 && path <= p1 && i <= |v[n].upstreams|
    requires Based(v, memo, path, m1) && YieldsAll(v, memo, path, n, out)
    ensures var r := SearchUps(v[n].upstreams[i..], out, v, m1, p1 + {n});
            Based(v, memo, path, r.1) && YieldsAll(v, memo, path, n, r.0)
    decreases |v.Keys - (p1 + {n})|, 1, |v[n].upstreams| - i
  {
    hide Based, YieldsAll, Search;
    var ups := v[n].upstreams;
    if i == |ups| {
      assert ups[i..] == [];
    } else {
      var u := ups[i];
      assert ups[i..][0] == u && ups[i..][1..] == ups[i + 1..];
      if u in v {
        SearchWithin(u, v, m1, p1 + {n}, memo, path);
        var (more, m2) := Search(u, v, m1, p1 + {n});
        YieldsMore(v, memo, path, n, u, out, more);
        SearchUpsWithin(n, i + 1, (if Holding(v[u].state) then out + {u} else out) + more, v, m2, p1, memo, path);
      } else {
        SearchUpsWithin(n, i + 1, out, v, m1, p1, memo, path);
      }
    }
  }

  lemma {:induction false} SweptAlong(
    v: Views, memo: Memo, memo': Memo, path: set<string>, out: set<string>, p: seq<string>)
    requires Swept(v, memo, memo', path, out) && Clear(v, memo.Keys + path, p) && p[0] in memo'
    ensures p[|p| - 1] in memo' && p[|p| - 1] !in memo
    decreases |p|
  {
    hide Up;
    assert p[0] !in memo.Keys + path;
    if |p| > 1 {
      var q := p[1..];
      assert Up(v, p[0], p[0 + 1]);
      assert Met(v, memo, memo', path, out, p[1]);
      forall i | 0 <= i < |q| - 1 ensures Up(v, q[i], q[i + 1]) { assert Up(v, p[i + 1], p[i + 1 + 1]); }
      assert q[0] !in memo.Keys + path;
      SweptAlong(v, memo, memo', path, out, q);
    }
  }

  /** What a query answers, from any memo and on any path, cycles or not: the memo's own entry; nothing on the path; and
      otherwise exactly what is told by the upstreams of the leaves it can climb to clear of the memo and the path. */
  lemma SearchExactly(n: string, v: Views, memo: Memo, path: set<string>)
    ensures n in memo ==> Search(n, v, memo, path).0 == memo[n]
    ensures n !in memo && n in path ==> Search(n, v, memo, path).0 == {}
    ensures n !in memo && n !in path ==> forall h :: h in Search(n, v, memo, path).0 <==> Yields(v, memo, path, n, h)
  {
    hide *;
    BasedOnItself(v, memo, path);
    SearchWithin(n, v, memo, path, memo, path);
    SearchSweeps(n, v, memo, path);
    var (out, memo') := Search(n, v, memo, path);
    if n !in memo && n !in path {
      AllYielded(v, memo, path, n, out);
      forall h | Yields(v, memo, path, n, h) ensures h in out { YieldIsFound(v, memo, memo', path, out, n, h); }
    }
  }

  lemma BasedOnItself(v: Views, memo: Memo, path: set<string>)
    ensures Based(v, memo, path, memo)
  {
  }

  lemma AllYielded(v: Views, memo: Memo, path: set<string>, n: string, out: set<string>)
    requires YieldsAll(v, memo, path, n, out)
    ensures forall h :: h in out ==> Yields(v, memo, path, n, h)
  {
    hide Yields;
  }

  lemma YieldIsFound(
    v: Views, memo: Memo, memo': Memo, path: set<string>, out: set<string>, n: string, h: string)
    requires Swept(v, memo, memo', path, out) && n in memo' && Yields(v, memo, path, n, h)
    ensures h in out
  {
    var x, u :| TellsFrom(v, memo, path, n, h, x, u);
    var p :| ClearTo(v, memo.Keys + path, p, n, x);
    hide Clear, Yields, Clears, Up;
    SweptAlong(v, memo, memo', path, out, p);
    assert Met(v, memo, memo', path, out, u);
  }

  // ----- a holding upstream is always reported ------------------------------------------------------

  ghost predicate Direct(v: Views, n: string, out: set<string>) {
    forall u :: Up(v, n, u) && Holding(v[u].state) ==> u in out
  }

  ghost predicate DirectOk(v: Views, memo: Memo) { forall k :: k in memo ==> Direct(v, k, memo[k]) }

  lemma NothingDirect(v: Views)
    ensures DirectOk(v, map[])
  {
  }

  lemma {:induction false} SearchDirect(n: string, v: Views, memo: Memo, path: set<string>)
    requires DirectOk(v, memo)
    ensures var r := Search(n, v, memo, path); DirectOk(v, r.1) && (n !in path ==> Direct(v, n, r.0))
    decreases |v.Keys - path|, 0, 0
  {
    hide Direct, SearchUps;
    if n in memo || n in path {
    } else if n !in v {
      UnknownDirect(v, n);
    } else {
      var ups := v[n].upstreams;
      LessLeft(v, path, n);
      SearchUpsDirect(ups, {}, v, memo, path + {n});
      UpsDirect(v, n, SearchUps(ups, {}, v, memo, path + {n}).0);
    }
  }

  lemma UnknownDirect(v: Views, n: string)
    requires n !in v
    ensures Direct(v, n, {})
  {
  }

  lemma UpsDirect(v: Views, n: string, out: set<string>)
    requires n in v
    requires forall i :: 0 <= i < |v[n].upstreams| && v[n].upstreams[i] in v && Holding(v[v[n].upstreams[i]].state) ==>
            v[n].upstreams[i] in out
    ensures Direct(v, n, out)
  {
  }

  lemma {:induction false} SearchUpsDirect(ups: seq<string>, out: set<string>, v: Views, memo: Memo, path: set<string>)
    requires DirectOk(v, memo)
    ensures var r := SearchUps(ups, out, v, memo, path);
            && DirectOk(v, r.1) && out <= r.0
            && forall i :: 0 <= i < |ups| && ups[i] in v && Holding(v[ups[i]].state) ==> ups[i] in r.0
    decreases |v.Keys - path|, 1, |ups|
  {
    hide DirectOk, Search, Holding;
    if ups == [] {
    } else {
      var u, rest := ups[0], ups[1..];
      assert forall i :: 0 < i < |ups| ==> ups[i] == rest[i - 1];
      if u in v {
        SearchDirect(u, v, memo, path);
        var (more, memo') := Search(u, v, memo, path);
        SearchUpsDirect(rest, (if Holding(v[u].state) then out + {u} else out) + more, v, memo', path);
      } else {
        SearchUpsDirect(rest, out, v, memo, path);
      }
    }
  }

  /** Between a leaf that does not hold and a holder upstream, one that does not hold is next to one that does. */
  lemma {:induction false} HolderNextDoor(v: Views, n: string, h: string) returns (m: string, u: string)
    requires n in v && !Holding(v[n].state) && h in Holders(v, n)
    ensures Up(v, m, u) && !Holding(v[m].state) && Holding(v[u].state)
  {
    var p :| Climbs(v, p, n, h);
    hide Holders, Reach;
    var i := 0;
    while !Holding(v[p[i + 1]].state)
      invariant 0 <= i < |p| - 1 && Up(v, p[i], p[i + 1]) && !Holding(v[p[i]].state)
      decreases |p| - i
    {
      i := i + 1;
      assert Up(v, p[i], p[i + 1]);
    }
    m, u := p[i], p[i + 1];
  }

  // ----- but a shared memo can carry a cut from one query to the next -------------------------------

  lemma SearchUpsEnd(out: set<string>, v: Views, memo: Memo, path: set<string>)
    ensures SearchUps([], out, v, memo, path) == (out, memo)
  {
  }

  lemma SearchUpsStep(u: string, ups: seq<string>, out: set<string>, v: Views, memo: Memo, path: set<string>)
    requires u in v
    ensures var r := Search(u, v, memo, path);
            SearchUps([u] + ups, out, v, memo, path) ==
            SearchUps(ups, (if Holding(v[u].state) then out + {u} else out) + r.0, v, r.1, path)
  {
    hide Search;
    assert ([u] + ups)[1..] == ups;
  }

  lemma SearchKnownSeen(n: string, v: Views, memo: Memo, path: set<string>)
    requires n in memo || n in path
    ensures Search(n, v, memo, path) == (if n in memo then memo[n] else {}, memo)
  {
  }

  /** Judging `a` before `b` cuts `b` short, whenever the two are on a cycle and a holder is behind `a` alone. */
  lemma CycleCutsShort(v: Views, a: string, b: string, c: string)
    requires a in v && b in v && c in v && a != b && c != a && c != b
    requires v[a].upstreams == [b, c] && v[b].upstreams == [a] && v[c].upstreams == []
    requires !Holding(v[a].state) && !Holding(v[b].state) && Holding(v[c].state)
    ensures Search(b, v, Search(a, v, map[], {}).1, {}).0 == {}
    ensures c in Holders(v, b)
  {
    assert Up(v, b, a) && Up(v, a, c);
    assert Climbs(v, [b, a, c], b, c);
    assert c in Holders(v, b);
    hide *;
    var none: Memo := map[];
    var nobody: set<string> := {};
    var onA, onAB := nobody + {a}, nobody + {a} + {b};
    SearchKnownSeen(a, v, none, onAB);
    SearchUpsStep(a, [], nobody, v, none, onAB);
    assert [a] + [] == [a] && nobody + nobody == nobody;
    SearchUpsEnd(nobody, v, none, onAB);
    SearchKnown(b, v, none, onA);
    var m: Memo := none[b := nobody];
    assert Search(b, v, none, onA) == (nobody, m);
    SearchUpsStep(b, [c], nobody, v, none, onA);
    assert [b] + [c] == [b, c];
    SearchKnown(c, v, m, onA);
    SearchUpsEnd(nobody, v, m, onA + {c});
    SearchUpsStep(c, [], nobody, v, m, onA);
    assert [c] + [] == [c];
    SearchUpsEnd(nobody + {c} + nobody, v, m[c := nobody], onA);
    SearchKnown(a, v, none, nobody);
    SearchKnownSeen(b, v, Search(a, v, none, nobody).1, nobody);
  }
}
