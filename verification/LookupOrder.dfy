/**
  Who decides a method lookup, said by who defines the name and not by the chain that is walked:
  singletons before classes, prepended modules before their class, the class before what it
  includes, and these before the superclass.
*/
module LookupOrder {
  import opened Prelude
  import opened Hierarchy
  import opened MethodCache

  // ----- who is an ancestor ---------------------------------------------------------------------

  ghost predicate IncludePath(h: Hier, p: seq<Id>) {
    p != [] && forall i :: 0 <= i < |p| - 1 ==> p[i + 1] in At(h, p[i]).includes
  }

  ghost predicate IncludePathTo(h: Hier, p: seq<Id>, m: Id, x: Id) { IncludePath(h, p) && p[0] == m && p[|p| - 1] == x }

  /** `x` is `m`, or included in it at any depth. */
  ghost predicate Under(h: Hier, m: Id, x: Id) { exists p :: IncludePathTo(h, p, m, x) }

  ghost predicate SuperPath(h: Hier, p: seq<Id>) {
    p != [] && forall i :: 0 <= i < |p| - 1 ==> At(h, p[i]).superclass == Some(p[i + 1])
  }

  ghost predicate SuperPathTo(h: Hier, p: seq<Id>, m: Id, c: Id) { SuperPath(h, p) && p[0] == m && p[|p| - 1] == c }

  /** `x` is `c`, or included in it, or prepended to it or included in what is. */
  ghost predicate Beside(h: Hier, c: Id, x: Id) {
    Under(h, c, x) || exists i :: 0 <= i < |At(h, c).prepends| && Under(h, At(h, c).prepends[i], x)
  }

  /** `x` is an ancestor of `m`: beside `m`, its superclass, the superclass of that, and so on. */
  ghost predicate Above(h: Hier, m: Id, x: Id) { exists p, c :: SuperPathTo(h, p, m, c) && Beside(h, c, x) }

  lemma UnderSelf(h: Hier, m: Id)
    ensures Under(h, m, m)
  {
    assert IncludePathTo(h, [m], m, m);
  }

  lemma UnderStep(h: Hier, m: Id, x: Id)
    ensures Under(h, m, x) <==> x == m || exists j :: 0 <= j < |At(h, m).includes| && Under(h, At(h, m).includes[j], x)
  {
    hide At;
    if x == m { UnderSelf(h, m); }
    if Under(h, m, x) && x != m {
      var p :| IncludePathTo(h, p, m, x);
      var q := p[1..];
      forall i | 0 <= i < |q| - 1 ensures q[i + 1] in At(h, q[i]).includes {
        assert p[i + 1 + 1] in At(h, p[i + 1]).includes;
      }
      assert IncludePathTo(h, q, q[0], x);
      assert p[0 + 1] in At(h, p[0]).includes;
    }
    if j :| 0 <= j < |At(h, m).includes| && Under(h, At(h, m).includes[j], x) {
      var inc := At(h, m).includes[j];
      var q :| IncludePathTo(h, q, inc, x);
      var p := [m] + q;
      forall i | 0 <= i < |p| - 1 ensures p[i + 1] in At(h, p[i]).includes {
        if i > 0 { assert q[i - 1 + 1] in At(h, q[i - 1]).includes; }
      }
      assert IncludePathTo(h, p, m, x);
    }
  }

  lemma AboveStep(h: Hier, m: Id, x: Id)
    ensures Above(h, m, x) <==> Beside(h, m, x) || (At(h, m).superclass.Some? && Above(h, At(h, m).superclass.value, x))
  {
    hide At, Beside;
    if Above(h, m, x) {
      var p, c :| SuperPathTo(h, p, m, c) && Beside(h, c, x);
      if |p| > 1 {
        var q := p[1..];
        assert At(h, p[0]).superclass == Some(p[0 + 1]);
        forall i | 0 <= i < |q| - 1 ensures At(h, q[i]).superclass == Some(q[i + 1]) {
          assert At(h, p[i + 1]).superclass == Some(p[i + 1 + 1]);
        }
        assert SuperPathTo(h, q, q[0], c);
      }
    }
    if Beside(h, m, x) { assert SuperPathTo(h, [m], m, m); }
    if At(h, m).superclass.Some? && Above(h, At(h, m).superclass.value, x) {
      var s := At(h, m).superclass.value;
      var q, c :| SuperPathTo(h, q, s, c) && Beside(h, c, x);
      var p := [m] + q;
      forall i | 0 <= i < |p| - 1 ensures At(h, p[i]).superclass == Some(p[i + 1]) {
        if i > 0 { assert At(h, q[i - 1]).superclass == Some(q[i - 1 + 1]); }
      }
      assert SuperPathTo(h, p, m, c);
    }
  }

  lemma {:induction false} PushMembers(h: Hier, m: Id, x: Id)
    requires Acyclic(h)
    ensures x in Hierarchy.Push(h, m) <==> Under(h, m, x)
    decreases RankOf(h)(m), 1, 0
  {
    hide Acyclic, Under;
    UnderStep(h, m, x);
    PushIncludesMembers(h, m, |At(h, m).includes|, x);
  }

  lemma {:induction false} PushIncludesMembers(h: Hier, m: Id, i: nat, x: Id)
    requires Acyclic(h) && i <= |At(h, m).includes|
    ensures x in PushIncludes(h, m, i) <==> exists j :: 0 <= j < i && Under(h, At(h, m).includes[j], x)
    decreases RankOf(h)(m), 0, i
  {
    hide Acyclic, Under, Hierarchy.Push;
    if i > 0 {
      IncludeLink(h, m, i - 1);
      Lower(h, m, At(h, m).includes[i - 1]);
      PushMembers(h, At(h, m).includes[i - 1], x);
      PushIncludesMembers(h, m, i - 1, x);
    }
  }

  lemma {:induction false} PushPrependsMembers(h: Hier, m: Id, i: nat, x: Id)
    requires Acyclic(h) && i <= |At(h, m).prepends|
    ensures x in PushPrepends(h, m, i) <==> exists j :: 0 <= j < i && Under(h, At(h, m).prepends[j], x)
  {
    hide Acyclic, Under, Hierarchy.Push;
    if i > 0 {
      PushMembers(h, At(h, m).prepends[i - 1], x);
      PushPrependsMembers(h, m, i - 1, x);
    }
  }

  lemma AroundMembers(h: Hier, m: Id, x: Id)
    requires Acyclic(h)
    ensures x in Around(h, m) <==> Beside(h, m, x)
  {
    hide Acyclic, Under, PushIncludes, PushPrepends;
    UnderStep(h, m, x);
    PushIncludesMembers(h, m, |At(h, m).includes|, x);
    PushPrependsMembers(h, m, |At(h, m).prepends|, x);
  }

  lemma {:induction false} RawMembers(h: Hier, m: Id, x: Id)
    requires Acyclic(h)
    ensures x in Raw(h, m) <==> Above(h, m, x)
    decreases RankOf(h)(m)
  {
    hide Acyclic, Above, Around, Beside;
    AboveStep(h, m, x);
    AroundMembers(h, m, x);
    if At(h, m).superclass.Some? {
      Lower(h, m, At(h, m).superclass.value);
      RawMembers(h, At(h, m).superclass.value, x);
    }
  }

  /** `ancestors` lists exactly the ancestors, each once. */
  lemma AncestorsExactly(h: Hier, m: Id)
    requires Acyclic(h)
    ensures forall x :: x in Ancestors(h, m) <==> Above(h, m, x)
    ensures forall i, j :: 0 <= i < j < |Ancestors(h, m)| ==> Ancestors(h, m)[i] != Ancestors(h, m)[j]
  {
    hide Acyclic, Raw, Above, Dedup;
    DedupIsSet(Raw(h, m));
    forall x ensures x in Raw(h, m) <==> Above(h, m, x) { RawMembers(h, m, x); }
  }

  // ----- who answers -----------------------------------------------------------------------------

  ghost predicate Mentions(h: Hier, m: Id, name: string) { name in At(h, m).methods }

  /** What `m` answers for a name it mentions: a definition, or that there is none. */
  function Says(h: Hier, m: Id, name: string): Found {
    if name !in At(h, m).methods || At(h, m).methods[name] == Undefined then None else Some((At(h, m).methods[name], m))
  }

  ghost predicate Silent(h: Hier, s: seq<Id>, name: string) { forall x :: x in s ==> !Mentions(h, x, name) }

  lemma {:induction false} PickSplit(h: Hier, a: seq<Id>, b: seq<Id>, name: string)
    ensures Silent(h, a, name) ==> Pick(h, a + b, name) == Pick(h, b, name)
    ensures !Silent(h, a, name) ==> Pick(h, a + b, name) == Pick(h, a, name)
  {
    hide At;
    if a == [] {
      assert a + b == b;
    } else {
      assert (a + b)[1..] == a[1..] + b && (a + b)[0] == a[0] && a[0] in a;
      PickSplit(h, a[1..], b, name);
      assert forall x :: x in a <==> x == a[0] || x in a[1..];
    }
  }

  lemma PickFirst(h: Hier, m: Id, rest: seq<Id>, name: string)
    requires Mentions(h, m, name)
    ensures Pick(h, [m] + rest, name) == Says(h, m, name)
  {
  }

  /** Where nothing before `m` mentions the name, and `m` does not come again, `m` decides. */
  lemma {:induction false} DecidesBehind(h: Hier, front: seq<Id>, m: Id, back: seq<Id>, name: string)
    requires Silent(h, front, name) && m !in back && Mentions(h, m, name)
    ensures Pick(h, Dedup(front + [m] + back), name) == Says(h, m, name)
  {
    hide At, Pick;
    var s := front + [m] + back;
    if front == [] {
      assert s == [m] + back && s[1..] == back && s[0] == m;
      PickFirst(h, m, Dedup(back), name);
    } else {
      assert s[0] == front[0] && s[0] in front;
      assert s[1..] == front[1..] + [m] + back;
      DecidesBehind(h, front[1..], m, back, name);
      PickSplit(h, [s[0]], Dedup(s[1..]), name);
    }
  }

  /** Silent elements in front do not matter, repeated later or not. */
  lemma {:induction false} SilentFront(h: Hier, front: seq<Id>, back: seq<Id>, name: string)
    requires Silent(h, front, name)
    ensures Pick(h, Dedup(front + back), name) == Pick(h, Dedup(back), name)
  {
    hide At, Pick;
    var s := front + back;
    if front == [] {
      assert s == back;
    } else {
      assert s[0] == front[0] && s[0] in front && s[1..] == front[1..] + back;
      SilentFront(h, front[1..], back, name);
      PickSplit(h, [s[0]], Dedup(s[1..]), name);
    }
  }

  // ----- classes ---------------------------------------------------------------------------------------

  lemma CoreLookup(h: Hier, c: Id, name: string)
    requires Acyclic(h)
    ensures Lookup(h, Core(c), name) == Pick(h, Dedup(Raw(h, c)), name)
  {
    hide Acyclic, Raw, Dedup, Pick;
  }

  /** No module prepended to `c` from position `from` on, and nothing included in one, mentions the name. */
  ghost predicate PrependsQuiet(h: Hier, c: Id, from: nat, name: string) {
    forall i, x :: from <= i < |At(h, c).prepends| && Under(h, At(h, c).prepends[i], x) ==> !Mentions(h, x, name)
  }

  ghost predicate IncludesQuiet(h: Hier, c: Id, from: nat, name: string) {
    forall i, x :: from <= i < |At(h, c).includes| && Under(h, At(h, c).includes[i], x) ==> !Mentions(h, x, name)
  }

  lemma PrependsSilent(h: Hier, c: Id, from: nat, name: string)
    requires Acyclic(h) && from <= |At(h, c).prepends| && PrependsQuiet(h, c, from, name)
    ensures Silent(h, LaterPrepends(h, c, from), name)
    ensures PushPrepends(h, c, |At(h, c).prepends|) == LaterPrepends(h, c, from) + PushPrepends(h, c, from)
  {
    hide Acyclic, Under, Mentions;
    LaterPrependsAre(h, c, from, |At(h, c).prepends|);
    forall x | x in LaterPrepends(h, c, from) ensures !Mentions(h, x, name) {
      LaterPrependsMember(h, c, from, |At(h, c).prepends|, x);
    }
  }

  lemma IncludesSilent(h: Hier, c: Id, from: nat, name: string)
    requires Acyclic(h) && from <= |At(h, c).includes| && IncludesQuiet(h, c, from, name)
    ensures var n := |At(h, c).includes|;
            && Silent(h, IncludesBetween(h, c, from, n), name)
            && PushIncludes(h, c, n) == IncludesBetween(h, c, from, n) + PushIncludes(h, c, from)
  {
    hide Acyclic, Under, Mentions;
    var n := |At(h, c).includes|;
    LaterIncludesAre(h, c, from, n);
    forall x | x in IncludesBetween(h, c, from, n) ensures !Mentions(h, x, name) {
      LaterIncludesMember(h, c, from, n, x);
    }
  }

  /** What was prepended from position `from` on, last first. */
  ghost function LaterPrepends(h: Hier, c: Id, from: nat): seq<Id>
    requires Acyclic(h) && from <= |At(h, c).prepends|
  {
    PrependsBetween(h, c, from, |At(h, c).prepends|)
  }

  ghost function PrependsBetween(h: Hier, c: Id, from: nat, n: nat): seq<Id>
    requires Acyclic(h) && from <= n <= |At(h, c).prepends|
  {
    if n == from then [] else Hierarchy.Push(h, At(h, c).prepends[n - 1]) + PrependsBetween(h, c, from, n - 1)
  }

  lemma {:induction false} LaterPrependsAre(h: Hier, c: Id, from: nat, n: nat)
    requires Acyclic(h) && from <= n <= |At(h, c).prepends|
    ensures PushPrepends(h, c, n) == PrependsBetween(h, c, from, n) + PushPrepends(h, c, from)
  {
    hide Acyclic, Hierarchy.Push;
    if n == from {
      assert [] + PushPrepends(h, c, from) == PushPrepends(h, c, from);
    } else {
      LaterPrependsAre(h, c, from, n - 1);
    }
  }

  lemma {:induction false} LaterPrependsMember(h: Hier, c: Id, from: nat, n: nat, x: Id)
    requires Acyclic(h) && from <= n <= |At(h, c).prepends| && x in PrependsBetween(h, c, from, n)
    ensures exists i :: from <= i < n && Under(h, At(h, c).prepends[i], x)
  {
    hide Acyclic, Under, Hierarchy.Push;
    PushMembers(h, At(h, c).prepends[n - 1], x);
    if x !in Hierarchy.Push(h, At(h, c).prepends[n - 1]) { LaterPrependsMember(h, c, from, n - 1, x); }
  }

  ghost function IncludesBetween(h: Hier, c: Id, from: nat, n: nat): seq<Id>
    requires Acyclic(h) && from <= n <= |At(h, c).includes|
  {
    if n == from then [] else Hierarchy.Push(h, At(h, c).includes[n - 1]) + IncludesBetween(h, c, from, n - 1)
  }

  lemma {:induction false} LaterIncludesAre(h: Hier, c: Id, from: nat, n: nat)
    requires Acyclic(h) && from <= n <= |At(h, c).includes|
    ensures PushIncludes(h, c, n) == IncludesBetween(h, c, from, n) + PushIncludes(h, c, from)
  {
    hide Acyclic, Hierarchy.Push;
    if n == from {
      assert [] + PushIncludes(h, c, from) == PushIncludes(h, c, from);
    } else {
      LaterIncludesAre(h, c, from, n - 1);
      PushIncludesStep(h, c, n - 1);
    }
  }

  lemma {:induction false} LaterIncludesMember(h: Hier, c: Id, from: nat, n: nat, x: Id)
    requires Acyclic(h) && from <= n <= |At(h, c).includes| && x in IncludesBetween(h, c, from, n)
    ensures exists i :: from <= i < n && Under(h, At(h, c).includes[i], x)
  {
    hide Acyclic, Under, Hierarchy.Push;
    PushMembers(h, At(h, c).includes[n - 1], x);
    if x !in Hierarchy.Push(h, At(h, c).includes[n - 1]) { LaterIncludesMember(h, c, from, n - 1, x); }
  }

  lemma RestMembers(h: Hier, c: Id, x: Id)
    requires Acyclic(h)
    ensures x in Rest(h, c) <==> At(h, c).superclass.Some? && Above(h, At(h, c).superclass.value, x)
  {
    hide Acyclic, Raw, Above;
    if At(h, c).superclass.Some? { RawMembers(h, At(h, c).superclass.value, x); }
  }

  lemma {:induction false} RawLower(h: Hier, m: Id, x: Id)
    requires Acyclic(h) && x in Raw(h, m)
    ensures x == m || RankOf(h)(x) < RankOf(h)(m)
    decreases RankOf(h)(m)
  {
    hide Acyclic, PushIncludes, PushPrepends, Raw;
    RawParts(h, m);
    if x in PushPrepends(h, m, |At(h, m).prepends|) {
      LowerInPrepends(h, m, |At(h, m).prepends|, x);
    } else if x in PushIncludes(h, m, |At(h, m).includes|) {
      LowerInIncludes(h, m, |At(h, m).includes|, x);
    } else if x != m {
      Lower(h, m, At(h, m).superclass.value);
      RawLower(h, At(h, m).superclass.value, x);
    }
  }

  lemma {:induction false} LowerInPrepends(h: Hier, m: Id, i: nat, x: Id)
    requires Acyclic(h) && i <= |At(h, m).prepends| && x in PushPrepends(h, m, i)
    ensures RankOf(h)(x) < RankOf(h)(m)
  {
    hide Acyclic, Hierarchy.Push, Link;
    PrependLink(h, m, i - 1);
    Lower(h, m, At(h, m).prepends[i - 1]);
    if x in Hierarchy.Push(h, At(h, m).prepends[i - 1]) {
      LowerInPush(h, At(h, m).prepends[i - 1], x);
    } else {
      LowerInPrepends(h, m, i - 1, x);
    }
  }

  /** A class is not among what it includes or inherits. */
  lemma OnceOnly(h: Hier, c: Id)
    requires Acyclic(h)
    ensures c !in PushIncludes(h, c, |At(h, c).includes|) + Rest(h, c)
  {
    PushHead(h, c);
    hide Acyclic, PushIncludes, Raw;
    if c in Rest(h, c) {
      var s := At(h, c).superclass.value;
      Lower(h, c, s);
      RawLower(h, s, c);
    }
  }

  /** The class decides, over all it includes and inherits, unless something prepended mentions the name. */
  lemma ClassDecides(h: Hier, c: Id, name: string)
    requires Acyclic(h) && Mentions(h, c, name) && PrependsQuiet(h, c, 0, name)
    ensures Lookup(h, Core(c), name) == Says(h, c, name)
  {
    hide *;
    CoreLookup(h, c, name);
    RawParts(h, c);
    PrependsSilent(h, c, 0, name);
    NoPrepends(h, c);
    OnceOnly(h, c);
    var front, back := LaterPrepends(h, c, 0), PushIncludes(h, c, |At(h, c).includes|) + Rest(h, c);
    assert front + [] == front;
    assert front + [c] + PushIncludes(h, c, |At(h, c).includes|) + Rest(h, c) == front + [c] + back;
    DecidesBehind(h, front, c, back, name);
  }

  lemma NoPrepends(h: Hier, c: Id)
    requires Acyclic(h)
    ensures PushPrepends(h, c, 0) == [] && PushIncludes(h, c, 0) == []
  {
  }

  /** `p` is not among what comes behind position `i` of the prepended modules of `c`. */
  ghost predicate NotAgain(h: Hier, c: Id, p: Id) {
    !Under(h, c, p) && (At(h, c).superclass.Some? ==> !Above(h, At(h, c).superclass.value, p))
  }

  /** A prepended module decides, over its class and all above, unless one prepended after it mentions the name, or it
      is an ancestor of the class in another way too. */
  lemma PrependedDecides(h: Hier, c: Id, i: nat, name: string)
    requires Acyclic(h) && i < |At(h, c).prepends| && PrependsQuiet(h, c, i + 1, name)
    requires Mentions(h, At(h, c).prepends[i], name) && NotAgain(h, c, At(h, c).prepends[i])
    requires forall j :: 0 <= j < i ==> !Under(h, At(h, c).prepends[j], At(h, c).prepends[i])
    ensures Lookup(h, Core(c), name) == Says(h, At(h, c).prepends[i], name)
  {
    hide *;
    var p := At(h, c).prepends[i];
    BehindPrepended(h, c, i);
    PrependsStep(h, c, i);
    CoreLookup(h, c, name);
    RawParts(h, c);
    PrependsSilent(h, c, i + 1, name);
    PushHead(h, p);
    var front, under := LaterPrepends(h, c, i + 1), PushIncludes(h, p, |At(h, p).includes|);
    var back := PushPrepends(h, c, i) + [c] + PushIncludes(h, c, |At(h, c).includes|) + Rest(h, c);
    Regroup(front, p, under, PushPrepends(h, c, i), c, PushIncludes(h, c, |At(h, c).includes|), Rest(h, c));
    DecidesBehind(h, front, p, under + back, name);
  }

  lemma Regroup(front: seq<Id>, p: Id, under: seq<Id>, pre: seq<Id>, c: Id, incs: seq<Id>, rest: seq<Id>)
    ensures front + (([p] + under) + pre) + [c] + incs + rest == front + [p] + (under + (pre + [c] + incs + rest))
  {
  }

  lemma RegroupIncluded(pre: seq<Id>, c: Id, mid: seq<Id>, m: Id, under: seq<Id>, before: seq<Id>, rest: seq<Id>)
    ensures pre + [c] + (mid + (([m] + under) + before)) + rest == pre + [c] + mid + [m] + (under + (before + rest))
  {
  }

  lemma PrependsStep(h: Hier, c: Id, i: nat)
    requires Acyclic(h) && i < |At(h, c).prepends|
    ensures PushPrepends(h, c, i + 1) == Hierarchy.Push(h, At(h, c).prepends[i]) + PushPrepends(h, c, i)
  {
    hide Acyclic, Hierarchy.Push;
  }

  lemma BehindPrepended(h: Hier, c: Id, i: nat)
    requires Acyclic(h) && i < |At(h, c).prepends| && NotAgain(h, c, At(h, c).prepends[i])
    requires forall j :: 0 <= j < i ==> !Under(h, At(h, c).prepends[j], At(h, c).prepends[i])
    ensures At(h, c).prepends[i] !in PushPrepends(h, c, i) + [c] + PushIncludes(h, c, |At(h, c).includes|) + Rest(h, c)
  {
    hide Acyclic, Under, Above, PushPrepends, PushIncludes, Rest;
    var p := At(h, c).prepends[i];
    PushPrependsMembers(h, c, i, p);
    PushIncludesMembers(h, c, |At(h, c).includes|, p);
    RestMembers(h, c, p);
    UnderStep(h, c, p);
  }

  /** An included module decides, over what was included before it and all inherited, unless the class, something
      prepended or something included after it mentions the name, or the class has it as an ancestor further up too. */
  lemma IncludedDecides(h: Hier, c: Id, i: nat, name: string)
    requires Acyclic(h) && i < |At(h, c).includes| && PrependsQuiet(h, c, 0, name) && !Mentions(h, c, name)
    requires IncludesQuiet(h, c, i + 1, name) && Mentions(h, At(h, c).includes[i], name)
    requires forall j :: 0 <= j < i ==> !Under(h, At(h, c).includes[j], At(h, c).includes[i])
    requires At(h, c).superclass.Some? ==> !Above(h, At(h, c).superclass.value, At(h, c).includes[i])
    ensures Lookup(h, Core(c), name) == Says(h, At(h, c).includes[i], name)
  {
    hide *;
    var m := At(h, c).includes[i];
    BehindIncluded(h, c, i);
    SilentTogether(h, LaterPrepends(h, c, 0), c, name);
    CoreLookup(h, c, name);
    RawParts(h, c);
    PrependsSilent(h, c, 0, name);
    NoPrepends(h, c);
    IncludesSilent(h, c, i + 1, name);
    PushIncludesStep(h, c, i);
    PushHead(h, m);
    var pre, mid := LaterPrepends(h, c, 0), IncludesBetween(h, c, i + 1, |At(h, c).includes|);
    var under, back := PushIncludes(h, m, |At(h, m).includes|), PushIncludes(h, c, i) + Rest(h, c);
    SilentJoin(h, pre + [c], mid, name);
    assert pre + [] == pre;
    RegroupIncluded(pre, c, mid, m, under, PushIncludes(h, c, i), Rest(h, c));
    DecidesBehind(h, pre + [c] + mid, m, under + back, name);
  }

  lemma SilentTogether(h: Hier, s: seq<Id>, c: Id, name: string)
    requires !Mentions(h, c, name)
    ensures Silent(h, s, name) ==> Silent(h, s + [c], name)
  {
  }

  lemma SilentJoin(h: Hier, a: seq<Id>, b: seq<Id>, name: string)
    ensures Silent(h, a, name) && Silent(h, b, name) ==> Silent(h, a + b, name)
  {
  }

  lemma BehindIncluded(h: Hier, c: Id, i: nat)
    requires Acyclic(h) && i < |At(h, c).includes|
    requires forall j :: 0 <= j < i ==> !Under(h, At(h, c).includes[j], At(h, c).includes[i])
    requires At(h, c).superclass.Some? ==> !Above(h, At(h, c).superclass.value, At(h, c).includes[i])
    ensures At(h, c).includes[i] !in PushIncludes(h, c, i) + Rest(h, c)
  {
    hide Acyclic, Under, Above, PushIncludes, Rest;
    PushIncludesMembers(h, c, i, At(h, c).includes[i]);
    RestMembers(h, c, At(h, c).includes[i]);
  }

  /** Where nothing beside the class mentions the name, its superclass decides, or nobody. */
  lemma SuperclassDecides(h: Hier, c: Id, name: string)
    requires Acyclic(h) && forall x :: Beside(h, c, x) ==> !Mentions(h, x, name)
    ensures Lookup(h, Core(c), name) ==
            if At(h, c).superclass.Some? then Lookup(h, Core(At(h, c).superclass.value), name) else None
  {
    forall x | x in Around(h, c) ensures !Mentions(h, x, name) { AroundMembers(h, c, x); }
    AroundAndRest(h, c);
    hide Acyclic, Around, Raw, Pick, Dedup, Beside, Lookup;
    CoreLookup(h, c, name);
    SilentFront(h, Around(h, c), Rest(h, c), name);
    if At(h, c).superclass.Some? { CoreLookup(h, At(h, c).superclass.value, name); } else { NothingPicked(h, name); }
  }

  lemma NothingPicked(h: Hier, name: string)
    ensures Pick(h, Dedup([]), name) == None
  {
  }

  lemma AroundAndRest(h: Hier, c: Id)
    requires Acyclic(h)
    ensures Raw(h, c) == Around(h, c) + Rest(h, c)
  {
    hide Acyclic, PushIncludes, PushPrepends;
  }

  /** The condition on a prepended module is needed.  Where class and prepended module both mention the name, the module
      decides exactly when it is not an ancestor of the class in another way too: the source keeps the last occurrence
      of each ancestor, so a module that the superclass includes as well loses its place in front. */
  lemma PrependedDecidesExactly(h: Hier, c: Id, p: Id, name: string)
    requires Acyclic(h) && At(h, c).prepends == [p] && c != p && Mentions(h, p, name) && Mentions(h, c, name)
    requires forall x :: Under(h, p, x) && x != p ==> !Mentions(h, x, name)
    ensures Lookup(h, Core(c), name) == if NotAgain(h, c, p) then Says(h, p, name) else Says(h, c, name)
  {
    hide *;
    if NotAgain(h, c, p) {
      PrependedDecides(h, c, 0, name) by { OnlyPrepended(h, c, name); }
    } else {
      AgainBehind(h, c, p);
      UnderSilent(h, p, name);
      PrependsStep(h, c, 0);
      CoreLookup(h, c, name);
      RawParts(h, c);
      NoPrepends(h, c);
      PushHead(h, p);
      OnceOnly(h, c);
      var under, incs := PushIncludes(h, p, |At(h, p).includes|), PushIncludes(h, c, |At(h, c).includes|);
      Regroup([], p, under, [], c, incs, Rest(h, c));
      RegroupFirst(p, under, c, incs, Rest(h, c));
      DroppedFirst(p, under + [c] + (incs + Rest(h, c)));
      DecidesBehind(h, under, c, incs + Rest(h, c), name);
    }
  }

  lemma OnlyPrepended(h: Hier, c: Id, name: string)
    requires |At(h, c).prepends| == 1
    ensures PrependsQuiet(h, c, 1, name)
  {
  }

  lemma RegroupFirst(p: Id, under: seq<Id>, c: Id, incs: seq<Id>, rest: seq<Id>)
    ensures [p] + under + [] + [c] + incs + rest == [p] + (under + [c] + (incs + rest))
  {
  }

  lemma DroppedFirst(p: Id, s: seq<Id>)
    requires p in s
    ensures Dedup([p] + s) == Dedup(s)
  {
    assert ([p] + s)[1..] == s;
  }

  lemma UnderSilent(h: Hier, p: Id, name: string)
    requires Acyclic(h) && forall x :: Under(h, p, x) && x != p ==> !Mentions(h, x, name)
    ensures Silent(h, PushIncludes(h, p, |At(h, p).includes|), name)
  {
    PushHead(h, p);
    hide Acyclic, Under, Mentions, PushIncludes;
    forall x | x in PushIncludes(h, p, |At(h, p).includes|) ensures !Mentions(h, x, name) {
      PushIncludesMembers(h, p, |At(h, p).includes|, x);
      UnderStep(h, p, x);
    }
  }

  lemma AgainBehind(h: Hier, c: Id, p: Id)
    requires Acyclic(h) && !NotAgain(h, c, p) && c != p
    ensures p in PushIncludes(h, c, |At(h, c).includes|) + Rest(h, c)
  {
    hide Acyclic, Under, Above, PushIncludes, Rest;
    PushIncludesMembers(h, c, |At(h, c).includes|, p);
    RestMembers(h, c, p);
    UnderStep(h, c, p);
  }

  // ----- objects -----------------------------------------------------------------------------------------

  /** No ancestor of what `t` includes from position `from` on mentions the name. */
  ghost predicate ExtensionsQuiet(h: Hier, t: Id, from: nat, name: string) {
    forall i, x :: from <= i < |At(h, t).includes| && Above(h, At(h, t).includes[i], x) ==> !Mentions(h, x, name)
  }

  /** An object without a singleton answers as its class does. */
  lemma PlainObjectLookup(h: Hier, o: Id, name: string)
    requires Acyclic(h) && o in h.objs && h.objs[o].singleton.None?
    ensures Lookup(h, Object(o), name) == Lookup(h, Core(h.objs[o].class_), name)
  {
    hide Acyclic, Ancestors, Pick;
  }

  lemma SingletonLookup(h: Hier, o: Id, s: Id, name: string)
    requires Acyclic(h) && o in h.objs && h.objs[o].singleton == Some(s)
    ensures Lookup(h, Object(o), name) ==
            Pick(h, [s] + (SingletonPart(h, s, |At(h, s).includes|) + Ancestors(h, h.objs[o].class_)), name)
  {
    hide Acyclic, Ancestors, Pick, SingletonPart;
    var part, up := SingletonPart(h, s, |At(h, s).includes|), Ancestors(h, h.objs[o].class_);
    assert [s] + part + up == [s] + (part + up);
  }

  /** The singleton decides if it mentions the name. */
  lemma SingletonDecides(h: Hier, o: Id, s: Id, name: string)
    requires Acyclic(h) && o in h.objs && h.objs[o].singleton == Some(s) && Mentions(h, s, name)
    ensures Lookup(h, Object(o), name) == Says(h, s, name)
  {
    hide *;
    SingletonLookup(h, o, s, name);
    PickFirst(h, s, SingletonPart(h, s, |At(h, s).includes|) + Ancestors(h, h.objs[o].class_), name);
  }

  lemma AboveSelf(h: Hier, m: Id)
    ensures Above(h, m, m)
  {
    hide Above, Under;
    AboveStep(h, m, m);
    UnderSelf(h, m);
  }

  lemma ExtensionSilent(h: Hier, inc: Id, name: string)
    requires Acyclic(h) && forall x :: Above(h, inc, x) ==> !Mentions(h, x, name)
    ensures Silent(h, [inc] + Tail(Ancestors(h, inc)), name) && Silent(h, Ancestors(h, inc), name)
  {
    hide Acyclic, Above, Ancestors, Mentions;
    AncestorsExactly(h, inc);
    AboveSelf(h, inc);
  }

  lemma QuietAt(h: Hier, t: Id, from: nat, i: nat, name: string)
    requires Acyclic(h) && ExtensionsQuiet(h, t, from, name) && from <= i < |At(h, t).includes|
    ensures var inc := At(h, t).includes[i];
            Silent(h, [inc] + Tail(Ancestors(h, inc)), name) && Silent(h, Ancestors(h, inc), name)
  {
    hide Acyclic, Above, Ancestors, Mentions, Tail, Silent;
    ExtensionSilent(h, At(h, t).includes[i], name);
  }

  lemma Assoc(a: seq<Id>, b: seq<Id>, c: seq<Id>)
    ensures a + b + c == a + (b + c)
  {
  }

  /** Quiet extensions at the end, which come first, do not matter. */
  lemma {:induction false} SkipExtensions(h: Hier, s: Id, from: nat, n: nat, tail: seq<Id>, name: string)
    requires Acyclic(h) && from <= n <= |At(h, s).includes| && ExtensionsQuiet(h, s, from, name)
    ensures Pick(h, SingletonPart(h, s, n) + tail, name) == Pick(h, SingletonPart(h, s, from) + tail, name)
  {
    hide *;
    if n > from {
      var inc := At(h, s).includes[n - 1];
      QuietAt(h, s, from, n - 1, name);
      SingletonStep(h, s, n);
      SkipExtensions(h, s, from, n - 1, tail, name);
      var first := [inc] + Tail(Ancestors(h, inc));
      Assoc(first, SingletonPart(h, s, n - 1), tail);
      PickSplit(h, first, SingletonPart(h, s, n - 1) + tail, name);
    }
  }

  /** Then what the object was extended with, the last first. */
  lemma ExtensionDecides(h: Hier, o: Id, s: Id, i: nat, name: string)
    requires Acyclic(h) && o in h.objs && h.objs[o].singleton == Some(s) && !Mentions(h, s, name)
    requires i < |At(h, s).includes| && ExtensionsQuiet(h, s, i + 1, name) && Mentions(h, At(h, s).includes[i], name)
    ensures Lookup(h, Object(o), name) == Says(h, At(h, s).includes[i], name)
  {
    hide *;
    SilentOne(h, s, name);
    var inc, up := At(h, s).includes[i], Ancestors(h, h.objs[o].class_);
    SingletonLookup(h, o, s, name);
    PickSplit(h, [s], SingletonPart(h, s, |At(h, s).includes|) + up, name);
    SkipExtensions(h, s, i + 1, |At(h, s).includes|, up, name);
    SingletonStep(h, s, i + 1);
    var above, before := Tail(Ancestors(h, inc)), SingletonPart(h, s, i);
    Assoc([inc] + above, before, up);
    Assoc([inc], above, before + up);
    PickFirst(h, inc, above + (before + up), name);
  }

  lemma SilentOne(h: Hier, s: Id, name: string)
    requires !Mentions(h, s, name)
    ensures Silent(h, [s], name)
  {
  }

  /** Then the class: where neither the singleton nor any ancestor of what it includes mentions the name, the object
      answers as a plain object of its class does. */
  lemma ClassBehindSingleton(h: Hier, o: Id, s: Id, name: string)
    requires Acyclic(h) && o in h.objs && h.objs[o].singleton == Some(s) && !Mentions(h, s, name)
    requires ExtensionsQuiet(h, s, 0, name)
    ensures Lookup(h, Object(o), name) == Lookup(h, Core(h.objs[o].class_), name)
  {
    hide *;
    SilentOne(h, s, name);
    ChainOfClass(h, h.objs[o].class_, name);
    var up := Ancestors(h, h.objs[o].class_);
    SingletonLookup(h, o, s, name);
    PickSplit(h, [s], SingletonPart(h, s, |At(h, s).includes|) + up, name);
    SkipExtensions(h, s, 0, |At(h, s).includes|, up, name);
    NoSingletonPart(h, s);
    assert [] + up == up;
  }

  lemma ChainOfClass(h: Hier, c: Id, name: string)
    requires Acyclic(h)
    ensures Lookup(h, Core(c), name) == Pick(h, Ancestors(h, c), name)
  {
    hide Acyclic, Ancestors, Pick;
  }

  /** The source skips the first ancestor of an extension where it means to skip the extension itself.  So an object
      does not see a module that was prepended to what it was extended with. */
  lemma ExtensionLosesPrepended(h: Hier, o: Id, s: Id, m: Id, p: Id, name: string)
    requires Acyclic(h) && o in h.objs && h.objs[o].singleton == Some(s) && At(h, s).includes == [m]
    requires At(h, m) == Module(false, None, At(h, m).methods, [], [p], At(h, m).meta) && p != m
    requires At(h, p).includes == []
    requires Mentions(h, p, name) && !Mentions(h, m, name) && !Mentions(h, s, name)
    ensures Lookup(h, Core(m), name) == Says(h, p, name)
    ensures Lookup(h, Object(o), name) == Lookup(h, Core(h.objs[o].class_), name)
  {
    TwoAncestors(h, m, p);
    ChainOfClass(h, m, name);
    ChainOfClass(h, h.objs[o].class_, name);
    SilentOne(h, s, name);
    SilentTwo(h, m, name);
    hide *;
    var up := Ancestors(h, h.objs[o].class_);
    PickFirst(h, p, [m], name);
    assert [p] + [m] == [p, m];
    SingletonLookup(h, o, s, name);
    SingletonStep(h, s, 1);
    NoSingletonPart(h, s);
    TailOfTwo(p, m);
    assert ([m] + [m]) + [] == [m, m];
    PickSplit(h, [s], [m, m] + up, name);
    PickSplit(h, [m, m], up, name);
  }

  lemma SilentTwo(h: Hier, m: Id, name: string)
    requires !Mentions(h, m, name)
    ensures Silent(h, [m, m], name)
  {
  }

  lemma TailOfTwo(p: Id, m: Id)
    ensures Tail([p, m]) == [m]
  {
  }

  lemma TwoAncestors(h: Hier, m: Id, p: Id)
    requires Acyclic(h) && At(h, m).superclass.None? && At(h, m).includes == [] && At(h, m).prepends == [p]
    requires At(h, p).includes == [] && p != m
    ensures Ancestors(h, m) == [p, m]
  {
    RawParts(h, m);
    PrependsStep(h, m, 0);
    NoPrepends(h, m);
    NoPrepends(h, p);
    PushHead(h, p);
    hide *;
    RestNone(h, m);
    assert [p] + [] + [] + [m] + [] + [] == [p, m];
    DedupTwo(p, m);
    AncestorsAre(h, m);
  }

  lemma AncestorsAre(h: Hier, m: Id)
    requires Acyclic(h)
    ensures Ancestors(h, m) == Dedup(Raw(h, m))
  {
  }

  lemma RestNone(h: Hier, m: Id)
    requires Acyclic(h) && At(h, m).superclass.None?
    ensures Rest(h, m) == []
  {
  }

  lemma DedupTwo(p: Id, m: Id)
    requires p != m
    ensures Dedup([p, m]) == [p, m]
  {
    assert [p, m][1..] == [m] && [m][1..] == [];
    assert Dedup([m]) == [m] + Dedup([]);
  }

  // ----- modules -----------------------------------------------------------------------------------------

  lemma ModLookup(h: Hier, m: Id, name: string)
    requires Acyclic(h)
    ensures var up := Ancestors(h, if At(h, m).isClass then h.classId else h.moduleId);
            Lookup(h, Mod(m), name) == Pick(h, MetaChain(h, m) + up, name)
  {
    hide Acyclic, Ancestors, Pick, MetaChain;
  }

  /** The meta part of `m` itself comes first. */
  lemma ModParts(h: Hier, m: Id, name: string) returns (more: seq<Id>)
    requires Acyclic(h)
    ensures Lookup(h, Mod(m), name) == Pick(h, MetaPart(h, m) + more, name)
  {
    hide *;
    ModLookup(h, m, name);
    MetaStep(h, m);
    var next := if At(h, m).isClass then At(h, m).superclass else None;
    var rest := if next.Some? then MetaChain(h, next.value) else [];
    var up := Ancestors(h, if At(h, m).isClass then h.classId else h.moduleId);
    Assoc(MetaPart(h, m), rest, up);
    more := rest + up;
  }

  /** A module's own meta decides if it mentions the name. */
  lemma MetaDecides(h: Hier, m: Id, t: Id, name: string)
    requires Acyclic(h) && At(h, m).meta == Some(t) && Mentions(h, t, name)
    ensures Lookup(h, Mod(m), name) == Says(h, t, name)
  {
    hide *;
    var more := ModParts(h, m, name);
    MetaPartIs(h, m);
    var incs := MetaIncludes(h, t, |At(h, t).includes|);
    Assoc([t], incs, more);
    PickFirst(h, t, incs + more, name);
  }

  lemma MetaPartIs(h: Hier, m: Id)
    requires Acyclic(h)
    ensures At(h, m).meta.None? ==> MetaPart(h, m) == []
    ensures At(h, m).meta.Some? ==>
              var t := At(h, m).meta.value; MetaPart(h, m) == [t] + MetaIncludes(h, t, |At(h, t).includes|)
  {
    hide Acyclic, MetaIncludes;
  }

  lemma {:induction false} SkipMetaIncludes(h: Hier, t: Id, from: nat, n: nat, tail: seq<Id>, name: string)
    requires Acyclic(h) && from <= n <= |At(h, t).includes| && ExtensionsQuiet(h, t, from, name)
    ensures Pick(h, MetaIncludes(h, t, n) + tail, name) == Pick(h, MetaIncludes(h, t, from) + tail, name)
  {
    hide *;
    if n > from {
      var inc := At(h, t).includes[n - 1];
      QuietAt(h, t, from, n - 1, name);
      MetaIncludesStep(h, t, n);
      SkipMetaIncludes(h, t, from, n - 1, tail, name);
      var first, rest := Ancestors(h, inc), MetaIncludes(h, t, n - 1);
      Assoc(first, rest, tail);
      PickSplit(h, first, rest + tail, name);
    }
  }

  lemma MetaIncludesStep(h: Hier, t: Id, i: nat)
    requires Acyclic(h) && 0 < i <= |At(h, t).includes|
    ensures MetaIncludes(h, t, i) == Ancestors(h, At(h, t).includes[i - 1]) + MetaIncludes(h, t, i - 1)
    ensures MetaIncludes(h, t, 0) == []
  {
    hide Acyclic, Ancestors;
  }

  lemma NoMetaIncludes(h: Hier, t: Id)
    requires Acyclic(h)
    ensures MetaIncludes(h, t, 0) == []
  {
  }

  /** Then what the meta includes, the last first: the first of these with an ancestor that mentions the name answers as
      a class of that ancestry would. */
  lemma MetaIncludeDecides(h: Hier, m: Id, t: Id, i: nat, x: Id, name: string)
    requires Acyclic(h) && At(h, m).meta == Some(t) && !Mentions(h, t, name)
    requires i < |At(h, t).includes| && ExtensionsQuiet(h, t, i + 1, name)
    requires Above(h, At(h, t).includes[i], x) && Mentions(h, x, name)
    ensures Lookup(h, Mod(m), name) == Lookup(h, Core(At(h, t).includes[i]), name)
  {
    hide *;
    var inc, n := At(h, t).includes[i], |At(h, t).includes|;
    NotSilent(h, inc, x, name);
    SilentOne(h, t, name);
    ChainOfClass(h, inc, name);
    var more := ModParts(h, m, name);
    MetaPartIs(h, m);
    Assoc([t], MetaIncludes(h, t, n), more);
    PickSplit(h, [t], MetaIncludes(h, t, n) + more, name);
    SkipMetaIncludes(h, t, i + 1, n, more, name);
    MetaIncludesStep(h, t, i + 1);
    var first, rest := Ancestors(h, inc), MetaIncludes(h, t, i);
    Assoc(first, rest, more);
    PickSplit(h, first, rest + more, name);
  }

  lemma NotSilent(h: Hier, inc: Id, x: Id, name: string)
    requires Acyclic(h) && Above(h, inc, x) && Mentions(h, x, name)
    ensures !Silent(h, Ancestors(h, inc), name)
  {
    hide Acyclic, Above, Ancestors, Mentions;
    AncestorsExactly(h, inc);
    assert x in Ancestors(h, inc);
  }

  /** The module's own meta has nothing to say. */
  ghost predicate MetaQuiet(h: Hier, m: Id, name: string) {
    At(h, m).meta.Some? ==> !Mentions(h, At(h, m).meta.value, name) && ExtensionsQuiet(h, At(h, m).meta.value, 0, name)
  }

  lemma MetaPartSilent(h: Hier, m: Id, tail: seq<Id>, name: string)
    requires Acyclic(h) && MetaQuiet(h, m, name)
    ensures Pick(h, MetaPart(h, m) + tail, name) == Pick(h, tail, name)
  {
    MetaPartIs(h, m);
    if At(h, m).meta.Some? {
      var t := At(h, m).meta.value;
      SilentOne(h, t, name);
      hide *;
      var incs := MetaIncludes(h, t, |At(h, t).includes|);
      assert [t] + incs + tail == [t] + (incs + tail);
      PickSplit(h, [t], incs + tail, name);
      SkipMetaIncludes(h, t, 0, |At(h, t).includes|, tail, name);
      NoMetaIncludes(h, t);
      assert [] + tail == tail;
    } else {
      assert [] + tail == tail;
    }
  }

  /** Then the superclass of a class. */
  lemma SuperMetaDecides(h: Hier, m: Id, s: Id, name: string)
    requires Acyclic(h) && MetaQuiet(h, m, name)
    requires At(h, m).isClass && At(h, m).superclass == Some(s) && At(h, s).isClass
    ensures Lookup(h, Mod(m), name) == Lookup(h, Mod(s), name)
  {
    hide *;
    ModLookup(h, m, name);
    ModLookup(h, s, name);
    MetaStep(h, m);
    var up := Ancestors(h, h.classId);
    assert MetaPart(h, m) + MetaChain(h, s) + up == MetaPart(h, m) + (MetaChain(h, s) + up);
    MetaPartSilent(h, m, MetaChain(h, s) + up, name);
  }

  /** And at last `Class`, or `Module`. */
  lemma ClassOrModuleDecides(h: Hier, m: Id, name: string)
    requires Acyclic(h) && MetaQuiet(h, m, name) && (At(h, m).isClass ==> At(h, m).superclass.None?)
    ensures Lookup(h, Mod(m), name) == Lookup(h, Core(if At(h, m).isClass then h.classId else h.moduleId), name)
  {
    hide *;
    var k := if At(h, m).isClass then h.classId else h.moduleId;
    ModLookup(h, m, name);
    ChainOfClass(h, k, name);
    MetaStep(h, m);
    assert MetaPart(h, m) + [] == MetaPart(h, m);
    MetaPartSilent(h, m, Ancestors(h, k), name);
  }
}
