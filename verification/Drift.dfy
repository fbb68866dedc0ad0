/**
  When each leaf is checked for drift: leaves are ranked by a hash of their name and spread
  evenly over the interval; a leaf is due once in every slot.  The hash is arbitrary.
*/
module Drift {
  import opened Prelude
  import opened Ordering

  function AtLeastOne(n: nat): nat { if n == 0 then 1 else n }

  // ----- placement ----------------------------------------------------------------------

  /** The ranking order: by hash, then by name. */
  predicate RankLe(hash: string -> string, a: string, b: string) {
    if hash(a) != hash(b) then StrLe(hash(a), hash(b)) else StrLe(a, b)
  }

  function ByHash(hash: string -> string): (string, string) -> bool { (a, b) => RankLe(hash, a, b) }

  lemma ByHashIsTotalOrder(hash: string -> string)
    ensures TotalOrder(ByHash(hash))
  {
    var le := ByHash(hash);
    forall a, b ensures le(a, b) || le(b, a) { StrLeTotal(hash(a), hash(b)); StrLeTotal(a, b); }
    forall a, b, c | le(a, b) && le(b, c) ensures le(a, c) { RankTransitive(hash, a, b, c); }
    forall a, b | le(a, b) && le(b, a) ensures a == b {
      if hash(a) != hash(b) { StrLeAntisymmetric(hash(a), hash(b)); } else { StrLeAntisymmetric(a, b); }
    }
  }

  lemma RankTransitive(hash: string -> string, a: string, b: string, c: string)
    requires RankLe(hash, a, b) && RankLe(hash, b, c)
    ensures RankLe(hash, a, c)
  {
    hide StrLe;
    if hash(a) == hash(b) == hash(c) {
      StrLeTransitive(a, b, c);
    } else if hash(a) != hash(b) && hash(b) != hash(c) {
      StrLeTransitive(hash(a), hash(b), hash(c));
      if hash(a) == hash(c) { StrLeAntisymmetric(hash(a), hash(b)); }
    }
  }

  /** `dedup_by`: drop an element equal to the one before it. */
  function Dedup(s: seq<string>): seq<string> {
    if |s| <= 1 then s
    else if s[0] == s[1] then Dedup(s[1..])
    else [s[0]] + Dedup(s[1..])
  }

  function Ranked(hash: string -> string, names: seq<string>): seq<string> { Dedup(Sort(names, ByHash(hash))) }

  lemma {:induction false} DedupMembers(s: seq<string>)
    ensures (forall x :: x in Dedup(s) <==> x in s) && (s != [] ==> Dedup(s) != [] && Dedup(s)[0] == s[0])
  {
    if |s| > 1 {
      DedupMembers(s[1..]);
      assert s == [s[0]] + s[1..];
    }
  }

  lemma {:induction false} DedupSorted(s: seq<string>, le: (string, string) -> bool)
    requires TotalOrder(le) && Sorted(s, le)
    ensures Sorted(Dedup(s), le) && NoRepeats(Dedup(s))
  {
    hide TotalOrder;
    if |s| > 1 {
      var t := s[1..];
      DedupSorted(t, le);
      DedupMembers(t);
      if s[0] != s[1] {
        var d := Dedup(t);
        forall j | 0 <= j < |d| ensures le(s[0], d[j]) && s[0] != d[j] {
          assert d[j] in t;
          var i :| 0 <= i < |t| && t[i] == d[j];
          assert le(s[0], s[i + 1]) && (i == 0 || le(s[1], s[i + 1]));
          if s[0] == d[j] && i > 0 { Antisymmetric(le, s[0], s[1]); }
        }
        var e := [s[0]] + d;
        assert forall j :: 0 <= j < |d| ==> e[j + 1] == d[j];
      }
    }
  }

  /** The ranking lists every name once, and depends on which names there are, not on their order or number. */
  lemma RankingIsASet(hash: string -> string, names: seq<string>, others: seq<string>)
    requires forall x :: x in names <==> x in others
    ensures Ranked(hash, names) == Ranked(hash, others) && NoRepeats(Ranked(hash, names))
    ensures forall x :: x in Ranked(hash, names) <==> x in names
  {
    hide Dedup, Sort, RankLe;
    var le := ByHash(hash);
    ByHashIsTotalOrder(hash);
    OrderIsPreorder(le);
    SortSorted(names, le);
    SortSorted(others, le);
    SortPermutes(names, le);
    SortPermutes(others, le);
    DedupSorted(Sort(names, le), le);
    DedupSorted(Sort(others, le), le);
    DedupMembers(Sort(names, le));
    DedupMembers(Sort(others, le));
    var a, b := Ranked(hash, names), Ranked(hash, others);
    SameSetSameMultiset(a, b);
    SortedUnique(a, b, le);
  }

  lemma SameSetSameMultiset(a: seq<string>, b: seq<string>)
    requires NoRepeats(a) && NoRepeats(b) && forall x :: x in a <==> x in b
    ensures multiset(a) == multiset(b)
  {
    hide NoRepeats;
    NoRepeatsCounts(a);
    NoRepeatsCounts(b);
    forall x ensures multiset(a)[x] == multiset(b)[x] {
      assert x in a <==> x in multiset(a);
      assert x in b <==> x in multiset(b);
    }
  }

  /** The offset of the leaf with this rank among `n`. */
  function Offset(rank: nat, interval: nat, n: nat): nat {
    rank * AtLeastOne(interval) / AtLeastOne(n)
  }

  /** Each name has the offset of its rank, and nothing else has one. */
  ghost predicate PlacedBy(hash: string -> string, names: seq<string>, interval: nat, r: map<string, nat>) {
    var ranked := Ranked(hash, names);
    && r.Keys == (set x | x in names)
    && forall i :: 0 <= i < |ranked| ==> ranked[i] in r && r[ranked[i]] == Offset(i, interval, |ranked|)
  }

  /** `offsets`: rank the names, give each its offset. */
  method Offsets(hash: string -> string, names: seq<string>, interval: nat) returns (r: map<string, nat>)
    ensures PlacedBy(hash, names, interval, r)
  {
    hide Ranked, Offset;
    var ranked := Ranked(hash, names);
    RankingIsASet(hash, names, names);
    r := map[];
    var i := 0;
    while i < |ranked|
      invariant 0 <= i <= |ranked|
      invariant r.Keys == (set x | x in ranked[..i])
      invariant forall j :: 0 <= j < i ==> ranked[j] in r && r[ranked[j]] == Offset(j, interval, |ranked|)
    {
      r := r[ranked[i] := Offset(i, interval, |ranked|)];
      assert ranked[..i + 1] == ranked[..i] + [ranked[i]];
      i := i + 1;
    }
    assert ranked[..i] == ranked;
  }

  // ----- evenness -------------------------------------------------------------------------

  function CeilDiv(a: nat, b: nat): nat
    requires b > 0
  {
    (a + b - 1) / b
  }

  lemma QuotientBounds(a: int, b: nat)
    requires b > 0
    ensures a / b * b <= a < (a / b + 1) * b
  {
  }

  lemma LessByQuotient(x: int, y: int, b: nat)
    requires b > 0 && x * b < (y + 1) * b
    ensures x <= y
  {
    if x > y {
      ProductLe(y + 1, x, b);
      assert false;
    }
  }

  lemma ProductLe(x: int, y: int, b: nat)
    requires x <= y
    ensures x * b <= y * b
  {
  }

  lemma OneMore(x: int, b: nat)
    ensures (x + 1) * b == x * b + b
  {
  }

  lemma CeilBounds(a: nat, b: nat)
    requires b > 0
    ensures a <= CeilDiv(a, b) * b < a + b
  {
    QuotientBounds(a + b - 1, b);
    var q := CeilDiv(a, b);
    assert (q + 1) * b == q * b + b;
  }

  lemma CeilAdds(x: nat, y: nat, b: nat)
    requires b > 0
    ensures CeilDiv(x + y, b) <= CeilDiv(x, b) + CeilDiv(y, b)
  {
    CeilBounds(x, b);
    CeilBounds(y, b);
    CeilBounds(x + y, b);
    var p, q, r := CeilDiv(x, b), CeilDiv(y, b), CeilDiv(x + y, b);
    assert (p + q) * b == p * b + q * b;
    assert (p + q + 1) * b == (p + q) * b + b;
    LessByQuotient(r, p + q, b);
  }

  lemma {:induction false} RangeSize(s: set<nat>, lo: nat, hi: nat)
    requires lo <= hi && forall r :: r in s ==> lo <= r < hi
    ensures |s| <= hi - lo
    decreases hi - lo
  {
    if lo == hi {
      assert s == {};
    } else {
      var t := s - {hi - 1};
      RangeSize(t, lo, hi - 1);
      assert s <= t + {hi - 1};
      if hi - 1 in s { assert s == t + {hi - 1}; } else { assert s == t; }
    }
  }

  /** The ranks whose offset lies in the window of `w` consecutive seconds starting at `from`. */
  ghost function InWindow(n: nat, interval: nat, from: nat, w: nat): set<nat> {
    set r: nat | r < n && from <= Offset(r, interval, n) < from + w
  }

  lemma RankInWindow(n: nat, interval: nat, from: nat, w: nat, r: nat)
    requires n > 0 && interval > 0 && from <= Offset(r, interval, n) < from + w
    ensures CeilDiv(from * n, interval) <= r < CeilDiv((from + w) * n, interval)
  {
    var o := Offset(r, interval, n);
    OffsetBounds(r, interval, n);
    hide Offset, CeilDiv;
    ProductLe(from, o, n);
    ProductLe(o + 1, from + w, n);
    CeilBounds(from * n, interval);
    CeilBounds((from + w) * n, interval);
    var lo, hi := CeilDiv(from * n, interval), CeilDiv((from + w) * n, interval);
    OneMore(r, interval);
    LessByQuotient(lo, r, interval);
    OneMore(hi - 1, interval);
    LessByQuotient(r, hi - 1, interval);
  }

  lemma OffsetBounds(r: nat, interval: nat, n: nat)
    requires n > 0 && interval > 0
    ensures Offset(r, interval, n) * n <= r * interval < (Offset(r, interval, n) + 1) * n
  {
    QuotientBounds(r * interval, n);
  }

  lemma OffsetInRange(r: nat, interval: nat, n: nat)
    requires interval > 0 && r < n
    ensures Offset(r, interval, n) < interval
  {
    OffsetBounds(r, interval, n);
    var o := Offset(r, interval, n);
    hide Offset;
    ProductLe(r + 1, n, interval);
    OneMore(r, interval);
    OneMore(interval - 1, n);
    assert interval * n == n * interval;
    LessByQuotient(o, interval - 1, n);
  }

  lemma PlacementOfSome(n: nat, interval: nat, from: nat, w: nat)
    requires n > 0 && interval > 0
    ensures forall r: nat :: r < n ==> Offset(r, interval, n) < interval
    ensures |InWindow(n, interval, from, w)| <= CeilDiv(w * n, interval)
  {
    forall r: nat | r < n ensures Offset(r, interval, n) < interval { OffsetInRange(r, interval, n); }
    hide Offset, CeilDiv;
    var lo, hi := CeilDiv(from * n, interval), CeilDiv((from + w) * n, interval);
    assert (from + w) * n == from * n + w * n;
    CeilAdds(from * n, w * n, interval);
    CeilMonotone(from * n, (from + w) * n, interval);
    forall r | r in InWindow(n, interval, from, w) ensures lo <= r < hi { RankInWindow(n, interval, from, w, r); }
    RangeSize(InWindow(n, interval, from, w), lo, hi);
  }

  /** Every offset is below the interval, and no window holds more than its share, rounded up. */
  lemma PlacementIsEven(n: nat, interval: nat, from: nat, w: nat)
    ensures forall r: nat :: r < n ==> Offset(r, interval, n) < AtLeastOne(interval)
    ensures |InWindow(n, interval, from, w)| <= CeilDiv(w * n, AtLeastOne(interval))
  {
    if n == 0 {
      assert InWindow(n, interval, from, w) == {};
    } else {
      var i := AtLeastOne(interval);
      forall r: nat ensures Offset(r, interval, n) == Offset(r, i, n) {}
      hide Offset;
      assert InWindow(n, interval, from, w) == InWindow(n, i, from, w);
      PlacementOfSome(n, i, from, w);
    }
  }

  lemma {:induction false} ImageNotLarger(ranked: seq<string>, ranks: set<nat>)
    requires forall i :: i in ranks ==> i < |ranked|
    ensures |set i | i in ranks :: ranked[i]| <= |ranks|
    decreases |ranks|
  {
    if ranks != {} {
      var i :| i in ranks;
      ImageNotLarger(ranked, ranks - {i});
      assert (set j | j in ranks :: ranked[j]) == (set j | j in ranks - {i} :: ranked[j]) + {ranked[i]};
    }
  }

  /** So of the names themselves: every offset is below the interval, and no window of `w` seconds holds more of them
      than its share, rounded up. */
  lemma NamesAreEven(hash: string -> string, names: seq<string>, interval: nat, r: map<string, nat>, from: nat, w: nat)
    requires PlacedBy(hash, names, interval, r)
    ensures forall x :: x in r ==> r[x] < AtLeastOne(interval)
    ensures |set x | x in r && from <= r[x] < from + w| <= CeilDiv(w * |r|, AtLeastOne(interval))
  {
    var ranked := Ranked(hash, names);
    RankingIsASet(hash, names, names);
    hide Ranked, Offset, CeilDiv;
    var n := |ranked|;
    DistinctMeansNoRepeats(ranked);
    assert r.Keys == (set x | x in ranked);
    assert |r| == |r.Keys| == n;
    PlacementIsEven(n, interval, from, w);
    forall x | x in r ensures exists i :: 0 <= i < n && ranked[i] == x && r[x] == Offset(i, interval, n) {
      assert x in ranked;
    }
    var ranks := InWindow(n, interval, from, w);
    ImageNotLarger(ranked, ranks);
    assert (set x | x in r && from <= r[x] < from + w) <= (set i | i in ranks :: ranked[i]);
    SubsetNotLarger((set x | x in r && from <= r[x] < from + w), (set i | i in ranks :: ranked[i]));
  }

  lemma CeilMonotone(a: nat, b: nat, d: nat)
    requires a <= b && d > 0
    ensures CeilDiv(a, d) <= CeilDiv(b, d)
  {
    CeilBounds(a, d);
    CeilBounds(b, d);
    var p, q := CeilDiv(a, d), CeilDiv(b, d);
    assert (q + 1) * d == q * d + d;
    LessByQuotient(p, q, d);
  }

  // ----- being due ---------------------------------------------------------------------------

  function LastSlot(offset: nat, now: nat, interval: nat): Option<nat> {
    if now < offset then None else Some(now - (now - offset) % AtLeastOne(interval))
  }

  predicate IsDue(offset: nat, now: nat, interval: nat, lastCheck: Option<nat>) {
    match LastSlot(offset, now, interval)
    case None => false
    case Some(slot) => lastCheck.None? || lastCheck.value < slot
  }

  const U64: nat := 0x1_0000_0000_0000_0000

  /** `next_due_in`, with the u64 addition of a release build. */
  function NextDueIn(offset: nat, now: nat, interval: nat, lastCheck: Option<nat>): nat {
    if IsDue(offset, now, interval, lastCheck) then 0
    else
      var next := match LastSlot(offset, now, interval)
        case Some(slot) => (slot + AtLeastOne(interval)) % U64
        case None => offset;
      if next < now then 0 else next - now
  }

  /** The number of the slot that `now` falls in. */
  function SlotNumber(offset: nat, now: nat, interval: nat): nat
    requires offset <= now
  {
    (now - offset) / AtLeastOne(interval)
  }

  function SlotStart(offset: nat, k: nat, interval: nat): nat { offset + k * AtLeastOne(interval) }

  /** The last slot is the one `now` falls in: it has started and the next has not. */
  lemma LastSlotIsCurrent(offset: nat, now: nat, interval: nat)
    requires offset <= now
    ensures var k := SlotNumber(offset, now, interval);
            LastSlot(offset, now, interval) == Some(SlotStart(offset, k, interval)) &&
            SlotStart(offset, k, interval) <= now < SlotStart(offset, k + 1, interval)
  {
    var d, i := now - offset, AtLeastOne(interval);
    QuotientBounds(d, i);
    assert d == d / i * i + d % i;
  }

  lemma SlotOf(offset: nat, now: nat, interval: nat, k: nat)
    requires SlotStart(offset, k, interval) <= now < SlotStart(offset, k + 1, interval)
    ensures offset <= now && SlotNumber(offset, now, interval) == k
  {
    var i := AtLeastOne(interval);
    assert k * i >= 0;
    LastSlotIsCurrent(offset, now, interval);
    var m := SlotNumber(offset, now, interval);
    assert m * i < (k + 1) * i && k * i < (m + 1) * i;
    LessByQuotient(m, k, i);
    LessByQuotient(k, m, i);
  }

  /** Within a slot, being due depends only on whether the slot started after the last check. */
  lemma DueWithinSlot(offset: nat, now: nat, interval: nat, k: nat, lastCheck: Option<nat>)
    requires SlotStart(offset, k, interval) <= now < SlotStart(offset, k + 1, interval)
    ensures IsDue(offset, now, interval, lastCheck) <==>
            lastCheck.None? || lastCheck.value < SlotStart(offset, k, interval)
  {
    SlotOf(offset, now, interval, k);
    LastSlotIsCurrent(offset, now, interval);
  }

  /** Waiting `d` makes the leaf due, and waiting less does not. */
  ghost predicate LeastWait(offset: nat, now: nat, interval: nat, lastCheck: Option<nat>, d: nat) {
    && IsDue(offset, now + d, interval, lastCheck)
    && forall t: nat :: now <= t < now + d ==> !IsDue(offset, t, interval, lastCheck)
  }

  /** `next_due_in` is the least wait after which the leaf is due, exactly when the next slot starts within u64 (or need
      not be computed). */
  lemma NextDueIsLeastExactly(offset: nat, now: nat, interval: nat, lastCheck: Option<nat>)
    requires (lastCheck.Some? ==> lastCheck.value <= now) && now < U64 && interval < U64
    ensures LeastWait(offset, now, interval, lastCheck, NextDueIn(offset, now, interval, lastCheck)) <==>
            || IsDue(offset, now, interval, lastCheck)
            || now < offset
            || LastSlot(offset, now, interval).value + AtLeastOne(interval) < U64
  {
    if IsDue(offset, now, interval, lastCheck) {
    } else if now < offset {
      hide LastSlot;
      NextBeforeFirst(offset, now, interval, lastCheck);
    } else {
      LastSlotIsCurrent(offset, now, interval);
      var slot := LastSlot(offset, now, interval).value;
      hide LastSlot, SlotStart, IsDue;
      if slot + AtLeastOne(interval) < U64 {
        NextAfterSlot(offset, now, interval, lastCheck);
      } else {
        assert (slot + AtLeastOne(interval)) % U64 == slot + AtLeastOne(interval) - U64 < now;
        assert !IsDue(offset, now + 0, interval, lastCheck);
      }
    }
  }

  lemma NextBeforeFirst(offset: nat, now: nat, interval: nat, lastCheck: Option<nat>)
    requires (lastCheck.Some? ==> lastCheck.value <= now) && now < offset
    ensures NextDueIn(offset, now, interval, lastCheck) == offset - now
    ensures IsDue(offset, offset, interval, lastCheck)
    ensures forall t: nat :: t < offset ==> !IsDue(offset, t, interval, lastCheck)
  {
  }

  lemma NextAfterSlot(offset: nat, now: nat, interval: nat, lastCheck: Option<nat>)
    requires (lastCheck.Some? ==> lastCheck.value <= now) && offset <= now && !IsDue(offset, now, interval, lastCheck)
    requires LastSlot(offset, now, interval).value + AtLeastOne(interval) < U64
    ensures var d := NextDueIn(offset, now, interval, lastCheck);
            IsDue(offset, now + d, interval, lastCheck) &&
            forall t: nat :: now <= t < now + d ==> !IsDue(offset, t, interval, lastCheck)
  {
    hide *;
    var k := SlotNumber(offset, now, interval);
    LastSlotIsCurrent(offset, now, interval);
    NextStart(offset, k, interval);
    var next := SlotStart(offset, k + 1, interval);
    NextDueIs(offset, now, interval, lastCheck, next);
    Longer(interval);
    DueWithinSlot(offset, now, interval, k, lastCheck);
    NextStart(offset, k + 1, interval);
    DueWithinSlot(offset, next, interval, k + 1, lastCheck);
    forall t: nat | now <= t < next ensures !IsDue(offset, t, interval, lastCheck) {
      DueWithinSlot(offset, t, interval, k, lastCheck);
    }
  }

  lemma NextDueIs(offset: nat, now: nat, interval: nat, lastCheck: Option<nat>, next: nat)
    requires offset <= now <= next < U64 && !IsDue(offset, now, interval, lastCheck)
    requires LastSlot(offset, now, interval).Some?
    requires next == LastSlot(offset, now, interval).value + AtLeastOne(interval)
    ensures NextDueIn(offset, now, interval, lastCheck) == next - now
  {
    hide IsDue, LastSlot;
  }

  lemma Longer(interval: nat)
    ensures AtLeastOne(interval) > 0
  {
  }

  lemma NextStart(offset: nat, k: nat, interval: nat)
    ensures SlotStart(offset, k + 1, interval) == SlotStart(offset, k, interval) + AtLeastOne(interval)
  {
    var i := AtLeastOne(interval);
    assert (k + 1) * i == k * i + i;
  }

  // ----- once per slot -------------------------------------------------------------------------

  /** The last check after the first `i` polls, when every due poll is recorded. */
  function LastCheck(offset: nat, interval: nat, start: Option<nat>, polls: seq<nat>, i: nat): Option<nat>
    requires i <= |polls|
  {
    if i == 0 then start
    else
      var before := LastCheck(offset, interval, start, polls, i - 1);
      if IsDue(offset, polls[i - 1], interval, before) then Some(polls[i - 1]) else before
  }

  /** Is the leaf checked at poll `i`? */
  predicate Checked(offset: nat, interval: nat, start: Option<nat>, polls: seq<nat>, i: nat)
    requires i < |polls|
  {
    IsDue(offset, polls[i], interval, LastCheck(offset, interval, start, polls, i))
  }

  ghost predicate InOrderOfTime(start: Option<nat>, polls: seq<nat>) {
    && (forall i, j :: 0 <= i <= j < |polls| ==> polls[i] <= polls[j])
    && (start.Some? ==> forall i :: 0 <= i < |polls| ==> start.value <= polls[i])
  }

  /** The check recorded so far covers the slot that starts at `from` exactly when the starting check did, or some
      earlier poll fell into it. */
  lemma {:induction false} Covered(offset: nat, interval: nat, start: Option<nat>, polls: seq<nat>, i: nat, k: nat)
    requires InOrderOfTime(start, polls) && i <= |polls|
    requires forall j :: 0 <= j < i ==> polls[j] < SlotStart(offset, k + 1, interval)
    ensures var l, from := LastCheck(offset, interval, start, polls, i), SlotStart(offset, k, interval);
            (l.Some? && l.value >= from) <==>
            (start.Some? && start.value >= from) || exists j :: 0 <= j < i && polls[j] >= from
  {
    hide SlotStart, IsDue;
    if i > 0 {
      Covered(offset, interval, start, polls, i - 1, k);
      var t, from := polls[i - 1], SlotStart(offset, k, interval);
      var before := LastCheck(offset, interval, start, polls, i - 1);
      if t >= from { DueWithinSlot(offset, t, interval, k, before); }
    }
  }

  /** A leaf is checked at exactly the first poll of each slot that starts after its last check. */
  lemma CheckedOncePerSlot(offset: nat, interval: nat, start: Option<nat>, polls: seq<nat>, i: nat)
    requires InOrderOfTime(start, polls) && i < |polls|
    ensures Checked(offset, interval, start, polls, i) <==>
            && offset <= polls[i]
            && var from := SlotStart(offset, SlotNumber(offset, polls[i], interval), interval);
               && (start.None? || start.value < from)
               && forall j :: 0 <= j < i ==> polls[j] < from
  {
    hide SlotStart, LastCheck;
    var t := polls[i];
    if offset <= t {
      var k := SlotNumber(offset, t, interval);
      LastSlotIsCurrent(offset, t, interval);
      assert forall j :: 0 <= j < i ==> polls[j] <= t;
      Covered(offset, interval, start, polls, i, k);
      DueWithinSlot(offset, t, interval, k, LastCheck(offset, interval, start, polls, i));
    }
  }

  // ----- the due list ----------------------------------------------------------------------------

  datatype DriftLeaf = DriftLeaf(name: string, lastCheck: Option<nat>)

  function LeafNames(leaves: seq<DriftLeaf>): seq<string> {
    seq(|leaves|, i requires 0 <= i < |leaves| => leaves[i].name)
  }

  /** Leaf `l`, placed among the others, is due. */
  ghost predicate LeafDue(hash: string -> string, leaves: seq<DriftLeaf>, now: nat, interval: nat, l: DriftLeaf) {
    var ranked := Ranked(hash, LeafNames(leaves));
    exists r :: 0 <= r < |ranked| && ranked[r] == l.name &&
        IsDue(Offset(r, interval, |ranked|), now, interval, l.lastCheck)
  }

  /** `x` names a due leaf among `some`. */
  ghost predicate NamesDue(hash: string -> string, leaves: seq<DriftLeaf>, now: nat, interval: nat,
      some: seq<DriftLeaf>, x: string) {
    exists l :: l in some && l.name == x && LeafDue(hash, leaves, now, interval, l)
  }

  /** `drift_due`: the names of the due leaves, sorted, each once. */
  method DriftDue(hash: string -> string, leaves: seq<DriftLeaf>, now: nat, interval: nat) returns (due: seq<string>)
    ensures forall x :: x in due <==> NamesDue(hash, leaves, now, interval, leaves, x)
    ensures Sorted(due, StrLe) && NoRepeats(due)
  {
    hide *;
    var names := LeafNames(leaves);
    var placed := Offsets(hash, names, interval);
    var found: set<string>, i := {}, 0;
    NoneDue(hash, leaves, now, interval, leaves[..0]);
    while i < |leaves|
      invariant 0 <= i <= |leaves|
      invariant forall x :: x in found <==> NamesDue(hash, leaves, now, interval, leaves[..i], x)
    {
      var l := leaves[i];
      assert leaves[..i + 1] == leaves[..i] + [l];
      NameListed(leaves, i);
      PlacedDue(hash, leaves, now, interval, l, placed);
      forall x ensures NamesDue(hash, leaves, now, interval, leaves[..i + 1], x) <==>
                       NamesDue(hash, leaves, now, interval, leaves[..i], x) ||
                           (x == l.name && LeafDue(hash, leaves, now, interval, l)) {
        NamesDueStep(hash, leaves, now, interval, leaves[..i], l, x);
      }
      if IsDue(placed[l.name], now, interval, l.lastCheck) { found := found + {l.name}; }
      i := i + 1;
    }
    assert leaves[..i] == leaves;
    StrLeIsTotalOrder();
    due := InOrder(found, StrLe);
  }

  lemma NoneDue(hash: string -> string, leaves: seq<DriftLeaf>, now: nat, interval: nat, some: seq<DriftLeaf>)
    requires some == []
    ensures forall x :: !NamesDue(hash, leaves, now, interval, some, x)
  {
  }

  lemma NameListed(leaves: seq<DriftLeaf>, i: nat)
    requires i < |leaves|
    ensures leaves[i].name in LeafNames(leaves)
  {
    assert LeafNames(leaves)[i] == leaves[i].name;
  }

  lemma NamesDueStep(
    hash: string -> string, leaves: seq<DriftLeaf>, now: nat, interval: nat, some: seq<DriftLeaf>, l: DriftLeaf,
        x: string)
    ensures NamesDue(hash, leaves, now, interval, some + [l], x) <==>
            NamesDue(hash, leaves, now, interval, some, x) || (x == l.name && LeafDue(hash, leaves, now, interval, l))
  {
    hide LeafDue;
  }

  lemma PlacedDue(
    hash: string -> string, leaves: seq<DriftLeaf>, now: nat, interval: nat, l: DriftLeaf, placed: map<string, nat>)
    requires l.name in LeafNames(leaves) && PlacedBy(hash, LeafNames(leaves), interval, placed)
    ensures l.name in placed
    ensures LeafDue(hash, leaves, now, interval, l) <==> IsDue(placed[l.name], now, interval, l.lastCheck)
  {
    RankingIsASet(hash, LeafNames(leaves), LeafNames(leaves));
    hide Ranked, IsDue, Offset, LeafNames;
    var ranked := Ranked(hash, LeafNames(leaves));
    var r :| 0 <= r < |ranked| && ranked[r] == l.name;
  }

  // ----- each name's own offset ----------------------------------------------------------------------

  /** Before it in rank: a smaller hash, or the same hash and a smaller name. */
  predicate RanksBefore(hash: string -> string, a: string, b: string) {
    a != b && if hash(a) == hash(b) then StrLe(a, b) else StrLe(hash(a), hash(b))
  }

  ghost function Ahead(hash: string -> string, names: seq<string>, x: string): set<string> {
    set y | y in names && RanksBefore(hash, y, x)
  }

  lemma RankedInOrder(hash: string -> string, names: seq<string>)
    ensures var s := Ranked(hash, names);
            && NoRepeats(s) && (forall x :: x in s <==> x in names)
            && forall i, j :: 0 <= i < j < |s| ==> RanksBefore(hash, s[i], s[j])
  {
    hide Dedup, Sort, StrLe;
    var le, s := ByHash(hash), Ranked(hash, names);
    ByHashIsTotalOrder(hash);
    OrderIsPreorder(le);
    SortSorted(names, le);
    DedupSorted(Sort(names, le), le);
    RankingIsASet(hash, names, names);
    forall i, j | 0 <= i < j < |s| ensures RanksBefore(hash, s[i], s[j]) { assert le(s[i], s[j]); }
  }

  lemma OneWay(hash: string -> string, a: string, b: string)
    requires RanksBefore(hash, a, b)
    ensures !RanksBefore(hash, b, a)
  {
    hide StrLe;
    if hash(a) == hash(b) && StrLe(b, a) { StrLeAntisymmetric(a, b); }
    if hash(a) != hash(b) && StrLe(hash(b), hash(a)) { StrLeAntisymmetric(hash(a), hash(b)); }
  }

  lemma RankCountsAhead(hash: string -> string, names: seq<string>, i: nat)
    requires i < |Ranked(hash, names)|
    ensures |Ahead(hash, names, Ranked(hash, names)[i])| == i && |Ranked(hash, names)| == |set x | x in names|
  {
    RankedInOrder(hash, names);
    hide Ranked, RanksBefore;
    var s := Ranked(hash, names);
    var front := s[..i];
    DistinctMeansNoRepeats(front);
    DistinctMeansNoRepeats(s);
    assert (set x | x in s) == set x | x in names;
    forall y ensures y in Ahead(hash, names, s[i]) <==> y in front {
      if y in front { var j :| 0 <= j < i && s[j] == y; }
      if y in Ahead(hash, names, s[i]) {
        var j :| 0 <= j < |s| && s[j] == y;
        if j > i { OneWay(hash, s[i], s[j]); }
        if j == i { Irreflexive(hash, y); }
      }
    }
    assert Ahead(hash, names, s[i]) == set x | x in front;
  }

  lemma Irreflexive(hash: string -> string, a: string)
    ensures !RanksBefore(hash, a, a)
  {
  }

  /** The offset of a name is its share of the interval: with `k` of the `n` names ahead of it, it is the whole part of
      `k * interval / n`. */
  lemma OffsetsExactly(hash: string -> string, names: seq<string>, interval: nat, r: map<string, nat>, x: string)
    requires PlacedBy(hash, names, interval, r)
    ensures x in r <==> x in names
    ensures x in names ==>
              var k, n, span := |Ahead(hash, names, x)|, |set y | y in names|, (if interval == 0 then 1 else interval);
              r[x] * n <= k * span < (r[x] + 1) * n
  {
    hide Ranked, Ahead;
    if x in names {
      RankedInOrder(hash, names);
      var s := Ranked(hash, names);
      var i :| 0 <= i < |s| && s[i] == x;
      RankCountsAhead(hash, names, i);
      QuotientBounds(i * AtLeastOne(interval), |s|);
    }
  }
}
