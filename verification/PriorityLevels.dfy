/** What the priority index means: ten levels of pending entries, independent of how they are stored. */
module PriorityLevels {
  import opened Wrappers
  import opened EntryRing

  const MAX_PRIORITY: nat := 10

  /** Level p holds the entries of priority p, oldest first. */
  type Levels = l: seq<seq<PendingEntry>> | |l| == MAX_PRIORITY witness seq(MAX_PRIORITY, i => [])

  function Clamped(priority: int): (p: nat)
    ensures p < MAX_PRIORITY
    ensures 0 <= priority < MAX_PRIORITY ==> p == priority
    ensures priority < 0 ==> p == 0
    ensures priority > 9 ==> p == 9
  {
    if priority < 0 then 0 else if priority >= MAX_PRIORITY then MAX_PRIORITY - 1 else priority
  }

  /** How often e occurs in s; without an e, how many entries s has. */
  function Count(s: seq<PendingEntry>, e: Option<PendingEntry>): nat {
    if e.None? then |s| else multiset(s)[e.value]
  }

  function Occurrences(levels: seq<seq<PendingEntry>>, e: Option<PendingEntry>): nat {
    if levels == [] then 0 else Occurrences(levels[..|levels| - 1], e) + Count(levels[|levels| - 1], e)
  }

  /** Number of entries in the given levels. */
  function Total(levels: seq<seq<PendingEntry>>): nat {
    Occurrences(levels, None)
  }

  lemma {:induction false} OccurrencesUpdate(levels: seq<seq<PendingEntry>>, p: nat, s: seq<PendingEntry>, e: Option<PendingEntry>)
    requires p < |levels|
    ensures Occurrences(levels[p := s], e) == Occurrences(levels, e) - Count(levels[p], e) + Count(s, e)
  {
    var n := |levels| - 1;
    if p < n {
      OccurrencesUpdate(levels[..n], p, s, e);
      assert levels[p := s][..n] == levels[..n][p := s];
    } else {
      assert levels[p := s][..n] == levels[..n];
    }
  }

  // ----- which entry a pop takes

  predicate IsHighest(levels: Levels, q: nat) {
    && q < MAX_PRIORITY && levels[q] != []
    && forall p | q < p < MAX_PRIORITY :: levels[p] == []
  }

  /** q holds the earliest-arrived head below the threshold, the lowest such level on a tie. */
  predicate IsEarliestBelow(levels: Levels, threshold: int, q: nat) {
    && q < MAX_PRIORITY && q < threshold && levels[q] != []
    && (forall p | 0 <= p < MAX_PRIORITY && p < threshold && levels[p] != [] ::
          levels[q][0].arrivedAt <= levels[p][0].arrivedAt)
    && forall p | 0 <= p < q && levels[p] != [] :: levels[q][0].arrivedAt < levels[p][0].arrivedAt
  }

  /** The level PopWithThreshold takes from: by priority at or above the threshold, else by arrival below it. */
  predicate Pops(levels: Levels, threshold: int, q: nat) {
    if exists p :: 0 <= p < MAX_PRIORITY && threshold <= p && levels[p] != [] then
      threshold <= q && IsHighest(levels, q)
    else
      IsEarliestBelow(levels, threshold, q)
  }

  lemma PopsIsFunctional(levels: Levels, threshold: int, q: nat, q': nat)
    requires Pops(levels, threshold, q) && Pops(levels, threshold, q')
    ensures q == q'
  {
  }

  // ----- promotion

  predicate IsStale(e: PendingEntry, now: int, ttl: int) {
    now - e.arrivedAt > ttl
  }

  function Stale(s: seq<PendingEntry>, now: int, ttl: int): (r: seq<PendingEntry>)
    ensures forall e | e in r :: e in s && IsStale(e, now, ttl)
    ensures forall e | e in s && IsStale(e, now, ttl) :: e in r
  {
    if s == [] then [] else
      var r := Stale(s[..|s| - 1], now, ttl);
      if IsStale(s[|s| - 1], now, ttl) then r + [s[|s| - 1]] else r
  }

  function Fresh(s: seq<PendingEntry>, now: int, ttl: int): (r: seq<PendingEntry>)
    ensures |r| <= |s|
    ensures forall e | e in r :: e in s && !IsStale(e, now, ttl)
    ensures forall e | e in s && !IsStale(e, now, ttl) :: e in r
  {
    if s == [] then [] else
      var r := Fresh(s[..|s| - 1], now, ttl);
      if IsStale(s[|s| - 1], now, ttl) then r else r + [s[|s| - 1]]
  }

  /** What arrives at level q before the capacity is applied. */
  function Arriving(levels: Levels, now: int, ttl: int, q: nat): seq<PendingEntry>
    requires q < MAX_PRIORITY
  {
    (if q == MAX_PRIORITY - 1 then levels[q] else Fresh(levels[q], now, ttl))
    + (if q == 0 then [] else Stale(levels[q - 1], now, ttl))
  }

  /** Every stale entry moves up one level; the top level keeps all of its own. */
  function Promoted(levels: Levels, cap: nat, now: int, ttl: int): Levels {
    seq(MAX_PRIORITY, q requires 0 <= q < MAX_PRIORITY => Kept(cap, Arriving(levels, now, ttl, q)))
  }

  // ----- promotion keeps the order

  /** Positions in a sequence of length n, from front to back. */
  predicate Ascending(f: seq<nat>, n: nat) {
    && (forall k | 0 <= k < |f| :: f[k] < n)
    && forall a, b | 0 <= a < b < |f| :: f[a] < f[b]
  }

  /** r holds the entries of s at the positions f. */
  predicate Picks(s: seq<PendingEntry>, f: seq<nat>, r: seq<PendingEntry>) {
    && Ascending(f, |s|) && |r| == |f|
    && forall k {:trigger r[k]} | 0 <= k < |r| :: r[k] == s[f[k]]
  }

  /** f holds exactly the positions of s whose entries are older than ttl. */
  predicate AreStale(s: seq<PendingEntry>, f: seq<nat>, now: int, ttl: int) {
    forall i: nat | i < |s| :: i in f <==> now - s[i].arrivedAt > ttl
  }

  /** f holds exactly the positions of s whose entries are not. */
  predicate AreFresh(s: seq<PendingEntry>, f: seq<nat>, now: int, ttl: int) {
    forall i: nat | i < |s| :: i in f <==> now - s[i].arrivedAt <= ttl
  }

  lemma PicksLonger(s: seq<PendingEntry>, n: nat, f: seq<nat>, r: seq<PendingEntry>)
    requires n < |s| && Picks(s[..n], f, r)
    ensures Picks(s, f, r) && Picks(s, f + [n], r + [s[n]])
    ensures n !in f && forall i: nat | i < n :: i in f + [n] <==> i in f
  {
    forall k | 0 <= k < |r|
      ensures r[k] == s[f[k]]
    {
      assert r[k] == s[..n][f[k]];
    }
  }

  /** The stale entries are those at the stale positions, in their order. */
  lemma {:induction false} StalePositions(s: seq<PendingEntry>, now: int, ttl: int) returns (f: seq<nat>)
    ensures Picks(s, f, Stale(s, now, ttl)) && AreStale(s, f, now, ttl)
  {
    f := [];
    if s != [] {
      var n := |s| - 1;
      var g := StalePositions(s[..n], now, ttl);
      PicksLonger(s, n, g, Stale(s[..n], now, ttl));
      f := if now - s[n].arrivedAt > ttl then g + [n] else g;
      forall i: nat | i < |s|
        ensures i in f <==> now - s[i].arrivedAt > ttl
      {
        assert i < n ==> s[..n][i] == s[i];
        assert n in g + [n];
      }
    }
  }

  /** The entries that are left are those at the other positions, in their order. */
  lemma {:induction false} FreshPositions(s: seq<PendingEntry>, now: int, ttl: int) returns (f: seq<nat>)
    ensures Picks(s, f, Fresh(s, now, ttl)) && AreFresh(s, f, now, ttl)
  {
    f := [];
    if s != [] {
      var n := |s| - 1;
      var g := FreshPositions(s[..n], now, ttl);
      PicksLonger(s, n, g, Fresh(s[..n], now, ttl));
      f := if now - s[n].arrivedAt <= ttl then g + [n] else g;
      forall i: nat | i < |s|
        ensures i in f <==> now - s[i].arrivedAt <= ttl
      {
        assert i < n ==> s[..n][i] == s[i];
        assert n in g + [n];
      }
    }
  }

  lemma AllPositions(s: seq<PendingEntry>) returns (f: seq<nat>)
    ensures Picks(s, f, s) && forall i: nat | i < |s| :: i in f
  {
    f := seq(|s|, i => i);
    forall i: nat | i < |s|
      ensures i in f
    {
      assert f[i] == i;
    }
  }

  /** Beyond the capacity the front of what arrives is evicted, and the rest is the level. */
  lemma ArrivingSplits(levels: Levels, cap: nat, now: int, ttl: int, q: nat)
    requires q < MAX_PRIORITY
    ensures var s, out := Arriving(levels, now, ttl, q), Evicted(levels, cap, now, ttl)[q];
            && out + Promoted(levels, cap, now, ttl)[q] == s
            && |out| == if cap == 0 || |s| <= cap then 0 else |s| - cap
  {
    var s := Arriving(levels, now, ttl, q);
    assert Promoted(levels, cap, now, ttl)[q] == Kept(cap, s);
    assert Evicted(levels, cap, now, ttl)[q] == s[..|s| - |Kept(cap, s)|];
    assert s == s[..|s| - |Kept(cap, s)|] + Kept(cap, s);
  }

  /**
   What a promotion makes of level q: the entries that stay there, in their order, and behind them the
   stale ones of the level below, in theirs; beyond the capacity the front of that is evicted.
   */
  lemma PromotedRaises(levels: Levels, cap: nat, now: int, ttl: int, q: nat)
    returns (own: seq<nat>, came: seq<nat>, stay: seq<PendingEntry>, rise: seq<PendingEntry>)
    requires q < MAX_PRIORITY
    ensures Picks(levels[q], own, stay)
    ensures if q == 9 then forall i: nat | i < |levels[q]| :: i in own else AreFresh(levels[q], own, now, ttl)
    ensures var below := if q == 0 then [] else levels[q - 1]; Picks(below, came, rise) && AreStale(below, came, now, ttl)
    ensures var n, out := |stay| + |rise|, Evicted(levels, cap, now, ttl)[q];
            && out + Promoted(levels, cap, now, ttl)[q] == stay + rise
            && |out| == if cap == 0 || n <= cap then 0 else n - cap
  {
    if q == 9 {
      own := AllPositions(levels[q]);
      stay := levels[q];
    } else {
      own := FreshPositions(levels[q], now, ttl);
      stay := Fresh(levels[q], now, ttl);
    }
    var below := if q == 0 then [] else levels[q - 1];
    came := StalePositions(below, now, ttl);
    rise := Stale(below, now, ttl);
    ArrivingSplits(levels, cap, now, ttl, q);
    assert Arriving(levels, now, ttl, q) == stay + rise;
  }

  lemma PicksInOrder(s: seq<PendingEntry>, f: seq<nat>, r: seq<PendingEntry>, i: nat, j: nat) returns (x: nat, y: nat)
    requires Picks(s, f, r) && i in f && j in f && i < j < |s|
    ensures x < y < |r| && r[x] == s[i] && r[y] == s[j]
  {
    x :| x < |f| && f[x] == i;
    y :| y < |f| && f[y] == j;
    assert r[x] == s[f[x]] && r[y] == s[f[y]];
  }

  lemma StaleInOrder(s: seq<PendingEntry>, now: int, ttl: int, i: nat, j: nat) returns (x: nat, y: nat)
    requires i < j < |s| && now - s[i].arrivedAt > ttl && now - s[j].arrivedAt > ttl
    ensures x < y < |Stale(s, now, ttl)| && Stale(s, now, ttl)[x] == s[i] && Stale(s, now, ttl)[y] == s[j]
  {
    var f := StalePositions(s, now, ttl);
    x, y := PicksInOrder(s, f, Stale(s, now, ttl), i, j);
  }

  /** e is at place a of a level, counted from its front; a place before the front is that of an evicted entry. */
  predicate IsAt(level: seq<PendingEntry>, out: seq<PendingEntry>, a: int, e: PendingEntry) {
    -|out| <= a < |level| && e == if a >= 0 then level[a] else out[|out| + a]
  }

  lemma InEither(out: seq<PendingEntry>, level: seq<PendingEntry>, stay: seq<PendingEntry>, rise: seq<PendingEntry>, x: nat)
    requires out + level == stay + rise && x < |rise|
    ensures IsAt(level, out, |stay| + x - |out|, rise[x])
  {
    assert |out + level| == |stay + rise|;
    assert (out + level)[|stay| + x] == rise[x];
  }

  /** Where the x-th stale entry of level p arrives. */
  lemma RisesTo(levels: Levels, cap: nat, now: int, ttl: int, p: nat, x: nat)
    requires p < 9 && x < |Stale(levels[p], now, ttl)|
    ensures var level, out := Promoted(levels, cap, now, ttl)[p + 1], Evicted(levels, cap, now, ttl)[p + 1];
            var stay := if p + 1 == 9 then levels[p + 1] else Fresh(levels[p + 1], now, ttl);
            IsAt(level, out, |stay| + x - |out|, Stale(levels[p], now, ttl)[x])
  {
    var level, out := Promoted(levels, cap, now, ttl)[p + 1], Evicted(levels, cap, now, ttl)[p + 1];
    var stay := if p + 1 == 9 then levels[p + 1] else Fresh(levels[p + 1], now, ttl);
    ArrivingSplits(levels, cap, now, ttl, p + 1);
    InEither(out, level, stay, Stale(levels[p], now, ttl), x);
  }

  /** Two stale entries of one level arrive at the next one in the order they stood in. */
  lemma StaleStayInOrder(levels: Levels, cap: nat, now: int, ttl: int, p: nat, i: nat, j: nat) returns (a: int, b: int)
    requires p < 9 && i < j < |levels[p]| && now - levels[p][i].arrivedAt > ttl && now - levels[p][j].arrivedAt > ttl
    ensures a < b
    ensures IsAt(Promoted(levels, cap, now, ttl)[p + 1], Evicted(levels, cap, now, ttl)[p + 1], a, levels[p][i])
    ensures IsAt(Promoted(levels, cap, now, ttl)[p + 1], Evicted(levels, cap, now, ttl)[p + 1], b, levels[p][j])
  {
    var x, y := StaleInOrder(levels[p], now, ttl, i, j);
    RisesTo(levels, cap, now, ttl, p, x);
    RisesTo(levels, cap, now, ttl, p, y);
    var start := |if p + 1 == 9 then levels[p + 1] else Fresh(levels[p + 1], now, ttl)|
                 - |Evicted(levels, cap, now, ttl)[p + 1]|;
    a, b := start + x, start + y;
  }

  // ----- promotion loses nothing but evictions

  function Evicted(levels: Levels, cap: nat, now: int, ttl: int): Levels {
    seq(MAX_PRIORITY, q requires 0 <= q < MAX_PRIORITY =>
      var s := Arriving(levels, now, ttl, q); s[..|s| - |Kept(cap, s)|])
  }

  lemma CountConcat(s: seq<PendingEntry>, t: seq<PendingEntry>, e: Option<PendingEntry>)
    ensures Count(s + t, e) == Count(s, e) + Count(t, e)
  {
  }

  lemma {:induction false} SplitByAge(s: seq<PendingEntry>, now: int, ttl: int, e: Option<PendingEntry>)
    ensures Count(s, e) == Count(Fresh(s, now, ttl), e) + Count(Stale(s, now, ttl), e)
  {
    if s != [] {
      var last := s[|s| - 1];
      SplitByAge(s[..|s| - 1], now, ttl, e);
      assert s == s[..|s| - 1] + [last];
      CountConcat(s[..|s| - 1], [last], e);
      CountConcat(Fresh(s[..|s| - 1], now, ttl), [last], e);
      CountConcat(Stale(s[..|s| - 1], now, ttl), [last], e);
    }
  }

  /** Level q of up and out share what stayed at level q and what came from below it. */
  predicate Shares(levels: Levels, up: Levels, out: Levels, now: int, ttl: int, e: Option<PendingEntry>, q: nat)
    requires q < MAX_PRIORITY
  {
    Count(up[q], e) + Count(out[q], e)
    == Count(if q == MAX_PRIORITY - 1 then levels[q] else Fresh(levels[q], now, ttl), e)
       + (if q == 0 then 0 else Count(Stale(levels[q - 1], now, ttl), e))
  }

  lemma KeepsOrEvicts(cap: nat, s: seq<PendingEntry>, e: Option<PendingEntry>)
    ensures Count(s, e) == Count(Kept(cap, s), e) + Count(s[..|s| - |Kept(cap, s)|], e)
  {
    CountConcat(s[..|s| - |Kept(cap, s)|], Kept(cap, s), e);
    assert s == s[..|s| - |Kept(cap, s)|] + Kept(cap, s);
  }

  lemma PromotedKeepsOrEvicts(levels: Levels, cap: nat, now: int, ttl: int, e: Option<PendingEntry>, q: nat)
    requires q < MAX_PRIORITY
    ensures Count(Promoted(levels, cap, now, ttl)[q], e) + Count(Evicted(levels, cap, now, ttl)[q], e)
         == Count(Arriving(levels, now, ttl, q), e)
  {
    var s := Arriving(levels, now, ttl, q);
    assert Promoted(levels, cap, now, ttl)[q] == Kept(cap, s);
    assert Evicted(levels, cap, now, ttl)[q] == s[..|s| - |Kept(cap, s)|];
    KeepsOrEvicts(cap, s, e);
  }

  lemma PromotedShares(levels: Levels, cap: nat, now: int, ttl: int, e: Option<PendingEntry>, q: nat)
    requires q < MAX_PRIORITY
    ensures Shares(levels, Promoted(levels, cap, now, ttl), Evicted(levels, cap, now, ttl), now, ttl, e, q)
  {
    var own := if q == MAX_PRIORITY - 1 then levels[q] else Fresh(levels[q], now, ttl);
    var came := if q == 0 then [] else Stale(levels[q - 1], now, ttl);
    assert Arriving(levels, now, ttl, q) == own + came;
    CountConcat(own, came, e);
    PromotedKeepsOrEvicts(levels, cap, now, ttl, e, q);
  }

  /** Below level n everything is kept, evicted, or on its way into level n. */
  lemma {:induction false} SharesAddUp(levels: Levels, up: Levels, out: Levels, now: int, ttl: int, e: Option<PendingEntry>, n: nat)
    requires n < MAX_PRIORITY
    requires forall q | 0 <= q < MAX_PRIORITY :: Shares(levels, up, out, now, ttl, e, q)
    ensures Occurrences(levels[..n], e) == Occurrences(up[..n], e) + Occurrences(out[..n], e)
                                           + (if n == 0 then 0 else Count(Stale(levels[n - 1], now, ttl), e))
  {
    if n > 0 {
      SharesAddUp(levels, up, out, now, ttl, e, n - 1);
      assert Shares(levels, up, out, now, ttl, e, n - 1);
      SplitByAge(levels[n - 1], now, ttl, e);
      OccurrencesSucc(levels, n - 1, e);
      OccurrencesSucc(up, n - 1, e);
      OccurrencesSucc(out, n - 1, e);
    }
  }

  lemma OccurrencesSucc(levels: seq<seq<PendingEntry>>, n: nat, e: Option<PendingEntry>)
    requires n < |levels|
    ensures Occurrences(levels[..n + 1], e) == Occurrences(levels[..n], e) + Count(levels[n], e)
  {
    assert levels[..n + 1][..n] == levels[..n];
  }

  /**
   Every occurrence of an entry is, after a promotion, in one level or evicted; and the number
   of entries drops by exactly the evictions.
   */
  lemma PromoteConserves(levels: Levels, cap: nat, now: int, ttl: int, e: Option<PendingEntry>, up: Levels, out: Levels)
    requires up == Promoted(levels, cap, now, ttl) && out == Evicted(levels, cap, now, ttl)
    ensures Occurrences(levels, e) == Occurrences(up, e) + Occurrences(out, e)
  {
    var top := MAX_PRIORITY - 1;
    forall q | 0 <= q < MAX_PRIORITY
      ensures Shares(levels, up, out, now, ttl, e, q)
    {
      PromotedShares(levels, cap, now, ttl, e, q);
    }
    SharesAddUp(levels, up, out, now, ttl, e, top);
    assert Shares(levels, up, out, now, ttl, e, top);
  }
}
