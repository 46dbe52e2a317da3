/** The priority index as one goroutine sees it: ten rings, their counts and the total, updated in place. */
module PriorityIndex {
  import opened Wrappers
  import opened EntryRing
  import opened PriorityLevels

  /** The ten rings, each on its own storage, and what they hold. */
  class LevelStore {
    const rings: seq<Ring>
    const cap: nat
    ghost var levels: Levels
    ghost var Repr: set<object>

    ghost predicate Valid()
      reads this, Repr
      ensures Valid() ==> this in Repr
    {
      && this in Repr
      && |rings| == MAX_PRIORITY
      && (forall i | 0 <= i < MAX_PRIORITY :: rings[i] in Repr && rings[i].buf in Repr)
      && (forall i | 0 <= i < MAX_PRIORITY :: rings[i].cap == cap && rings[i].Valid() && rings[i].Contents() == levels[i])
      && (forall i, j | 0 <= i < j < MAX_PRIORITY :: rings[i] != rings[j])
      && (forall i, j | 0 <= i < j < MAX_PRIORITY :: rings[i].buf != rings[j].buf)
    }

    constructor (cap: nat)
      ensures Valid() && fresh(Repr) && this.cap == cap
      ensures forall p | 0 <= p < MAX_PRIORITY :: levels[p] == []
    {
      var rs: seq<Ring> := [];
      ghost var repr: set<object> := {};
      while |rs| < MAX_PRIORITY
        invariant |rs| <= MAX_PRIORITY && fresh(repr)
        invariant forall i | 0 <= i < |rs| :: rs[i].Valid() && rs[i].cap == cap && rs[i].Contents() == []
        invariant forall i | 0 <= i < |rs| :: rs[i] in repr && rs[i].buf in repr
        invariant forall i, j | 0 <= i < j < |rs| :: rs[i] != rs[j] && rs[i].buf != rs[j].buf
      {
        var r := new Ring(cap);
        rs := rs + [r];
        repr := repr + {r, r.buf};
      }
      this.cap := cap;
      rings := rs;
      levels := seq(MAX_PRIORITY, i => []);
      Repr := {this} + repr;
    }

    /** The capacity bounds every level. */
    lemma Bounded(p: nat)
      requires Valid() && p < MAX_PRIORITY
      ensures cap > 0 ==> |levels[p]| <= cap
    {
      assert rings[p].Contents() == levels[p];
    }

    method PushAt(p: nat, e: PendingEntry) returns (evicted: bool)
      requires Valid() && p < MAX_PRIORITY
      modifies Repr
      ensures Valid() && fresh(Repr - old(Repr))
      ensures levels == old(levels)[p := Kept(cap, old(levels)[p] + [e])]
      ensures evicted <==> cap > 0 && |old(levels)[p]| == cap
    {
      var r := rings[p];
      assert r.Contents() == levels[p];
      var out := r.PushBack(e);
      assert out.Some? <==> cap > 0 && |old(levels)[p]| == cap;
      evicted := out.Some?;
      Refresh(p);
    }

    method PopAt(p: nat) returns (e: Option<PendingEntry>)
      requires Valid() && p < MAX_PRIORITY
      modifies Repr
      ensures Valid() && fresh(Repr - old(Repr))
      ensures if old(levels)[p] == [] then e == None && levels == old(levels)
              else e == Some(old(levels)[p][0]) && levels == old(levels)[p := old(levels)[p][1..]]
    {
      assert rings[p].Contents() == levels[p];
      e := rings[p].PopFront();
      Refresh(p);
    }

    method ResetAt(p: nat, entries: seq<PendingEntry>)
      requires Valid() && p < MAX_PRIORITY
      modifies Repr
      ensures Valid() && fresh(Repr - old(Repr))
      ensures levels == old(levels)[p := Kept(cap, entries)]
    {
      rings[p].ResetFrom(entries);
      Refresh(p);
    }

    method PeekAt(p: nat) returns (e: Option<PendingEntry>)
      requires Valid() && p < MAX_PRIORITY
      ensures e == if levels[p] == [] then None else Some(levels[p][0])
    {
      e := rings[p].PeekFront();
    }

    method LinearizeAt(p: nat) returns (all: seq<PendingEntry>, size: nat)
      requires Valid() && p < MAX_PRIORITY
      ensures all == levels[p] && size == |all|
    {
      all := rings[p].Linearize();
      size := rings[p].size;
    }

    /** Brings the abstract levels up to date after ring p alone has changed. */
    ghost method Refresh(p: nat)
      requires p < MAX_PRIORITY && this in Repr && |rings| == MAX_PRIORITY
      requires forall i | 0 <= i < MAX_PRIORITY :: rings[i] in Repr && (i != p ==> rings[i].buf in Repr)
      requires forall i | 0 <= i < MAX_PRIORITY :: rings[i].cap == cap && rings[i].Valid()
      requires forall i | 0 <= i < MAX_PRIORITY && i != p :: rings[i].Contents() == levels[i]
      requires forall i, j | 0 <= i < j < MAX_PRIORITY :: rings[i] != rings[j]
      requires forall i, j | 0 <= i < j < MAX_PRIORITY :: rings[i].buf != rings[j].buf
      modifies this
      ensures Valid() && Repr == old(Repr) + {rings[p].buf}
      ensures levels == old(levels)[p := rings[p].Contents()]
    {
      Repr := Repr + {rings[p].buf};
      levels := levels[p := rings[p].Contents()];
    }
  }

  class Index {
    const store: LevelStore
    var counts: seq<int>
    var total: int

    ghost predicate Valid()
      reads this, store, store.Repr
    {
      && this !in store.Repr && store.Valid()
      && |counts| == MAX_PRIORITY
      && (forall i | 0 <= i < MAX_PRIORITY :: counts[i] == |store.levels[i]|)
      && total == Total(store.levels)
    }

    // ----- the operations

    constructor (maxPerLevel: nat)
      ensures Valid() && store.cap == maxPerLevel && fresh(store.Repr)
      ensures forall p | 0 <= p < MAX_PRIORITY :: store.levels[p] == []
    {
      store := new LevelStore(maxPerLevel);
      counts := seq(MAX_PRIORITY, i => 0);
      total := 0;
      new;
      NoEntries(store.levels);
    }

    /** Whether the entry took a free slot; at capacity it replaces the oldest of its level. */
    method Add(priority: int, offset: int, arrivedAt: int) returns (added: bool)
      requires Valid()
      modifies this, store.Repr
      ensures Valid() && fresh(store.Repr - old(store.Repr))
      ensures var p, s := Clamped(priority), old(store.levels)[Clamped(priority)];
              && store.levels == old(store.levels)[p := Kept(store.cap, s + [PendingEntry(offset, arrivedAt)])]
              && (added <==> store.cap == 0 || |s| < store.cap)
              && total == old(total) + if added then 1 else 0
    {
      var p := Clamped(priority);
      ghost var before := store.levels;
      var evicted := store.PushAt(p, PendingEntry(offset, arrivedAt));
      OccurrencesUpdate(before, p, store.levels[p], None);
      if evicted {
        return false;
      }
      counts := counts[p := counts[p] + 1];
      total := total + 1;
      return true;
    }

    /** Takes the oldest entry of level p, if there is one. */
    method TakeFrom(p: nat) returns (e: Option<PendingEntry>)
      requires Valid() && p < MAX_PRIORITY
      modifies this, store.Repr
      ensures Valid() && fresh(store.Repr - old(store.Repr))
      ensures if old(store.levels)[p] == [] then e == None && store.levels == old(store.levels)
              else e == Some(old(store.levels)[p][0]) && store.levels == old(store.levels)[p := old(store.levels)[p][1..]]
    {
      ghost var before := store.levels;
      e := store.PopAt(p);
      if e.Some? {
        OccurrencesUpdate(before, p, store.levels[p], None);
        counts := counts[p := counts[p] - 1];
        total := total - 1;
      }
    }

    /** Takes the oldest entry of the highest level that has one. */
    method PopHighest() returns (e: Option<PendingEntry>)
      requires Valid()
      modifies this, store.Repr
      ensures Valid() && fresh(store.Repr - old(store.Repr))
      ensures if forall p | 0 <= p < MAX_PRIORITY :: old(store.levels)[p] == []
              then e == None && store.levels == old(store.levels)
              else exists q | 0 <= q < MAX_PRIORITY ::
                     && IsHighest(old(store.levels), q) && e == Some(old(store.levels)[q][0])
                     && store.levels == old(store.levels)[q := old(store.levels)[q][1..]]
    {
      var p := MAX_PRIORITY - 1;
      while p >= 0
        invariant -1 <= p < MAX_PRIORITY && Valid() && fresh(store.Repr - old(store.Repr))
        invariant store.levels == old(store.levels)
        invariant forall q | p < q < MAX_PRIORITY :: old(store.levels)[q] == []
      {
        e := TakeFrom(p);
        if e.Some? {
          assert IsHighest(old(store.levels), p);
          return;
        }
        p := p - 1;
      }
      e := None;
    }

    /**
     Takes by priority at or above the threshold, else the earliest head below it. The scan does not
     stop at level 0 for a negative threshold: on an empty index it runs off the levels, an error that
     stands for the source's panic.
     */
    method PopWithThreshold(threshold: int) returns (r: Result<Option<PendingEntry>>)
      requires Valid()
      modifies this, store.Repr
      ensures Valid() && fresh(store.Repr - old(store.Repr))
      ensures if forall p | 0 <= p < MAX_PRIORITY :: old(store.levels)[p] == [] then
                r == (if threshold < 0 then Err else Ok(None)) && store.levels == old(store.levels)
              else exists q | 0 <= q < MAX_PRIORITY ::
                     && Pops(old(store.levels), threshold, q) && r == Ok(Some(old(store.levels)[q][0]))
                     && store.levels == old(store.levels)[q := old(store.levels)[q][1..]]
    {
      var p := MAX_PRIORITY - 1;
      while p >= threshold
        invariant -1 <= p < MAX_PRIORITY && Valid() && fresh(store.Repr - old(store.Repr))
        invariant p >= threshold - 1 || threshold > MAX_PRIORITY
        invariant store.levels == old(store.levels)
        invariant forall q | p < q < MAX_PRIORITY :: old(store.levels)[q] == []
      {
        if p < 0 {
          return Err;
        }
        var e := TakeFrom(p);
        if e.Some? {
          assert IsHighest(old(store.levels), p);
          return Ok(e);
        }
        p := p - 1;
      }
      var best := EarliestBelow(threshold);
      if best < 0 {
        return Ok(None);
      }
      assert Pops(old(store.levels), threshold, best);
      var e := TakeFrom(best);
      return Ok(e);
    }

    /** The level below the threshold whose head arrived first, or -1. */
    method EarliestBelow(threshold: int) returns (best: int)
      requires Valid()
      ensures if best == -1 then forall p | 0 <= p < MAX_PRIORITY && p < threshold :: store.levels[p] == []
              else 0 <= best && IsEarliestBelow(store.levels, threshold, best)
    {
      best := -1;
      var bestTime := 0;
      var p := 0;
      while p < threshold && p < MAX_PRIORITY
        invariant 0 <= p <= MAX_PRIORITY && (p == 0 || p <= threshold)
        invariant best == -1 ==> forall q | 0 <= q < p :: store.levels[q] == []
        invariant best != -1 ==> 0 <= best < p && IsEarliestBelow(store.levels, p, best)
                                  && bestTime == store.levels[best][0].arrivedAt
      {
        var e := store.PeekAt(p);
        if e.Some? && (best == -1 || e.value.arrivedAt < bestTime) {
          best, bestTime := p, e.value.arrivedAt;
        }
        p := p + 1;
      }
    }

    method Len() returns (n: int)
      requires Valid()
      ensures n == Total(store.levels) >= 0
    {
      n := total;
    }

    method LevelDistribution() returns (dist: seq<int>)
      requires Valid()
      ensures |dist| == MAX_PRIORITY
      ensures forall p | 0 <= p < MAX_PRIORITY :: dist[p] == |store.levels[p]|
    {
      dist := counts;
    }

    /** Splits entries by age, in order. */
    static method Partition(all: seq<PendingEntry>, now: int, ttl: int)
      returns (stale: seq<PendingEntry>, fresh_: seq<PendingEntry>)
      ensures stale == Stale(all, now, ttl) && fresh_ == Fresh(all, now, ttl)
    {
      stale, fresh_ := [], [];
      var i := 0;
      while i < |all|
        invariant 0 <= i <= |all|
        invariant stale == Stale(all[..i], now, ttl) && fresh_ == Fresh(all[..i], now, ttl)
      {
        assert all[..i + 1][..i] == all[..i];
        if now - all[i].arrivedAt > ttl {
          stale := stale + [all[i]];
        } else {
          fresh_ := fresh_ + [all[i]];
        }
        i := i + 1;
      }
      assert all[..|all|] == all;
    }

    /** Moves every stale entry up one level. */
    method PromoteStale(now: int, ttl: int)
      requires Valid()
      modifies this, store.Repr
      ensures Valid() && fresh(store.Repr - old(store.Repr))
      ensures store.levels == Promoted(old(store.levels), store.cap, now, ttl)
      ensures total == old(total) - Total(Evicted(old(store.levels), store.cap, now, ttl))
    {
      ghost var start := store.levels;
      var p := MAX_PRIORITY - 2;
      while p >= 0
        invariant -1 <= p < MAX_PRIORITY - 1 && Valid() && fresh(store.Repr - old(store.Repr))
        invariant PromotedAbove(store.cap, start, now, ttl, p, store.levels)
      {
        PromoteLevel(p, now, ttl, start);
        p := p - 1;
      }
      store.Bounded(0);
      PromotedToTheBottom(store.cap, start, now, ttl, store.levels);
      PromoteConserves(start, store.cap, now, ttl, None, Promoted(start, store.cap, now, ttl),
                       Evicted(start, store.cap, now, ttl));
    }

    method PromoteLevel(p: nat, now: int, ttl: int, ghost start: Levels)
      requires Valid() && p < MAX_PRIORITY - 1 && PromotedAbove(store.cap, start, now, ttl, p, store.levels)
      modifies this, store.Repr
      ensures Valid() && fresh(store.Repr - old(store.Repr))
      ensures PromotedAbove(store.cap, start, now, ttl, p - 1, store.levels)
    {
      ghost var before := store.levels;
      store.Bounded(p + 1);
      RaisedLevel(store.cap, start, now, ttl, p, before);
      var stale := TakeStale(p, now, ttl);
      if |stale| > 0 {
        PushStale(p + 1, stale);
      }
      assert store.levels[p] == Fresh(before[p], now, ttl);
      assert store.levels[p + 1] == Kept(store.cap, Arriving(start, now, ttl, p + 1));
      PromotedOneMore(store.cap, start, now, ttl, p, before, store.levels);
    }

    /** The state between two locks: n entries are counted in the total but in no level. */
    ghost predicate InTransit(n: int)
      reads this, store, store.Repr
    {
      && this !in store.Repr && store.Valid()
      && |counts| == MAX_PRIORITY
      && total == Total(store.levels) + n
    }

    ghost predicate CountsMatch(except: int)
      reads this, store
    {
      && |counts| == MAX_PRIORITY
      && forall i | 0 <= i < MAX_PRIORITY && i != except :: counts[i] == |store.levels[i]|
    }

    /** Takes the stale entries out of level p. */
    method TakeStale(p: nat, now: int, ttl: int) returns (stale: seq<PendingEntry>)
      requires Valid() && p < MAX_PRIORITY
      modifies this, store.Repr
      ensures InTransit(|stale|) && CountsMatch(-1) && fresh(store.Repr - old(store.Repr))
      ensures stale == Stale(old(store.levels)[p], now, ttl)
      ensures store.levels == old(store.levels)[p := Fresh(old(store.levels)[p], now, ttl)]
    {
      store.Bounded(p);
      var all, _ := store.LinearizeAt(p);
      var young;
      stale, young := Partition(all, now, ttl);
      OccurrencesUpdate(store.levels, p, young, None);
      SplitByAge(all, now, ttl, None);
      store.ResetAt(p, young);
      counts := counts[p := |young|];
    }

    /** Appends an entry in transit to level up, dropping the evicted one from the total. */
    method Land(up: nat, e: PendingEntry, ghost n: nat)
      requires InTransit(n + 1) && up < MAX_PRIORITY
      modifies this`total, store.Repr
      ensures InTransit(n) && fresh(store.Repr - old(store.Repr))
      ensures store.levels == Landed(store.cap, old(store.levels), up, [e])
    {
      OccurrencesUpdate(store.levels, up, Kept(store.cap, store.levels[up] + [e]), None);
      store.Bounded(up);
      var evicted := store.PushAt(up, e);
      if evicted {
        total := total - 1;
      }
    }

    method LandAll(up: nat, stale: seq<PendingEntry>)
      requires InTransit(|stale|) && up < MAX_PRIORITY
      modifies this`total, store.Repr
      ensures InTransit(0) && fresh(store.Repr - old(store.Repr))
      ensures store.levels == Landed(store.cap, old(store.levels), up, stale)
    {
      ghost var before := store.levels;
      store.Bounded(up);
      LandedNone(store.cap, before, up);
      assert stale[..0] == [] && stale[..|stale|] == stale;
      var i := 0;
      while i < |stale|
        invariant 0 <= i <= |stale| && fresh(store.Repr - old(store.Repr))
        invariant InTransit(|stale| - i)
        invariant store.levels == Landed(store.cap, before, up, stale[..i])
      {
        LandedExtend(store.cap, before, up, stale, i);
        Land(up, stale[i], |stale| - i - 1);
        i := i + 1;
      }
    }

    /** Appends the entries in transit to level up and recounts it. */
    method PushStale(up: nat, stale: seq<PendingEntry>)
      requires InTransit(|stale|) && up < MAX_PRIORITY && CountsMatch(up)
      modifies this, store.Repr
      ensures Valid() && fresh(store.Repr - old(store.Repr))
      ensures store.levels == old(store.levels)[up := Kept(store.cap, old(store.levels)[up] + stale)]
    {
      LandAll(up, stale);
      var _, size := store.LinearizeAt(up);
      counts := counts[up := size];
    }
  }

  /** The levels while level p is next to be promoted: those above p + 1 are done. */
  ghost predicate PromotedAbove(cap: nat, start: Levels, now: int, ttl: int, p: int, here: Levels)
    requires -1 <= p < MAX_PRIORITY - 1
  {
    && (forall q | p + 1 < q < MAX_PRIORITY :: here[q] == Kept(cap, Arriving(start, now, ttl, q)))
    && here[p + 1] == (if p + 1 == MAX_PRIORITY - 1 then start[p + 1] else Fresh(start[p + 1], now, ttl))
    && forall q | 0 <= q <= p :: here[q] == start[q]
  }

  /** What promotion of level p makes of level p + 1. */
  lemma RaisedLevel(cap: nat, start: Levels, now: int, ttl: int, p: nat, here: Levels)
    requires p < MAX_PRIORITY - 1 && PromotedAbove(cap, start, now, ttl, p, here)
    requires cap > 0 ==> |here[p + 1]| <= cap
    ensures Kept(cap, here[p + 1] + Stale(here[p], now, ttl)) == Kept(cap, Arriving(start, now, ttl, p + 1))
    ensures Stale(here[p], now, ttl) == [] ==> here[p + 1] == Kept(cap, Arriving(start, now, ttl, p + 1))
  {
    assert here[p + 1] + Stale(here[p], now, ttl) == Arriving(start, now, ttl, p + 1);
    if Stale(here[p], now, ttl) == [] {
      assert here[p + 1] + [] == here[p + 1];
    }
  }

  lemma PromotedOneMore(cap: nat, start: Levels, now: int, ttl: int, p: nat, here: Levels, next: Levels)
    requires p < MAX_PRIORITY - 1 && PromotedAbove(cap, start, now, ttl, p, here)
    requires next[p] == Fresh(here[p], now, ttl)
    requires next[p + 1] == Kept(cap, Arriving(start, now, ttl, p + 1))
    requires forall q | 0 <= q < MAX_PRIORITY && q != p && q != p + 1 :: next[q] == here[q]
    ensures PromotedAbove(cap, start, now, ttl, p - 1, next)
  {
  }

  lemma PromotedToTheBottom(cap: nat, start: Levels, now: int, ttl: int, here: Levels)
    requires PromotedAbove(cap, start, now, ttl, -1, here)
    requires cap > 0 ==> |here[0]| <= cap
    ensures here == Promoted(start, cap, now, ttl)
  {
    assert Arriving(start, now, ttl, 0) == here[0];
  }

  /** The levels after the entries of more have been appended to level up. */
  ghost function Landed(cap: nat, levels: Levels, up: nat, more: seq<PendingEntry>): Levels
    requires up < MAX_PRIORITY
  {
    levels[up := Kept(cap, levels[up] + more)]
  }

  lemma LandedNone(cap: nat, levels: Levels, up: nat)
    requires up < MAX_PRIORITY && (cap > 0 ==> |levels[up]| <= cap)
    ensures Landed(cap, levels, up, []) == levels
  {
    assert levels[up] + [] == levels[up];
  }

  /** Trimming before an append or only after it keeps the same entries. */
  lemma KeptExtend(cap: nat, s: seq<PendingEntry>, e: PendingEntry)
    ensures Kept(cap, Kept(cap, s) + [e]) == Kept(cap, s + [e])
  {
  }

  lemma LandedExtend(cap: nat, levels: Levels, up: nat, more: seq<PendingEntry>, i: nat)
    requires up < MAX_PRIORITY && i < |more|
    ensures Landed(cap, Landed(cap, levels, up, more[..i]), up, [more[i]]) == Landed(cap, levels, up, more[..i + 1])
  {
    KeptExtend(cap, levels[up] + more[..i], more[i]);
    assert levels[up] + more[..i + 1] == levels[up] + more[..i] + [more[i]];
  }

  lemma {:induction false} NoEntries(levels: seq<seq<PendingEntry>>)
    requires forall p | 0 <= p < |levels| :: levels[p] == []
    ensures Total(levels) == 0
  {
    if levels != [] {
      NoEntries(levels[..|levels| - 1]);
    }
  }
}
