/**
 Which entry a pop takes while other goroutines change the levels: the levels it passes over are
 looked at one after the other, so the promise is about what each of them held during the call.
 */
module PriorityIndexPops {
  import opened Wrappers
  import opened EntryRing
  import opened PriorityLevels
  import opened PriorityIndexSteps
  import opened PriorityIndexSafety

  /** A ring a pop may pass over: it is empty, or its head arrived at the bound or later. */
  predicate Passes(ring: seq<PendingEntry>, bound: Option<int>) {
    ring == [] || (bound.Some? && bound.value <= ring[0].arrivedAt)
  }

  /** Level q could be passed over in one of the states from, ..., i. */
  ghost predicate Saw(run: seq<State>, from: nat, i: nat, q: nat, bound: Option<int>)
    requires i < |run|
  {
    exists j :: from <= j <= i && q < |run[j].levels| && Passes(run[j].levels[q].ring, bound)
  }

  ghost predicate SawEmpty(run: seq<State>, from: nat, i: nat, p: nat)
    requires i < |run|
  {
    forall q: nat | p <= q < MAX_PRIORITY :: Saw(run, from, i, q, None)
  }

  /** What a peek may pass over once it settled on best: nothing earlier, and no tie below best. */
  function Bound(best: Option<nat>, at: int, q: nat): Option<int> {
    if best.None? then None else Some(if q < best.value then at + 1 else at)
  }

  ghost predicate SawLater(run: seq<State>, from: nat, i: nat, p: nat, best: Option<nat>, at: int)
    requires i < |run|
  {
    forall q: nat | q < p && q < MAX_PRIORITY :: Saw(run, from, i, q, Bound(best, at, q))
  }

  function Threshold(call: Call): Option<nat> {
    match call
    case CallPopHighest => Some(0)
    case CallPopWithThreshold(t) => Some(t)
    case _ => None
  }

  /** What a pop has seen by the time it has come to pc. */
  ghost predicate Scanned(run: seq<State>, from: nat, i: nat, th: Option<nat>, pc: Pc)
    requires i < |run|
  {
    match pc
    case PopLock(p, t) => th == Some(t) && t <= p && SawEmpty(run, from, i, p + 1)
    case PopTry(p, t) => th == Some(t) && t <= p && SawEmpty(run, from, i, p + 1)
    case PopMiss(p, t) => th == Some(t) && t <= p && SawEmpty(run, from, i, p)
    case PeekLock(p, t, best, at) =>
      th == Some(t) && p < t && SawEmpty(run, from, i, t) && SawLater(run, from, i, p, best, at)
    case PeekLook(p, t, best, at) =>
      th == Some(t) && p < t && SawEmpty(run, from, i, t) && SawLater(run, from, i, p, best, at)
    case PeekSkip(p, t, best, at) =>
      th == Some(t) && p < t && SawEmpty(run, from, i, t) && SawLater(run, from, i, p + 1, best, at)
    case PeekSwap(p, t, _, at) =>
      th == Some(t) && p < t && SawEmpty(run, from, i, t) && SawLater(run, from, i, p + 1, Some(p), at)
    case PopBest(p, t, at) =>
      th == Some(t) && p < t && SawEmpty(run, from, i, t) && SawLater(run, from, i, t, Some(p), at)
    case PopCount(_) => th.Some?
    case PopUnlock(_) => th.Some?
    case PopTotal => th.Some?
    case Idle => true
    case _ => th.None?
  }

  lemma EmptyLater(run: seq<State>, from: nat, i: nat, k: nat, p: nat)
    requires i <= k < |run| && SawEmpty(run, from, i, p)
    ensures SawEmpty(run, from, k, p)
  {
    forall q: nat | p <= q < MAX_PRIORITY
      ensures Saw(run, from, k, q, None)
    {
      assert Saw(run, from, i, q, None);
    }
  }

  lemma LaterLater(run: seq<State>, from: nat, i: nat, k: nat, p: nat, best: Option<nat>, at: int)
    requires i <= k < |run| && SawLater(run, from, i, p, best, at)
    ensures SawLater(run, from, k, p, best, at)
  {
    forall q: nat | q < p && q < MAX_PRIORITY
      ensures Saw(run, from, k, q, Bound(best, at, q))
    {
      assert Saw(run, from, i, q, Bound(best, at, q));
    }
  }

  /** What was seen stays seen. */
  lemma ScannedLater(run: seq<State>, from: nat, i: nat, k: nat, th: Option<nat>, pc: Pc)
    requires i <= k < |run| && Scanned(run, from, i, th, pc)
    ensures Scanned(run, from, k, th, pc)
  {
    match pc
    case PopLock(p, _) => EmptyLater(run, from, i, k, p + 1);
    case PopTry(p, _) => EmptyLater(run, from, i, k, p + 1);
    case PopMiss(p, _) => EmptyLater(run, from, i, k, p);
    case PeekLock(p, t, best, at) => EmptyLater(run, from, i, k, t); LaterLater(run, from, i, k, p, best, at);
    case PeekLook(p, t, best, at) => EmptyLater(run, from, i, k, t); LaterLater(run, from, i, k, p, best, at);
    case PeekSkip(p, t, best, at) => EmptyLater(run, from, i, k, t); LaterLater(run, from, i, k, p + 1, best, at);
    case PeekSwap(p, t, _, at) => EmptyLater(run, from, i, k, t); LaterLater(run, from, i, k, p + 1, Some(p), at);
    case PopBest(p, t, at) => EmptyLater(run, from, i, k, t); LaterLater(run, from, i, k, t, Some(p), at);
    case _ =>
  }

  lemma SeesNow(run: seq<State>, from: nat, i: nat, q: nat, b: Option<int>)
    requires from <= i < |run| && q < |run[i].levels| && Passes(run[i].levels[q].ring, b)
    ensures Saw(run, from, i, q, b)
  {
  }

  /** A level seen without an earlier head than at was seen without one before at. */
  lemma SeesLess(run: seq<State>, from: nat, i: nat, q: nat, b: Option<int>, c: int)
    requires i < |run| && Saw(run, from, i, q, b) && (b.Some? ==> c <= b.value)
    ensures Saw(run, from, i, q, Some(c))
  {
    var j :| from <= j <= i && q < |run[j].levels| && Passes(run[j].levels[q].ring, b);
    assert Passes(run[j].levels[q].ring, Some(c));
  }

  /** Settling on the head of level p, which arrived before the best so far, keeps what was seen. */
  lemma Settles(run: seq<State>, from: nat, i: nat, p: nat, best: Option<nat>, was: int, at: int)
    requires from <= i < |run| && p < |run[i].levels| && HeadAt(run[i].levels[p].ring, at)
    requires SawLater(run, from, i, p, best, was) && (best.Some? ==> at < was)
    ensures SawLater(run, from, i, p + 1, Some(p), at)
  {
    forall q: nat | q < p + 1 && q < MAX_PRIORITY
      ensures Saw(run, from, i, q, Bound(Some(p), at, q))
    {
      if q < p {
        SeesLess(run, from, i, q, Bound(best, was, q), at + 1);
      } else {
        SeesNow(run, from, i, q, Some(at));
      }
    }
  }

  /** Passing over level p. */
  lemma PassesOver(run: seq<State>, from: nat, i: nat, p: nat, best: Option<nat>, at: int)
    requires from <= i < |run| && p < |run[i].levels| && (best.Some? ==> best.value < p)
    requires Passes(run[i].levels[p].ring, if best.Some? then Some(at) else None)
    requires SawLater(run, from, i, p, best, at)
    ensures SawLater(run, from, i, p + 1, best, at)
  {
    forall q: nat | q < p + 1 && q < MAX_PRIORITY
      ensures Saw(run, from, i, q, Bound(best, at, q))
    {
      if q == p {
        SeesNow(run, from, i, q, Bound(best, at, q));
      }
    }
  }

  /** One look at level p. */
  lemma LookScans(run: seq<State>, from: nat, i: nat, th: Option<nat>, pc: Pc, t: nat, cap: nat)
    requires from <= i < |run| && WellFormed(pc) && pc.PeekLook? && Scanned(run, from, i, th, pc)
    requires |run[i].levels| == MAX_PRIORITY
    ensures Scanned(run, from, i, th, Act(pc, run[i].levels[pc.p], t, cap).pc)
  {
    var ring := run[i].levels[pc.p].ring;
    if ring != [] && (pc.best.None? || ring[0].arrivedAt < pc.at) {
      Settles(run, from, i, pc.p, pc.best, pc.at, ring[0].arrivedAt);
    } else {
      PassesOver(run, from, i, pc.p, pc.best, pc.at);
    }
  }

  /** One step of the call itself. */
  lemma StepScans(run: seq<State>, from: nat, i: nat, th: Option<nat>, pc: Pc, t: nat, cap: nat)
    requires from <= i < |run| && WellFormed(pc) && !pc.Idle? && Scanned(run, from, i, th, pc)
    requires |run[i].levels| == MAX_PRIORITY
    ensures Scanned(run, from, i, th, Act(pc, run[i].levels[Target(pc)], t, cap).pc)
  {
    if pc.PeekLook? {
      LookScans(run, from, i, th, pc, t, cap);
    } else if pc.PopTry? && run[i].levels[pc.p].ring == [] {
      SeesNow(run, from, i, pc.p, None);
    }
  }

  /** Thread t is still in the call it made at move from. */
  predicate InCall(moves: seq<Move>, t: nat, from: nat, i: nat) {
    && from < i <= |moves| && moves[from].Starts? && moves[from].t == t
    && forall k | from < k < i :: !(moves[k].Starts? && moves[k].t == t)
  }

  lemma BeginScans(run: seq<State>, moves: seq<Move>, cap: nat, n: nat, t: nat, from: nat)
    requires IsRun(run, moves, cap, n) && InCall(moves, t, from, from + 1)
    ensures t < |run[from + 1].threads|
    ensures Scanned(run, from, from + 1, Threshold(moves[from].call), run[from + 1].threads[t])
  {
    assert run[from + 1].threads[t] == Begin(moves[from].call);
  }

  /** A move of thread t, or of another one, but no new call of thread t. */
  lemma MoveScans(run: seq<State>, moves: seq<Move>, cap: nat, n: nat, t: nat, from: nat, i: nat, th: Option<nat>)
    requires IsRun(run, moves, cap, n) && from <= i < |moves| && !(moves[i].Starts? && moves[i].t == t)
    requires t < |run[i].threads| && Scanned(run, from, i, th, run[i].threads[t])
    ensures t < |run[i + 1].threads| && Scanned(run, from, i + 1, th, run[i + 1].threads[t])
  {
    assert Possible(run[i], moves[i]) && run[i + 1] == After(run[i], moves[i]);
    if moves[i] == Moves(t) {
      StepScans(run, from, i, th, run[i].threads[t], t, run[i].cap);
    }
    ScannedLater(run, from, i, i + 1, th, run[i + 1].threads[t]);
  }

  lemma {:induction false} CallScans(run: seq<State>, moves: seq<Move>, cap: nat, n: nat, t: nat, from: nat, i: nat)
    requires IsRun(run, moves, cap, n) && InCall(moves, t, from, i)
    ensures t < |run[i].threads| && Scanned(run, from, i, Threshold(moves[from].call), run[i].threads[t])
  {
    if i == from + 1 {
      BeginScans(run, moves, cap, n, t, from);
    } else {
      CallScans(run, moves, cap, n, t, from, i - 1);
      MoveScans(run, moves, cap, n, t, from, i - 1, Threshold(moves[from].call));
    }
  }

  /** The head of level p is what a pop with threshold th has to take, by what it saw since from. */
  ghost predicate Deserves(run: seq<State>, from: nat, i: nat, th: nat, p: nat)
    requires i < |run| && p < |run[i].levels| && run[i].levels[p].ring != []
  {
    if th <= p then SawEmpty(run, from, i, p + 1)
    else SawEmpty(run, from, i, th) && SawLater(run, from, i, th, Some(p), run[i].levels[p].ring[0].arrivedAt)
  }

  /**
   Whenever a thread pops an entry it is the head of one level. At or above the threshold every
   higher level was empty at some point of the call. Below it so was every level from the threshold
   up, and every other level below it was, at some point of the call, empty or without an earlier
   head; on a tie the lowest level wins.
   */
  lemma PopTakes(run: seq<State>, moves: seq<Move>, cap: nat, n: nat, t: nat, from: nat, i: nat)
    returns (p: nat)
    requires IsRun(run, moves, cap, n) && InCall(moves, t, from, i)
    requires i < |moves| && moves[i] == Moves(t) && run[i + 1].popped != run[i].popped
    ensures p < |run[i].levels| && run[i].levels[p].ring != [] && p == Target(run[i].threads[t])
    ensures run[i + 1].popped == run[i].popped + [run[i].levels[p].ring[0]]
    ensures run[i + 1].levels[p].ring == run[i].levels[p].ring[1..]
    ensures Threshold(moves[from].call).Some? && Deserves(run, from, i, Threshold(moves[from].call).value, p)
  {
    CallScans(run, moves, cap, n, t, from, i);
    RunKeepsInv(run, moves, cap, n, i);
    assert run[i + 1] == Step(run[i], t);
    var pc := run[i].threads[t];
    assert KnowsHead(pc, run[i].levels);
    if !Carries(pc) {
      ActMovesNothing(pc, run[i].levels[Target(pc)], t, run[i].cap);
    }
    p := Target(pc);
  }

  lemma SawIsNow(run: seq<State>, from: nat, i: nat, q: nat, bound: Option<int>)
    requires i < |run| && |run[i].levels| == MAX_PRIORITY && q < MAX_PRIORITY && Saw(run, from, i, q, bound)
    requires forall j | from <= j <= i :: Rings(run[j].levels) == Rings(run[i].levels)
    ensures Passes(Rings(run[i].levels)[q], bound)
  {
    var j :| from <= j <= i && q < |run[j].levels| && Passes(run[j].levels[q].ring, bound);
    assert Rings(run[j].levels)[q] == Rings(run[i].levels)[q];
  }

  /** While nobody changes the levels, what a pop deserves is what the sequential specification takes. */
  lemma UndisturbedPops(run: seq<State>, from: nat, i: nat, th: nat, p: nat)
    requires i < |run| && |run[i].levels| == MAX_PRIORITY && p < MAX_PRIORITY && run[i].levels[p].ring != []
    requires forall j | from <= j <= i :: Rings(run[j].levels) == Rings(run[i].levels)
    requires Deserves(run, from, i, th, p)
    ensures Pops(Rings(run[i].levels), th, p)
  {
    var rings, at := Rings(run[i].levels), run[i].levels[p].ring[0].arrivedAt;
    assert rings[p] != [];
    forall q: nat | (if th <= p then p + 1 else th) <= q < MAX_PRIORITY
      ensures rings[q] == []
    {
      SawIsNow(run, from, i, q, None);
    }
    if p < th {
      forall q: nat | q < th && q < MAX_PRIORITY
        ensures Passes(rings[q], Bound(Some(p), at, q))
      {
        SawIsNow(run, from, i, q, Bound(Some(p), at, q));
      }
    }
  }

  /** A pop that finishes without an entry saw every level empty, each at some point of the call. */
  lemma PopFindsNothing(run: seq<State>, moves: seq<Move>, cap: nat, n: nat, t: nat, from: nat, i: nat)
    requires IsRun(run, moves, cap, n) && InCall(moves, t, from, i) && Threshold(moves[from].call).Some?
    requires i < |moves| && moves[i] == Moves(t) && run[i + 1].threads[t].Idle? && !run[i].threads[t].PopTotal?
    ensures SawEmpty(run, from, i, 0)
  {
    CallScans(run, moves, cap, n, t, from, i);
    assert run[i + 1] == Step(run[i], t);
    var pc := run[i].threads[t];
    assert pc.PopMiss? || pc.PeekSkip?;
    if pc.PeekSkip? {
      forall q: nat | q < MAX_PRIORITY
        ensures Saw(run, from, i, q, None)
      {
        assert q < pc.p + 1 ==> Saw(run, from, i, q, Bound(pc.best, pc.at, q));
      }
    }
  }
}
