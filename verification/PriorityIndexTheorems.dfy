/** The consequences of the invariant that a caller of the priority index can observe. */
module PriorityIndexTheorems {
  import opened Wrappers
  import opened EntryRing
  import opened PriorityLevels
  import opened PriorityIndexSteps
  import opened PriorityIndexSafety

  // ----- conservation

  /** An entry added once is in exactly one place: a ring, a thread's hands, popped or evicted. */
  lemma InOnePlace(run: seq<State>, moves: seq<Move>, cap: nat, n: nat, i: nat, e: PendingEntry)
    requires IsRun(run, moves, cap, n) && i < |run|
    requires multiset(run[i].added)[e] == 1
    ensures var s := run[i];
            Stored(s, Some(e)) + InHands(s.threads, Some(e)) + multiset(s.popped)[e] + multiset(s.evicted)[e] == 1
  {
    RunKeepsInv(run, moves, cap, n, i);
    assert Conserves(run[i], Some(e));
  }

  function CountSum(levels: seq<Level>): int {
    if levels == [] then 0 else CountSum(levels[..|levels| - 1]) + levels[|levels| - 1].count
  }

  lemma {:induction false} CountSumIsTotal(levels: seq<Level>)
    requires forall l | 0 <= l < |levels| :: levels[l].count == |levels[l].ring|
    ensures CountSum(levels) == Total(Rings(levels))
  {
    if levels != [] {
      var n := |levels| - 1;
      CountSumIsTotal(levels[..n]);
      assert Rings(levels)[..n] == Rings(levels[..n]);
    }
  }

  /** When no call is in progress every lock is free and Len is the sum of the level counts and of the rings. */
  lemma QuiescentLen(run: seq<State>, moves: seq<Move>, cap: nat, n: nat, i: nat)
    requires IsRun(run, moves, cap, n) && i < |run|
    requires forall t | 0 <= t < |run[i].threads| :: run[i].threads[t].Idle?
    ensures var s := run[i];
            && s.total == CountSum(s.levels) == Total(Rings(s.levels))
            && |s.added| == s.total + |s.popped| + |s.evicted|
            && forall l | 0 <= l < |s.levels| :: s.levels[l].lock == None && s.levels[l].count == |s.levels[l].ring|
  {
    var s := run[i];
    RunKeepsInv(run, moves, cap, n, i);
    forall l | 0 <= l < MAX_PRIORITY
      ensures s.levels[l].lock == None && s.levels[l].count == |s.levels[l].ring|
    {
      assert s.levels[l].lock.Some? ==> Holds(s.threads[s.levels[l].lock.value], l);
      assert CountOk(s.levels[l], Holder(s, l), l);
    }
    IdleHands(s.threads, None);
    CountSumIsTotal(s.levels);
    assert Conserves(s, None);
  }

  // ----- Len while calls are in progress

  /** The threads that have stored an entry the total does not count yet. */
  function Unannounced(threads: seq<Pc>): nat {
    if threads == [] then 0
    else Unannounced(threads[..|threads| - 1]) + if Owed(threads[|threads| - 1]) > 0 then 1 else 0
  }

  /** The threads that have removed an entry the total still counts. */
  function Uncounted(threads: seq<Pc>): nat {
    if threads == [] then 0
    else Uncounted(threads[..|threads| - 1]) + if Owed(threads[|threads| - 1]) < 0 then 1 else 0
  }

  lemma {:induction false} DebtIsDifference(threads: seq<Pc>)
    ensures Debt(threads) == Unannounced(threads) - Uncounted(threads)
  {
    if threads != [] {
      DebtIsDifference(threads[..|threads| - 1]);
    }
  }

  /**
   Len is negative exactly when more adds are between storing and counting their entry than there
   are entries stored or in transit and removals not counted yet; and it is never further below zero
   than the number of such adds.
   */
  lemma LenIsNegativeIff(run: seq<State>, moves: seq<Move>, cap: nat, n: nat, i: nat)
    requires IsRun(run, moves, cap, n) && i < |run|
    ensures var s := run[i];
            s.total < 0
            <==> Unannounced(s.threads) > Stored(s, None) + InHands(s.threads, None) + Uncounted(s.threads)
    ensures run[i].total + Unannounced(run[i].threads) >= 0
  {
    RunKeepsInv(run, moves, cap, n, i);
    DebtIsDifference(run[i].threads);
  }

  /** A run that ends with the threads at the given program counters, level 9 at lv, and Len at total. */
  predicate Reaches(run: seq<State>, moves: seq<Move>, threads: seq<Pc>, lv: Level, total: int) {
    && IsRun(run, moves, 0, |threads|)
    && var s := run[|moves|];
       && s.cap == 0 && s.total == total && s.threads == threads
       && |s.levels| == MAX_PRIORITY && s.levels[9] == lv
  }

  /** One step of thread t on level 9. */
  lemma Extend(run: seq<State>, moves: seq<Move>, threads: seq<Pc>, lv: Level, total: int, t: nat, x: Effect)
    returns (run': seq<State>, moves': seq<Move>)
    requires Reaches(run, moves, threads, lv, total) && t < |threads|
    requires var pc := threads[t];
             && !pc.Idle? && WellFormed(pc) && Target(pc) == 9 && (Waits(pc).Some? ==> lv.lock == None)
             && Act(pc, lv, t, 0) == x && x.delta == 0
    ensures Reaches(run', moves', threads[t := x.pc], x.level, total)
  {
    run', moves' := run + [Step(run[|moves|], t)], moves + [Moves(t)];
  }

  lemma Starting(run: seq<State>, moves: seq<Move>, threads: seq<Pc>, lv: Level, total: int, t: nat, call: Call)
    returns (run': seq<State>, moves': seq<Move>)
    requires Reaches(run, moves, threads, lv, total) && t < |threads| && threads[t].Idle?
    ensures Reaches(run', moves', threads[t := Begin(call)], lv, total)
  {
    run', moves' := run + [Start(run[|moves|], t, call)], moves + [Starts(t, call)];
  }

  /** A pop counts its entry out. */
  lemma CountsOut(run: seq<State>, moves: seq<Move>, threads: seq<Pc>, lv: Level, total: int, t: nat)
    returns (run': seq<State>, moves': seq<Move>)
    requires Reaches(run, moves, threads, lv, total) && t < |threads| && threads[t].PopTotal?
    ensures Reaches(run', moves', threads[t := Idle], lv, total - 1)
  {
    run', moves' := run + [Step(run[|moves|], t)], moves + [Moves(t)];
  }

  /** Thread t adds e and stops before counting it. */
  lemma AddsUncounted(run: seq<State>, moves: seq<Move>, threads: seq<Pc>, total: int, t: nat, e: PendingEntry)
    returns (run': seq<State>, moves': seq<Move>)
    requires Reaches(run, moves, threads, Level([], 0, None), total) && t < |threads| && threads[t].Idle?
    ensures Reaches(run', moves', threads[t := AddTotal], Level([e], 1, None), total)
  {
    run', moves' := Starting(run, moves, threads, Level([], 0, None), total, t, CallAdd(9, e));
    var at := threads[t := AddLock(9, e)];
    run', moves' := Extend(run', moves', at, Level([], 0, None), total, t,
                           Effect(AddPush(9, e), Level([], 0, Some(t)), 0, [], [], []));
    assert at[t := AddPush(9, e)] == threads[t := AddPush(9, e)];
    at := threads[t := AddPush(9, e)];
    run', moves' := Extend(run', moves', at, Level([], 0, Some(t)), total, t,
                           Effect(AddCount(9), Level([e], 0, Some(t)), 0, [e], [], []));
    assert at[t := AddCount(9)] == threads[t := AddCount(9)];
    run', moves' := AddLeaves(run', moves', threads[t := AddCount(9)], total, t, e);
    assert threads[t := AddCount(9)][t := AddTotal] == threads[t := AddTotal];
  }

  lemma AddLeaves(run: seq<State>, moves: seq<Move>, threads: seq<Pc>, total: int, t: nat, e: PendingEntry)
    returns (run': seq<State>, moves': seq<Move>)
    requires Reaches(run, moves, threads, Level([e], 0, Some(t)), total) && t < |threads| && threads[t] == AddCount(9)
    ensures Reaches(run', moves', threads[t := AddTotal], Level([e], 1, None), total)
  {
    run', moves' := Extend(run, moves, threads, Level([e], 0, Some(t)), total, t,
                           Effect(AddUnlock(9), Level([e], 1, Some(t)), 0, [], [], []));
    var at := threads[t := AddUnlock(9)];
    run', moves' := Extend(run', moves', at, Level([e], 1, Some(t)), total, t,
                           Effect(AddTotal, Level([e], 1, None), 0, [], [], []));
    assert at[t := AddTotal] == threads[t := AddTotal];
  }

  /** Thread t pops the only entry of level 9 and counts it out. */
  lemma PopsAndCounts(run: seq<State>, moves: seq<Move>, threads: seq<Pc>, total: int, t: nat, e: PendingEntry)
    returns (run': seq<State>, moves': seq<Move>)
    requires Reaches(run, moves, threads, Level([e], 1, None), total) && t < |threads| && threads[t].Idle?
    ensures Reaches(run', moves', threads, Level([], 0, None), total - 1)
  {
    run', moves' := Starting(run, moves, threads, Level([e], 1, None), total, t, CallPopHighest);
    var at := threads[t := PopLock(9, 0)];
    run', moves' := Extend(run', moves', at, Level([e], 1, None), total, t,
                           Effect(PopTry(9, 0), Level([e], 1, Some(t)), 0, [], [], []));
    assert at[t := PopTry(9, 0)] == threads[t := PopTry(9, 0)];
    at := threads[t := PopTry(9, 0)];
    run', moves' := Extend(run', moves', at, Level([e], 1, Some(t)), total, t,
                           Effect(PopCount(9), Level([], 1, Some(t)), 0, [], [e], []));
    assert at[t := PopCount(9)] == threads[t := PopCount(9)];
    run', moves' := PopLeaves(run', moves', threads[t := PopCount(9)], total, t);
    assert threads[t := PopCount(9)][t := Idle] == threads;
  }

  lemma PopLeaves(run: seq<State>, moves: seq<Move>, threads: seq<Pc>, total: int, t: nat)
    returns (run': seq<State>, moves': seq<Move>)
    requires Reaches(run, moves, threads, Level([], 1, Some(t)), total) && t < |threads| && threads[t] == PopCount(9)
    ensures Reaches(run', moves', threads[t := Idle], Level([], 0, None), total - 1)
  {
    run', moves' := Extend(run, moves, threads, Level([], 1, Some(t)), total, t,
                           Effect(PopUnlock(9), Level([], 0, Some(t)), 0, [], [], []));
    var at := threads[t := PopUnlock(9)];
    run', moves' := Extend(run', moves', at, Level([], 0, Some(t)), total, t,
                           Effect(PopTotal, Level([], 0, None), 0, [], [], []));
    assert at[t := PopTotal] == threads[t := PopTotal];
    at := threads[t := PopTotal];
    run', moves' := CountsOut(run', moves', at, Level([], 0, None), total, t);
    assert at[t := Idle] == threads[t := Idle];
  }

  /** The first j of n threads have stored an entry and not counted it; the others are between calls. */
  function Pending(n: nat, j: nat): seq<Pc> {
    seq(n, i => if i < j then AddTotal else Idle)
  }

  lemma {:induction false} PendingAreUnannounced(n: nat, j: nat)
    requires j <= n
    ensures Unannounced(Pending(n, j)) == j
  {
    if n > 0 {
      PendingAreUnannounced(n - 1, if j < n then j else n - 1);
      assert Pending(n, j)[..n - 1] == Pending(n - 1, if j < n then j else n - 1);
    }
  }

  /**
   Each of the first j threads has stored an entry and been overtaken, before it counted it, by the
   last thread, which popped the entry and counted it out.
   */
  lemma {:induction false} LenReaches(k: nat, j: nat) returns (run: seq<State>, moves: seq<Move>)
    requires j <= k
    ensures Reaches(run, moves, Pending(k + 1, j), Level([], 0, None), 0 - j)
  {
    if j == 0 {
      run, moves := [Initial(0, k + 1)], [];
      assert Initial(0, k + 1).threads == Pending(k + 1, 0);
    } else {
      run, moves := LenReaches(k, j - 1);
      var before, e := Pending(k + 1, j - 1), PendingEntry(j, 0);
      run, moves := AddsUncounted(run, moves, before, 1 - j, j - 1, e);
      assert before[j - 1 := AddTotal] == Pending(k + 1, j);
      run, moves := PopsAndCounts(run, moves, Pending(k + 1, j), 1 - j, k, e);
    }
  }

  /** Len does go negative, and the bound is met, for every number of adds. */
  lemma LenCanBeNegative(k: nat) returns (run: seq<State>, moves: seq<Move>)
    ensures IsRun(run, moves, 0, k + 1) && run[|moves|].total == 0 - k
    ensures Unannounced(run[|moves|].threads) == k
  {
    run, moves := LenReaches(k, k);
    PendingAreUnannounced(k + 1, k);
  }

  // ----- progress

  /** Only a peek below the threshold waits while holding a lock, and it waits on a higher level. */
  lemma WaitsUpwards(pc: Pc, l: nat)
    requires WellFormed(pc) && Waits(pc).Some? && Holds(pc, l)
    ensures pc.PeekLock? && l < Waits(pc).value == Target(pc)
    ensures forall k | Holds(pc, k) :: k == l
  {
  }

  lemma HoldsAtMostTwo(pc: Pc, l: nat, m: nat, k: nat)
    requires Holds(pc, l) && Holds(pc, m) && Holds(pc, k)
    ensures l == m || m == k || l == k
  {
  }

  /** Following the lock each waiting thread asks for leads upwards to one that can move. */
  lemma {:induction false} FindEnabled(s: State, t: nat) returns (u: nat)
    requires Inv(s) && t < |s.threads| && !s.threads[t].Idle?
    ensures Enabled(s, u)
    decreases if Waits(s.threads[t]).Some? then MAX_PRIORITY - Target(s.threads[t]) else 0
  {
    var pc := s.threads[t];
    var l := Target(pc);
    if Waits(pc).None? || s.levels[l].lock.None? {
      return t;
    }
    u := s.levels[l].lock.value;
    assert Holds(s.threads[u], l);
    if Waits(s.threads[u]).Some? {
      WaitsUpwards(s.threads[u], l);
      u := FindEnabled(s, u);
    }
  }

  /** There is no deadlock: while some call is unfinished, some unfinished call can take a step. */
  lemma NoDeadlock(run: seq<State>, moves: seq<Move>, cap: nat, n: nat, i: nat)
    requires IsRun(run, moves, cap, n) && i < |run|
    requires exists t :: 0 <= t < |run[i].threads| && !run[i].threads[t].Idle?
    ensures exists u :: Enabled(run[i], u)
  {
    RunKeepsInv(run, moves, cap, n, i);
    var t :| 0 <= t < |run[i].threads| && !run[i].threads[t].Idle?;
    var u := FindEnabled(run[i], t);
  }

  /** How far a call is from its end: levels still to visit, then steps left at this one. */
  function Major(pc: Pc): nat
    requires WellFormed(pc)
  {
    match pc
    case Idle => 0
    case AddLock(_, _) => 2
    case AddPush(_, _) => 2
    case PopBest(_, _, _) => 2
    case PopLock(p, _) => 14 + p
    case PopTry(p, _) => 14 + p
    case PopMiss(p, _) => 14 + p
    case PeekLock(p, _, _, _) => 13 - p
    case PeekLook(p, _, _, _) => 13 - p
    case PeekSwap(p, _, _, _) => 13 - p
    case PeekSkip(p, _, _, _) => 13 - p
    case PromLock(p, _, _) => 2 * p + 2
    case PromTake(p, _, _) => 2 * p + 2
    case PromCount(p, _, _, _, _) => 2 * p + 2
    case PromUnlock(p, _, _, _) => 2 * p + 2
    case PromRaise(p, _, _, _) => 2 * p + 1
    case PromPush(p, _, _, _) => 2 * p + 1
    case PromDrop(p, _, _, _) => 2 * p + 1
    case PromRelease(p, _, _) => 2 * p + 1
    case _ => 1
  }

  function Minor(pc: Pc): nat {
    match pc
    case AddLock(_, _) => 1
    case AddCount(_) => 3
    case PopCount(_) => 3
    case AddUnlock(_) => 2
    case PopUnlock(_) => 2
    case AddTotal => 1
    case PopTotal => 1
    case PopLock(_, _) => 2
    case PopTry(_, _) => 1
    case PeekLock(_, _, _, _) => 2
    case PeekLook(_, _, _, _) => 1
    case PromLock(_, _, _) => 3
    case PromTake(_, _, _) => 2
    case PromCount(_, _, _, _, _) => 1
    case PromRaise(_, stale, _, _) => 2 * |stale| + 3
    case PromPush(_, rest, _, _) => 2 * |rest| + 1
    case PromDrop(_, rest, _, _) => 2 * |rest| + 2
    case _ => 0
  }

  predicate Descends(pc: Pc, pc': Pc) {
    && WellFormed(pc) && WellFormed(pc')
    && (Major(pc') < Major(pc) || (Major(pc') == Major(pc) && Minor(pc') < Minor(pc)))
  }

  lemma AddOrPopDescends(pc: Pc, lv: Level, t: nat, cap: nat)
    requires WellFormed(pc)
    requires pc.AddLock? || pc.AddPush? || pc.AddCount? || pc.AddUnlock? || pc.AddTotal? || pc.AddFull?
             || pc.PopBest? || pc.PopCount? || pc.PopUnlock? || pc.PopTotal?
    ensures Descends(pc, Act(pc, lv, t, cap).pc)
  {
  }

  lemma ScanDescends(pc: Pc, lv: Level, t: nat, cap: nat)
    requires WellFormed(pc)
    requires pc.PopLock? || pc.PopTry? || pc.PopMiss? || pc.PeekLock? || pc.PeekLook? || pc.PeekSwap? || pc.PeekSkip?
    ensures Descends(pc, Act(pc, lv, t, cap).pc)
  {
  }

  lemma TakeDescends(pc: Pc, lv: Level, t: nat, cap: nat)
    requires WellFormed(pc) && (pc.PromLock? || pc.PromTake? || pc.PromCount? || pc.PromUnlock?)
    ensures Descends(pc, Act(pc, lv, t, cap).pc)
  {
  }

  lemma RaiseDescends(pc: Pc, lv: Level, t: nat, cap: nat)
    requires WellFormed(pc) && (pc.PromRaise? || pc.PromDrop? || pc.PromRelease?)
    ensures Descends(pc, Act(pc, lv, t, cap).pc)
  {
  }

  lemma PushDescends(pc: Pc, lv: Level, t: nat, cap: nat)
    requires WellFormed(pc) && pc.PromPush?
    ensures Descends(pc, Act(pc, lv, t, cap).pc)
  {
    var next := Act(pc, lv, t, cap).pc;
    assert Target(next) == Target(pc) && Major(next) == Major(pc);
  }

  /** Every step brings its own call nearer its end, and no other thread's step moves it away. */
  lemma StepsDescend(s: State, t: nat)
    requires Enabled(s, t)
    ensures Descends(s.threads[t], Step(s, t).threads[t])
    ensures forall u | 0 <= u < |s.threads| && u != t :: Step(s, t).threads[u] == s.threads[u]
  {
    var pc := s.threads[t];
    var lv := s.levels[Target(pc)];
    if pc.PopLock? || pc.PopTry? || pc.PopMiss? || pc.PeekLock? || pc.PeekLook? || pc.PeekSwap? || pc.PeekSkip? {
      ScanDescends(pc, lv, t, s.cap);
    } else if pc.PromLock? || pc.PromTake? || pc.PromCount? || pc.PromUnlock? {
      TakeDescends(pc, lv, t, s.cap);
    } else if pc.PromPush? {
      PushDescends(pc, lv, t, s.cap);
    } else if pc.PromRaise? || pc.PromDrop? || pc.PromRelease? {
      RaiseDescends(pc, lv, t, s.cap);
    } else {
      AddOrPopDescends(pc, lv, t, s.cap);
    }
  }
}
