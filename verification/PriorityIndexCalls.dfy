/** Every call that runs without another thread moving has the effect of the sequential operation. */
module PriorityIndexCalls {
  import opened Wrappers
  import opened EntryRing
  import opened PriorityLevels
  import opened PriorityIndexSteps
  import opened PriorityIndexSafety
  import opened PriorityIndexPops
  import opened PriorityIndexSolo

  /** From the start of a call of thread t at move from up to move i no other thread moves. */
  predicate Alone(moves: seq<Move>, t: nat, from: nat, i: nat) {
    && from < i <= |moves| && moves[from].Starts? && moves[from].t == t
    && forall k | from < k < i :: moves[k] == Moves(t)
  }

  /** What a stretch of a run adds to the three logs. */
  datatype Change = Change(added: seq<PendingEntry>, popped: seq<PendingEntry>, evicted: seq<PendingEntry>)

  /** s' is s with other levels and another total, d added to the logs, and thread t elsewhere. */
  predicate Differs(s: State, s': State, t: nat, d: Change) {
    && s'.cap == s.cap && |s.levels| == |s'.levels| == MAX_PRIORITY && t < |s.threads| == |s'.threads|
    && s'.threads == s.threads[t := s'.threads[t]]
    && s'.added == s.added + d.added && s'.popped == s.popped + d.popped && s'.evicted == s.evicted + d.evicted
  }

  lemma StepDiffers(s0: State, s: State, t: nat, d: Change, x: Effect)
    requires Differs(s0, s, t, d) && Enabled(s, t) && x == EffectOf(s, t)
    ensures Differs(s0, Step(s, t), t, Change(d.added + x.added, d.popped + x.popped, d.evicted + x.evicted))
    ensures Rings(Step(s, t).levels) == Rings(s.levels)[Target(s.threads[t]) := x.level.ring]
  {
    Regroup(s0.added, d.added, x.added);
    Regroup(s0.popped, d.popped, x.popped);
    Regroup(s0.evicted, d.evicted, x.evicted);
  }

  lemma StartDiffers(s: State, t: nat, call: Call)
    requires CanStart(s, t) && |s.levels| == MAX_PRIORITY
    ensures Differs(s, Start(s, t, call), t, Change([], [], [])) && Start(s, t, call).levels == s.levels
  {
  }

  /** What holds after the start of a call on its own and is kept by every step of its thread holds throughout. */
  lemma {:induction false} HoldsThroughout(run: seq<State>, moves: seq<Move>, cap: nat, n: nat, t: nat, from: nat, i: nat,
                                           holds: State -> bool)
    requires IsRun(run, moves, cap, n) && Alone(moves, t, from, i) && CanStart(run[from], t)
    requires holds(Start(run[from], t, moves[from].call))
    requires forall s: State | holds(s) && Enabled(s, t) :: holds(Step(s, t))
    ensures holds(run[i])
  {
    var m := moves[i - 1];
    assert Possible(run[i - 1], m) && run[i] == After(run[i - 1], m);
    if i > from + 1 {
      HoldsThroughout(run, moves, cap, n, t, from, i - 1, holds);
    }
  }

  // ----- PromoteStale

  /** The plan of a promotion that begins in s. */
  ghost predicate Plans(plan: Plan, s: State, now: int, ttl: int) {
    && plan.Coherent() && Aged(plan, now, ttl)
    && plan.own[9] == plan.start[9] && plan.start == Rings(s.levels) && plan.cap == s.cap
  }

  /** Thread t is on its own in a promotion that began in s0, and has come to s. */
  ghost predicate InPromotion(plan: Plan, s0: State, s: State, t: nat, d: Change, now: int, ttl: int) {
    && Differs(s0, s, t, d) && d.added == d.popped == []
    && Promoting(plan, now, ttl, s.threads[t], Rings(s.levels), d.evicted)
  }

  lemma PromotionBegins(plan: Plan, s: State, t: nat, now: int, ttl: int)
    requires |s.levels| == MAX_PRIORITY && Plans(plan, s, now, ttl) && CanStart(s, t)
    ensures InPromotion(plan, s, Start(s, t, CallPromoteStale(now, ttl)), t, Change([], [], []), now, ttl)
  {
    var next := Start(s, t, CallPromoteStale(now, ttl));
    StartDiffers(s, t, CallPromoteStale(now, ttl));
    assert next.threads[t] == PromLock(8, now, ttl) && Rings(next.levels) == plan.start;
    PlanBegins(plan, now, ttl);
  }

  lemma PlanBegins(plan: Plan, now: int, ttl: int)
    requires plan.Coherent() && plan.own[9] == plan.start[9]
    ensures Promoting(plan, now, ttl, PromLock(8, now, ttl), plan.start, [])
  {
    ArrivesFirst(plan);
  }

  lemma PromotionOnlyEvicts(pc: Pc, lv: Level, t: nat, cap: nat)
    requires pc.PromLock? || pc.PromTake? || pc.PromCount? || pc.PromUnlock? || pc.PromRaise? || pc.PromPush?
             || pc.PromDrop? || pc.PromRelease?
    ensures Act(pc, lv, t, cap).added == Act(pc, lv, t, cap).popped == []
  {
  }

  lemma PromotionSteps(plan: Plan, s0: State, s: State, t: nat, d: Change, now: int, ttl: int) returns (d': Change)
    requires Plans(plan, s0, now, ttl) && InPromotion(plan, s0, s, t, d, now, ttl) && Enabled(s, t)
    ensures InPromotion(plan, s0, Step(s, t), t, d', now, ttl)
  {
    var pc, x := s.threads[t], EffectOf(s, t);
    PromotionOnlyEvicts(pc, s.levels[Target(pc)], t, s.cap);
    StepAdvances(plan, now, ttl, pc, s.levels[Target(pc)], t, Rings(s.levels), d.evicted);
    StepDiffers(s0, s, t, d, x);
    d' := Change(d.added + x.added, d.popped + x.popped, d.evicted + x.evicted);
  }

  lemma PromotionAlone(run: seq<State>, moves: seq<Move>, cap: nat, n: nat, t: nat, from: nat, i: nat,
                       plan: Plan, now: int, ttl: int) returns (d: Change)
    requires IsRun(run, moves, cap, n) && Alone(moves, t, from, i) && moves[from].call == CallPromoteStale(now, ttl)
    requires |run[from].levels| == MAX_PRIORITY && Plans(plan, run[from], now, ttl)
    ensures InPromotion(plan, run[from], run[i], t, d, now, ttl)
  {
    var s0 := run[from];
    var holds := (s: State) => exists c :: InPromotion(plan, s0, s, t, c, now, ttl);
    assert holds(Start(s0, t, CallPromoteStale(now, ttl))) by {
      PromotionBegins(plan, s0, t, now, ttl);
    }
    forall s: State | holds(s) && Enabled(s, t)
      ensures holds(Step(s, t))
    {
      var c :| InPromotion(plan, s0, s, t, c, now, ttl);
      var c' := PromotionSteps(plan, s0, s, t, c, now, ttl);
    }
    HoldsThroughout(run, moves, cap, n, t, from, i, holds);
    d :| InPromotion(plan, s0, run[i], t, d, now, ttl);
  }

  /** The total follows what the logs say once the thread is back where it was. */
  lemma TotalFollows(s0: State, s: State, t: nat, d: Change)
    requires Inv(s0) && Inv(s) && Differs(s0, s, t, d) && s.threads[t] == s0.threads[t]
    ensures s.total == s0.total + |d.added| - |d.popped| - |d.evicted|
  {
    assert s.threads == s0.threads;
    assert Conserves(s0, None) && Conserves(s, None);
  }

  lemma PlanFits(s: State, now: int, ttl: int)
    requires Shaped(s)
    ensures Plans(PlanOf(Rings(s.levels), s.cap, now, ttl), s, now, ttl)
  {
    PlanIsCoherent(Rings(s.levels), s.cap, now, ttl);
  }

  /** From s0 to s the rings have become up, out has been evicted and counted out, and nothing else has changed. */
  predicate Becomes(s0: State, s: State, up: Levels, out: seq<PendingEntry>) {
    && Rings(s.levels) == up && s.evicted == s0.evicted + out && s.total == s0.total - |out|
    && s.added == s0.added && s.popped == s0.popped && s.threads == s0.threads
  }

  lemma PromotionEnds(plan: Plan, s0: State, s: State, t: nat, d: Change, now: int, ttl: int, up: Levels, out: seq<PendingEntry>)
    requires Inv(s0) && Inv(s) && plan.up == up && plan.Gone(1) == out
    requires InPromotion(plan, s0, s, t, d, now, ttl) && s.threads[t].Idle? && s0.threads[t].Idle?
    ensures Becomes(s0, s, up, out)
  {
    TotalFollows(s0, s, t, d);
  }

  lemma {:induction false} CapIsKept(run: seq<State>, moves: seq<Move>, cap: nat, n: nat, i: nat)
    requires IsRun(run, moves, cap, n) && i < |run|
    ensures run[i].cap == cap
  {
    if i > 0 {
      CapIsKept(run, moves, cap, n, i - 1);
      assert Possible(run[i - 1], moves[i - 1]) && run[i] == After(run[i - 1], moves[i - 1]);
    }
  }

  /**
   A promotion that no other thread interrupts: the rings become what the sequential promotion makes of
   them, the evicted entries are its evictions, and Len drops by their number.
   */
  lemma PromotesAlone(run: seq<State>, moves: seq<Move>, cap: nat, n: nat, t: nat, from: nat, i: nat, now: int, ttl: int)
    requires IsRun(run, moves, cap, n) && Alone(moves, t, from, i) && moves[from].call == CallPromoteStale(now, ttl)
    requires t < |run[i].threads| && run[i].threads[t].Idle?
    ensures |run[from].levels| == MAX_PRIORITY
    ensures var start := Rings(run[from].levels);
            Becomes(run[from], run[i], Promoted(start, cap, now, ttl), AllEvicted(start, cap, now, ttl))
  {
    RunKeepsInv(run, moves, cap, n, from);
    RunKeepsInv(run, moves, cap, n, i);
    CapIsKept(run, moves, cap, n, from);
    assert CanStart(run[from], t);
    PlanFits(run[from], now, ttl);
    var start := Rings(run[from].levels);
    var plan := PlanOf(start, cap, now, ttl);
    var d := PromotionAlone(run, moves, cap, n, t, from, i, plan, now, ttl);
    AllGone(start, cap, now, ttl);
    PromotionEnds(plan, run[from], run[i], t, d, now, ttl, Promoted(start, cap, now, ttl), AllEvicted(start, cap, now, ttl));
  }

  // ----- Add

  /** The entry e has been pushed to level p. */
  predicate Stored(s0: State, s: State, d: Change, p: nat, e: PendingEntry)
    requires |s0.levels| == MAX_PRIORITY && p < MAX_PRIORITY
  {
    var ring := s0.levels[p].ring + [e];
    Rings(s.levels) == Rings(s0.levels)[p := Kept(s0.cap, ring)] && d.added == [e] && d.evicted == Dropped(s0.cap, ring)
  }

  /** Thread t is on its own in an Add of e to level p that began in s0, and has come to s. */
  ghost predicate InAdd(s0: State, s: State, t: nat, d: Change, p: nat, e: PendingEntry) {
    && Differs(s0, s, t, d) && d.popped == [] && p < MAX_PRIORITY
    && match s.threads[t]
       case AddLock(q, x) => q == p && x == e && Rings(s.levels) == Rings(s0.levels) && d.added == d.evicted == []
       case AddPush(q, x) => q == p && x == e && Rings(s.levels) == Rings(s0.levels) && d.added == d.evicted == []
       case AddCount(q) => q == p && Stored(s0, s, d, p, e)
       case AddUnlock(q) => q == p && Stored(s0, s, d, p, e)
       case AddFull(q) => q == p && Stored(s0, s, d, p, e)
       case AddTotal => Stored(s0, s, d, p, e)
       case Idle => Stored(s0, s, d, p, e)
       case _ => false
  }

  lemma AddPushes(p: nat, e: PendingEntry, lv: Level, t: nat, cap: nat, ring: seq<PendingEntry>)
    requires ring == lv.ring + [e]
    ensures Act(AddPush(p, e), lv, t, cap)
         == Effect(if cap > 0 && |lv.ring| >= cap then AddFull(p) else AddCount(p), lv.(ring := Kept(cap, ring)), 0,
                   [e], [], Dropped(cap, ring))
  {
  }

  lemma AddStores(s0: State, s: State, t: nat, d: Change, p: nat, e: PendingEntry) returns (d': Change)
    requires InAdd(s0, s, t, d, p, e) && Enabled(s, t) && s.threads[t].AddPush?
    ensures InAdd(s0, Step(s, t), t, d', p, e)
  {
    var x := EffectOf(s, t);
    assert Rings(s.levels)[p] == s.levels[p].ring && Rings(s0.levels)[p] == s0.levels[p].ring;
    AddPushes(p, e, s.levels[p], t, s.cap, s.levels[p].ring + [e]);
    StepDiffers(s0, s, t, d, x);
    d' := Change(d.added + x.added, d.popped + x.popped, d.evicted + x.evicted);
  }

  lemma AddSteps(s0: State, s: State, t: nat, d: Change, p: nat, e: PendingEntry) returns (d': Change)
    requires InAdd(s0, s, t, d, p, e) && Enabled(s, t)
    ensures InAdd(s0, Step(s, t), t, d', p, e)
  {
    var pc, x := s.threads[t], EffectOf(s, t);
    if pc.AddPush? {
      d' := AddStores(s0, s, t, d, p, e);
    } else {
      StepDiffers(s0, s, t, d, x);
      d' := Change(d.added + x.added, d.popped + x.popped, d.evicted + x.evicted);
      assert Rings(s.levels)[Target(pc) := x.level.ring] == Rings(s.levels);
    }
  }

  lemma AddAlone(run: seq<State>, moves: seq<Move>, cap: nat, n: nat, t: nat, from: nat, i: nat, priority: int, e: PendingEntry)
    returns (d: Change)
    requires IsRun(run, moves, cap, n) && Alone(moves, t, from, i) && moves[from].call == CallAdd(priority, e)
    requires |run[from].levels| == MAX_PRIORITY && CanStart(run[from], t)
    ensures InAdd(run[from], run[i], t, d, Clamped(priority), e)
  {
    var s0, p := run[from], Clamped(priority);
    var holds := (s: State) => exists c :: InAdd(s0, s, t, c, p, e);
    StartDiffers(s0, t, CallAdd(priority, e));
    assert InAdd(s0, Start(s0, t, CallAdd(priority, e)), t, Change([], [], []), p, e);
    forall s: State | holds(s) && Enabled(s, t)
      ensures holds(Step(s, t))
    {
      var c :| InAdd(s0, s, t, c, p, e);
      var c' := AddSteps(s0, s, t, c, p, e);
    }
    HoldsThroughout(run, moves, cap, n, t, from, i, holds);
    d :| InAdd(s0, run[i], t, d, p, e);
  }

  /** An Add that no other thread interrupts: the clamped level takes the entry, and evicts its oldest when it is full. */
  lemma AddsAlone(run: seq<State>, moves: seq<Move>, cap: nat, n: nat, t: nat, from: nat, i: nat, priority: int, e: PendingEntry)
    requires IsRun(run, moves, cap, n) && Alone(moves, t, from, i) && moves[from].call == CallAdd(priority, e)
    requires t < |run[i].threads| && run[i].threads[t].Idle?
    ensures |run[from].levels| == MAX_PRIORITY
    ensures var p := if priority < 0 then 0 else if priority > 9 then 9 else priority;
            var start := Rings(run[from].levels);
            var full := cap > 0 && |start[p]| == cap;
            && Rings(run[i].levels) == start[p := if full then start[p][1..] + [e] else start[p] + [e]]
            && run[i].added == run[from].added + [e] && run[i].popped == run[from].popped
            && run[i].evicted == run[from].evicted + (if full then [start[p][0]] else [])
            && run[i].total == run[from].total + (if full then 0 else 1) && run[i].threads == run[from].threads
  {
    RunKeepsInv(run, moves, cap, n, from);
    RunKeepsInv(run, moves, cap, n, i);
    CapIsKept(run, moves, cap, n, from);
    assert CanStart(run[from], t);
    var d := AddAlone(run, moves, cap, n, t, from, i, priority, e);
    TotalFollows(run[from], run[i], t, d);
    KeptIs(cap, run[from].levels[Clamped(priority)].ring, e);
  }

  /** What is left of a ring that fits after one more entry has been pushed. */
  lemma KeptIs(cap: nat, ring: seq<PendingEntry>, e: PendingEntry)
    requires Fits(cap, ring)
    ensures var full := cap > 0 && |ring| == cap;
            && Kept(cap, ring + [e]) == (if full then ring[1..] + [e] else ring + [e])
            && Dropped(cap, ring + [e]) == if full then [ring[0]] else []
  {
    var d := TwoParts(cap, ring + [e]);
    assert d == 1 ==> (ring + [e])[1..] == ring[1..] + [e] && (ring + [e])[..1] == [ring[0]];
  }

  // ----- PopHighest and PopWithThreshold

  predicate Scanning(pc: Pc) {
    pc.PopLock? || pc.PopTry? || pc.PopMiss? || pc.PeekLock? || pc.PeekLook? || pc.PeekSwap? || pc.PeekSkip? || pc.PopBest?
  }

  /** The head of level q, which the sequential pop takes, has been taken. */
  predicate TookFrom(start: Levels, th: nat, rings: Levels, popped: seq<PendingEntry>, q: nat) {
    && q < MAX_PRIORITY && Pops(start, th, q) && start[q] != []
    && popped == [start[q][0]] && rings == start[q := start[q][1..]]
  }

  /** What a pop on its own has done when it is through with the levels. */
  ghost predicate Popped(start: Levels, th: nat, rings: Levels, popped: seq<PendingEntry>) {
    exists q :: TookFrom(start, th, rings, popped, q)
  }

  predicate AllEmpty(levels: Levels) {
    forall q | 0 <= q < MAX_PRIORITY :: levels[q] == []
  }

  /** Thread t is on its own in a pop that began in s0, and has come to s. */
  ghost predicate InPop(s0: State, s: State, t: nat, d: Change, th: nat) {
    && Differs(s0, s, t, d) && d.added == d.evicted == []
    && var start, rings, pc := Rings(s0.levels), Rings(s.levels), s.threads[t];
       if Scanning(pc) then rings == start && d.popped == []
       else
         && (pc.PopCount? || pc.PopUnlock? || pc.PopTotal? || pc.Idle?)
         && (Popped(start, th, rings, d.popped) || (pc.Idle? && AllEmpty(start) && rings == start && d.popped == []))
  }

  /** The rings have been the same in the states from, ..., i. */
  predicate Still(run: seq<State>, from: nat, i: nat)
    requires i < |run|
  {
    forall j | from <= j <= i :: Rings(run[j].levels) == Rings(run[i].levels)
  }

  /** Where a pop on its own stands in state i: while it scans, nothing has changed since it began. */
  ghost predicate PopStands(run: seq<State>, t: nat, from: nat, i: nat, th: nat)
    requires from < |run| && i < |run|
  {
    && (exists d :: InPop(run[from], run[i], t, d, th))
    && (t < |run[i].threads| && Scanning(run[i].threads[t]) ==> Still(run, from, i))
  }

  lemma PopTakesAlone(run: seq<State>, moves: seq<Move>, cap: nat, n: nat, t: nat, from: nat, i: nat, th: nat, d: Change)
    returns (d': Change)
    requires IsRun(run, moves, cap, n) && InCall(moves, t, from, i) && Threshold(moves[from].call) == Some(th)
    requires i < |moves| && moves[i] == Moves(t) && run[i + 1].popped != run[i].popped
    requires InPop(run[from], run[i], t, d, th) && Scanning(run[i].threads[t]) && Still(run, from, i)
    ensures InPop(run[from], run[i + 1], t, d', th) && !Scanning(run[i + 1].threads[t])
  {
    var p := PopTakes(run, moves, cap, n, t, from, i);
    UndisturbedPops(run, from, i, th, p);
    var s := run[i];
    assert Enabled(s, t) && run[i + 1] == Step(s, t);
    var x := EffectOf(s, t);
    StepDiffers(run[from], s, t, d, x);
    d' := Change(d.added + x.added, d.popped + x.popped, d.evicted + x.evicted);
    assert TookFrom(Rings(run[from].levels), th, Rings(run[i + 1].levels), d'.popped, p);
  }

  /** A step of the scan that pops nothing leaves the levels alone and goes on, or ends the call. */
  lemma ScanActs(pc: Pc, lv: Level, t: nat, cap: nat)
    requires Scanning(pc) && Act(pc, lv, t, cap).popped == [] && (pc.PopBest? ==> lv.ring != [])
    ensures var x := Act(pc, lv, t, cap);
            x.level.ring == lv.ring && x.added == x.evicted == [] && (Scanning(x.pc) || x.pc.Idle?)
  {
  }

  lemma ScanIsQuiet(run: seq<State>, moves: seq<Move>, cap: nat, n: nat, t: nat, from: nat, i: nat, th: nat, d: Change)
    requires IsRun(run, moves, cap, n) && from <= i < |moves| && moves[i] == Moves(t)
    requires run[i + 1].popped == run[i].popped
    requires InPop(run[from], run[i], t, d, th) && Scanning(run[i].threads[t]) && Still(run, from, i)
    ensures Differs(run[from], run[i + 1], t, d) && Rings(run[i + 1].levels) == Rings(run[i].levels)
    ensures Still(run, from, i + 1) && (Scanning(run[i + 1].threads[t]) || run[i + 1].threads[t].Idle?)
  {
    RunKeepsInv(run, moves, cap, n, i);
    var s := run[i];
    assert Enabled(s, t) && run[i + 1] == Step(s, t);
    var pc, x := s.threads[t], EffectOf(s, t);
    assert KnowsHead(pc, s.levels);
    assert x.popped == [] by { assert s.popped + x.popped == s.popped; }
    ScanActs(pc, s.levels[Target(pc)], t, s.cap);
    StepDiffers(run[from], s, t, d, x);
    assert Change(d.added + x.added, d.popped + x.popped, d.evicted + x.evicted) == d;
    assert Rings(s.levels)[Target(pc) := x.level.ring] == Rings(s.levels);
  }

  lemma NothingThere(run: seq<State>, from: nat, i: nat)
    requires i < |run| && |run[i].levels| == MAX_PRIORITY && Still(run, from, i) && SawEmpty(run, from, i, 0)
    ensures AllEmpty(Rings(run[i].levels))
  {
    forall q: nat | q < MAX_PRIORITY
      ensures Rings(run[i].levels)[q] == []
    {
      SawIsNow(run, from, i, q, None);
    }
  }

  lemma WindsUp(s0: State, s: State, t: nat, d: Change, th: nat) returns (d': Change)
    requires InPop(s0, s, t, d, th) && !Scanning(s.threads[t]) && Enabled(s, t)
    ensures InPop(s0, Step(s, t), t, d', th) && !Scanning(Step(s, t).threads[t])
  {
    var pc, x := s.threads[t], EffectOf(s, t);
    StepDiffers(s0, s, t, d, x);
    d' := Change(d.added + x.added, d.popped + x.popped, d.evicted + x.evicted);
    assert Rings(s.levels)[Target(pc) := x.level.ring] == Rings(s.levels);
    assert d' == d;
  }

  lemma PopMoves(run: seq<State>, moves: seq<Move>, cap: nat, n: nat, t: nat, from: nat, i: nat, th: nat)
    requires IsRun(run, moves, cap, n) && InCall(moves, t, from, i) && Threshold(moves[from].call) == Some(th)
    requires i < |moves| && moves[i] == Moves(t) && PopStands(run, t, from, i, th)
    ensures PopStands(run, t, from, i + 1, th)
  {
    var d :| InPop(run[from], run[i], t, d, th);
    assert Enabled(run[i], t) && run[i + 1] == Step(run[i], t);
    if !Scanning(run[i].threads[t]) {
      var d' := WindsUp(run[from], run[i], t, d, th);
    } else if run[i + 1].popped != run[i].popped {
      var d' := PopTakesAlone(run, moves, cap, n, t, from, i, th, d);
    } else {
      ScanIsQuiet(run, moves, cap, n, t, from, i, th, d);
      if run[i + 1].threads[t].Idle? {
        PopFindsNothing(run, moves, cap, n, t, from, i);
        NothingThere(run, from, i);
      }
      assert InPop(run[from], run[i + 1], t, d, th);
    }
  }

  lemma PopStarts(run: seq<State>, moves: seq<Move>, cap: nat, n: nat, t: nat, from: nat, th: nat)
    requires IsRun(run, moves, cap, n) && from < |moves| && moves[from].Starts? && moves[from].t == t
    requires Threshold(moves[from].call) == Some(th)
    ensures PopStands(run, t, from, from + 1, th)
  {
    RunKeepsInv(run, moves, cap, n, from);
    assert CanStart(run[from], t) && run[from + 1] == Start(run[from], t, moves[from].call);
    StartDiffers(run[from], t, moves[from].call);
    assert InPop(run[from], run[from + 1], t, Change([], [], []), th);
  }

  lemma {:induction false} HoldsAt(from: nat, i: nat, holds: nat -> bool)
    requires from < i && holds(from + 1) && forall j: nat | from < j < i && holds(j) :: holds(j + 1)
    ensures holds(i)
  {
    if i > from + 1 {
      HoldsAt(from, i - 1, holds);
    }
  }

  lemma PopAlone(run: seq<State>, moves: seq<Move>, cap: nat, n: nat, t: nat, from: nat, i: nat, th: nat) returns (d: Change)
    requires IsRun(run, moves, cap, n) && Alone(moves, t, from, i) && Threshold(moves[from].call) == Some(th)
    ensures InPop(run[from], run[i], t, d, th)
  {
    PopStarts(run, moves, cap, n, t, from, th);
    var holds := (j: nat) => j < |run| && PopStands(run, t, from, j, th);
    forall j: nat | from < j < i && holds(j)
      ensures holds(j + 1)
    {
      PopMoves(run, moves, cap, n, t, from, j, th);
    }
    HoldsAt(from, i, holds);
    d :| InPop(run[from], run[i], t, d, th);
  }

  /**
   A pop that no other thread interrupts takes the head the sequential pop takes and counts it out, or
   finds every level empty and changes nothing.
   */
  lemma PopsAlone(run: seq<State>, moves: seq<Move>, cap: nat, n: nat, t: nat, from: nat, i: nat, th: nat) returns (q: nat)
    requires IsRun(run, moves, cap, n) && Alone(moves, t, from, i) && t < |run[i].threads| && run[i].threads[t].Idle?
    requires moves[from].call == CallPopWithThreshold(th) || (th == 0 && moves[from].call == CallPopHighest)
    ensures |run[from].levels| == MAX_PRIORITY && run[i].added == run[from].added && run[i].evicted == run[from].evicted
    ensures var start := Rings(run[from].levels);
            if forall l | 0 <= l < MAX_PRIORITY :: start[l] == [] then
              Rings(run[i].levels) == start && run[i].popped == run[from].popped && run[i].total == run[from].total
            else
              && q < MAX_PRIORITY && start[q] != [] && Pops(start, th, q)
              && Rings(run[i].levels) == start[q := start[q][1..]]
              && run[i].popped == run[from].popped + [start[q][0]] && run[i].total == run[from].total - 1
  {
    RunKeepsInv(run, moves, cap, n, from);
    RunKeepsInv(run, moves, cap, n, i);
    assert CanStart(run[from], t);
    var d := PopAlone(run, moves, cap, n, t, from, i, th);
    TotalFollows(run[from], run[i], t, d);
    q := 0;
    if Popped(Rings(run[from].levels), th, Rings(run[i].levels), d.popped) {
      q :| TookFrom(Rings(run[from].levels), th, Rings(run[i].levels), d.popped, q);
    }
  }
}
