/**
 What every interleaving of the priority index keeps: locks are exclusive, counts match their
 rings, every entry is in exactly one place, the total is right up to what threads still owe,
 and some thread can always move.
 */
module PriorityIndexSafety {
  import opened Wrappers
  import opened EntryRing
  import opened PriorityLevels
  import opened PriorityIndexSteps

  // ----- the invariant

  predicate Shaped(s: State) {
    && |s.levels| == MAX_PRIORITY
    && (forall t | 0 <= t < |s.threads| :: WellFormed(s.threads[t]))
    && forall l | 0 <= l < MAX_PRIORITY :: Fits(s.cap, s.levels[l].ring)
  }

  predicate Fits(cap: nat, ring: seq<PendingEntry>) {
    cap > 0 ==> |ring| <= cap
  }

  /** The lock of a level names exactly the thread whose program counter holds it. */
  predicate LocksAgree(s: State)
    requires Shaped(s)
  {
    && (forall l | 0 <= l < MAX_PRIORITY && s.levels[l].lock.Some? :: s.levels[l].lock.value < |s.threads|)
    && forall l, t | 0 <= l < MAX_PRIORITY && 0 <= t < |s.threads| ::
         Holds(s.threads[t], l) <==> s.levels[l].lock == Some(t)
  }

  /** The count of level l while a thread at pc holds its lock (Idle: while nobody does). */
  predicate CountOk(lv: Level, pc: Pc, l: nat) {
    if pc.AddCount? && pc.p == l then lv.count == |lv.ring| - 1
    else if pc.PopCount? && pc.p == l then lv.count == |lv.ring| + 1
    else if pc.PromCount? && pc.p == l then pc.n == |lv.ring|
    else if (pc.PromPush? || pc.PromDrop?) && pc.p + 1 == l then true
    else lv.count == |lv.ring|
  }

  function Holder(s: State, l: nat): Pc
    requires Shaped(s) && LocksAgree(s) && l < MAX_PRIORITY
  {
    if s.levels[l].lock.None? then Idle else s.threads[s.levels[l].lock.value]
  }

  predicate CountsAgree(s: State)
    requires Shaped(s) && LocksAgree(s)
  {
    forall l | 0 <= l < MAX_PRIORITY :: CountOk(s.levels[l], Holder(s, l), l)
  }

  predicate HeadAt(ring: seq<PendingEntry>, at: int) {
    ring != [] && ring[0].arrivedAt == at
  }

  /** A thread that settled on a level while peeking still finds the entry it saw there. */
  predicate KnowsHead(pc: Pc, levels: seq<Level>)
    requires |levels| == MAX_PRIORITY && WellFormed(pc)
  {
    match pc
    case PeekLock(_, _, best, at) => best.Some? ==> HeadAt(levels[best.value].ring, at)
    case PeekLook(_, _, best, at) => best.Some? ==> HeadAt(levels[best.value].ring, at)
    case PeekSkip(_, _, best, at) => best.Some? ==> HeadAt(levels[best.value].ring, at)
    case PeekSwap(p, _, _, at) => HeadAt(levels[p].ring, at)
    case PopBest(p, _, at) => HeadAt(levels[p].ring, at)
    case _ => true
  }

  predicate HeadsKnown(s: State)
    requires Shaped(s)
  {
    forall t | 0 <= t < |s.threads| :: KnowsHead(s.threads[t], s.levels)
  }

  /** Every entry in the thread's hands is stale by the clock of its promotion. */
  predicate CarriesStale(pc: Pc) {
    match pc
    case PromCount(_, _, stale, now, ttl) => forall e | e in stale :: now - e.arrivedAt > ttl
    case PromUnlock(_, stale, now, ttl) => forall e | e in stale :: now - e.arrivedAt > ttl
    case PromRaise(_, stale, now, ttl) => forall e | e in stale :: now - e.arrivedAt > ttl
    case PromPush(_, rest, now, ttl) => forall e | e in rest :: now - e.arrivedAt > ttl
    case PromDrop(_, rest, now, ttl) => forall e | e in rest :: now - e.arrivedAt > ttl
    case _ => true
  }

  function Rings(levels: seq<Level>): seq<seq<PendingEntry>> {
    seq(|levels|, l requires 0 <= l < |levels| => levels[l].ring)
  }

  function Stored(s: State, e: Option<PendingEntry>): nat {
    Occurrences(Rings(s.levels), e)
  }

  function InHands(threads: seq<Pc>, e: Option<PendingEntry>): nat {
    if threads == [] then 0 else InHands(threads[..|threads| - 1], e) + Count(Hands(threads[|threads| - 1]), e)
  }

  function Debt(threads: seq<Pc>): int {
    if threads == [] then 0 else Debt(threads[..|threads| - 1]) + Owed(threads[|threads| - 1])
  }

  /** Every occurrence of e ever added is stored, in a thread's hands, popped or evicted. */
  predicate Conserves(s: State, e: Option<PendingEntry>) {
    Count(s.added, e) == Stored(s, e) + InHands(s.threads, e) + Count(s.popped, e) + Count(s.evicted, e)
  }

  /** The total, with what the threads still owe it, counts the entries stored and in hands. */
  predicate TotalAgrees(s: State) {
    s.total + Debt(s.threads) == Stored(s, None) + InHands(s.threads, None)
  }

  ghost predicate Inv(s: State) {
    && Shaped(s) && LocksAgree(s) && CountsAgree(s) && HeadsKnown(s) && TotalAgrees(s)
    && (forall t | 0 <= t < |s.threads| :: CarriesStale(s.threads[t]))
    && forall e :: Conserves(s, e)
  }

  // ----- what one step does to the level it touches

  lemma ActStaysWellFormed(pc: Pc, lv: Level, t: nat, cap: nat)
    requires WellFormed(pc) && !pc.Idle?
    ensures WellFormed(Act(pc, lv, t, cap).pc)
  {
  }

  lemma ActStaysWithin(pc: Pc, lv: Level, t: nat, cap: nat)
    requires Fits(cap, lv.ring)
    ensures Fits(cap, Act(pc, lv, t, cap).level.ring)
  {
  }

  /** A step takes, keeps or gives up the lock it touches. */
  lemma ActOnLock(pc: Pc, lv: Level, t: nat, cap: nat)
    requires WellFormed(pc) && !pc.Idle? && (Waits(pc).Some? ==> lv.lock == None)
    requires Holds(pc, Target(pc)) ==> lv.lock == Some(t)
    ensures var x, l := Act(pc, lv, t, cap), Target(pc);
            && x.level.lock == (if Holds(x.pc, l) then Some(t) else if Holds(pc, l) then None else lv.lock)
            && (Holds(x.pc, l) && !Holds(pc, l) ==> lv.lock == None)
  {
  }

  lemma MoveOnOtherLock(pc: Pc, lv: Level, t: nat, cap: nat, l: nat)
    requires WellFormed(pc) && !pc.Idle? && !Carries(pc) && l != Target(pc)
    ensures Holds(Act(pc, lv, t, cap).pc, l) == Holds(pc, l)
  {
  }

  lemma ActOnOtherLock(pc: Pc, lv: Level, t: nat, cap: nat, l: nat)
    requires WellFormed(pc) && !pc.Idle? && l != Target(pc)
    ensures Holds(Act(pc, lv, t, cap).pc, l) == Holds(pc, l)
  {
    if !Carries(pc) {
      MoveOnOtherLock(pc, lv, t, cap, l);
    }
  }

  /** Entries and counts change only under the lock. */
  lemma ActUnderLock(pc: Pc, lv: Level, t: nat, cap: nat)
    requires WellFormed(pc) && !pc.Idle? && !Holds(pc, Target(pc))
    ensures Act(pc, lv, t, cap).level.ring == lv.ring && Act(pc, lv, t, cap).level.count == lv.count
  {
  }

  /** The level of a step that neither holds nor takes its lock is left alone. */
  lemma ActElsewhere(pc: Pc, lv: Level, t: nat, cap: nat)
    requires WellFormed(pc) && !pc.Idle? && !Holds(pc, Target(pc)) && Waits(pc).None?
    ensures Act(pc, lv, t, cap).level == lv && !Holds(Act(pc, lv, t, cap).pc, Target(pc))
  {
  }

  /** The count is right again, or will be corrected by the holder, after every step. */
  predicate CountAfter(pc: Pc, x: Effect) {
    CountOk(x.level, if Holds(x.pc, Target(pc)) then x.pc else Idle, Target(pc))
  }

  lemma PushOnCount(pc: Pc, lv: Level, t: nat, cap: nat)
    requires (pc.AddPush? || pc.PromPush?) && Fits(cap, lv.ring) && CountOk(lv, pc, Target(pc))
    ensures CountAfter(pc, Act(pc, lv, t, cap))
  {
  }

  lemma TakeOnCount(pc: Pc, lv: Level, t: nat, cap: nat)
    requires pc.PromTake? || pc.PopTry? || (pc.PopBest? && lv.ring != [])
    requires Fits(cap, lv.ring) && CountOk(lv, pc, Target(pc))
    ensures CountAfter(pc, Act(pc, lv, t, cap))
  {
  }

  lemma MoveOnCount(pc: Pc, lv: Level, t: nat, cap: nat)
    requires WellFormed(pc) && !pc.Idle? && !Carries(pc) && Holds(pc, Target(pc)) && CountOk(lv, pc, Target(pc))
    ensures CountAfter(pc, Act(pc, lv, t, cap))
  {
    ActMovesNothing(pc, lv, t, cap);
  }

  lemma ActOnCount(pc: Pc, lv: Level, t: nat, cap: nat)
    requires WellFormed(pc) && !pc.Idle? && Fits(cap, lv.ring) && Holds(pc, Target(pc))
    requires CountOk(lv, pc, Target(pc)) && (pc.PopBest? ==> lv.ring != [])
    ensures CountAfter(pc, Act(pc, lv, t, cap))
  {
    if pc.AddPush? || pc.PromPush? {
      PushOnCount(pc, lv, t, cap);
    } else if Carries(pc) {
      TakeOnCount(pc, lv, t, cap);
    } else {
      MoveOnCount(pc, lv, t, cap);
    }
  }

  lemma ActOnFreeCount(pc: Pc, lv: Level, t: nat, cap: nat)
    requires WellFormed(pc) && Waits(pc).Some? && CountOk(lv, Idle, Target(pc))
    ensures Holds(Act(pc, lv, t, cap).pc, Target(pc))
    ensures CountOk(Act(pc, lv, t, cap).level, Act(pc, lv, t, cap).pc, Target(pc))
  {
  }

  lemma ActOnOtherCount(pc: Pc, lv: Level, t: nat, cap: nat, other: Level, l: nat)
    requires WellFormed(pc) && !pc.Idle? && l != Target(pc) && Holds(pc, l) && CountOk(other, pc, l)
    ensures CountOk(other, Act(pc, lv, t, cap).pc, l)
  {
  }

  predicate Carries(pc: Pc) {
    pc.AddPush? || pc.PopTry? || pc.PopBest? || pc.PromTake? || pc.PromPush?
  }

  lemma ActMovesNothing(pc: Pc, lv: Level, t: nat, cap: nat)
    requires !Carries(pc)
    ensures var x := Act(pc, lv, t, cap);
            x.level.ring == lv.ring && Hands(x.pc) == Hands(pc) && x.added == x.popped == x.evicted == []
  {
  }

  /** The entries before and after a step, the logs included. */
  function Before(pc: Pc, lv: Level, x: Effect, e: Option<PendingEntry>): nat {
    Count(x.added, e) + Count(lv.ring, e) + Count(Hands(pc), e)
  }

  function Afterwards(x: Effect, e: Option<PendingEntry>): nat {
    Count(x.level.ring, e) + Count(Hands(x.pc), e) + Count(x.popped, e) + Count(x.evicted, e)
  }

  /** Pushing x onto a ring keeps every entry, or evicts it. */
  lemma PushBalances(cap: nat, ring: seq<PendingEntry>, x: PendingEntry, e: Option<PendingEntry>)
    ensures Count(Kept(cap, ring + [x]), e) + Count(Dropped(cap, ring + [x]), e) == Count(ring, e) + Count([x], e)
  {
    KeepsOrEvicts(cap, ring + [x], e);
    CountConcat(ring, [x], e);
  }

  lemma AddPushBalances(pc: Pc, lv: Level, t: nat, cap: nat, e: Option<PendingEntry>)
    requires pc.AddPush?
    ensures Before(pc, lv, Act(pc, lv, t, cap), e) == Afterwards(Act(pc, lv, t, cap), e)
  {
    PushBalances(cap, lv.ring, pc.e, e);
    var x := Act(pc, lv, t, cap);
    assert Hands(pc) == Hands(x.pc) == [];
  }

  lemma PromPushBalances(pc: Pc, lv: Level, t: nat, cap: nat, e: Option<PendingEntry>)
    requires pc.PromPush?
    ensures Before(pc, lv, Act(pc, lv, t, cap), e) == Afterwards(Act(pc, lv, t, cap), e)
  {
    var x := Act(pc, lv, t, cap);
    if pc.rest != [] {
      var rest := pc.rest;
      assert Hands(pc) == rest && Hands(x.pc) == rest[1..];
      assert x.level.ring == Kept(cap, lv.ring + [rest[0]]) && x.evicted == Dropped(cap, lv.ring + [rest[0]]);
      assert x.added == x.popped == [];
      RaiseBalances(cap, lv.ring, rest, e);
    } else {
      assert Hands(pc) == Hands(x.pc) == [];
    }
  }

  lemma RaiseBalances(cap: nat, ring: seq<PendingEntry>, rest: seq<PendingEntry>, e: Option<PendingEntry>)
    requires rest != []
    ensures Count(Kept(cap, ring + [rest[0]]), e) + Count(Dropped(cap, ring + [rest[0]]), e) + Count(rest[1..], e)
         == Count(ring, e) + Count(rest, e)
  {
    HeadAndTail(rest, e);
    PushBalances(cap, ring, rest[0], e);
  }

  lemma PopBalances(pc: Pc, lv: Level, t: nat, cap: nat, e: Option<PendingEntry>)
    requires pc.PopTry? || pc.PopBest?
    ensures Before(pc, lv, Act(pc, lv, t, cap), e) == Afterwards(Act(pc, lv, t, cap), e)
  {
    HeadAndTail(lv.ring, e);
    var x := Act(pc, lv, t, cap);
    assert Hands(pc) == Hands(x.pc) == [];
  }

  lemma TakeBalances(pc: Pc, lv: Level, t: nat, cap: nat, e: Option<PendingEntry>)
    requires pc.PromTake? && Fits(cap, lv.ring)
    ensures Before(pc, lv, Act(pc, lv, t, cap), e) == Afterwards(Act(pc, lv, t, cap), e)
  {
    SplitByAge(lv.ring, pc.now, pc.ttl, e);
    var x := Act(pc, lv, t, cap);
    assert Hands(pc) == [] && Hands(x.pc) == Stale(lv.ring, pc.now, pc.ttl);
  }

  /** A step moves entries between the level, the thread's hands and the logs, and loses none. */
  lemma ActBalances(pc: Pc, lv: Level, t: nat, cap: nat, e: Option<PendingEntry>)
    requires Fits(cap, lv.ring)
    ensures Before(pc, lv, Act(pc, lv, t, cap), e) == Afterwards(Act(pc, lv, t, cap), e)
  {
    if !Carries(pc) {
      ActMovesNothing(pc, lv, t, cap);
    } else if pc.AddPush? {
      AddPushBalances(pc, lv, t, cap, e);
    } else if pc.PromPush? {
      PromPushBalances(pc, lv, t, cap, e);
    } else if pc.PromTake? {
      TakeBalances(pc, lv, t, cap, e);
    } else {
      PopBalances(pc, lv, t, cap, e);
    }
  }

  lemma HeadAndTail(s: seq<PendingEntry>, e: Option<PendingEntry>)
    ensures s != [] ==> Count(s, e) == Count([s[0]], e) + Count(s[1..], e)
  {
    if s != [] {
      CountConcat([s[0]], s[1..], e);
      assert s == [s[0]] + s[1..];
    }
  }

  /** Whatever x adds to the total, or goes on owing it, is the change in the number of entries. */
  predicate PaysFor(pc: Pc, lv: Level, x: Effect) {
    x.delta + Owed(x.pc) - Owed(pc) == |x.level.ring| + |Hands(x.pc)| - |lv.ring| - |Hands(pc)|
  }

  lemma MovePays(pc: Pc, lv: Level, t: nat, cap: nat)
    requires !Carries(pc)
    ensures PaysFor(pc, lv, Act(pc, lv, t, cap))
  {
    var x := Act(pc, lv, t, cap);
    ActMovesNothing(pc, lv, t, cap);
    assert x.delta + Owed(x.pc) == Owed(pc);
  }

  lemma PushPays(pc: Pc, lv: Level, t: nat, cap: nat)
    requires Fits(cap, lv.ring) && (pc.AddPush? || pc.PromPush?)
    ensures PaysFor(pc, lv, Act(pc, lv, t, cap))
  {
  }

  lemma TakePays(pc: Pc, lv: Level, t: nat, cap: nat)
    requires Fits(cap, lv.ring) && (pc.PromTake? || pc.PopTry? || (pc.PopBest? && lv.ring != []))
    ensures PaysFor(pc, lv, Act(pc, lv, t, cap))
  {
    if pc.PromTake? {
      SplitByAge(lv.ring, pc.now, pc.ttl, None);
    }
  }

  lemma ActOnTotal(pc: Pc, lv: Level, t: nat, cap: nat)
    requires Fits(cap, lv.ring) && (pc.PopBest? ==> lv.ring != [])
    ensures PaysFor(pc, lv, Act(pc, lv, t, cap))
  {
    if !Carries(pc) {
      MovePays(pc, lv, t, cap);
    } else if pc.AddPush? || pc.PromPush? {
      PushPays(pc, lv, t, cap);
    } else {
      TakePays(pc, lv, t, cap);
    }
  }

  /** A thread that settles on a level has just seen its head. */
  lemma ActOnHead(pc: Pc, levels: seq<Level>, t: nat, cap: nat)
    requires |levels| == MAX_PRIORITY && WellFormed(pc) && !pc.Idle? && KnowsHead(pc, levels)
    ensures var x := Act(pc, levels[Target(pc)], t, cap);
            WellFormed(x.pc) && KnowsHead(x.pc, levels[Target(pc) := x.level])
  {
  }

  /** A promotion takes along nothing but stale entries. */
  lemma ActCarriesStale(pc: Pc, lv: Level, t: nat, cap: nat)
    requires CarriesStale(pc)
    ensures CarriesStale(Act(pc, lv, t, cap).pc)
  {
  }

  // ----- from one level to the whole index

  lemma AppliedShaped(s: State, t: nat, l: nat, x: Effect)
    requires Shaped(s) && t < |s.threads| && l < MAX_PRIORITY
    requires WellFormed(x.pc) && Fits(s.cap, x.level.ring)
    ensures Shaped(Applied(s, t, l, x))
  {
  }

  lemma AppliedLocks(s: State, t: nat, l: nat, x: Effect)
    requires Shaped(s) && LocksAgree(s) && t < |s.threads| && l < MAX_PRIORITY && Shaped(Applied(s, t, l, x))
    requires forall k: nat | k != l :: Holds(x.pc, k) == Holds(s.threads[t], k)
    requires x.level.lock == if Holds(x.pc, l) then Some(t) else if Holds(s.threads[t], l) then None else s.levels[l].lock
    requires Holds(x.pc, l) && !Holds(s.threads[t], l) ==> s.levels[l].lock == None
    ensures LocksAgree(Applied(s, t, l, x))
  {
    var s' := Applied(s, t, l, x);
    forall k, u | 0 <= k < MAX_PRIORITY && 0 <= u < |s'.threads|
      ensures Holds(s'.threads[u], k) <==> s'.levels[k].lock == Some(u)
    {
      assert Holds(s.threads[u], k) <==> s.levels[k].lock == Some(u);
      assert Holds(s.threads[t], k) <==> s.levels[k].lock == Some(t);
    }
  }

  lemma AppliedCounts(s: State, t: nat, l: nat, x: Effect)
    requires Shaped(s) && LocksAgree(s) && CountsAgree(s) && t < |s.threads| && l < MAX_PRIORITY
    requires Shaped(Applied(s, t, l, x)) && LocksAgree(Applied(s, t, l, x))
    requires Holds(s.threads[t], l) || Holds(x.pc, l) ==> CountOk(x.level, if Holds(x.pc, l) then x.pc else Idle, l)
    requires !Holds(s.threads[t], l) && !Holds(x.pc, l) ==> x.level == s.levels[l]
    requires forall k: nat | k < MAX_PRIORITY && k != l && Holds(s.threads[t], k) :: CountOk(s.levels[k], x.pc, k)
    ensures CountsAgree(Applied(s, t, l, x))
  {
    var s' := Applied(s, t, l, x);
    forall k | 0 <= k < MAX_PRIORITY
      ensures CountOk(s'.levels[k], Holder(s', k), k)
    {
      assert CountOk(s.levels[k], Holder(s, k), k);
      assert Holds(s'.threads[t], k) <==> s'.levels[k].lock == Some(t);
      assert Holds(s.threads[t], k) <==> s.levels[k].lock == Some(t);
    }
  }

  lemma AppliedHeads(s: State, t: nat, l: nat, x: Effect)
    requires Shaped(s) && LocksAgree(s) && HeadsKnown(s) && t < |s.threads| && l < MAX_PRIORITY
    requires Shaped(Applied(s, t, l, x))
    requires WellFormed(x.pc) && KnowsHead(x.pc, s.levels[l := x.level])
    requires !Holds(s.threads[t], l) ==> x.level.ring == s.levels[l].ring
    ensures HeadsKnown(Applied(s, t, l, x))
  {
    var s' := Applied(s, t, l, x);
    forall u | 0 <= u < |s'.threads|
      ensures KnowsHead(s'.threads[u], s'.levels)
    {
      if u != t {
        assert KnowsHead(s.threads[u], s.levels);
        assert Holds(s.threads[u], l) <==> s.levels[l].lock == Some(u);
        assert Holds(s.threads[t], l) <==> s.levels[l].lock == Some(t);
      }
    }
  }

  lemma {:induction false} InHandsUpdate(threads: seq<Pc>, t: nat, pc: Pc, e: Option<PendingEntry>)
    requires t < |threads|
    ensures InHands(threads[t := pc], e) == InHands(threads, e) - Count(Hands(threads[t]), e) + Count(Hands(pc), e)
  {
    var n := |threads| - 1;
    if t < n {
      InHandsUpdate(threads[..n], t, pc, e);
      assert threads[t := pc][..n] == threads[..n][t := pc];
    } else {
      assert threads[t := pc][..n] == threads[..n];
    }
  }

  lemma {:induction false} DebtUpdate(threads: seq<Pc>, t: nat, pc: Pc)
    requires t < |threads|
    ensures Debt(threads[t := pc]) == Debt(threads) - Owed(threads[t]) + Owed(pc)
  {
    var n := |threads| - 1;
    if t < n {
      DebtUpdate(threads[..n], t, pc);
      assert threads[t := pc][..n] == threads[..n][t := pc];
    } else {
      assert threads[t := pc][..n] == threads[..n];
    }
  }

  lemma StoredUpdate(s: State, l: nat, lv: Level, e: Option<PendingEntry>)
    requires l < |s.levels|
    ensures Occurrences(Rings(s.levels[l := lv]), e) == Stored(s, e) - Count(s.levels[l].ring, e) + Count(lv.ring, e)
  {
    assert Rings(s.levels[l := lv]) == Rings(s.levels)[l := lv.ring];
    OccurrencesUpdate(Rings(s.levels), l, lv.ring, e);
  }

  lemma AppliedConserves(s: State, t: nat, l: nat, x: Effect, e: Option<PendingEntry>)
    requires t < |s.threads| && l < |s.levels| && Conserves(s, e)
    requires Before(s.threads[t], s.levels[l], x, e) == Afterwards(x, e)
    ensures Conserves(Applied(s, t, l, x), e)
  {
    StoredUpdate(s, l, x.level, e);
    InHandsUpdate(s.threads, t, x.pc, e);
    CountConcat(s.added, x.added, e);
    CountConcat(s.popped, x.popped, e);
    CountConcat(s.evicted, x.evicted, e);
  }

  lemma AppliedTotal(s: State, t: nat, l: nat, x: Effect)
    requires t < |s.threads| && l < |s.levels| && TotalAgrees(s)
    requires PaysFor(s.threads[t], s.levels[l], x)
    ensures TotalAgrees(Applied(s, t, l, x))
  {
    StoredUpdate(s, l, x.level, None);
    InHandsUpdate(s.threads, t, x.pc, None);
    DebtUpdate(s.threads, t, x.pc);
  }

  // ----- every reachable state

  lemma StepKeepsLocks(s: State, t: nat)
    requires Inv(s) && Enabled(s, t)
    ensures Shaped(Step(s, t)) && LocksAgree(Step(s, t))
  {
    var pc, l := s.threads[t], Target(s.threads[t]);
    var lv := s.levels[l];
    assert Holds(pc, l) <==> lv.lock == Some(t);
    ActStaysWellFormed(pc, lv, t, s.cap);
    ActStaysWithin(pc, lv, t, s.cap);
    AppliedShaped(s, t, l, EffectOf(s, t));
    ActOnLock(pc, lv, t, s.cap);
    forall k: nat | k != l { ActOnOtherLock(pc, lv, t, s.cap, k); }
    AppliedLocks(s, t, l, EffectOf(s, t));
  }

  lemma StepKeepsCounts(s: State, t: nat)
    requires Inv(s) && Enabled(s, t) && Shaped(Step(s, t)) && LocksAgree(Step(s, t))
    ensures CountsAgree(Step(s, t))
  {
    var pc, l := s.threads[t], Target(s.threads[t]);
    var lv := s.levels[l];
    assert Holds(pc, l) <==> lv.lock == Some(t);
    assert CountOk(lv, Holder(s, l), l) && KnowsHead(pc, s.levels);
    if Holds(pc, l) {
      ActOnCount(pc, lv, t, s.cap);
    } else if Waits(pc).Some? {
      ActOnFreeCount(pc, lv, t, s.cap);
    } else {
      ActElsewhere(pc, lv, t, s.cap);
    }
    forall k: nat | k < MAX_PRIORITY && k != l && Holds(pc, k)
      ensures CountOk(s.levels[k], EffectOf(s, t).pc, k)
    {
      assert CountOk(s.levels[k], Holder(s, k), k);
      ActOnOtherCount(pc, lv, t, s.cap, s.levels[k], k);
    }
    AppliedCounts(s, t, l, EffectOf(s, t));
  }

  lemma StepKeepsHeads(s: State, t: nat)
    requires Inv(s) && Enabled(s, t) && Shaped(Step(s, t))
    ensures HeadsKnown(Step(s, t))
  {
    var pc, l := s.threads[t], Target(s.threads[t]);
    assert KnowsHead(pc, s.levels);
    ActOnHead(pc, s.levels, t, s.cap);
    if !Holds(pc, l) {
      ActUnderLock(pc, s.levels[l], t, s.cap);
    }
    AppliedHeads(s, t, l, EffectOf(s, t));
  }

  lemma StepKeepsSums(s: State, t: nat)
    requires Inv(s) && Enabled(s, t)
    ensures TotalAgrees(Step(s, t))
    ensures forall e :: Conserves(Step(s, t), e)
  {
    var pc, l := s.threads[t], Target(s.threads[t]);
    assert KnowsHead(pc, s.levels);
    ActOnTotal(pc, s.levels[l], t, s.cap);
    AppliedTotal(s, t, l, EffectOf(s, t));
    forall e
      ensures Conserves(Step(s, t), e)
    {
      ActBalances(pc, s.levels[l], t, s.cap, e);
      AppliedConserves(s, t, l, EffectOf(s, t), e);
    }
  }

  lemma StepKeepsInv(s: State, t: nat)
    requires Inv(s) && Enabled(s, t)
    ensures Inv(Step(s, t))
  {
    StepKeepsLocks(s, t);
    StepKeepsCounts(s, t);
    StepKeepsHeads(s, t);
    StepKeepsSums(s, t);
    StepKeepsStale(s, t);
  }

  lemma StepKeepsStale(s: State, t: nat)
    requires Inv(s) && Enabled(s, t)
    ensures forall u | 0 <= u < |s.threads| :: CarriesStale(Step(s, t).threads[u])
  {
    ActCarriesStale(s.threads[t], s.levels[Target(s.threads[t])], t, s.cap);
    forall u | 0 <= u < |s.threads|
      ensures CarriesStale(Step(s, t).threads[u])
    {
      assert CarriesStale(s.threads[u]);
    }
  }

  /** Starting a call changes no level and holds nothing yet. */
  lemma StartKeepsInv(s: State, t: nat, call: Call)
    requires Inv(s) && CanStart(s, t)
    ensures Inv(Start(s, t, call))
  {
    var pc, s' := Begin(call), Start(s, t, call);
    assert WellFormed(pc) && Hands(pc) == [] && Owed(pc) == 0 && forall l: nat :: !Holds(pc, l);
    assert Shaped(s') && LocksAgree(s');
    forall l | 0 <= l < MAX_PRIORITY
      ensures CountOk(s'.levels[l], Holder(s', l), l)
    {
      assert CountOk(s.levels[l], Holder(s, l), l);
      assert Holds(s'.threads[t], l) <==> s'.levels[l].lock == Some(t);
    }
    assert HeadsKnown(s') by {
      assert KnowsHead(pc, s.levels);
      assert forall u | 0 <= u < |s.threads| :: KnowsHead(s.threads[u], s.levels);
    }
    StartKeepsSums(s, t, call);
  }

  lemma StartKeepsSums(s: State, t: nat, call: Call)
    requires CanStart(s, t) && TotalAgrees(s) && forall e :: Conserves(s, e)
    ensures TotalAgrees(Start(s, t, call)) && forall e :: Conserves(Start(s, t, call), e)
  {
    var pc, s' := Begin(call), Start(s, t, call);
    assert Hands(pc) == [] && Owed(pc) == 0;
    DebtUpdate(s.threads, t, pc);
    InHandsUpdate(s.threads, t, pc, None);
    forall e
      ensures Conserves(s', e)
    {
      assert Conserves(s, e);
      InHandsUpdate(s.threads, t, pc, e);
    }
  }

  lemma {:induction false} IdleHands(threads: seq<Pc>, e: Option<PendingEntry>)
    requires forall t | 0 <= t < |threads| :: threads[t].Idle?
    ensures InHands(threads, e) == 0 && Debt(threads) == 0
  {
    if threads != [] {
      IdleHands(threads[..|threads| - 1], e);
    }
  }

  lemma {:induction false} NothingStored(rings: seq<seq<PendingEntry>>, e: Option<PendingEntry>)
    requires forall l | 0 <= l < |rings| :: rings[l] == []
    ensures Occurrences(rings, e) == 0
  {
    if rings != [] {
      NothingStored(rings[..|rings| - 1], e);
    }
  }

  lemma InitialInv(cap: nat, n: nat)
    ensures Inv(Initial(cap, n))
  {
    var s := Initial(cap, n);
    forall e: Option<PendingEntry>
      ensures Stored(s, e) == 0 && InHands(s.threads, e) == 0 && Debt(s.threads) == 0
    {
      IdleHands(s.threads, e);
      NothingStored(Rings(s.levels), e);
    }
  }

  lemma {:induction false} RunKeepsInv(run: seq<State>, moves: seq<Move>, cap: nat, n: nat, i: nat)
    requires IsRun(run, moves, cap, n) && i < |run|
    ensures Inv(run[i])
  {
    if i == 0 {
      InitialInv(cap, n);
    } else {
      RunKeepsInv(run, moves, cap, n, i - 1);
      match moves[i - 1]
      case Starts(t, call) => StartKeepsInv(run[i - 1], t, call);
      case Moves(t) => StepKeepsInv(run[i - 1], t);
    }
  }
}
