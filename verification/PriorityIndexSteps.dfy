/**
 The priority index under any number of goroutines, one lock or atomic operation per step.

 Each thread carries a program counter that says which operation it is in, which locks it holds
 and which entries it has in its hands. A step touches one level, the total and its own counter.
 */
module PriorityIndexSteps {
  import opened Wrappers
  import opened EntryRing
  import opened PriorityLevels

  datatype Level = Level(ring: seq<PendingEntry>, count: int, lock: Option<nat>)

  datatype Pc =
    | Idle
      // Add
    | AddLock(p: nat, e: PendingEntry)
    | AddPush(p: nat, e: PendingEntry)
    | AddCount(p: nat)
    | AddUnlock(p: nat)
    | AddTotal
    | AddFull(p: nat)
      // PopHighest, and PopWithThreshold at or above the threshold
    | PopLock(p: nat, t: nat)
    | PopTry(p: nat, t: nat)
    | PopMiss(p: nat, t: nat)
    | PopCount(p: nat)
    | PopUnlock(p: nat)
    | PopTotal
      // PopWithThreshold below the threshold; best is held while p is looked at
    | PeekLock(p: nat, t: nat, best: Option<nat>, at: int)
    | PeekLook(p: nat, t: nat, best: Option<nat>, at: int)
    | PeekSwap(p: nat, t: nat, prev: nat, at: int)
    | PeekSkip(p: nat, t: nat, best: Option<nat>, at: int)
    | PopBest(p: nat, t: nat, at: int)
      // PromoteStale
    | PromLock(p: nat, now: int, ttl: int)
    | PromTake(p: nat, now: int, ttl: int)
    | PromCount(p: nat, n: nat, stale: seq<PendingEntry>, now: int, ttl: int)
    | PromUnlock(p: nat, stale: seq<PendingEntry>, now: int, ttl: int)
    | PromRaise(p: nat, stale: seq<PendingEntry>, now: int, ttl: int)
    | PromPush(p: nat, rest: seq<PendingEntry>, now: int, ttl: int)
    | PromDrop(p: nat, rest: seq<PendingEntry>, now: int, ttl: int)
    | PromRelease(p: nat, now: int, ttl: int)

  /** The logs record every entry added, popped and evicted so far. */
  datatype State = State(
    cap: nat, levels: seq<Level>, total: int, threads: seq<Pc>,
    added: seq<PendingEntry>, popped: seq<PendingEntry>, evicted: seq<PendingEntry>)

  datatype Call =
    | CallAdd(priority: int, e: PendingEntry)
    | CallPopHighest
    | CallPopWithThreshold(threshold: nat)
    | CallPromoteStale(now: int, ttl: int)

  // ----- control flow

  function PopNext(p: int, t: nat): Pc {
    if p >= t then PopLock(p, t) else PeekNext(0, t, None, 0)
  }

  function PeekNext(p: nat, t: nat, best: Option<nat>, at: int): Pc {
    if p < t && p < MAX_PRIORITY then PeekLock(p, t, best, at)
    else if best.Some? then PopBest(best.value, t, at)
    else Idle
  }

  function PromNext(p: nat, now: int, ttl: int): Pc {
    if p == 0 then Idle else PromLock(p - 1, now, ttl)
  }

  function Begin(call: Call): Pc {
    match call
    case CallAdd(priority, e) => AddLock(Clamped(priority), e)
    case CallPopHighest => PopNext(MAX_PRIORITY - 1, 0)
    case CallPopWithThreshold(t) => PopNext(MAX_PRIORITY - 1, t)
    case CallPromoteStale(now, ttl) => PromLock(MAX_PRIORITY - 2, now, ttl)
  }

  /** The lock the thread asks for next. */
  function Waits(pc: Pc): Option<nat> {
    match pc
    case AddLock(p, _) => Some(p)
    case PopLock(p, _) => Some(p)
    case PeekLock(p, _, _, _) => Some(p)
    case PromLock(p, _, _) => Some(p)
    case PromRaise(p, _, _, _) => Some(p + 1)
    case _ => None
  }

  /** Whether the thread holds the lock of level l. */
  predicate Holds(pc: Pc, l: nat) {
    match pc
    case Idle => false
    case AddLock(_, _) => false
    case AddTotal => false
    case PopLock(_, _) => false
    case PopTotal => false
    case PeekLock(_, _, best, _) => best == Some(l)
    case PeekLook(p, _, best, _) => best == Some(l) || l == p
    case PeekSwap(p, _, prev, _) => l == prev || l == p
    case PeekSkip(p, _, best, _) => best == Some(l) || l == p
    case PromLock(_, _, _) => false
    case PromRaise(_, _, _, _) => false
    case PromPush(p, _, _, _) => l == p + 1
    case PromDrop(p, _, _, _) => l == p + 1
    case PromRelease(p, _, _) => l == p + 1
    case _ => l == pc.p
  }

  /** The entries the thread is moving between two levels. */
  function Hands(pc: Pc): seq<PendingEntry> {
    match pc
    case PromCount(_, _, stale, _, _) => stale
    case PromUnlock(_, stale, _, _) => stale
    case PromRaise(_, stale, _, _) => stale
    case PromPush(_, rest, _, _) => rest
    case PromDrop(_, rest, _, _) => rest
    case _ => []
  }

  /** What the thread still has to add to the total for changes it has already made. */
  function Owed(pc: Pc): int {
    match pc
    case AddCount(_) => 1
    case AddUnlock(_) => 1
    case AddTotal => 1
    case PopCount(_) => -1
    case PopUnlock(_) => -1
    case PopTotal => -1
    case PromDrop(_, _, _, _) => -1
    case _ => 0
  }

  /** The level a step of the thread touches; level 0, left as it is, when it touches only the total. */
  function Target(pc: Pc): nat {
    match pc
    case Idle => 0
    case AddTotal => 0
    case PopTotal => 0
    case PeekSwap(_, _, prev, _) => prev
    case PromRaise(p, _, _, _) => p + 1
    case PromPush(p, _, _, _) => p + 1
    case PromDrop(p, _, _, _) => p + 1
    case PromRelease(p, _, _) => p + 1
    case _ => pc.p
  }

  // ----- one step, seen from the level it touches

  datatype Effect = Effect(
    pc: Pc, level: Level, delta: int,
    added: seq<PendingEntry>, popped: seq<PendingEntry>, evicted: seq<PendingEntry>)

  function Dropped(cap: nat, s: seq<PendingEntry>): seq<PendingEntry> {
    s[..|s| - |Kept(cap, s)|]
  }

  function Locked(lv: Level, t: nat): Level { lv.(lock := Some(t)) }

  function Unlocked(lv: Level): Level { lv.(lock := None) }

  function Act(pc: Pc, lv: Level, t: nat, cap: nat): Effect {
    match pc
    case Idle => Effect(pc, lv, 0, [], [], [])
    case AddLock(p, e) => Effect(AddPush(p, e), Locked(lv, t), 0, [], [], [])
    case AddPush(p, e) =>
      var s := lv.ring + [e];
      Effect(if cap > 0 && |lv.ring| >= cap then AddFull(p) else AddCount(p),
             lv.(ring := Kept(cap, s)), 0, [e], [], Dropped(cap, s))
    case AddCount(p) => Effect(AddUnlock(p), lv.(count := lv.count + 1), 0, [], [], [])
    case AddUnlock(p) => Effect(AddTotal, Unlocked(lv), 0, [], [], [])
    case AddTotal => Effect(Idle, lv, 1, [], [], [])
    case AddFull(p) => Effect(Idle, Unlocked(lv), 0, [], [], [])

    case PopLock(p, th) => Effect(PopTry(p, th), Locked(lv, t), 0, [], [], [])
    case PopTry(p, th) =>
      if lv.ring == [] then Effect(PopMiss(p, th), lv, 0, [], [], [])
      else Effect(PopCount(p), lv.(ring := lv.ring[1..]), 0, [], [lv.ring[0]], [])
    case PopMiss(p, th) => Effect(PopNext(p - 1, th), Unlocked(lv), 0, [], [], [])
    case PopCount(p) => Effect(PopUnlock(p), lv.(count := lv.count - 1), 0, [], [], [])
    case PopUnlock(p) => Effect(PopTotal, Unlocked(lv), 0, [], [], [])
    case PopTotal => Effect(Idle, lv, -1, [], [], [])

    case PeekLock(p, th, best, at) => Effect(PeekLook(p, th, best, at), Locked(lv, t), 0, [], [], [])
    case PeekLook(p, th, best, at) =>
      Effect(if lv.ring != [] && (best.None? || lv.ring[0].arrivedAt < at) then
               if best.Some? then PeekSwap(p, th, best.value, lv.ring[0].arrivedAt)
               else PeekNext(p + 1, th, Some(p), lv.ring[0].arrivedAt)
             else PeekSkip(p, th, best, at),
             lv, 0, [], [], [])
    case PeekSwap(p, th, _, at) => Effect(PeekNext(p + 1, th, Some(p), at), Unlocked(lv), 0, [], [], [])
    case PeekSkip(p, th, best, at) => Effect(PeekNext(p + 1, th, best, at), Unlocked(lv), 0, [], [], [])
    case PopBest(p, _, _) =>
      if lv.ring == [] then Effect(PopCount(p), lv, 0, [], [], [])
      else Effect(PopCount(p), lv.(ring := lv.ring[1..]), 0, [], [lv.ring[0]], [])

    case PromLock(p, now, ttl) => Effect(PromTake(p, now, ttl), Locked(lv, t), 0, [], [], [])
    case PromTake(p, now, ttl) =>
      var young, stale := Fresh(lv.ring, now, ttl), Stale(lv.ring, now, ttl);
      Effect(PromCount(p, |young|, stale, now, ttl), lv.(ring := Kept(cap, young)), 0, [], [], [])
    case PromCount(p, n, stale, now, ttl) => Effect(PromUnlock(p, stale, now, ttl), lv.(count := n), 0, [], [], [])
    case PromUnlock(p, stale, now, ttl) =>
      Effect(if stale == [] then PromNext(p, now, ttl) else PromRaise(p, stale, now, ttl), Unlocked(lv), 0, [], [], [])
    case PromRaise(p, stale, now, ttl) => Effect(PromPush(p, stale, now, ttl), Locked(lv, t), 0, [], [], [])
    case PromPush(p, rest, now, ttl) =>
      if rest == [] then Effect(PromRelease(p, now, ttl), lv.(count := |lv.ring|), 0, [], [], [])
      else
        var s := lv.ring + [rest[0]];
        Effect(if cap > 0 && |lv.ring| >= cap then PromDrop(p, rest[1..], now, ttl) else PromPush(p, rest[1..], now, ttl),
               lv.(ring := Kept(cap, s)), 0, [], [], Dropped(cap, s))
    case PromDrop(p, rest, now, ttl) => Effect(PromPush(p, rest, now, ttl), lv, -1, [], [], [])
    case PromRelease(p, now, ttl) => Effect(PromNext(p, now, ttl), Unlocked(lv), 0, [], [], [])
  }

  // ----- the transition system

  predicate WellFormed(pc: Pc) {
    && Target(pc) < MAX_PRIORITY
    && (pc.PeekLock? || pc.PeekLook? || pc.PeekSkip? ==> pc.best.Some? ==> pc.best.value < pc.p)
    && (pc.PeekSwap? ==> pc.prev < pc.p < MAX_PRIORITY)
    && (pc.PromLock? || pc.PromTake? || pc.PromCount? || pc.PromUnlock? ==> pc.p + 1 < MAX_PRIORITY)
  }

  /** A thread in an operation can move unless the lock it asks for is taken. */
  predicate Enabled(s: State, t: nat) {
    && |s.levels| == MAX_PRIORITY
    && t < |s.threads| && !s.threads[t].Idle? && WellFormed(s.threads[t])
    && (Waits(s.threads[t]).Some? ==> s.levels[Target(s.threads[t])].lock == None)
  }

  /** The state after thread t has had the effect x on level l. */
  function Applied(s: State, t: nat, l: nat, x: Effect): State
    requires t < |s.threads| && l < |s.levels|
  {
    State(s.cap, s.levels[l := x.level], s.total + x.delta, s.threads[t := x.pc],
          s.added + x.added, s.popped + x.popped, s.evicted + x.evicted)
  }

  function EffectOf(s: State, t: nat): Effect
    requires Enabled(s, t)
  {
    Act(s.threads[t], s.levels[Target(s.threads[t])], t, s.cap)
  }

  function Step(s: State, t: nat): State
    requires Enabled(s, t)
  {
    Applied(s, t, Target(s.threads[t]), EffectOf(s, t))
  }

  predicate CanStart(s: State, t: nat) {
    t < |s.threads| && s.threads[t].Idle?
  }

  function Start(s: State, t: nat, call: Call): State
    requires CanStart(s, t)
  {
    s.(threads := s.threads[t := Begin(call)])
  }

  function Initial(cap: nat, n: nat): State {
    State(cap, seq(MAX_PRIORITY, i => Level([], 0, None)), 0, seq(n, i => Idle), [], [], [])
  }

  datatype Move = Starts(t: nat, call: Call) | Moves(t: nat)

  predicate Possible(s: State, m: Move) {
    match m
    case Starts(t, _) => CanStart(s, t)
    case Moves(t) => Enabled(s, t)
  }

  function After(s: State, m: Move): State
    requires Possible(s, m)
  {
    match m
    case Starts(t, call) => Start(s, t, call)
    case Moves(t) => Step(s, t)
  }

  /** Any interleaving of any calls by n threads. */
  predicate IsRun(run: seq<State>, moves: seq<Move>, cap: nat, n: nat) {
    && |run| == |moves| + 1
    && run[0] == Initial(cap, n)
    && forall i {:trigger moves[i]} | 0 <= i < |moves| ::
         Possible(run[i], moves[i]) && run[i + 1] == After(run[i], moves[i])
  }
}
