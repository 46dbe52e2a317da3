/**
 A call that no other goroutine interrupts does what the sequential index does; and whatever the
 interleaving, a promotion takes along the stale entries alone.
 */
module PriorityIndexSolo {
  import opened EntryRing
  import opened PriorityLevels
  import opened PriorityIndexSteps
  import opened PriorityIndexSafety
  import opened PriorityIndexPops

  // ----- what a promotion takes, under every interleaving

  lemma RunCarriesStale(run: seq<State>, moves: seq<Move>, cap: nat, n: nat, i: nat, t: nat)
    requires IsRun(run, moves, cap, n) && i < |run| && t < |run[i].threads|
    ensures CarriesStale(run[i].threads[t])
  {
    RunKeepsInv(run, moves, cap, n, i);
  }

  /** The step that takes entries out of a level takes exactly the stale ones, and leaves the others in order. */
  lemma TakeSplits(s: State, t: nat) returns (own: seq<nat>, came: seq<nat>)
    requires Inv(s) && Enabled(s, t) && s.threads[t].PromTake?
    ensures var pc := s.threads[t];
            var ring := s.levels[pc.p].ring;
            && Picks(ring, came, Hands(Step(s, t).threads[t])) && AreStale(ring, came, pc.now, pc.ttl)
            && Picks(ring, own, Step(s, t).levels[pc.p].ring) && AreFresh(ring, own, pc.now, pc.ttl)
  {
    var pc := s.threads[t];
    came := StalePositions(s.levels[pc.p].ring, pc.now, pc.ttl);
    own := FreshPositions(s.levels[pc.p].ring, pc.now, pc.ttl);
  }

  // ----- one promotion on its own, on values

  /** A promotion to be made: the levels before it, what stays at each, what rises from each, and the levels after it. */
  datatype Plan = Plan(cap: nat, start: Levels, own: Levels, rise: Levels, up: Levels) {
    function Arriving(q: nat): seq<PendingEntry>
      requires q < MAX_PRIORITY
    {
      if q == 0 then own[q] else own[q] + rise[q - 1]
    }

    predicate Coherent() {
      forall q | 0 <= q < MAX_PRIORITY :: Fits(cap, own[q]) && up[q] == Kept(cap, Arriving(q))
    }

    /** What levels 9 down to q evict, in the order in which they do. */
    function Gone(q: nat): seq<PendingEntry>
      requires q <= MAX_PRIORITY
      decreases MAX_PRIORITY - q
    {
      if q == MAX_PRIORITY then [] else Gone(q + 1) + Dropped(cap, Arriving(q))
    }

    /**
     The rings while level p is being promoted: those above p + 1 are done, landed is what has come to level
     p + 1 so far, and left is what level p holds.
     */
    predicate Stage(p: nat, landed: seq<PendingEntry>, left: seq<PendingEntry>, rings: Levels, out: seq<PendingEntry>)
      requires p + 1 < MAX_PRIORITY
    {
      && (forall q | p + 1 < q < MAX_PRIORITY :: rings[q] == up[q])
      && rings[p + 1] == Kept(cap, landed) && rings[p] == left
      && (forall q | 0 <= q < p :: rings[q] == start[q])
      && out == Gone(p + 2) + Dropped(cap, landed)
    }

    /** The promotion has come to level p and has not taken anything from it. */
    predicate Arrived(p: nat, rings: Levels, out: seq<PendingEntry>) {
      p + 1 < MAX_PRIORITY && Stage(p, own[p + 1], start[p], rings, out)
    }

    /** What rises from level p has been taken, and the first k of it have been pushed. */
    predicate Pushed(p: nat, k: nat, rings: Levels, out: seq<PendingEntry>) {
      && p + 1 < MAX_PRIORITY && k <= |rise[p]|
      && Stage(p, own[p + 1] + rise[p][..k], own[p], rings, out)
    }

    predicate Finished(rings: Levels, out: seq<PendingEntry>) {
      rings == up && out == Gone(1)
    }

    /** Where the promotion stands when it turns to level p, or is through when there is none. */
    predicate Turns(p: int, rings: Levels, out: seq<PendingEntry>) {
      if p < 0 then Finished(rings, out) else Arrived(p, rings, out)
    }
  }

  /** What is kept and what is dropped of s are its two parts. */
  lemma TwoParts(cap: nat, s: seq<PendingEntry>) returns (d: nat)
    ensures d == (if cap == 0 || |s| <= cap then 0 else |s| - cap) && d <= |s|
    ensures Kept(cap, s) == s[d..] && Dropped(cap, s) == s[..d]
  {
    d := |s| - |Kept(cap, s)|;
  }

  /** One more push, trimmed before or only after it. */
  lemma PushesOn(cap: nat, s: seq<PendingEntry>, e: PendingEntry)
    ensures Kept(cap, Kept(cap, s) + [e]) == Kept(cap, s + [e])
    ensures Dropped(cap, s) + Dropped(cap, Kept(cap, s) + [e]) == Dropped(cap, s + [e])
  {
    var d := TwoParts(cap, s);
    assert s[d..] + [e] == (s + [e])[d..] && s[..d] == (s + [e])[..d];
    var d1 := TwoParts(cap, (s + [e])[d..]);
    var d2 := TwoParts(cap, s + [e]);
    CutTwice(s + [e], d, d1);
  }

  lemma CutTwice(s: seq<PendingEntry>, d: nat, d1: nat)
    requires d + d1 <= |s|
    ensures s[d..][d1..] == s[d + d1..] && s[..d] + s[d..][..d1] == s[..d + d1]
  {
  }

  /** Nothing is dropped from what fits. */
  lemma FitsWhole(cap: nat, s: seq<PendingEntry>)
    requires Fits(cap, s)
    ensures Kept(cap, s) == s && Dropped(cap, s) == []
  {
  }

  lemma ArrivesFirst(plan: Plan)
    requires plan.Coherent() && plan.own[9] == plan.start[9]
    ensures plan.Arrived(8, plan.start, [])
  {
    FitsWhole(plan.cap, plan.start[9]);
  }

  lemma Takes(plan: Plan, p: nat, rings: Levels, out: seq<PendingEntry>)
    requires plan.Coherent() && plan.Arrived(p, rings, out)
    ensures rings[p] == plan.start[p] && plan.Pushed(p, 0, rings[p := Kept(plan.cap, plan.own[p])], out)
  {
    FitsWhole(plan.cap, plan.own[p]);
    assert plan.own[p + 1] + plan.rise[p][..0] == plan.own[p + 1];
  }

  lemma StageMoves(plan: Plan, p: nat, landed: seq<PendingEntry>, left: seq<PendingEntry>, rings: Levels,
                   out: seq<PendingEntry>, next: seq<PendingEntry>, more: seq<PendingEntry>)
    requires p + 1 < MAX_PRIORITY && plan.Stage(p, landed, left, rings, out)
    requires Dropped(plan.cap, next) == Dropped(plan.cap, landed) + more
    ensures plan.Stage(p, next, left, rings[p + 1 := Kept(plan.cap, next)], out + more)
  {
    Regroup(plan.Gone(p + 2), Dropped(plan.cap, landed), more);
  }

  lemma Regroup(a: seq<PendingEntry>, b: seq<PendingEntry>, c: seq<PendingEntry>)
    ensures a + b + c == a + (b + c)
  {
  }

  lemma PrefixGrows(all: seq<PendingEntry>, k: nat)
    requires k < |all|
    ensures all[..k + 1] == all[..k] + [all[k]]
  {
  }

  lemma Pushes(plan: Plan, p: nat, k: nat, rings: Levels, out: seq<PendingEntry>)
    requires plan.Pushed(p, k, rings, out) && k < |plan.rise[p]|
    ensures var s := rings[p + 1] + [plan.rise[p][k]];
            plan.Pushed(p, k + 1, rings[p + 1 := Kept(plan.cap, s)], out + Dropped(plan.cap, s))
  {
    var rise, own := plan.rise[p], plan.own[p + 1];
    PrefixGrows(rise, k);
    Regroup(own, rise[..k], [rise[k]]);
    PushesOn(plan.cap, own + rise[..k], rise[k]);
    StageMoves(plan, p, own + rise[..k], plan.own[p], rings, out, own + rise[..k + 1],
               Dropped(plan.cap, rings[p + 1] + [rise[k]]));
  }

  /** With all of level p pushed, level p + 1 is done; the next level down begins, or there is none. */
  lemma Finishes(plan: Plan, p: nat, rings: Levels, out: seq<PendingEntry>)
    requires plan.Coherent() && p + 1 < MAX_PRIORITY && plan.Pushed(p, |plan.rise[p]|, rings, out)
    ensures plan.Turns(p - 1, rings, out)
  {
    var rise := plan.rise[p];
    assert rise[..|rise|] == rise;
    assert plan.Arriving(p + 1) == plan.own[p + 1] + rise;
    FitsWhole(plan.cap, plan.own[p]);
    if p == 0 {
      assert rings[0] == plan.up[0];
      assert rings == plan.up;
    }
  }

  // ----- the program counter of a promotion on its own

  /** The promotion of the given levels. */
  function PlanOf(start: Levels, cap: nat, now: int, ttl: int): (plan: Plan)
    ensures plan.start == start && plan.cap == cap && plan.up == Promoted(start, cap, now, ttl)
    ensures forall q | 0 <= q < MAX_PRIORITY :: plan.rise[q] == Stale(start[q], now, ttl)
    ensures forall q | 0 <= q < MAX_PRIORITY :: plan.own[q] == if q == 9 then start[q] else Fresh(start[q], now, ttl)
  {
    Plan(cap, start,
         seq(MAX_PRIORITY, q requires 0 <= q < MAX_PRIORITY => if q == 9 then start[q] else Fresh(start[q], now, ttl)),
         seq(MAX_PRIORITY, q requires 0 <= q < MAX_PRIORITY => Stale(start[q], now, ttl)),
         Promoted(start, cap, now, ttl))
  }

  lemma PlanIsCoherent(start: Levels, cap: nat, now: int, ttl: int)
    requires forall q | 0 <= q < MAX_PRIORITY :: Fits(cap, start[q])
    ensures PlanOf(start, cap, now, ttl).Coherent()
  {
    var plan := PlanOf(start, cap, now, ttl);
    forall q | 0 <= q < MAX_PRIORITY
      ensures Fits(cap, plan.own[q]) && plan.up[q] == Kept(cap, plan.Arriving(q))
    {
      assert plan.Arriving(q) == Arriving(start, now, ttl, q);
    }
  }

  /** What levels 9 down to 1 evict, in the order in which they do. */
  function AllEvicted(start: Levels, cap: nat, now: int, ttl: int): seq<PendingEntry> {
    var e := Evicted(start, cap, now, ttl);
    e[9] + e[8] + e[7] + e[6] + e[5] + e[4] + e[3] + e[2] + e[1]
  }

  lemma GoneIsEvicted(start: Levels, cap: nat, now: int, ttl: int, q: nat)
    requires q < MAX_PRIORITY
    ensures var plan := PlanOf(start, cap, now, ttl);
            plan.Gone(q) == plan.Gone(q + 1) + Evicted(start, cap, now, ttl)[q]
  {
    var plan := PlanOf(start, cap, now, ttl);
    assert plan.Arriving(q) == Arriving(start, now, ttl, q);
  }

  lemma NothingBefore(s: seq<PendingEntry>)
    ensures [] + s == s
  {
  }

  lemma AllGone(start: Levels, cap: nat, now: int, ttl: int)
    ensures PlanOf(start, cap, now, ttl).Gone(1) == AllEvicted(start, cap, now, ttl)
  {
    var plan, e := PlanOf(start, cap, now, ttl), Evicted(start, cap, now, ttl);
    GoneIsEvicted(start, cap, now, ttl, 9);
    GoneIsEvicted(start, cap, now, ttl, 8);
    GoneIsEvicted(start, cap, now, ttl, 7);
    GoneIsEvicted(start, cap, now, ttl, 6);
    GoneIsEvicted(start, cap, now, ttl, 5);
    GoneIsEvicted(start, cap, now, ttl, 4);
    GoneIsEvicted(start, cap, now, ttl, 3);
    GoneIsEvicted(start, cap, now, ttl, 2);
    GoneIsEvicted(start, cap, now, ttl, 1);
    NothingBefore(e[9]);
  }

  /** The stale entries of level p are in the thread's hands, all but the first k of them. */
  predicate Holding(plan: Plan, p: nat, rest: seq<PendingEntry>, rings: Levels, out: seq<PendingEntry>) {
    && p + 1 < MAX_PRIORITY && |rest| <= |plan.rise[p]|
    && rest == plan.rise[p][|plan.rise[p]| - |rest|..]
    && plan.Pushed(p, |plan.rise[p]| - |rest|, rings, out)
  }

  predicate Took(plan: Plan, p: nat, stale: seq<PendingEntry>, rings: Levels, out: seq<PendingEntry>) {
    p + 1 < MAX_PRIORITY && stale == plan.rise[p] && plan.Pushed(p, 0, rings, out)
  }

  /** Where a promotion that runs on its own stands at pc. */
  predicate Promoting(plan: Plan, now: int, ttl: int, pc: Pc, rings: Levels, out: seq<PendingEntry>) {
    match pc
    case PromLock(p, n, l) => n == now && l == ttl && plan.Arrived(p, rings, out)
    case PromTake(p, n, l) => n == now && l == ttl && plan.Arrived(p, rings, out)
    case PromCount(p, _, stale, n, l) => n == now && l == ttl && Took(plan, p, stale, rings, out)
    case PromUnlock(p, stale, n, l) => n == now && l == ttl && Took(plan, p, stale, rings, out)
    case PromRaise(p, stale, n, l) => n == now && l == ttl && Took(plan, p, stale, rings, out)
    case PromPush(p, rest, n, l) => n == now && l == ttl && Holding(plan, p, rest, rings, out)
    case PromDrop(p, rest, n, l) => n == now && l == ttl && Holding(plan, p, rest, rings, out)
    case PromRelease(p, n, l) =>
      n == now && l == ttl && p + 1 < MAX_PRIORITY && plan.Pushed(p, |plan.rise[p]|, rings, out)
    case Idle => plan.Finished(rings, out)
    case _ => false
  }

  lemma TurnsNext(plan: Plan, now: int, ttl: int, p: nat, rings: Levels, out: seq<PendingEntry>)
    requires plan.Coherent() && p + 1 < MAX_PRIORITY && plan.Pushed(p, |plan.rise[p]|, rings, out)
    ensures Promoting(plan, now, ttl, PromNext(p, now, ttl), rings, out)
  {
    Finishes(plan, p, rings, out);
  }

  lemma SuffixShrinks(all: seq<PendingEntry>, rest: seq<PendingEntry>, k: nat)
    requires k < |all| && rest == all[k..]
    ensures rest[0] == all[k] && rest[1..] == all[k + 1..]
  {
  }

  lemma PushesHeld(plan: Plan, p: nat, rest: seq<PendingEntry>, rings: Levels, out: seq<PendingEntry>)
    requires Holding(plan, p, rest, rings, out) && rest != []
    ensures var s := rings[p + 1] + [rest[0]];
            Holding(plan, p, rest[1..], rings[p + 1 := Kept(plan.cap, s)], out + Dropped(plan.cap, s))
  {
    var k := |plan.rise[p]| - |rest|;
    SuffixShrinks(plan.rise[p], rest, k);
    Pushes(plan, p, k, rings, out);
  }

  /** The plan says what is stale at each level. */
  predicate Aged(plan: Plan, now: int, ttl: int) {
    forall p | 0 <= p < 9 :: plan.rise[p] == Stale(plan.start[p], now, ttl) && plan.own[p] == Fresh(plan.start[p], now, ttl)
  }

  /** Where the promotion stands after a step with effect x on level l. */
  predicate Advances(plan: Plan, now: int, ttl: int, l: nat, x: Effect, rings: Levels, out: seq<PendingEntry>)
    requires l < MAX_PRIORITY
  {
    Promoting(plan, now, ttl, x.pc, rings[l := x.level.ring], out + x.evicted)
  }

  lemma TakeAdvances(plan: Plan, now: int, ttl: int, pc: Pc, lv: Level, t: nat, rings: Levels, out: seq<PendingEntry>)
    requires plan.Coherent() && Aged(plan, now, ttl) && WellFormed(pc) && Promoting(plan, now, ttl, pc, rings, out)
    requires pc.PromTake? && lv.ring == rings[Target(pc)]
    ensures Advances(plan, now, ttl, Target(pc), Act(pc, lv, t, plan.cap), rings, out)
  {
    Takes(plan, pc.p, rings, out);
    assert out + [] == out;
  }

  lemma PushAdvances(plan: Plan, now: int, ttl: int, p: nat, rest: seq<PendingEntry>, x: Effect, rings: Levels,
                     out: seq<PendingEntry>)
    requires Holding(plan, p, rest, rings, out) && rest != []
    requires x.level.ring == Kept(plan.cap, rings[p + 1] + [rest[0]])
    requires x.evicted == Dropped(plan.cap, rings[p + 1] + [rest[0]])
    requires x.pc == PromPush(p, rest[1..], now, ttl) || x.pc == PromDrop(p, rest[1..], now, ttl)
    ensures Advances(plan, now, ttl, p + 1, x, rings, out)
  {
    PushesHeld(plan, p, rest, rings, out);
  }

  lemma MoveAdvances(plan: Plan, now: int, ttl: int, pc: Pc, lv: Level, t: nat, rings: Levels, out: seq<PendingEntry>)
    requires plan.Coherent() && WellFormed(pc) && Promoting(plan, now, ttl, pc, rings, out)
    requires !pc.Idle? && !pc.PromTake? && !pc.PromPush? && lv.ring == rings[Target(pc)]
    ensures Advances(plan, now, ttl, Target(pc), Act(pc, lv, t, plan.cap), rings, out)
  {
    assert out + [] == out && rings[Target(pc) := lv.ring] == rings;
    if pc.PromRelease? || (pc.PromUnlock? && pc.stale == []) {
      TurnsNext(plan, now, ttl, pc.p, rings, out);
    } else if pc.PromRaise? {
      assert plan.rise[pc.p][0..] == plan.rise[pc.p];
    }
  }

  lemma PushActs(p: nat, rest: seq<PendingEntry>, now: int, ttl: int, lv: Level, t: nat, cap: nat, s: seq<PendingEntry>)
    requires rest != [] && s == lv.ring + [rest[0]]
    ensures Act(PromPush(p, rest, now, ttl), lv, t, cap)
         == Effect(if cap > 0 && |lv.ring| >= cap then PromDrop(p, rest[1..], now, ttl) else PromPush(p, rest[1..], now, ttl),
                   lv.(ring := Kept(cap, s)), 0, [], [], Dropped(cap, s))
  {
  }

  lemma ReleaseAdvances(plan: Plan, now: int, ttl: int, p: nat, x: Effect, rings: Levels, out: seq<PendingEntry>)
    requires Holding(plan, p, [], rings, out)
    requires x.level.ring == rings[p + 1] && x.evicted == [] && x.pc == PromRelease(p, now, ttl)
    ensures Advances(plan, now, ttl, p + 1, x, rings, out)
  {
    assert out + [] == out && rings[p + 1 := rings[p + 1]] == rings;
  }

  lemma PushStepAdvances(plan: Plan, now: int, ttl: int, p: nat, rest: seq<PendingEntry>, lv: Level, t: nat, x: Effect,
                         rings: Levels, out: seq<PendingEntry>)
    requires Holding(plan, p, rest, rings, out) && lv.ring == rings[p + 1]
    requires x == Act(PromPush(p, rest, now, ttl), lv, t, plan.cap)
    ensures Advances(plan, now, ttl, p + 1, x, rings, out)
  {
    if rest == [] {
      ReleaseAdvances(plan, now, ttl, p, x, rings, out);
    } else {
      PushActs(p, rest, now, ttl, lv, t, plan.cap, lv.ring + [rest[0]]);
      PushAdvances(plan, now, ttl, p, rest, x, rings, out);
    }
  }

  /** One step of a promotion on its own. */
  lemma StepAdvances(plan: Plan, now: int, ttl: int, pc: Pc, lv: Level, t: nat, rings: Levels, out: seq<PendingEntry>)
    requires plan.Coherent() && Aged(plan, now, ttl) && WellFormed(pc) && Promoting(plan, now, ttl, pc, rings, out)
    requires !pc.Idle? && lv.ring == rings[Target(pc)]
    ensures Advances(plan, now, ttl, Target(pc), Act(pc, lv, t, plan.cap), rings, out)
  {
    if pc.PromTake? {
      TakeAdvances(plan, now, ttl, pc, lv, t, rings, out);
    } else if pc.PromPush? {
      PushStepAdvances(plan, now, ttl, pc.p, pc.rest, lv, t, Act(pc, lv, t, plan.cap), rings, out);
    } else {
      MoveAdvances(plan, now, ttl, pc, lv, t, rings, out);
    }
  }
}
