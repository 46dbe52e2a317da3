/** Once no new call starts, every call in progress finishes, whatever the scheduler does. */
module PriorityIndexTermination {
  import opened Wrappers
  import opened EntryRing
  import opened PriorityIndexSteps
  import opened PriorityIndexSafety
  import opened PriorityIndexTheorems

  // ----- the entries that can still be moved

  function Adding(pc: Pc): nat {
    if pc.AddLock? || pc.AddPush? then 1 else 0
  }

  function Adds(threads: seq<Pc>): nat {
    if threads == [] then 0 else Adds(threads[..|threads| - 1]) + Adding(threads[|threads| - 1])
  }

  lemma {:induction false} AddsUpdate(threads: seq<Pc>, t: nat, pc: Pc)
    requires t < |threads|
    ensures Adds(threads[t := pc]) == Adds(threads) - Adding(threads[t]) + Adding(pc)
  {
    var n := |threads| - 1;
    if t < n {
      AddsUpdate(threads[..n], t, pc);
      assert threads[t := pc][..n] == threads[..n][t := pc];
    } else {
      assert threads[t := pc][..n] == threads[..n];
    }
  }

  /** Every entry stored, in a thread's hands or about to be added. */
  function Entries(s: State): nat {
    Stored(s, None) + InHands(s.threads, None) + Adds(s.threads)
  }

  lemma ActAddsOnce(pc: Pc, lv: Level, t: nat, cap: nat)
    ensures |Act(pc, lv, t, cap).added| + Adding(Act(pc, lv, t, cap).pc) <= Adding(pc)
  {
  }

  /** A step brings no new entry into play. */
  lemma EntriesDescend(s: State, t: nat)
    requires Inv(s) && Enabled(s, t)
    ensures Entries(Step(s, t)) <= Entries(s)
  {
    var pc, l, x := s.threads[t], Target(s.threads[t]), EffectOf(s, t);
    ActBalances(pc, s.levels[l], t, s.cap, None);
    ActAddsOnce(pc, s.levels[l], t, s.cap);
    StoredUpdate(s, l, x.level, None);
    InHandsUpdate(s.threads, t, x.pc, None);
    AddsUpdate(s.threads, t, x.pc);
  }

  // ----- the work left

  /** An upper bound on the steps left in a call, when it takes fewer than unit steps at any one level. */
  function Work(pc: Pc, unit: nat): nat {
    (if WellFormed(pc) then Major(pc) * unit else 0) + Minor(pc)
  }

  lemma Lexically(major: nat, minor: nat, major': nat, minor': nat, unit: nat)
    requires (major' < major || (major' == major && minor' < minor)) && minor' < unit
    ensures major' * unit + minor' < major * unit + minor
  {
    if major' < major {
      assert major * unit == major' * unit + unit + (major - major' - 1) * unit;
    }
  }

  lemma WorkDescends(pc: Pc, pc': Pc, unit: nat)
    requires Descends(pc, pc') && Minor(pc') < unit
    ensures Work(pc', unit) < Work(pc, unit)
  {
    Lexically(Major(pc), Minor(pc), Major(pc'), Minor(pc'), unit);
  }

  function WorkLeft(threads: seq<Pc>, unit: nat): nat {
    if threads == [] then 0 else WorkLeft(threads[..|threads| - 1], unit) + Work(threads[|threads| - 1], unit)
  }

  lemma {:induction false} WorkLeftUpdate(threads: seq<Pc>, t: nat, pc: Pc, unit: nat)
    requires t < |threads|
    ensures WorkLeft(threads[t := pc], unit) == WorkLeft(threads, unit) - Work(threads[t], unit) + Work(pc, unit)
  {
    var n := |threads| - 1;
    if t < n {
      WorkLeftUpdate(threads[..n], t, pc, unit);
      assert threads[t := pc][..n] == threads[..n][t := pc];
    } else {
      assert threads[t := pc][..n] == threads[..n];
    }
  }

  lemma {:induction false} HandsAreCounted(threads: seq<Pc>, t: nat)
    requires t < |threads|
    ensures |Hands(threads[t])| <= InHands(threads, None)
  {
    var n := |threads| - 1;
    if t < n {
      HandsAreCounted(threads[..n], t);
    }
  }

  lemma MinorIsBounded(pc: Pc)
    ensures Minor(pc) <= 2 * |Hands(pc)| + 3
  {
  }

  /** Every step, of whichever thread, leaves less work. */
  lemma WorkLeftDescends(s: State, t: nat, unit: nat)
    requires Inv(s) && Enabled(s, t) && 2 * Entries(s) + 4 <= unit
    ensures WorkLeft(Step(s, t).threads, unit) < WorkLeft(s.threads, unit)
  {
    StepsDescend(s, t);
    EntriesDescend(s, t);
    var s' := Step(s, t);
    var pc' := s'.threads[t];
    MinorIsBounded(pc');
    HandsAreCounted(s'.threads, t);
    WorkDescends(s.threads[t], pc', unit);
    assert s'.threads == s.threads[t := pc'];
    WorkLeftUpdate(s.threads, t, pc', unit);
  }

  lemma MoveShrinks(run: seq<State>, moves: seq<Move>, cap: nat, n: nat, i: nat)
    requires IsRun(run, moves, cap, n) && i < |moves| && moves[i].Moves?
    ensures Entries(run[i + 1]) <= Entries(run[i])
  {
    RunKeepsInv(run, moves, cap, n, i);
    EntriesDescend(run[i], moves[i].t);
  }

  lemma {:induction false} EntriesRunDown(run: seq<State>, moves: seq<Move>, cap: nat, n: nat, k: nat, i: nat)
    requires IsRun(run, moves, cap, n) && k <= i <= |moves|
    requires forall j | k <= j < i :: moves[j].Moves?
    ensures Entries(run[i]) <= Entries(run[k])
  {
    if k < i {
      EntriesRunDown(run, moves, cap, n, k, i - 1);
      MoveShrinks(run, moves, cap, n, i - 1);
    }
  }

  lemma MoveWorks(run: seq<State>, moves: seq<Move>, cap: nat, n: nat, i: nat, unit: nat)
    requires IsRun(run, moves, cap, n) && i < |moves| && moves[i].Moves? && 2 * Entries(run[i]) + 4 <= unit
    ensures WorkLeft(run[i + 1].threads, unit) < WorkLeft(run[i].threads, unit)
  {
    RunKeepsInv(run, moves, cap, n, i);
    WorkLeftDescends(run[i], moves[i].t, unit);
  }

  /** w goes down at every index from k to i. */
  lemma {:induction false} Countdown(w: seq<nat>, k: nat, i: nat)
    requires k <= i < |w| && forall j | k < j <= i :: w[j] < w[j - 1]
    ensures w[i] + (i - k) <= w[k]
  {
    if k < i {
      Countdown(w, k, i - 1);
    }
  }

  function Works(run: seq<State>, unit: nat): seq<nat> {
    seq(|run|, j requires 0 <= j < |run| => WorkLeft(run[j].threads, unit))
  }

  lemma WorkFalls(run: seq<State>, moves: seq<Move>, cap: nat, n: nat, k: nat, unit: nat, j: nat)
    requires IsRun(run, moves, cap, n) && k <= j < |moves| && 2 * Entries(run[k]) + 4 <= unit
    requires forall j | k <= j < |moves| :: moves[j].Moves?
    ensures WorkLeft(run[j + 1].threads, unit) < WorkLeft(run[j].threads, unit)
  {
    EntriesRunDown(run, moves, cap, n, k, j);
    MoveWorks(run, moves, cap, n, j, unit);
  }

  lemma WorkRunsOut(run: seq<State>, moves: seq<Move>, cap: nat, n: nat, k: nat, unit: nat)
    requires IsRun(run, moves, cap, n) && k <= |moves| && 2 * Entries(run[k]) + 4 <= unit
    requires forall j | k <= j < |moves| :: moves[j].Moves?
    ensures |moves| - k <= WorkLeft(run[k].threads, unit)
  {
    var work := Works(run, unit);
    forall j | k < j <= |moves|
      ensures work[j] < work[j - 1]
    {
      WorkFalls(run, moves, cap, n, k, unit, j - 1);
      assert work[j] == WorkLeft(run[j].threads, unit);
    }
    Countdown(work, k, |moves|);
  }

  /**
   From any reachable state, and under any schedule, the calls in progress take no more than the work
   left there between them; and when none of them can take another step, all of them have returned.
   */
  lemma CallsFinish(run: seq<State>, moves: seq<Move>, cap: nat, n: nat, k: nat)
    requires IsRun(run, moves, cap, n) && k <= |moves|
    requires forall j | k <= j < |moves| :: moves[j].Moves?
    ensures |moves| - k <= WorkLeft(run[k].threads, 2 * Entries(run[k]) + 4)
    ensures var s := run[|moves|];
            (forall u :: !Enabled(s, u)) <==> forall t | 0 <= t < |s.threads| :: s.threads[t].Idle?
  {
    WorkRunsOut(run, moves, cap, n, k, 2 * Entries(run[k]) + 4);
    var s := run[|moves|];
    RunKeepsInv(run, moves, cap, n, |moves|);
    forall t | 0 <= t < |s.threads| && !s.threads[t].Idle?
      ensures exists u :: Enabled(s, u)
    {
      var u := FindEnabled(s, t);
    }
  }
}
