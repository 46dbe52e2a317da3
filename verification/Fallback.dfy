/** The hysteresis by which the DQN balancer falls back to round robin and suppresses exploration. */
module Fallback {
  import opened Sums

  const ENTER_TICKS := 3
  const EXIT_TICKS := 10

  // ----- histories of ticks: true for a bad one

  /** The n ticks before end all came out as v. */
  ghost predicate RunOf(h: seq<bool>, end: int, n: nat, v: bool) {
    n <= end <= |h| && forall k | end - n <= k < end :: h[k] == v
  }

  /** No run of good ticks long enough to recover ends after e. */
  ghost predicate Unrecovered(h: seq<bool>, e: int) {
    forall f | e < f <= |h| :: !RunOf(h, f, EXIT_TICKS, false)
  }

  /** Some run of bad ticks long enough to fall back has not been recovered from. */
  ghost predicate FellBack(h: seq<bool>) {
    exists e :: RunOf(h, e, ENTER_TICKS, true) && Unrecovered(h, e)
  }

  /** A bad tick is among the last EXIT_TICKS. */
  ghost predicate RecentlyBad(h: seq<bool>) {
    exists k | 0 <= k < |h| && |h| - EXIT_TICKS <= k :: h[k]
  }

  /** How many ticks at the end of the history came out as v. */
  ghost function Trailing(h: seq<bool>, v: bool): (n: nat)
    ensures n <= |h|
  {
    if |h| == 0 || h[|h| - 1] != v then 0 else Trailing(h[..|h| - 1], v) + 1
  }

  lemma {:induction false} TrailingIsLongest(h: seq<bool>, v: bool, n: nat)
    ensures n <= Trailing(h, v) <==> RunOf(h, |h|, n, v)
  {
    if n > 0 && |h| > 0 {
      TrailingIsLongest(h[..|h| - 1], v, n - 1);
      assert RunOf(h, |h|, n, v) ==> h[|h| - 1] == v && RunOf(h[..|h| - 1], |h| - 1, n - 1, v);
    }
  }

  lemma TrailingExtends(h: seq<bool>, b: bool, v: bool)
    ensures Trailing(h + [b], v) == if b == v then Trailing(h, v) + 1 else 0
  {
    assert (h + [b])[..|h|] == h;
  }

  /** A run that ends within a history is the same run of any longer one. */
  lemma RunExtends(h: seq<bool>, b: bool, end: int, n: nat, v: bool)
    requires end <= |h|
    ensures RunOf(h + [b], end, n, v) <==> RunOf(h, end, n, v)
  {
    if RunOf(h + [b], end, n, v) {
      assert forall k | end - n <= k < end :: h[k] == (h + [b])[k];
    }
  }

  lemma UnrecoveredExtends(h: seq<bool>, b: bool, e: int)
    requires e <= |h|
    ensures Unrecovered(h + [b], e) <==> Unrecovered(h, e) && !(!b && Trailing(h + [b], false) >= EXIT_TICKS)
  {
    forall f | e < f <= |h|
      ensures RunOf(h + [b], f, EXIT_TICKS, false) <==> RunOf(h, f, EXIT_TICKS, false)
    {
      RunExtends(h, b, f, EXIT_TICKS, false);
    }
    TrailingIsLongest(h + [b], false, EXIT_TICKS);
    TrailingExtends(h, b, false);
  }

  /** What one more tick does to the fallback. */
  lemma FellBackExtends(h: seq<bool>, b: bool)
    ensures FellBack(h + [b])
       <==> if b then FellBack(h) || Trailing(h + [b], true) >= ENTER_TICKS
            else FellBack(h) && Trailing(h + [b], false) < EXIT_TICKS
  {
    var h' := h + [b];
    TrailingIsLongest(h', true, ENTER_TICKS);
    TrailingExtends(h, b, true);
    forall e | e <= |h|
      ensures RunOf(h', e, ENTER_TICKS, true) && Unrecovered(h', e)
         <==> RunOf(h, e, ENTER_TICKS, true) && Unrecovered(h, e)
              && !(!b && Trailing(h', false) >= EXIT_TICKS)
    {
      RunExtends(h, b, e, ENTER_TICKS, true);
      UnrecoveredExtends(h, b, e);
    }
    if FellBack(h) && !(!b && Trailing(h', false) >= EXIT_TICKS) {
      var e :| RunOf(h, e, ENTER_TICKS, true) && Unrecovered(h, e);
      assert RunOf(h', e, ENTER_TICKS, true) && Unrecovered(h', e);
    }
    if Trailing(h', true) >= ENTER_TICKS {
      assert RunOf(h', |h'|, ENTER_TICKS, true) && Unrecovered(h', |h'|);
    }
    if FellBack(h') {
      var e :| RunOf(h', e, ENTER_TICKS, true) && Unrecovered(h', e);
    }
  }

  /** What one more tick does to the suppression of exploration. */
  lemma RecentlyBadExtends(h: seq<bool>, b: bool)
    ensures RecentlyBad(h + [b]) <==> b || (RecentlyBad(h) && Trailing(h + [b], false) < EXIT_TICKS)
  {
    var h' := h + [b];
    TrailingIsLongest(h', false, EXIT_TICKS);
    if b {
      assert h'[|h|];
    } else {
      if RecentlyBad(h') {
        var k :| 0 <= k < |h'| && |h'| - EXIT_TICKS <= k && h'[k];
        assert h[k];
      }
      if RecentlyBad(h) && Trailing(h', false) < EXIT_TICKS {
        var k :| 0 <= k < |h| && |h| - EXIT_TICKS <= k && h[k];
        assert h'[k];
        assert !RunOf(h', |h'|, EXIT_TICKS, false);
      }
    }
  }

  /** While the balancer has fallen back, exploration is suppressed. */
  lemma FallbackSuppresses(h: seq<bool>)
    requires FellBack(h)
    ensures RecentlyBad(h)
  {
    var e :| RunOf(h, e, ENTER_TICKS, true) && Unrecovered(h, e);
    assert h[e - 1];
    if e - 1 < |h| - EXIT_TICKS {
      assert !RunOf(h, |h|, EXIT_TICKS, false);
    }
  }

  // ----- the tick machine

  /** The mean load is over a threshold that is switched on. */
  predicate Overloaded(threshold: real, loads: seq<real>) {
    threshold > 0.0 && |loads| > 0 && Mean(loads) > threshold
  }

  class Watchdog {
    var baseThroughput: int
    const fallbackRatio: real
    const loadThreshold: real
    var consecutiveFallbackTicks: nat
    var consecutiveRecoveryTicks: nat
    var fallbackActive: bool
    var epsilonSuppressed: bool
    /** Whether each tick so far was bad. */
    ghost var history: seq<bool>

    ghost predicate Valid()
      reads this
    {
      && consecutiveFallbackTicks == Trailing(history, true)
      && consecutiveRecoveryTicks == Trailing(history, false)
      && (fallbackActive <==> FellBack(history))
      && (epsilonSuppressed <==> RecentlyBad(history))
    }

    constructor (baseThroughput: int, fallbackRatio: real, loadThreshold: real)
      ensures Valid() && history == [] && !fallbackActive && !epsilonSuppressed
      ensures this.baseThroughput == baseThroughput && this.fallbackRatio == fallbackRatio
      ensures this.loadThreshold == loadThreshold
    {
      this.baseThroughput := baseThroughput;
      this.fallbackRatio := fallbackRatio;
      this.loadThreshold := loadThreshold;
      consecutiveFallbackTicks, consecutiveRecoveryTicks := 0, 0;
      fallbackActive, epsilonSuppressed := false, false;
      history := [];
    }

    /** Throughput has dropped below its share of the base, or the load is over the threshold. */
    predicate IsBad(throughput: real, loads: seq<real>)
      reads this
    {
      || (baseThroughput > 0 && throughput < fallbackRatio * baseThroughput as real)
      || Overloaded(loadThreshold, loads)
    }

    method ShouldFallback(throughput: real, loads: seq<real>) returns (bad: bool)
      ensures bad <==> IsBad(throughput, loads)
      ensures bad <==> || (baseThroughput > 0 && throughput < fallbackRatio * baseThroughput as real)
                       || (loadThreshold > 0.0 && |loads| > 0 && Mean(loads) > loadThreshold)
    {
      bad := false;
      var baseTP := baseThroughput as real;
      if baseTP > 0.0 && throughput < fallbackRatio * baseTP {
        bad := true;
      }
      if loadThreshold > 0.0 && |loads| > 0 {
        var meanLoad := 0.0;
        var i := 0;
        while i < |loads|
          invariant 0 <= i <= |loads| && meanLoad == Sum(i, Entries(loads))
        {
          assert Entries(loads)(i) == loads[i];
          meanLoad := meanLoad + loads[i];
          i := i + 1;
        }
        meanLoad := meanLoad / |loads| as real;
        if meanLoad > loadThreshold {
          bad := true;
        }
      }
    }

    /** Counts one tick; it only changes what the run of ticks before it decides. */
    method Tick(bad: bool)
      requires Valid()
      modifies `consecutiveFallbackTicks, `consecutiveRecoveryTicks, `fallbackActive, `epsilonSuppressed, `history
      ensures Valid() && history == old(history) + [bad]
    {
      Extends(history, bad);
      if bad {
        consecutiveRecoveryTicks := 0;
        consecutiveFallbackTicks := consecutiveFallbackTicks + 1;
        epsilonSuppressed := true;
        if consecutiveFallbackTicks >= ENTER_TICKS {
          fallbackActive := true;
        }
      } else {
        consecutiveFallbackTicks := 0;
        consecutiveRecoveryTicks := consecutiveRecoveryTicks + 1;
        if consecutiveRecoveryTicks >= EXIT_TICKS {
          fallbackActive := false;
          epsilonSuppressed := false;
        }
      }
      history := history + [bad];
    }

    /** Three bad ticks in a row enter the fallback, ten good ones leave it, whatever came before. */
    method OnMetrics(throughput: real, loads: seq<real>)
      requires Valid()
      modifies `consecutiveFallbackTicks, `consecutiveRecoveryTicks, `fallbackActive, `epsilonSuppressed, `history
      ensures Valid() && history == old(history) + [IsBad(throughput, loads)]
      ensures history[|history| - 1]
         <==> || (baseThroughput > 0 && throughput < fallbackRatio * baseThroughput as real)
              || (loadThreshold > 0.0 && |loads| > 0 && Mean(loads) > loadThreshold)
      ensures fallbackActive
         <==> exists e :: RunOf(history, e, 3, true) && forall f | e < f <= |history| :: !RunOf(history, f, 10, false)
      ensures epsilonSuppressed <==> exists k | 0 <= k < |history| && |history| - 10 <= k :: history[k]
      ensures fallbackActive ==> epsilonSuppressed
    {
      var bad := ShouldFallback(throughput, loads);
      Tick(bad);
      InTicks(history);
      if fallbackActive {
        FallbackSuppresses(history);
      }
    }
  }

  /** The fallback and the suppression in numbers of ticks. */
  lemma InTicks(h: seq<bool>)
    ensures FellBack(h) <==> exists e :: RunOf(h, e, 3, true) && forall f | e < f <= |h| :: !RunOf(h, f, 10, false)
    ensures RecentlyBad(h) <==> exists k | 0 <= k < |h| && |h| - 10 <= k :: h[k]
  {
    if FellBack(h) {
      var e :| RunOf(h, e, ENTER_TICKS, true) && Unrecovered(h, e);
      assert forall f | e < f <= |h| :: !RunOf(h, f, 10, false);
    }
    if exists e :: RunOf(h, e, 3, true) && forall f | e < f <= |h| :: !RunOf(h, f, 10, false) {
      var e :| RunOf(h, e, 3, true) && forall f | e < f <= |h| :: !RunOf(h, f, 10, false);
      assert Unrecovered(h, e);
    }
  }

  lemma Extends(h: seq<bool>, b: bool)
    ensures Trailing(h + [b], true) == if b then Trailing(h, true) + 1 else 0
    ensures Trailing(h + [b], false) == if b then 0 else Trailing(h, false) + 1
    ensures FellBack(h + [b])
       <==> if b then FellBack(h) || Trailing(h + [b], true) >= ENTER_TICKS
            else FellBack(h) && Trailing(h + [b], false) < EXIT_TICKS
    ensures RecentlyBad(h + [b]) <==> b || (RecentlyBad(h) && Trailing(h + [b], false) < EXIT_TICKS)
  {
    TrailingExtends(h, b, true);
    TrailingExtends(h, b, false);
    FellBackExtends(h, b);
    RecentlyBadExtends(h, b);
  }
}
