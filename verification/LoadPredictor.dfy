/** The AR(p) load predictor: in-place coefficient estimation, forecasting and its sample window. */
module LoadPredictor {
  import opened Sums
  import opened LevinsonDurbin

  function Centred(vals: seq<real>, mean: real): seq<real> {
    seq(|vals|, i requires 0 <= i < |vals| => vals[i] - mean)
  }

  function Autocorrelations(c: seq<real>, p: nat): seq<real>
    requires |c| > 0
  {
    seq(p + 1, lag => Dot(|c|, Entries(c), Delay(c, lag)) / |c| as real)
  }

  lemma AutocorrelationsAre(c: seq<real>, p: nat)
    requires |c| > 0
    ensures IsAutocorrelation(c, Autocorrelations(c, p))
  {
    var r := Autocorrelations(c, p);
    forall lag | 0 <= lag < |r|
      ensures Dot(|c|, Entries(c), Delay(c, lag)) == |c| as real * r[lag]
    {
      Quotient(Dot(|c|, Entries(c), Delay(c, lag)), |c| as real);
    }
  }

  /** Terms before the lag see only padding. */
  lemma NothingBeforeLag(c: seq<real>, lag: nat, n: nat)
    requires n <= lag
    ensures Dot(n, Entries(c), Delay(c, lag)) == 0.0
  {
    forall t | 0 <= t < n
      ensures Delay(c, lag)(t) == 0.0
    {
      assert Delay(c, lag)(t) == At(c, t - lag);
    }
    DotZero(n, Entries(c), Delay(c, lag));
  }

  /** The inner loop of the autocorrelation: it starts at the lag, where the padded sum is still zero. */
  method LagSum(vals: seq<real>, mean: real, lag: nat) returns (sum: real)
    ensures sum == Dot(|vals|, Entries(Centred(vals, mean)), Delay(Centred(vals, mean), lag))
  {
    ghost var c := Centred(vals, mean);
    var i := lag;
    sum := 0.0;
    NothingBeforeLag(c, lag, if lag < |vals| then lag else |vals|);
    while i < |vals|
      invariant lag <= i && (lag < |vals| ==> i <= |vals|)
      invariant sum == Dot(if i < |vals| then i else |vals|, Entries(c), Delay(c, lag))
    {
      DotSucc(i, Entries(c), Delay(c, lag));
      assert Entries(c)(i) == At(c, i) && Delay(c, lag)(i) == At(c, i - lag);
      sum := sum + (vals[i] - mean) * (vals[i - lag] - mean);
      i := i + 1;
    }
  }

  /**
   What the estimator returns: coefficients that solve the Yule-Walker system of the sample's
   autocorrelations, predict best among all of their order, and stop short of order p only when
   the remaining error is negligible.
   */
  ghost predicate Estimates(c: seq<real>, p: nat, a: seq<real>)
    requires |c| > 0
  {
    && 1 <= |a| <= p
    && SolvesYuleWalker(Autocorrelations(c, p), a)
    && (|a| == p || MeanSquaredError(c, a) < EPSILON)
    && -1.0 <= a[|a| - 1] <= 1.0
    && PredictsBest(c, a)
  }

  /** No coefficients of the same order leave a smaller mean squared error. */
  ghost predicate PredictsBest(c: seq<real>, a: seq<real>)
    requires |c| > 0
  {
    forall b: seq<real> | |b| == |a| :: MeanSquaredError(c, a) <= MeanSquaredError(c, b)
  }

  function Last(stages: seq<Stage>): Stage
    requires |stages| > 0
  {
    stages[|stages| - 1]
  }

  lemma LastStageEstimates(c: seq<real>, p: nat, stages: seq<Stage>)
    requires |c| > 0 && IsRun(Autocorrelations(c, p), stages) && |stages| <= p
    requires |stages| == p || Last(stages).e < EPSILON
    ensures Estimates(c, p, Last(stages).a)
  {
    var r, i := Autocorrelations(c, p), |stages| - 1;
    AutocorrelationsAre(c, p);
    ErrorAlongRun(c, r, stages, i);
    RunIsSound(r, stages, i);
    forall b: seq<real> | |b| == i + 1
      ensures MeanSquaredError(c, stages[i].a) <= MeanSquaredError(c, b)
    {
      SolutionIsOptimal(c, r, stages[i], b);
    }
  }

  /** The stages of a recursion up to order p that has run to its end. */
  predicate Complete(r: seq<real>, p: nat, stages: seq<Stage>) {
    IsRun(r, stages) && |stages| <= p && (|stages| == p || Last(stages).e < EPSILON)
  }

  /** a is what the recursion ends with. */
  ghost predicate Computed(c: seq<real>, p: nat, a: seq<real>)
    requires |c| > 0
  {
    exists stages :: Complete(Autocorrelations(c, p), p, stages) && Last(stages).a == a
  }

  lemma {:induction false} RunsAgree(r: seq<real>, run: seq<Stage>, other: seq<Stage>, i: nat)
    requires IsRun(r, run) && IsRun(r, other) && i < |run| && i < |other|
    ensures run[i] == other[i]
  {
    if i > 0 {
      RunsAgree(r, run, other, i - 1);
      assert Follows(r, run, i) && Follows(r, other, i);
    }
  }

  lemma CompleteIsLonger(r: seq<real>, p: nat, run: seq<Stage>, other: seq<Stage>)
    requires Complete(r, p, run) && IsRun(r, other) && |other| <= p
    ensures |other| <= |run|
  {
    var n := |run|;
    assert n < |other| ==> Follows(r, other, n);
    if n < |other| {
      RunsAgree(r, run, other, n - 1);
    }
  }

  /** The recursion has one outcome. */
  lemma ComputedIsUnique(c: seq<real>, p: nat, a: seq<real>, b: seq<real>)
    requires |c| > 0 && Computed(c, p, a) && Computed(c, p, b)
    ensures a == b
  {
    var r := Autocorrelations(c, p);
    var run :| Complete(r, p, run) && Last(run).a == a;
    var other :| Complete(r, p, other) && Last(other).a == b;
    CompleteIsLonger(r, p, run, other);
    CompleteIsLonger(r, p, other, run);
    RunsAgree(r, run, other, |run| - 1);
  }

  // ----- forecasting

  /** The integer square root. */
  function Root(n: nat): (p: nat)
    ensures p * p <= n < (p + 1) * (p + 1)
    ensures n > 0 ==> p > 0
  {
    RootFrom(n, 0)
  }

  function RootFrom(n: nat, p: nat): (q: nat)
    requires p * p <= n
    ensures q * q <= n < (q + 1) * (q + 1)
    decreases n - p * p
  {
    if n < (p + 1) * (p + 1) then p else RootFrom(n, p + 1)
  }

  /** The model order for n samples. */
  function Order(n: nat, window: int): (p: nat)
    ensures n > 0 ==> 1 <= p
    ensures n > 1 ==> 2 * p <= n
  {
    var cap := if window / 4 < 1 then 1 else window / 4;
    RootIsSmall(n);
    if Root(n) > cap then cap else Root(n)
  }

  /** The order is the largest p with p * p <= n that is at most a quarter of the window, and at least 1. */
  lemma OrderIsLargest(n: nat, window: int)
    requires n > 0
    ensures var p := Order(n, window);
            && p * p <= n && (p == 1 || 4 * p <= window)
            && forall q: nat | q * q <= n && 4 * q <= window :: q <= p
  {
    var p, root := Order(n, window), Root(n);
    SquaresGrow(p, root);
    forall q: nat | q * q <= n && 4 * q <= window
      ensures q <= p
    {
      if q > root {
        SquaresGrow(root + 1, q);
      }
    }
  }

  lemma SquaresGrow(p: nat, q: nat)
    requires p <= q
    ensures p * p <= q * q
  {
  }

  lemma RootIsSmall(n: nat)
    ensures Root(n) <= n
    ensures n >= 2 ==> 2 * Root(n) <= n
  {
    var p := Root(n);
    if p >= 2 {
      assert p * p >= 2 * p;
    }
  }

  function Clamp(x: real): (y: real)
    ensures 0.0 <= y <= 1.0
    ensures 0.0 <= x <= 1.0 ==> y == x
    ensures x <= 0.0 ==> y == 0.0
    ensures x >= 1.0 ==> y == 1.0
  {
    if x < 0.0 then 0.0 else if x > 1.0 then 1.0 else x
  }

  /** s goes on from c without any prediction error under the coefficients a. */
  ghost predicate Continues(a: seq<real>, c: seq<real>, s: seq<real>) {
    && |c| <= |s| && s[..|c|] == c
    && forall t | |c| <= t < |s| :: PredictionError(s, a)(t) == 0.0
  }

  /** The prediction error at t depends on nothing after t. */
  lemma ErrorIsCausal(a: seq<real>, s: seq<real>, more: seq<real>, t: nat)
    requires t < |s| && s <= more
    ensures PredictionError(more, a)(t) == PredictionError(s, a)(t)
  {
    forall j | 0 <= j < |a|
      ensures Past(more, t)(j) == Past(s, t)(j)
    {
      assert Past(more, t)(j) == At(more, t - 1 - j) && Past(s, t)(j) == At(s, t - 1 - j);
    }
    DotCongruence(|a|, Entries(a), Past(more, t), Entries(a), Past(s, t));
  }

  /** The forecast from everything so far is the value that leaves no error. */
  lemma ContinuesOn(a: seq<real>, c: seq<real>, s: seq<real>, x: real)
    requires Continues(a, c, s) && x == Dot(|a|, Entries(a), Past(s, |s|))
    ensures Continues(a, c, s + [x])
  {
    var more := s + [x];
    forall t | |c| <= t < |more|
      ensures PredictionError(more, a)(t) == 0.0
    {
      if t < |s| {
        ErrorIsCausal(a, s, more, t);
      } else {
        forall j | 0 <= j < |a|
          ensures Past(more, t)(j) == Past(s, t)(j)
        {
          assert Past(more, t)(j) == At(more, t - 1 - j) && Past(s, t)(j) == At(s, t - 1 - j);
        }
        DotCongruence(|a|, Entries(a), Past(more, t), Entries(a), Past(s, t));
      }
    }
  }

  /** There is one way to go on without error. */
  lemma {:induction false} ContinuesAlike(a: seq<real>, c: seq<real>, s: seq<real>, other: seq<real>, n: nat)
    requires Continues(a, c, s) && Continues(a, c, other) && |c| <= n <= |s| && n <= |other|
    ensures s[..n] == other[..n]
  {
    if n == |c| {
      return;
    }
    var t := n - 1;
    ContinuesAlike(a, c, s, other, t);
    forall j | 0 <= j < |a|
      ensures Past(s, t)(j) == Past(other, t)(j)
    {
      var i := t - 1 - j;
      assert Past(s, t)(j) == At(s, i) && Past(other, t)(j) == At(other, i);
      assert i >= 0 ==> s[i] == s[..t][i] && other[i] == other[..t][i];
    }
    DotCongruence(|a|, Entries(a), Past(s, t), Entries(a), Past(other, t));
    assert PredictionError(s, a)(t) == 0.0 && PredictionError(other, a)(t) == 0.0;
    assert s[t] == other[t];
    assert s[..n] == s[..t] + [s[t]] && other[..n] == other[..t] + [other[t]];
  }

  /** The mean alone is forecast for a single sample and for a sample without variance. */
  predicate UsesMean(vals: seq<real>, window: int)
    requires |vals| > 0
  {
    || |vals| == 1
    || Autocorrelations(Centred(vals, Mean(vals)), Order(|vals|, window))[0] < EPSILON
  }

  ghost predicate IsForecast(vals: seq<real>, window: int, out: seq<real>) {
    if |vals| == 0 then
      forall k | 0 <= k < |out| :: out[k] == 0.0
    else if UsesMean(vals, window) then
      forall k | 0 <= k < |out| :: out[k] == Mean(vals)
    else
      var c, p := Centred(vals, Mean(vals)), Order(|vals|, window);
      exists a, s :: Rolls(c, p, a, s, Mean(vals), out) && Estimates(c, p, a)
  }

  /** The sample c, continued to s by the estimated coefficients a without prediction error, gives the forecast. */
  ghost predicate Rolls(c: seq<real>, p: nat, a: seq<real>, s: seq<real>, mean: real, out: seq<real>) {
    && |c| > 0 && |s| == |c| + |out| && s[..|c|] == c
    && Computed(c, p, a)
    && (forall t | |c| <= t < |s| :: PredictionError(s, a)(t) == 0.0)
    && forall k | 0 <= k < |out| :: out[k] == Clamp(s[|c| + k] + mean)
  }

  /** What is forecast for a sample c of more than one value. */
  ghost predicate Samples(c: seq<real>, p: nat, mean: real, out: seq<real>) {
    && |c| > 0
    && if Autocorrelations(c, p)[0] < EPSILON then forall k | 0 <= k < |out| :: out[k] == mean
       else exists a, s :: Rolls(c, p, a, s, mean, out)
  }

  lemma RollsOut(c: seq<real>, p: nat, a: seq<real>, s: seq<real>, mean: real, out: seq<real>)
    requires |c| > 0 && |s| == |c| + |out| && s[..|c|] == c
    requires forall t | |c| <= t < |s| :: PredictionError(s, a)(t) == 0.0
    requires forall k | 0 <= k < |out| :: out[k] == Clamp(s[|c| + k] + mean)
    requires Autocorrelations(c, p)[0] >= EPSILON && Computed(c, p, a)
    ensures Samples(c, p, mean, out)
  {
    assert Rolls(c, p, a, s, mean, out);
  }

  /** What the recursion ends with is what the estimator promises. */
  lemma ComputedEstimates(c: seq<real>, p: nat, a: seq<real>)
    requires |c| > 0 && Computed(c, p, a)
    ensures Estimates(c, p, a)
  {
    var stages :| Complete(Autocorrelations(c, p), p, stages) && Last(stages).a == a;
    LastStageEstimates(c, p, stages);
  }

  lemma SamplesAreForecasts(vals: seq<real>, window: int, out: seq<real>)
    requires |vals| > 1 && Samples(Centred(vals, Mean(vals)), Order(|vals|, window), Mean(vals), out)
    ensures IsForecast(vals, window, out)
  {
    var c, p := Centred(vals, Mean(vals)), Order(|vals|, window);
    if !UsesMean(vals, window) {
      var a, s :| Rolls(c, p, a, s, Mean(vals), out);
      ComputedEstimates(c, p, a);
    }
  }

  lemma RollsAlike(c: seq<real>, p: nat, a: seq<real>, s: seq<real>, b: seq<real>, r: seq<real>, mean: real,
                   out: seq<real>, other: seq<real>, k: nat)
    requires Rolls(c, p, a, s, mean, out) && Rolls(c, p, b, r, mean, other) && k < |out| && k < |other|
    ensures out[k] == other[k]
  {
    ComputedIsUnique(c, p, a, b);
    var n := |c| + k + 1;
    ContinuesAlike(a, c, s, r, n);
    assert s[..n][n - 1] == r[..n][n - 1];
  }

  /** A longer horizon only adds to a forecast: the same sample is forecast alike step by step. */
  lemma ForecastsAgree(vals: seq<real>, window: int, out: seq<real>, other: seq<real>, k: nat)
    requires IsForecast(vals, window, out) && IsForecast(vals, window, other) && k < |out| && k < |other|
    ensures out[k] == other[k]
  {
    if |vals| > 0 && !UsesMean(vals, window) {
      var c, p, mean := Centred(vals, Mean(vals)), Order(|vals|, window), Mean(vals);
      var a, s :| Rolls(c, p, a, s, mean, out);
      var b, r :| Rolls(c, p, b, r, mean, other);
      RollsAlike(c, p, a, s, b, r, mean, out, other, k);
    }
  }

  lemma RollsFrom(vals: seq<real>, p: nat, a: seq<real>, s: seq<real>, mean: real, out: seq<real>)
    requires Rolls(Centred(vals, mean), p, a, s, mean, out)
    ensures |s| == |vals| + |out|
    ensures forall i | 0 <= i < |vals| :: s[i] + mean == vals[i]
    ensures forall t | |vals| <= t < |s| :: PredictionError(s, a)(t) == 0.0
    ensures forall t | |vals| <= t < |s| :: out[t - |vals|] == Clamp(s[t] + mean)
  {
    var c := Centred(vals, mean);
    assert forall i | 0 <= i < |vals| :: s[i] == s[..|c|][i] == vals[i] - mean;
    forall t | |vals| <= t < |s|
      ensures out[t - |vals|] == Clamp(s[t] + mean)
    {
      var k := t - |c|;
      assert out[k] == Clamp(s[|c| + k] + mean);
    }
  }

  /** A forecast goes on from the sample itself: relative to the mean, samples and forecasts are one series. */
  lemma ForecastGoesOn(vals: seq<real>, window: int, out: seq<real>) returns (a: seq<real>, s: seq<real>)
    requires |vals| > 0 && !UsesMean(vals, window) && IsForecast(vals, window, out)
    ensures |s| == |vals| + |out|
    ensures forall i | 0 <= i < |vals| :: s[i] + Mean(vals) == vals[i]
    ensures forall t | |vals| <= t < |s| :: PredictionError(s, a)(t) == 0.0
    ensures forall t | |vals| <= t < |s| :: out[t - |vals|] == Clamp(s[t] + Mean(vals))
  {
    var mean := Mean(vals);
    var c, p := Centred(vals, mean), Order(|vals|, window);
    a, s :| Rolls(c, p, a, s, mean, out);
    RollsFrom(vals, p, a, s, mean, out);
  }

  /** Loads that are fractions are forecast as fractions, on every path. */
  lemma ForecastIsFraction(vals: seq<real>, window: int, out: seq<real>, k: nat)
    requires IsForecast(vals, window, out) && k < |out|
    requires forall i | 0 <= i < |vals| :: 0.0 <= vals[i] <= 1.0
    ensures 0.0 <= out[k] <= 1.0
  {
    if |vals| > 0 && UsesMean(vals, window) {
      MeanIsFraction(vals);
    }
  }

  lemma MeanIsFraction(vals: seq<real>)
    requires |vals| > 0 && forall i | 0 <= i < |vals| :: 0.0 <= vals[i] <= 1.0
    ensures 0.0 <= Mean(vals) <= 1.0
  {
    forall i | 0 <= i < |vals|
      ensures 0.0 <= Entries(vals)(i) <= 1.0
    {
      assert Entries(vals)(i) == At(vals, i);
    }
    SumNonNegative(|vals|, Entries(vals));
    SumBounded(|vals|, Entries(vals));
    DivideMonotone(0.0, Sum(|vals|, Entries(vals)), |vals| as real);
    DivideMonotone(Sum(|vals|, Entries(vals)), |vals| as real, |vals| as real);
  }

  lemma {:induction false} SumBounded(n: nat, f: int -> real)
    requires forall i | 0 <= i < n :: f(i) <= 1.0
    ensures Sum(n, f) <= n as real
  {
    if n > 0 {
      SumBounded(n - 1, f);
    }
  }

  class Predictor {
    const window: int
    var predBuf: array<real>
    var centerBuf: array<real>
    var arBuf: array<real>
    const coeffBuf: array<real>
    const rBuf: array<real>
    const aOldBuf: array<real>

    ghost predicate Valid()
      reads this
    {
      && coeffBuf != rBuf && coeffBuf != aOldBuf && rBuf != aOldBuf
      && predBuf !in {coeffBuf, rBuf, aOldBuf, centerBuf, arBuf}
      && centerBuf !in {coeffBuf, rBuf, aOldBuf, arBuf}
      && arBuf !in {coeffBuf, rBuf, aOldBuf}
    }

    constructor (window: nat, horizon: nat)
      ensures Valid() && fresh({predBuf, centerBuf, arBuf, coeffBuf, rBuf, aOldBuf})
      ensures this.window == window
    {
      this.window := window;
      predBuf := new real[horizon];
      centerBuf := new real[window];
      arBuf := new real[window + horizon];
      coeffBuf := new real[16];
      rBuf := new real[17];
      aOldBuf := new real[16];
    }

    /** Fills r with the sample autocorrelations up to lag p. */
    method Correlate(vals: seq<real>, mean: real, p: nat, r: array<real>)
      requires |vals| > 0 && r.Length >= p + 1
      modifies r
      ensures r[..p + 1] == Autocorrelations(Centred(vals, mean), p)
    {
      var lag := 0;
      while lag <= p
        invariant 0 <= lag <= p + 1
        invariant forall l | 0 <= l < lag :: r[l] == Autocorrelations(Centred(vals, mean), p)[l]
      {
        var sum := LagSum(vals, mean, lag);
        r[lag] := sum / |vals| as real;
        lag := lag + 1;
      }
    }

    /** One pass of the recursion: a[..m] becomes a[..m+1] with reflection coefficient k. */
    method Reflect(a: array<real>, aOld: array<real>, p: nat, m: nat, k: real)
      requires a != aOld && m < p <= a.Length && p <= aOld.Length
      modifies a, aOld
      ensures Updates(old(a[..m]), k, a[..m + 1])
    {
      var i := 0;
      while i < p
        invariant 0 <= i <= p
        invariant forall l | 0 <= l < i :: aOld[l] == old(a[l])
        invariant forall l | 0 <= l < p :: a[l] == old(a[l])
      {
        aOld[i] := a[i];
        i := i + 1;
      }
      a[m] := k;
      var j := 0;
      while j < m
        invariant 0 <= j <= m
        invariant forall l | 0 <= l < m :: aOld[l] == old(a[l])
        invariant a[m] == k
        invariant forall l {:trigger a[l]} | 0 <= l < j :: a[l] == old(a[l]) - Mul(k, old(a[m - 1 - l]))
      {
        a[j] := aOld[j] - k * aOld[m - 1 - j];
        j := j + 1;
      }
    }

    /** The numerator of the reflection coefficient. */
    method NextResidue(a: array<real>, r: array<real>, m: nat, p: nat) returns (sum: real)
      requires m < p && m <= a.Length && p < r.Length
      ensures sum == Residue(r[..p + 1], a[..m])
    {
      ghost var am, rp := a[..m], r[..p + 1];
      sum := r[m + 1];
      var j := 0;
      while j < m
        invariant 0 <= j <= m
        invariant sum == r[m + 1] - Dot(j, Entries(am), Backward(rp, m))
      {
        DotSucc(j, Entries(am), Backward(rp, m));
        assert Entries(am)(j) == At(am, j) && Backward(rp, m)(j) == At(rp, m - j);
        sum := sum - a[j] * r[m - j];
        j := j + 1;
      }
    }

    /** One order of the recursion, in place. */
    method Advance(a: array<real>, aOld: array<real>, r: array<real>, p: nat, m: nat, e: real, ghost stages: seq<Stage>)
      returns (e': real)
      requires 0 < m < p <= a.Length && p <= aOld.Length && p < r.Length
      requires a != aOld && a != r && aOld != r
      requires IsRun(r[..p + 1], stages) && |stages| == m && stages[m - 1] == Stage(a[..m], e) && e >= EPSILON
      modifies a, aOld
      ensures IsRun(r[..p + 1], stages + [Next(r[..p + 1], stages[m - 1])])
      ensures Next(r[..p + 1], stages[m - 1]) == Stage(a[..m + 1], e')
    {
      ghost var rs := r[..p + 1];
      var sum := NextResidue(a, r, m, p);
      var k := sum / e;
      Reflect(a, aOld, p, m, k);
      ExtendRun(rs, stages, a[..m + 1]);
      e' := e * (1.0 - k * k);
    }

    /** The recursion itself, in place on a[..p] with r holding the autocorrelations. */
    method Recur(a: array<real>, aOld: array<real>, r: array<real>, p: nat)
      returns (order: nat, ghost stages: seq<Stage>)
      requires 0 < p <= a.Length && p <= aOld.Length && p < r.Length && r[0] >= EPSILON
      requires a != aOld && a != r && aOld != r
      modifies a, aOld
      ensures 1 <= order <= p && |stages| == order
      ensures IsRun(r[..p + 1], stages) && Last(stages).a == a[..order]
      ensures order == p || Last(stages).e < EPSILON
    {
      ghost var rs := r[..p + 1];
      a[0] := r[1] / r[0];
      var e := r[0] * (1.0 - a[0] * a[0]);
      stages := [First(rs)];
      assert Stage(a[..1], e) == First(rs);
      order := 1;
      while order < p
        invariant 1 <= order <= p
        invariant r[..p + 1] == rs
        invariant IsRun(rs, stages) && |stages| == order
        invariant stages[order - 1] == Stage(a[..order], e)
      {
        if e < EPSILON {
          return;
        }
        e := Advance(a, aOld, r, p, order, e, stages);
        stages := stages + [Next(rs, stages[order - 1])];
        order := order + 1;
      }
    }

    /**
     Estimates AR coefficients of order at most p in the scratch buffers. The result is the
     prefix a[..order], or nothing when the sample has no variance.
     */
    method YuleWalker(vals: seq<real>, mean: real, p: nat)
      returns (found: bool, a: array<real>, order: nat, ghost stages: seq<Stage>)
      requires Valid() && |vals| > 0 && p > 0
      modifies coeffBuf, rBuf, aOldBuf
      ensures found <==> Autocorrelations(Centred(vals, mean), p)[0] >= EPSILON
      ensures order <= a.Length && (a == coeffBuf || fresh(a))
      ensures found ==> Estimates(Centred(vals, mean), p, a[..order])
      ensures found ==> Complete(Autocorrelations(Centred(vals, mean), p), p, stages) && Last(stages).a == a[..order]
    {
      var r, aOld := rBuf, aOldBuf;
      a, order, stages := coeffBuf, 0, [];
      if r.Length < p + 1 { r := new real[p + 1]; }
      Correlate(vals, mean, p, r);
      assert r[0] == r[..p + 1][0];
      if r[0] < EPSILON {
        return false, a, 0, [];
      }
      if a.Length < p { a := new real[p]; }
      if aOld.Length < p { aOld := new real[p]; }
      order, stages := Recur(a, aOld, r, p);
      LastStageEstimates(Centred(vals, mean), p, stages);
      found := true;
    }

    /** The mean of a sample, by accumulation. */
    method Average(vals: seq<real>) returns (mean: real)
      requires |vals| > 0
      ensures mean == Mean(vals)
    {
      mean := 0.0;
      var i := 0;
      while i < |vals|
        invariant 0 <= i <= |vals|
        invariant mean == Sum(i, Entries(vals))
      {
        assert Entries(vals)(i) == At(vals, i);
        mean := mean + vals[i];
        i := i + 1;
      }
      mean := mean / |vals| as real;
    }

    method Fill(a: array<real>, n: nat, x: real)
      requires n <= a.Length
      modifies a
      ensures forall i | 0 <= i < n :: a[i] == x
    {
      var i := 0;
      while i < n
        invariant 0 <= i <= n
        invariant forall j | 0 <= j < i :: a[j] == x
      {
        a[i] := x;
        i := i + 1;
      }
    }

    /** One forecast: the coefficients against the latest values, newest first. */
    method Forecast(a: array<real>, order: nat, buf: array<real>, idx: nat) returns (pred: real)
      requires order <= a.Length && order <= idx <= buf.Length
      ensures pred == Dot(order, Entries(a[..order]), Past(buf[..idx], idx))
    {
      ghost var u, v := Entries(a[..order]), Past(buf[..idx], idx);
      pred := 0.0;
      var j := 0;
      while j < order
        invariant 0 <= j <= order
        invariant pred == Dot(j, u, v)
      {
        DotSucc(j, u, v);
        assert u(j) == At(a[..order], j) && v(j) == At(buf[..idx], idx - 1 - j);
        pred := pred + a[j] * buf[idx - 1 - j];
        j := j + 1;
      }
    }

    /** Rolls the autoregression forward from the n centred samples in buf. */
    method Roll(a: array<real>, order: nat, buf: array<real>, n: nat, horizon: nat, mean: real, predicted: array<real>)
      returns (ghost s: seq<real>)
      requires order <= a.Length && order <= n && n + horizon <= buf.Length && horizon <= predicted.Length
      requires a != buf && a != predicted && buf != predicted
      modifies buf, predicted
      ensures |s| == n + horizon && s[..n] == old(buf[..n])
      ensures forall t | n <= t < |s| :: PredictionError(s, old(a[..order]))(t) == 0.0
      ensures forall k | 0 <= k < horizon :: predicted[k] == Clamp(s[n + k] + mean)
    {
      ghost var coeffs, c := a[..order], buf[..n];
      s := c;
      var k := 0;
      while k < horizon
        invariant 0 <= k <= horizon
        invariant a[..order] == coeffs
        invariant s == buf[..n + k] && Continues(coeffs, c, s)
        invariant forall l | 0 <= l < k :: predicted[l] == Clamp(s[n + l] + mean)
      {
        var idx := n + k;
        var pred := Forecast(a, order, buf, idx);
        ContinuesOn(coeffs, c, s, pred);
        s := s + [pred];
        buf[idx] := pred;
        assert buf[..n + k + 1] == s;
        predicted[k] := pred + mean;
        if predicted[k] < 0.0 {
          predicted[k] := 0.0;
        }
        if predicted[k] > 1.0 {
          predicted[k] := 1.0;
        }
        k := k + 1;
      }
    }

    /** Forecasts horizon steps ahead into predBuf, growing the scratch buffers when they are short. */
    method ArPredictInto(vals: seq<real>, horizon: nat)
      requires Valid()
      modifies this, predBuf, centerBuf, arBuf, coeffBuf, rBuf, aOldBuf
      ensures Valid() && horizon <= predBuf.Length
      ensures IsForecast(vals, window, predBuf[..horizon])
    {
      if predBuf.Length < horizon { predBuf := new real[horizon]; }
      Fill(predBuf, horizon, 0.0);
      var n := |vals|;
      if n == 0 {
        return;
      }
      var mean := Average(vals);
      var p := Order(n, window);
      if p < 1 || n < 2 * p {
        Fill(predBuf, horizon, mean);
        return;
      }
      PredictSample(vals, mean, p, horizon);
      SamplesAreForecasts(vals, window, predBuf[..horizon]);
    }

    /** Forecasts a sample: its mean when it has no variance, the autoregression otherwise. */
    method PredictSample(vals: seq<real>, mean: real, p: nat, horizon: nat)
      requires Valid() && horizon <= predBuf.Length && 0 < p <= |vals|
      modifies this`centerBuf, this`arBuf, predBuf, centerBuf, arBuf, coeffBuf, rBuf, aOldBuf
      ensures Valid() && Samples(Centred(vals, mean), p, mean, predBuf[..horizon])
    {
      var found, a, order, stages := YuleWalker(vals, mean, p);
      if found {
        Extrapolate(a, order, vals, mean, p, horizon, Centred(vals, mean), a[..order]);
      } else {
        Fill(predBuf, horizon, mean);
      }
    }

    method Extrapolate(a: array<real>, order: nat, vals: seq<real>, mean: real, ghost p: nat, horizon: nat,
                       ghost c: seq<real>, ghost coeffs: seq<real>)
      requires Valid() && order <= a.Length && order <= |vals| && horizon <= predBuf.Length && |vals| > 0
      requires a != predBuf && a != centerBuf && a != arBuf
      requires c == Centred(vals, mean) && coeffs == a[..order]
      requires Autocorrelations(c, p)[0] >= EPSILON && Computed(c, p, coeffs)
      modifies this`centerBuf, this`arBuf, predBuf, centerBuf, arBuf
      ensures Valid() && Samples(c, p, mean, predBuf[..horizon])
    {
      ghost var s := RollSample(a, order, vals, mean, horizon);
      RollsOut(c, p, coeffs, s, mean, predBuf[..horizon]);
    }

    /** Centres the sample in the scratch buffers and rolls the autoregression forward from it. */
    method RollSample(a: array<real>, order: nat, vals: seq<real>, mean: real, horizon: nat) returns (ghost s: seq<real>)
      requires Valid() && order <= a.Length && order <= |vals| && horizon <= predBuf.Length
      requires a != predBuf && a != centerBuf && a != arBuf
      modifies this`centerBuf, this`arBuf, predBuf, centerBuf, arBuf
      ensures Valid()
      ensures |s| == |vals| + horizon && s[..|vals|] == Centred(vals, mean)
      ensures forall t | |vals| <= t < |s| :: PredictionError(s, old(a[..order]))(t) == 0.0
      ensures forall k | 0 <= k < horizon :: predBuf[k] == Clamp(s[|vals| + k] + mean)
    {
      var n := |vals|;
      if centerBuf.Length < n { centerBuf := new real[n]; }
      Centre(vals, mean, centerBuf);
      if arBuf.Length < n + horizon { arBuf := new real[n + horizon]; }
      Copy(centerBuf, arBuf, n);
      assert a[..order] == old(a[..order]);
      s := Roll(a, order, arBuf, n, horizon, mean, predBuf);
    }

    method Centre(vals: seq<real>, mean: real, dst: array<real>)
      requires |vals| <= dst.Length
      modifies dst
      ensures dst[..|vals|] == Centred(vals, mean)
    {
      var i := 0;
      while i < |vals|
        invariant 0 <= i <= |vals|
        invariant forall j | 0 <= j < i :: dst[j] == vals[j] - mean
      {
        dst[i] := vals[i] - mean;
        i := i + 1;
      }
    }

    method Copy(src: array<real>, dst: array<real>, n: nat)
      requires src != dst && n <= src.Length && n <= dst.Length
      modifies dst
      ensures dst[..n] == old(src[..n])
    {
      var i := 0;
      while i < n
        invariant 0 <= i <= n
        invariant forall j | 0 <= j < i :: dst[j] == src[j]
      {
        dst[i] := src[i];
        i := i + 1;
      }
    }
  }

  lemma ExtendRun(r: seq<real>, stages: seq<Stage>, b: seq<real>)
    requires IsRun(r, stages) && stages[|stages| - 1].e >= EPSILON
    requires Updates(stages[|stages| - 1].a, Reflection(r, stages[|stages| - 1]), b)
    ensures IsRun(r, stages + [Next(r, stages[|stages| - 1])])
    ensures b == Next(r, stages[|stages| - 1]).a
  {
    var last := stages[|stages| - 1];
    var longer := stages + [Next(r, last)];
    NextUpdates(r, last);
    forall i | 0 < i < |longer|
      ensures Follows(r, longer, i)
    {
      assert i < |stages| ==> Follows(r, stages, i);
    }
  }
}
