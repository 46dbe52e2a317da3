/**
 The Levinson-Durbin recursion of the load predictor, over the reals.

 A stage holds the coefficients a[0..m) found so far and the running error e. The stages are
 tied to two definitions that do not mention the recursion: the symmetric Toeplitz system of
 Yule and Walker, and the mean squared one-step prediction error on the zero-padded series.
 */
module LevinsonDurbin {
  import opened Sums

  function Lag(i: int, j: int): nat {
    if i <= j then j - i else i - j
  }

  /** The padded series, delayed. */
  function Delay(c: seq<real>, lag: int): int -> real {
    t => At(c, t - lag)
  }

  /** r holds the biased sample autocorrelations of c: |c| * r[lag] is the sum of c(t) * c(t - lag). */
  predicate IsAutocorrelation(c: seq<real>, r: seq<real>) {
    && |c| > 0
    && forall lag | 0 <= lag < |r| :: Dot(|c|, Entries(c), Delay(c, lag)) == Mul(|c| as real, r[lag])
  }

  /** Row i of the symmetric Toeplitz matrix whose first row is r. */
  function Toeplitz(r: seq<real>, i: int): int -> real {
    j => At(r, Lag(i, j))
  }

  /** Row i of the Toeplitz matrix of r applied to a. */
  function Row(r: seq<real>, a: seq<real>, i: int): real {
    Dot(|a|, Entries(a), Toeplitz(r, i))
  }

  /** a solves the |a|-by-|a| Yule-Walker system of r. */
  predicate SolvesYuleWalker(r: seq<real>, a: seq<real>) {
    forall i | 0 <= i < |a| :: Row(r, a, i) == At(r, i + 1)
  }

  function Innovation(r: seq<real>, a: seq<real>): real {
    At(r, 0) - Dot(|a|, Entries(a), j => At(r, j + 1))
  }

  /** The series before time t, latest first. */
  function Past(c: seq<real>, t: int): int -> real {
    j => At(c, t - 1 - j)
  }

  /** What order-|a| prediction leaves unexplained, as a function of time. */
  function PredictionError(c: seq<real>, a: seq<real>): int -> real {
    t => At(c, t) - Dot(|a|, Entries(a), Past(c, t))
  }

  /** Mean squared prediction error over every time where the padded series can be non-zero. */
  function MeanSquaredError(c: seq<real>, a: seq<real>): real
    requires |c| > 0
  {
    Dot(|c| + |a|, PredictionError(c, a), PredictionError(c, a)) / |c| as real
  }

  // ----- the recursion

  datatype Stage = Stage(a: seq<real>, e: real)

  function First(r: seq<real>): Stage
    requires At(r, 0) != 0.0
  {
    var k := At(r, 1) / At(r, 0);
    Stage([k], At(r, 0) * (1.0 - k * k))
  }

  function Backward(r: seq<real>, m: int): int -> real {
    j => At(r, m - j)
  }

  /** What the current coefficients leave of the next autocorrelation. */
  function Residue(r: seq<real>, a: seq<real>): real {
    At(r, |a| + 1) - Dot(|a|, Entries(a), Backward(r, |a|))
  }

  function Reflection(r: seq<real>, s: Stage): real
    requires s.e != 0.0
  {
    Residue(r, s.a) / s.e
  }

  function Next(r: seq<real>, s: Stage): Stage
    requires s.e != 0.0
  {
    var k := Reflection(r, s);
    Stage(seq(|s.a| + 1, j => if j == |s.a| then k else At(s.a, j) - k * At(s.a, |s.a| - 1 - j)),
          s.e * (1.0 - k * k))
  }

  /** What the recursion keeps at every order. */
  predicate Sound(r: seq<real>, s: Stage) {
    && |s.a| >= 1
    && SolvesYuleWalker(r, s.a)
    && s.e == Innovation(r, s.a)
  }

  // ----- every stage solves its Yule-Walker system

  /** The two sums the code runs are the Toeplitz rows just outside the system. */
  lemma OuterRows(r: seq<real>, a: seq<real>)
    ensures Innovation(r, a) == At(r, 0) - Row(r, a, -1)
    ensures Residue(r, a) == At(r, |a| + 1) - Row(r, a, |a|)
  {
    DotCongruence(|a|, Entries(a), j => At(r, j + 1), Entries(a), Toeplitz(r, -1));
    DotCongruence(|a|, Entries(a), Backward(r, |a|), Entries(a), Toeplitz(r, |a|));
  }

  lemma FirstIsSound(r: seq<real>)
    requires At(r, 0) != 0.0
    ensures Sound(r, First(r))
  {
    var s := First(r);
    OuterRows(r, s.a);
    forall i {
      SingletonRow(r, s.a[0], i);
    }
  }

  lemma SingletonRow(r: seq<real>, k: real, i: int)
    ensures Row(r, [k], i) == Mul(k, At(r, Lag(i, 0)))
  {
    DotSucc(0, Entries([k]), Toeplitz(r, i));
    assert Entries([k])(0) == At([k], 0);
  }

  /** Reversing the coefficients mirrors the row. */
  lemma ReversedRow(r: seq<real>, a: seq<real>, i: int)
    ensures Dot(|a|, Reversed(|a|, Entries(a)), Toeplitz(r, i)) == Row(r, a, |a| - 1 - i)
  {
    var m := |a|;
    var u, v := Entries(a), Toeplitz(r, m - 1 - i);
    DotReverse(m, u, v);
    DotCongruence(m, Reversed(m, u), Toeplitz(r, i), Reversed(m, u), Reversed(m, v));
  }

  /** b is what one update with reflection coefficient k makes of a. */
  predicate Updates(a: seq<real>, k: real, b: seq<real>) {
    && |b| == |a| + 1
    && b[|a|] == k
    && forall j {:trigger b[j]} | 0 <= j < |a| :: b[j] == a[j] - Mul(k, a[|a| - 1 - j])
  }

  lemma MulNegative(k: real, x: real)
    ensures Mul(-k, x) == -Mul(k, x)
  {
  }

  lemma UpdatedEntry(a: seq<real>, k: real, b: seq<real>, j: nat)
    requires Updates(a, k, b) && j < |a|
    ensures Entries(b)(j) == Entries(a)(j) + Mul(-k, Reversed(|a|, Entries(a))(j))
  {
    var x := a[|a| - 1 - j];
    assert Entries(b)(j) == At(b, j) == a[j] - Mul(k, x);
    assert Entries(a)(j) == At(a, j);
    assert Reversed(|a|, Entries(a))(j) == Entries(a)(|a| - 1 - j) == At(a, |a| - 1 - j) == x;
    MulNegative(k, x);
  }

  lemma UpdatedDot(a: seq<real>, k: real, b: seq<real>, v: int -> real)
    requires Updates(a, k, b)
    ensures Dot(|a|, Entries(b), v) == Dot(|a|, Entries(a), v) + Mul(-k, Dot(|a|, Reversed(|a|, Entries(a)), v))
  {
    forall j | 0 <= j < |a|
      ensures Entries(b)(j) == Entries(a)(j) + Mul(-k, Reversed(|a|, Entries(a))(j))
    {
      UpdatedEntry(a, k, b, j);
    }
    DotLinear(|a|, Entries(a), -k, Reversed(|a|, Entries(a)), Entries(b), v);
  }

  /** Any row applied to the updated coefficients, in terms of rows applied to the current ones. */
  lemma UpdatedRow(r: seq<real>, a: seq<real>, k: real, b: seq<real>, i: int)
    requires Updates(a, k, b)
    ensures Row(r, b, i) == Row(r, a, i) - Mul(k, Row(r, a, |a| - 1 - i)) + Mul(k, At(r, Lag(i, |a|)))
  {
    var m, v := |a|, Toeplitz(r, i);
    DotSucc(m, Entries(b), v);
    assert Entries(b)(m) == At(b, m) == k && v(m) == At(r, Lag(i, m));
    UpdatedDot(a, k, b, v);
    ReversedRow(r, a, i);
    MulNegative(k, Row(r, a, m - 1 - i));
  }

  /**
   Inside the system the two mirrored rows cancel; at its edge they meet the definition of k.
   */
  lemma UpdatedSolves(r: seq<real>, a: seq<real>, e: real, k: real, b: seq<real>)
    requires Sound(r, Stage(a, e)) && Updates(a, k, b)
    requires Mul(k, e) == At(r, |a| + 1) - Row(r, a, |a|)
    ensures SolvesYuleWalker(r, b)
  {
    OuterRows(r, a);
    forall i | 0 <= i < |b|
      ensures Row(r, b, i) == At(r, i + 1)
    {
      UpdatedRow(r, a, k, b, i);
      if i == |a| {
        MulAdds(k, Row(r, a, -1), e);
      } else {
        assert Row(r, a, i) == At(r, i + 1) && Row(r, a, |a| - 1 - i) == At(r, |a| - i);
      }
    }
  }

  lemma UpdatedInnovation(r: seq<real>, a: seq<real>, e: real, k: real, b: seq<real>)
    requires Sound(r, Stage(a, e)) && Updates(a, k, b)
    requires Mul(k, e) == At(r, |a| + 1) - Row(r, a, |a|)
    ensures Innovation(r, b) == e * (1.0 - k * k)
  {
    OuterRows(r, a);
    OuterRows(r, b);
    UpdatedRow(r, a, k, b, -1);
    assert Innovation(r, b) == e - Mul(k, At(r, |a| + 1)) + Mul(k, Row(r, a, |a|));
    MulAdds(k, Row(r, a, |a|), Mul(k, e));
    assert Mul(k, Mul(k, e)) == k * k * e;
  }

  lemma NextUpdates(r: seq<real>, s: Stage)
    requires s.e != 0.0
    ensures Updates(s.a, Reflection(r, s), Next(r, s).a)
  {
  }

  lemma Quotient(x: real, e: real)
    requires e != 0.0
    ensures x / e * e == x
  {
  }

  lemma ReflectionTimesError(r: seq<real>, s: Stage)
    requires s.e != 0.0
    ensures Mul(Reflection(r, s), s.e) == At(r, |s.a| + 1) - Row(r, s.a, |s.a|)
  {
    OuterRows(r, s.a);
    Quotient(Residue(r, s.a), s.e);
  }

  lemma NextIsSound(r: seq<real>, s: Stage)
    requires s.e != 0.0 && Sound(r, s)
    ensures Sound(r, Next(r, s))
  {
    NextUpdates(r, s);
    ReflectionTimesError(r, s);
    UpdatedSolves(r, s.a, s.e, Reflection(r, s), Next(r, s).a);
    UpdatedInnovation(r, s.a, s.e, Reflection(r, s), Next(r, s).a);
  }

  // ----- the running error is the mean squared prediction error

  function Delays(c: seq<real>): int -> int -> real {
    j => Delay(c, j)
  }

  /** The coefficients of the error filter: 1, -a[0], -a[1], ... */
  function Filter(a: seq<real>): int -> real {
    j => if j == 0 then 1.0 else -At(a, j - 1)
  }

  lemma DotFilter(a: seq<real>, v: int -> real)
    ensures Dot(|a| + 1, Filter(a), v) == v(0) - Dot(|a|, Entries(a), Shift(v, 1))
  {
    DotSplit(1, |a|, Filter(a), v);
    DotSucc(0, Filter(a), v);
    DotScale(|a|, -1.0, Entries(a), Shift(Filter(a), 1), Shift(v, 1));
  }

  lemma ErrorIsFiltered(c: seq<real>, a: seq<real>, t: int)
    ensures PredictionError(c, a)(t) == Combination(|a| + 1, Filter(a), Delays(c))(t)
  {
    DotFilter(a, Column(Delays(c), t));
    DotCongruence(|a|, Entries(a), Shift(Column(Delays(c), t), 1), Entries(a), Past(c, t));
  }

  /** Two delayed copies of the padded series correlate as the difference of their delays says. */
  lemma DelayedProduct(c: seq<real>, n: nat, i: nat, j: nat)
    requires |c| > 0 && i <= j <= n - |c|
    ensures Dot(n, Delay(c, i), Delay(c, j)) == Dot(|c|, Entries(c), Delay(c, j - i))
  {
    var u, v, rest := Delay(c, i), Delay(c, j), n - i - |c|;
    DotSplit(i, |c| + rest, u, v);
    forall t | 0 <= t < i
      ensures u(t) == 0.0
    {
      assert u(t) == At(c, t - i);
    }
    DotZero(i, u, v);
    DotSplit(|c|, rest, Shift(u, i), Shift(v, i));
    forall t | 0 <= t < rest
      ensures Shift(Shift(u, i), |c|)(t) == 0.0
    {
      assert u(i + (|c| + t)) == At(c, |c| + t);
    }
    DotZero(rest, Shift(Shift(u, i), |c|), Shift(Shift(v, i), |c|));
    DotCongruence(|c|, Shift(u, i), Shift(v, i), Entries(c), Delay(c, j - i));
  }

  lemma DelaysCorrelate(c: seq<real>, r: seq<real>, n: nat, i: nat, m: nat)
    requires IsAutocorrelation(c, r) && i <= m < |r| && m + |c| <= n
    ensures forall j | 0 <= j < m + 1 ::
              Pairings(n, Delay(c, i), Delays(c))(j) == Mul(|c| as real, Toeplitz(r, i)(j))
  {
    forall j | 0 <= j < m + 1
      ensures Pairings(n, Delay(c, i), Delays(c))(j) == Mul(|c| as real, Toeplitz(r, i)(j))
    {
      if i <= j {
        DelayedProduct(c, n, i, j);
      } else {
        DelayedProduct(c, n, j, i);
        DotSymmetric(n, Delay(c, i), Delay(c, j));
      }
    }
  }

  lemma FilteredRow(r: seq<real>, a: seq<real>, i: nat)
    ensures Dot(|a| + 1, Filter(a), Toeplitz(r, i)) == At(r, i) - Row(r, a, i - 1)
  {
    DotFilter(a, Toeplitz(r, i));
    DotCongruence(|a|, Entries(a), Shift(Toeplitz(r, i), 1), Entries(a), Toeplitz(r, i - 1));
  }

  /** Pairing anything with the prediction error filters its pairings with the delayed series. */
  lemma PairWithError(c: seq<real>, a: seq<real>, n: nat, w: int -> real)
    ensures Dot(n, w, PredictionError(c, a)) == Dot(|a| + 1, Filter(a), Pairings(n, w, Delays(c)))
  {
    forall t: int { ErrorIsFiltered(c, a, t); }
    DotCongruence(n, w, PredictionError(c, a), w, Combination(|a| + 1, Filter(a), Delays(c)));
    DotCombination(n, |a| + 1, w, Filter(a), Delays(c));
  }

  /** The prediction error paired with the delayed series measures one Yule-Walker equation. */
  lemma ErrorPairing(c: seq<real>, r: seq<real>, a: seq<real>, n: nat, i: nat, scale: real)
    requires forall j | 0 <= j < |a| + 1 :: Pairings(n, Delay(c, i), Delays(c))(j) == Mul(scale, Toeplitz(r, i)(j))
    ensures Dot(n, Delay(c, i), PredictionError(c, a)) == Mul(scale, At(r, i) - Row(r, a, i - 1))
  {
    PairWithError(c, a, n, Delay(c, i));
    DotScaleRight(|a| + 1, scale, Filter(a), Toeplitz(r, i), Pairings(n, Delay(c, i), Delays(c)));
    FilteredRow(r, a, i);
  }

  lemma ErrorMeasuresRow(c: seq<real>, r: seq<real>, a: seq<real>, i: nat)
    requires IsAutocorrelation(c, r) && i <= |a| < |r|
    ensures Dot(|c| + |a|, Delay(c, i), PredictionError(c, a)) == Mul(|c| as real, At(r, i) - Row(r, a, i - 1))
  {
    DelaysCorrelate(c, r, |c| + |a|, i, |a|);
    ErrorPairing(c, r, a, |c| + |a|, i, |c| as real);
  }

  /** A solution leaves an error orthogonal to everything it predicts from. */
  lemma ErrorIsOrthogonal(c: seq<real>, r: seq<real>, s: Stage, i: nat)
    requires IsAutocorrelation(c, r) && Sound(r, s) && i <= |s.a| < |r|
    ensures Dot(|c| + |s.a|, Delay(c, i), PredictionError(c, s.a)) == if i == 0 then Mul(|c| as real, s.e) else 0.0
  {
    ErrorMeasuresRow(c, r, s.a, i);
    OuterRows(r, s.a);
    if 0 < i {
      assert Row(r, s.a, i - 1) == At(r, i);
      assert Mul(|c| as real, 0.0) == 0.0;
    }
  }

  /** The running error is the mean squared prediction error of the current coefficients. */
  lemma ErrorIsMeanSquare(c: seq<real>, r: seq<real>, s: Stage)
    requires IsAutocorrelation(c, r) && Sound(r, s) && |s.a| < |r|
    ensures s.e == MeanSquaredError(c, s.a)
    ensures s.e >= 0.0
  {
    var n, a, err := |c| + |s.a|, s.a, PredictionError(c, s.a);
    PairWithError(c, a, n, err);
    FilteredPairings(c, r, s);
    DotNonNegative(n, err);
    DivideBack(|c| as real, s.e, Dot(n, err, err));
  }

  lemma DivideBack(n: real, e: real, x: real)
    requires n > 0.0 && x == Mul(n, e) && x >= 0.0
    ensures x / n == e && e >= 0.0
  {
  }

  lemma FilteredPairings(c: seq<real>, r: seq<real>, s: Stage)
    requires IsAutocorrelation(c, r) && Sound(r, s) && |s.a| < |r|
    ensures var p := Pairings(|c| + |s.a|, PredictionError(c, s.a), Delays(c));
            Dot(|s.a| + 1, Filter(s.a), p) == Mul(|c| as real, s.e)
  {
    var n, m, a, err := |c| + |s.a|, |s.a|, s.a, PredictionError(c, s.a);
    var p := Pairings(n, err, Delays(c));
    forall i | 0 <= i < m + 1
      ensures p(i) == if i == 0 then Mul(|c| as real, s.e) else 0.0
    {
      DotSymmetric(n, err, Delay(c, i));
      ErrorIsOrthogonal(c, r, s, i);
    }
    DotFilter(a, p);
    DotZero(m, Entries(a), Shift(p, 1));
  }

  // ----- every run of the recursion

  /** Below this the code treats the variance as zero and stops. */
  const EPSILON := 0.000000000000001

  /** The stages the code passes through: it goes on only while the running error is not negligible. */
  predicate IsRun(r: seq<real>, stages: seq<Stage>) {
    && |stages| >= 1
    && At(r, 0) >= EPSILON
    && stages[0] == First(r)
    && forall i | 0 < i < |stages| :: Follows(r, stages, i)
  }

  predicate Follows(r: seq<real>, stages: seq<Stage>, i: nat)
    requires 0 < i < |stages|
  {
    stages[i - 1].e >= EPSILON && stages[i] == Next(r, stages[i - 1])
  }

  lemma {:induction false} RunIsSound(r: seq<real>, stages: seq<Stage>, i: nat)
    requires IsRun(r, stages) && i < |stages|
    ensures |stages[i].a| == i + 1
    ensures Sound(r, stages[i])
  {
    if i == 0 {
      FirstIsSound(r);
    } else {
      assert Follows(r, stages, i);
      RunIsSound(r, stages, i - 1);
      NextIsSound(r, stages[i - 1]);
    }
  }

  lemma ShrinkBounds(e: real, k: real)
    requires e > 0.0 && e * (1.0 - k * k) >= 0.0
    ensures -1.0 <= k <= 1.0
    ensures e * (1.0 - k * k) <= e
  {
    if k < -1.0 || k > 1.0 {
      SquareAboveOne(k);
      PositiveProduct(e, k * k - 1.0);
      assert false;
    }
    PositiveProduct(e, k * k);
  }

  lemma SquareAboveOne(k: real)
    requires k < -1.0 || k > 1.0
    ensures k * k > 1.0
  {
  }

  lemma PositiveProduct(x: real, y: real)
    requires x > 0.0 && y >= 0.0
    ensures x * y >= 0.0
    ensures y > 0.0 ==> x * y > 0.0
  {
  }

  lemma NextShrinks(r: seq<real>, s: Stage)
    requires s.e > 0.0 && Next(r, s).e >= 0.0
    ensures |Next(r, s).a| == |s.a| + 1 && -1.0 <= Next(r, s).a[|s.a|] <= 1.0
    ensures Next(r, s).e <= s.e
  {
    NextUpdates(r, s);
    ShrinkBounds(s.e, Reflection(r, s));
  }

  /**
   At every order the running error is the true mean squared prediction error, hence never
   negative; it never increases; and every reflection coefficient lies in [-1, 1].
   */
  lemma ErrorAlongRun(c: seq<real>, r: seq<real>, stages: seq<Stage>, i: nat)
    requires IsAutocorrelation(c, r) && IsRun(r, stages) && i < |stages| < |r|
    ensures |stages[i].a| == i + 1
    ensures 0.0 <= stages[i].e == MeanSquaredError(c, stages[i].a)
    ensures stages[i].e <= if i == 0 then At(r, 0) else stages[i - 1].e
    ensures -1.0 <= stages[i].a[i] <= 1.0
  {
    RunIsSound(r, stages, i);
    ErrorIsMeanSquare(c, r, stages[i]);
    if i == 0 {
      ShrinkBounds(At(r, 0), stages[0].a[0]);
    } else {
      assert Follows(r, stages, i);
      RunIsSound(r, stages, i - 1);
      NextShrinks(r, stages[i - 1]);
    }
  }

  // ----- a solution predicts best

  /** What changing the coefficients from a to b adds to the prediction error. */
  function Change(c: seq<real>, a: seq<real>, b: seq<real>): int -> real {
    Combination(|a|, Difference(a, b), Strict(c))
  }

  function Difference(a: seq<real>, b: seq<real>): int -> real {
    j => At(a, j) - At(b, j)
  }

  function Strict(c: seq<real>): int -> int -> real {
    j => Delay(c, j + 1)
  }

  lemma ChangedError(c: seq<real>, a: seq<real>, b: seq<real>, t: int)
    requires |a| == |b|
    ensures PredictionError(c, b)(t) == PredictionError(c, a)(t) + Mul(1.0, Change(c, a, b)(t))
  {
    DotLinear(|a|, Entries(a), -1.0, Entries(b), Difference(a, b), Past(c, t));
    DotCongruence(|a|, Difference(a, b), Past(c, t), Difference(a, b), Column(Strict(c), t));
  }

  lemma ErrorIgnoresChange(c: seq<real>, r: seq<real>, s: Stage, b: seq<real>)
    requires IsAutocorrelation(c, r) && Sound(r, s) && |s.a| < |r|
    ensures Dot(|c| + |s.a|, PredictionError(c, s.a), Change(c, s.a, b)) == 0.0
  {
    var n, err := |c| + |s.a|, PredictionError(c, s.a);
    DotCombination(n, |s.a|, err, Difference(s.a, b), Strict(c));
    forall j | 0 <= j < |s.a|
      ensures Pairings(n, err, Strict(c))(j) == 0.0
    {
      DotSymmetric(n, err, Delay(c, j + 1));
      ErrorIsOrthogonal(c, r, s, j + 1);
    }
    DotZero(|s.a|, Difference(s.a, b), Pairings(n, err, Strict(c)));
  }

  /** No coefficients of the same order have a smaller mean squared prediction error. */
  lemma SolutionIsOptimal(c: seq<real>, r: seq<real>, s: Stage, b: seq<real>)
    requires IsAutocorrelation(c, r) && Sound(r, s) && |b| == |s.a| < |r|
    ensures MeanSquaredError(c, s.a) <= MeanSquaredError(c, b)
  {
    var n := |c| + |s.a|;
    forall t: int { ChangedError(c, s.a, b, t); }
    SquareOfSum(n, PredictionError(c, s.a), 1.0, Change(c, s.a, b), PredictionError(c, b));
    ErrorIgnoresChange(c, r, s, b);
    DotNonNegative(n, Change(c, s.a, b));
    DivideMonotone(Dot(n, PredictionError(c, s.a), PredictionError(c, s.a)),
                   Dot(n, PredictionError(c, b), PredictionError(c, b)), |c| as real);
  }

  lemma DivideMonotone(x: real, y: real, n: real)
    requires x <= y && n > 0.0
    ensures x / n <= y / n
  {
  }
}
