/** Where coordinate descent for the Lasso comes to rest: exactly at the minimisers of its objective. */
module LassoOptimum {
  import opened Sums
  import opened Lasso

  // ----- one coordinate

  /** Away from the threshold a coordinate costs at least half the square of the distance. */
  lemma StrongMinimum(rho: real, alpha: real, x: real)
    requires alpha >= 0.0
    ensures var s := SoftThreshold(rho, alpha);
            OneCoordinate(rho, alpha, x) - OneCoordinate(rho, alpha, s) >= Mul(x - s, x - s) / 2.0
  {
    var s := SoftThreshold(rho, alpha);
    Subgradient(rho, alpha, x);
    assert x * x / 2.0 - s * s / 2.0 - (x - s) * (x - s) / 2.0 == s * (x - s);
  }

  lemma Subgradient(rho: real, alpha: real, x: real)
    requires alpha >= 0.0
    ensures var s := SoftThreshold(rho, alpha); (s - rho) * (x - s) + alpha * (Abs(x) - Abs(s)) >= 0.0
  {
    var s := SoftThreshold(rho, alpha);
    if s > 0.0 {
      assert (s - rho) * (x - s) + alpha * (Abs(x) - Abs(s)) == alpha * (Abs(x) - x);
    } else if s < 0.0 {
      assert (s - rho) * (x - s) + alpha * (Abs(x) - Abs(s)) == alpha * (Abs(x) + x);
    } else if x >= 0.0 {
      assert (s - rho) * (x - s) + alpha * (Abs(x) - Abs(s)) == (alpha - rho) * x;
    } else {
      assert (s - rho) * (x - s) + alpha * (Abs(x) - Abs(s)) == (alpha + rho) * -x;
    }
  }

  lemma SquareIsPositive(x: real)
    requires x != 0.0
    ensures Mul(x, x) > 0.0
  {
    if x > 0.0 {
      MulPositive(x, x);
    } else {
      MulPositive(-x, -x);
    }
  }

  lemma MulPositive(x: real, y: real)
    requires x > 0.0 && y > 0.0
    ensures Mul(x, y) > 0.0
  {
  }

  lemma OnlyMinimum(rho: real, alpha: real, x: real)
    requires alpha >= 0.0 && x != SoftThreshold(rho, alpha)
    ensures OneCoordinate(rho, alpha, SoftThreshold(rho, alpha)) < OneCoordinate(rho, alpha, x)
  {
    StrongMinimum(rho, alpha, x);
    SquareIsPositive(x - SoftThreshold(rho, alpha));
  }

  lemma Weighted(w: real, x: real)
    requires w >= 0.0 && x >= 0.0
    ensures w * x >= 0.0
  {
  }

  lemma Rearranged(rho: real, scale: real, x: real, s: real, px: real, ps: real)
    ensures ((1.0 - scale) * (x * x) / 2.0 + px) - ((1.0 - scale) * (s * s) / 2.0 + ps) - (x - s) * (rho - s * scale)
         == (x * x / 2.0 - rho * x + px) - (s * s / 2.0 - rho * s + ps) - scale * Mul(x - s, x - s) / 2.0
  {
  }

  /** What moving a coefficient off its threshold costs in penalty outweighs the first-order gain in fit. */
  lemma PenaltyOutweighs(rho: real, scale: real, alpha: real, x: real)
    requires alpha >= 0.0 && scale <= 1.0
    ensures var s := SoftThreshold(rho, alpha);
            PenaltyOf(scale, alpha, x) - PenaltyOf(scale, alpha, s) - (x - s) * (rho - s * scale) >= 0.0
  {
    var s := SoftThreshold(rho, alpha);
    StrongMinimum(rho, alpha, x);
    Rearranged(rho, scale, x, s, alpha * Abs(x), alpha * Abs(s));
    SquareIsNonNegative(x - s);
    Weighted(1.0 - scale, Mul(x - s, x - s));
  }

  // ----- the fit

  function Family(cols: seq<seq<real>>): int -> int -> real {
    j => ColumnOf(cols, j)
  }

  function Change(beta: seq<real>, b: seq<real>): int -> real {
    j => At(b, j) - At(beta, j)
  }

  /** What changing the coefficients from beta to b adds to the fit. */
  function Fit(cols: seq<seq<real>>, beta: seq<real>, b: seq<real>): int -> real {
    Combination(|cols|, Change(beta, b), Family(cols))
  }

  lemma ResidualMoves(cols: seq<seq<real>>, y: seq<real>, beta: seq<real>, b: seq<real>, t: int)
    ensures Residual(cols, y, b)(t) == Residual(cols, y, beta)(t) + Mul(-1.0, Fit(cols, beta, b)(t))
  {
    var row, d := RowOf(cols, t), Change(beta, b);
    forall j: int
      ensures Entries(b)(j) == Entries(beta)(j) + Mul(1.0, d(j))
    {
    }
    DotLinear(|cols|, Entries(beta), 1.0, d, Entries(b), row);
    DotCongruence(|cols|, d, row, d, Column(Family(cols), t));
  }

  /** The squared error lies above its tangent. */
  lemma ErrorAboveTangent(cols: seq<seq<real>>, y: seq<real>, beta: seq<real>, b: seq<real>)
    ensures var r, rb := Residual(cols, y, beta), Residual(cols, y, b);
            Dot(|y|, rb, rb)
            >= Dot(|y|, r, r) - 2.0 * Dot(|cols|, Change(beta, b), Pairings(|y|, r, Family(cols)))
  {
    var r, rb, fit := Residual(cols, y, beta), Residual(cols, y, b), Fit(cols, beta, b);
    forall t: int { ResidualMoves(cols, y, beta, b, t); }
    SquareOfSum(|y|, r, -1.0, fit, rb);
    DotNonNegative(|y|, fit);
    DotCombination(|y|, |cols|, r, Change(beta, b), Family(cols));
  }

  /** The correlation of a column with the whole residual. */
  lemma PairingIs(cols: seq<seq<real>>, y: seq<real>, beta: seq<real>, j: nat)
    requires |y| > 0 && |beta| == |cols| && j < |cols|
    ensures Pairings(|y|, Residual(cols, y, beta), Family(cols))(j) / |y| as real
         == Correlation(cols, y, beta, j) - beta[j] * Scale(cols, |y|, j)
  {
    var r, r0, col := Residual(cols, y, beta), Residual(cols, y, beta[j := 0.0]), ColumnOf(cols, j);
    assert beta[j := beta[j]] == beta;
    forall i: int { ResidualAlong(cols, y, beta, j, beta[j], i); }
    DotLinearRight(|y|, col, r0, -beta[j], col, r);
    DotSymmetric(|y|, r, col);
    Divided(Dot(|y|, col, r), Dot(|y|, col, r0), Dot(|y|, col, col), beta[j], |y| as real);
  }

  lemma Divided(cr: real, c0: real, cc: real, b: real, n: real)
    requires n > 0.0 && cr == c0 + Mul(-b, cc)
    ensures cr / n == c0 / n - b * (cc / n)
  {
  }

  // ----- the optimum

  /** No coordinate step changes beta. */
  ghost predicate AtRest(cols: seq<seq<real>>, y: seq<real>, alpha: real, beta: seq<real>)
    requires |y| > 0
  {
    forall j | 0 <= j < |beta| :: Stepped(cols, y, alpha, beta, j) == beta
  }

  ghost predicate Optimal(cols: seq<seq<real>>, y: seq<real>, alpha: real, beta: seq<real>)
    requires |y| > 0
  {
    forall b: seq<real> | |b| == |beta| :: Objective(cols, y, alpha, beta) <= Objective(cols, y, alpha, b)
  }

  /** What the change to b costs in penalty, beyond what it gains in fit to first order, coordinate by coordinate. */
  function Costs(n: real, p: int -> real, q: int -> real, gain: int -> real): int -> real
    requires n != 0.0
  {
    j => q(j) - p(j) - gain(j) / n
  }

  lemma CostsSum(m: nat, n: real, p: int -> real, q: int -> real, gain: int -> real)
    requires n != 0.0
    ensures Sum(m, Costs(n, p, q, gain)) == Sum(m, q) - Sum(m, p) - Sum(m, gain) / n
  {
    var d := (j: int) => q(j) + Mul(-1.0, p(j));
    forall j: int
      ensures Costs(n, p, q, gain)(j) == d(j) + Mul(-1.0 / n, gain(j))
    {
      assert Mul(-1.0 / n, gain(j)) == -(gain(j) / n);
    }
    SumLinear(m, q, -1.0, p, d);
    SumLinear(m, d, -1.0 / n, gain, Costs(n, p, q, gain));
    assert Mul(-1.0 / n, Sum(m, gain)) == -(Sum(m, gain) / n);
  }

  lemma CostIsNonNegative(cols: seq<seq<real>>, y: seq<real>, alpha: real, beta: seq<real>, b: seq<real>, j: nat)
    requires alpha >= 0.0 && |y| > 0 && |beta| == |cols| == |b| && j < |cols| && Scale(cols, |y|, j) <= 1.0
    requires Stepped(cols, y, alpha, beta, j) == beta
    ensures var gain := Times(Change(beta, b), Pairings(|y|, Residual(cols, y, beta), Family(cols)));
            Costs(|y| as real, Penalties(cols, |y|, alpha, beta), Penalties(cols, |y|, alpha, b), gain)(j) >= 0.0
  {
    var rho, pairings := Correlation(cols, y, beta, j), Pairings(|y|, Residual(cols, y, beta), Family(cols));
    assert beta[j] == SoftThreshold(rho, alpha);
    assert Times(Change(beta, b), pairings)(j) == Mul(b[j] - beta[j], pairings(j));
    PairingIs(cols, y, beta, j);
    CostOf(|y| as real, rho, Scale(cols, |y|, j), alpha, b[j], pairings(j));
  }

  lemma CostOf(n: real, rho: real, scale: real, alpha: real, x: real, pairing: real)
    requires n > 0.0 && alpha >= 0.0 && scale <= 1.0 && pairing / n == rho - SoftThreshold(rho, alpha) * scale
    ensures var s := SoftThreshold(rho, alpha);
            PenaltyOf(scale, alpha, x) - PenaltyOf(scale, alpha, s) - Mul(x - s, pairing) / n >= 0.0
  {
    var s := SoftThreshold(rho, alpha);
    PenaltyOutweighs(rho, scale, alpha, x);
    assert Mul(x - s, pairing) / n == (x - s) * (pairing / n);
  }

  lemma RestIsOptimal(cols: seq<seq<real>>, y: seq<real>, alpha: real, beta: seq<real>, b: seq<real>)
    requires alpha >= 0.0 && |y| > 0 && |beta| == |cols| == |b| && AtRest(cols, y, alpha, beta)
    requires forall j | 0 <= j < |cols| :: Scale(cols, |y|, j) <= 1.0
    ensures Objective(cols, y, alpha, beta) <= Objective(cols, y, alpha, b)
  {
    var p, q := Penalties(cols, |y|, alpha, beta), Penalties(cols, |y|, alpha, b);
    var gain := Times(Change(beta, b), Pairings(|y|, Residual(cols, y, beta), Family(cols)));
    var costs := Costs(|y| as real, p, q, gain);
    forall j | 0 <= j < |cols|
      ensures costs(j) >= 0.0
    {
      CostIsNonNegative(cols, y, alpha, beta, b, j);
    }
    SumNonNegative(|cols|, costs);
    CostsSum(|cols|, |y| as real, p, q, gain);
    ErrorAboveTangent(cols, y, beta, b);
    var r, rb := Residual(cols, y, beta), Residual(cols, y, b);
    Outweighs(|y| as real, Dot(|y|, r, r), Dot(|y|, rb, rb), Sum(|cols|, gain), Sum(|cols|, p), Sum(|cols|, q));
  }

  lemma Outweighs(n: real, err: real, errB: real, gain: real, pens: real, pensB: real)
    requires n > 0.0 && errB >= err - 2.0 * gain && pensB - pens - gain / n >= 0.0
    ensures Assembled(n, err, pens) <= Assembled(n, errB, pensB)
  {
    assert errB / (2.0 * n) - err / (2.0 * n) + gain / n == (errB - err + 2.0 * gain) / (2.0 * n);
  }

  lemma OptimalIsRest(cols: seq<seq<real>>, y: seq<real>, alpha: real, beta: seq<real>, j: nat)
    requires alpha >= 0.0 && |y| > 0 && |beta| == |cols| && Optimal(cols, y, alpha, beta) && j < |beta|
    ensures Stepped(cols, y, alpha, beta, j) == beta
  {
    var rho := Correlation(cols, y, beta, j);
    var s := SoftThreshold(rho, alpha);
    assert beta[j := beta[j]] == beta;
    ObjectiveAlong(cols, y, alpha, beta, j, beta[j]);
    ObjectiveAlong(cols, y, alpha, beta, j, s);
    if beta[j] != s {
      OnlyMinimum(rho, alpha, beta[j]);
    }
  }

  /**
   When no column is larger than a standardised one, the coefficients no coordinate step changes are
   exactly those with the least objective of all.
   */
  lemma RestIffOptimal(cols: seq<seq<real>>, y: seq<real>, alpha: real, beta: seq<real>)
    requires alpha >= 0.0 && |y| > 0 && |beta| == |cols|
    requires forall j | 0 <= j < |cols| :: Scale(cols, |y|, j) <= 1.0
    ensures AtRest(cols, y, alpha, beta) <==> Optimal(cols, y, alpha, beta)
  {
    if AtRest(cols, y, alpha, beta) {
      forall b: seq<real> | |b| == |beta| { RestIsOptimal(cols, y, alpha, beta, b); }
    }
    if Optimal(cols, y, alpha, beta) {
      forall j: nat | j < |beta| { OptimalIsRest(cols, y, alpha, beta, j); }
    }
  }

  /** Later steps of a pass leave the coefficients of earlier ones alone. */
  lemma {:induction false} SweptKeeps(cols: seq<seq<real>>, y: seq<real>, alpha: real, beta: seq<real>, n: nat, m: nat, l: nat)
    requires |y| > 0 && l < n <= m <= |beta|
    ensures Swept(cols, y, alpha, beta, m)[l] == Swept(cols, y, alpha, beta, n)[l]
  {
    if n < m {
      SweptKeeps(cols, y, alpha, beta, n, m - 1, l);
    }
  }

  lemma {:induction false} RestSweeps(cols: seq<seq<real>>, y: seq<real>, alpha: real, beta: seq<real>, n: nat)
    requires |y| > 0 && n <= |beta| && AtRest(cols, y, alpha, beta)
    ensures Swept(cols, y, alpha, beta, n) == beta
  {
    if n > 0 {
      RestSweeps(cols, y, alpha, beta, n - 1);
    }
  }

  lemma SweepRests(cols: seq<seq<real>>, y: seq<real>, alpha: real, beta: seq<real>, n: nat)
    requires |y| > 0 && n <= |beta| && Swept(cols, y, alpha, beta, |beta|) == beta
    ensures Swept(cols, y, alpha, beta, n) == beta
  {
    forall l: nat | l < n { SweptKeeps(cols, y, alpha, beta, n, |beta|, l); }
  }

  /** A whole pass that changes nothing has found the optimum, and at the optimum no pass changes anything. */
  lemma SweepStopsIffOptimal(cols: seq<seq<real>>, y: seq<real>, alpha: real, beta: seq<real>)
    requires alpha >= 0.0 && |y| > 0 && |beta| == |cols|
    requires forall j | 0 <= j < |cols| :: Scale(cols, |y|, j) <= 1.0
    ensures Swept(cols, y, alpha, beta, |cols|) == beta <==> Optimal(cols, y, alpha, beta)
  {
    RestIffOptimal(cols, y, alpha, beta);
    if AtRest(cols, y, alpha, beta) {
      RestSweeps(cols, y, alpha, beta, |cols|);
    }
    if Swept(cols, y, alpha, beta, |cols|) == beta {
      forall j: nat | j < |beta|
        ensures Stepped(cols, y, alpha, beta, j) == beta
      {
        SweepRests(cols, y, alpha, beta, j);
        SweepRests(cols, y, alpha, beta, j + 1);
        SweptSucc(cols, y, alpha, beta, j);
      }
    }
  }

  // ----- the columns the descent is given

  const SMALLEST_DEVIATION := 0.0000000001

  /** What a column with standard deviation sd is divided by. */
  function Divisor(sd: real): (r: real)
    ensures r > 0.0
  {
    if sd < SMALLEST_DEVIATION then 1.0 else sd
  }

  /** Columns centred and divided by their sample standard deviation meet the condition. */
  lemma StandardisedIsSmall(cols: seq<seq<real>>, n: nat, j: nat, centred: int -> real, sd: real)
    requires n > 0 && sd >= 0.0 && Dot(n, centred, centred) == Mul(sd * sd, (n - 1) as real)
    requires forall i | 0 <= i < n :: ColumnOf(cols, j)(i) == Mul(1.0 / Divisor(sd), centred(i))
    ensures Scale(cols, n, j) <= 1.0
  {
    var k, col := 1.0 / Divisor(sd), ColumnOf(cols, j);
    DotScale(n, k, centred, col, col);
    DotScaleRight(n, k, centred, centred, col);
    Shrinks(k, sd, (n - 1) as real);
    assert Dot(n, col, col) <= (n - 1) as real;
    Ratio(Dot(n, col, col), n as real);
  }

  lemma Shrinks(k: real, sd: real, m: real)
    requires sd >= 0.0 && m >= 0.0 && k == 1.0 / Divisor(sd)
    ensures Mul(k, Mul(k, Mul(sd * sd, m))) <= m
  {
    var q := k * sd;
    if sd < SMALLEST_DEVIATION {
      assert q == sd;
    } else {
      assert q == 1.0;
    }
    Weighted(1.0 - q, 1.0 + q);
    assert k * (k * (sd * sd * m)) == q * q * m;
    Weighted(1.0 - q * q, m);
  }

  lemma Ratio(x: real, n: real)
    requires n > 0.0 && x <= n
    ensures x / n <= 1.0
  {
  }
}
