/**
 Coordinate descent for the Lasso, over the reals: what one coordinate step minimises, and the
 objective every step brings down.
 */
module Lasso {
  import opened Sums

  // ----- soft thresholding

  function SoftThreshold(x: real, lambda: real): real {
    if x > lambda then x - lambda else if x < -lambda then x + lambda else 0.0
  }

  /** What one coordinate contributes to the objective, up to a constant. */
  function OneCoordinate(rho: real, alpha: real, b: real): real {
    b * b / 2.0 - rho * b + alpha * Abs(b)
  }

  lemma SquareIsNonNegative(x: real)
    ensures x * x >= 0.0
  {
  }

  /** Completing the square around b0. */
  lemma AroundVertex(c: real, b: real)
    ensures b * b / 2.0 - c * b == (b - c) * (b - c) / 2.0 - c * c / 2.0
  {
  }

  lemma Minimises(rho: real, alpha: real, b: real)
    requires alpha >= 0.0
    ensures OneCoordinate(rho, alpha, SoftThreshold(rho, alpha)) <= OneCoordinate(rho, alpha, b)
  {
    var c := if b >= 0.0 then rho - alpha else rho + alpha;
    AroundVertex(c, b);
    SquareIsNonNegative(b - c);
  }

  /** The threshold minimises exactly when alpha is not negative, or the correlation does not lie strictly between alpha and 0. */
  lemma MinimisesIff(rho: real, alpha: real)
    ensures (forall b: real :: OneCoordinate(rho, alpha, SoftThreshold(rho, alpha)) <= OneCoordinate(rho, alpha, b))
       <==> alpha >= 0.0 || rho >= 0.0 || rho <= alpha
  {
    if alpha >= 0.0 || rho >= 0.0 || rho <= alpha {
      forall b: real
        ensures OneCoordinate(rho, alpha, SoftThreshold(rho, alpha)) <= OneCoordinate(rho, alpha, b)
      {
        if alpha >= 0.0 { Minimises(rho, alpha, b); } else { MinimisesBelowZero(rho, alpha, b); }
      }
    } else {
      OtherSideIsLower(rho, alpha);
    }
  }

  /** At the vertex of either branch the parabola is at minus half its square. */
  lemma AtVertex(rho: real, alpha: real, b: real)
    requires (b >= 0.0 && b == rho - alpha) || (b <= 0.0 && b == rho + alpha)
    ensures OneCoordinate(rho, alpha, b) == -(b * b) / 2.0
  {
    AroundVertex(b, b);
    if b >= 0.0 {
      assert rho * b - alpha * b == b * b;
    } else {
      assert rho * b + alpha * b == b * b;
    }
  }

  /** Everywhere else it is above that. */
  lemma AboveVertex(rho: real, alpha: real, b: real, c: real)
    requires c == if b >= 0.0 then rho - alpha else rho + alpha
    ensures OneCoordinate(rho, alpha, b) >= -(c * c) / 2.0
  {
    AroundVertex(c, b);
    SquareIsNonNegative(b - c);
    assert c * b == if b >= 0.0 then rho * b - alpha * b else rho * b + alpha * b;
  }

  /** The two vertices compare as the correlation and the threshold have equal or opposite signs. */
  lemma VerticesDiffer(rho: real, alpha: real, high: real, low: real)
    requires high == rho - alpha && low == rho + alpha
    ensures high * high - low * low == -4.0 * (rho * alpha)
    ensures rho >= 0.0 && alpha <= 0.0 ==> rho * alpha <= 0.0
    ensures rho < 0.0 && alpha < 0.0 ==> rho * alpha > 0.0
  {
  }

  lemma MinimisesBelowZero(rho: real, alpha: real, b: real)
    requires alpha < 0.0 && (rho >= 0.0 || rho <= alpha)
    ensures OneCoordinate(rho, alpha, SoftThreshold(rho, alpha)) <= OneCoordinate(rho, alpha, b)
  {
    var s := SoftThreshold(rho, alpha);
    assert s == if rho >= 0.0 then rho - alpha else rho + alpha;
    AtVertex(rho, alpha, s);
    AboveVertex(rho, alpha, b, if b >= 0.0 then rho - alpha else rho + alpha);
    VerticesDiffer(rho, alpha, rho - alpha, rho + alpha);
  }

  lemma OtherSideIsLower(rho: real, alpha: real)
    requires alpha < rho < 0.0
    ensures OneCoordinate(rho, alpha, rho + alpha) < OneCoordinate(rho, alpha, SoftThreshold(rho, alpha))
  {
    var low, high := rho + alpha, rho - alpha;
    assert SoftThreshold(rho, alpha) == high;
    AtVertex(rho, alpha, low);
    AtVertex(rho, alpha, high);
    VerticesDiffer(rho, alpha, high, low);
    assert high * high < low * low;
  }

  // ----- the objective

  /** Row i of the design matrix, given by columns. */
  function RowOf(cols: seq<seq<real>>, i: int): int -> real {
    j => if 0 <= j < |cols| then At(cols[j], i) else 0.0
  }

  /** What the coefficients leave unexplained. */
  function Residual(cols: seq<seq<real>>, y: seq<real>, beta: seq<real>): int -> real {
    i => At(y, i) - Dot(|cols|, Entries(beta), RowOf(cols, i))
  }

  function ColumnOf(cols: seq<seq<real>>, j: int): int -> real {
    i => if 0 <= j < |cols| then At(cols[j], i) else 0.0
  }

  /** The mean square of a column: 1 when it is standardised by n. */
  function Scale(cols: seq<seq<real>>, n: nat, j: int): real
    requires n > 0
  {
    Dot(n, ColumnOf(cols, j), ColumnOf(cols, j)) / n as real
  }

  /** The penalty on a coefficient x whose column has the given scale. */
  function PenaltyOf(scale: real, alpha: real, x: real): real {
    (1.0 - scale) * (x * x) / 2.0 + alpha * Abs(x)
  }

  /** The penalty on coefficient x of column j. */
  function Penalty(cols: seq<seq<real>>, n: nat, alpha: real, j: int, x: real): real
    requires n > 0
  {
    PenaltyOf(Scale(cols, n, j), alpha, x)
  }

  function Penalties(cols: seq<seq<real>>, n: nat, alpha: real, beta: seq<real>): int -> real
    requires n > 0
  {
    j => Penalty(cols, n, alpha, j, At(beta, j))
  }

  function Assembled(n: real, squaredError: real, penalties: real): real
    requires n != 0.0
  {
    squaredError / (2.0 * n) + penalties
  }

  /** Squared error with an L1 penalty, and an L2 penalty for columns not of unit scale. */
  function Objective(cols: seq<seq<real>>, y: seq<real>, alpha: real, beta: seq<real>): real
    requires |y| > 0
  {
    var r := Residual(cols, y, beta);
    Assembled(|y| as real, Dot(|y|, r, r), Sum(|cols|, Penalties(cols, |y|, alpha, beta)))
  }

  /** The correlation of column j with what the other coefficients leave unexplained. */
  function Correlation(cols: seq<seq<real>>, y: seq<real>, beta: seq<real>, j: nat): real
    requires |y| > 0 && j < |beta|
  {
    Dot(|y|, ColumnOf(cols, j), Residual(cols, y, beta[j := 0.0])) / |y| as real
  }

  /** Changing one coefficient moves the residual along its column. */
  lemma ResidualAlong(cols: seq<seq<real>>, y: seq<real>, beta: seq<real>, j: nat, b: real, i: int)
    requires |beta| == |cols| && j < |beta|
    ensures Residual(cols, y, beta[j := b])(i) == Residual(cols, y, beta[j := 0.0])(i) + Mul(-b, ColumnOf(cols, j)(i))
  {
    var u, w, v := Entries(beta[j := 0.0]), Entries(beta[j := b]), RowOf(cols, i);
    DotUpdate(|cols|, u, w, v, j);
    assert u(j) == At(beta[j := 0.0], j) == 0.0 && w(j) == At(beta[j := b], j) == b;
  }

  lemma PenaltyAlong(cols: seq<seq<real>>, n: nat, alpha: real, beta: seq<real>, j: nat, b: real)
    requires n > 0 && |beta| == |cols| && j < |beta|
    ensures Sum(|cols|, Penalties(cols, n, alpha, beta[j := b]))
         == Sum(|cols|, Penalties(cols, n, alpha, beta[j := 0.0])) + Penalty(cols, n, alpha, j, b)
  {
    var f, g := Penalties(cols, n, alpha, beta[j := 0.0]), Penalties(cols, n, alpha, beta[j := b]);
    forall i | 0 <= i < |cols| && i != j
      ensures f(i) == g(i)
    {
      assert At(beta[j := 0.0], i) == At(beta[j := b], i);
    }
    SumUpdate(|cols|, f, g, j);
    assert f(j) == Penalty(cols, n, alpha, j, At(beta[j := 0.0], j));
    assert g(j) == Penalty(cols, n, alpha, j, At(beta[j := b], j));
  }

  /** The arithmetic that puts the pieces together: e, q, s are the error, the cross term and the scale, times n. */
  lemma Combine(n: real, e: real, q: real, s: real, alpha: real, b: real)
    requires n > 0.0
    ensures (e + 2.0 * -b * q + -b * -b * s) / (2.0 * n) + ((1.0 - s / n) * (b * b) / 2.0 + alpha * Abs(b))
         == e / (2.0 * n) + OneCoordinate(q / n, alpha, b)
  {
    calc {
      (e + 2.0 * -b * q + -b * -b * s) / (2.0 * n);
      e / (2.0 * n) - b * q / n + b * b * s / (2.0 * n);
      e / (2.0 * n) - q / n * b + s / n * (b * b) / 2.0;
    }
  }

  lemma ErrorAlong(cols: seq<seq<real>>, y: seq<real>, beta: seq<real>, j: nat, b: real)
    requires |beta| == |cols| && j < |beta|
    ensures var r0, rb, col := Residual(cols, y, beta[j := 0.0]), Residual(cols, y, beta[j := b]), ColumnOf(cols, j);
            Dot(|y|, rb, rb) == Dot(|y|, r0, r0) + 2.0 * -b * Dot(|y|, col, r0) + -b * -b * Dot(|y|, col, col)
  {
    var r0, rb, col := Residual(cols, y, beta[j := 0.0]), Residual(cols, y, beta[j := b]), ColumnOf(cols, j);
    forall i: int { ResidualAlong(cols, y, beta, j, b, i); }
    SquareOfSum(|y|, r0, -b, col, rb);
    DotSymmetric(|y|, r0, col);
  }

  /** Along coordinate j the objective is a constant plus what soft thresholding minimises. */
  lemma ObjectiveAlong(cols: seq<seq<real>>, y: seq<real>, alpha: real, beta: seq<real>, j: nat, b: real)
    requires |y| > 0 && |beta| == |cols| && j < |beta|
    ensures Objective(cols, y, alpha, beta[j := b])
         == Objective(cols, y, alpha, beta[j := 0.0]) + OneCoordinate(Correlation(cols, y, beta, j), alpha, b)
  {
    var r0, rb, col := Residual(cols, y, beta[j := 0.0]), Residual(cols, y, beta[j := b]), ColumnOf(cols, j);
    var err, cross, scale := Dot(|y|, r0, r0), Dot(|y|, col, r0), Dot(|y|, col, col);
    ErrorAlong(cols, y, beta, j, b);
    PenaltyAlong(cols, |y|, alpha, beta, j, b);
    Assemble(|y| as real, err, cross, scale, alpha, b, Dot(|y|, rb, rb),
             Sum(|cols|, Penalties(cols, |y|, alpha, beta[j := 0.0])));
  }

  lemma Assemble(n: real, err: real, cross: real, scale: real, alpha: real, b: real, errAt: real, pens: real)
    requires n > 0.0 && errAt == err + 2.0 * -b * cross + -b * -b * scale
    ensures Assembled(n, errAt, pens + PenaltyOf(scale / n, alpha, b))
         == Assembled(n, err, pens) + OneCoordinate(cross / n, alpha, b)
  {
    Combine(n, err, cross, scale, alpha, b);
  }

  /** The coefficients after one step on coordinate j. */
  ghost function Stepped(cols: seq<seq<real>>, y: seq<real>, alpha: real, beta: seq<real>, j: nat): (r: seq<real>)
    requires |y| > 0 && j < |beta|
    ensures |r| == |beta| && forall l | 0 <= l < |r| && l != j :: r[l] == beta[l]
  {
    beta[j := SoftThreshold(Correlation(cols, y, beta, j), alpha)]
  }

  /** A coordinate step reaches the least objective any value of that coefficient can, so it never raises it. */
  lemma StepDescends(cols: seq<seq<real>>, y: seq<real>, alpha: real, beta: seq<real>, j: nat, x: real)
    requires alpha >= 0.0 && |y| > 0 && |beta| == |cols| && j < |beta|
    ensures Objective(cols, y, alpha, Stepped(cols, y, alpha, beta, j)) <= Objective(cols, y, alpha, beta[j := x])
  {
    var rho := Correlation(cols, y, beta, j);
    ObjectiveAlong(cols, y, alpha, beta, j, SoftThreshold(rho, alpha));
    ObjectiveAlong(cols, y, alpha, beta, j, x);
    Minimises(rho, alpha, x);
  }

  // ----- the loop

  const MAX_ITERATIONS := 1000
  const TOLERANCE := 0.000001

  /** res is the residual of beta. */
  ghost predicate Matches(cols: seq<seq<real>>, y: seq<real>, beta: seq<real>, res: seq<real>) {
    |res| == |y| && forall i | 0 <= i < |y| :: res[i] == Residual(cols, y, beta)(i)
  }

  predicate Rectangular(cols: seq<seq<real>>, y: seq<real>) {
    |y| > 0 && forall j | 0 <= j < |cols| :: |cols[j]| == |y|
  }

  /** after is before + k * col. */
  predicate Moved(before: seq<real>, k: real, col: seq<real>, after: seq<real>) {
    |before| == |col| == |after| && forall i | 0 <= i < |col| :: after[i] == before[i] + Mul(k, col[i])
  }

  /** dst += k * src */
  method AddScaled(dst: array<real>, k: real, src: seq<real>)
    requires dst.Length == |src|
    modifies dst
    ensures Moved(old(dst[..]), k, src, dst[..])
  {
    var i := 0;
    while i < |src|
      invariant 0 <= i <= |src|
      invariant forall l | 0 <= l < i :: dst[l] == old(dst[l]) + Mul(k, src[l])
      invariant forall l | i <= l < |src| :: dst[l] == old(dst[l])
    {
      assert Mul(k, src[i]) == k * src[i];
      dst[i] := dst[i] + k * src[i];
      i := i + 1;
    }
  }

  method DotProduct(a: seq<real>, b: seq<real>) returns (sum: real)
    requires |a| == |b|
    ensures sum == Dot(|a|, Entries(a), Entries(b))
  {
    sum := 0.0;
    var i := 0;
    while i < |a|
      invariant 0 <= i <= |a| && sum == Dot(i, Entries(a), Entries(b))
    {
      DotSucc(i, Entries(a), Entries(b));
      assert Entries(a)(i) == At(a, i) && Entries(b)(i) == At(b, i);
      sum := sum + a[i] * b[i];
      i := i + 1;
    }
  }

  /** Adding a column back gives the residual without its coefficient; taking it out again, that of the new one. */
  lemma AddColumn(cols: seq<seq<real>>, y: seq<real>, beta: seq<real>, j: nat, k: real, before: seq<real>, after: seq<real>)
    requires Rectangular(cols, y) && |beta| == |cols| && j < |cols| && Moved(before, k, cols[j], after)
    ensures k == beta[j] && Matches(cols, y, beta, before) ==> Matches(cols, y, beta[j := 0.0], after)
    ensures Matches(cols, y, beta[j := 0.0], before) ==> Matches(cols, y, beta[j := -k], after)
  {
    forall i | 0 <= i < |y|
      ensures k == beta[j] && Matches(cols, y, beta, before) ==> after[i] == Residual(cols, y, beta[j := 0.0])(i)
      ensures Matches(cols, y, beta[j := 0.0], before) ==> after[i] == Residual(cols, y, beta[j := -k])(i)
    {
      ResidualAlong(cols, y, beta, j, beta[j], i);
      ResidualAlong(cols, y, beta, j, -k, i);
      assert beta[j := beta[j]] == beta;
      assert ColumnOf(cols, j)(i) == At(cols[j], i) == cols[j][i];
    }
  }

  lemma CorrelationOf(cols: seq<seq<real>>, y: seq<real>, beta: seq<real>, j: nat, res: seq<real>)
    requires Rectangular(cols, y) && j < |beta| && j < |cols| && Matches(cols, y, beta[j := 0.0], res)
    ensures Dot(|y|, Entries(cols[j]), Entries(res)) / |y| as real == Correlation(cols, y, beta, j)
  {
    forall i | 0 <= i < |y|
      ensures Entries(res)(i) == Residual(cols, y, beta[j := 0.0])(i)
    {
      assert Entries(res)(i) == At(res, i);
    }
    DotCongruence(|y|, Entries(cols[j]), Entries(res), ColumnOf(cols, j), Residual(cols, y, beta[j := 0.0]));
  }

  /** One coordinate step: the coefficient becomes the soft-thresholded correlation, the residual follows. */
  method UpdateCoordinate(cols: seq<seq<real>>, y: seq<real>, alpha: real, beta: array<real>, residual: array<real>, j: nat)
    returns (change: real)
    requires Rectangular(cols, y) && beta.Length == |cols| && j < |cols| && beta != residual
    requires residual.Length == |y| && Matches(cols, y, beta[..], residual[..])
    modifies beta, residual
    ensures beta[..] == Stepped(cols, y, alpha, old(beta[..]), j)
    ensures Matches(cols, y, beta[..], residual[..])
    ensures change == Abs(beta[j] - old(beta[j]))
  {
    var col := cols[j];
    ghost var was, r0 := beta[..], residual[..];
    AddScaled(residual, beta[j], col);
    ghost var r1 := residual[..];
    AddColumn(cols, y, was, j, was[j], r0, r1);
    var sum := DotProduct(col, residual[..]);
    var rho := sum / |y| as real;
    CorrelationOf(cols, y, was, j, r1);
    var oldBeta := beta[j];
    beta[j] := SoftThreshold(rho, alpha);
    AddScaled(residual, -beta[j], col);
    AddColumn(cols, y, was, j, -beta[j], r1, residual[..]);
    change := Abs(beta[j] - oldBeta);
  }

  /** No more than the objective at the start. */
  ghost predicate Descended(cols: seq<seq<real>>, y: seq<real>, alpha: real, start: seq<real>, beta: seq<real>)
    requires |y| > 0
  {
    alpha >= 0.0 ==> Objective(cols, y, alpha, beta) <= Objective(cols, y, alpha, start)
  }

  /** The coefficients after steps on the first n coordinates in turn. */
  ghost function Swept(cols: seq<seq<real>>, y: seq<real>, alpha: real, beta: seq<real>, n: nat): (r: seq<real>)
    requires |y| > 0 && n <= |beta|
    ensures |r| == |beta| && forall l | n <= l < |r| :: r[l] == beta[l]
  {
    if n == 0 then beta else Stepped(cols, y, alpha, Swept(cols, y, alpha, beta, n - 1), n - 1)
  }

  lemma SweptSucc(cols: seq<seq<real>>, y: seq<real>, alpha: real, beta: seq<real>, n: nat)
    requires |y| > 0 && n < |beta|
    ensures Swept(cols, y, alpha, beta, n + 1) == Stepped(cols, y, alpha, Swept(cols, y, alpha, beta, n), n)
  {
  }

  /** The coefficients after k passes from zero. */
  ghost function Iterated(cols: seq<seq<real>>, y: seq<real>, alpha: real, k: nat): (r: seq<real>)
    requires |y| > 0
    ensures |r| == |cols|
  {
    if k == 0 then seq(|cols|, i => 0.0)
    else Swept(cols, y, alpha, Iterated(cols, y, alpha, k - 1), |cols|)
  }

  /** Two coefficient vectors less than the tolerance apart. */
  ghost predicate Close(a: seq<real>, b: seq<real>, bound: real) {
    |a| == |b| && forall j | 0 <= j < |a| :: Abs(a[j] - b[j]) < bound
  }

  lemma DescendsFurther(cols: seq<seq<real>>, y: seq<real>, alpha: real, start: seq<real>, beta: seq<real>, j: nat)
    requires |y| > 0 && |beta| == |cols| && j < |beta| && Descended(cols, y, alpha, start, beta)
    ensures Descended(cols, y, alpha, start, Stepped(cols, y, alpha, beta, j))
  {
    if alpha >= 0.0 {
      StepDescends(cols, y, alpha, beta, j, beta[j]);
      assert beta[j := beta[j]] == beta;
    }
  }

  /** m is the largest change from a to b among the first n coefficients, 0 if there is none. */
  ghost predicate LargestChange(a: seq<real>, b: seq<real>, n: nat, m: real) {
    && |a| == |b| >= n
    && (forall l | 0 <= l < n :: Abs(b[l] - a[l]) <= m)
    && (m == 0.0 || exists l :: 0 <= l < n && Abs(b[l] - a[l]) == m)
  }

  lemma LargestSoFar(a: seq<real>, b: seq<real>, n: nat, m: real, next: seq<real>)
    requires LargestChange(a, b, n, m) && n < |a| && |next| == |b| && forall l | 0 <= l < n :: next[l] == b[l]
    ensures var change := Abs(next[n] - a[n]);
            LargestChange(a, next, n + 1, if change > m then change else m)
  {
    var change := Abs(next[n] - a[n]);
    if change <= m && m != 0.0 {
      var l :| 0 <= l < n && Abs(b[l] - a[l]) == m;
      assert Abs(next[l] - a[l]) == m;
    }
  }

  lemma LargestIsClose(a: seq<real>, b: seq<real>, m: real)
    requires LargestChange(a, b, |a|, m)
    ensures m < TOLERANCE <==> Close(b, a, TOLERANCE)
  {
    if m != 0.0 {
      var l :| 0 <= l < |a| && Abs(b[l] - a[l]) == m;
    }
  }

  /** What holds of the coefficients while a pass from start is about to take coordinate j. */
  ghost predicate Passing(cols: seq<seq<real>>, y: seq<real>, alpha: real, start: seq<real>, beta: seq<real>, j: nat, m: real)
    requires |y| > 0
  {
    && |start| == |cols| >= j && beta == Swept(cols, y, alpha, start, j)
    && Descended(cols, y, alpha, start, beta) && LargestChange(start, beta, j, m)
  }

  lemma PassesOn(cols: seq<seq<real>>, y: seq<real>, alpha: real, start: seq<real>, beta: seq<real>, j: nat, m: real)
    requires |y| > 0 && j < |cols| && Passing(cols, y, alpha, start, beta, j, m)
    ensures var next := Stepped(cols, y, alpha, beta, j);
            var change := Abs(next[j] - beta[j]);
            Passing(cols, y, alpha, start, next, j + 1, if change > m then change else m)
  {
    SweptSucc(cols, y, alpha, start, j);
    DescendsFurther(cols, y, alpha, start, beta, j);
    LargestSoFar(start, beta, j, m, Stepped(cols, y, alpha, beta, j));
    assert beta[j] == start[j];
  }

  /** One pass over all coordinates, keeping the largest change. */
  method Sweep(cols: seq<seq<real>>, y: seq<real>, alpha: real, beta: array<real>, residual: array<real>)
    returns (maxChange: real)
    requires Rectangular(cols, y) && beta.Length == |cols| && beta != residual
    requires residual.Length == |y| && Matches(cols, y, beta[..], residual[..])
    modifies beta, residual
    ensures Matches(cols, y, beta[..], residual[..])
    ensures beta[..] == Swept(cols, y, alpha, old(beta[..]), |cols|)
    ensures Descended(cols, y, alpha, old(beta[..]), beta[..])
    ensures maxChange < TOLERANCE <==> Close(beta[..], old(beta[..]), TOLERANCE)
  {
    maxChange := 0.0;
    ghost var start := beta[..];
    var j := 0;
    while j < |cols|
      invariant 0 <= j <= |cols| && Matches(cols, y, beta[..], residual[..])
      invariant Passing(cols, y, alpha, start, beta[..], j, maxChange)
    {
      PassesOn(cols, y, alpha, start, beta[..], j, maxChange);
      var change := UpdateCoordinate(cols, y, alpha, beta, residual, j);
      if change > maxChange {
        maxChange := change;
      }
      j := j + 1;
    }
    LargestIsClose(start, beta[..], maxChange);
  }

  lemma StartMatches(cols: seq<seq<real>>, y: seq<real>)
    requires Rectangular(cols, y)
    ensures Matches(cols, y, seq(|cols|, i => 0.0), y)
  {
    var start := seq(|cols|, i => 0.0);
    forall i | 0 <= i < |y|
      ensures y[i] == Residual(cols, y, start)(i)
    {
      forall j | 0 <= j < |cols|
        ensures Entries(start)(j) == 0.0
      {
        assert Entries(start)(j) == At(start, j);
      }
      DotZero(|cols|, Entries(start), RowOf(cols, i));
      assert Residual(cols, y, start)(i) == At(y, i) - Dot(|cols|, Entries(start), RowOf(cols, i));
    }
  }

  /** Pass k moved no coefficient by the tolerance or more. */
  ghost predicate Settled(cols: seq<seq<real>>, y: seq<real>, alpha: real, k: nat)
    requires |y| > 0
  {
    k > 0 && Close(Iterated(cols, y, alpha, k), Iterated(cols, y, alpha, k - 1), TOLERANCE)
  }

  /** beta is where k passes lead, and its objective is no higher than at the start. */
  ghost predicate After(cols: seq<seq<real>>, y: seq<real>, alpha: real, k: nat, beta: seq<real>)
    requires |y| > 0
  {
    beta == Iterated(cols, y, alpha, k) && Descended(cols, y, alpha, Iterated(cols, y, alpha, 0), beta)
  }

  lemma IteratesOn(cols: seq<seq<real>>, y: seq<real>, alpha: real, k: nat, beta: seq<real>, next: seq<real>)
    requires |y| > 0 && After(cols, y, alpha, k, beta)
    requires next == Swept(cols, y, alpha, beta, |cols|) && Descended(cols, y, alpha, beta, next)
    ensures After(cols, y, alpha, k + 1, next)
    ensures Settled(cols, y, alpha, k + 1) <==> Close(next, beta, TOLERANCE)
  {
  }

  /** The arrays the descent starts from. */
  method Begin(cols: seq<seq<real>>, y: seq<real>, alpha: real) returns (beta: array<real>, residual: array<real>)
    requires Rectangular(cols, y)
    ensures fresh(beta) && fresh(residual) && beta != residual
    ensures beta.Length == |cols| && residual.Length == |y|
    ensures After(cols, y, alpha, 0, beta[..]) && Matches(cols, y, beta[..], residual[..])
  {
    beta := new real[|cols|](i => 0.0);
    residual := new real[|y|](i requires 0 <= i < |y| => y[i]);
    assert beta[..] == seq(|cols|, i => 0.0) && residual[..] == y;
    StartMatches(cols, y);
  }

  /**
   Coordinate descent from zero: the first pass that moves every coefficient by less than the
   tolerance is the last, and the thousandth at the latest. The residual fits, and the objective
   has only gone down.
   */
  method Descend(cols: seq<seq<real>>, y: seq<real>, alpha: real)
    returns (beta: array<real>, residual: array<real>, ghost passes: nat)
    requires Rectangular(cols, y)
    ensures After(cols, y, alpha, passes, beta[..]) && Matches(cols, y, beta[..], residual[..])
    ensures forall k | 0 <= k < passes :: !Settled(cols, y, alpha, k)
    ensures passes == MAX_ITERATIONS || (passes < MAX_ITERATIONS && Settled(cols, y, alpha, passes))
  {
    beta, residual := Begin(cols, y, alpha);
    passes := 0;
    var iter := 0;
    while iter < MAX_ITERATIONS
      invariant 0 <= iter <= MAX_ITERATIONS && passes == iter
      invariant After(cols, y, alpha, passes, beta[..]) && Matches(cols, y, beta[..], residual[..])
      invariant forall k | 0 <= k <= passes :: !Settled(cols, y, alpha, k)
      modifies beta, residual
    {
      ghost var was := beta[..];
      var maxChange := Sweep(cols, y, alpha, beta, residual);
      IteratesOn(cols, y, alpha, passes, was, beta[..]);
      passes := passes + 1;
      if maxChange < TOLERANCE {
        break;
      }
      iter := iter + 1;
    }
  }
}
