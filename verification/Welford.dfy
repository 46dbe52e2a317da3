/** Welford's running mean and variance of observed vectors, and the normalisation built on them. */
module Welford {
  import opened Sums

  const EPSILON := 0.00000001

  // ----- one component: a sequence of reals, its mean and its spread

  function SquaresFrom(s: seq<real>, c: real): int -> real {
    i => Mul(At(s, i) - c, At(s, i) - c)
  }

  /** The sum of squared deviations of s from c. */
  function Spread(s: seq<real>, c: real): real {
    Sum(|s|, SquaresFrom(s, c))
  }

  /** m is the mean of s, and q its sum of squared deviations; with nothing observed any m will do. */
  ghost predicate Tracks(s: seq<real>, m: real, q: real) {
    Mul(|s| as real, m) == Sum(|s|, Entries(s)) && q == Spread(s, m)
  }

  /** The spread about c of n values that add up to t and whose squares add up to p. */
  function Expanded(n: real, t: real, p: real, c: real): real {
    p - 2.0 * c * t + n * (c * c)
  }

  lemma ExpandedStep(n: real, t: real, p: real, c: real, x: real)
    ensures Expanded(n + 1.0, t + x, p + Mul(x, x), c) == Expanded(n, t, p, c) + Mul(x - c, x - c)
  {
    assert Mul(x - c, x - c) == x * x - 2.0 * c * x + c * c;
    assert 2.0 * c * (t + x) == 2.0 * c * t + 2.0 * c * x;
  }

  lemma {:induction false} SpreadExpands(n: nat, s: seq<real>, c: real)
    ensures Sum(n, SquaresFrom(s, c)) == Expanded(n as real, Sum(n, Entries(s)), Sum(n, SquaresFrom(s, 0.0)), c)
  {
    if n == 0 {
      assert Expanded(0.0, 0.0, 0.0, c) == 0.0;
    } else {
      SpreadExpands(n - 1, s, c);
      var x := At(s, n - 1);
      assert SquaresFrom(s, c)(n - 1) == Mul(x - c, x - c);
      assert SquaresFrom(s, 0.0)(n - 1) == Mul(x, x);
      assert Entries(s)(n - 1) == x;
      ExpandedStep((n - 1) as real, Sum(n - 1, Entries(s)), Sum(n - 1, SquaresFrom(s, 0.0)), c, x);
    }
  }

  lemma SumsExtend(s: seq<real>, x: real)
    ensures Sum(|s| + 1, Entries(s + [x])) == Sum(|s|, Entries(s)) + x
    ensures Sum(|s| + 1, SquaresFrom(s + [x], 0.0)) == Sum(|s|, SquaresFrom(s, 0.0)) + Mul(x, x)
  {
    forall i | 0 <= i < |s|
      ensures Entries(s + [x])(i) == Entries(s)(i)
      ensures SquaresFrom(s + [x], 0.0)(i) == SquaresFrom(s, 0.0)(i)
    {
      assert At(s + [x], i) == At(s, i);
    }
    SumCongruence(|s|, Entries(s + [x]), Entries(s));
    SumCongruence(|s|, SquaresFrom(s + [x], 0.0), SquaresFrom(s, 0.0));
    assert SquaresFrom(s + [x], 0.0)(|s|) == Mul(x, x);
  }

  function NextMean(n: real, m: real, x: real): real
    requires n != 0.0
  {
    m + (x - m) / n
  }

  /** The algebra of one update: n is the new count, t and p the old sums of values and squares. */
  lemma UpdateAlgebra(n: real, m: real, x: real, t: real, p: real)
    requires n > 0.0 && Mul(n - 1.0, m) == t
    ensures var m' := NextMean(n, m, x);
            && Mul(n, m') == t + x
            && Expanded(n - 1.0, t, p, m) + Mul(x - m, x - m') == Expanded(n, t + x, p + Mul(x, x), m')
  {
    var d := (x - m) / n;
    var m' := m + d;
    assert n * d == x - m;
    assert n * m' == t + x;
    assert n * (m' * m') == m' * (t + x);
    assert (n - 1.0) * (m * m) == m * t;
    calc {
      m' * (t + x);
      (m + d) * (t + x);
      m * t + m * x + d * (n * m + n * d);
      m * t + m * x + n * d * m + n * d * d;
      m * t + m * x + (x - m) * m + (x - m) * d;
    }
    assert (x - m) * (x - m') == (x - m) * (x - m) - (x - m) * d;
  }

  /** Welford's step keeps the exact mean and the exact sum of squared deviations. */
  lemma StepTracks(s: seq<real>, m: real, q: real, x: real)
    requires Tracks(s, m, q)
    ensures var m' := NextMean((|s| + 1) as real, m, x);
            Tracks(s + [x], m', q + Mul(x - m, x - m'))
  {
    var n := (|s| + 1) as real;
    SumsExtend(s, x);
    SpreadExpands(|s|, s, m);
    SpreadExpands(|s| + 1, s + [x], NextMean(n, m, x));
    UpdateAlgebra(n, m, x, Sum(|s|, Entries(s)), Sum(|s|, SquaresFrom(s, 0.0)));
  }

  /** What is tracked is the arithmetic mean, and the value under the square root is not negative. */
  lemma TracksMean(s: seq<real>, m: real, q: real)
    requires Tracks(s, m, q)
    ensures |s| > 0 ==> m == Mean(s)
    ensures q >= 0.0
  {
    forall i | 0 <= i < |s|
      ensures SquaresFrom(s, m)(i) >= 0.0
    {
      var d := At(s, i) - m;
      assert SquaresFrom(s, m)(i) == Mul(d, d) == d * d;
    }
    SumNonNegative(|s|, SquaresFrom(s, m));
  }

  // ----- normalising

  ghost predicate IsSquareRoot(sqrt: real -> real) {
    forall v: real | v >= 0.0 :: sqrt(v) >= 0.0 && sqrt(v) * sqrt(v) == v
  }

  function Scaled(s: seq<real>, m: real, d: real): seq<real>
    requires d != 0.0
  {
    seq(|s|, i requires 0 <= i < |s| => (s[i] - m) / d)
  }

  function Centred(s: seq<real>, m: real): int -> real {
    i => At(s, i) - m
  }

  /** Deviations from the mean cancel out. */
  lemma CentredSum(s: seq<real>, m: real)
    requires Mul(|s| as real, m) == Sum(|s|, Entries(s))
    ensures Sum(|s|, Centred(s, m)) == 0.0
  {
    var one := (i: int) => 1.0;
    SumOnes(|s|, one);
    SumLinear(|s|, Entries(s), -m, one, Centred(s, m));
  }

  /** z stretched by d is s relative to m. */
  ghost predicate Stretches(z: seq<real>, d: real, s: seq<real>, m: real) {
    |z| == |s| && forall i | 0 <= i < |s| :: s[i] - m == Mul(d, z[i])
  }

  lemma ScaledStretches(s: seq<real>, m: real, d: real)
    requires d > 0.0
    ensures Stretches(Scaled(s, m, d), d, s, m)
  {
  }

  lemma ScaledSum(s: seq<real>, m: real, d: real, z: seq<real>)
    requires d > 0.0 && Stretches(z, d, s, m) && Mul(|s| as real, m) == Sum(|s|, Entries(s))
    ensures Sum(|s|, Entries(z)) == 0.0
  {
    forall i | 0 <= i < |s|
      ensures Centred(s, m)(i) == Mul(d, Entries(z)(i))
    {
      assert Centred(s, m)(i) == At(s, i) - m == Mul(d, z[i]);
      assert Entries(z)(i) == At(z, i);
    }
    CentredSum(s, m);
    SumScale(|s|, d, Entries(z), Centred(s, m));
    CancelLeft(d, Sum(|s|, Entries(z)), 0.0);
  }

  lemma SquareOfProduct(d: real, w: real)
    ensures Mul(Mul(d, w), Mul(d, w)) == Mul(Mul(d, d), Mul(w, w))
  {
  }

  lemma ScaledSpread(s: seq<real>, m: real, d: real, k: real, z: seq<real>)
    requires Stretches(z, d, s, m) && k == Mul(d, d)
    ensures Mul(k, Spread(z, 0.0)) == Spread(s, m)
  {
    forall i | 0 <= i < |s|
      ensures SquaresFrom(s, m)(i) == Mul(k, SquaresFrom(z, 0.0)(i))
    {
      assert SquaresFrom(z, 0.0)(i) == Mul(z[i], z[i]);
      assert SquaresFrom(s, m)(i) == Mul(At(s, i) - m, At(s, i) - m);
      SquareOfProduct(d, z[i]);
    }
    SumScale(|s|, k, SquaresFrom(z, 0.0), SquaresFrom(s, m));
  }

  /**
   Normalising the whole history by its own statistics, std being its sample standard deviation: the mean
   becomes exactly 0, and the sample variance exactly (std / (std + EPSILON))^2, which is always short of 1.
   */
  lemma NormalisedHistory(s: seq<real>, m: real, q: real, std: real)
    requires Tracks(s, m, q) && |s| >= 2 && std >= 0.0 && Mul(std * std, (|s| - 1) as real) == q
    ensures var z := Scaled(s, m, std + EPSILON);
            var share := std / (std + EPSILON);
            && Mean(z) == 0.0 && Spread(z, 0.0) == Mul(share * share, (|z| - 1) as real) && share * share < 1.0
  {
    var d := std + EPSILON;
    var z := Scaled(s, m, d);
    ScaledStretches(s, m, d);
    ScaledSum(s, m, d, z);
    ScaledSpread(s, m, d, Mul(d, d), z);
    VarianceShare((|s| - 1) as real, std, q, Spread(z, 0.0));
    ShareIsFraction(std);
  }

  lemma Undivides(q: real, n: real)
    requires n > 0.0
    ensures Mul(q / n, n) == q
  {
  }

  lemma VarianceShare(n: real, std: real, q: real, p: real)
    requires n > 0.0 && std >= 0.0 && Mul(std * std, n) == q
    requires Mul(Mul(std + EPSILON, std + EPSILON), p) == q
    ensures var share := std / (std + EPSILON); p == Mul(share * share, n)
  {
    var d := std + EPSILON;
    var share := std / d;
    var k := d * d;
    assert share * d == std;
    assert k > 0.0;
    assert q == n * (std * std);
    assert std * std == (share * d) * (share * d) == k * (share * share);
    assert k * p == k * (n * (share * share));
    CancelLeft(k, p, n * (share * share));
  }

  lemma CancelLeft(k: real, a: real, b: real)
    requires k > 0.0 && k * a == k * b
    ensures a == b
  {
    assert k * (a - b) == 0.0;
  }

  lemma ShareIsFraction(std: real)
    requires std >= 0.0
    ensures var share := std / (std + EPSILON); 0.0 <= share * share < 1.0
  {
    var share := std / (std + EPSILON);
    assert 0.0 <= share < 1.0;
    assert share * share <= share;
  }

  // ----- the normaliser

  ghost predicate Sized(history: seq<seq<real>>, size: nat) {
    forall k | 0 <= k < |history| :: |history[k]| == size
  }

  ghost function Component(history: seq<seq<real>>, size: nat, i: nat): seq<real>
    requires Sized(history, size) && i < size
  {
    seq(|history|, k requires 0 <= k < |history| => history[k][i])
  }

  class RunningNormalizer {
    const size: nat
    var count: nat
    const mean: array<real>
    const m2: array<real>
    /** The vectors observed so far. */
    ghost var history: seq<seq<real>>

    ghost predicate Valid()
      reads this, mean, m2
    {
      && mean.Length == m2.Length == size && mean != m2
      && count == |history| && Sized(history, size)
      && forall i | 0 <= i < size :: Tracks(Component(history, size, i), mean[i], m2[i])
    }

    constructor (size: nat)
      ensures Valid() && this.size == size && history == [] && fresh(mean) && fresh(m2)
    {
      this.size := size;
      count := 0;
      mean := new real[size](i => 0.0);
      m2 := new real[size](i => 0.0);
      history := [];
    }

    /** Component i takes the value v, the n-th of its sequence. */
    method UpdateComponent(i: nat, v: real, n: nat, ghost s: seq<real>)
      requires i < mean.Length == m2.Length && mean != m2 && n == |s| + 1 && Tracks(s, mean[i], m2[i])
      modifies mean, m2
      ensures Tracks(s + [v], mean[i], m2[i])
      ensures forall l | 0 <= l < mean.Length && l != i :: mean[l] == old(mean[l]) && m2[l] == old(m2[l])
    {
      StepTracks(s, mean[i], m2[i], v);
      var delta := v - mean[i];
      mean[i] := mean[i] + delta / n as real;
      var delta2 := v - mean[i];
      assert Mul(delta, delta2) == delta * delta2;
      m2[i] := m2[i] + delta * delta2;
    }

    /** A vector of the wrong length is ignored; any other enters the statistics exactly. */
    method Observe(x: seq<real>)
      requires Valid()
      modifies this, mean, m2
      ensures Valid() && history == old(history) + if |x| == size then [x] else []
    {
      if |x| != size {
        return;
      }
      ghost var was := history;
      ghost var now := was + [x];
      count := count + 1;
      var i := 0;
      while i < size
        invariant 0 <= i <= size && count == |was| + 1
        invariant forall l | 0 <= l < i :: Tracks(Component(now, size, l), mean[l], m2[l])
        invariant forall l | i <= l < size :: Tracks(Component(was, size, l), mean[l], m2[l])
        modifies mean, m2
      {
        UpdateComponent(i, x[i], count, Component(was, size, i));
        assert Component(now, size, i) == Component(was, size, i) + [x[i]];
        i := i + 1;
      }
      history := now;
    }

    /** The i-th component of v relative to the mean and deviation of all observed i-th components. */
    ghost predicate IsNormalised(sqrt: real -> real, i: nat, v: real, r: real)
      requires Valid() && i < size && count >= 2
      reads this, mean, m2
    {
      var s := Component(history, size, i);
      var std := sqrt(Spread(s, Mean(s)) / (|s| - 1) as real);
      && std >= 0.0 && Mul(std * std, (|s| - 1) as real) == Spread(s, Mean(s))
      && r == (v - Mean(s)) / (std + 0.00000001)
    }

    method NormalizeComponent(i: nat, v: real, sqrt: real -> real) returns (r: real)
      requires Valid() && i < size && count >= 2 && IsSquareRoot(sqrt)
      ensures IsNormalised(sqrt, i, v, r)
    {
      TracksMean(Component(history, size, i), mean[i], m2[i]);
      var variance := m2[i] / (count - 1) as real;
      assert variance >= 0.0;
      var std := sqrt(variance);
      Undivides(m2[i], (count - 1) as real);
      r := (v - mean[i]) / (std + EPSILON);
    }

    /** With fewer than two observations everything is zeroed; otherwise each component is normalised. */
    method NormalizeInPlace(x: array<real>, sqrt: real -> real)
      requires Valid() && x != mean && x != m2 && IsSquareRoot(sqrt)
      modifies x
      ensures count < 2 ==> forall i | 0 <= i < x.Length :: x[i] == 0.0
      ensures count >= 2 ==> forall i | 0 <= i < x.Length ::
        if i < size then IsNormalised(sqrt, i, old(x[i]), x[i]) else x[i] == old(x[i])
    {
      if count < 2 {
        var k := 0;
        while k < x.Length
          invariant 0 <= k <= x.Length && forall l | 0 <= l < k :: x[l] == 0.0
        {
          x[k] := 0.0;
          k := k + 1;
        }
        return;
      }
      var i := 0;
      while i < size && i < x.Length
        invariant 0 <= i <= size && i <= x.Length
        invariant forall l | 0 <= l < i :: IsNormalised(sqrt, l, old(x[l]), x[l])
        invariant forall l | i <= l < x.Length :: x[l] == old(x[l])
      {
        var r := NormalizeComponent(i, x[i], sqrt);
        x[i] := r;
        i := i + 1;
      }
    }
  }
}
