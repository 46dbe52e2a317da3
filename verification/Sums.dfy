/** Finite sums of reals over an index range, and the laws the numeric kernels use. */
module Sums {

  /** f(0) + ... + f(n-1) */
  function Sum(n: nat, f: int -> real): real {
    if n == 0 then 0.0 else Sum(n - 1, f) + f(n - 1)
  }

  /** Zero-padded access: a sequence is 0 outside its range. */
  function At(s: seq<real>, i: int): real {
    if 0 <= i < |s| then s[i] else 0.0
  }

  /** The padded entries of s as a function of the index. */
  function Entries(s: seq<real>): int -> real {
    i => At(s, i)
  }

  /** The arithmetic mean. */
  function Mean(vals: seq<real>): real
    requires |vals| > 0
  {
    Sum(|vals|, Entries(vals)) / |vals| as real
  }

  function Abs(x: real): (r: real)
    ensures r >= 0.0 && (r == x || r == -x)
  {
    if x < 0.0 then -x else x
  }

  lemma {:induction false} SumCongruence(n: nat, f: int -> real, g: int -> real)
    requires forall i | 0 <= i < n :: f(i) == g(i)
    ensures Sum(n, f) == Sum(n, g)
  {
    if n > 0 {
      SumCongruence(n - 1, f, g);
    }
  }

  lemma {:induction false} SumZero(n: nat, f: int -> real)
    requires forall i | 0 <= i < n :: f(i) == 0.0
    ensures Sum(n, f) == 0.0
  {
    if n > 0 {
      SumZero(n - 1, f);
    }
  }

  lemma {:induction false} SumNonNegative(n: nat, f: int -> real)
    requires forall i | 0 <= i < n :: f(i) >= 0.0
    ensures Sum(n, f) >= 0.0
  {
    if n > 0 {
      SumNonNegative(n - 1, f);
    }
  }

  lemma {:induction false} SumOnes(n: nat, one: int -> real)
    requires forall i :: one(i) == 1.0
    ensures Sum(n, one) == n as real
  {
    if n > 0 {
      SumOnes(n - 1, one);
    }
  }

  /** Multiplication under a name, so that a dot product does not flood a proof with non-linear terms. */
  function Mul(x: real, y: real): real { x * y }

  lemma MulAdds(k: real, x: real, y: real)
    ensures Mul(k, x + y) == Mul(k, x) + Mul(k, y)
  {
  }

  /** Sums are linear: h = f + k * g pointwise gives the same relation between the sums. */
  lemma {:induction false} SumLinear(n: nat, f: int -> real, k: real, g: int -> real, h: int -> real)
    requires forall i | 0 <= i < n :: h(i) == f(i) + Mul(k, g(i))
    ensures Sum(n, h) == Sum(n, f) + Mul(k, Sum(n, g))
  {
    if n == 0 {
      assert Mul(k, 0.0) == 0.0;
    } else {
      SumLinear(n - 1, f, k, g, h);
      MulAdds(k, Sum(n - 1, g), g(n - 1));
    }
  }

  function Shift(u: int -> real, k: int): int -> real {
    i => u(k + i)
  }

  function Reversed(n: int, u: int -> real): int -> real {
    i => u(n - 1 - i)
  }

  lemma {:induction false} SumSplit(m: nat, n: nat, f: int -> real)
    ensures Sum(m + n, f) == Sum(m, f) + Sum(n, Shift(f, m))
  {
    if n > 0 {
      SumSplit(m, n - 1, f);
    }
  }

  /** Reversing the index order does not change a sum. */
  lemma {:induction false} SumReverse(n: nat, f: int -> real)
    ensures Sum(n, Reversed(n, f)) == Sum(n, f)
  {
    if n > 0 {
      SumSplit(1, n - 1, Reversed(n, f));
      assert Sum(1, Reversed(n, f)) == Sum(0, Reversed(n, f)) + f(n - 1);
      SumReverse(n - 1, f);
      SumCongruence(n - 1, Shift(Reversed(n, f), 1), Reversed(n - 1, f));
    }
  }

  lemma {:induction false} SumScale(n: nat, k: real, g: int -> real, h: int -> real)
    requires forall i | 0 <= i < n :: h(i) == Mul(k, g(i))
    ensures Sum(n, h) == Mul(k, Sum(n, g))
  {
    if n == 0 {
      assert Mul(k, 0.0) == 0.0;
    } else {
      SumScale(n - 1, k, g, h);
      MulAdds(k, Sum(n - 1, g), g(n - 1));
    }
  }

  function Times(u: int -> real, v: int -> real): int -> real {
    i => Mul(u(i), v(i))
  }

  /** The dot product u(0)*v(0) + ... + u(n-1)*v(n-1). */
  function Dot(n: nat, u: int -> real, v: int -> real): real {
    Sum(n, Times(u, v))
  }

  lemma DotSucc(n: nat, u: int -> real, v: int -> real)
    ensures Dot(n + 1, u, v) == Dot(n, u, v) + Mul(u(n), v(n))
  {
    assert Times(u, v)(n) == Mul(u(n), v(n));
  }

  lemma DotCongruence(n: nat, u: int -> real, v: int -> real, u': int -> real, v': int -> real)
    requires forall i | 0 <= i < n :: u(i) == u'(i) && v(i) == v'(i)
    ensures Dot(n, u, v) == Dot(n, u', v')
  {
    SumCongruence(n, Times(u, v), Times(u', v'));
  }

  lemma DotReverse(n: nat, u: int -> real, v: int -> real)
    ensures Dot(n, Reversed(n, u), Reversed(n, v)) == Dot(n, u, v)
  {
    SumReverse(n, Times(u, v));
    SumCongruence(n, Reversed(n, Times(u, v)), Times(Reversed(n, u), Reversed(n, v)));
  }

  /** The dot product is linear in its left argument. */
  lemma DotLinear(n: nat, u: int -> real, k: real, w: int -> real, h: int -> real, v: int -> real)
    requires forall i | 0 <= i < n :: h(i) == u(i) + Mul(k, w(i))
    ensures Dot(n, h, v) == Dot(n, u, v) + Mul(k, Dot(n, w, v))
  {
    forall i | 0 <= i < n
      ensures Times(h, v)(i) == Times(u, v)(i) + Mul(k, Times(w, v)(i))
    {
      MulLinear(u(i), k, w(i), v(i));
    }
    SumLinear(n, Times(u, v), k, Times(w, v), Times(h, v));
  }

  lemma MulLinear(x: real, k: real, y: real, z: real)
    ensures Mul(x + Mul(k, y), z) == Mul(x, z) + Mul(k, Mul(y, z))
  {
  }

  lemma DotSymmetric(n: nat, u: int -> real, v: int -> real)
    ensures Dot(n, u, v) == Dot(n, v, u)
  {
    forall i: int
      ensures Times(u, v)(i) == Times(v, u)(i)
    {
      assert Mul(u(i), v(i)) == Mul(v(i), u(i));
    }
    SumCongruence(n, Times(u, v), Times(v, u));
  }

  lemma DotZero(n: nat, u: int -> real, v: int -> real)
    requires forall i | 0 <= i < n :: u(i) == 0.0 || v(i) == 0.0
    ensures Dot(n, u, v) == 0.0
  {
    forall i | 0 <= i < n
      ensures Times(u, v)(i) == 0.0
    {
      assert Mul(u(i), v(i)) == 0.0;
    }
    SumZero(n, Times(u, v));
  }

  lemma DotNonNegative(n: nat, u: int -> real)
    ensures Dot(n, u, u) >= 0.0
  {
    forall i: int
      ensures Times(u, u)(i) >= 0.0
    {
      assert Mul(u(i), u(i)) >= 0.0;
    }
    SumNonNegative(n, Times(u, u));
  }

  lemma DotLinearRight(n: nat, w: int -> real, u: int -> real, k: real, v: int -> real, h: int -> real)
    requires forall i | 0 <= i < n :: h(i) == u(i) + Mul(k, v(i))
    ensures Dot(n, w, h) == Dot(n, w, u) + Mul(k, Dot(n, w, v))
  {
    DotSymmetric(n, w, h);
    DotSymmetric(n, w, u);
    DotSymmetric(n, w, v);
    DotLinear(n, u, k, v, h, w);
  }

  /** The combination b(0)*f(0) + ... + b(m-1)*f(m-1) of a family of functions. */
  function Combination(m: nat, b: int -> real, f: int -> int -> real): int -> real {
    t => Dot(m, b, Column(f, t))
  }

  function Column(f: int -> int -> real, t: int): int -> real {
    j => f(j)(t)
  }

  function Pairings(n: nat, w: int -> real, f: int -> int -> real): int -> real {
    j => Dot(n, w, f(j))
  }

  /** Pairing w with a combination of functions combines the pairings: a double sum in the other order. */
  lemma {:induction false} DotCombination(n: nat, m: nat, w: int -> real, b: int -> real, f: int -> int -> real)
    ensures Dot(n, w, Combination(m, b, f)) == Dot(m, b, Pairings(n, w, f))
  {
    if m == 0 {
      DotZero(n, w, Combination(m, b, f));
    } else {
      DotCombination(n, m - 1, w, b, f);
      forall t: int
        ensures Combination(m, b, f)(t) == Combination(m - 1, b, f)(t) + Mul(b(m - 1), f(m - 1)(t))
      {
        DotSucc(m - 1, b, Column(f, t));
      }
      DotLinearRight(n, w, Combination(m - 1, b, f), b(m - 1), f(m - 1), Combination(m, b, f));
      assert Pairings(n, w, f)(m - 1) == Dot(n, w, f(m - 1));
      DotSucc(m - 1, b, Pairings(n, w, f));
    }
  }

  lemma {:induction false} DotSplit(m: nat, n: nat, u: int -> real, v: int -> real)
    ensures Dot(m + n, u, v) == Dot(m, u, v) + Dot(n, Shift(u, m), Shift(v, m))
  {
    if n > 0 {
      DotSplit(m, n - 1, u, v);
      DotSucc(m + n - 1, u, v);
      DotSucc(n - 1, Shift(u, m), Shift(v, m));
    }
  }

  lemma DotScale(n: nat, k: real, u: int -> real, h: int -> real, v: int -> real)
    requires forall i | 0 <= i < n :: h(i) == Mul(k, u(i))
    ensures Dot(n, h, v) == Mul(k, Dot(n, u, v))
  {
    var zero := (i: int) => 0.0;
    DotZero(n, zero, v);
    DotLinear(n, zero, k, u, h, v);
  }

  lemma DotScaleRight(n: nat, k: real, w: int -> real, u: int -> real, h: int -> real)
    requires forall i | 0 <= i < n :: h(i) == Mul(k, u(i))
    ensures Dot(n, w, h) == Mul(k, Dot(n, w, u))
  {
    DotSymmetric(n, w, h);
    DotScale(n, k, u, h, w);
    DotSymmetric(n, w, u);
  }

  /** Sums of functions that differ at j alone. */
  lemma {:induction false} SumUpdate(n: nat, f: int -> real, g: int -> real, j: nat)
    requires j < n && forall i | 0 <= i < n && i != j :: f(i) == g(i)
    ensures Sum(n, g) == Sum(n, f) - f(j) + g(j)
  {
    if j == n - 1 {
      SumCongruence(n - 1, f, g);
    } else {
      SumUpdate(n - 1, f, g, j);
    }
  }

  lemma DotUpdate(n: nat, u: int -> real, w: int -> real, v: int -> real, j: nat)
    requires j < n && forall i | 0 <= i < n && i != j :: u(i) == w(i)
    ensures Dot(n, w, v) == Dot(n, u, v) - Mul(u(j), v(j)) + Mul(w(j), v(j))
  {
    SumUpdate(n, Times(u, v), Times(w, v), j);
    assert Times(u, v)(j) == Mul(u(j), v(j)) && Times(w, v)(j) == Mul(w(j), v(j));
  }

  /** The square of a combination, expanded. */
  lemma SquareOfSum(n: nat, u: int -> real, k: real, v: int -> real, h: int -> real)
    requires forall t | 0 <= t < n :: h(t) == u(t) + Mul(k, v(t))
    ensures Dot(n, h, h) == Dot(n, u, u) + 2.0 * k * Dot(n, u, v) + k * k * Dot(n, v, v)
  {
    DotLinear(n, u, k, v, h, h);
    DotLinearRight(n, u, u, k, v, h);
    DotLinearRight(n, v, u, k, v, h);
    DotSymmetric(n, u, v);
    var uv, vv := Dot(n, u, v), Dot(n, v, v);
    assert k * (uv + k * vv) == k * uv + k * k * vv;
  }
}
