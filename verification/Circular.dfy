/** Index wrap-around and bounded windows, as the circular buffers use them. */
module Circular {

  /** The newest n elements of s, or all of it when it is shorter. */
  function Newest<T>(s: seq<T>, n: nat): (r: seq<T>)
    ensures |r| == if |s| <= n then |s| else n
  {
    if |s| <= n then s else s[|s| - n..]
  }

  lemma MultipleIsFar(d: int, n: int)
    requires d != 0 && n >= 0
    ensures d * n >= n || d * n <= -n
  {
    if d >= 1 {
      assert (d - 1) * n >= 0;
    } else {
      assert (-d - 1) * n >= 0;
    }
  }

  lemma RemainderIsUnique(x: nat, q: nat, r: nat, n: nat)
    requires n > 0 && x == q * n + r && r < n
    ensures x % n == r
  {
    var d := x / n - q;
    assert d * n == x / n * n - q * n == r - x % n;
    if d != 0 {
      MultipleIsFar(d, n);
    }
  }

  /** Moving by less than one turn wraps at most once. */
  lemma WrapOnce(x: nat, n: nat)
    requires n > 0 && x < 2 * n
    ensures x % n == if x < n then x else x - n
  {
    if x < n {
      RemainderIsUnique(x, 0, x, n);
    } else {
      RemainderIsUnique(x, 1, x - n, n);
    }
  }

  /** Two steps of wrap-around add up. */
  lemma WrapTwice(x: nat, k: nat, n: nat)
    requires n > 0 && k < n
    ensures (x + k) % n == if x % n + k < n then x % n + k else x % n + k - n
  {
    var q, r := x / n, x % n;
    if r + k < n {
      RemainderIsUnique(x + k, q, r + k, n);
    } else {
      assert (q + 1) * n == q * n + n;
      RemainderIsUnique(x + k, q + 1, r + k - n, n);
    }
  }
}
