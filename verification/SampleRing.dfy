/** The circular window of load samples behind the predictor. */
module SampleRing {
  import opened Circular

  class RingBuffer {
    const data: array<real>
    var writeIdx: nat
    ghost var history: seq<real>

    ghost predicate Valid()
      reads this, data
    {
      && data.Length > 0
      && writeIdx == |history|
      && forall i | 0 <= i < |history| && |history| - data.Length <= i :: Slot(i) == history[i]
    }

    /** Where sample number i is stored. */
    function Slot(i: nat): real
      requires data.Length > 0
      reads data
    {
      data[i % data.Length]
    }

    constructor (size: nat)
      requires size > 0
      ensures Valid() && history == [] && data.Length == size && fresh(data)
    {
      data := new real[size];
      writeIdx := 0;
      history := [];
    }

    method Push(v: real)
      requires Valid()
      modifies this, data
      ensures Valid() && history == old(history) + [v]
    {
      ghost var w := writeIdx;
      data[writeIdx % data.Length] := v;
      forall i: nat | i < w && w + 1 - data.Length <= i
        ensures Slot(i) == old(history)[i]
      {
        WrapTwice(i, w - i, data.Length);
        assert Slot(i) == old(Slot(i));
      }
      writeIdx := writeIdx + 1;
      history := history + [v];
    }

    /** The samples kept, oldest first. */
    method Values() returns (out: array<real>)
      requires Valid()
      ensures fresh(out) && out[..] == Newest(history, data.Length)
      ensures forall i | 0 <= i < out.Length :: out[i] == history[|history| - out.Length + i]
    {
      var w, size := writeIdx, data.Length;
      var n := if w > size then size else w;
      out := new real[n];
      CopyInto(out, w, size, n);
      assert out[..] == out[..n];
    }

    /** Copies the samples kept into dst, the oldest ones when dst is short. */
    method ValuesInto(dst: array<real>) returns (n: nat)
      requires Valid() && dst != data
      modifies dst
      ensures Valid() && n <= dst.Length
      ensures n <= |Newest(history, data.Length)| && dst[..n] == Newest(history, data.Length)[..n]
      ensures n == |Newest(history, data.Length)| || n == dst.Length
      ensures dst[n..] == old(dst[n..])
    {
      var w, size := writeIdx, data.Length;
      n := w;
      if n > size { n := size; }
      if n > dst.Length { n := dst.Length; }
      CopyInto(dst, w, size, n);
    }

    method CopyInto(dst: array<real>, w: nat, size: nat, n: nat)
      requires Valid() && dst != data && w == writeIdx && size == data.Length
      requires n <= dst.Length && n <= |Newest(history, size)|
      modifies dst
      ensures Valid() && dst[..n] == Newest(history, size)[..n] && dst[n..] == old(dst[n..])
    {
      if w <= size {
        Move(dst, 0, 0, n);
        forall k: nat | k < n
          ensures data[k] == history[k]
        {
          WrapOnce(k, size);
          assert Slot(k) == history[k];
        }
        assert dst[..n] == dst[0..0 + n];
      } else {
        var start := w % size;
        var tail := size - start;
        if tail > n { tail := n; }
        Move(dst, 0, start, tail);
        assert dst[..tail] == dst[0..0 + tail];
        if tail < n {
          Move(dst, tail, 0, n - tail);
        }
        assert dst[..n] == dst[..tail] + dst[tail..n];
        Unrolled(start, tail, n);
      }
    }

    /** The stretch from the write position to the end, then the stretch from the start, are the samples in order. */
    lemma Unrolled(start: nat, tail: nat, n: nat)
      requires Valid() && data.Length < writeIdx && start == writeIdx % data.Length
      requires n <= data.Length && tail == if data.Length - start > n then n else data.Length - start
      ensures start + tail <= data.Length && n - tail <= data.Length
      ensures data[start..start + tail] + data[..n - tail] == Newest(history, data.Length)[..n]
    {
      var kept := Newest(history, data.Length);
      forall k: nat | k < tail
        ensures data[start..start + tail][k] == kept[k]
      {
        Stored(k);
      }
      forall k: nat | k < n - tail
        ensures data[..n - tail][k] == kept[tail..n][k]
      {
        Stored(tail + k);
      }
      assert kept[..n] == kept[..tail] + kept[tail..n];
      assert data[start..start + tail] == kept[..tail];
      assert data[..n - tail] == kept[tail..n];
    }

    /** The k-th oldest kept sample of a full ring. */
    lemma Stored(k: nat)
      requires Valid() && data.Length < writeIdx && k < data.Length
      ensures var i := writeIdx % data.Length + k;
              data[if i < data.Length then i else i - data.Length] == Newest(history, data.Length)[k]
    {
      RingIndex(writeIdx, k, data.Length);
      assert Slot(writeIdx - data.Length + k) == history[writeIdx - data.Length + k];
    }

    /** Copies data[src..src+n] to dst[at..at+n]. */
    method Move(dst: array<real>, at: nat, src: nat, n: nat)
      requires dst != data && at + n <= dst.Length && src + n <= data.Length
      modifies dst
      ensures dst[at..at + n] == data[src..src + n]
      ensures dst[..at] == old(dst[..at]) && dst[at + n..] == old(dst[at + n..])
    {
      var i := 0;
      while i < n
        invariant 0 <= i <= n
        invariant forall k | 0 <= k < dst.Length :: dst[k] == if at <= k < at + i then data[src + (k - at)] else old(dst[k])
      {
        dst[at + i] := data[src + i];
        i := i + 1;
      }
    }
  }

  /** The k-th oldest kept sample sits k slots after the write position, wrapping once. */
  lemma RingIndex(w: nat, k: nat, n: nat)
    requires n > 0 && n <= w && k < n
    ensures (w - n + k) % n == if w % n + k < n then w % n + k else w % n + k - n
  {
    WrapTwice(w - n, k, n);
    RemainderIsUnique(w, (w - n) / n + 1, (w - n) % n, n);
  }
}
