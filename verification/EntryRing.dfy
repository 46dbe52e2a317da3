/** The circular buffer of pending entries behind one priority level. */
module EntryRing {
  import opened Wrappers
  import opened Circular

  datatype PendingEntry = PendingEntry(walOffset: int, arrivedAt: int)

  const ZERO := PendingEntry(0, 0)

  /** What a ring of capacity cap keeps of s: the newest entries that fit; capacity 0 means unbounded. */
  function Kept<T>(cap: nat, s: seq<T>): (r: seq<T>)
    ensures |r| == if cap == 0 || |s| <= cap then |s| else cap
  {
    if cap == 0 then s else Newest(s, cap)
  }

  // ----- a circular buffer seen as a sequence

  /** The index i places after head in a buffer of n slots. */
  function Slot(head: nat, i: nat, n: nat): (k: nat)
    requires head < n && i < n
    ensures k < n && k == (head + i) % n
  {
    WrapOnce(head + i, n);
    if head + i < n then head + i else head + i - n
  }

  /** The size entries of b that start at head, wrapping at the end. */
  ghost function View<T>(b: seq<T>, head: nat, size: nat): (s: seq<T>)
    requires size <= |b| && (size == 0 || head < |b|)
    ensures |s| == size
  {
    seq(size, i requires 0 <= i < size => b[Slot(head, i, |b|)])
  }

  lemma StoreAppends<T>(b: seq<T>, head: nat, size: nat, e: T)
    requires size < |b| && head < |b|
    ensures View(b[Slot(head, size, |b|) := e], head, size + 1) == View(b, head, size) + [e]
  {
  }

  /** Advancing the head drops the oldest entry, whatever is left behind in its slot. */
  lemma AdvanceDrops<T>(b: seq<T>, head: nat, size: nat, next: nat, x: T)
    requires 0 < size <= |b| && head < |b| && next == if head + 1 < |b| then head + 1 else 0
    ensures View(b, head, size)[0] == b[head]
    ensures View(b[head := x], next, size - 1) == View(b, head, size)[1..]
  {
  }

  /** On a full buffer, overwriting the oldest entry and advancing appends. */
  lemma OverwriteRotates<T>(b: seq<T>, head: nat, next: nat, e: T)
    requires head < |b| && next == if head + 1 < |b| then head + 1 else 0
    ensures View(b[head := e], next, |b|) == View(b, head, |b|)[1..] + [e]
  {
  }

  lemma FromStart<T>(b: seq<T>, size: nat)
    requires size <= |b|
    ensures View(b, 0, size) == b[..size]
  {
  }

  // ----- the ring

  class Ring {
    var buf: array<PendingEntry>
    var head: nat
    var size: nat
    const cap: nat

    ghost predicate Valid()
      reads this
    {
      && size <= buf.Length
      && (if buf.Length == 0 then head == 0 else head < buf.Length)
      && (cap > 0 ==> buf.Length <= cap)
    }

    /** The entries, oldest first. */
    ghost function Contents(): (s: seq<PendingEntry>)
      requires Valid()
      reads this, buf
      ensures |s| == size
    {
      View(buf[..], head, size)
    }

    constructor (cap: nat)
      ensures Valid() && this.cap == cap && fresh(buf) && Contents() == []
    {
      this.cap := cap;
      buf := new PendingEntry[cap](i => ZERO);
      head, size := 0, 0;
    }

    /** On a full bounded ring e takes the place of the oldest entry. */
    method Overwrite(e: PendingEntry) returns (oldest: PendingEntry)
      requires Valid() && size == cap > 0
      modifies this, buf
      ensures Valid() && buf == old(buf)
      ensures Contents() == old(Contents())[1..] + [e] && oldest == old(Contents())[0]
    {
      ghost var b := buf[..];
      var next := (head + 1) % cap;
      assert |b| == cap && next == if head + 1 < |b| then head + 1 else 0 by { WrapOnce(head + 1, cap); }
      AdvanceDrops(b, head, size, next, e);
      OverwriteRotates(b, head, next, e);
      oldest := buf[head];
      buf[head] := e;
      assert buf[..] == b[head := e];
      head := next;
    }

    /** Puts e in the first unused slot. */
    method Store(e: PendingEntry)
      requires Valid() && size < buf.Length
      modifies this, buf
      ensures Valid() && buf == old(buf) && Contents() == old(Contents()) + [e]
    {
      ghost var b := buf[..];
      StoreAppends(b, head, size, e);
      assert Slot(head, size, |b|) == (head + size) % buf.Length;
      var idx := (head + size) % buf.Length;
      buf[idx] := e;
      assert buf[..] == b[idx := e];
      size := size + 1;
    }

    /** Appends e; a full bounded ring gives up its oldest entry. */
    method PushBack(e: PendingEntry) returns (evicted: Option<PendingEntry>)
      requires Valid()
      modifies this, buf
      ensures Valid() && (buf == old(buf) || fresh(buf))
      ensures Contents() == Kept(cap, old(Contents()) + [e])
      ensures evicted == if cap > 0 && old(size) == cap then Some(old(Contents())[0]) else None
    {
      ghost var was := Contents();
      if cap > 0 && size >= cap {
        var oldest := Overwrite(e);
        assert (was + [e])[1..] == was[1..] + [e];
        return Some(oldest);
      }
      if size == buf.Length {
        Grow();
      }
      Store(e);
      evicted := None;
    }

    /** Doubles the buffer, up to the capacity. */
    method Grow()
      requires Valid() && size == buf.Length && (cap > 0 ==> size < cap)
      modifies this
      ensures Valid() && fresh(buf) && size == old(size) < buf.Length && Contents() == old(Contents())
    {
      var newCap := if buf.Length * 2 > 16 then buf.Length * 2 else 16;
      if cap > 0 && newCap > cap {
        newCap := cap;
      }
      var out := Linearize();
      var newBuf := new PendingEntry[newCap](i => ZERO);
      var i := 0;
      while i < size
        invariant 0 <= i <= size
        invariant newBuf[..i] == out[..i]
        modifies newBuf
      {
        newBuf[i] := out[i];
        i := i + 1;
      }
      FromStart(newBuf[..], size);
      buf := newBuf;
      head := 0;
    }

    method PopFront() returns (e: Option<PendingEntry>)
      requires Valid()
      modifies this, buf
      ensures Valid() && buf == old(buf)
      ensures if old(size) == 0 then e == None && Contents() == []
              else e == Some(old(Contents())[0]) && Contents() == old(Contents())[1..]
    {
      if size == 0 {
        return None;
      }
      ghost var b := buf[..];
      WrapOnce(head + 1, buf.Length);
      AdvanceDrops(b, head, size, (head + 1) % buf.Length, ZERO);
      e := Some(buf[head]);
      buf[head] := ZERO;
      assert buf[..] == b[head := ZERO];
      head := (head + 1) % buf.Length;
      size := size - 1;
    }

    method PeekFront() returns (e: Option<PendingEntry>)
      requires Valid()
      ensures e == if size == 0 then None else Some(Contents()[0])
    {
      if size == 0 {
        return None;
      }
      AdvanceDrops(buf[..], head, size, if head + 1 < buf.Length then head + 1 else 0, ZERO);
      e := Some(buf[head]);
    }

    /** A contiguous copy of all entries, oldest first. */
    method Linearize() returns (out: seq<PendingEntry>)
      requires Valid()
      ensures out == Contents()
    {
      out := [];
      var i := 0;
      while i < size
        invariant 0 <= i <= size
        invariant out == Contents()[..i]
      {
        assert Contents()[i] == buf[Slot(head, i, buf.Length)];
        out := out + [buf[(head + i) % buf.Length]];
        i := i + 1;
      }
    }

    /** Replaces the contents, keeping the newest entries that fit. */
    method ResetFrom(entries: seq<PendingEntry>)
      requires Valid()
      modifies this, buf
      ensures Valid() && (buf == old(buf) || fresh(buf))
      ensures Contents() == Kept(cap, entries)
      ensures size <= |entries| && Contents() == entries[|entries| - size..]
    {
      var kept := entries;
      if cap > 0 && |entries| > cap {
        kept := entries[|entries| - cap..];
      }
      var need := |kept|;
      var b := buf;
      if need > b.Length {
        b := new PendingEntry[need](i => ZERO);
      }
      var i := 0;
      while i < b.Length
        invariant 0 <= i <= b.Length
        invariant forall k | 0 <= k < i && k < need :: b[k] == kept[k]
        modifies b
      {
        b[i] := if i < need then kept[i] else ZERO;
        i := i + 1;
      }
      FromStart(b[..], need);
      buf := b;
      head := 0;
      size := need;
    }
  }
}
