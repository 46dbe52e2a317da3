/** The client-side producer that collects messages and sends them in batches. */
module BufferedProducer {

  datatype Msg = Msg(key: seq<int>, value: seq<int>, priority: int) {
    function Size(): nat { |key| + |value| }
  }

  function Bytes(s: seq<Msg>): nat {
    if s == [] then 0 else Bytes(s[..|s| - 1]) + s[|s| - 1].Size()
  }

  function Flat(batches: seq<seq<Msg>>): seq<Msg> {
    if batches == [] then [] else Flat(batches[..|batches| - 1]) + batches[|batches| - 1]
  }

  lemma FlatAppend(batches: seq<seq<Msg>>, b: seq<Msg>)
    ensures Flat(batches + [b]) == Flat(batches) + b
  {
    assert (batches + [b])[..|batches|] == batches;
  }

  lemma BytesAppend(s: seq<Msg>, m: Msg)
    ensures Bytes(s + [m]) == Bytes(s) + m.Size()
  {
    assert (s + [m])[..|s|] == s;
  }

  datatype Reply = Sent | Closed | AsyncFailure | TooBig | FlushFailed | SendFailed

  class Producer {
    const batchSize: int
    const maxMemoryBytes: int
    const linger: int
    var buf: seq<Msg>
    var bufBytes: nat
    var timer: bool
    var asyncErr: bool
    var closed: bool
    /** Every batch handed to the transport, and every message taken on, in order. */
    ghost var batches: seq<seq<Msg>>
    ghost var accepted: seq<Msg>

    /** A batch is within both limits; a single message may exceed the count limit alone. */
    predicate WithinLimits(b: seq<Msg>) {
      && b != [] && (|b| <= batchSize || |b| == 1)
      && (maxMemoryBytes > 0 ==> Bytes(b) <= maxMemoryBytes)
    }

    ghost predicate Valid()
      reads this
    {
      && Flat(batches) + buf == accepted
      && bufBytes == Bytes(buf) && (maxMemoryBytes > 0 ==> bufBytes < maxMemoryBytes)
      && (buf == [] || |buf| < batchSize)
      && (forall b | b in batches :: WithinLimits(b))
      && (timer <==> buf != [] && linger > 0)
      && (closed ==> buf == [])
    }

    constructor (batchSize: int, maxMemoryBytes: int, linger: int)
      ensures Valid() && !closed && accepted == [] && batches == []
    {
      this.batchSize, this.maxMemoryBytes, this.linger := batchSize, maxMemoryBytes, linger;
      buf, bufBytes, timer, asyncErr, closed := [], 0, false, false, false;
      batches, accepted := [], [];
    }

    /** Empties the buffer, stops the timer and hands the batch over. */
    method HandOver()
      requires Flat(batches) + buf == accepted && WithinLimits(buf)
      requires forall b | b in batches :: WithinLimits(b)
      modifies this`buf, this`bufBytes, this`timer, this`batches
      ensures Valid() && buf == [] && batches == old(batches) + [old(buf)]
    {
      FlatAppend(batches, buf);
      batches := batches + [buf];
      buf, bufBytes, timer := [], 0, false;
    }

    /** m does not fit into what memory the buffer b leaves, and there is something to make room with. */
    predicate Overflows(b: seq<Msg>, m: Msg) {
      maxMemoryBytes > 0 && Bytes(b) + m.Size() > maxMemoryBytes && b != []
    }

    predicate TooLarge(m: Msg) {
      maxMemoryBytes > 0 && m.Size() > maxMemoryBytes
    }

    /** The buffer b has reached one of the limits. */
    predicate Fills(b: seq<Msg>) {
      |b| >= batchSize || (maxMemoryBytes > 0 && Bytes(b) >= maxMemoryBytes)
    }

    /** The batch that accepting m completes, if any. */
    function Completed(b: seq<Msg>, m: Msg): seq<seq<Msg>> {
      if !TooLarge(m) && Fills(b + [m]) then [b + [m]] else []
    }

    /** Puts m into the buffer. */
    method Buffer(m: Msg)
      requires Valid() && !TooLarge(m) && !Overflows(buf, m)
      modifies this`buf, this`bufBytes, this`accepted
      ensures buf == old(buf) + [m] && accepted == old(accepted) + [m]
      ensures Flat(batches) + buf == accepted && bufBytes == Bytes(buf) && WithinLimits(buf)
    {
      BytesAppend(buf, m);
      assert buf == [] ==> Bytes(buf) == 0;
      assert Flat(batches) + (buf + [m]) == Flat(batches) + buf + [m];
      accepted := accepted + [m];
      buf := buf + [m];
      bufBytes := bufBytes + m.Size();
    }

    /** Buffers m, and hands the buffer over when that fills it. */
    method Append(m: Msg, up: bool) returns (r: Reply)
      requires Valid() && !closed && !Overflows(buf, m)
      modifies this`buf, this`bufBytes, this`timer, this`batches, this`accepted
      ensures Valid() && accepted == if TooLarge(m) then old(accepted) else old(accepted) + [m]
      ensures batches == old(batches) + Completed(old(buf), m)
      ensures r == if TooLarge(m) then TooBig else if Completed(old(buf), m) != [] && !up then SendFailed else Sent
    {
      assert batches + [] == batches;
      r := TooBig;
      if maxMemoryBytes <= 0 || m.Size() <= maxMemoryBytes {
        Buffer(m);
        r := Sent;
        if |buf| >= batchSize || (maxMemoryBytes > 0 && bufBytes >= maxMemoryBytes) {
          HandOver();
          r := if up then Sent else SendFailed;
        } else {
          timer := timer || linger > 0;
        }
      }
    }

    /** Whether Send gets past its first two checks. */
    predicate Open()
      reads this
    {
      !closed && !asyncErr
    }

    /**
     Takes on one message. up and upNext say whether the first and the second batch this call
     may hand over reach the broker. A message that overflows the buffer sends what is there
     first, and is only looked at again when that worked.
     */
    method Send(m: Msg, up: bool, upNext: bool) returns (r: Reply)
      requires Valid()
      modifies this
      ensures Valid() && closed == old(closed) && asyncErr == (old(closed) && old(asyncErr))
      ensures old(Overflows(buf, m))
         <==> maxMemoryBytes > 0 && Bytes(old(buf)) + |m.key| + |m.value| > maxMemoryBytes && old(buf) != []
      ensures TooLarge(m) <==> maxMemoryBytes > 0 && |m.key| + |m.value| > maxMemoryBytes
      ensures forall b :: Completed(b, m) == (
                if !TooLarge(m) && (|b| + 1 >= batchSize
                                  || (maxMemoryBytes > 0 && Bytes(b) + |m.key| + |m.value| >= maxMemoryBytes))
                then [b + [m]] else [])
      ensures !old(Open()) ==> accepted == old(accepted) && batches == old(batches)
                               && r == if old(closed) then Closed else AsyncFailure
      ensures old(Open()) && old(Overflows(buf, m)) && !up ==>
                r == FlushFailed && accepted == old(accepted) && batches == old(batches) + [old(buf)]
      ensures old(Open()) && old(Overflows(buf, m)) && up ==>
                batches == old(batches) + [old(buf)] + Completed([], m)
      ensures old(Open()) && !old(Overflows(buf, m)) ==> batches == old(batches) + Completed(old(buf), m)
      ensures old(Open()) && (up || !old(Overflows(buf, m))) ==>
                && accepted == (if TooLarge(m) then old(accepted) else old(accepted) + [m])
                && r == if TooLarge(m) then TooBig
                        else if old(Overflows(buf, m)) then if Completed([], m) != [] && !upNext then SendFailed else Sent
                        else if Completed(old(buf), m) != [] && !up then SendFailed else Sent
      decreases |buf|
    {
      if closed {
        return Closed;
      }
      if asyncErr {
        asyncErr := false;
        return AsyncFailure;
      }
      if maxMemoryBytes > 0 && bufBytes + m.Size() > maxMemoryBytes && |buf| > 0 {
        HandOver();
        if !up {
          return FlushFailed;
        }
        r := Send(m, upNext, upNext);
        return;
      }
      r := Append(m, up);
    }

    method Flush(up: bool) returns (ok: bool)
      requires Valid()
      modifies this`buf, this`bufBytes, this`timer, this`batches
      ensures Valid() && buf == []
      ensures batches == (if old(buf) == [] then old(batches) else old(batches) + [old(buf)])
      ensures ok == (old(buf) == [] || up)
    {
      if |buf| == 0 {
        return true;
      }
      HandOver();
      return up;
    }

    /** The linger timer has gone off. */
    method FlushFromTimer(up: bool)
      requires Valid()
      modifies this`buf, this`bufBytes, this`timer, this`batches, this`asyncErr
      ensures Valid() && buf == []
      ensures batches == (if old(buf) == [] then old(batches) else old(batches) + [old(buf)])
      ensures asyncErr == (old(asyncErr) || (old(buf) != [] && !up))
    {
      var ok := Flush(up);
      if !ok {
        asyncErr := true;
      }
    }

    /** Drains the buffer once and for all: from here on everything accepted has been handed over. */
    method Close(up: bool) returns (ok: bool)
      requires Valid()
      modifies this`buf, this`bufBytes, this`timer, this`batches, this`closed
      ensures Valid() && closed && Flat(batches) == accepted
      ensures batches == (if old(buf) == [] then old(batches) else old(batches) + [old(buf)])
      ensures ok == (old(closed) || old(buf) == [] || up)
    {
      if closed {
        assert Flat(batches) + buf == Flat(batches);
        return true;
      }
      closed := true;
      if |buf| == 0 {
        assert Flat(batches) + buf == Flat(batches);
        return true;
      }
      HandOver();
      assert Flat(batches) + buf == Flat(batches);
      return up;
    }
  }
}
