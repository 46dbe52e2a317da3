/** A partition: its log, the next offset and the batch codec, updated in place. */
module Partition {
  import opened Wrappers
  import opened Wire
  import opened PartitionLog

  class Partition {
    var log: Wal
    var nextOffset: nat
    const batchCodec: Option<Codec>
    ghost var slots: seq<Slot>

    /** The log stands for the slots; a failed write leaves nextOffset ahead of it. */
    ghost predicate Valid()
      reads this
    {
      Represents(log, slots) && nextOffset >= |slots| + 1
    }

    /** No write has failed since the partition was opened. */
    ghost predicate Synced()
      reads this
    {
      nextOffset == |slots| + 1
    }

    /** An empty log starts at index 1. */
    constructor (batchCodec: Option<Codec>)
      ensures Valid() && Synced() && slots == [] && this.batchCodec == batchCodec
    {
      log := Wal(1, []);
      nextOffset := 1;
      slots := [];
      this.batchCodec := batchCodec;
    }

    /** Opens the log another partition left behind: the next offset follows the last record. */
    constructor Reopen(left: Wal, ghost slots: seq<Slot>, batchCodec: Option<Codec>)
      requires Represents(left, slots)
      ensures Valid() && Synced() && log == left && this.slots == slots && this.batchCodec == batchCodec
    {
      log := left;
      nextOffset := left.Last() + 1;
      this.slots := slots;
      this.batchCodec := batchCodec;
    }

    /** Writes the batch to the log; io says whether the write itself succeeds. */
    method WriteBatch(start: nat, batch: seq<Bytes>, ghost more: seq<Slot>, io: bool) returns (ok: bool)
      requires Represents(log, slots)
      requires batch == RecordsOf(more)
      requires start == |slots| + 1 ==> forall o | |slots| < o <= |slots| + |more| :: Placed(slots + more, o)
      modifies this`log, this`slots
      ensures Represents(log, slots) && ok == (io && start == old(|slots|) + 1)
      ensures if ok then slots == old(slots) + more && log == Wal(old(log).first, old(log).records + batch)
              else slots == old(slots) && log == old(log)
    {
      var r := log.Append(start, batch);
      ok := io && r.Ok?;
      if ok {
        AppendKeeps(log, slots, more);
        log := r.value;
        slots := slots + more;
      }
    }

    /** One record per message, stamped with the append time. */
    method AppendBatch(msgs: seq<Message>, now: Int64, io: bool) returns (r: Result<seq<nat>>)
      requires Valid()
      modifies this`log, this`nextOffset, this`slots
      ensures Valid() && nextOffset == old(nextOffset) + |msgs|
      ensures r.Ok? <==> msgs == [] || (io && old(Synced()))
      ensures r.Ok? ==> slots == old(slots) + PlainSlots(StampedAll(msgs, now)) && log.first == old(log).first
      ensures r.Ok? ==> forall i | 0 <= i < |msgs| ::
                          var h := msgs[i].header;
                          slots[old(|slots|) + i]
                          == Plain(Message(Header(h.priority, h.timestamp, h.produceTime, now),
                                             msgs[i].key, msgs[i].value, msgs[i].batchDecoded))
      ensures r.Ok? ==> r.value == seq(|msgs|, i => old(nextOffset) + i)
      ensures r.Err? ==> slots == old(slots) && log == old(log)
    {
      if |msgs| == 0 {
        assert slots == slots + PlainSlots(StampedAll(msgs, now));
        return Ok([]);
      }
      var batch: seq<Bytes>, offsets: seq<nat>, start := [], [], nextOffset;
      ghost var stamped := StampedAll(msgs, now);
      var i := 0;
      while i < |msgs|
        invariant 0 <= i <= |msgs| && Valid() && slots == old(slots) && log == old(log)
        invariant nextOffset == start + i && start == old(nextOffset)
        invariant offsets == seq(i, k => start + k)
        invariant |batch| == i && forall k | 0 <= k < i :: batch[k] == Marshal(stamped[k])
      {
        offsets := offsets + [nextOffset];
        batch := batch + [Marshal(Stamped(msgs[i], now))];
        nextOffset := nextOffset + 1;
        i := i + 1;
      }
      assert batch == RecordsOf(PlainSlots(stamped));
      var ok := WriteBatch(start, batch, PlainSlots(stamped), io);
      r := if ok then Ok(offsets) else Err;
    }

    /** Packs the messages behind their lengths into one payload. */
    method Pack(msgs: seq<Message>) returns (payload: Bytes)
      ensures payload == Packed(msgs)
    {
      payload := [];
      var i := 0;
      while i < |msgs|
        invariant 0 <= i <= |msgs|
        invariant payload + Packed(msgs[i..]) == Packed(msgs)
      {
        var encoded := Marshal(msgs[i]);
        assert msgs[i..][1..] == msgs[i + 1..];
        payload := payload + (Put(4, |encoded|) + encoded);
        i := i + 1;
      }
      assert payload == payload + Packed(msgs[|msgs|..]);
    }

    /** One leader record with the whole batch compressed, and a redirect to it for every other message. */
    method AppendBatchCompressed(msgs: seq<Message>, codec: Codec, now: Int64, io: bool) returns (r: Result<seq<nat>>)
      requires Valid()
      modifies this`log, this`nextOffset, this`slots
      ensures Valid()
      ensures var payload := codec.encode(Packed(StampedAll(msgs, now)));
              && (r.Ok? <==> msgs == [] || (payload.Ok? && io && old(Synced())))
              && nextOffset == old(nextOffset) + (if payload.Ok? then |msgs| else 0)
              && (r.Ok? && msgs != [] ==>
                    && log.first == old(log).first
                    && slots == old(slots) + BatchSlots(Batch(old(nextOffset), StampedAll(msgs, now), payload.value)))
      ensures r.Ok? ==> forall i | 0 <= i < |msgs| ::
                          var h, s := msgs[i].header, slots[old(|slots|) + i];
                          && s.Member? && s.index == i < |s.batch.msgs|
                          && s.batch.msgs[i]
                             == Message(Header(h.priority, h.timestamp, h.produceTime, now),
                                          msgs[i].key, msgs[i].value, msgs[i].batchDecoded)
      ensures r.Ok? ==> r.value == seq(|msgs|, i => old(nextOffset) + i)
      ensures r.Err? || msgs == [] ==> slots == old(slots) && log == old(log)
    {
      if |msgs| == 0 {
        return Ok([]);
      }
      var n, stamped := |msgs|, StampedAll(msgs, now);
      var payload := Pack(stamped);
      var compressed := codec.encode(payload);
      if compressed.Err? {
        return Err;
      }
      var base := nextOffset;
      ghost var b := Batch(base, stamped, compressed.value);
      var batch: seq<Bytes>, offsets: seq<nat> := [LeaderRecord(n, compressed.value)], [base];
      nextOffset := nextOffset + 1;
      var i := 1;
      while i < n
        invariant 1 <= i <= n && slots == old(slots) && log == old(log)
        invariant nextOffset == base + i
        invariant offsets == seq(i, k => base + k)
        invariant |batch| == i && forall k | 0 <= k < i :: batch[k] == BatchRecord(n, base, compressed.value, k)
      {
        offsets := offsets + [nextOffset];
        batch := batch + [RedirectRecord(base, i)];
        nextOffset := nextOffset + 1;
        i := i + 1;
      }
      assert batch == RecordsOf(BatchSlots(b));
      var ok := WriteBatch(base, batch, BatchSlots(b), io);
      r := if ok then Ok(offsets) else Err;
    }

    // ----- reading

    method Read(offset: nat) returns (r: Result<Message>)
      ensures r == ReadAt(log, batchCodec, offset)
    {
      var data := log.Read(offset);
      if data.Err? || |data.value| == 0 {
        return Err;
      }
      if data.value[0] == REDIRECT_MAGIC {
        if |data.value| < 13 {
          return Err;
        }
        var base, idx := Get(data.value[1..9]), Get(data.value[9..13]);
        var leader := log.Read(base);
        if leader.Err? {
          return Err;
        }
        r := ReadFromBatchData(leader.value, idx);
      } else if data.value[0] == BATCH_MAGIC {
        r := ReadFromBatchData(data.value, 0);
      } else {
        r := Unmarshal(data.value);
      }
    }

    /** Walks a cursor over the length prefixes of the decompressed payload. */
    method ReadFromBatchData(data: Bytes, index: nat) returns (r: Result<Message>)
      ensures r == ReadBatch(batchCodec, data, index)
    {
      if |data| < 5 || data[0] != BATCH_MAGIC {
        return Err;
      }
      if index >= Get(data[1..5]) {
        return Err;
      }
      var unpacked := Unpacked(batchCodec, data[5..]);
      if unpacked.Err? {
        return Err;
      }
      r := PickFrom(unpacked.value, index);
    }

    static method PickFrom(payload: Bytes, index: nat) returns (r: Result<Message>)
      ensures r == Pick(payload, index)
    {
      var off: nat, i: nat := 0, 0;
      while i <= index
        invariant 0 <= i <= index
        invariant if off <= |payload| then Pick(payload, index) == Pick(payload[off..], index - i) else Pick(payload, index) == Err
      {
        if off + 4 > |payload| {
          return Err;
        }
        var rest := payload[off..];
        assert payload[off..off + 4] == rest[..4];
        var len := Get(payload[off..off + 4]);
        off := off + 4;
        if i == index {
          if off + len > |payload| {
            return Err;
          }
          assert payload[off..off + len] == rest[4..4 + len];
          var m := Unmarshal(payload[off..off + len]);
          return if m.Ok? then Ok(m.value.(batchDecoded := true)) else Err;
        }
        off := off + len;
        if off <= |payload| {
          assert payload[off..] == rest[4 + len..];
        }
        i := i + 1;
      }
      r := Err;
    }

    /** The offset of the newest message, 0 when there is none. */
    method HighWaterMark() returns (hwm: nat)
      ensures Valid() ==> hwm >= |slots|
      ensures Valid() && Synced() ==> hwm == |slots|
      ensures nextOffset > 0 ==> hwm == nextOffset - 1
    {
      hwm := if nextOffset == 0 then 0 else nextOffset - 1;
    }

    // ----- retention

    /** Cuts the log below offset; the offset itself must still be there. */
    method TruncateFront(offset: nat) returns (ok: bool)
      requires Valid()
      modifies this`log
      ensures Valid() && ok == (offset == 0 || old(log).first <= offset <= |slots|)
      ensures log == if ok && offset > 0 then Wal(offset, old(log).records[offset - old(log).first..]) else old(log)
    {
      if offset < 1 {
        return true;
      }
      var r := log.TruncateFront(offset);
      if r.Ok? {
        TruncateKeeps(log, slots, offset);
        log := r.value;
      }
      ok := r.Ok?;
    }

    /**
     Drops the fewest oldest records that bring the log within maxBytes. The cut needs a record
     to stop at, so when even the newest one is too big nothing is dropped and an error is
     returned: the log ends within the limit exactly when its newest record does.
     */
    method TruncateOldestUntilSize(maxBytes: int) returns (r: Result<nat>, bytes: int)
      requires Valid()
      modifies this`log
      ensures Valid()
      ensures old(log).records == [] ==> r == Ok(0) && log == old(log)
      ensures r.Ok? ==> Shrinks(old(log).records, maxBytes, r.value)
                        && log == Wal(old(log).first + r.value, old(log).records[r.value..])
      ensures r.Ok? && r.value > 0 ==> Size(old(log).records[r.value - 1..]) > maxBytes
      ensures r.Err? ==> log == old(log)
      ensures bytes == Size(old(log).records) - Size(log.records)
      ensures var recs := old(log).records;
              recs != [] ==> && (r.Ok? <==> |recs[|recs| - 1]| <= maxBytes)
                             && (Size(log.records) <= maxBytes <==> |recs[|recs| - 1]| <= maxBytes)
    {
      if log.records == [] {
        return Ok(0), 0;
      }
      var total := Measure(log.records);
      var k, deleted := CountOldest(log.records, total, maxBytes);
      ShrinksWithin(log.records, maxBytes, k);
      if k == 0 {
        assert log.records[0..] == log.records;
        return Ok(0), 0;
      }
      var ok := TruncateFront(log.first + k);
      if !ok {
        return Err, 0;
      }
      return Ok(k), deleted;
    }

    static method Measure(records: seq<Bytes>) returns (total: nat)
      ensures total == Size(records)
    {
      total := 0;
      var i := 0;
      assert records[0..] == records;
      while i < |records|
        invariant 0 <= i <= |records| && total + Size(records[i..]) == Size(records)
      {
        SizeOfSuffix(records, i, i);
        total := total + |records[i]|;
        i := i + 1;
      }
    }

    /** How many of the oldest records must go, and how many bytes go with them. */
    static method CountOldest(records: seq<Bytes>, size: nat, maxBytes: int) returns (k: nat, bytes: int)
      requires size == Size(records) && records != []
      ensures Shrinks(records, maxBytes, k) && bytes == Size(records) - Size(records[k..])
    {
      var total := size;
      k, bytes := 0, 0;
      assert records[0..] == records;
      while k < |records| && total > maxBytes
        invariant k <= |records| && total == Size(records[k..]) && bytes == size - total
        invariant k > 0 ==> Size(records[k - 1..]) > maxBytes
      {
        SizeOfSuffix(records, k, k);
        total := total - |records[k]|;
        bytes := bytes + |records[k]|;
        k := k + 1;
      }
    }
  }
}
