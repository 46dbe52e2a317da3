/** What a FIFO consumer finds at an offset of a log, and exactly when it is served there. */
module Serving {
  import opened Wrappers
  import opened Wire
  import opened PartitionLog
  import opened Publishing

  /** What one consume step finds. */
  datatype Consumed = Delivered(msg: Message, next: nat) | NoMessages | Failed

  /** The FIFO scheduler: the message at the consumer's offset, once it has been written. */
  function FifoNext(log: Wal, codec: Option<Codec>, hwm: nat, offset: nat): Consumed {
    if offset > hwm then NoMessages
    else
      var m := ReadAt(log, codec, offset);
      if m.Ok? then Delivered(m.value, offset + 1) else Failed
  }

  function ConsumeAt(cfg: Config, log: Wal, codec: Option<Codec>, hwm: nat, offset: nat): Consumed {
    var c := FifoNext(log, codec, hwm, offset);
    if !c.Delivered? then c
    else
      var m := Decompressed(cfg, c.msg);
      if m.Ok? then Delivered(m.value, c.next) else Failed
  }

  /** What a consumer finds at each offset. */
  type View = nat -> Consumed

  /** The view of a partition at this moment. */
  function ViewOf(cfg: Config, log: Wal, codec: Option<Codec>, hwm: nat): View {
    (o: nat) => ConsumeAt(cfg, log, codec, hwm, o)
  }

  /** What a readable slot delivers. */
  function Delivery(cfg: Config, s: Slot): Result<Message>
    requires s.Member? ==> s.index < |s.batch.msgs|
  {
    Decompressed(cfg, MessageOf(s))
  }

  /** The slot was written so that it can be read back and decompressed. */
  predicate Readable(cfg: Config, codec: Option<Codec>, slots: seq<Slot>, o: nat)
    requires 1 <= o <= |slots|
  {
    Placed(slots, o) && Faithful(codec, slots[o - 1]) && Delivery(cfg, slots[o - 1]).Ok?
  }

  /** The record the slot is read from is still in the log. */
  predicate Retained(log: Wal, slots: seq<Slot>, o: nat)
    requires 1 <= o <= |slots|
  {
    log.first <= BaseOf(slots[o - 1], o)
  }

  /** A readable slot is served exactly while the leader of its batch, or the slot itself, is in the log. */
  lemma ServedIff(cfg: Config, log: Wal, codec: Option<Codec>, slots: seq<Slot>, o: nat)
    requires Represents(log, slots) && 1 <= o <= |slots| && Readable(cfg, codec, slots, o)
    ensures ConsumeAt(cfg, log, codec, |slots|, o)
         == if Retained(log, slots, o) then Delivered(Delivery(cfg, slots[o - 1]).value, o + 1) else Failed
  {
    if log.first <= o {
      SlotReads(log, codec, slots, o);
    } else {
      NothingOutside(log, codec, slots, o);
    }
  }

  /** Readable or not, a slot whose record has been cut off is an error. */
  lemma UnretainedFails(cfg: Config, log: Wal, codec: Option<Codec>, slots: seq<Slot>, o: nat)
    requires Represents(log, slots) && 1 <= o <= |slots| < TWO64 && !Retained(log, slots, o)
    ensures ConsumeAt(cfg, log, codec, |slots|, o) == Failed
  {
    if o < log.first {
      NothingOutside(log, codec, slots, o);
    } else {
      assert Placed(slots, o) && Recorded(log, slots, o);
      var b, i := slots[o - 1].batch, slots[o - 1].index;
      assert log.Read(o) == Ok(RedirectRecord(b.base, i)) && log.Read(b.base) == Err;
      RedirectPoints(b.base, i);
    }
  }

  /** There is nothing to serve outside the log. */
  lemma UnservedOutside(cfg: Config, log: Wal, codec: Option<Codec>, slots: seq<Slot>, o: nat)
    requires Represents(log, slots) && (o == 0 || o > |slots|)
    ensures ConsumeAt(cfg, log, codec, |slots|, o) == if o == 0 then Failed else NoMessages
  {
    NothingOutside(log, codec, slots, o);
  }

  /** A new group starts at offset 1, whose record is its own: it is served exactly while nothing has been cut. */
  lemma FirstIsRetainedIff(log: Wal, slots: seq<Slot>)
    requires Represents(log, slots) && slots != []
    ensures Retained(log, slots, 1) <==> log.first == 1
  {
    assert Placed(slots, 1);
  }
}
