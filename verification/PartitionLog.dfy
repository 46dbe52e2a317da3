/**
 The partition log on values: the write-ahead log, the three kinds of record in it, and what a
 read at an offset means.
 */
module PartitionLog {
  import opened Wrappers
  import opened Wire

  // ----- the write-ahead log

  /** Records at the contiguous indices first, first + 1, ... */
  datatype Wal = Wal(first: nat, records: seq<Bytes>) {
    /** The index of the last record; one less than first when there is none. */
    function Last(): int {
      first + |records| - 1
    }

    function Read(i: nat): Result<Bytes> {
      if first <= i <= Last() then Ok(records[i - first]) else Err
    }

    /** Appends a batch that starts right after the last record; any other batch is out of order. */
    function Append(start: nat, batch: seq<Bytes>): Result<Wal> {
      if start == Last() + 1 then Ok(Wal(first, records + batch)) else Err
    }

    /** Drops the records below i; i itself must be there. */
    function TruncateFront(i: nat): Result<Wal> {
      if first <= i <= Last() then Ok(Wal(i, records[i - first..])) else Err
    }
  }

  // ----- codecs

  datatype Codec = Codec(encode: Bytes -> Result<Bytes>, decode: Bytes -> Result<Bytes>)

  /** Decoding gives back what was encoded. */
  ghost predicate Inverts(c: Codec) {
    forall x: Bytes :: c.encode(x).Ok? ==> c.decode(c.encode(x).value) == Ok(x)
  }

  /** A partition without a batch codec takes the compressed bytes as they are. */
  function Unpacked(codec: Option<Codec>, data: Bytes): Result<Bytes> {
    if codec.Some? then codec.value.decode(data) else Ok(data)
  }

  // ----- records

  const BATCH_MAGIC: Byte := 0xBA
  const REDIRECT_MAGIC: Byte := 0xFF

  function Stamped(m: Message, t: Int64): Message {
    m.(header := m.header.(appendTime := t))
  }

  function StampedAll(msgs: seq<Message>, t: Int64): (r: seq<Message>)
    ensures |r| == |msgs|
  {
    seq(|msgs|, i requires 0 <= i < |msgs| => Stamped(msgs[i], t))
  }

  function PlainRecords(msgs: seq<Message>): (r: seq<Bytes>)
    ensures |r| == |msgs|
  {
    seq(|msgs|, i requires 0 <= i < |msgs| => Marshal(msgs[i]))
  }

  /** The messages one after another, each behind its 32-bit length. */
  function Packed(msgs: seq<Message>): Bytes {
    if msgs == [] then [] else Put(4, EncodedSize(msgs[0])) + Marshal(msgs[0]) + Packed(msgs[1..])
  }

  function LeaderRecord(n: nat, compressed: Bytes): Bytes {
    [BATCH_MAGIC] + Put(4, n) + compressed
  }

  function RedirectRecord(base: nat, i: nat): Bytes {
    [REDIRECT_MAGIC] + Put(8, base) + Put(4, i)
  }

  /** One leader and n - 1 redirects to it. */
  function BatchRecord(n: nat, base: nat, compressed: Bytes, i: nat): Bytes {
    if i == 0 then LeaderRecord(n, compressed) else RedirectRecord(base, i)
  }

  function BatchRecords(n: nat, base: nat, compressed: Bytes): (r: seq<Bytes>)
    ensures |r| == n
  {
    seq(n, i requires 0 <= i < n => BatchRecord(n, base, compressed, i))
  }

  // ----- reading

  /** Message number index of a payload. */
  function Pick(payload: Bytes, index: nat): Result<Message>
    decreases index
  {
    if |payload| < 4 then Err else
      var len := Get(payload[..4]);
      if 4 + len > |payload| then Err
      else if index == 0 then
        var m := Unmarshal(payload[4..4 + len]);
        if m.Ok? then Ok(m.value.(batchDecoded := true)) else Err
      else Pick(payload[4 + len..], index - 1)
  }

  function ReadBatch(codec: Option<Codec>, data: Bytes, index: nat): Result<Message> {
    if |data| < 5 || data[0] != BATCH_MAGIC then Err
    else if index >= Get(data[1..5]) then Err
    else
      var payload := Unpacked(codec, data[5..]);
      if payload.Ok? then Pick(payload.value, index) else Err
  }

  /** What a read at an offset returns, by the first byte of the record there. */
  function ReadAt(log: Wal, codec: Option<Codec>, offset: nat): Result<Message> {
    var data := log.Read(offset);
    if data.Err? || |data.value| == 0 then Err
    else if data.value[0] == REDIRECT_MAGIC then
      if |data.value| < 13 then Err else
        var leader := log.Read(Get(data.value[1..9]));
        if leader.Err? then Err else ReadBatch(codec, leader.value, Get(data.value[9..13]))
    else if data.value[0] == BATCH_MAGIC then ReadBatch(codec, data.value, 0)
    else Unmarshal(data.value)
  }

  // ----- one record per message

  predicate IsMagic(b: Byte) {
    b == BATCH_MAGIC || b == REDIRECT_MAGIC
  }

  lemma UnmarshalsShortKey(data: Bytes)
    ensures Unmarshal(data).Ok? ==> |Unmarshal(data).value.key| < TWO32
  {
    if |data| >= METADATA_SIZE {
      GetIsSmall(data[25..29]);
      Powers();
    }
  }

  /** What is found in a batch is marked as such, and its key length fits its field. */
  lemma PickIsDecoded(payload: Bytes, index: nat)
    ensures var r := Pick(payload, index); r.Ok? ==> r.value.batchDecoded && |r.value.key| < TWO32
  {
    forall data: Bytes { UnmarshalsShortKey(data); }
  }

  /** A plain record reads back as its message exactly when the first byte, its priority, is no magic number. */
  lemma PlainReads(log: Wal, codec: Option<Codec>, offset: nat, m: Message)
    requires log.Read(offset) == Ok(Marshal(m)) && |m.key| < TWO32 && !m.batchDecoded
    ensures ReadAt(log, codec, offset) == Ok(m) <==> !IsMagic(m.header.priority)
  {
    RoundTrip(m);
    assert Marshal(m)[0] == m.header.priority;
    var data := Marshal(m);
    if IsMagic(data[0]) {
      var r := ReadAt(log, codec, offset);
      if r.Ok? {
        assert r.value.batchDecoded by {
          forall p: Bytes, i: nat { PickIsDecoded(p, i); }
        }
      }
    }
  }

  /**
   What is read in place of a plain record with a magic priority: the record passes for a batch of its
   own, or for a redirect to the offset in its timestamp and the index in its produce time.
   */
  function ReadInstead(log: Wal, codec: Option<Codec>, m: Message): Result<Message> {
    if m.header.priority == BATCH_MAGIC then ReadBatch(codec, Marshal(m), 0)
    else
      var leader := log.Read(Unsigned(m.header.timestamp));
      if leader.Err? then Err else ReadBatch(codec, leader.value, Unsigned(m.header.produceTime) / TWO32)
  }

  lemma MagicReads(log: Wal, codec: Option<Codec>, offset: nat, m: Message)
    requires log.Read(offset) == Ok(Marshal(m)) && IsMagic(m.header.priority)
    ensures ReadAt(log, codec, offset) == ReadInstead(log, codec, m)
  {
    var data := Marshal(m);
    assert data[0] == m.header.priority;
    if m.header.priority == REDIRECT_MAGIC {
      Powers();
      assert data[1..9] == Put(8, Unsigned(m.header.timestamp)) && data[9..17] == Put(8, Unsigned(m.header.produceTime));
      GetPut(8, Unsigned(m.header.timestamp));
      PutPrefix(4, 4, Unsigned(m.header.produceTime));
      assert data[9..13] == data[9..17][..4] == Put(4, Unsigned(m.header.produceTime) / TWO32);
      GetPut(4, Unsigned(m.header.produceTime) / TWO32);
    }
  }

  /** Header, key and value come back exactly when the priority is not magic, or what is read instead is the same. */
  lemma ContentReadsIff(log: Wal, codec: Option<Codec>, offset: nat, m: Message)
    requires log.Read(offset) == Ok(Marshal(m)) && |m.key| < TWO32 && !m.batchDecoded
    ensures ReadAt(log, codec, offset).Ok? && SameMessage(ReadAt(log, codec, offset).value, m)
       <==> !IsMagic(m.header.priority)
            || (ReadInstead(log, codec, m).Ok? && SameMessage(ReadInstead(log, codec, m).value, m))
  {
    if IsMagic(m.header.priority) {
      MagicReads(log, codec, offset, m);
    } else {
      PlainReads(log, codec, offset, m);
    }
  }

  /** Without a codec a record that passes for a batch never gives its own contents back: it would have to contain itself. */
  lemma BatchLookalikeDiffers(log: Wal, m: Message)
    requires m.header.priority == BATCH_MAGIC && ReadInstead(log, None, m).Ok?
    ensures !SameMessage(ReadInstead(log, None, m).value, m)
  {
    var payload := Marshal(m)[5..];
    var len := Get(payload[..4]);
    Canonical(payload[4..4 + len]);
  }

  // ----- one compressed batch

  predicate Packable(msgs: seq<Message>) {
    && |msgs| < TWO32
    && forall i | 0 <= i < |msgs| :: EncodedSize(msgs[i]) < TWO32
  }

  /** Walking the length prefixes finds every message of a packed payload. */
  lemma {:induction false} PickPacked(msgs: seq<Message>, i: nat)
    requires i < |msgs| && forall j | 0 <= j < |msgs| :: EncodedSize(msgs[j]) < TWO32
    ensures Pick(Packed(msgs), i) == Ok(msgs[i].(batchDecoded := true))
  {
    var payload, len := Packed(msgs), EncodedSize(msgs[0]);
    Powers();
    GetPut(4, len);
    assert payload[..4] == Put(4, len);
    assert payload[4..4 + len] == Marshal(msgs[0]);
    assert payload[4 + len..] == Packed(msgs[1..]);
    if i == 0 {
      RoundTrip(msgs[0]);
    } else {
      PickPacked(msgs[1..], i - 1);
    }
  }

  lemma LeaderReads(codec: Option<Codec>, msgs: seq<Message>, compressed: Bytes, i: nat)
    requires Packable(msgs) && i < |msgs| && Unpacked(codec, compressed) == Ok(Packed(msgs))
    ensures ReadBatch(codec, LeaderRecord(|msgs|, compressed), i) == Ok(msgs[i].(batchDecoded := true))
  {
    var data := LeaderRecord(|msgs|, compressed);
    Powers();
    GetPut(4, |msgs|);
    assert data[1..5] == Put(4, |msgs|) && data[5..] == compressed;
    PickPacked(msgs, i);
  }

  lemma RedirectPoints(base: nat, i: nat)
    requires base < TWO64
    ensures var data := RedirectRecord(base, i);
            && |data| == 13 && data[0] == REDIRECT_MAGIC && Get(data[1..9]) == base
            && (i < TWO32 ==> Get(data[9..13]) == i)
  {
    var data := RedirectRecord(base, i);
    Powers();
    GetPut(8, base);
    assert data[1..9] == Put(8, base) && data[9..13] == Put(4, i);
    if i < TWO32 {
      GetPut(4, i);
    }
  }

  lemma RedirectReads(log: Wal, codec: Option<Codec>, base: nat, i: nat, offset: nat)
    requires base < TWO64 && i < TWO32 && log.Read(offset) == Ok(RedirectRecord(base, i))
    ensures ReadAt(log, codec, offset)
         == if log.Read(base).Err? then Err else ReadBatch(codec, log.Read(base).value, i)
  {
    RedirectPoints(base, i);
  }

  lemma LeaderRecordReads(log: Wal, codec: Option<Codec>, n: nat, compressed: Bytes, offset: nat)
    requires log.Read(offset) == Ok(LeaderRecord(n, compressed))
    ensures ReadAt(log, codec, offset) == ReadBatch(codec, LeaderRecord(n, compressed), 0)
  {
  }

  /** Every offset of a stored batch reads through its leader, and fails without it. */
  lemma BatchRecordReads(log: Wal, codec: Option<Codec>, n: nat, compressed: Bytes, base: nat, i: nat)
    requires i < n < TWO32 && base < TWO64
    requires log.Read(base + i) == Ok(BatchRecord(n, base, compressed, i))
    requires log.Read(base) == Err || log.Read(base) == Ok(LeaderRecord(n, compressed))
    ensures ReadAt(log, codec, base + i)
         == if log.Read(base).Ok? then ReadBatch(codec, LeaderRecord(n, compressed), i) else Err
  {
    if i > 0 {
      RedirectReads(log, codec, base, i, base + i);
    } else {
      LeaderRecordReads(log, codec, n, compressed, base);
    }
  }

  /**
   A record that passes for a redirect can give its own contents back: sent once at the head of a batch
   at offset 1, and once more on its own with that offset in its timestamp.
   */
  lemma RedirectLookalike(log: Wal, codec: Option<Codec>, msgs: seq<Message>, compressed: Bytes, m: Message, offset: nat)
    requires Packable(msgs) && msgs != [] && SameMessage(msgs[0], m) && Unpacked(codec, compressed) == Ok(Packed(msgs))
    requires m.header.priority == REDIRECT_MAGIC && m.header.timestamp == 1 && 0 <= m.header.produceTime < TWO32
    requires log.Read(1) == Ok(LeaderRecord(|msgs|, compressed)) && log.Read(offset) == Ok(Marshal(m))
    ensures ReadAt(log, codec, offset).Ok? && SameMessage(ReadAt(log, codec, offset).value, m)
  {
    var leader := LeaderRecord(|msgs|, compressed);
    assert ReadInstead(log, codec, m) == ReadBatch(codec, leader, 0) by {
      assert Unsigned(m.header.timestamp) == 1 && Unsigned(m.header.produceTime) / TWO32 == 0;
    }
    assert ReadBatch(codec, leader, 0) == Ok(msgs[0].(batchDecoded := true)) by {
      LeaderReads(codec, msgs, compressed, 0);
    }
    MagicReads(log, codec, offset, m);
  }

  // ----- what the log stands for

  datatype Batch = Batch(base: nat, msgs: seq<Message>, compressed: Bytes)

  /** What is behind one offset: a message of its own, or a member of a compressed batch. */
  datatype Slot = Plain(msg: Message) | Member(batch: Batch, index: nat)

  function RecordOf(s: Slot): Bytes {
    match s
    case Plain(m) => Marshal(m)
    case Member(b, i) => BatchRecord(|b.msgs|, b.base, b.compressed, i)
  }

  function MessageOf(s: Slot): Message
    requires s.Member? ==> s.index < |s.batch.msgs|
  {
    match s
    case Plain(m) => m
    case Member(b, i) => b.msgs[i].(batchDecoded := true)
  }

  /** The offset whose record holds the message. */
  function BaseOf(s: Slot, offset: nat): nat {
    if s.Member? then s.batch.base else offset
  }

  /** The log holds the record of every slot from first on; slots[o - 1] is behind offset o. */
  predicate Represents(log: Wal, slots: seq<Slot>) {
    && log.first >= 1 && log.Last() == |slots|
    && (forall o | 1 <= o <= |slots| :: Placed(slots, o))
    && forall o | log.first <= o <= |slots| :: Recorded(log, slots, o)
  }

  predicate Recorded(log: Wal, slots: seq<Slot>, o: nat)
    requires log.first <= o && 1 <= o <= |slots|
  {
    log.Read(o) == Ok(RecordOf(slots[o - 1]))
  }

  /** A batch member sits at its index after the leader of the same batch. */
  predicate Placed(slots: seq<Slot>, o: nat)
    requires 1 <= o <= |slots|
  {
    match slots[o - 1]
    case Plain(_) => true
    case Member(b, i) => i < |b.msgs| && 1 <= b.base && b.base + i == o && slots[b.base - 1] == Member(b, 0)
  }

  /** The slot was written so that it can be read back. */
  predicate Faithful(codec: Option<Codec>, s: Slot) {
    match s
    case Plain(m) => !IsMagic(m.header.priority) && |m.key| < TWO32 && !m.batchDecoded
    case Member(b, _) => Packable(b.msgs) && b.base < TWO64 && Unpacked(codec, b.compressed) == Ok(Packed(b.msgs))
  }

  lemma MemberReads(log: Wal, codec: Option<Codec>, b: Batch, i: nat)
    requires i < |b.msgs| && Faithful(codec, Member(b, i))
    requires log.Read(b.base + i) == Ok(BatchRecord(|b.msgs|, b.base, b.compressed, i))
    requires log.Read(b.base) == Err || log.Read(b.base) == Ok(LeaderRecord(|b.msgs|, b.compressed))
    ensures ReadAt(log, codec, b.base + i) == if log.Read(b.base).Ok? then Ok(MessageOf(Member(b, i))) else Err
  {
    BatchRecordReads(log, codec, |b.msgs|, b.compressed, b.base, i);
    LeaderReads(codec, b.msgs, b.compressed, i);
  }

  lemma MemberSlotReads(log: Wal, codec: Option<Codec>, slots: seq<Slot>, o: nat, b: Batch, i: nat)
    requires Represents(log, slots) && log.first <= o <= |slots| && slots[o - 1] == Member(b, i)
    requires Faithful(codec, Member(b, i)) && Placed(slots, o) && Recorded(log, slots, o)
    ensures ReadAt(log, codec, o) == if log.first <= b.base then Ok(MessageOf(Member(b, i))) else Err
  {
    if log.first <= b.base {
      assert Recorded(log, slots, b.base) && slots[b.base - 1] == Member(b, 0);
    } else {
      assert log.Read(b.base) == Err;
    }
    assert log.Read(o) == Ok(BatchRecord(|b.msgs|, b.base, b.compressed, i));
    MemberReads(log, codec, b, i);
  }

  /** A retained offset reads as its message, unless the leader of its batch has been cut off. */
  lemma SlotReads(log: Wal, codec: Option<Codec>, slots: seq<Slot>, o: nat)
    requires Represents(log, slots) && log.first <= o <= |slots| && Faithful(codec, slots[o - 1])
    ensures Placed(slots, o)
    ensures ReadAt(log, codec, o) == if log.first <= BaseOf(slots[o - 1], o) then Ok(MessageOf(slots[o - 1])) else Err
  {
    assert Placed(slots, o) && Recorded(log, slots, o);
    match slots[o - 1]
    case Plain(m) => PlainReads(log, codec, o, m);
    case Member(b, i) => MemberSlotReads(log, codec, slots, o, b, i);
  }

  lemma NothingOutside(log: Wal, codec: Option<Codec>, slots: seq<Slot>, o: nat)
    requires Represents(log, slots) && (o < log.first || o > |slots|)
    ensures ReadAt(log, codec, o) == Err
  {
  }

  // ----- what the operations do to it

  function PlainSlots(msgs: seq<Message>): (r: seq<Slot>)
    ensures |r| == |msgs|
  {
    seq(|msgs|, i requires 0 <= i < |msgs| => Plain(msgs[i]))
  }

  function BatchSlots(b: Batch): (r: seq<Slot>)
    ensures |r| == |b.msgs|
  {
    seq(|b.msgs|, i requires 0 <= i < |b.msgs| => Member(b, i))
  }

  function RecordsOf(slots: seq<Slot>): (r: seq<Bytes>)
    ensures |r| == |slots|
  {
    seq(|slots|, i requires 0 <= i < |slots| => RecordOf(slots[i]))
  }

  lemma AppendKeeps(log: Wal, slots: seq<Slot>, more: seq<Slot>)
    requires Represents(log, slots)
    requires forall o | |slots| < o <= |slots| + |more| :: Placed(slots + more, o)
    ensures Represents(Wal(log.first, log.records + RecordsOf(more)), slots + more)
  {
    var log', slots' := Wal(log.first, log.records + RecordsOf(more)), slots + more;
    forall o | 1 <= o <= |slots'|
      ensures Placed(slots', o)
    {
      assert o <= |slots| ==> Placed(slots, o);
    }
    forall o | log.first <= o <= |slots'|
      ensures Recorded(log', slots', o)
    {
      if o <= |slots| {
        assert Recorded(log, slots, o);
      }
    }
  }

  lemma PlainAppendKeeps(log: Wal, slots: seq<Slot>, msgs: seq<Message>)
    requires Represents(log, slots)
    ensures log.Append(|slots| + 1, PlainRecords(msgs)).Ok?
    ensures Represents(log.Append(|slots| + 1, PlainRecords(msgs)).value, slots + PlainSlots(msgs))
  {
    assert RecordsOf(PlainSlots(msgs)) == PlainRecords(msgs);
    AppendKeeps(log, slots, PlainSlots(msgs));
  }

  lemma BatchAppendKeeps(log: Wal, slots: seq<Slot>, b: Batch)
    requires Represents(log, slots) && b.base == |slots| + 1
    ensures log.Append(b.base, BatchRecords(|b.msgs|, b.base, b.compressed)).Ok?
    ensures Represents(log.Append(b.base, BatchRecords(|b.msgs|, b.base, b.compressed)).value, slots + BatchSlots(b))
  {
    assert RecordsOf(BatchSlots(b)) == BatchRecords(|b.msgs|, b.base, b.compressed);
    AppendKeeps(log, slots, BatchSlots(b));
  }

  lemma TruncateKeeps(log: Wal, slots: seq<Slot>, i: nat)
    requires Represents(log, slots) && log.TruncateFront(i).Ok?
    ensures Represents(log.TruncateFront(i).value, slots)
  {
    forall o | i <= o <= |slots|
      ensures Recorded(log.TruncateFront(i).value, slots, o)
    {
      assert Recorded(log, slots, o);
    }
  }

  // ----- the fast path refines the plain one

  /** A message that every path can carry. */
  predicate Ordinary(m: Message) {
    !IsMagic(m.header.priority) && EncodedSize(m) < TWO32 && !m.batchDecoded
  }

  function AppendedPlain(log: Wal, msgs: seq<Message>): Wal {
    Wal(log.first, log.records + PlainRecords(msgs))
  }

  function AppendedBatch(log: Wal, b: Batch): Wal {
    Wal(log.first, log.records + BatchRecords(|b.msgs|, b.base, b.compressed))
  }

  lemma PlainAppendReads(log: Wal, codec: Option<Codec>, slots: seq<Slot>, msgs: seq<Message>, i: nat)
    requires Represents(log, slots) && i < |msgs| && Ordinary(msgs[i])
    ensures ReadAt(AppendedPlain(log, msgs), codec, |slots| + 1 + i) == Ok(msgs[i])
  {
    PlainAppendKeeps(log, slots, msgs);
    SlotReads(AppendedPlain(log, msgs), codec, slots + PlainSlots(msgs), |slots| + 1 + i);
  }

  lemma BatchAppendReads(log: Wal, codec: Option<Codec>, slots: seq<Slot>, b: Batch, i: nat)
    requires Represents(log, slots) && i < |b.msgs| && b.base == |slots| + 1
    requires Faithful(codec, Member(b, i))
    ensures ReadAt(AppendedBatch(log, b), codec, b.base + i) == Ok(b.msgs[i].(batchDecoded := true))
  {
    BatchAppendKeeps(log, slots, b);
    SlotReads(AppendedBatch(log, b), codec, slots + BatchSlots(b), b.base + i);
  }

  /** What an inverting codec makes of a packed batch can be unpacked. */
  lemma InvertsUnpacks(c: Codec, payload: Bytes)
    requires Inverts(c) && c.encode(payload).Ok?
    ensures Unpacked(Some(c), c.encode(payload).value) == Ok(payload)
  {
  }

  /**
   From the same log, a compressed batch and a plain batch take up the same offsets, and at each
   of them the same header, key and value are read.
   */
  lemma BatchRefinesPlain(log: Wal, codec: Option<Codec>, slots: seq<Slot>, b: Batch, i: nat)
    requires Represents(log, slots) && b.base == |slots| + 1 < TWO64 && i < |b.msgs| < TWO32
    requires forall j | 0 <= j < |b.msgs| :: Ordinary(b.msgs[j])
    requires Unpacked(codec, b.compressed) == Ok(Packed(b.msgs))
    ensures AppendedPlain(log, b.msgs).Last() == AppendedBatch(log, b).Last() == |slots| + |b.msgs|
    ensures ReadAt(AppendedPlain(log, b.msgs), codec, b.base + i) == Ok(b.msgs[i])
    ensures ReadAt(AppendedBatch(log, b), codec, b.base + i) == Ok(b.msgs[i].(batchDecoded := true))
  {
    PlainAppendReads(log, codec, slots, b.msgs, i);
    BatchAppendReads(log, codec, slots, b, i);
  }

  // ----- retention by size

  function Size(records: seq<Bytes>): nat {
    if records == [] then 0 else |records[0]| + Size(records[1..])
  }

  lemma {:induction false} SizeOfSuffix(records: seq<Bytes>, i: nat, j: nat)
    requires i <= j <= |records|
    ensures Size(records[j..]) <= Size(records[i..])
    ensures i < |records| ==> Size(records[i..]) == |records[i]| + Size(records[i + 1..])
    decreases j - i
  {
    if i < |records| {
      assert records[i..][1..] == records[i + 1..];
    }
    if i < j {
      SizeOfSuffix(records, i + 1, j);
    }
  }

  /** What is left after dropping as few oldest records as possible to get within max. */
  predicate Shrinks(records: seq<Bytes>, max: int, k: nat) {
    && k <= |records|
    && (k < |records| ==> Size(records[k..]) <= max)
    && (k > 0 ==> Size(records[k - 1..]) > max)
  }

  lemma ShrinksWithin(records: seq<Bytes>, max: int, k: nat)
    requires records != [] && Shrinks(records, max, k)
    ensures k < |records| <==> |records[|records| - 1]| <= max
    ensures Size(if k < |records| then records[k..] else records) <= max <==> k < |records|
  {
    var n := |records|;
    SizeOfSuffix(records, n - 1, n);
    assert records[0..] == records;
    if k < n {
      SizeOfSuffix(records, k, n - 1);
    } else {
      SizeOfSuffix(records, 0, n - 1);
    }
  }
}
