/** Consuming in batches, and cutting the log below the slowest group. */
module Consuming {
  import opened Wrappers
  import opened Wire
  import opened PartitionLog
  import opened Publishing
  import opened Serving
  import opened Sessions
  import opened Broker
  import opened OffsetKeys
  import D = Delivery
  import OS = OffsetStore
  import P = Partition

  // ----- consuming from the broker

  /** How a batch ended: with messages, without any, on an unreadable one, or with a failed commit. */
  datatype Status = Served | Empty | Unreadable | NotCommitted

  /** The loop of a batch: one consume after another from the given offset. */
  method TakeBatch(topic: Topic, p: int, offset: nat, max: int, ghost view: View)
    returns (msgs: seq<Message>, last: Consumed)
    requires (0 <= p < |topic.parts| ==> topic.parts[p].nextOffset > 0) && view == topic.View(p)
    ensures msgs == Taken(view, offset, if max > 0 then max else 0)
    ensures msgs == [] ==> last == if max > 0 then view(offset) else NoMessages
    ensures msgs != [] ==> 0 <= p < |topic.parts| && offset + |msgs| <= topic.parts[p].nextOffset
  {
    msgs, last := [], NoMessages;
    var i := 0;
    while i < max
      invariant 0 <= i && (i <= max || i == 0) && |msgs| == i && Delivers(view, offset, msgs)
      invariant if i == 0 then last == NoMessages else 0 <= p < |topic.parts| && offset + i <= topic.parts[p].nextOffset
    {
      var c := topic.ConsumeFrom(p, offset + i);
      assert c == view(offset + i);
      if !c.Delivered? {
        last := c;
        break;
      }
      DeliversMore(view, offset, msgs, c.msg);
      msgs := msgs + [c.msg];
      i := i + 1;
    }
    DeliversIsTaken(view, offset, msgs, if max > 0 then max else 0);
  }

  /** What handing out n messages does to the offset store, and how the batch ends. */
  twostate predicate Settles(store: OS.Store, c: D.Consumer, n: nat, failed: bool, next: nat, status: Status, db: bool)
    reads store
  {
    var from := Load(old(store.cache), D.KeyOf(c));
    && (n == 0 ==> store.World() == old(store.World()) && status == if failed then Unreadable else Empty)
    && (n > 0 ==> && next == from + n <= OS.MAX_INT64 && store.cache == old(store.cache)[D.KeyOf(c) := next]
                  && store.durable == Persisted(old(store.durable), D.KeyOf(c), next, !store.dumping && db)
                  && status == if store.dumping || db then Served else NotCommitted)
    && (from == D.Position(old(store.World()), c) ==>
          store.World() == D.Apply(old(store.World()), D.Consume(c, n, !store.dumping && db)))
  }

  /** Commits the offset after the last of n messages; without any nothing is committed. */
  method Settle(store: OS.Store, c: D.Consumer, from: nat, n: nat, failed: bool, now: int, db: bool)
    returns (next: nat, status: Status)
    requires from == Load(store.cache, D.KeyOf(c)) && (n > 0 ==> from + n <= OS.MAX_INT64)
    modifies store
    ensures Settles(store, c, n, failed, next, status, db)
  {
    if n == 0 {
      return 0, if failed then Unreadable else Empty;
    }
    next := from + n;
    var ok := store.CommitHanded(c, from, n, now, db);
    status := if ok then Served else NotCommitted;
  }

  /** What a group is handed, and what becomes of its offset. */
  twostate predicate Consumes(store: OS.Store, c: D.Consumer, view: View, max: nat, msgs: seq<Message>,
                              next: nat, status: Status, db: bool)
    reads store
  {
    var from := Load(old(store.cache), D.KeyOf(c));
    && msgs == Taken(view, from, max)
    && Settles(store, c, |msgs|, max > 0 && view(from).Failed?, next, status, db)
  }

  /** Takes up to max messages from where the group left off and commits the offset after the last one. */
  method TakeAndCommit(topic: Topic, store: OS.Store, c: D.Consumer, max: int, now: int, db: bool)
    returns (msgs: seq<Message>, next: nat, status: Status)
    requires 0 <= c.partition < |topic.parts| ==> 0 < topic.parts[c.partition].nextOffset <= OS.MAX_INT64
    modifies store
    ensures Consumes(store, c, topic.View(c.partition), if max > 0 then max else 0, msgs, next, status, db)
  {
    var off := store.Load(c.group, c.topic, c.partition);
    var from := if off.Some? then Unsigned(off.value) else 1;
    var last;
    ghost var view := topic.View(c.partition);
    msgs, last := TakeBatch(topic, c.partition, from, max, view);
    next, status := Settle(store, c, from, |msgs|, last.Failed?, now, db);
  }

  /**
   One batch: a consuming step of the delivery model, and a fetch of the group's session with the
   partition. Without any message nothing is committed.
   */
  method ConsumeBatch(topic: Topic, store: OS.Store, name: string, group: string, p: int, max: int, now: int, db: bool)
    returns (msgs: seq<Message>, next: nat, status: Status)
    requires 0 <= p < |topic.parts| ==> 0 < topic.parts[p].nextOffset <= OS.MAX_INT64
    modifies store
    ensures Consumes(store, D.Consumer(name, p, group), topic.View(p), if max > 0 then max else 0, msgs, next, status, db)
    ensures 0 <= p < |topic.parts| && topic.parts[p].Synced() ==>
              var part := topic.parts[p];
              IsFetch(Reader(topic.cfg, part.batchCodec, Key(name, p, group)), part.log, part.slots,
                      old(store.cache), old(store.durable), if max > 0 then max else 0, !store.dumping && db,
                      msgs, store.cache, store.durable)
  {
    msgs, next, status := TakeAndCommit(topic, store, D.Consumer(name, p, group), max, now, db);
    if 0 <= p < |topic.parts| && topic.parts[p].Synced() {
      ghost var part := topic.parts[p];
      ghost var r := Reader(topic.cfg, part.batchCodec, Key(name, p, group));
      ghost var n := if max > 0 then max else 0;
      assert r.key == D.KeyOf(D.Consumer(name, p, group));
      assert msgs == Taken(ViewOf(r.cfg, part.log, r.codec, |part.slots|), Load(old(store.cache), r.key), n);
      assert msgs == [] ==> store.cache == old(store.cache) && store.durable == old(store.durable);
      TakenIsFetch(r, part.log, part.slots, old(store.cache), old(store.durable), n, !store.dumping && db,
                   msgs, store.cache, store.durable);
    }
  }

  /** The broker starts a group where the delivery model does, unless a client has stored a negative offset. */
  lemma LoadIsPosition(w: D.World, cache: OS.Offsets, c: D.Consumer)
    requires w.cache == cache
    ensures Load(cache, D.KeyOf(c)) == D.Position(w, c) <==> (D.KeyOf(c) in cache ==> cache[D.KeyOf(c)] >= 0)
  {
  }

  /** The stored offsets of a session are those of the delivery model. */
  predicate SameOffsets(s: Session, w: D.World) {
    s.cache == w.cache && s.durable == w.durable
  }

  /** Commits, flushes, expiry and reopening do the same to the offsets of a session and of the delivery model. */
  lemma EventsAreOps(r: Reader, s: Session, w: D.World, c: D.Consumer, offset: Int64, synced: bool, keys: set<string>)
    requires Sane(s) && SameOffsets(s, w)
    ensures SameOffsets(Next(r, s, Commit(D.KeyOf(c), offset, synced)), D.Apply(w, D.Commit(c, offset, synced)))
    ensures SameOffsets(Next(r, s, Dump(keys)), D.Apply(w, D.Dump(keys)))
    ensures SameOffsets(Next(r, s, Expire(keys)), D.Apply(w, D.Expire(keys)))
    ensures SameOffsets(Next(r, s, Reopen), D.Apply(w, D.Reopen))
  {
  }

  // ----- retention at the commit floor

  /** Whether retention cuts a log of n records at the floor: past the start, and at a record that is there. */
  predicate Cuts(first: nat, n: nat, floor: int) {
    floor > 1 && first <= floor <= n
  }

  /**
   Exactly when a consumer at a readable offset is still served after retention has run at a floor: the
   record the offset is read from was there, and no cut was made above it.
   */
  lemma ServedAfterFloorIff(cfg: Config, log: Wal, codec: Option<Codec>, slots: seq<Slot>, floor: int, after: Wal, o: nat)
    requires Represents(after, slots) && after.first == if Cuts(log.first, |slots|, floor) then floor else log.first
    requires 1 <= o <= |slots| && Readable(cfg, codec, slots, o)
    ensures ConsumeAt(cfg, after, codec, |slots|, o).Delivered?
       <==> Retained(log, slots, o) && (Cuts(log.first, |slots|, floor) ==> floor <= BaseOf(slots[o - 1], o))
  {
    ServedIff(cfg, after, codec, slots, o);
  }

  /**
   The commit-floor branch of the retention loop. The records at and above every cached offset stay; a
   durable offset is cut off exactly when a cut is made above it. Staying in the log is not enough to be
   served: a consumer at any readable offset is served afterwards exactly when it was before and no cut
   was made above the record that offset is read from.
   */
  method TruncateAtFloor(part: P.Partition, store: OS.Store, name: string, p: int, ghost cfg: Config) returns (floor: Int64)
    requires part.Valid()
    modifies part`log
    ensures part.Valid() && OS.IsFloor(store.cache, Prefix(name, p), floor)
    ensures part.log == if floor > 1 && old(part.log).first <= floor <= |part.slots|
                        then Wal(floor, old(part.log).records[floor - old(part.log).first..]) else old(part.log)
    ensures forall k | k in WithPrefix(store.cache, Prefix(name, p)) ::
              part.log.first <= store.cache[k] <==> old(part.log).first <= store.cache[k]
    ensures forall k | k in WithPrefix(store.durable, Prefix(name, p)) ::
              part.log.first <= store.durable[k]
              <==> && old(part.log).first <= store.durable[k]
                   && (Cuts(old(part.log).first, |part.slots|, floor) ==> floor <= store.durable[k])
    ensures forall o | 1 <= o <= |part.slots| && Readable(cfg, part.batchCodec, part.slots, o) ::
              ConsumeAt(cfg, part.log, part.batchCodec, |part.slots|, o).Delivered?
              <==> && Retained(old(part.log), part.slots, o)
                   && (Cuts(old(part.log).first, |part.slots|, floor) ==> floor <= BaseOf(part.slots[o - 1], o))
  {
    floor := store.CommitFloor(name, p);
    if floor > 1 {
      var ok := part.TruncateFront(floor);
    }
    forall o | 1 <= o <= |part.slots| && Readable(cfg, part.batchCodec, part.slots, o)
      ensures ConsumeAt(cfg, part.log, part.batchCodec, |part.slots|, o).Delivered?
         <==> && Retained(old(part.log), part.slots, o)
              && (Cuts(old(part.log).first, |part.slots|, floor) ==> floor <= BaseOf(part.slots[o - 1], o))
    {
      ServedAfterFloorIff(cfg, old(part.log), part.batchCodec, part.slots, floor, part.log, o);
    }
  }

  /**
   A retained offset stays readable unless the cut separated it from its batch: it reads as
   before exactly when the leader of its batch is retained too.
   */
  lemma RetainedReads(log: Wal, codec: Option<Codec>, slots: seq<Slot>, cut: nat, o: nat)
    requires Represents(log, slots) && log.first <= cut <= o <= |slots|
    requires Faithful(codec, slots[o - 1]) && log.first <= BaseOf(slots[o - 1], o)
    ensures log.TruncateFront(cut).Ok?
    ensures ReadAt(log.TruncateFront(cut).value, codec, o) == ReadAt(log, codec, o) <==> cut <= BaseOf(slots[o - 1], o)
  {
    SlotReads(log, codec, slots, o);
    TruncateKeeps(log, slots, cut);
    SlotReads(log.TruncateFront(cut).value, codec, slots, o);
  }

  // ----- the runs in which a cut at the floor strands a group

  /** A session on an empty log, before anything has been stored. */
  function Fresh(): Session {
    Session(Wal(1, []), [], map[], map[], [])
  }

  /** The session after the given slots have been appended to an empty log. */
  function Filled(slots: seq<Slot>): Session {
    Session(Wal(1, RecordsOf(slots)), slots, map[], map[], [])
  }

  predicate AllReadable(r: Reader, slots: seq<Slot>) {
    forall o | 1 <= o <= |slots| :: Readable(r.cfg, r.codec, slots, o)
  }

  lemma FilledIsSane(r: Reader, slots: seq<Slot>)
    requires AllReadable(r, slots) && |slots| < OS.MAX_INT64
    ensures Possible(Fresh(), Grow(slots)) && Next(r, Fresh(), Grow(slots)) == Filled(slots)
    ensures Sane(Fresh()) && Sane(Filled(slots))
  {
    assert [] + slots == slots && [] + RecordsOf(slots) == RecordsOf(slots);
    forall o | 1 <= o <= |slots|
      ensures Placed(slots, o)
    {
      assert Readable(r.cfg, r.codec, slots, o);
    }
    NextIsSane(r, Fresh(), Grow(slots));
  }

  /** A batch of n messages of an uncut log of readable slots moves the group n places on. */
  lemma FetchMoves(r: Reader, s: Session, n: nat)
    requires Sane(s) && AllReadable(r, s.slots) && s.log.first == 1 && n > 0
    requires 1 <= Load(s.cache, r.key) && Load(s.cache, r.key) + n <= |s.slots| + 1
    ensures var next := Next(r, s, Fetch(n, false));
            && next.log == s.log && next.slots == s.slots && next.durable == s.durable
            && next.cache == s.cache[r.key := Load(s.cache, r.key) + n]
  {
    forall o | Load(s.cache, r.key) <= o <= |s.slots|
      ensures Ready(r, s, o)
    {
      assert Placed(s.slots, o) && Readable(r.cfg, r.codec, s.slots, o);
    }
    BatchIsComplete(r, s, n);
  }

  lemma FloorOfOne(c: D.Consumer, o: Int64)
    ensures OS.IsFloor(map[D.KeyOf(c) := o], Prefix(c.topic, c.partition), o)
  {
    assert D.KeyOf(c) in WithPrefix(map[D.KeyOf(c) := o], Prefix(c.topic, c.partition));
  }

  /** A run from an empty log to s. */
  ghost predicate Leads(r: Reader, run: seq<Session>, events: seq<Event>, s: Session) {
    IsRun(r, run, events) && run[0] == Fresh() && run[|events|] == s && Sane(s)
  }

  lemma Then(r: Reader, run: seq<Session>, events: seq<Event>, s: Session, e: Event)
    returns (run': seq<Session>, events': seq<Event>)
    requires Leads(r, run, events, s) && Possible(s, e)
    ensures run' == run + [Next(r, s, e)] && events' == events + [e] && Leads(r, run', events', Next(r, s, e))
  {
    run', events' := run + [Next(r, s, e)], events + [e];
    NextIsSane(r, s, e);
    forall i | 0 <= i < |events'|
      ensures Steps(r, run', events', i)
    {
      assert i < |events| ==> Steps(r, run, events, i);
    }
  }

  /** A group that has read n messages of an uncut log of readable slots; nothing has been flushed. */
  predicate HasRead(r: Reader, s: Session, slots: seq<Slot>, n: nat) {
    s.log == Filled(slots).log && s.slots == slots && s.cache == map[r.key := n + 1] && s.durable == map[]
  }

  lemma Reads(r: Reader, slots: seq<Slot>, n: nat) returns (run: seq<Session>, events: seq<Event>, s: Session)
    requires AllReadable(r, slots) && 0 < n < |slots| < OS.MAX_INT64
    ensures Leads(r, run, events, s) && events == [Grow(slots), Fetch(n, false)] && HasRead(r, s, slots, n)
  {
    FilledIsSane(r, slots);
    run, events := Then(r, [Fresh()], [], Fresh(), Grow(slots));
    FetchMoves(r, Filled(slots), n);
    run, events := Then(r, run, events, Filled(slots), Fetch(n, false));
    s := Next(r, Filled(slots), Fetch(n, false));
  }

  /**
   Without any crash: one compressed batch fills the log, a group has read o - 1 of its messages, and the
   log is cut at the floor o, inside the batch. The group was about to be served, and now is stuck.
   */
  lemma CutInsideBatch(r: Reader, c: D.Consumer, b: Batch, o: nat)
    returns (run: seq<Session>, events: seq<Event>, before: Session)
    requires b.base == 1 && AllReadable(r, BatchSlots(b)) && 1 < o <= |b.msgs| < OS.MAX_INT64 && r.key == D.KeyOf(c)
    ensures Leads(r, run, events, before) && events == [Grow(BatchSlots(b)), Fetch(o - 1, false)]
    ensures OS.IsFloor(before.cache, Prefix(c.topic, c.partition), o) && Cuts(before.log.first, |before.slots|, o)
    ensures Got(r, before, 1) != [] && Stuck(r, Next(r, before, Cut(o)))
  {
    run, events, before := Reads(r, BatchSlots(b), o - 1);
    FloorOfOne(c, o);
    assert Readable(r.cfg, r.codec, before.slots, o);
    FetchFailsIff(r, before, 1);
  }

  /** A group that has read up to b of an uncut log, and whose offset was flushed at a. */
  predicate WasFlushed(r: Reader, s: Session, slots: seq<Slot>, a: Int64, b: Int64) {
    s.log == Filled(slots).log && s.slots == slots && s.cache == map[r.key := b] && s.durable == map[r.key := a]
  }

  lemma Flushes(r: Reader, slots: seq<Slot>, a: nat) returns (run: seq<Session>, events: seq<Event>, s: Session)
    requires AllReadable(r, slots) && 1 < a <= |slots| < OS.MAX_INT64
    ensures Leads(r, run, events, s) && events == [Grow(slots), Fetch(a - 1, false)] + [Dump({r.key})]
    ensures WasFlushed(r, s, slots, a, a)
  {
    run, events, s := Reads(r, slots, a - 1);
    run, events := Then(r, run, events, s, Dump({r.key}));
    s := Next(r, s, Dump({r.key}));
  }

  lemma ReadsOn(r: Reader, slots: seq<Slot>, a: nat, b: nat) returns (run: seq<Session>, events: seq<Event>, s: Session)
    requires AllReadable(r, slots) && 1 < a < b <= |slots| < OS.MAX_INT64
    ensures Leads(r, run, events, s)
    ensures events == [Grow(slots), Fetch(a - 1, false)] + [Dump({r.key})] + [Fetch(b - a, false)]
    ensures WasFlushed(r, s, slots, a, b)
  {
    run, events, s := Flushes(r, slots, a);
    FetchMoves(r, s, b - a);
    run, events := Then(r, run, events, s, Fetch(b - a, false));
    s := Next(r, s, Fetch(b - a, false));
  }

  /**
   With a crash: a group consumes up to a, the offset is flushed, it consumes up to b, the log is cut at
   the floor b, and reopening takes the group back to a, where it is stuck.
   */
  lemma CutStrands(r: Reader, c: D.Consumer, msgs: seq<Message>, a: nat, b: nat)
    returns (run: seq<Session>, events: seq<Event>, before: Session)
    requires 1 < a < b <= |msgs| < OS.MAX_INT64 && AllReadable(r, PlainSlots(msgs)) && r.key == D.KeyOf(c)
    ensures Leads(r, run, events, before)
    ensures events == [Grow(PlainSlots(msgs)), Fetch(a - 1, false)] + [Dump({r.key})] + [Fetch(b - a, false)]
    ensures OS.IsFloor(before.cache, Prefix(c.topic, c.partition), b) && Cuts(before.log.first, |before.slots|, b)
    ensures var cut := Next(r, before, Cut(b));
            Sane(cut) && Load(Next(r, cut, Reopen).cache, r.key) == a && Stuck(r, Next(r, cut, Reopen))
  {
    run, events, before := ReadsOn(r, PlainSlots(msgs), a, b);
    FloorOfOne(c, b);
    NextIsSane(r, before, Cut(b));
  }
}
