/**
 One group consuming one partition, over any run of batches, appends, cuts of the log, commits of any
 group, flushes, expiry and reopening.
 */
module Sessions {
  import opened Wrappers
  import opened Wire
  import opened PartitionLog
  import opened Publishing
  import opened Serving
  import OS = OffsetStore

  // ----- what a batch takes

  /** The messages from offset on, up to max of them, stopping where one is missing or unreadable. */
  function Taken(view: View, offset: nat, max: nat): (r: seq<Message>)
    ensures |r| <= max
    decreases max
  {
    if max == 0 || !view(offset).Delivered? then [] else [view(offset).msg] + Taken(view, offset + 1, max - 1)
  }

  predicate Found(view: View, o: nat, m: Message) {
    view(o).Delivered? && view(o).msg == m
  }

  /** msgs are what is delivered at offset, offset + 1, ... */
  predicate Delivers(view: View, offset: nat, msgs: seq<Message>) {
    forall k | 0 <= k < |msgs| :: Found(view, offset + k, msgs[k])
  }

  lemma DeliversMore(view: View, offset: nat, msgs: seq<Message>, m: Message)
    requires Delivers(view, offset, msgs) && Found(view, offset + |msgs|, m)
    ensures Delivers(view, offset, msgs + [m])
  {
    forall k | 0 <= k < |msgs + [m]|
      ensures Found(view, offset + k, (msgs + [m])[k])
    {
      if k < |msgs| {
        assert Found(view, offset + k, msgs[k]);
      }
    }
  }

  lemma {:induction false} DeliversIsTaken(view: View, offset: nat, msgs: seq<Message>, max: nat)
    requires |msgs| <= max && Delivers(view, offset, msgs)
    requires |msgs| < max ==> !view(offset + |msgs|).Delivered?
    ensures Taken(view, offset, max) == msgs
    decreases msgs
  {
    if msgs != [] {
      assert Found(view, offset + 0, msgs[0]);
      forall k | 0 <= k < |msgs[1..]|
        ensures Found(view, offset + 1 + k, msgs[1..][k])
      {
        assert Found(view, offset + (k + 1), msgs[k + 1]);
      }
      DeliversIsTaken(view, offset + 1, msgs[1..], max - 1);
    }
  }

  /** The converse: a batch is what is delivered, and it stops short only where nothing is. */
  lemma {:induction false} TakenDelivers(view: View, offset: nat, max: nat)
    ensures Delivers(view, offset, Taken(view, offset, max))
    ensures |Taken(view, offset, max)| < max ==> !view(offset + |Taken(view, offset, max)|).Delivered?
    decreases max
  {
    if max > 0 && view(offset).Delivered? {
      TakenDelivers(view, offset + 1, max - 1);
      var rest, all := Taken(view, offset + 1, max - 1), Taken(view, offset, max);
      forall k | 0 <= k < |all|
        ensures Found(view, offset + k, all[k])
      {
        if k > 0 {
          assert Found(view, offset + 1 + (k - 1), rest[k - 1]);
        }
      }
    }
  }

  // ----- sessions

  /** Who consumes, and under which configuration. */
  datatype Reader = Reader(cfg: Config, codec: Option<Codec>, key: string)

  /** The log and what it stands for, the stored offsets of all groups, and everything the reader has fetched. */
  datatype Session = Session(log: Wal, slots: seq<Slot>, cache: OS.Offsets, durable: OS.Offsets, fetched: seq<Message>)

  datatype Event =
    | Grow(more: seq<Slot>)
    | Cut(at: nat)
    | Fetch(max: nat, synced: bool)
    | Commit(key: string, offset: Int64, synced: bool) // by a client, or by another group
    | Dump(written: set<string>)
    | Expire(keys: set<string>)
    | Reopen

  /** Where a group starts: its stored offset read as unsigned, or the beginning of the log. */
  function Load(offsets: OS.Offsets, key: string): nat {
    if key in offsets then Unsigned(offsets[key]) else 1
  }

  /** The log stands for the slots, and their offsets can be stored. */
  predicate Sane(s: Session) {
    Represents(s.log, s.slots) && |s.slots| < OS.MAX_INT64
  }

  function ViewIn(r: Reader, s: Session): View {
    ViewOf(r.cfg, s.log, r.codec, |s.slots|)
  }

  /** A growth adds slots in their places, readable or not. */
  predicate Possible(s: Session, e: Event) {
    e.Grow? ==> && |s.slots| + |e.more| < OS.MAX_INT64
                && forall o | |s.slots| < o <= |s.slots| + |e.more| :: Placed(s.slots + e.more, o)
  }

  function Got(r: Reader, s: Session, max: nat): seq<Message> {
    Taken(ViewIn(r, s), Load(s.cache, r.key), max)
  }

  function Persisted(offsets: OS.Offsets, key: string, offset: Int64, stored: bool): OS.Offsets {
    if stored then offsets[key := offset] else offsets
  }

  function Next(r: Reader, s: Session, e: Event): Session
    requires Sane(s) && Possible(s, e)
  {
    match e
    case Grow(more) => s.(log := Wal(s.log.first, s.log.records + RecordsOf(more)), slots := s.slots + more)
    case Cut(at) =>
      var cut := s.log.TruncateFront(at);
      if cut.Ok? then s.(log := cut.value) else s
    case Fetch(max, synced) =>
      var got := Got(r, s, max);
      GotServes(r, s, max);
      ServesInside(r, s, Load(s.cache, r.key), got);
      if got == [] then s
      else
        var next := Load(s.cache, r.key) + |got|;
        s.(cache := s.cache[r.key := next], durable := Persisted(s.durable, r.key, next, synced), fetched := s.fetched + got)
    case Commit(key, offset, synced) =>
      s.(cache := s.cache[key := offset], durable := Persisted(s.durable, key, offset, synced))
    case Dump(written) => s.(durable := s.durable + map k | k in written && k in s.cache :: s.cache[k])
    case Expire(keys) => s.(cache := s.cache - keys)
    case Reopen => s.(cache := s.durable)
  }

  /** The slot at o is retained and, if it can be read back, delivers m. */
  predicate Serves(r: Reader, s: Session, o: nat, m: Message) {
    1 <= o <= |s.slots| && Retained(s.log, s.slots, o) && Agrees(r, s.slots, o, m)
  }

  predicate Agrees(r: Reader, slots: seq<Slot>, o: nat, m: Message)
    requires 1 <= o <= |slots|
  {
    Readable(r.cfg, r.codec, slots, o) ==> Delivery(r.cfg, slots[o - 1]).value == m
  }

  /** A view delivers at retained slots only, there what the slot holds, and at every one that can be read back. */
  predicate Shows(r: Reader, s: Session, view: View, o: nat) {
    && (view(o).Delivered? ==> Serves(r, s, o, view(o).msg))
    && (1 <= o <= |s.slots| && Retained(s.log, s.slots, o) && Readable(r.cfg, r.codec, s.slots, o) ==> view(o).Delivered?)
  }

  lemma ViewShows(r: Reader, s: Session, o: nat)
    requires Sane(s)
    ensures Shows(r, s, ViewIn(r, s), o)
  {
    assert ViewIn(r, s)(o) == ConsumeAt(r.cfg, s.log, r.codec, |s.slots|, o);
    if o == 0 || o > |s.slots| {
      UnservedOutside(r.cfg, s.log, r.codec, s.slots, o);
    } else if !Retained(s.log, s.slots, o) {
      UnretainedFails(r.cfg, s.log, r.codec, s.slots, o);
    } else if Readable(r.cfg, r.codec, s.slots, o) {
      ServedIff(r.cfg, s.log, r.codec, s.slots, o);
    }
  }

  /** msgs are the deliveries of the retained slots from offset on. */
  predicate ServesAll(r: Reader, s: Session, offset: nat, msgs: seq<Message>) {
    forall k | 0 <= k < |msgs| :: Serves(r, s, offset + k, msgs[k])
  }

  /** The slot at o is in the log, with the record it is read from, and can be read back. */
  predicate Ready(r: Reader, s: Session, o: nat) {
    1 <= o <= |s.slots| && Retained(s.log, s.slots, o) && Readable(r.cfg, r.codec, s.slots, o)
  }

  lemma TakenServes(r: Reader, s: Session, view: View, from: nat, max: nat)
    requires forall o: nat :: Shows(r, s, view, o)
    ensures ServesAll(r, s, from, Taken(view, from, max))
    ensures |Taken(view, from, max)| < max ==> !Ready(r, s, from + |Taken(view, from, max)|)
  {
    var got := Taken(view, from, max);
    TakenDelivers(view, from, max);
    forall k | 0 <= k < |got|
      ensures Serves(r, s, from + k, got[k])
    {
      assert Found(view, from + k, got[k]);
      assert Shows(r, s, view, from + k);
    }
    assert Shows(r, s, view, from + |got|);
  }

  /**
   A batch is the deliveries of consecutive retained slots from the group's offset on. It stops short
   only at the end of the log, at a slot whose record is gone, or at one that cannot be read back.
   */
  lemma GotServes(r: Reader, s: Session, max: nat)
    requires Sane(s)
    ensures ServesAll(r, s, Load(s.cache, r.key), Got(r, s, max))
    ensures |Got(r, s, max)| < max ==> !Ready(r, s, Load(s.cache, r.key) + |Got(r, s, max)|)
  {
    forall o: nat
      ensures Shows(r, s, ViewIn(r, s), o)
    {
      ViewShows(r, s, o);
    }
    TakenServes(r, s, ViewIn(r, s), Load(s.cache, r.key), max);
  }

  lemma ServesInside(r: Reader, s: Session, offset: nat, msgs: seq<Message>)
    requires ServesAll(r, s, offset, msgs)
    ensures msgs != [] ==> 1 <= offset && offset + |msgs| <= |s.slots| + 1
  {
    if msgs != [] {
      assert Serves(r, s, offset + 0, msgs[0]) && Serves(r, s, offset + (|msgs| - 1), msgs[|msgs| - 1]);
    }
  }

  /** A batch from a stretch of slots that are all ready is as long as asked for, or reaches the end of the log. */
  lemma BatchIsComplete(r: Reader, s: Session, max: nat)
    requires Sane(s) && 1 <= Load(s.cache, r.key) <= |s.slots| + 1
    requires forall o | Load(s.cache, r.key) <= o <= |s.slots| :: Ready(r, s, o)
    ensures var left := |s.slots| + 1 - Load(s.cache, r.key);
            |Got(r, s, max)| == if max < left then max else left
  {
    GotServes(r, s, max);
    ServesInside(r, s, Load(s.cache, r.key), Got(r, s, max));
  }

  // ----- the steps of the broker are the events

  /** One batch of a session: msgs are handed out, and the stored offsets become those after it. */
  ghost predicate IsFetch(r: Reader, log: Wal, slots: seq<Slot>, cache: OS.Offsets, durable: OS.Offsets, max: nat, synced: bool,
                          msgs: seq<Message>, cache': OS.Offsets, durable': OS.Offsets)
  {
    Sane(Session(log, slots, cache, durable, [])) ==>
      Next(r, Session(log, slots, cache, durable, []), Fetch(max, synced)) == Session(log, slots, cache', durable', msgs)
  }

  /** Taking what the view delivers and committing the offset after it is a fetch. */
  lemma TakenIsFetch(r: Reader, log: Wal, slots: seq<Slot>, cache: OS.Offsets, durable: OS.Offsets, max: nat, synced: bool,
                     msgs: seq<Message>, cache': OS.Offsets, durable': OS.Offsets)
    requires msgs == Taken(ViewOf(r.cfg, log, r.codec, |slots|), Load(cache, r.key), max)
    requires msgs == [] ==> cache' == cache && durable' == durable
    requires msgs != [] ==> var next := Load(cache, r.key) + |msgs|;
                            next <= OS.MAX_INT64 && cache' == cache[r.key := next]
                            && durable' == Persisted(durable, r.key, next, synced)
    ensures IsFetch(r, log, slots, cache, durable, max, synced, msgs, cache', durable')
  {
  }

  /** The slots determine the log, up to where it starts. */
  lemma RecordsAre(log: Wal, slots: seq<Slot>)
    requires Represents(log, slots)
    ensures 1 <= log.first <= |slots| + 1 && log.records == RecordsOf(slots[log.first - 1..])
  {
    forall i | 0 <= i < |log.records|
      ensures log.records[i] == RecordsOf(slots[log.first - 1..])[i]
    {
      assert Recorded(log, slots, log.first + i);
    }
  }

  lemma RecordsConcat(slots: seq<Slot>, more: seq<Slot>, k: nat)
    requires k <= |slots|
    ensures RecordsOf((slots + more)[k..]) == RecordsOf(slots[k..]) + RecordsOf(more)
  {
    assert (slots + more)[k..] == slots[k..] + more;
  }

  /** Any append that leaves the front of the log alone is a growth by the slots it adds. */
  lemma AppendIsGrowth(log: Wal, slots: seq<Slot>, more: seq<Slot>, after: Wal)
    requires Represents(log, slots) && Represents(after, slots + more) && after.first == log.first
    ensures after == Wal(log.first, log.records + RecordsOf(more))
    ensures forall o | |slots| < o <= |slots| + |more| :: Placed(slots + more, o)
  {
    RecordsAre(log, slots);
    RecordsAre(after, slots + more);
    RecordsConcat(slots, more, log.first - 1);
  }

  /** Whatever share of messages the broker appends is a growth, and the messages it can carry are readable. */
  lemma ShareIsGrowth(r: Reader, s: Session, msgs: seq<Message>)
    requires Sane(s) && Sound(r.cfg) && r.codec == BatchCodec(r.cfg) && |s.slots| + |msgs| < OS.MAX_INT64
    requires ShareSlots(r.cfg, |s.slots| + 1, msgs).Some?
    ensures var more := ShareSlots(r.cfg, |s.slots| + 1, msgs).value;
            && Possible(s, Grow(more)) && |more| == |msgs|
            && forall i: nat | i < |msgs| && Carried(r.cfg, msgs, i) ::
                 Readable(r.cfg, r.codec, s.slots + more, |s.slots| + 1 + i)
  {
    var more := ShareSlots(r.cfg, |s.slots| + 1, msgs).value;
    ShareHasAll(r.cfg, |s.slots| + 1, msgs);
    forall i: nat | i < |msgs| && Carried(r.cfg, msgs, i)
      ensures Readable(r.cfg, r.codec, s.slots + more, |s.slots| + 1 + i)
    {
      ShareIsReadable(r, s.slots, msgs, i);
    }
    forall o | |s.slots| < o <= |s.slots| + |more|
      ensures Placed(s.slots + more, o)
    {
      ShareIsPlaced(r.cfg, s.slots, msgs, o);
    }
  }

  lemma ShareIsPlaced(cfg: Config, slots: seq<Slot>, msgs: seq<Message>, o: nat)
    requires ShareSlots(cfg, |slots| + 1, msgs).Some?
    requires |slots| < o <= |slots| + |ShareSlots(cfg, |slots| + 1, msgs).value|
    ensures Placed(slots + ShareSlots(cfg, |slots| + 1, msgs).value, o)
  {
  }

  lemma ShareIsReadable(r: Reader, slots: seq<Slot>, msgs: seq<Message>, i: nat)
    requires Sound(r.cfg) && r.codec == BatchCodec(r.cfg) && |slots| + 1 < TWO64 && i < |msgs| && Carried(r.cfg, msgs, i)
    requires ShareSlots(r.cfg, |slots| + 1, msgs).Some?
    ensures var more := ShareSlots(r.cfg, |slots| + 1, msgs).value;
            |more| == |msgs| && Readable(r.cfg, r.codec, slots + more, |slots| + 1 + i)
  {
    ShareDelivers(r.cfg, |slots| + 1, msgs, i);
  }

  // ----- whole runs

  /** What one step keeps: the log only grows at its end and shrinks at its front. */
  lemma NextIsSane(r: Reader, s: Session, e: Event)
    requires Sane(s) && Possible(s, e)
    ensures Sane(Next(r, s, e)) && s.slots <= Next(r, s, e).slots && s.log.first <= Next(r, s, e).log.first
  {
    match e
    case Grow(more) => AppendKeeps(s.log, s.slots, more);
    case Cut(at) =>
      if s.log.TruncateFront(at).Ok? {
        TruncateKeeps(s.log, s.slots, at);
      }
    case _ =>
  }

  predicate Steps(r: Reader, run: seq<Session>, events: seq<Event>, i: nat)
    requires i < |events| && |run| == |events| + 1
  {
    Sane(run[i]) && Possible(run[i], events[i]) && run[i + 1] == Next(r, run[i], events[i])
  }

  ghost predicate IsRun(r: Reader, run: seq<Session>, events: seq<Event>) {
    && |run| == |events| + 1 && Sane(run[0])
    && forall i | 0 <= i < |events| :: Steps(r, run, events, i)
  }

  /** The event sets the group's offset other than by consuming. */
  predicate Resets(r: Reader, e: Event) {
    (e.Commit? && e.key == r.key) || (e.Expire? && r.key in e.keys) || e.Reopen?
  }

  /** What has been fetched since start: the deliveries of the slots from there to the group's offset, each once. */
  predicate Gathered(r: Reader, start: nat, s: Session) {
    && Load(s.cache, r.key) == start + |s.fetched|
    && forall k | 0 <= k < |s.fetched| :: Holds(r, s.slots, start + k, s.fetched[k])
  }

  predicate Holds(r: Reader, slots: seq<Slot>, o: nat, m: Message) {
    1 <= o <= |slots| && Agrees(r, slots, o, m)
  }

  lemma FetchGathers(r: Reader, start: nat, s: Session, max: nat, synced: bool)
    requires Sane(s) && Gathered(r, start, s)
    ensures Gathered(r, start, Next(r, s, Fetch(max, synced)))
  {
    var got, next := Got(r, s, max), Next(r, s, Fetch(max, synced));
    GotServes(r, s, max);
    ServesInside(r, s, Load(s.cache, r.key), got);
    assert next.slots == s.slots && next.fetched == s.fetched + got;
    forall k | 0 <= k < |next.fetched|
      ensures Holds(r, next.slots, start + k, next.fetched[k])
    {
      if k < |s.fetched| {
        assert Holds(r, s.slots, start + k, s.fetched[k]);
      } else {
        assert Serves(r, s, Load(s.cache, r.key) + (k - |s.fetched|), got[k - |s.fetched|]);
      }
    }
  }

  lemma StillReadable(r: Reader, slots: seq<Slot>, more: seq<Slot>, o: nat)
    requires 1 <= o <= |slots| && Placed(slots, o)
    ensures Readable(r.cfg, r.codec, slots + more, o) <==> Readable(r.cfg, r.codec, slots, o)
  {
  }

  lemma GrowthGathers(r: Reader, start: nat, s: Session, more: seq<Slot>)
    requires Sane(s) && Possible(s, Grow(more)) && Gathered(r, start, s)
    ensures Gathered(r, start, Next(r, s, Grow(more)))
  {
    forall k | 0 <= k < |s.fetched|
      ensures Holds(r, s.slots + more, start + k, s.fetched[k])
    {
      assert Holds(r, s.slots, start + k, s.fetched[k]);
      assert Placed(s.slots, start + k);
      StillReadable(r, s.slots, more, start + k);
    }
  }

  /**
   From whatever offset a group starts, and whatever is appended, cut, flushed or committed by others in
   between, its batches together are consecutive slots of the log from that offset to the one it has
   reached, each delivered as it was written if it can be read back: no gap, no repeat, no reordering.
   */
  lemma {:induction false} FetchesAreTheLog(r: Reader, run: seq<Session>, events: seq<Event>, i: nat)
    requires IsRun(r, run, events) && run[0].fetched == [] && i < |run|
    requires forall k | 0 <= k < i :: !Resets(r, events[k])
    ensures Sane(run[i]) && run[0].slots <= run[i].slots
    ensures Gathered(r, Load(run[0].cache, r.key), run[i])
  {
    if i > 0 {
      FetchesAreTheLog(r, run, events, i - 1);
      assert Steps(r, run, events, i - 1);
      var s, e := run[i - 1], events[i - 1];
      NextIsSane(r, s, e);
      match e
      case Fetch(max, synced) => FetchGathers(r, Load(run[0].cache, r.key), s, max, synced);
      case Grow(more) => GrowthGathers(r, Load(run[0].cache, r.key), s, more);
      case _ =>
    }
  }

  // ----- groups that are not served any more

  /** The group's offset lies in the log's past, and the record it is read from has been cut off. */
  predicate Stuck(r: Reader, s: Session) {
    !Clear(s, Load(s.cache, r.key))
  }

  /** The offset is past the end of the log, or the record it is read from is still there. */
  predicate Clear(s: Session, o: nat) {
    o > |s.slots| || (o >= 1 && Retained(s.log, s.slots, o))
  }

  /** A stuck group gets nothing; any other gets something, unless it is at the end or at a slot that cannot be read back. */
  lemma FetchFailsIff(r: Reader, s: Session, max: nat)
    requires Sane(s) && max > 0
    ensures Stuck(r, s) ==> Got(r, s, max) == []
    ensures var o := Load(s.cache, r.key);
            (1 <= o <= |s.slots| ==> Readable(r.cfg, r.codec, s.slots, o)) ==>
              (Got(r, s, max) == [] <==> o > |s.slots| || Stuck(r, s))
  {
    GotServes(r, s, max);
    if Got(r, s, max) != [] {
      assert Serves(r, s, Load(s.cache, r.key) + 0, Got(r, s, max)[0]);
    }
  }

  /** A group without a stored offset is stuck exactly when anything has been cut from a log that is not empty. */
  lemma NewGroupStuckIff(r: Reader, s: Session)
    requires Sane(s) && r.key !in s.cache
    ensures Stuck(r, s) <==> s.slots != [] && s.log.first > 1
  {
    if s.slots != [] {
      FirstIsRetainedIff(s.log, s.slots);
    }
  }

  /** Where an event that sets the group's offset puts it. */
  function Moved(r: Reader, s: Session, e: Event): nat {
    match e
    case Commit(_, offset, _) => Unsigned(offset)
    case Reopen => Load(s.durable, r.key)
    case _ => 1
  }

  /** The event sets the offset of the group past the log or to a record that is there. */
  predicate Frees(r: Reader, s: Session, e: Event) {
    Resets(r, e) && Clear(s, Moved(r, s, e))
  }

  /** Exactly such an event frees a stuck group; appending, cutting, consuming and everything else leaves it where it is. */
  lemma FreedIff(r: Reader, s: Session, e: Event)
    requires Sane(s) && Possible(s, e) && Stuck(r, s)
    ensures var next := Next(r, s, e);
            && (Stuck(r, next) <==> !Frees(r, s, e)) && next.fetched == s.fetched
            && (!Resets(r, e) ==> Load(next.cache, r.key) == Load(s.cache, r.key))
  {
    NextIsSane(r, s, e);
    match e
    case Fetch(max, _) =>
      if max > 0 {
        FetchFailsIff(r, s, max);
      }
    case _ =>
  }

  /** A stuck group is handed nothing for as long as no event frees it. */
  lemma {:induction false} StuckUntilFreed(r: Reader, run: seq<Session>, events: seq<Event>, i: nat, j: nat)
    requires IsRun(r, run, events) && i <= j < |run| && Sane(run[i]) && Stuck(r, run[i])
    requires forall k | i <= k < j :: !Frees(r, run[k], events[k])
    ensures Sane(run[j]) && Stuck(r, run[j]) && run[j].fetched == run[i].fetched
  {
    if i < j {
      StuckUntilFreed(r, run, events, i, j - 1);
      assert Steps(r, run, events, j - 1);
      NextIsSane(r, run[j - 1], events[j - 1]);
      FreedIff(r, run[j - 1], events[j - 1]);
    }
  }
}
