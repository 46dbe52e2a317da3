/** Publishing to and consuming from the partitions of one topic. */
module Broker {
  import opened Wrappers
  import opened Wire
  import opened PartitionLog
  import opened Publishing
  import opened Serving
  import P = Partition

  function Members(groups: map<int, seq<nat>>, p: int): seq<nat> {
    if p in groups then groups[p] else []
  }

  /** The groups are the shares among the first n inputs, empty ones left out. */
  ghost predicate Grouped(call: Call, cfg: Config, groups: map<int, seq<nat>>, n: nat)
    requires call.WellFormed() && n <= |call.msgs|
  {
    && (forall p | p in groups :: groups[p] == call.Share(cfg, p, n) != [])
    && (forall i: nat | i < n && call.Accepts(cfg, i, call.choices[i]) :: call.choices[i] in groups)
  }

  /** A partition with a share has a group. */
  lemma ShareHasGroup(call: Call, cfg: Config, groups: map<int, seq<nat>>, n: nat, p: int)
    requires call.WellFormed() && n <= |call.msgs| && Grouped(call, cfg, groups, n)
    requires call.Share(cfg, p, n) != []
    ensures p in groups
  {
    var first := call.Share(cfg, p, n)[0];
    assert call.Accepts(cfg, first, call.choices[first]);
  }

  /** All accepted inputs go to one partition. */
  ghost predicate Lone(call: Call, cfg: Config)
    requires call.WellFormed()
  {
    exists p :: call.Share(cfg, p, |call.msgs|) != []
                && forall q | q != p :: call.Share(cfg, q, |call.msgs|) == []
  }

  /** Every accepted input goes to partition p. */
  ghost predicate Alone(call: Call, cfg: Config, p: int)
    requires call.WellFormed()
  {
    forall j: nat, q | j < |call.msgs| && call.Accepts(cfg, j, q) :: q == p
  }

  lemma LoneIff(call: Call, cfg: Config, i: nat)
    requires call.WellFormed() && i < |call.msgs| && call.Accepts(cfg, i, call.choices[i])
    ensures call.Share(cfg, call.choices[i], |call.msgs|) != []
    ensures Lone(call, cfg) <==> Alone(call, cfg, call.choices[i])
  {
    var n, p := |call.msgs|, call.choices[i];
    var _ := ShareHas(call, cfg, p, n, i);
    if Lone(call, cfg) {
      forall j: nat, q | j < n && call.Accepts(cfg, j, q)
        ensures q == p
      {
        var _ := ShareHas(call, cfg, q, n, j);
      }
    }
    if Alone(call, cfg, p) {
      forall q | call.Share(cfg, q, n) != []
        ensures q == p
      {
        assert call.Accepts(cfg, call.Share(cfg, q, n)[0], q);
      }
    }
  }

  lemma SizeOne(s: set<int>)
    ensures |s| == 1 <==> exists p :: s == {p}
  {
    if |s| == 1 {
      assert (forall q :: q !in s) ==> s == {};
      var p :| p in s;
      assert |s - {p}| == 0;
      assert s == {p};
    }
  }

  lemma LoneIsOneGroup(call: Call, cfg: Config, groups: map<int, seq<nat>>)
    requires call.WellFormed() && Grouped(call, cfg, groups, |call.msgs|)
    ensures |groups| == 1 <==> Lone(call, cfg)
  {
    var keys, n := groups.Keys, |call.msgs|;
    SizeOne(keys);
    forall p
      ensures p in keys <==> call.Share(cfg, p, n) != []
    {
      if call.Share(cfg, p, n) != [] {
        ShareHasGroup(call, cfg, groups, n, p);
      }
    }
    if exists p :: keys == {p} {
      var p :| keys == {p};
      assert call.Share(cfg, p, n) != [] && forall q | q != p :: call.Share(cfg, q, n) == [];
    }
    if Lone(call, cfg) {
      var p :| call.Share(cfg, p, n) != [] && forall q | q != p :: call.Share(cfg, q, n) == [];
      forall q | q in keys
        ensures q == p
      {
        assert call.Share(cfg, q, n) != [];
      }
      assert p in keys && keys == {p};
    }
  }

  lemma GroupStep(call: Call, cfg: Config, groups: map<int, seq<nat>>, i: nat)
    requires call.WellFormed() && i < |call.msgs| && Grouped(call, cfg, groups, i)
    ensures !call.Accepts(cfg, i, call.choices[i]) ==> Grouped(call, cfg, groups, i + 1)
    ensures var c := call.choices[i];
            call.Accepts(cfg, i, c) ==> Grouped(call, cfg, groups[c := Members(groups, c) + [i]], i + 1)
  {
    if call.Share(cfg, call.choices[i], i) != [] {
      ShareHasGroup(call, cfg, groups, i, call.choices[i]);
    }
  }

  method PickOne(s: set<int>) returns (p: int)
    requires s != {}
    ensures p in s
  {
    assert (forall q :: q !in s) ==> s == {};
    p :| p in s;
  }

  /** Gives each member of a share its offset. */
  method Record(results: seq<Outcome>, share: seq<nat>, p: nat, offsets: seq<nat>) returns (out: seq<Outcome>)
    requires |offsets| == |share| && forall k | 0 <= k < |share| :: share[k] < |results|
    requires forall a, b | 0 <= a < b < |share| :: share[a] < share[b]
    ensures |out| == |results|
    ensures forall k | 0 <= k < |share| :: out[share[k]] == Accepted(p, offsets[k])
    ensures forall i: nat | i < |results| && i !in share :: out[i] == results[i]
  {
    out := results;
    var k := 0;
    while k < |share|
      invariant 0 <= k <= |share| && |out| == |results|
      invariant forall l | 0 <= l < k :: out[share[l]] == Accepted(p, offsets[l])
      invariant forall i: nat | i < |results| && i !in share[..k] :: out[i] == results[i]
    {
      out := out[share[k] := Accepted(p, offsets[k])];
      k := k + 1;
    }
  }

  /**
   A consumer at the offset a single message was published to is handed its header, its key and its
   value as it was before the call exactly when the length of its key fits its field and its priority
   is no magic byte, or what is read in its place happens to be the same.
   */
  lemma SentIsDelivered(cfg: Config, slots: seq<Slot>, log: Wal, m: Message, produced: Int64, appended: Int64)
    requires Sound(cfg) && cfg.codec.encode(m.value).Ok? && !m.batchDecoded && log.first <= |slots| + 1
    requires var h := Header(m.header.priority, m.header.timestamp, produced, appended);
             Represents(log, slots + [Plain(Message(h, m.key, cfg.codec.encode(m.value).value, false))])
    ensures var o, h := |slots| + 1, Header(m.header.priority, m.header.timestamp, produced, appended);
            var c := ConsumeAt(cfg, log, BatchCodec(cfg), o, o);
            var instead := ReadInstead(log, BatchCodec(cfg), Message(h, m.key, cfg.codec.encode(m.value).value, false));
            c.Delivered? && c.msg.header == h && c.msg.key == m.key && c.msg.value == m.value
            <==> && |m.key| < TWO32
                 && (m.header.priority == 0xBA || m.header.priority == 0xFF ==>
                       instead.Ok? && instead.value.header == h && instead.value.key == m.key && instead.value.value == m.value)
  {
    var o, h := |slots| + 1, Header(m.header.priority, m.header.timestamp, produced, appended);
    var s := Message(h, m.key, cfg.codec.encode(m.value).value, false);
    assert Recorded(log, slots + [Plain(s)], o);
    if IsMagic(m.header.priority) {
      MagicReads(log, BatchCodec(cfg), o, s);
      InsteadIsDecoded(log, BatchCodec(cfg), s);
    } else if |m.key| < TWO32 {
      PlainReads(log, BatchCodec(cfg), o, s);
    } else {
      assert Marshal(s)[0] == m.header.priority;
      UnmarshalsShortKey(Marshal(s));
    }
  }

  lemma InsteadIsDecoded(log: Wal, codec: Option<Codec>, m: Message)
    ensures var r := ReadInstead(log, codec, m); r.Ok? ==> r.value.batchDecoded && |r.value.key| < TWO32
  {
    forall p: Bytes, i: nat { PickIsDecoded(p, i); }
  }

  class Topic {
    const parts: seq<P.Partition>
    const cfg: Config

    ghost predicate Valid()
      reads parts
    {
      && (forall p | 0 <= p < |parts| :: parts[p].Valid() && parts[p].batchCodec == BatchCodec(cfg))
      && (forall p, q | 0 <= p < q < |parts| :: parts[p] != parts[q])
    }

    ghost function Slots(): (s: seq<seq<Slot>>)
      reads parts
      ensures |s| == |parts|
    {
      seq(|parts|, p requires 0 <= p < |parts| reads parts => parts[p].slots)
    }

    /** What a consumer of partition p finds; a partition that does not exist is an error at every offset. */
    ghost function View(p: int): View
      requires 0 <= p < |parts| ==> parts[p].nextOffset > 0
      reads parts
    {
      if 0 <= p < |parts| then ViewOf(cfg, parts[p].log, parts[p].batchCodec, parts[p].nextOffset - 1)
      else (o: nat) => Failed
    }

    constructor (n: nat, cfg: Config)
      ensures Valid() && this.cfg == cfg && |parts| == n && fresh(parts)
      ensures forall p | 0 <= p < n :: parts[p].slots == [] && parts[p].Synced()
    {
      var ps: seq<P.Partition> := [];
      while |ps| < n
        invariant |ps| <= n && fresh(ps)
        invariant forall p | 0 <= p < |ps| ::
                    ps[p].Valid() && ps[p].Synced() && ps[p].slots == [] && ps[p].batchCodec == BatchCodec(cfg)
        invariant forall p, q | 0 <= p < q < |ps| :: ps[p] != ps[q]
      {
        var part := new P.Partition(BatchCodec(cfg));
        ps := ps + [part];
      }
      parts := ps;
      this.cfg := cfg;
    }

    /** An acceptable input joins the group of its partition. */
    method Join(call: Call, groups: map<int, seq<nat>>, i: nat) returns (next: map<int, seq<nat>>)
      requires call.WellFormed() && i < |call.msgs| && Grouped(call, cfg, groups, i)
      ensures Grouped(call, cfg, next, i + 1)
    {
      GroupStep(call, cfg, groups, i);
      if TooLarge(cfg, call.msgs[i]) || call.closed[i] {
        return groups;
      }
      var p := call.choices[i];
      assert call.Accepts(cfg, i, p);
      return groups[p := Members(groups, p) + [i]];
    }

    /** Sorts the acceptable inputs by partition, in input order. */
    method Group(call: Call) returns (groups: map<int, seq<nat>>)
      requires call.WellFormed()
      ensures Grouped(call, cfg, groups, |call.msgs|)
    {
      groups := map[];
      var i := 0;
      while i < |call.msgs|
        invariant 0 <= i <= |call.msgs| && Grouped(call, cfg, groups, i)
      {
        groups := Join(call, groups, i);
        i := i + 1;
      }
    }

    /** The inputs of a share, with their produce time. */
    method Collect(call: Call, share: seq<nat>) returns (batch: seq<Message>)
      requires forall k | 0 <= k < |share| :: share[k] < |call.msgs|
      ensures |batch| == |share|
      ensures forall k | 0 <= k < |share| :: Stamped(batch[k], call.appended) == call.Prepared(share[k])
    {
      batch := [];
      var k := 0;
      while k < |share|
        invariant 0 <= k <= |share| && |batch| == k
        invariant forall l | 0 <= l < k :: Stamped(batch[l], call.appended) == call.Prepared(share[l])
      {
        var m := call.msgs[share[k]];
        batch := batch + [m.(header := m.header.(produceTime := call.produced))];
        k := k + 1;
      }
    }

    /** Encodes every value on its own; nothing when one fails. */
    method EncodeValues(batch: seq<Message>, ghost t: Int64) returns (r: Result<seq<Message>>)
      ensures r.Ok? <==> EncodedValues(cfg.codec, StampedAll(batch, t)).Ok?
      ensures r.Ok? ==> |r.value| == |batch|
      ensures r.Ok? ==> StampedAll(r.value, t) == EncodedValues(cfg.codec, StampedAll(batch, t)).value
    {
      var out: seq<Message> := [];
      ghost var all := StampedAll(batch, t);
      var k := 0;
      while k < |batch|
        invariant 0 <= k <= |batch| && |out| == k
        invariant EncodedValues(cfg.codec, all[..k]).Ok?
        invariant StampedAll(out, t) == EncodedValues(cfg.codec, all[..k]).value
      {
        assert all[..k + 1][..k] == all[..k];
        var v := cfg.codec.encode(batch[k].value);
        if v.Err? {
          EncodingFails(cfg.codec, all, k + 1);
          return Err;
        }
        out := out + [batch[k].(value := v.value)];
        k := k + 1;
      }
      assert all[..|batch|] == all;
      r := Ok(out);
    }

    /** Appends one partition's share on the path its size and the configuration call for. */
    method AppendShare(part: P.Partition, batch: seq<Message>, t: Int64, io: bool) returns (r: Result<seq<nat>>)
      requires part.Valid() && batch != []
      modifies part`log, part`nextOffset, part`slots
      ensures part.Valid() && part.log.first == old(part.log).first
      ensures var more := ShareSlots(cfg, old(|part.slots|) + 1, StampedAll(batch, t));
              && (r.Ok? <==> io && old(part.Synced()) && more.Some?)
              && (r.Ok? ==> && part.slots == old(part.slots) + more.value && part.Synced()
                            && r.value == seq(|batch|, i => old(|part.slots|) + 1 + i))
              && (r.Err? ==> part.slots == old(part.slots))
    {
      if cfg.compressing && |batch| > 1 {
        r := part.AppendBatchCompressed(batch, cfg.codec, t, io);
      } else {
        var ready := batch;
        if cfg.compressing {
          var values := EncodeValues(batch, t);
          if values.Err? {
            return Err;
          }
          ready := values.value;
        }
        r := part.AppendBatch(ready, t, io);
      }
    }

    /** The partition can take its share: there is one, and nothing stops the write. */
    ghost predicate Takes(call: Call, p: int, part: P.Partition, gate: int -> bool, io: int -> bool)
      requires call.WellFormed()
      reads part
    {
      && call.Share(cfg, p, |call.msgs|) != [] && gate(p) && io(p) && part.Synced()
      && ShareSlots(cfg, |part.slots| + 1, call.PreparedShare(cfg, p)).Some?
    }

    /** The partitions that can take their share in this call. */
    ghost function Writable(call: Call, gate: int -> bool, io: int -> bool): set<nat>
      requires call.WellFormed()
      reads parts
    {
      set p: nat | p < |parts| && Takes(call, p, parts[p], gate, io)
    }

    /** Appends the share of one partition. */
    method WriteShare(call: Call, p: nat, part: P.Partition, share: seq<nat>, io: bool) returns (r: Result<seq<nat>>)
      requires call.WellFormed() && part.Valid() && share == call.Share(cfg, p, |call.msgs|) != []
      modifies part`log, part`nextOffset, part`slots
      ensures part.Valid() && part.log.first == old(part.log).first
      ensures var more := ShareSlots(cfg, old(|part.slots|) + 1, call.PreparedShare(cfg, p));
              && (r.Ok? <==> io && old(part.Synced()) && more.Some?)
              && (r.Ok? ==> && part.slots == old(part.slots) + more.value
                            && r.value == seq(|share|, k => old(|part.slots|) + 1 + k))
              && (r.Err? ==> part.slots == old(part.slots))
    {
      var batch := Collect(call, share);
      assert StampedAll(batch, call.appended) == call.PreparedShare(cfg, p);
      r := AppendShare(part, batch, call.appended, io);
    }

    /** Appends the share of partition p and gives its members their offsets. */
    method PublishShare(call: Call, p: nat, share: seq<nat>, io: bool, results: seq<Outcome>,
                        ghost before: seq<seq<Slot>>, ghost wrote: set<nat>)
      returns (out: seq<Outcome>, ghost ok: bool)
      requires Valid() && call.WellFormed() && p < |parts| && p !in wrote
      requires Published(cfg, call, before, Slots(), wrote, results) && parts[p].slots == before[p]
      requires share == call.Share(cfg, p, |call.msgs|) != []
      modifies parts[p]
      ensures Valid() && parts[p].log.first == old(parts[p].log.first)
      ensures ok <==> io && old(parts[p].Synced()) && ShareSlots(cfg, |before[p]| + 1, call.PreparedShare(cfg, p)).Some?
      ensures Published(cfg, call, before, Slots(), if ok then wrote + {p} else wrote, out)
    {
      ghost var was := Slots();
      var r := WriteShare(call, p, parts[p], share, io);
      out, ok := results, r.Ok?;
      if r.Ok? {
        forall a: nat, b: nat | a < b < |share| { ShareIsOrdered(call, cfg, p, |call.msgs|, a, b); }
        out := Record(results, share, p, r.value);
        assert Slots() == was[p := parts[p].slots];
        PublishedMore(cfg, call, before, was, wrote, results, p, Slots(), out);
      } else {
        assert Slots() == was;
      }
    }

    /** The partitions in todo are as they were; of the others, exactly those in target have been written. */
    ghost predicate Progress(call: Call, gate: int -> bool, io: int -> bool, before: seq<seq<Slot>>,
                             target: set<nat>, wrote: set<nat>, todo: set<int>)
      requires call.WellFormed() && |before| == |parts|
      reads parts
    {
      && wrote <= target && (forall p | p in target :: p < |parts| && (p in wrote <==> p !in todo))
      && forall p | p in todo && 0 <= p < |parts| ::
           parts[p].slots == before[p] && (p in target <==> Takes(call, p, parts[p], gate, io))
    }

    /** Publishes the share of one partition, unless there is no such partition or its I/O slot is refused. */
    method PublishGroup(call: Call, p: int, share: seq<nat>, gate: int -> bool, io: int -> bool, results: seq<Outcome>,
                        ghost before: seq<seq<Slot>>, ghost target: set<nat>, ghost wrote: set<nat>, ghost todo: set<int>)
      returns (out: seq<Outcome>, ghost now: set<nat>)
      requires Valid() && call.WellFormed() && |before| == |parts|
      requires Published(cfg, call, before, Slots(), wrote, results)
      requires Progress(call, gate, io, before, target, wrote, todo)
      requires p in todo && share == call.Share(cfg, p, |call.msgs|) != []
      modifies parts
      ensures Valid() && Published(cfg, call, before, Slots(), now, out)
      ensures Progress(call, gate, io, before, target, now, todo - {p})
      ensures forall q | 0 <= q < |parts| :: parts[q].log.first == old(parts[q].log.first)
    {
      out, now := results, wrote;
      if gate(p) && 0 <= p < |parts| {
        ghost var ok;
        var q: nat := p;
        assert forall o | 0 <= o < |parts| && o != q :: parts[o] != parts[q];
        out, ok := PublishShare(call, q, share, io(p), results, before, wrote);
        now := if ok then wrote + {q} else wrote;
        assert ok <==> q in target;
      }
    }

    /** Which partitions get an I/O slot: the only group of a call does not ask for one. */
    ghost function Admission(call: Call, gate: int -> bool): int -> bool
      requires call.WellFormed()
    {
      if Lone(call, cfg) then p => true else gate
    }

    /** The partition of an acceptable input is written exactly when nothing stops its share. */
    lemma WritableIff(call: Call, gate: int -> bool, io: int -> bool, i: nat)
      requires call.WellFormed() && i < |call.msgs| && call.Accepts(cfg, i, call.choices[i])
      ensures var p := call.choices[i];
              p >= 0 && p in Writable(call, Admission(call, gate), io)
              <==> && 0 <= p < |parts| && (gate(p) || Alone(call, cfg, p)) && io(p) && parts[p].Synced()
                   && ShareSlots(cfg, |parts[p].slots| + 1, call.PreparedShare(cfg, p)).Some?
    {
      LoneIff(call, cfg, i);
    }

    /**
     Publishes a batch. gate and io say for each partition whether an I/O slot is granted and
     the write succeeds; the groups are appended in no particular order.
     */
    method PublishBatch(call: Call, gate: int -> bool, io: int -> bool) returns (results: seq<Outcome>)
      requires Valid() && call.WellFormed()
      modifies parts
      ensures Valid()
      ensures Published(cfg, call, old(Slots()), Slots(), old(Writable(call, Admission(call, gate), io)), results)
      ensures forall i | 0 <= i < |results| ::
                var p := call.choices[i];
                results[i].Accepted?
                <==> && (cfg.maxMessageBytes <= 0 || |call.msgs[i].key| + |call.msgs[i].value| <= cfg.maxMessageBytes)
                     && !call.closed[i] && 0 <= p < |parts| && (gate(p) || Alone(call, cfg, p)) && io(p)
                     && old(parts[p].Synced())
                     && ShareSlots(cfg, |old(parts[p].slots)| + 1, call.PreparedShare(cfg, p)).Some?
      ensures forall p | 0 <= p < |parts| :: parts[p].log.first == old(parts[p].log.first)
    {
      ghost var before, target := Slots(), Writable(call, Admission(call, gate), io);
      forall i: nat | i < |call.msgs| && call.Accepts(cfg, i, call.choices[i]) {
        WritableIff(call, gate, io, i);
      }
      var groups := Group(call);
      LoneIsOneGroup(call, cfg, groups);
      if |groups| == 1 {
        results := PublishGroups(call, groups, p => true, io);
      } else {
        results := PublishGroups(call, groups, gate, io);
      }
      forall i | 0 <= i < |results|
        ensures results[i].Accepted?
           <==> && (cfg.maxMessageBytes <= 0 || |call.msgs[i].key| + |call.msgs[i].value| <= cfg.maxMessageBytes)
                && !call.closed[i] && call.choices[i] >= 0 && call.choices[i] in target
      {
        AcceptedIff(cfg, call, before, Slots(), target, results, i);
      }
    }

    /** Publishes every group, one after the other. */
    method PublishGroups(call: Call, groups: map<int, seq<nat>>, gate: int -> bool, io: int -> bool)
      returns (results: seq<Outcome>)
      requires Valid() && call.WellFormed() && Grouped(call, cfg, groups, |call.msgs|)
      modifies parts
      ensures Valid()
      ensures Published(cfg, call, old(Slots()), Slots(), old(Writable(call, gate, io)), results)
      ensures forall p | 0 <= p < |parts| :: parts[p].log.first == old(parts[p].log.first)
    {
      results := seq(|call.msgs|, i => Rejected);
      var todo := groups.Keys;
      ghost var wrote: set<nat>, before, target := {}, Slots(), Writable(call, gate, io);
      forall p: nat | p in target
        ensures p in todo
      {
        ShareHasGroup(call, cfg, groups, |call.msgs|, p);
      }
      while todo != {}
        invariant todo <= groups.Keys && Valid()
        invariant Published(cfg, call, before, Slots(), wrote, results)
        invariant Progress(call, gate, io, before, target, wrote, todo)
        invariant forall p | 0 <= p < |parts| :: parts[p].log.first == old(parts[p].log.first)
        decreases todo
      {
        var p := PickOne(todo);
        results, wrote := PublishGroup(call, p, groups[p], gate, io, results, before, target, wrote, todo);
        todo := todo - {p};
      }
      assert wrote == target;
    }

    /** Publishes one message, always through the codec of the configuration. */
    method Publish(m: Message, choice: int, closed: bool, produced: Int64, appended: Int64, io: bool) returns (r: Outcome)
      requires Valid()
      modifies parts
      ensures Valid() && forall p | 0 <= p < |parts| :: parts[p].log.first == old(parts[p].log.first)
      ensures var v := cfg.codec.encode(m.value);
              && (r.Accepted? <==> && (cfg.maxMessageBytes <= 0 || |m.key| + |m.value| <= cfg.maxMessageBytes)
                                   && !closed && v.Ok? && 0 <= choice < |parts| && io && old(parts[choice].Synced()))
              && (r.Accepted? ==>
                    && r == Accepted(choice, |old(parts[choice].slots)| + 1)
                    && var h := Header(m.header.priority, m.header.timestamp, produced, appended);
                       var s := Plain(Message(h, m.key, v.value, m.batchDecoded));
                       Slots() == old(Slots())[choice := old(Slots())[choice] + [s]])
              && (r.Rejected? ==> Slots() == old(Slots()))
    {
      if TooLarge(cfg, m) {
        return Rejected;
      }
      var v := cfg.codec.encode(m.value);
      if v.Err? || closed || choice < 0 || choice >= |parts| {
        return Rejected;
      }
      var sent := m.(value := v.value, header := m.header.(produceTime := produced));
      var offsets := parts[choice].AppendBatch([sent], appended, io);
      ghost var h := Header(m.header.priority, m.header.timestamp, produced, appended);
      assert PlainSlots(StampedAll([sent], appended)) == [Plain(Message(h, m.key, v.value, m.batchDecoded))];
      r := if offsets.Ok? then Accepted(choice, offsets.value[0]) else Rejected;
    }

    /** Reads the message at a consumer's offset and undoes its compression. */
    method ConsumeFrom(p: int, offset: nat) returns (c: Consumed)
      requires 0 <= p < |parts| ==> parts[p].nextOffset > 0
      ensures c == View(p)(offset)
      ensures c.Delivered? ==> 0 <= p < |parts| && offset < parts[p].nextOffset && c.next == offset + 1
    {
      if p < 0 || p >= |parts| {
        return Failed;
      }
      var hwm := parts[p].HighWaterMark();
      if offset > hwm {
        assert NoMessages == ConsumeAt(cfg, parts[p].log, parts[p].batchCodec, hwm, offset);
        return NoMessages;
      }
      var m := parts[p].Read(offset);
      if m.Err? {
        assert Failed == ConsumeAt(cfg, parts[p].log, parts[p].batchCodec, hwm, offset);
        return Failed;
      }
      var d := Decompressed(cfg, m.value);
      c := if d.Ok? then Delivered(d.value, offset + 1) else Failed;
      assert c == ConsumeAt(cfg, parts[p].log, parts[p].batchCodec, hwm, offset);
    }
  }

  /**
   A consumer at an accepted input's offset is handed the caller's key and value, the caller's priority
   and timestamp and the clock of the call, on every compression path. Only the share it travelled with
   matters.
   */
  lemma AcceptedIsDelivered(cfg: Config, call: Call, before: seq<seq<Slot>>, after: seq<seq<Slot>>,
                            wrote: set<nat>, results: seq<Outcome>, log: Wal, i: nat)
    requires call.WellFormed() && Sound(cfg) && Published(cfg, call, before, after, wrote, results)
    requires i < |results| && results[i].Accepted? && results[i].partition < |after| == |before|
    requires var p := results[i].partition;
             && Represents(log, after[p]) && log.first <= |before[p]| + 1 < TWO64
             && forall k | 0 <= k < |call.PreparedShare(cfg, p)| && call.Share(cfg, p, |call.msgs|)[k] == i ::
                  Carried(cfg, call.PreparedShare(cfg, p), k)
    ensures var p, o := results[i].partition, results[i].offset;
            var c := ConsumeAt(cfg, log, BatchCodec(cfg), |after[p]|, o);
            && c.Delivered? && c.next == o + 1 && c.msg.key == call.msgs[i].key && c.msg.value == call.msgs[i].value
            && c.msg.header == Header(call.msgs[i].header.priority, call.msgs[i].header.timestamp, call.produced, call.appended)
  {
    var p, o := results[i].partition, results[i].offset;
    var k := AcceptedIsInShare(cfg, call, before, after, wrote, results, i);
    var share, base := call.PreparedShare(cfg, p), |before[p]| + 1;
    ShareDelivers(cfg, base, share, k);
    assert after[p][o - 1] == ShareSlots(cfg, base, share).value[k];
    assert Placed(after[p], o);
    ShareIsRetained(cfg, base, share, k);
    ServedIff(cfg, log, BatchCodec(cfg), after[p], o);
  }

  /** No slot of a share is read from before the share. */
  lemma ShareIsRetained(cfg: Config, base: nat, msgs: seq<Message>, k: nat)
    requires ShareSlots(cfg, base, msgs).Some? && k < |ShareSlots(cfg, base, msgs).value|
    ensures BaseOf(ShareSlots(cfg, base, msgs).value[k], base + k) >= base
  {
  }

  /** One more partition wrote its share. */
  lemma PublishedMore(cfg: Config, call: Call, before: seq<seq<Slot>>, was: seq<seq<Slot>>, wrote: set<nat>,
                      results: seq<Outcome>, p: nat, after: seq<seq<Slot>>, out: seq<Outcome>)
    requires call.WellFormed() && Published(cfg, call, before, was, wrote, results)
    requires p < |before| && p !in wrote && |after| == |before| && after == was[p := after[p]]
    requires |out| == |results| && Wrote(cfg, call, before[p], after[p], p, out)
    requires forall i: nat | i < |out| && i !in call.Share(cfg, p, |call.msgs|) :: out[i] == results[i]
    ensures Published(cfg, call, before, after, wrote + {p}, out)
  {
    forall q | q in wrote
      ensures Wrote(cfg, call, before[q], after[q], q, out)
    {
      assert Wrote(cfg, call, before[q], was[q], q, results);
      var share := call.Share(cfg, q, |call.msgs|);
      forall k | 0 <= k < |share|
        ensures out[share[k]] == results[share[k]]
      {
        assert call.Accepts(cfg, share[k], q);
      }
    }
    forall i | 0 <= i < |out|
      ensures out[i].Accepted? ==> out[i].partition in wrote + {p} && call.Accepts(cfg, i, out[i].partition)
    {
      if i in call.Share(cfg, p, |call.msgs|) {
        var k :| 0 <= k < |call.Share(cfg, p, |call.msgs|)| && call.Share(cfg, p, |call.msgs|)[k] == i;
        assert out[i] == Accepted(p, |before[p]| + 1 + k);
      } else {
        assert out[i] == results[i];
      }
    }
  }

  lemma {:induction false} EncodingFails(c: Codec, msgs: seq<Message>, n: nat)
    requires n <= |msgs| && EncodedValues(c, msgs[..n]).Err?
    ensures EncodedValues(c, msgs).Err?
  {
    if n < |msgs| {
      EncodingFails(c, msgs[..|msgs| - 1], n) by { assert msgs[..|msgs| - 1][..n] == msgs[..n]; }
    } else {
      assert msgs[..n] == msgs;
    }
  }
}
