/**
 What a batch publish means: which messages each partition accepts, where they go, and what a
 consumer gets back at their offsets on every compression path.
 */
module Publishing {
  import opened Wrappers
  import opened Wire
  import opened PartitionLog

  /** The configuration one publish or consume runs under. */
  datatype Config = Config(maxMessageBytes: int, compressing: bool, codec: Codec)

  /** Without compression the codec is the identity; with it, decoding inverts encoding. */
  ghost predicate Sound(cfg: Config) {
    && Inverts(cfg.codec)
    && (!cfg.compressing ==> forall x: Bytes :: cfg.codec.encode(x) == Ok(x) && cfg.codec.decode(x) == Ok(x))
  }

  /** The codec a partition gets when its topic is created. */
  function BatchCodec(cfg: Config): Option<Codec> {
    if cfg.compressing then Some(cfg.codec) else None
  }

  predicate TooLarge(cfg: Config, m: Message) {
    cfg.maxMessageBytes > 0 && |m.key| + |m.value| > cfg.maxMessageBytes
  }

  // ----- one partition's share

  /** The slots a share of messages becomes, already stamped; nothing when an encoding fails. */
  function ShareSlots(cfg: Config, base: nat, msgs: seq<Message>): Option<seq<Slot>> {
    if cfg.compressing && |msgs| > 1 then
      var packed := cfg.codec.encode(Packed(msgs));
      if packed.Ok? then Some(BatchSlots(Batch(base, msgs, packed.value))) else None
    else if cfg.compressing then
      var values := EncodedValues(cfg.codec, msgs);
      if values.Ok? then Some(PlainSlots(values.value)) else None
    else
      Some(PlainSlots(msgs))
  }

  /** Every value encoded on its own. */
  function EncodedValues(c: Codec, msgs: seq<Message>): (r: Result<seq<Message>>)
    ensures r.Ok? ==> |r.value| == |msgs|
    ensures r.Ok? ==> forall i | 0 <= i < |msgs| ::
                        c.encode(msgs[i].value).Ok? && r.value[i] == msgs[i].(value := c.encode(msgs[i].value).value)
  {
    if msgs == [] then Ok([]) else
      var rest, last := EncodedValues(c, msgs[..|msgs| - 1]), msgs[|msgs| - 1];
      if rest.Err? || c.encode(last.value).Err? then Err
      else Ok(rest.value + [last.(value := c.encode(last.value).value)])
  }

  /** What a consumer makes of a message read from the log. */
  function Decompressed(cfg: Config, m: Message): Result<Message> {
    if m.batchDecoded then Ok(m)
    else
      var v := cfg.codec.decode(m.value);
      if v.Ok? then Ok(m.(value := v.value)) else Err
  }

  lemma ShareHasAll(cfg: Config, base: nat, msgs: seq<Message>)
    requires ShareSlots(cfg, base, msgs).Some?
    ensures |ShareSlots(cfg, base, msgs).value| == |msgs|
  {
  }

  /**
   When a share can be stored, and as what: with compression, several messages become one batch and a
   single one is encoded on its own; without it every message is its own record.
   */
  lemma ShareIsStored(cfg: Config, base: nat, msgs: seq<Message>)
    requires msgs != []
    ensures var s := ShareSlots(cfg, base, msgs);
            && (s.Some? <==> || !cfg.compressing
                             || (if |msgs| > 1 then cfg.codec.encode(Packed(msgs)).Ok? else cfg.codec.encode(msgs[0].value).Ok?))
            && (s.Some? ==> |s.value| == |msgs| && forall i | 0 <= i < |msgs| ::
                  s.value[i].Member? <==> cfg.compressing && |msgs| > 1)
  {
    if |msgs| == 1 {
      assert msgs[..0] == [] && EncodedValues(cfg.codec, msgs[..0]) == Ok([]);
      assert EncodedValues(cfg.codec, msgs).Ok? <==> cfg.codec.encode(msgs[0].value).Ok?;
    }
  }

  /**
   What message i of a share has to meet to be read back: on its own its first byte must not look
   like a batch record, in a compressed batch the lengths must fit their fields.
   */
  predicate Carried(cfg: Config, msgs: seq<Message>, i: nat)
    requires i < |msgs|
  {
    if cfg.compressing && |msgs| > 1 then Packable(msgs)
    else !IsMagic(msgs[i].header.priority) && |msgs[i].key| < TWO32 && !msgs[i].batchDecoded
  }

  /** On every path the slot of message i gives message i back, and can be read. */
  lemma ShareDelivers(cfg: Config, base: nat, msgs: seq<Message>, i: nat)
    requires Sound(cfg) && base < TWO64 && i < |msgs| && Carried(cfg, msgs, i)
    requires ShareSlots(cfg, base, msgs).Some?
    ensures var s := ShareSlots(cfg, base, msgs).value;
            && |s| == |msgs| && (s[i].Member? ==> s[i].index < |s[i].batch.msgs|)
            && Faithful(BatchCodec(cfg), s[i])
            && Decompressed(cfg, MessageOf(s[i])).Ok?
            && SameMessage(Decompressed(cfg, MessageOf(s[i])).value, msgs[i])
  {
    if cfg.compressing && |msgs| > 1 {
      InvertsUnpacks(cfg.codec, Packed(msgs));
    }
  }

  // ----- the whole batch

  /** One call: the messages, the balancer's choice and the backpressure verdict for each, and the clock. */
  datatype Call = Call(msgs: seq<Message>, choices: seq<int>, closed: seq<bool>, produced: Int64, appended: Int64) {
    predicate WellFormed() {
      |choices| == |msgs| == |closed|
    }

    predicate Accepts(cfg: Config, i: nat, p: int)
      requires WellFormed() && i < |msgs|
    {
      !TooLarge(cfg, msgs[i]) && !closed[i] && choices[i] == p
    }

    /** The accepted inputs for partition p among the first n, in input order. */
    function Share(cfg: Config, p: int, n: nat): (s: seq<nat>)
      requires WellFormed() && n <= |msgs|
      ensures forall k | 0 <= k < |s| :: s[k] < n && Accepts(cfg, s[k], p)
    {
      if n == 0 then []
      else if Accepts(cfg, n - 1, p) then Share(cfg, p, n - 1) + [n - 1]
      else Share(cfg, p, n - 1)
    }

    /** An input as it is stored: the call's clock goes into its header, everything else stays. */
    function Prepared(i: nat): Message
      requires i < |msgs|
    {
      Stamped(msgs[i].(header := msgs[i].header.(produceTime := produced)), appended)
    }

    function PreparedShare(cfg: Config, p: int): (r: seq<Message>)
      requires WellFormed()
      ensures |r| == |Share(cfg, p, |msgs|)|
    {
      var s := Share(cfg, p, |msgs|);
      seq(|s|, k requires 0 <= k < |s| => Prepared(s[k]))
    }
  }

  lemma {:induction false} ShareHas(call: Call, cfg: Config, p: int, n: nat, i: nat) returns (k: nat)
    requires call.WellFormed() && i < n <= |call.msgs| && call.Accepts(cfg, i, p)
    ensures k < |call.Share(cfg, p, n)| && call.Share(cfg, p, n)[k] == i
  {
    if i == n - 1 {
      k := |call.Share(cfg, p, n)| - 1;
    } else {
      k := ShareHas(call, cfg, p, n - 1, i);
    }
  }

  lemma {:induction false} ShareIsOrdered(call: Call, cfg: Config, p: int, n: nat, a: nat, b: nat)
    requires call.WellFormed() && n <= |call.msgs| && a < b < |call.Share(cfg, p, n)|
    ensures call.Share(cfg, p, n)[a] < call.Share(cfg, p, n)[b]
  {
    if !call.Accepts(cfg, n - 1, p) || b < |call.Share(cfg, p, n)| - 1 {
      ShareIsOrdered(call, cfg, p, n - 1, a, b);
    }
  }

  datatype Outcome = Accepted(partition: nat, offset: nat) | Rejected

  /**
   Publishing turned the slots before into the slots after: the partitions in wrote took their
   whole share, the others nothing.
   */
  ghost predicate Published(cfg: Config, call: Call, before: seq<seq<Slot>>, after: seq<seq<Slot>>,
                            wrote: set<nat>, results: seq<Outcome>)
    requires call.WellFormed()
  {
    && |after| == |before| && |results| == |call.msgs|
    && (forall p | p in wrote :: p < |before| && Wrote(cfg, call, before[p], after[p], p, results))
    && (forall p | 0 <= p < |before| && p !in wrote :: after[p] == before[p])
    && (forall i | 0 <= i < |results| :: results[i].Accepted? ==>
        results[i].partition in wrote && call.Accepts(cfg, i, results[i].partition))
  }

  /** Partition p took its share as one block, and its members know their offsets. */
  ghost predicate Wrote(cfg: Config, call: Call, before: seq<Slot>, after: seq<Slot>, p: nat, results: seq<Outcome>)
    requires call.WellFormed() && |results| == |call.msgs|
  {
    var share, more := call.Share(cfg, p, |call.msgs|), ShareSlots(cfg, |before| + 1, call.PreparedShare(cfg, p));
    && more.Some? && after == before + more.value
    && forall k | 0 <= k < |share| :: results[share[k]] == Accepted(p, |before| + 1 + k)
  }

  /** An accepted input is somewhere in its partition's block. */
  lemma AcceptedIsInShare(cfg: Config, call: Call, before: seq<seq<Slot>>, after: seq<seq<Slot>>,
                          wrote: set<nat>, results: seq<Outcome>, i: nat) returns (k: nat)
    requires call.WellFormed() && Published(cfg, call, before, after, wrote, results)
    requires i < |results| && results[i].Accepted?
    ensures var p := results[i].partition;
            && p < |before| && k < |call.Share(cfg, p, |call.msgs|)| && call.Share(cfg, p, |call.msgs|)[k] == i
            && results[i].offset == |before[p]| + 1 + k
            && Wrote(cfg, call, before[p], after[p], p, results)
  {
    var p := results[i].partition;
    k := ShareHas(call, cfg, p, |call.msgs|, i);
    assert Wrote(cfg, call, before[p], after[p], p, results);
  }

  /** Exactly the inputs within the limit and not held back whose partition wrote are accepted. */
  lemma AcceptedIff(cfg: Config, call: Call, before: seq<seq<Slot>>, after: seq<seq<Slot>>,
                    wrote: set<nat>, results: seq<Outcome>, i: nat)
    requires call.WellFormed() && Published(cfg, call, before, after, wrote, results) && i < |results|
    ensures results[i].Accepted?
       <==> && (cfg.maxMessageBytes <= 0 || |call.msgs[i].key| + |call.msgs[i].value| <= cfg.maxMessageBytes)
            && !call.closed[i] && call.choices[i] >= 0 && call.choices[i] in wrote
    ensures results[i].Accepted? ==> results[i].partition == call.choices[i]
  {
    var p := call.choices[i];
    if call.Accepts(cfg, i, p) && p >= 0 && p in wrote {
      var k := ShareHas(call, cfg, p, |call.msgs|, i);
      assert Wrote(cfg, call, before[p], after[p], p, results);
    }
  }

  /**
   Accepted inputs get distinct places; in one partition they lie in input order, inside the
   block of slots added by the call.
   */
  lemma PlacesAreOrdered(cfg: Config, call: Call, before: seq<seq<Slot>>, after: seq<seq<Slot>>,
                         wrote: set<nat>, results: seq<Outcome>, i: nat, j: nat)
    requires call.WellFormed() && Published(cfg, call, before, after, wrote, results)
    requires i < j < |results| && results[i].Accepted? && results[j].Accepted?
    ensures results[i] != results[j]
    ensures results[i].partition == results[j].partition ==> results[i].offset < results[j].offset
  {
    var a := AcceptedIsInShare(cfg, call, before, after, wrote, results, i);
    var b := AcceptedIsInShare(cfg, call, before, after, wrote, results, j);
    if results[i].partition == results[j].partition && b < a {
      ShareIsOrdered(call, cfg, results[i].partition, |call.msgs|, b, a);
    }
  }

  /** A partition that wrote holds its share and nothing else new: every new offset is some accepted input's. */
  lemma NothingElseIsStored(cfg: Config, call: Call, before: seq<seq<Slot>>, after: seq<seq<Slot>>,
                            wrote: set<nat>, results: seq<Outcome>, p: nat, o: nat) returns (i: nat)
    requires call.WellFormed() && Published(cfg, call, before, after, wrote, results)
    requires p < |before| && |before[p]| < o <= |after[p]|
    ensures i < |results| && results[i] == Accepted(p, o)
  {
    assert p in wrote;
    assert Wrote(cfg, call, before[p], after[p], p, results);
    ShareHasAll(cfg, |before[p]| + 1, call.PreparedShare(cfg, p));
    i := call.Share(cfg, p, |call.msgs|)[o - |before[p]| - 1];
  }
}
