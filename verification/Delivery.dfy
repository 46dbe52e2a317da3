/**
 At-least-once delivery: over any run of consuming, client commits, flushing, expiry, topic
 deletion and crashes, with or without the loss of the end of a log, no stored offset is ahead of
 what its group has been handed.
 */
module Delivery {
  import opened OffsetKeys

  datatype Consumer = Consumer(topic: string, partition: int, group: string)

  function KeyOf(c: Consumer): string {
    Key(c.topic, c.partition, c.group)
  }

  /** The two maps of the offset store, and the offsets each consumer has been handed. */
  datatype World = World(cache: map<string, int>, durable: map<string, int>, handed: map<Consumer, seq<int>>)

  datatype Op =
    | Consume(c: Consumer, n: nat, synced: bool) // n messages handed out, then one commit
    | Commit(c: Consumer, offset: int, synced: bool) // by a client
    | Dump(written: set<string>)
    | Expire(keys: set<string>)
    | Delete(topic: string, erased: set<string>) // a failed flush may erase only some of the keys
    | Reopen
    | Crash(topic: string, partition: int, keep: nat) // the log comes back with its first keep records only

  /** Where a consumer starts: its cached offset, or the beginning of the log. */
  function Position(w: World, c: Consumer): int {
    if KeyOf(c) in w.cache then w.cache[KeyOf(c)] else 1
  }

  /** The offsets handed to c, in order. */
  function Handed(w: World, c: Consumer): seq<int> {
    if c in w.handed then w.handed[c] else []
  }

  function Run(from: int, n: nat): seq<int> {
    seq(n, i => from + i)
  }

  /** The offsets of s whose records survive in a log of keep records. */
  function Surviving(s: seq<int>, keep: nat): (r: seq<int>)
    ensures forall o :: o in r <==> o in s && o <= keep
  {
    if s == [] then [] else
      var r := Surviving(s[..|s| - 1], keep);
      if s[|s| - 1] <= keep then r + [s[|s| - 1]] else r
  }

  predicate Reads(c: Consumer, topic: string, partition: int) {
    c.topic == topic && c.partition == partition
  }

  function Apply(w: World, op: Op): World {
    match op
    case Consume(c, n, synced) =>
      if n == 0 then w
      else
        var s := Position(w, c);
        World(w.cache[KeyOf(c) := s + n],
              if synced then w.durable[KeyOf(c) := s + n] else w.durable,
              w.handed[c := Handed(w, c) + Run(s, n)])
    case Commit(c, offset, synced) =>
      World(w.cache[KeyOf(c) := offset], if synced then w.durable[KeyOf(c) := offset] else w.durable, w.handed)
    case Dump(written) => w.(durable := w.durable + map k | k in written && k in w.cache :: w.cache[k])
    case Expire(keys) => w.(cache := w.cache - keys)
    case Delete(topic, erased) =>
      var keys := WithPrefix(w.cache, topic + "/");
      World(w.cache - keys,
            w.durable - keys * erased,
            map c | c in w.handed && c.topic != topic :: w.handed[c])
    case Reopen => w.(cache := w.durable)
    case Crash(topic, partition, keep) =>
      World(w.durable, w.durable,
            map c | c in w.handed ::
              if Reads(c, topic, partition) then Surviving(w.handed[c], keep) else w.handed[c])
  }

  /** A deletion that leaves no offset of the topic behind. */
  predicate Clean(w: World, op: Op) {
    op.Delete? ==> WithPrefix(w.durable, op.topic + "/") <= w.cache.Keys * op.erased
  }

  /** A crash that loses no record some durable offset has already passed. */
  ghost predicate Synced(w: World, op: Op) {
    op.Crash? ==>
      forall c | Reads(c, op.topic, op.partition) && KeyOf(c) in w.durable :: w.durable[KeyOf(c)] <= op.keep + 1
  }

  /** No two topics in use share a key. */
  ghost predicate Distinguishable(topics: set<string>) {
    forall t, t' | t in topics && t' in topics && t != t' :: !Confusable(t, t')
  }

  lemma KeysTellApart(topics: set<string>, c: Consumer, c': Consumer)
    requires Distinguishable(topics) && c.topic in topics && c'.topic in topics && KeyOf(c) == KeyOf(c')
    ensures c == c'
  {
    if c.topic == c'.topic {
      KeyIsUnique(c.topic, c.partition, c.group, c'.partition, c'.group);
    } else {
      CollideIff(c.topic, c'.topic);
    }
  }

  /**
   What a restart comes back to: the position a group had when its offset was last flushed or synced, and
   the start of the log for a group without a durable offset. What was handed out is not forgotten.
   */
  lemma RestartResumes(w: World, c: Consumer, n: nat, more: nat, written: set<string>)
    requires n > 0 && KeyOf(c) in written
    ensures var synced := Apply(w, Consume(c, n, true));
            Position(Apply(Apply(synced, Consume(c, more, false)), Reopen), c) == Position(w, c) + n
    ensures var flushed := Apply(Apply(w, Consume(c, n, false)), Dump(written));
            Position(Apply(Apply(flushed, Consume(c, more, false)), Reopen), c) == Position(w, c) + n
    ensures KeyOf(c) !in w.durable ==> Position(Apply(Apply(w, Consume(c, n, false)), Reopen), c) == 1
    ensures Handed(Apply(Apply(w, Consume(c, n, false)), Reopen), c) == Handed(w, c) + Run(Position(w, c), n)
  {
  }

  // ----- the invariant

  /** Everything below the stored offset has been handed out. */
  predicate Covered(m: map<string, int>, w: World, c: Consumer) {
    KeyOf(c) in m ==> m[KeyOf(c)] >= 1 && forall o | 1 <= o < m[KeyOf(c)] :: o in Handed(w, c)
  }

  /** What has been handed out has no gaps. */
  predicate Gapless(w: World, c: Consumer) {
    forall o, o' | o in Handed(w, c) && 1 <= o' < o :: o' in Handed(w, c)
  }

  ghost predicate Safe(w: World, topics: set<string>) {
    forall c: Consumer | c.topic in topics :: SafeFor(w, c)
  }

  predicate SafeFor(w: World, c: Consumer) {
    Covered(w.cache, w, c) && Covered(w.durable, w, c) && Gapless(w, c)
  }

  /** A client may commit the start, or the offset after a message it has been handed. */
  predicate Earned(w: World, c: Consumer, offset: int) {
    offset == 1 || (offset > 1 && offset - 1 in Handed(w, c))
  }

  ghost predicate Allowed(w: World, op: Op, topics: set<string>) {
    && Clean(w, op) && Synced(w, op)
    && (op.Consume? || op.Commit? ==> op.c.topic in topics)
    && (op.Commit? ==> Earned(w, op.c, op.offset))
  }

  /** Exactly the earned offsets are safe to commit. */
  lemma CommitIsSafeIff(w: World, c: Consumer, offset: int, synced: bool)
    requires SafeFor(w, c)
    ensures SafeFor(Apply(w, Commit(c, offset, synced)), c) <==> Earned(w, c, offset)
  {
    var w' := Apply(w, Commit(c, offset, synced));
    assert Handed(w', c) == Handed(w, c);
    if Earned(w, c, offset) {
      assert forall o | 1 <= o < offset :: o in Handed(w, c);
    }
    if SafeFor(w', c) {
      assert Covered(w'.cache, w', c) && w'.cache[KeyOf(c)] == offset;
    }
  }

  lemma ConsumeIsSafe(w: World, c: Consumer, n: nat, synced: bool)
    requires SafeFor(w, c)
    ensures SafeFor(Apply(w, Consume(c, n, synced)), c)
  {
    if n > 0 {
      var s, w' := Position(w, c), Apply(w, Consume(c, n, synced));
      var before, more := Handed(w, c), Run(s, n);
      assert Handed(w', c) == before + more;
      forall o | 1 <= o < s + n
        ensures o in Handed(w', c)
      {
        if o >= s { assert more[o - s] == o; }
      }
      assert forall o | o in more :: o < s + n;
    }
  }

  /** A clean deletion forgets every offset of the topic, and changes nothing for the others. */
  lemma DeleteIsSafe(w: World, topic: string, erased: set<string>, c: Consumer)
    requires SafeFor(w, c) && Clean(w, Delete(topic, erased))
    ensures SafeFor(Apply(w, Delete(topic, erased)), c)
  {
    var w' := Apply(w, Delete(topic, erased));
    if c.topic == topic {
      assert topic + "/" <= KeyOf(c);
      assert KeyOf(c) in w.durable ==> KeyOf(c) in WithPrefix(w.durable, topic + "/");
      assert KeyOf(c) !in w'.cache && KeyOf(c) !in w'.durable && Handed(w', c) == [];
    } else {
      assert Handed(w', c) == Handed(w, c);
    }
  }

  lemma CrashIsSafeElsewhere(w: World, topic: string, partition: int, keep: nat, c: Consumer)
    requires SafeFor(w, c) && !Reads(c, topic, partition)
    ensures SafeFor(Apply(w, Crash(topic, partition, keep)), c)
  {
    assert Handed(Apply(w, Crash(topic, partition, keep)), c) == Handed(w, c);
  }

  /** Exactly when losing the end of a log is safe for its consumers: the durable offset is not past what is left. */
  lemma CrashIsSafeIff(w: World, keep: nat, c: Consumer)
    requires SafeFor(w, c)
    ensures SafeFor(Apply(w, Crash(c.topic, c.partition, keep)), c)
       <==> KeyOf(c) !in w.durable || w.durable[KeyOf(c)] <= keep + 1
  {
    var w' := Apply(w, Crash(c.topic, c.partition, keep));
    assert Handed(w', c) == Surviving(Handed(w, c), keep);
    assert keep + 1 !in Handed(w', c);
  }

  lemma OthersMove(w: World, op: Op, c: Consumer, topics: set<string>)
    requires (op.Consume? || op.Commit?) && op.c != c && SafeFor(w, c)
    requires Distinguishable(topics) && c.topic in topics && op.c.topic in topics
    ensures SafeFor(Apply(w, op), c)
  {
    var w', d := Apply(w, op), op.c;
    assert KeyOf(d) != KeyOf(c) by {
      if KeyOf(d) == KeyOf(c) { KeysTellApart(topics, c, d); }
    }
    assert Handed(w', c) == Handed(w, c);
  }

  /** Flushing, expiry and reopening only copy or drop offsets. */
  lemma CopyIsSafe(w: World, op: Op, c: Consumer)
    requires (op.Dump? || op.Expire? || op.Reopen?) && SafeFor(w, c)
    ensures SafeFor(Apply(w, op), c)
  {
    var w' := Apply(w, op);
    assert Handed(w', c) == Handed(w, c);
    assert KeyOf(c) in w'.cache ==> w'.cache[KeyOf(c)] == (if op.Reopen? then w.durable else w.cache)[KeyOf(c)];
    assert KeyOf(c) in w'.durable && KeyOf(c) !in w.durable ==> w'.durable[KeyOf(c)] == w.cache[KeyOf(c)];
  }

  lemma StepIsSafe(w: World, op: Op, topics: set<string>, c: Consumer)
    requires Distinguishable(topics) && Safe(w, topics) && Allowed(w, op, topics) && c.topic in topics
    ensures SafeFor(Apply(w, op), c)
  {
    assert SafeFor(w, c);
    match op
    case Consume(d, n, synced) =>
      if d == c {
        ConsumeIsSafe(w, c, n, synced);
      } else {
        OthersMove(w, op, c, topics);
      }
    case Commit(d, offset, synced) =>
      if d == c {
        CommitIsSafeIff(w, c, offset, synced);
      } else {
        OthersMove(w, op, c, topics);
      }
    case Delete(topic, erased) => DeleteIsSafe(w, topic, erased, c);
    case Crash(topic, partition, keep) =>
      if Reads(c, topic, partition) {
        CrashIsSafeIff(w, keep, c);
      } else {
        CrashIsSafeElsewhere(w, topic, partition, keep, c);
      }
    case _ => CopyIsSafe(w, op, c);
  }

  predicate IsRun(run: seq<World>, ops: seq<Op>) {
    && |run| == |ops| + 1
    && run[0] == World(map[], map[], map[])
    && forall i | 0 <= i < |ops| :: run[i + 1] == Apply(run[i], ops[i])
  }

  /** Over every run, offsets in the cache and in the durable map only pass messages already handed out. */
  lemma {:induction false} RunIsSafe(run: seq<World>, ops: seq<Op>, topics: set<string>, i: nat)
    requires IsRun(run, ops) && i < |run| && Distinguishable(topics)
    requires forall j | 0 <= j < |ops| :: Allowed(run[j], ops[j], topics)
    ensures Safe(run[i], topics)
  {
    if i > 0 {
      RunIsSafe(run, ops, topics, i - 1);
      forall c: Consumer | c.topic in topics
        ensures SafeFor(run[i], c)
      {
        StepIsSafe(run[i - 1], ops[i - 1], topics, c);
      }
    }
  }

  /** Whenever a consumer is next served, also after a crash, every earlier message has been handed to it. */
  lemma NeverSkips(run: seq<World>, ops: seq<Op>, topics: set<string>, i: nat, c: Consumer, o: int)
    requires IsRun(run, ops) && i < |run| && Distinguishable(topics) && c.topic in topics
    requires forall j | 0 <= j < |ops| :: Allowed(run[j], ops[j], topics)
    requires 1 <= o < Position(run[i], c) || 1 <= o < Position(Apply(run[i], Reopen), c)
    ensures o in Handed(run[i], c)
  {
    RunIsSafe(run, ops, topics, i);
    assert SafeFor(run[i], c);
  }

  /**
   Exactly when a deletion is safe for a consumer of the topic: its durable offset, if any, is
   still at the start, or is also cached and the flush erases it.
   */
  lemma DeleteIsSafeIff(w: World, topic: string, erased: set<string>, c: Consumer)
    requires SafeFor(w, c) && c.topic == topic
    ensures SafeFor(Apply(w, Delete(topic, erased)), c)
       <==> KeyOf(c) !in w.durable || w.durable[KeyOf(c)] == 1 || KeyOf(c) in w.cache.Keys * erased
  {
    var w' := Apply(w, Delete(topic, erased));
    assert topic + "/" <= KeyOf(c);
    assert KeyOf(c) !in w'.cache && Handed(w', c) == [];
    assert KeyOf(c) in w'.durable && w'.durable[KeyOf(c)] > 1 ==> 1 !in Handed(w', c);
  }

  /**
   Deleting a topic after a group's session expired is not clean: the flushed offset comes back
   on reopening, and the recreated topic starts this group past messages it was never handed.
   */
  lemma UncleanDeleteSkips(c: Consumer, n: nat) returns (run: seq<World>, ops: seq<Op>)
    requires n > 0
    ensures IsRun(run, ops)
    ensures Position(run[|ops|], c) == n + 1 && Handed(run[|ops|], c) == []
  {
    var w0 := World(map[], map[], map[]);
    ops := [Consume(c, n, false), Dump({KeyOf(c)}), Expire({KeyOf(c)}), Delete(c.topic, {KeyOf(c)}), Reopen];
    var w1 := Apply(w0, ops[0]);
    var w2 := Apply(w1, ops[1]);
    var w3 := Apply(w2, ops[2]);
    var w4 := Apply(w3, ops[3]);
    run := [w0, w1, w2, w3, w4, Apply(w4, ops[4])];
  }

  /**
   A crash that loses records a synced offset has passed is not safe: the group comes back at an
   offset beyond the log, and the record that takes the next offset is never handed to it.
   */
  lemma LossSkips(c: Consumer, n: nat, keep: nat) returns (run: seq<World>, ops: seq<Op>)
    requires keep < n
    ensures IsRun(run, ops)
    ensures Position(run[|ops|], c) == n + 1 && keep + 1 !in Handed(run[|ops|], c)
  {
    var w0 := World(map[], map[], map[]);
    ops := [Consume(c, n, true), Crash(c.topic, c.partition, keep)];
    var w1 := Apply(w0, ops[0]);
    run := [w0, w1, Apply(w1, ops[1])];
  }
}
