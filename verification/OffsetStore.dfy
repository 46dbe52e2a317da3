/** Consumer offsets: a cache every commit and load goes through, and the durable map it is flushed to. */
module OffsetStore {
  import opened Wrappers
  import opened Wire
  import opened OffsetKeys
  import D = Delivery

  type Offsets = map<string, Int64>

  const MAX_INT64: Int64 := 0x7FFF_FFFF_FFFF_FFFF

  /** The least offset recorded under the prefix; 0 when there is none. */
  predicate IsFloor(m: Offsets, prefix: string, floor: Int64) {
    if WithPrefix(m, prefix) == {} then floor == 0
    else
      && (exists k :: k in WithPrefix(m, prefix) && m[k] == floor)
      && forall k | k in WithPrefix(m, prefix) :: floor <= m[k]
  }

  /** The keys whose last commit is older than the cutoff. */
  function Expired(last: map<string, int>, cutoff: int): set<string> {
    set k | k in last && last[k] < cutoff
  }

  class Store {
    var cache: Offsets
    var lastCommit: map<string, int>
    var durable: Offsets
    const dumping: bool
    /** The offsets handed to each consumer so far. */
    ghost var handed: map<D.Consumer, seq<int>>

    ghost function World(): D.World
      reads this
    {
      D.World(cache, durable, handed)
    }

    /** Opening warms the cache from the durable map, whatever was cached before. */
    constructor (durable: Offsets, dumping: bool, ghost before: D.World)
      requires before.durable == durable
      ensures World() == D.Apply(before, D.Reopen) && lastCommit == map[] && this.dumping == dumping
      ensures cache == durable && this.durable == durable
    {
      var warm: Offsets := map[];
      var todo := durable.Keys;
      while todo != {}
        invariant todo <= durable.Keys
        invariant warm == map k | k in durable && k !in todo :: durable[k]
        decreases todo
      {
        assert (forall q :: q !in todo) ==> todo == {};
        var k :| k in todo;
        todo := todo - {k};
        warm := warm[k := durable[k]];
      }
      cache := warm;
      lastCommit := map[];
      this.durable := durable;
      this.dumping := dumping;
      handed := before.handed;
    }

    /** Stores the offset in the cache and, without a dump loop, durably when the database accepts it. */
    method Commit(group: string, topic: string, partition: int, offset: Int64, now: int, db: bool) returns (ok: bool)
      modifies this`cache, this`lastCommit, this`durable
      ensures var key := Key(topic, partition, group);
              && cache == old(cache)[key := offset] && lastCommit == old(lastCommit)[key := now]
              && durable == (if !dumping && db then old(durable)[key := offset] else old(durable))
      ensures World() == D.Apply(old(World()), D.Commit(D.Consumer(topic, partition, group), offset, !dumping && db))
      ensures ok == (dumping || db)
    {
      var key := Key(topic, partition, group);
      cache := cache[key := offset];
      lastCommit := lastCommit[key := now];
      if dumping {
        return true;
      }
      if db {
        durable := durable[key := offset];
      }
      return db;
    }

    /** Commits the offset after n messages handed out from the given one on. */
    method CommitHanded(c: D.Consumer, from: nat, n: nat, now: int, db: bool) returns (ok: bool)
      requires n > 0 && from + n <= MAX_INT64
      modifies this
      ensures cache == old(cache)[D.KeyOf(c) := from + n] && ok == (dumping || db)
      ensures durable == if !dumping && db then old(durable)[D.KeyOf(c) := from + n] else old(durable)
      ensures from == D.Position(old(World()), c) ==> World() == D.Apply(old(World()), D.Consume(c, n, !dumping && db))
    {
      ok := Commit(c.group, c.topic, c.partition, from + n, now, db);
      handed := handed[c := D.Handed(World(), c) + D.Run(from, n)];
    }

    method Load(group: string, topic: string, partition: int) returns (off: Option<Int64>)
      ensures var key := Key(topic, partition, group);
              off == if key in cache then Some(cache[key]) else None
    {
      var key := Key(topic, partition, group);
      off := if key in cache then Some(cache[key]) else None;
    }

    /** The minimum over all groups of the topic and partition. */
    method CommitFloor(topic: string, partition: int) returns (floor: Int64)
      ensures IsFloor(cache, Prefix(topic, partition), floor)
    {
      var prefix := Prefix(topic, partition);
      var todo, found := cache.Keys, false;
      floor := MAX_INT64;
      while todo != {}
        invariant todo <= cache.Keys
        invariant found <==> exists k :: k in WithPrefix(cache, prefix) && k !in todo
        invariant found ==> exists k :: k in WithPrefix(cache, prefix) && k !in todo && cache[k] == floor
        invariant !found ==> floor == MAX_INT64
        invariant forall k | k in WithPrefix(cache, prefix) && k !in todo :: floor <= cache[k]
        decreases todo
      {
        assert (forall q :: q !in todo) ==> todo == {};
        var k :| k in todo;
        todo := todo - {k};
        if prefix <= k {
          assert k in WithPrefix(cache, prefix);
          if cache[k] < floor {
            floor := cache[k];
          }
          found := true;
        }
      }
      if !found {
        floor := 0;
      }
    }

    /** Collects the cached keys under a prefix. */
    method Matching(prefix: string) returns (keys: set<string>)
      ensures keys == WithPrefix(cache, prefix)
    {
      keys := {};
      var todo := cache.Keys;
      while todo != {}
        invariant todo <= cache.Keys && keys == WithPrefix(cache, prefix) - todo
        decreases todo
      {
        assert (forall q :: q !in todo) ==> todo == {};
        var k :| k in todo;
        todo := todo - {k};
        if prefix <= k {
          keys := keys + {k};
        }
      }
    }

    /** Deletes keys from the cache one by one. */
    method Uncache(keys: set<string>)
      modifies this`cache
      ensures cache == old(cache) - keys
    {
      var todo := keys;
      while todo != {}
        invariant todo <= keys && cache == old(cache) - (keys - todo)
        decreases todo
      {
        assert (forall q :: q !in todo) ==> todo == {};
        var k :| k in todo;
        todo := todo - {k};
        cache := cache - {k};
      }
    }

    /** Forgets every cached key of the topic, and durably deletes those the flush gets to. */
    method DeleteTopic(topic: string, erased: set<string>)
      modifies this`cache, this`durable, this`handed
      ensures World() == D.Apply(old(World()), D.Delete(topic, erased))
      ensures forall k :: k in cache <==> k in old(cache) && !(topic + "/" <= k)
      ensures forall k :: k in durable <==> k in old(durable) && !(topic + "/" <= k && k in old(cache) && k in erased)
      ensures (forall k | k in cache :: cache[k] == old(cache)[k]) && forall k | k in durable :: durable[k] == old(durable)[k]
    {
      var keys := Matching(topic + "/");
      Uncache(keys);
      durable := durable - keys * erased;
      handed := map c | c in handed && c.topic != topic :: handed[c];
    }

    /** Writes the cache to the durable map; a failed flush may have written only some of it. */
    method Dump(written: set<string>)
      requires written <= cache.Keys
      modifies this`durable
      ensures World() == D.Apply(old(World()), D.Dump(written))
      ensures forall k :: k in durable <==> k in written || k in old(durable)
      ensures forall k | k in durable :: durable[k] == if k in written then cache[k] else old(durable)[k]
    {
      var todo := written;
      while todo != {}
        invariant todo <= written
        invariant durable == old(durable) + map k | k in written && k !in todo :: cache[k]
        decreases todo
      {
        assert (forall q :: q !in todo) ==> todo == {};
        var k :| k in todo;
        todo := todo - {k};
        durable := durable[k := cache[k]];
      }
      assert (map k | k in written && k in cache :: cache[k]) == map k | k in written && k !in todo :: cache[k];
    }

    /** Drops exactly the cached offsets last committed more than the timeout ago; one warmed from disk stays. */
    method ExpireSessions(now: int, timeout: int)
      modifies this`cache, this`lastCommit
      ensures World() == D.Apply(old(World()), D.Expire(Expired(old(lastCommit), now - timeout)))
      ensures lastCommit == old(lastCommit) - Expired(old(lastCommit), now - timeout)
      ensures forall k :: k in cache <==> k in old(cache) && !(k in old(lastCommit) && now - old(lastCommit)[k] > timeout)
      ensures forall k | k in cache :: cache[k] == old(cache)[k]
    {
      var cutoff := now - timeout;
      var expired := {};
      var todo := lastCommit.Keys;
      while todo != {}
        invariant todo <= lastCommit.Keys && expired == Expired(lastCommit, cutoff) - todo
        invariant cache == old(cache) && lastCommit == old(lastCommit)
        decreases todo
      {
        assert (forall q :: q !in todo) ==> todo == {};
        var k :| k in todo;
        todo := todo - {k};
        if lastCommit[k] < cutoff {
          expired := expired + {k};
        }
      }
      Uncache(expired);
      lastCommit := lastCommit - expired;
    }
  }

  /**
   After a topic is deleted and the store reopened, no key of the topic is left exactly when
   every durable key of it was cached and erased: an expired group's offset survives.
   */
  lemma DeletedStaysDeleted(cache: Offsets, durable: Offsets, topic: string, erased: set<string>)
    ensures WithPrefix(durable - WithPrefix(cache, topic + "/") * erased, topic + "/") == {}
       <==> WithPrefix(durable, topic + "/") <= cache.Keys * erased
  {
    var left := WithPrefix(durable - WithPrefix(cache, topic + "/") * erased, topic + "/");
    assert left == WithPrefix(durable, topic + "/") - cache.Keys * erased;
    assert forall k | k in WithPrefix(durable, topic + "/") :: k in cache.Keys * erased || k in left;
  }
}
