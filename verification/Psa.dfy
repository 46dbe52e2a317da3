/**
 Partition-sticky assignment: keys are bound to partitions through a bounded forward map, and
 every partition keeps the set of keys bound to it. The two must agree through eviction, release
 and stealing.
 */
module Psa {
  import opened Wrappers
  import opened Lru
  import opened Sums

  const MAX_BINDINGS: nat := 100_000
  const GRACE_PERIOD := 500_000_000
  const RELEASE_FACTOR := 2.0
  const STEAL_FACTOR := 1.5

  /** The largest finite float64, the load of a partition nobody has reported on. */
  const MAX_FLOAT64: real :=
    179769313486231570814527423731704356798070567525844996598917476803157260780028538760589558632766878171540458953514382464234321326889464182768467546703537516986049910576551282076245490090389328944075868508455133942304583236903222948165808559332123348274797826204144723168738177180919299881250404026184124858368.0

  function LoadOf(loads: Option<seq<real>>, id: int): real {
    if loads.Some? && 0 <= id < |loads.value| then loads.value[id] else MAX_FLOAT64
  }

  /** No id of ids carries less load than the given one. */
  predicate IsLeast(ids: seq<int>, loads: Option<seq<real>>, id: int) {
    forall i | 0 <= i < |ids| :: LoadOf(loads, id) <= LoadOf(loads, ids[i])
  }

  /** The id at place i is known, no other carries less load, and none before it carries as little. */
  predicate FirstAt(ids: seq<int>, loads: Option<seq<real>>, i: int) {
    && 0 <= i < |ids| && LoadOf(loads, ids[i]) < MAX_FLOAT64 && IsLeast(ids, loads, ids[i])
    && forall j | 0 <= j < i :: LoadOf(loads, ids[i]) < LoadOf(loads, ids[j])
  }

  /** best is the first least-loaded id of ids with a known load, or -1. */
  predicate IsLeastLoaded(ids: seq<int>, loads: Option<seq<real>>, best: int) {
    if best == -1 then forall i | 0 <= i < |ids| :: LoadOf(loads, ids[i]) >= MAX_FLOAT64
    else exists i | 0 <= i < |ids| :: FirstAt(ids, loads, i) && ids[i] == best
  }

  /**
   A partition claimed among those after the skip is least loaded among all free ones exactly when
   some least-loaded free partition lies after the skip.
   */
  lemma ClaimIsLeastIff(ids: seq<int>, loads: Option<seq<real>>, skip: nat, best: int)
    requires skip <= |ids| && best != -1 && IsLeastLoaded(ids[skip..], loads, best)
    ensures IsLeast(ids, loads, best) <==> exists i | skip <= i < |ids| :: IsLeast(ids, loads, ids[i])
  {
    var seen := ids[skip..];
    var at :| 0 <= at < |seen| && FirstAt(seen, loads, at) && seen[at] == best;
    assert ids[skip + at] == best;
    forall i | skip <= i < |ids|
      ensures IsLeast(ids, loads, ids[i]) ==> IsLeast(ids, loads, best)
    {
      assert seen[i - skip] == ids[i];
    }
  }

  /** With partitions 0 and 1 free and the first one skipped, the busier one is claimed. */
  lemma ClaimMissesLeast()
    ensures var ids, loads := [0, 1], Some([0.1, 0.9]);
            IsLeastLoaded(ids[1..], loads, 1) && !IsLeast(ids, loads, 1)
  {
    var ids, loads := [0, 1], Some([0.1, 0.9]);
    assert FirstAt(ids[1..], loads, 0);
    assert LoadOf(loads, ids[0]) < LoadOf(loads, 1);
  }

  /** The mean load; 0 when there is none. */
  function Average(loads: seq<real>): real {
    if loads == [] then 0.0 else Mean(loads)
  }

  method AvgLoad(loads: seq<real>) returns (avg: real)
    ensures avg == Average(loads)
  {
    if |loads| == 0 {
      return 0.0;
    }
    var sum := 0.0;
    var i := 0;
    while i < |loads|
      invariant 0 <= i <= |loads| && sum == Sum(i, Entries(loads))
    {
      assert Entries(loads)(i) == At(loads, i);
      sum := sum + loads[i];
      i := i + 1;
    }
    return sum / |loads| as real;
  }

  // ----- when a partition was bound to

  /** A key was bound to a partition, at a time. */
  datatype Binding = Binding(part: int, at: int)

  /** Binding i is the last one to partition p. */
  predicate IsLast(bindings: seq<Binding>, i: int, p: int) {
    0 <= i < |bindings| && bindings[i].part == p && forall j | i < j < |bindings| :: bindings[j].part != p
  }

  /** The time in last[p] is that of the last binding to p, 0 if there was none. */
  ghost predicate TracksLast(n: nat, bindings: seq<Binding>, last: seq<int>) {
    && |last| == n
    && (forall i, p | 0 <= p < n && IsLast(bindings, i, p) :: last[p] == bindings[i].at)
    && forall p | 0 <= p < n && NeverBound(bindings, p) :: last[p] == 0
  }

  predicate NeverBound(bindings: seq<Binding>, p: int) {
    forall i | 0 <= i < |bindings| :: bindings[i].part != p
  }

  lemma TracksOn(n: nat, bindings: seq<Binding>, last: seq<int>, p: nat, now: int)
    requires p < n && TracksLast(n, bindings, last)
    ensures TracksLast(n, bindings + [Binding(p, now)], last[p := now])
  {
    var more := bindings + [Binding(p, now)];
    forall i, q | 0 <= q < n && IsLast(more, i, q)
      ensures last[p := now][q] == more[i].at
    {
      if i < |bindings| {
        assert more[|bindings|].part != q;
        assert forall j | i < j < |bindings| :: more[j] == bindings[j];
        assert IsLast(bindings, i, q);
      }
    }
    forall q | 0 <= q < n && NeverBound(more, q)
      ensures last[p := now][q] == 0
    {
      assert more[|bindings|].part != q;
      assert forall i | 0 <= i < |bindings| :: more[i] == bindings[i];
      assert NeverBound(bindings, q);
    }
  }

  // ----- what metrics ask for

  /** No key was bound to the partition a moment ago. */
  predicate Quiet(lastBind: int, now: int) {
    !(lastBind > 0 && now - lastBind < GRACE_PERIOD)
  }

  predicate Empty(depth: seq<int>, p: int) {
    0 <= p < |depth| && depth[p] == 0
  }

  /** Far above the average load: such a partition gives up its keys. */
  predicate Overloaded(loads: seq<real>, p: int) {
    0 <= p < |loads| && |loads| > 1 && Average(loads) > 0.0 && loads[p] > RELEASE_FACTOR * Average(loads)
  }

  /** Above the average load: such a partition may lose a key to an idle one. */
  predicate Stealable(loads: seq<real>, p: int) {
    0 <= p < |loads| && |loads| > 1 && Average(loads) != 0.0 && loads[p] > STEAL_FACTOR * Average(loads)
  }

  predicate Idle(loads: seq<real>, depth: seq<int>, p: int) {
    0 <= p < |loads| && loads[p] <= 0.0 && !(p < |depth| && depth[p] > 0)
  }

  /**
   The keys of the partitions in gone have lost their binding, and every other key has kept it
   or has been taken over by an idle partition from one above the average.
   */
  ghost predicate Rebound(before: map<string, int>, after: map<string, int>, gone: set<int>, loads: seq<real>, depth: seq<int>) {
    && after.Keys <= before.Keys
    && forall k | k in before ::
         if before[k] in gone then k !in after
         else k in after && (after[k] == before[k] || (Stealable(loads, before[k]) && Idle(loads, depth, after[k])))
  }

  /** The partitions that metrics release: empty or overloaded, and quiet. */
  ghost predicate Releases(n: nat, lastBind: seq<int>, now: int, loads: seq<real>, depth: seq<int>, p: int) {
    0 <= p < n == |lastBind| && Quiet(lastBind[p], now) && (Empty(depth, p) || Overloaded(loads, p))
  }

  // ----- agreement of the two maps

  /**
   A key is bound to p exactly when it is in p's set, and a partition without keys is free,
   unless it is just being claimed.
   */
  ghost predicate Agrees(n: nat, bound: map<string, int>, shards: seq<set<string>>, free: set<int>, claimed: set<int>) {
    && |shards| == n
    && (forall k | k in bound :: 0 <= bound[k] < n && k in shards[bound[k]])
    && (forall p, k | 0 <= p < n && k in shards[p] :: k in bound && bound[k] == p)
    && (forall p | 0 <= p < n && shards[p] == {} && p !in claimed :: p in free)
    && (forall p | p in free :: 0 <= p < n)
  }

  lemma UnbindAgrees(n: nat, bound: map<string, int>, shards: seq<set<string>>, free: set<int>, claimed: set<int>, k: string)
    requires Agrees(n, bound, shards, free, claimed) && k in bound
    ensures var p := bound[k];
            var shards' := shards[p := shards[p] - {k}];
            Agrees(n, bound - {k}, shards', free + (if shards'[p] == {} then {p} else {}), claimed)
  {
  }

  lemma BindAgrees(n: nat, bound: map<string, int>, shards: seq<set<string>>, free: set<int>, p: nat, k: string)
    requires p < n && Agrees(n, bound, shards, free, {p}) && k !in bound
    ensures Agrees(n, bound[k := p], shards[p := shards[p] + {k}], free, {})
  {
    var bound', shards' := bound[k := p], shards[p := shards[p] + {k}];
    forall q, x | 0 <= q < n && x in shards'[q]
      ensures x in bound' && bound'[x] == q
    {
      assert q != p ==> x in shards[q];
    }
  }

  lemma ReleaseAgrees(n: nat, bound: map<string, int>, shards: seq<set<string>>, free: set<int>, p: nat)
    requires p < n && Agrees(n, bound, shards, free, {})
    ensures Agrees(n, bound - shards[p], shards[p := {}], free + {p}, {})
  {
    var bound', shards' := bound - shards[p], shards[p := {}];
    forall k | k in bound'
      ensures 0 <= bound'[k] < n && k in shards'[bound'[k]]
    {
      assert k in bound && k !in shards[p];
    }
    forall q, k | 0 <= q < n && k in shards'[q]
      ensures k in bound' && bound'[k] == q
    {
      assert q != p && k in shards[q] && bound[k] == q;
      assert k !in shards[p];
    }
  }

  /** Taking a key out of a set a second time changes nothing. */
  lemma TakesOutOnce(shards: seq<set<string>>, p: nat, k: string)
    requires p < |shards| && k in shards[p]
    ensures var once := shards[p := shards[p] - {k}];
            once[p := once[p] - {k}] == once && (once[p] == {} <==> shards[p] == {k})
  {
    var once := shards[p := shards[p] - {k}];
    assert once[p] - {k} == once[p];
    assert once[p] == {} ==> shards[p] == {k};
  }

  lemma Rebind(bound: map<string, int>, k: string, p: int)
    ensures (bound - {k})[k := p] == bound[k := p]
  {
  }

  lemma AgreesMore(n: nat, bound: map<string, int>, shards: seq<set<string>>, free: set<int>, p: int)
    requires Agrees(n, bound, shards, free, {})
    ensures Agrees(n, bound, shards, free, {p})
  {
  }

  class Balancer {
    const n: nat
    var lru: Cache
    var shards: seq<set<string>>
    var free: set<int>
    var lastBind: seq<int>
    /** Every binding made so far. */
    ghost var bindings: seq<Binding>
    var loads: Option<seq<real>>
    var evictions: nat

    ghost predicate Agree(claimed: set<int>)
      reads this
    {
      && TracksLast(n, bindings, lastBind) && Valid(lru, MAX_BINDINGS)
      && Agrees(n, lru.bound, shards, free, claimed)
    }

    constructor (n: nat)
      ensures this.n == n && Agree({}) && lru == Cache([], map[]) && loads == None
      ensures forall p | 0 <= p < n :: p in free
    {
      this.n := n;
      lru := Cache([], map[]);
      shards := seq(n, i => {});
      var all := {};
      var p := 0;
      while p < n
        invariant 0 <= p <= n && forall q :: q in all <==> 0 <= q < p
      {
        all := all + {p};
        p := p + 1;
      }
      free := all;
      lastBind := seq(n, i => 0);
      bindings := [];
      loads := None;
      evictions := 0;
    }

    /** Takes key out of a partition's set; a partition left without keys becomes free. */
    method RemoveFromReverseIndex(key: string, part: int)
      requires |shards| == n
      modifies this`shards, this`free
      ensures if 0 <= part < n then
                && shards == old(shards)[part := old(shards)[part] - {key}]
                && free == old(free) + (if shards[part] == {} then {part} else {})
              else shards == old(shards) && free == old(free)
    {
      if part < 0 || part >= n {
        return;
      }
      shards := shards[part := shards[part] - {key}];
      if shards[part] == {} {
        free := free + {part};
      }
    }

    /** The eviction callback of the forward map, after the key has left it. */
    method Evicted(key: string, part: int)
      requires |shards| == n
      modifies this`shards, this`free, this`evictions
      ensures evictions == old(evictions) + 1
      ensures if 0 <= part < n then
                && shards == old(shards)[part := old(shards)[part] - {key}]
                && free == old(free) + (if shards[part] == {} then {part} else {})
              else shards == old(shards) && free == old(free)
    {
      evictions := evictions + 1;
      RemoveFromReverseIndex(key, part);
    }

    /** Binds a key that has no binding to a partition, evicting the least recently used key when full. */
    method Bind(key: string, part: nat, now: int)
      requires part < n && key !in lru.bound && Agree({part})
      modifies this`lru, this`shards, this`free, this`lastBind, this`bindings, this`evictions
      ensures Agree({})
      ensures lru == Added(old(lru), MAX_BINDINGS, key, part)
      ensures old(free) <= free
      ensures Victim(old(lru), MAX_BINDINGS, key).None? ==>
                shards == old(shards)[part := old(shards)[part] + {key}] && free == old(free)
      ensures lastBind == old(lastBind)[part := now] && bindings == old(bindings) + [Binding(part, now)]
      ensures evictions == old(evictions) + if Victim(old(lru), MAX_BINDINGS, key).Some? then 1 else 0
    {
      AddedIsValid(lru, MAX_BINDINGS, key, part);
      var victim := Victim(lru, MAX_BINDINGS, key);
      ghost var rest := lru.bound;
      if victim.Some? {
        var at := lru.bound[victim.value];
        rest := lru.bound - {victim.value};
        UnbindAgrees(n, lru.bound, shards, free, {part}, victim.value);
        Evicted(victim.value, at);
      }
      BindAgrees(n, rest, shards, free, part, key);
      lru := Added(lru, MAX_BINDINGS, key, part);
      shards := shards[part := shards[part] + {key}];
      TracksOn(n, bindings, lastBind, part, now);
      lastBind := lastBind[part := now];
      bindings := bindings + [Binding(part, now)];
    }

    /** The first least-loaded of the given partitions that has a known load, or -1. */
    method LeastLoaded(ids: seq<int>) returns (best: int)
      requires -1 !in ids
      ensures IsLeastLoaded(ids, loads, best)
      ensures best != -1 ==> && loads.Some? && 0 <= best < |loads.value|
                             && forall i | 0 <= i < |ids| && 0 <= ids[i] < |loads.value| ::
                                  loads.value[best] <= loads.value[ids[i]]
      ensures best == -1 ==> forall i | 0 <= i < |ids| && loads.Some? && 0 <= ids[i] < |loads.value| ::
                               loads.value[ids[i]] >= MAX_FLOAT64
    {
      best := -1;
      var bestLoad := MAX_FLOAT64;
      ghost var at := 0;
      var i := 0;
      while i < |ids|
        invariant 0 <= i <= |ids|
        invariant best == -1 ==> bestLoad == MAX_FLOAT64
        invariant best != -1 ==> 0 <= at < i && ids[at] == best && LoadOf(loads, best) == bestLoad < MAX_FLOAT64
        invariant forall j | 0 <= j < i :: bestLoad <= LoadOf(loads, ids[j])
        invariant best != -1 ==> forall j | 0 <= j < at :: bestLoad < LoadOf(loads, ids[j])
      {
        var load := LoadOf(loads, ids[i]);
        if load < bestLoad {
          best, bestLoad, at := ids[i], load, i;
        }
        i := i + 1;
      }
      assert best != -1 ==> FirstAt(ids, loads, at);
    }

    /**
     Claims a free partition. The free set is walked twice, in any order: past a random number of
     its members first, then, when that found nothing, from the start.
     */
    method ClaimFreePartition(first: seq<int>, second: seq<int>, skip: nat) returns (part: Option<int>)
      requires Agree({})
      requires forall p :: p in free <==> p in first
      requires forall p :: p in free <==> p in second
      modifies this`free
      ensures var seen := first[if skip < |first| then skip else |first|..];
              if !IsLeastLoaded(seen, loads, -1) then part.Some? && IsLeastLoaded(seen, loads, part.value)
              else if !IsLeastLoaded(second, loads, -1) then part.Some? && IsLeastLoaded(second, loads, part.value)
              else part == None
      ensures free == if part.Some? then old(free) - {part.value} else old(free)
      ensures part.Some? ==> part.value in old(free) && Agree({part.value})
      ensures part.None? ==> Agree({})
      ensures part.None? <==> forall p | p in old(free) :: LoadOf(loads, p) >= MAX_FLOAT64
      ensures part.Some? ==> && loads.Some? && 0 <= part.value < |loads.value|
                             && forall i | skip <= i < |first| && 0 <= first[i] < |loads.value| ::
                                  loads.value[part.value] <= loads.value[first[i]]
      ensures loads == None ==> part == None
    {
      var best := LeastLoaded(first[if skip < |first| then skip else |first|..]);
      if best < 0 {
        best := LeastLoaded(second);
      }
      if best < 0 {
        return None;
      }
      free := free - {best};
      part := Some(best);
    }

    /** Whether SelectPartition finds a partition: not for a new key when there is none to claim and none to hash to. */
    predicate Finds(key: string, numPartitions: nat, hash: nat)
      reads this
    {
      || key in lru.bound
      || (n > 0 && exists p | p in free :: LoadOf(loads, p) < MAX_FLOAT64)
      || (n > 0 && numPartitions > 0 && hash % numPartitions < n)
    }

    /**
     The partition of a key: its binding, else a free partition, else by hash; bound from now on. An
     error stands for a panic of the source, which leaves nothing to rely on.
     */
    method SelectPartition(key: string, numPartitions: nat, hash: nat,
                           first: seq<int>, second: seq<int>, skip: nat, now: int) returns (r: Result<int>)
      requires Agree({})
      requires forall p :: p in free <==> p in first
      requires forall p :: p in free <==> p in second
      modifies this`lru, this`shards, this`free, this`lastBind, this`bindings, this`evictions
      ensures r.Ok? <==> old(Finds(key, numPartitions, hash))
      ensures r.Ok? ==> Agree({}) && 0 <= r.value < n && key in lru.bound && lru.bound[key] == r.value
      ensures r.Ok? ==> lru == Used(old(lru), MAX_BINDINGS, key, r.value)
      ensures key in old(lru).bound ==> r == Ok(old(lru).bound[key]) && shards == old(shards) && free == old(free)
                                        && bindings == old(bindings)
      ensures r.Ok? && key !in old(lru).bound ==> bindings == old(bindings) + [Binding(r.value, now)]
      ensures r.Ok? && key !in old(lru).bound ==>
                var seen := first[if skip < |first| then skip else |first|..];
                if !IsLeastLoaded(seen, loads, -1) then r.value in old(free) && IsLeastLoaded(seen, loads, r.value)
                else if !IsLeastLoaded(second, loads, -1) then r.value in old(free) && IsLeastLoaded(second, loads, r.value)
                else r.value == hash % numPartitions
      ensures r.Ok? && key !in old(lru).bound && Victim(old(lru), MAX_BINDINGS, key).None? ==>
                && shards == old(shards)[r.value := old(shards)[r.value] + {key}]
                && free == if IsLeastLoaded(second, loads, -1) then old(free) else old(free) - {r.value}
    {
      if key in lru.bound {
        TouchedIsValid(lru, MAX_BINDINGS, key);
        var part := lru.bound[key];
        lru := Touched(lru, key);
        return Ok(part);
      }
      if n == 0 {
        return Err;
      }
      var claimed := ClaimFreePartition(first, second, skip);
      var part;
      if claimed.Some? {
        part := claimed.value;
      } else {
        if numPartitions == 0 || hash % numPartitions >= n {
          return Err;
        }
        part := hash % numPartitions;
      }
      Bind(key, part, now);
      return Ok(part);
    }

    /** Gives up all bindings of a partition, unless it was bound to a moment ago. */
    method ReleasePartition(id: int, now: int)
      requires Agree({})
      modifies this`lru, this`shards, this`free, this`evictions
      ensures Agree({})
      ensures if 0 <= id < n && (lastBind[id] <= 0 || now - lastBind[id] >= 500_000_000) then
                && lru.bound == old(lru).bound - old(shards)[id] && evictions == old(evictions) + |old(shards)[id]|
                && shards == old(shards)[id := {}] && free == old(free) + {id}
              else lru == old(lru) && shards == old(shards) && free == old(free)
    {
      if id < 0 || id >= n {
        return;
      }
      if lastBind[id] > 0 && now - lastBind[id] < GRACE_PERIOD {
        return;
      }
      ReleaseAgrees(n, lru.bound, shards, free, id);
      if shards[id] != {} {
        var keys := shards[id];
        shards := shards[id := {}];
        Forget(keys, id);
      } else {
        assert shards == shards[id := {}] && lru.bound == lru.bound - shards[id];
      }
      free := free + {id};
    }

    /** Removes the keys still bound to a partition whose set has been cleared. */
    method Forget(keys: set<string>, id: nat)
      requires id < n && |shards| == n && shards[id] == {} && Valid(lru, MAX_BINDINGS)
      requires forall k | k in keys :: k in lru.bound && lru.bound[k] == id
      modifies this`lru, this`shards, this`free, this`evictions
      ensures Valid(lru, MAX_BINDINGS) && lru.bound == old(lru).bound - keys
      ensures shards == old(shards) && old(free) <= free <= old(free) + {id}
      ensures evictions == old(evictions) + |keys|
    {
      var todo := keys;
      while todo != {}
        invariant todo <= keys && Valid(lru, MAX_BINDINGS) && lru.bound == old(lru).bound - (keys - todo)
        invariant shards == old(shards) && old(free) <= free <= old(free) + {id}
        invariant evictions == old(evictions) + |keys| - |todo|
        decreases todo
      {
        assert (forall k :: k !in todo) ==> todo == {};
        var k :| k in todo;
        todo := todo - {k};
        if k in lru.bound && lru.bound[k] == id {
          RemovedIsValid(lru, MAX_BINDINGS, k);
          lru := Removed(lru, k);
          Evicted(k, id);
          assert shards == old(shards);
        }
      }
    }

    /** Moves one key of src, whichever comes up, to dst; an empty key in that place stops the move. */
    method StealOneBinding(src: int, dst: int, now: int) returns (ghost moved: Option<string>)
      requires Agree({}) && src != dst
      modifies this`lru, this`shards, this`free, this`lastBind, this`bindings, this`evictions
      ensures Agree({})
      ensures if moved.Some? then
                && 0 <= src < n && 0 <= dst < n && moved.value in old(shards)[src] && moved.value != ""
                && lru.bound == old(lru).bound[moved.value := dst]
                && shards == old(shards)[src := old(shards)[src] - {moved.value}][dst := old(shards)[dst] + {moved.value}]
                && free == old(free) + (if old(shards)[src] == {moved.value} then {src} else {})
              else lru == old(lru) && shards == old(shards) && free == old(free)
      ensures 0 <= src < n && 0 <= dst < n && old(shards)[src] != {} && "" !in old(shards)[src] ==> moved.Some?
    {
      moved := None;
      if src < 0 || src >= n || dst < 0 || dst >= n || shards[src] == {} {
        return;
      }
      var keys := shards[src];
      assert (forall k :: k !in keys) ==> keys == {};
      var victim :| victim in keys;
      if victim == "" {
        return;
      }
      moved := Some(victim);
      Move(victim, src, dst, now);
    }

    method Move(victim: string, src: nat, dst: nat, now: int)
      requires Agree({}) && src < n && dst < n && src != dst && victim in shards[src]
      modifies this`lru, this`shards, this`free, this`lastBind, this`bindings, this`evictions
      ensures Agree({}) && lru.bound == old(lru).bound[victim := dst]
      ensures shards == old(shards)[src := old(shards)[src] - {victim}][dst := old(shards)[dst] + {victim}]
      ensures free == old(free) + (if old(shards)[src] == {victim} then {src} else {})
      ensures lastBind == old(lastBind)[dst := now] && evictions == old(evictions) + 1
    {
      Unbind(victim, src);
      Rebind(old(lru).bound, victim, dst);
      AgreesMore(n, lru.bound, shards, free, dst);
      Bind(victim, dst, now);
    }

    /** Takes a key out of its partition's set and then out of the forward map. */
    method Unbind(key: string, src: nat)
      requires Agree({}) && src < n && key in shards[src]
      modifies this`lru, this`shards, this`free, this`evictions
      ensures Agree({}) && lru == Removed(old(lru), key) && |lru.order| < MAX_BINDINGS
      ensures shards == old(shards)[src := old(shards)[src] - {key}] && evictions == old(evictions) + 1
      ensures free == old(free) + (if old(shards)[src] == {key} then {src} else {})
    {
      assert key in lru.bound && lru.bound[key] == src;
      RemovedIsValid(lru, MAX_BINDINGS, key);
      TakesOutOnce(shards, src, key);
      UnbindAgrees(n, lru.bound, shards, free, {}, key);
      shards := shards[src := shards[src] - {key}];
      if key in lru.bound && lru.bound[key] == src {
        lru := Removed(lru, key);
        Evicted(key, src);
      }
    }

    /**
     New metrics. A key loses its binding exactly when the last binding to its partition lies half a second
     back and the partition has nothing queued or more than twice the mean load; such a partition is free.
     Then every partition without load and queue in turn takes over one key of the first one above one and
     a half times the mean; every other key keeps its partition.
     */
    method OnMetrics(partitionLoads: seq<real>, queueDepth: seq<int>, now: int)
      returns (ghost gone: set<int>, ghost steps: seq<map<string, int>>)
      requires Agree({})
      modifies this
      ensures Agree({}) && loads == Some(partitionLoads) && old(free) <= free
      ensures forall p :: p in gone <==> Releases(n, old(lastBind), now, partitionLoads, queueDepth, p)
      ensures Rebound(old(lru).bound, lru.bound, gone, partitionLoads, queueDepth)
      ensures forall k, i | k in old(lru).bound && IsLast(old(bindings), i, old(lru).bound[k]) ::
                var p, at := old(lru).bound[k], old(bindings)[i].at;
                k !in lru.bound
                <==> && (at <= 0 || now - at >= 500_000_000)
                     && (|| (p < |queueDepth| && queueDepth[p] == 0)
                         || (|partitionLoads| > 1 && p < |partitionLoads| && Mean(partitionLoads) > 0.0
                             && partitionLoads[p] > 2.0 * Mean(partitionLoads)))
      ensures forall k | k in old(lru).bound && k !in lru.bound :: old(lru).bound[k] in free
      ensures Rebalanced(n, partitionLoads, queueDepth, old(lru).bound, gone, steps, lru.bound)
    {
      loads := Some(partitionLoads);
      gone := {};
      ghost var before := lru.bound;
      var i := 0;
      while i < |queueDepth|
        invariant 0 <= i <= |queueDepth| && Agree({}) && loads == Some(partitionLoads) && old(free) + gone <= free
        invariant lastBind == old(lastBind) && Cleared(before, lru.bound, gone)
        invariant forall p :: p in gone <==> 0 <= p < n && Quiet(lastBind[p], now) && p < i && Empty(queueDepth, p)
      {
        if queueDepth[i] == 0 {
          gone := Release(i, now, before, gone);
        }
        i := i + 1;
      }
      if |partitionLoads| > 1 {
        var avg := AvgLoad(partitionLoads);
        i := 0;
        while i < |partitionLoads|
          invariant 0 <= i <= |partitionLoads| && Agree({}) && loads == Some(partitionLoads) && old(free) + gone <= free
          invariant lastBind == old(lastBind) && Cleared(before, lru.bound, gone)
          invariant forall p :: p in gone <==> 0 <= p < n && Quiet(lastBind[p], now)
                                               && (Empty(queueDepth, p) || (p < i && Overloaded(partitionLoads, p)))
        {
          if avg > 0.0 && partitionLoads[i] > RELEASE_FACTOR * avg {
            gone := Release(i, now, before, gone);
          }
          i := i + 1;
        }
        ClearedIsRebound(before, lru.bound, gone, partitionLoads, queueDepth);
        steps := Rebalance(partitionLoads, queueDepth, avg, now, before, gone);
      } else {
        ClearedIsRebound(before, lru.bound, gone, partitionLoads, queueDepth);
        steps := [lru.bound];
      }
      MetricsLaw(n, before, lru.bound, gone, old(lastBind), old(bindings), now, partitionLoads, queueDepth);
    }

    /** Releases a partition that has not been released before, and keeps track of it. */
    method Release(id: nat, now: int, ghost before: map<string, int>, ghost gone: set<int>) returns (ghost all: set<int>)
      requires Agree({}) && Cleared(before, lru.bound, gone)
      modifies this`lru, this`shards, this`free, this`evictions
      ensures Agree({}) && old(free) <= free && (all != gone ==> id in free)
      ensures all == (if id < n && Quiet(lastBind[id], now) then gone + {id} else gone)
      ensures Cleared(before, lru.bound, all)
    {
      ReleasePartition(id, now);
      all := if id < n && Quiet(lastBind[id], now) then gone + {id} else gone;
    }

    /** Every idle partition takes one key from the first one above the average. */
    method Rebalance(partitionLoads: seq<real>, queueDepth: seq<int>, avg: real, now: int,
                     ghost before: map<string, int>, ghost gone: set<int>) returns (ghost steps: seq<map<string, int>>)
      requires Agree({}) && |partitionLoads| > 1 && avg == Average(partitionLoads)
      requires Rebound(before, lru.bound, gone, partitionLoads, queueDepth)
      modifies this`lru, this`shards, this`free, this`lastBind, this`bindings, this`evictions
      ensures Agree({}) && lru.bound.Keys == old(lru).bound.Keys && old(free) <= free
      ensures Rebound(before, lru.bound, gone, partitionLoads, queueDepth)
      ensures |steps| == |partitionLoads| + 1 && steps[0] == old(lru).bound && steps[|partitionLoads|] == lru.bound
      ensures forall i | 0 <= i < |partitionLoads| :: Steals(n, partitionLoads, queueDepth, i, steps[i], steps[i + 1])
    {
      steps := [lru.bound];
      var i := 0;
      while i < |partitionLoads|
        invariant |steps| == i + 1 <= |partitionLoads| + 1 && steps[0] == old(lru).bound && steps[i] == lru.bound
        invariant forall l | 0 <= l < i :: Steals(n, partitionLoads, queueDepth, l, steps[l], steps[l + 1])
        invariant 0 <= i && Agree({}) && lru.bound.Keys == old(lru).bound.Keys && old(free) <= free
        invariant Rebound(before, lru.bound, gone, partitionLoads, queueDepth)
      {
        Turn(partitionLoads, queueDepth, avg, i, now, before, gone);
        steps := steps + [lru.bound];
        i := i + 1;
      }
    }

    /** Partition i's turn: when it is idle it takes over a key. */
    method Turn(partitionLoads: seq<real>, queueDepth: seq<int>, avg: real, i: nat, now: int,
                ghost before: map<string, int>, ghost gone: set<int>)
      requires Agree({}) && |partitionLoads| > 1 && i < |partitionLoads| && avg == Average(partitionLoads)
      requires Rebound(before, lru.bound, gone, partitionLoads, queueDepth)
      modifies this`lru, this`shards, this`free, this`lastBind, this`bindings, this`evictions
      ensures Agree({}) && lru.bound.Keys == old(lru).bound.Keys && old(free) <= free
      ensures Rebound(before, lru.bound, gone, partitionLoads, queueDepth)
      ensures Steals(n, partitionLoads, queueDepth, i, old(lru).bound, lru.bound)
    {
      if partitionLoads[i] <= 0.0 && !(i < |queueDepth| && queueDepth[i] > 0) {
        ghost var was, sets, open := lru.bound, shards, free;
        ghost var taken := TakeOver(partitionLoads, avg, i, now);
        ReboundMore(before, was, lru.bound, gone, partitionLoads, queueDepth, i, taken);
        TakenIsSteal(n, was, sets, open, partitionLoads, queueDepth, i, taken, lru.bound);
      }
    }

    /** Partition i takes a key from the first other partition above the average, if there is one. */
    method TakeOver(partitionLoads: seq<real>, avg: real, i: nat, now: int) returns (ghost taken: Option<string>)
      requires Agree({}) && |partitionLoads| > 1 && avg == Average(partitionLoads)
      modifies this`lru, this`shards, this`free, this`lastBind, this`bindings, this`evictions
      ensures Agree({}) && old(free) <= free
      ensures if taken.Some? then
                && taken.value in old(lru).bound && FirstStealable(partitionLoads, i, old(lru).bound[taken.value])
                && i < n && taken.value != "" && lru.bound == old(lru).bound[taken.value := i]
              else lru == old(lru)
      ensures forall j | FirstStealable(partitionLoads, i, j) && j < n && i < n
                          && old(shards)[j] != {} && "" !in old(shards)[j] ::
                taken.Some?
    {
      taken := None;
      var j := 0;
      while j < |partitionLoads|
        invariant 0 <= j <= |partitionLoads| && Agree({}) && lru == old(lru) && free == old(free) && shards == old(shards)
        invariant taken == None && forall q | 0 <= q < j && q != i :: !Stealable(partitionLoads, q)
      {
        if j != i && avg != 0.0 && partitionLoads[j] > STEAL_FACTOR * avg {
          assert FirstStealable(partitionLoads, i, j);
          assert j < n ==> forall k | k in shards[j] :: k in lru.bound && lru.bound[k] == j;
          taken := StealOneBinding(j, i, now);
          return;
        }
        j := j + 1;
      }
    }
  }

  /**
   Partition i's turn to take a key over. It needs to be without load and queue; the key, which is not the
   empty one, comes from the first other partition whose load is above one and a half times the mean.
   */
  ghost predicate Steals(n: nat, loads: seq<real>, depth: seq<int>, i: int, was: map<string, int>, next: map<string, int>)
    requires 0 <= i < |loads|
  {
    if !(loads[i] <= 0.0 && (i >= |depth| || depth[i] <= 0)) then next == was
    else
      || (exists k :: k in was && k != "" && i < n && next == was[k := i] && Donor(loads, i, was[k]))
      || (next == was && forall k | k in was && i < n && Donor(loads, i, was[k]) :: Held(was, "", was[k]))
  }

  predicate Held(bound: map<string, int>, k: string, p: int) {
    k in bound && bound[k] == p
  }

  /** The first partition other than i above one and a half times a mean that is not 0. */
  ghost predicate Donor(loads: seq<real>, i: int, j: int) {
    && 0 <= j < |loads| && j != i && Mean(loads) != 0.0 && loads[j] > 1.5 * Mean(loads)
    && forall q | 0 <= q < j && q != i :: loads[q] <= 1.5 * Mean(loads)
  }

  lemma DonorIsFirst(loads: seq<real>, i: int, j: int)
    requires |loads| > 1
    ensures Donor(loads, i, j) <==> FirstStealable(loads, i, j)
  {
    assert Average(loads) == Mean(loads);
    if Donor(loads, i, j) {
      forall q | 0 <= q < j && q != i
        ensures !Stealable(loads, q)
      {
        assert loads[q] <= 1.5 * Mean(loads);
      }
    }
    if FirstStealable(loads, i, j) {
      forall q | 0 <= q < j && q != i
        ensures loads[q] <= 1.5 * Mean(loads)
      {
        assert !Stealable(loads, q);
      }
    }
  }

  lemma TakenIsSteal(n: nat, was: map<string, int>, shards: seq<set<string>>, free: set<int>, loads: seq<real>,
                     depth: seq<int>, i: nat, taken: Option<string>, next: map<string, int>)
    requires Agrees(n, was, shards, free, {}) && 1 < |loads| && i < |loads| && Idle(loads, depth, i)
    requires if taken.Some? then
               && taken.value in was && FirstStealable(loads, i, was[taken.value]) && i < n && taken.value != ""
               && next == was[taken.value := i]
             else next == was
    requires forall j | FirstStealable(loads, i, j) && j < n && i < n && shards[j] != {} && "" !in shards[j] :: taken.Some?
    ensures Steals(n, loads, depth, i, was, next)
  {
    if taken.Some? {
      DonorIsFirst(loads, i, was[taken.value]);
    } else {
      forall k | k in was && i < n && Donor(loads, i, was[k])
        ensures Held(was, "", was[k])
      {
        DonorIsFirst(loads, i, was[k]);
        assert k in shards[was[k]];
      }
    }
  }

  /** Whose keys are released, in terms of the bindings made and the metrics alone. */
  lemma MetricsLaw(n: nat, before: map<string, int>, after: map<string, int>, gone: set<int>, last: seq<int>,
                   bindings: seq<Binding>, now: int, loads: seq<real>, depth: seq<int>)
    requires TracksLast(n, bindings, last) && Rebound(before, after, gone, loads, depth)
    requires forall p :: p in gone <==> Releases(n, last, now, loads, depth, p)
    requires forall k | k in before :: 0 <= before[k] < n
    ensures forall k, i | k in before && IsLast(bindings, i, before[k]) ::
              var p, at := before[k], bindings[i].at;
              k !in after
              <==> && (at <= 0 || now - at >= 500_000_000)
                   && (|| (p < |depth| && depth[p] == 0)
                       || (|loads| > 1 && p < |loads| && Mean(loads) > 0.0 && loads[p] > 2.0 * Mean(loads)))
  {
  }

  /** The bindings after the release, and after each partition's turn. */
  ghost predicate Rebalanced(n: nat, loads: seq<real>, depth: seq<int>, before: map<string, int>, gone: set<int>,
                             steps: seq<map<string, int>>, after: map<string, int>)
  {
    && |steps| == (if |loads| > 1 then |loads| + 1 else 1)
    && Cleared(before, steps[0], gone) && steps[|steps| - 1] == after
    && forall i | 0 <= i < |steps| - 1 :: Steals(n, loads, depth, i, steps[i], steps[i + 1])
  }

  /** The first partition other than i that a key may be stolen from. */
  ghost predicate FirstStealable(loads: seq<real>, i: int, j: int) {
    Stealable(loads, j) && j != i && forall q | 0 <= q < j && q != i :: !Stealable(loads, q)
  }

  /** Exactly the keys of the partitions in gone have lost their binding. */
  ghost predicate Cleared(before: map<string, int>, after: map<string, int>, gone: set<int>) {
    && (forall k | k in after :: k in before && after[k] == before[k])
    && forall k | k in before :: k in after <==> before[k] !in gone
  }

  lemma ClearedIsRebound(before: map<string, int>, after: map<string, int>, gone: set<int>, loads: seq<real>, depth: seq<int>)
    requires Cleared(before, after, gone)
    ensures Rebound(before, after, gone, loads, depth)
  {
  }

  /** One key more taken over by the idle partition i. */
  lemma ReboundMore(before: map<string, int>, was: map<string, int>, after: map<string, int>, gone: set<int>,
                    loads: seq<real>, depth: seq<int>, i: int, taken: Option<string>)
    requires Rebound(before, was, gone, loads, depth) && Idle(loads, depth, i)
    requires if taken.Some? then taken.value in was && Stealable(loads, was[taken.value]) && after == was[taken.value := i]
             else after == was
    ensures Rebound(before, after, gone, loads, depth)
  {
  }
}
