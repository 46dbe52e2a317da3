/** A bounded map that forgets its least recently used key, as the partition balancer uses it. */
module Lru {
  import opened Wrappers

  /** Keys from the least to the most recently used, and the partition each is bound to. */
  datatype Cache = Cache(order: seq<string>, bound: map<string, int>)

  predicate NoDuplicates(s: seq<string>) {
    forall i, j | 0 <= i < j < |s| :: s[i] != s[j]
  }

  ghost predicate Valid(c: Cache, cap: nat) {
    && NoDuplicates(c.order) && |c.order| <= cap
    && forall k :: k in c.order <==> k in c.bound
  }

  /** s without k, in order. */
  function Without(s: seq<string>, k: string): (r: seq<string>)
    ensures forall x :: x in r <==> x in s && x != k
    ensures NoDuplicates(s) ==> NoDuplicates(r)
    ensures k !in s ==> r == s
    ensures k in s && NoDuplicates(s) ==> |r| == |s| - 1
  {
    if s == [] then []
    else if s[0] == k then Without(s[1..], k)
    else
      var r := Without(s[1..], k);
      assert NoDuplicates(s) ==> s[0] !in s[1..];
      assert forall j | 0 <= j < |r| :: r[j] in r;
      [s[0]] + r
  }

  function Touched(c: Cache, k: string): Cache {
    c.(order := Without(c.order, k) + [k])
  }

  function Removed(c: Cache, k: string): Cache {
    Cache(Without(c.order, k), c.bound - {k})
  }

  /** The key that has to go to make room for k. */
  function Victim(c: Cache, cap: nat, k: string): Option<string> {
    if k !in c.bound && |c.order| >= cap && c.order != [] then Some(c.order[0]) else None
  }

  function Added(c: Cache, cap: nat, k: string, v: int): Cache {
    var victim := Victim(c, cap, k);
    var room := if victim.Some? then Removed(c, victim.value) else c;
    Cache(Without(room.order, k) + [k], room.bound[k := v])
  }

  lemma TouchedIsValid(c: Cache, cap: nat, k: string)
    requires Valid(c, cap) && k in c.bound
    ensures Valid(Touched(c, k), cap)
  {
  }

  lemma RemovedIsValid(c: Cache, cap: nat, k: string)
    requires Valid(c, cap)
    ensures Valid(Removed(c, k), cap)
    ensures k in c.bound ==> |Removed(c, k).order| == |c.order| - 1
  {
  }

  lemma AddedIsValid(c: Cache, cap: nat, k: string, v: int)
    requires Valid(c, cap) && cap > 0
    ensures Valid(Added(c, cap, k, v), cap)
  {
    if Victim(c, cap, k).Some? {
      RemovedIsValid(c, cap, Victim(c, cap, k).value);
    }
  }

  // ----- recently used keys stay

  /** Using a key: looking it up when it is bound, binding it otherwise. */
  function Used(c: Cache, cap: nat, k: string, v: int): Cache {
    if k in c.bound then Touched(c, k) else Added(c, cap, k, v)
  }

  function Elements(s: seq<string>): set<string> {
    set x | x in s
  }

  /** The keys used since k was. */
  function After(s: seq<string>, k: string): set<string> {
    if s == [] then {} else if s[0] == k then Elements(s[1..]) else After(s[1..], k)
  }

  lemma {:induction false} AfterWithout(s: seq<string>, x: string, k: string)
    requires x != k
    ensures After(Without(s, x), k) == After(s, k) - {x}
  {
    if s != [] {
      AfterWithout(s[1..], x, k);
      if s[0] == k {
        assert Without(s, x) == [k] + Without(s[1..], x);
        assert Without(s, x)[1..] == Without(s[1..], x);
      } else if s[0] != x {
        assert Without(s, x)[1..] == Without(s[1..], x);
      }
    }
  }

  lemma {:induction false} AfterAppend(s: seq<string>, x: string, k: string)
    requires k in s
    ensures After(s + [x], k) == After(s, k) + {x}
  {
    assert (s + [x])[1..] == s[1..] + [x];
    if s[0] != k {
      AfterAppend(s[1..], x, k);
    }
  }

  lemma {:induction false} ElementsCount(s: seq<string>)
    requires NoDuplicates(s)
    ensures |Elements(s)| == |s|
  {
    if s != [] {
      ElementsCount(s[1..]);
      assert Elements(s) == {s[0]} + Elements(s[1..]);
    }
  }

  lemma SubsetIsSmaller(a: set<string>, b: set<string>)
    requires a <= b
    ensures |a| <= |b|
  {
    assert b == a + (b - a);
  }

  /** The key displaced to make room is not one used among the last cap. */
  lemma VictimIsOld(c: Cache, cap: nat, k: string, x: string, since: set<string>)
    requires Valid(c, cap) && k in c.bound && After(c.order, k) <= since && |since + {x}| < cap
    requires Victim(c, cap, x).Some?
    ensures Victim(c, cap, x).value != k
  {
    if c.order[0] == k {
      ElementsCount(c.order[1..]);
      SubsetIsSmaller(Elements(c.order[1..]) + {x}, since + {x});
    }
  }

  /**
   Binding a new key: only a full map gives up a key for it, and that is the one since whose last use every
   other key has been used.
   */
  lemma AddEvicts(c: Cache, cap: nat, k: string, v: int)
    requires Valid(c, cap) && cap > 0 && k !in c.bound
    ensures |c.order| < cap ==> Victim(c, cap, k).None? && Added(c, cap, k, v).bound == c.bound[k := v]
    ensures |c.order| == cap ==>
              var x := Victim(c, cap, k);
              && x.Some? && x.value in c.bound && After(c.order, x.value) == c.bound.Keys - {x.value}
              && Added(c, cap, k, v).bound == (c.bound - {x.value})[k := v]
  {
    if |c.order| == cap {
      var x := c.order[0];
      assert c.order[0] in c.order && x !in c.order[1..];
      assert Elements(c.order[1..]) == c.bound.Keys - {x} by {
        assert forall y | y in c.order && y != x :: y in c.order[1..];
      }
    }
  }

  lemma AddKeeps(c: Cache, cap: nat, k: string, x: string, v: int, since: set<string>)
    requires Valid(c, cap) && k in c.bound && x !in c.bound && After(c.order, k) <= since
    requires Victim(c, cap, x).Some? ==> Victim(c, cap, x).value != k
    ensures var c' := Added(c, cap, x, v);
            && k in c'.bound && c'.bound[k] == c.bound[k]
            && After(c'.order, k) <= since + {x}
  {
    var victim := Victim(c, cap, x);
    var room := if victim.Some? then Removed(c, victim.value) else c;
    if victim.Some? {
      AfterWithout(c.order, victim.value, k);
    }
    AfterAppend(room.order, x, k);
  }

  /** Using another key does not displace k while fewer than cap other keys have been used since. */
  lemma UseKeeps(c: Cache, cap: nat, k: string, x: string, v: int, since: set<string>)
    requires Valid(c, cap) && k in c.bound && x != k && After(c.order, k) <= since && |since + {x}| < cap
    ensures var c' := Used(c, cap, x, v);
            && Valid(c', cap) && k in c'.bound && c'.bound[k] == c.bound[k]
            && After(c'.order, k) <= since + {x}
  {
    if x in c.bound {
      TouchedIsValid(c, cap, x);
      AfterWithout(c.order, x, k);
      AfterAppend(Without(c.order, x), x, k);
    } else {
      AddedIsValid(c, cap, x, v);
      if Victim(c, cap, x).Some? {
        VictimIsOld(c, cap, k, x, since);
      }
      AddKeeps(c, cap, k, x, v, since);
    }
  }

  function UsedAll(c: Cache, cap: nat, keys: seq<string>, to: seq<int>): Cache
    requires |keys| == |to|
  {
    if keys == [] then c
    else Used(UsedAll(c, cap, keys[..|keys| - 1], to[..|to| - 1]), cap, keys[|keys| - 1], to[|to| - 1])
  }

  /** A key stays bound to its partition through any run of uses of fewer than cap distinct keys. */
  lemma {:induction false} BindingSticks(c: Cache, cap: nat, k: string, keys: seq<string>, to: seq<int>)
    requires Valid(c, cap) && k in c.bound && After(c.order, k) == {} && |keys| == |to|
    requires |Elements(keys) - {k}| < cap
    ensures var c' := UsedAll(c, cap, keys, to);
            && Valid(c', cap) && k in c'.bound && c'.bound[k] == c.bound[k]
            && After(c'.order, k) <= Elements(keys) - {k}
  {
    if keys != [] {
      var n := |keys| - 1;
      var x, most := keys[n], Elements(keys[..n]) - {k};
      assert Elements(keys) == Elements(keys[..n]) + {x};
      SubsetIsSmaller(most, Elements(keys) - {k});
      BindingSticks(c, cap, k, keys[..n], to[..n]);
      var c' := UsedAll(c, cap, keys[..n], to[..n]);
      if x == k {
        TouchedIsValid(c', cap, k);
        AfterLast(Without(c'.order, k), k);
      } else {
        assert most + {x} == Elements(keys) - {k};
        UseKeeps(c', cap, k, x, to[n], most);
      }
    }
  }

  lemma {:induction false} AfterLast(s: seq<string>, k: string)
    requires k !in s
    ensures After(s + [k], k) == {}
  {
    if s != [] {
      AfterLast(s[1..], k);
      assert (s + [k])[1..] == s[1..] + [k];
    }
  }
}
