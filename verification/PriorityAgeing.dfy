/** Ageing: how far repeated promotion carries an entry through any sequential run of the index. */
module PriorityAgeing {
  import opened EntryRing
  import opened PriorityLevels

  datatype Op =
    | Add(priority: int, entry: PendingEntry)
    | Pop(threshold: int, from: nat)
    | Promote(now: int)

  /** One sequential operation; a pop names the level it takes from. */
  predicate CanStep(levels: Levels, op: Op) {
    op.Pop? ==> Pops(levels, op.threshold, op.from)
  }

  function Step(levels: Levels, cap: nat, ttl: int, op: Op): Levels
    requires CanStep(levels, op)
  {
    match op
    case Add(priority, e) => levels[Clamped(priority) := Kept(cap, levels[Clamped(priority)] + [e])]
    case Pop(_, q) => levels[q := levels[q][1..]]
    case Promote(now) => Promoted(levels, cap, now, ttl)
  }

  /** states[i+1] is states[i] after ops[i]. */
  predicate IsRun(states: seq<Levels>, cap: nat, ttl: int, ops: seq<Op>) {
    && |states| == |ops| + 1
    && forall i | 0 <= i < |ops| :: CanStep(states[i], ops[i]) && states[i + 1] == Step(states[i], cap, ttl, ops[i])
  }

  function Promotions(ops: seq<Op>): nat {
    if ops == [] then 0 else Promotions(ops[..|ops| - 1]) + if ops[|ops| - 1].Promote? then 1 else 0
  }

  predicate OnlyAt(levels: Levels, e: PendingEntry, q: nat) {
    forall p | 0 <= p < MAX_PRIORITY && p != q :: e !in levels[p]
  }

  function Raised(q: nat, k: nat): nat {
    if q + k < MAX_PRIORITY then q + k else MAX_PRIORITY - 1
  }

  /** A promotion lifts a stale entry one level, and leaves it nowhere else. */
  lemma PromotionMoves(levels: Levels, cap: nat, now: int, ttl: int, e: PendingEntry, q: nat)
    requires q < MAX_PRIORITY && OnlyAt(levels, e, q) && IsStale(e, now, ttl)
    ensures OnlyAt(Promoted(levels, cap, now, ttl), e, Raised(q, 1))
  {
  }

  lemma StepMoves(levels: Levels, cap: nat, ttl: int, op: Op, e: PendingEntry, q: nat)
    requires CanStep(levels, op) && q < MAX_PRIORITY && OnlyAt(levels, e, q)
    requires op.Add? ==> op.entry != e
    requires op.Promote? ==> IsStale(e, op.now, ttl)
    ensures OnlyAt(Step(levels, cap, ttl, op), e, if op.Promote? then Raised(q, 1) else q)
  {
    if op.Promote? {
      PromotionMoves(levels, cap, op.now, ttl, e, q);
    }
  }

  /** The clock of a run never goes back. */
  predicate Chronological(ops: seq<Op>) {
    forall i, j | 0 <= i < j < |ops| && ops[i].Promote? && ops[j].Promote? :: ops[i].now <= ops[j].now
  }

  predicate StaleAtFirst(ops: seq<Op>, e: PendingEntry, ttl: int) {
    forall i | 0 <= i < |ops| && ops[i].Promote? && Promotions(ops[..i]) == 0 :: IsStale(e, ops[i].now, ttl)
  }

  /** Stale at the first promotion means stale at every later one. */
  lemma {:induction false} StaysStale(ops: seq<Op>, e: PendingEntry, ttl: int, j: nat)
    requires Chronological(ops) && StaleAtFirst(ops, e, ttl) && j < |ops| && ops[j].Promote?
    ensures IsStale(e, ops[j].now, ttl)
  {
    if Promotions(ops[..j]) != 0 {
      var i := LastPromotion(ops, j);
      StaysStale(ops, e, ttl, i);
    }
  }

  lemma {:induction false} LastPromotion(ops: seq<Op>, j: nat) returns (i: nat)
    requires j <= |ops| && Promotions(ops[..j]) != 0
    ensures i < j && ops[i].Promote?
  {
    i := j - 1;
    if !ops[i].Promote? {
      assert ops[..j][..i] == ops[..i];
      i := LastPromotion(ops, i);
    }
  }

  lemma PromotionsSucc(ops: seq<Op>, n: nat)
    requires n < |ops|
    ensures Promotions(ops[..n + 1]) == Promotions(ops[..n]) + if ops[n].Promote? then 1 else 0
  {
    assert ops[..n + 1][..n] == ops[..n];
  }

  /**
   An entry stale at the first promotion of a run and still present at the end has risen one
   level per promotion, stopping at the top, whatever was added or popped in between.
   */
  lemma {:induction false} PromotionsRaise(states: seq<Levels>, cap: nat, ttl: int, ops: seq<Op>, e: PendingEntry, q: nat, n: nat)
    requires IsRun(states, cap, ttl, ops) && Chronological(ops) && StaleAtFirst(ops, e, ttl)
    requires q < MAX_PRIORITY && OnlyAt(states[0], e, q)
    requires forall i | 0 <= i < |ops| :: ops[i].Add? ==> ops[i].entry != e
    requires n <= |ops|
    ensures OnlyAt(states[n], e, Raised(q, Promotions(ops[..n])))
  {
    if n > 0 {
      PromotionsRaise(states, cap, ttl, ops, e, q, n - 1);
      if ops[n - 1].Promote? {
        StaysStale(ops, e, ttl, n - 1);
      }
      PromotionsSucc(ops, n - 1);
      var q' := Raised(q, Promotions(ops[..n - 1]));
      StepMoves(states[n - 1], cap, ttl, ops[n - 1], e, q');
      assert states[n] == Step(states[n - 1], cap, ttl, ops[n - 1]);
    }
  }
}
