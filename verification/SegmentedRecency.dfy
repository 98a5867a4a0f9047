/** Where a key of the segmented cache is, and when it leaves, by the operations alone. */
module SegmentedRecency {
  import opened Lru
  import opened LruRecency
  import opened Prelude
  import opened SegmentedLru
  import opened Sequences

  /** A write, or a read that found the key in either segment. */
  predicate UsesKey<K(==), V>(s: Segmented<K, V>, op: Op<K, V>, k: K) {
    (op.Put? && op.key == k) || (op.Get? && op.key == k && Find(s, k).Some?)
  }

  /** When the key was last used, counting operations from 1; 0 if never. */
  function KeyLastUse<K(==), V>(maxTotal: nat, target: nat, ops: seq<Op<K, V>>, k: K): (n: nat)
    ensures n <= |ops|
  {
    if ops == [] then 0
    else
      var front := ops[..|ops| - 1];
      if UsesKey(ApplyOps(New(maxTotal, target), front), ops[|ops| - 1], k) then |ops|
      else KeyLastUse(maxTotal, target, front, k)
  }

  /** Both queues by last use. */
  ghost predicate ByLastUse<K(!new), V>(s: Segmented<K, V>, rank: K -> nat) {
    RisesBy(s.probation.order, rank) && RisesBy(s.protected.order, rank)
  }

  lemma InsertLast<K(!new), V>(c: Cache<K, V>, k: K, v: V, rank: K -> nat, later: K -> nat, n: nat)
    requires Valid(c) && RisesBy(c.order, rank) && forall x :: rank(x) <= n
    requires forall x :: later(x) == if x == k then n + 1 else rank(x)
    ensures RisesBy(Insert(c, k, v).order, later)
  {
    QueueAfter(c, Put(k, v), rank, later, n);
  }

  lemma RemoveAlike<K(!new), V>(c: Cache<K, V>, k: K, rank: K -> nat, later: K -> nat)
    requires RisesBy(c.order, rank) && forall x :: x != k ==> later(x) == rank(x)
    ensures RisesBy(Remove(c, k).order, later)
  {
    FilterRises(c.order, x => x != k, rank);
    RisesAlike(Without(c.order, k), rank, later);
  }

  lemma TouchLast<K(!new), V>(c: Cache<K, V>, k: K, rank: K -> nat, later: K -> nat, n: nat)
    requires Valid(c) && RisesBy(c.order, rank) && k in c.entries && forall x :: rank(x) <= n
    requires forall x :: later(x) == if x == k then n + 1 else rank(x)
    ensures RisesBy(Touch(c, k).order, later)
  {
    QueueAfter(c, Get(k), rank, later, n);
  }

  /** A segment without the used key keeps its order. */
  lemma OtherSegment<K(!new), V>(c: Cache<K, V>, k: K, rank: K -> nat, later: K -> nat)
    requires Valid(c) && RisesBy(c.order, rank) && k !in c.entries && forall x :: x != k ==> later(x) == rank(x)
    ensures RisesBy(c.order, later)
  {
    RisesAlike(c.order, rank, later);
  }

  lemma QueuesAfter<K(!new), V>(s: Segmented<K, V>, op: Op<K, V>, rank: K -> nat, later: K -> nat, n: nat)
    requires Inv(s) && ByLastUse(s, rank) && forall x :: rank(x) <= n
    requires forall x :: later(x) == if UsesKey(s, op, x) then n + 1 else rank(x)
    ensures ByLastUse(ApplyOp(s, op), later)
  {
    hide RisesBy, Valid, Insert, Remove, Touch, Rebalance;
    match op
    case Get(k) =>
      if k in s.protected.entries {
        TouchLast(s.protected, k, rank, later, n);
        OtherSegment(s.probation, k, rank, later);
      } else if k in s.probation.entries {
        InsertLast(s.protected, k, s.probation.entries[k], rank, later, n);
        RemoveAlike(s.probation, k, rank, later);
      } else {
        OtherSegment(s.protected, k, rank, later);
        OtherSegment(s.probation, k, rank, later);
      }
    case Put(k, v) =>
      if k in s.protected.entries {
        InsertLast(s.protected, k, v, rank, later, n);
        OtherSegment(s.probation, k, rank, later);
      } else {
        PutNew(s, k, v);
        InsertLast(s.probation, k, v, rank, later, n);
        OtherSegment(s.protected, k, rank, later);
      }
    case Del(k) =>
      RemoveAlike(s.probation, k, rank, later);
      RemoveAlike(s.protected, k, rank, later);
      RisesAlike(s.protected.order, rank, later);
    case Clear => NothingRises(later);
  }

  lemma NothingRises<K>(rank: K -> nat)
    ensures RisesBy([], rank)
  {
  }

  /** After any run both queues list their keys in the order of their last use. */
  lemma {:induction false} QueuesAreByLastUse<K(!new), V>(maxTotal: nat, target: nat, ops: seq<Op<K, V>>)
    ensures ByLastUse(ApplyOps(New<K, V>(maxTotal, target), ops), k => KeyLastUse(maxTotal, target, ops, k))
  {
    if ops != [] {
      hide ApplyOp, UsesKey, Inv, Fresh;
      var n := |ops| - 1;
      QueuesAreByLastUse(maxTotal, target, ops[..n]);
      SegmentsStayConsistent(maxTotal, target, ops[..n]);
      QueuesAfter(ApplyOps(New(maxTotal, target), ops[..n]), ops[n],
                  k => KeyLastUse(maxTotal, target, ops[..n], k), k => KeyLastUse(maxTotal, target, ops, k), n);
    }
  }

  /**
   Which keys are protected after one more operation of any run: the key read, if it was there, and
   each that was protected, was not deleted, and was not the least recently used of a full segment
   that took in another.
   */
  lemma ProtectedIff<K(!new), V>(maxTotal: nat, target: nat, ops: seq<Op<K, V>>, op: Op<K, V>, k: K)
    ensures var s, s' := ApplyOps(New<K, V>(maxTotal, target), ops), ApplyOps(New<K, V>(maxTotal, target), ops + [op]);
      k in s'.protected.entries <==>
        || (op == Get(k) && Find(s, k).Some?)
        || (k in s.protected.entries && !op.Clear? && op != Del(k)
            && !(op.Get? && op.key in s.probation.entries
                 && GivesUp(s.protected, op.key, k, x => KeyLastUse(maxTotal, target, ops, x))))
  {
    hide Valid, RisesBy, GivesUp, Insert;
    var s := ApplyOps(New<K, V>(maxTotal, target), ops);
    ApplySnoc(New<K, V>(maxTotal, target), ops, op);
    QueuesAreByLastUse(maxTotal, target, ops);
    SegmentsStayConsistent(maxTotal, target, ops);
    var rank := (x: K) => KeyLastUse(maxTotal, target, ops, x);
    if op.Get? && op.key in s.probation.entries {
      InsertPresent(s.protected, op.key, s.probation.entries[op.key], k, rank);
    } else if op.Put? && op.key in s.protected.entries {
      InsertPresent(s.protected, op.key, op.value, k, rank);
      NothingGivenUp(s.protected, op.key, k, rank);
    } else if op.Put? {
      PutNew(s, op.key, op.value);
    }
  }

  lemma NothingGivenUp<K(!new), V>(c: Cache<K, V>, k: K, x: K, rank: K -> nat)
    requires k in c.entries
    ensures !GivesUp(c, k, x, rank)
  {
  }

  /** Which keys are on probation: the key written, if it was not protected, and each that was there, was
   neither read nor deleted, and was not the least recently used of a full segment that took in another. */
  lemma ProbationIff<K(!new), V>(maxTotal: nat, target: nat, ops: seq<Op<K, V>>, op: Op<K, V>, k: K)
    ensures var s, s' := ApplyOps(New<K, V>(maxTotal, target), ops), ApplyOps(New<K, V>(maxTotal, target), ops + [op]);
      k in s'.probation.entries <==>
        || (op.Put? && op.key == k && k !in s.protected.entries)
        || (k in s.probation.entries && !op.Clear? && op != Del(k) && op != Get(k)
            && !(op.Put? && op.key !in s.protected.entries
                 && GivesUp(s.probation, op.key, k, x => KeyLastUse(maxTotal, target, ops, x))))
  {
    hide Valid, RisesBy, GivesUp, Insert;
    var s := ApplyOps(New<K, V>(maxTotal, target), ops);
    ApplySnoc(New<K, V>(maxTotal, target), ops, op);
    QueuesAreByLastUse(maxTotal, target, ops);
    SegmentsStayConsistent(maxTotal, target, ops);
    if op.Put? && op.key !in s.protected.entries {
      PutNew(s, op.key, op.value);
      InsertPresent(s.probation, op.key, op.value, k, x => KeyLastUse(maxTotal, target, ops, x));
    }
  }
}
