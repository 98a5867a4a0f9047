/** What makes the cache least-recently-used: its queue by the operations alone. */
module LruRecency {
  import opened Lru
  import opened Prelude
  import opened Sequences

  /** A write, or a read that found the key. */
  predicate Uses<K(==), V>(c: Cache<K, V>, op: Op<K, V>, k: K) {
    (op.Put? && op.key == k) || (op.Get? && op.key == k && k in c.entries)
  }

  /** When the key was last used, counting operations from 1; 0 if never. */
  function LastUse<K(==), V>(max: nat, ops: seq<Op<K, V>>, k: K): (n: nat)
    ensures n <= |ops|
  {
    if ops == [] then 0
    else
      var front := ops[..|ops| - 1];
      if Uses(ApplyAll(Empty(max), front), ops[|ops| - 1], k) then |ops| else LastUse(max, front, k)
  }

  /** The value last written to the key. */
  function LastWrite<K(==), V>(ops: seq<Op<K, V>>, k: K): (v: Option<V>) {
    if ops == [] then None
    else
      var op := ops[|ops| - 1];
      if op.Put? && op.key == k then Some(op.value) else LastWrite(ops[..|ops| - 1], k)
  }

  /** Strictly rising by the rank of the elements. */
  ghost predicate RisesBy<K>(xs: seq<K>, rank: K -> nat) {
    forall i, j | 0 <= i < j < |xs| :: rank(xs[i]) < rank(xs[j])
  }

  lemma {:induction false} FilterRises<K>(xs: seq<K>, p: K -> bool, rank: K -> nat)
    requires RisesBy(xs, rank)
    ensures RisesBy(Filter(xs, p), rank)
  {
    if xs != [] {
      var front := xs[..|xs| - 1];
      FilterRises(front, p, rank);
      var kept := Filter(front, p);
      assert forall i | 0 <= i < |kept| :: kept[i] in front;
    }
  }

  lemma RisesAlike<K>(xs: seq<K>, rank: K -> nat, other: K -> nat)
    requires RisesBy(xs, rank) && forall x | x in xs :: rank(x) == other(x)
    ensures RisesBy(xs, other)
  {
    assert forall i | 0 <= i < |xs| :: xs[i] in xs;
  }

  lemma RisesSnoc<K>(xs: seq<K>, x: K, rank: K -> nat)
    requires RisesBy(xs, rank) && forall y | y in xs :: rank(y) < rank(x)
    ensures RisesBy(xs + [x], rank)
  {
    assert forall i | 0 <= i < |xs| :: xs[i] in xs;
  }

  /** The key moves, or comes, to the back of what is left of the queue. */
  lemma UsedLast<K>(rest: seq<K>, k: K, rank: K -> nat, later: K -> nat, n: nat)
    requires RisesBy(rest, rank) && k !in rest
    requires forall x | x in rest :: rank(x) <= n && later(x) == rank(x)
    requires later(k) == n + 1
    ensures RisesBy(rest + [k], later)
  {
    RisesAlike(rest, rank, later);
    RisesSnoc(rest, k, later);
  }

  lemma {:induction false} RunValid<K(!new), V>(max: nat, ops: seq<Op<K, V>>)
    ensures Valid(ApplyAll(Empty<K, V>(max), ops)) && ApplyAll(Empty<K, V>(max), ops).max == max
  {
    if ops != [] {
      RunValid(max, ops[..|ops| - 1]);
      ApplyValid(ApplyAll(Empty(max), ops[..|ops| - 1]), ops[|ops| - 1]);
    }
  }

  /** After an operation every queued key but the used one keeps its last use. */
  lemma QueueAfter<K(!new), V>(c: Cache<K, V>, op: Op<K, V>, rank: K -> nat, later: K -> nat, n: nat)
    requires Valid(c) && RisesBy(c.order, rank) && forall x | x in c.order :: rank(x) <= n
    requires forall k :: later(k) == if Uses(c, op, k) then n + 1 else rank(k)
    ensures RisesBy(Apply(c, op).order, later)
  {
    match op
    case Get(k) =>
      if k in c.entries {
        FilterRises(c.order, x => x != k, rank);
        UsedLast(Without(c.order, k), k, rank, later, n);
      } else {
        RisesAlike(c.order, rank, later);
      }
    case Put(k, v) =>
      if k in c.entries {
        FilterRises(c.order, x => x != k, rank);
        UsedLast(Without(c.order, k), k, rank, later, n);
      } else {
        assert forall x | x in Evict(c).order :: x in c.order;
        UsedLast(Evict(c).order, k, rank, later, n);
      }
    case Del(k) =>
      FilterRises(c.order, x => x != k, rank);
      RisesAlike(Without(c.order, k), rank, later);
    case Clear =>
  }

  /** After any run the queue lists the keys in the order of their last use. */
  lemma {:induction false} QueueIsByLastUse<K(!new), V>(max: nat, ops: seq<Op<K, V>>)
    ensures RisesBy(ApplyAll(Empty<K, V>(max), ops).order, k => LastUse(max, ops, k))
  {
    if ops != [] {
      hide Apply, Uses, Valid;
      var n := |ops| - 1;
      QueueIsByLastUse(max, ops[..n]);
      RunValid(max, ops[..n]);
      QueueAfter(ApplyAll(Empty(max), ops[..n]), ops[n], k => LastUse(max, ops[..n], k), k => LastUse(max, ops, k), n);
    }
  }

  /** A full cache gives up, for a new key, the one whose last use is oldest. */
  ghost predicate GivesUp<K(!new), V>(c: Cache<K, V>, k: K, x: K, rank: K -> nat) {
    k !in c.entries && |c.entries| == Capacity(c.max) && forall y | y in c.entries :: rank(x) <= rank(y)
  }

  lemma InsertPresent<K(!new), V>(c: Cache<K, V>, k: K, v: V, x: K, rank: K -> nat)
    requires Valid(c) && RisesBy(c.order, rank)
    ensures x in Insert(c, k, v).entries <==> x == k || (x in c.entries && !GivesUp(c, k, x, rank))
  {
    EntriesMatchOrder(c);
    if k !in c.entries && |c.entries| == Capacity(c.max) {
      var first := c.order[0];
      assert first in c.order;
      forall y | y in c.entries && y != first ensures rank(first) < rank(y) {
        var j :| 0 <= j < |c.order| && c.order[j] == y;
      }
    }
  }

  /**
   What is in the cache, after one more operation of any run: the key written, and each key that was
   there, was not deleted, and was not the least recently used of a full cache that took in a new one.
   */
  lemma PresentIff<K(!new), V>(max: nat, ops: seq<Op<K, V>>, op: Op<K, V>, k: K)
    ensures var c, c' := ApplyAll(Empty<K, V>(max), ops), ApplyAll(Empty<K, V>(max), ops + [op]);
      k in c'.entries <==>
        || (op.Put? && op.key == k)
        || (k in c.entries && !op.Clear? && op != Del(k)
            && !(op.Put? && GivesUp(c, op.key, k, x => LastUse(max, ops, x))))
  {
    hide Valid, RisesBy, GivesUp;
    SnocPrefix(ops, op);
    if op.Put? {
      QueueIsByLastUse(max, ops);
      RunValid(max, ops);
      InsertPresent(ApplyAll(Empty<K, V>(max), ops), op.key, op.value, k, x => LastUse(max, ops, x));
    }
  }

  /** And its value is the one last written. */
  lemma {:induction false} ValueIsLastWrite<K(!new), V>(max: nat, ops: seq<Op<K, V>>, k: K)
    ensures var c := ApplyAll(Empty<K, V>(max), ops);
      k in c.entries ==> LastWrite(ops, k) == Some(c.entries[k])
  {
    if ops != [] {
      ValueIsLastWrite(max, ops[..|ops| - 1], k);
    }
  }
}
