/**
 The segmented cache: new keys enter a probation segment and are promoted to the protected
 segment when read. Includes the rebalancing loop, which turns out never to evict.
 */
module SegmentedLru {
  import opened Prelude
  import opened Sequences
  import opened Lru

  datatype Segmented<K(==), V> = Segmented(
    probation: Cache<K, V>,
    protected: Cache<K, V>,
    target: nat,
    maxTotal: nat)

  function SaturatingSub(a: nat, b: nat): (n: nat) {
    if a < b then 0 else a - b
  }

  function New<K(==), V>(maxTotal: nat, target: nat): (s: Segmented<K, V>) {
    Segmented(Empty(Capacity(target)), Empty(Capacity(SaturatingSub(maxTotal, target))), target, maxTotal)
  }

  function Total<K(==), V>(s: Segmented<K, V>): (n: nat) {
    |s.probation.entries| + |s.protected.entries|
  }

  /** Forced eviction from the front of probation, down to the target but not below one. */
  function EvictDown<K(==), V>(c: Cache<K, V>, target: nat): (r: Cache<K, V>)
    decreases |c.order|
  {
    if |c.entries| > target && |c.entries| > 1 && c.order != [] then
      var r := Remove(c, c.order[0]);
      if |r.order| < |c.order| then EvictDown(r, target) else r
    else c
  }

  function Rebalance<K(==), V>(s: Segmented<K, V>): (r: Segmented<K, V>) {
    if Total(s) <= s.maxTotal then s else s.(probation := EvictDown(s.probation, s.target))
  }

  function Find<K(==), V>(s: Segmented<K, V>, k: K): (r: Option<V>) {
    if k in s.protected.entries then Some(s.protected.entries[k]) else Lookup(s.probation, k)
  }

  function AfterGet<K(==), V>(s: Segmented<K, V>, k: K): (r: Segmented<K, V>) {
    if k in s.protected.entries then s.(protected := Touch(s.protected, k))
    else if k in s.probation.entries then
      s.(probation := Remove(s.probation, k), protected := Insert(s.protected, k, s.probation.entries[k]))
    else s
  }

  function AfterPut<K(==), V>(s: Segmented<K, V>, k: K, v: V): (r: Segmented<K, V>) {
    if k in s.protected.entries then s.(protected := Insert(s.protected, k, v))
    else Rebalance(s.(probation := Insert(s.probation, k, v)))
  }

  function AfterDel<K(==), V>(s: Segmented<K, V>, k: K): (r: Segmented<K, V>) {
    if k in s.probation.entries then s.(probation := Remove(s.probation, k))
    else s.(probation := Remove(s.probation, k), protected := Remove(s.protected, k))
  }

  function ApplyOp<K(==), V>(s: Segmented<K, V>, op: Op<K, V>): (r: Segmented<K, V>) {
    match op
    case Get(k) => AfterGet(s, k)
    case Put(k, v) => AfterPut(s, k, v)
    case Del(k) => AfterDel(s, k)
    case Clear => s.(probation := Empty(s.probation.max), protected := Empty(s.protected.max))
  }

  function ApplyOps<K(==), V>(s: Segmented<K, V>, ops: seq<Op<K, V>>): (r: Segmented<K, V>) {
    if ops == [] then s else ApplyOp(ApplyOps(s, ops[..|ops| - 1]), ops[|ops| - 1])
  }

  /** The value each key was last given, unless it was deleted since. */
  function Latest<K(==), V>(ops: seq<Op<K, V>>): (m: map<K, V>) {
    if ops == [] then map[]
    else
      var m := Latest(ops[..|ops| - 1]);
      match ops[|ops| - 1]
      case Get(_) => m
      case Put(k, v) => m[k := v]
      case Del(k) => m - {k}
      case Clear => map[]
  }

  // ---- invariant ----

  ghost predicate Inv<K(!new), V>(s: Segmented<K, V>) {
    && Valid(s.probation) && Valid(s.protected)
    && s.probation.entries.Keys !! s.protected.entries.Keys
    && s.probation.max == Capacity(s.target)
    && s.protected.max == Capacity(SaturatingSub(s.maxTotal, s.target))
  }

  /** Every entry holds the key's latest value. */
  ghost predicate Fresh<K(!new), V>(s: Segmented<K, V>, latest: map<K, V>) {
    forall k :: Find(s, k).Some? ==> k in latest && Find(s, k) == Some(latest[k])
  }

  /** Probation never outgrows its own capacity, so the loop has nothing to do. */
  lemma RebalanceNeverEvicts<K(!new), V>(s: Segmented<K, V>)
    requires Valid(s.probation) && s.probation.max == Capacity(s.target)
    ensures Rebalance(s) == s
  {
    EntriesMatchOrder(s.probation);
  }

  ghost predicate Listed<K(!new), V>(c: Cache<K, V>) {
    Distinct(c.order) && forall k :: k in c.order <==> k in c.entries
  }

  lemma ListedCount<K(!new), V>(c: Cache<K, V>)
    requires Listed(c)
    ensures |c.entries| == |c.order|
  {
    DistinctCardinality(c.order, c.entries.Keys);
  }

  lemma RemoveListed<K(!new), V>(c: Cache<K, V>, k: K)
    requires Listed(c)
    ensures Listed(Remove(c, k))
  {
    WithoutLength(c.order, k);
  }

  lemma RemoveFirst<K(!new), V>(c: Cache<K, V>)
    requires c.order != [] && Listed(c)
    ensures Remove(c, c.order[0]).order == c.order[1..]
  {
    hide Without;
    WithoutAt(c.order, 0);
  }

  lemma TailOfTail<T>(xs: seq<T>, n: nat)
    requires n < |xs|
    ensures xs[1..][|xs| - 1 - n..] == xs[|xs| - n..]
  {
  }

  /** Beyond its capacity the loop would drop the least recently used, down to the target but not below one. */
  lemma {:induction false} EvictDownKeepsLatest<K(!new), V>(c: Cache<K, V>, target: nat)
    requires Listed(c)
    ensures EvictDown(c, target).order == c.order[|c.order| - Min(|c.order|, Max(target, 1))..]
    ensures Listed(EvictDown(c, target))
    decreases |c.order|
  {
    hide Listed, Remove;
    ListedCount(c);
    if |c.order| > Max(target, 1) {
      RemoveFirst(c);
      RemoveListed(c, c.order[0]);
      EvictDownKeepsLatest(Remove(c, c.order[0]), target);
      TailOfTail(c.order, Max(target, 1));
    }
  }

  lemma InsertKeySet<K(!new), V>(c: Cache<K, V>, k: K, v: V, x: K)
    ensures x != k && x in Insert(c, k, v).entries ==> x in c.entries && Insert(c, k, v).entries[x] == c.entries[x]
    ensures k in Insert(c, k, v).entries && Insert(c, k, v).entries[k] == v
  {
  }

  lemma PutNew<K(!new), V>(s: Segmented<K, V>, k: K, v: V)
    requires Inv(s) && k !in s.protected.entries
    ensures AfterPut(s, k, v) == s.(probation := Insert(s.probation, k, v))
  {
    InsertValid(s.probation, k, v);
    RebalanceNeverEvicts(s.(probation := Insert(s.probation, k, v)));
  }

  lemma InsertDisjoint<K(!new), V>(a: Cache<K, V>, b: Cache<K, V>, k: K, v: V)
    requires a.entries.Keys !! b.entries.Keys && k !in b.entries
    ensures Insert(a, k, v).entries.Keys !! b.entries.Keys
  {
    forall x | x in Insert(a, k, v).entries ensures x !in b.entries {
      InsertKeySet(a, k, v, x);
    }
  }

  lemma PutKeepsInv<K(!new), V>(s: Segmented<K, V>, k: K, v: V)
    requires Inv(s)
    ensures Inv(AfterPut(s, k, v))
  {
    if k in s.protected.entries {
      InsertValid(s.protected, k, v);
      InsertDisjoint(s.protected, s.probation, k, v);
    } else {
      PutNew(s, k, v);
      InsertValid(s.probation, k, v);
      InsertDisjoint(s.probation, s.protected, k, v);
    }
  }

  lemma GetKeepsInv<K(!new), V>(s: Segmented<K, V>, k: K)
    requires Inv(s)
    ensures Inv(AfterGet(s, k))
  {
    if k in s.protected.entries {
      ApplyValid(s.protected, Get(k));
    } else if k in s.probation.entries {
      ApplyValid(s.probation, Del(k));
      InsertValid(s.protected, k, s.probation.entries[k]);
      InsertDisjoint(s.protected, Remove(s.probation, k), k, s.probation.entries[k]);
    }
  }

  lemma DelKeepsInv<K(!new), V>(s: Segmented<K, V>, k: K)
    requires Inv(s)
    ensures Inv(AfterDel(s, k))
  {
    ApplyValid(s.probation, Del(k));
    ApplyValid(s.protected, Del(k));
  }

  /** A read may evict other keys but changes no value. */
  lemma GetForgets<K(!new), V>(s: Segmented<K, V>, k: K, x: K)
    requires Inv(s)
    ensures Find(AfterGet(s, k), x).Some? ==> Find(AfterGet(s, k), x) == Find(s, x)
  {
    if k !in s.protected.entries && k in s.probation.entries {
      InsertKeySet(s.protected, k, s.probation.entries[k], x);
    }
  }

  /** A write sets its key and changes no other value. */
  lemma PutForgets<K(!new), V>(s: Segmented<K, V>, k: K, v: V, x: K)
    requires Inv(s)
    ensures Find(AfterPut(s, k, v), k) == Some(v)
    ensures x != k && Find(AfterPut(s, k, v), x).Some? ==> Find(AfterPut(s, k, v), x) == Find(s, x)
  {
    if k in s.protected.entries {
      InsertKeySet(s.protected, k, v, x);
    } else {
      PutNew(s, k, v);
      InsertKeySet(s.probation, k, v, x);
    }
  }

  /** A removal leaves every other key alone. */
  lemma DelForgets<K(!new), V>(s: Segmented<K, V>, k: K, x: K)
    requires Inv(s)
    ensures Find(AfterDel(s, k), x) == if x == k then None else Find(s, x)
  {
  }

  lemma ApplyKeepsFresh<K(!new), V>(s: Segmented<K, V>, op: Op<K, V>, latest: map<K, V>, latest': map<K, V>)
    requires Inv(s) && Fresh(s, latest)
    requires latest' == match op
      case Get(_) => latest
      case Put(k, v) => latest[k := v]
      case Del(k) => latest - {k}
      case Clear => map[]
    ensures Inv(ApplyOp(s, op)) && Fresh(ApplyOp(s, op), latest')
  {
    match op
    case Get(k) =>
      GetKeepsInv(s, k);
      forall x { GetForgets(s, k, x); }
    case Put(k, v) =>
      PutKeepsInv(s, k, v);
      forall x { PutForgets(s, k, v, x); }
    case Del(k) =>
      DelKeepsInv(s, k);
      forall x { DelForgets(s, k, x); }
    case Clear =>
  }

  /**
   After any run each queue lists its segment's keys once, the segments are disjoint, and a
   present key carries the value it was last given.
   */
  lemma {:induction false} SegmentsStayConsistent<K(!new), V>(maxTotal: nat, target: nat, ops: seq<Op<K, V>>)
    ensures Inv(ApplyOps(New<K, V>(maxTotal, target), ops))
    ensures Fresh(ApplyOps(New<K, V>(maxTotal, target), ops), Latest(ops))
    ensures ApplyOps(New<K, V>(maxTotal, target), ops).maxTotal == maxTotal
         && ApplyOps(New<K, V>(maxTotal, target), ops).target == target
  {
    if ops != [] {
      var front := ops[..|ops| - 1];
      SegmentsStayConsistent<K, V>(maxTotal, target, front);
      var s := ApplyOps(New<K, V>(maxTotal, target), front);
      ApplyKeepsFresh(s, ops[|ops| - 1], Latest(front), Latest(ops));
    }
  }

  // ---- the total ----

  lemma TotalBounded<K(!new), V>(s: Segmented<K, V>)
    requires Inv(s) && s.target >= 1 && s.maxTotal > s.target
    ensures Total(s) <= s.maxTotal
  {
    EntriesMatchOrder(s.probation);
    EntriesMatchOrder(s.protected);
  }

  lemma ApplySnoc<K, V>(s: Segmented<K, V>, ops: seq<Op<K, V>>, op: Op<K, V>)
    ensures ApplyOps(s, ops + [op]) == ApplyOp(ApplyOps(s, ops), op)
  {
    SnocPrefix(ops, op);
  }

  /** `n` protected keys, all below `n`, and `m` keys on probation, from `n` up. */
  ghost predicate Holds(s: Segmented<int, int>, n: nat, m: nat) {
    && (forall k | k in s.protected.entries :: k < n)
    && (forall k | k in s.probation.entries :: n <= k < n + m)
    && |s.protected.order| == n && |s.probation.order| == m
  }

  /** A new key fits at the back. */
  lemma InsertRoom<K(!new), V>(c: Cache<K, V>, k: K, v: V)
    requires Valid(c) && k !in c.entries && |c.order| < c.max
    ensures Insert(c, k, v) == Cache(c.max, c.entries[k := v], c.order + [k])
  {
    EntriesMatchOrder(c);
  }

  lemma HoldsOneMore(s: Segmented<int, int>, s': Segmented<int, int>, n: nat, m: nat, k: int)
    requires m >= 1 && k == n + m - 1
    requires Holds(s, n, m - 1) && s'.protected == s.protected
    requires s'.probation == Cache(s.probation.max, s.probation.entries[k := 0], s.probation.order + [k])
    ensures Holds(s', n, m) && k in s'.probation.entries
  {
  }

  lemma PutFresh(s: Segmented<int, int>, n: nat, m: nat, k: int)
    requires m >= 1 && k == n + m - 1
    requires Inv(s) && Holds(s, n, m - 1) && m <= s.probation.max
    ensures Holds(AfterPut(s, k, 0), n, m)
    ensures k in AfterPut(s, k, 0).probation.entries
  {
    PutNew(s, k, 0);
    InsertRoom(s.probation, k, 0);
    HoldsOneMore(s, AfterPut(s, k, 0), n, m, k);
  }

  lemma Promote(s: Segmented<int, int>, n: nat)
    requires Inv(s) && Holds(s, n, 1) && n in s.probation.entries && n < s.protected.max
    ensures Holds(AfterGet(s, n), n + 1, 0)
  {
    InsertRoom(s.protected, n, s.probation.entries[n]);
    WithoutLength(s.probation.order, n);
  }

  /** Putting and reading back `n` keys fills the protected segment. */
  lemma {:induction false} Warm(maxTotal: nat, target: nat, n: nat) returns (ops: seq<Op<int, int>>)
    requires n <= Capacity(SaturatingSub(maxTotal, target))
    ensures Holds(ApplyOps(New(maxTotal, target), ops), n, 0)
  {
    ops := [];
    if n > 0 {
      var s0 := New<int, int>(maxTotal, target);
      var before := Warm(maxTotal, target, n - 1);
      var put := before + [Put(n - 1, 0)];
      ApplySnoc<int, int>(s0, before, Put(n - 1, 0));
      ApplySnoc<int, int>(s0, put, Get(n - 1));
      SegmentsStayConsistent(maxTotal, target, before);
      SegmentsStayConsistent(maxTotal, target, put);
      PutFresh(ApplyOps(s0, before), n - 1, 1, n - 1);
      Promote(ApplyOps(s0, put), n - 1);
      ops := put + [Get(n - 1)];
    }
  }

  lemma FillStep(s: Segmented<int, int>, n: nat, m: nat, k: int)
    requires m >= 1 && k == n + m - 1
    requires Inv(s) && Holds(s, n, m - 1) && m <= s.probation.max
    ensures Holds(ApplyOp(s, Put(k, 0)), n, m)
  {
    PutFresh(s, n, m, k);
  }

  /** Putting `m` more fills probation. */
  lemma {:induction false} Fill(maxTotal: nat, target: nat, n: nat, m: nat) returns (ops: seq<Op<int, int>>)
    requires n <= Capacity(SaturatingSub(maxTotal, target)) && m <= Capacity(target)
    ensures Holds(ApplyOps(New(maxTotal, target), ops), n, m)
  {
    if m == 0 {
      ops := Warm(maxTotal, target, n);
    } else {
      var before := Fill(maxTotal, target, n, m - 1);
      SegmentsStayConsistent(maxTotal, target, before);
      var k := n + m - 1;
      var s := ApplyOps(New(maxTotal, target), before);
      var put := Put(k, 0);
      ops := before + [put];
      ApplySnoc(New(maxTotal, target), before, put);
      FillStep(s, n, m, k);
    }
  }

  /** The total stays within `maxTotal` in every run exactly when both computed capacities are at least one. */
  lemma TotalBoundedIff(maxTotal: nat, target: nat)
    ensures (forall ops: seq<Op<int, int>> :: Total(ApplyOps(New(maxTotal, target), ops)) <= maxTotal)
       <==> target >= 1 && maxTotal > target
  {
    if target >= 1 && maxTotal > target {
      forall ops: seq<Op<int, int>> ensures Total(ApplyOps(New(maxTotal, target), ops)) <= maxTotal {
        SegmentsStayConsistent<int, int>(maxTotal, target, ops);
        TotalBounded(ApplyOps(New(maxTotal, target), ops));
      }
    } else {
      var n, m := Capacity(SaturatingSub(maxTotal, target)), Capacity(target);
      var ops := Fill(maxTotal, target, n, m);
      SegmentsStayConsistent(maxTotal, target, ops);
      var s := ApplyOps(New<int, int>(maxTotal, target), ops);
      EntriesMatchOrder(s.probation);
      EntriesMatchOrder(s.protected);
      assert Total(s) == n + m;
    }
  }

  lemma HoldsTotal(s: Segmented<int, int>, n: nat, m: nat)
    requires Inv(s) && Holds(s, n, m)
    ensures Total(s) == n + m
  {
    EntriesMatchOrder(s.probation);
    EntriesMatchOrder(s.protected);
  }

  lemma SmallestIsEmpty()
    ensures ApplyOps(New<int, int>(1, 0), []) == New<int, int>(1, 0)
    ensures Holds(New<int, int>(1, 0), 0, 0)
    ensures New<int, int>(1, 0).probation.max == 1 && New<int, int>(1, 0).protected.max == 1
  {
  }

  /** One key put and read is protected. */
  lemma WarmOne(s: Segmented<int, int>)
    requires Inv(s) && Holds(s, 0, 0) && s.probation.max == 1 && s.protected.max == 1
    ensures Holds(ApplyOp(ApplyOp(s, Put(0, 0)), Get(0)), 1, 0)
    ensures ApplyOp(ApplyOp(s, Put(0, 0)), Get(0)).probation.max == 1
  {
    PutFresh(s, 0, 1, 0);
    PutKeepsInv(s, 0, 0);
    PutNew(s, 0, 0);
    Promote(AfterPut(s, 0, 0), 0);
  }

  /** A maximum of 1 with no probation share still has room for one entry in each segment. */
  lemma SmallestCacheOverflows()
    ensures Total(ApplyOps(New<int, int>(1, 0), [Put(0, 0), Get(0), Put(1, 0)])) == 2
  {
    hide ApplyOps, ApplyOp, AfterPut, AfterGet, Holds, Inv;
    var s0 := New<int, int>(1, 0);
    var ops: seq<Op<int, int>> := [];
    var put := ops + [Put(0, 0)];
    var read := put + [Get(0)];
    SmallestIsEmpty();
    ApplySnoc<int, int>(s0, ops, Put(0, 0));
    ApplySnoc<int, int>(s0, put, Get(0));
    ApplySnoc<int, int>(s0, read, Put(1, 0));
    SegmentsStayConsistent(1, 0, ops);
    SegmentsStayConsistent(1, 0, put);
    SegmentsStayConsistent(1, 0, read);
    SegmentsStayConsistent(1, 0, read + [Put(1, 0)]);
    WarmOne(s0);
    FillStep(ApplyOps(s0, read), 1, 1, 1);
    assert read + [Put(1, 0)] == [Put(0, 0), Get(0), Put(1, 0)];
    HoldsTotal(ApplyOps(s0, read + [Put(1, 0)]), 1, 1);
  }

  // ---- the cache object ----

  class SegmentedLruCache<K(==, !new), V> {
    const probation: LruCache<K, V>
    const protected: LruCache<K, V>
    const maxTotal: nat

    /** The product of the maximum and the ratio, truncated; both computations of it in floating point agree. */
    const target: nat

    ghost predicate Sound()
      reads probation, protected
    {
      probation != protected && probation.Sound() && protected.Sound()
    }

    ghost function Value(): (s: Segmented<K, V>)
      reads probation, protected
    {
      Segmented(probation.Value(), protected.Value(), target, maxTotal)
    }

    constructor (maxTotal: nat, target: nat)
      ensures Sound() && fresh(probation) && fresh(protected)
      ensures Value() == New(maxTotal, target)
    {
      var a := new LruCache<K, V>(Capacity(target));
      var b := new LruCache<K, V>(Capacity(SaturatingSub(maxTotal, target)));
      probation, protected := a, b;
      this.maxTotal, this.target := maxTotal, target;
    }

    method Get(key: K) returns (r: Option<V>)
      requires Sound()
      modifies probation, protected
      ensures Sound()
      ensures Value() == AfterGet(old(Value()), key) && r == Find(old(Value()), key)
    {
      r := protected.Get(key);
      if r.Some? {
        return;
      }
      if key in probation.entries {
        r := probation.Delete(key);
        protected.Put(key, r.value);
      }
    }

    method Put(key: K, value: V)
      requires Sound()
      modifies probation, protected
      ensures Sound()
      ensures Value() == AfterPut(old(Value()), key, value)
    {
      if key in protected.entries {
        protected.Put(key, value);
        return;
      }
      probation.Put(key, value);
      RebalanceSegments();
    }

    method Delete(key: K) returns (r: Option<V>)
      requires Sound()
      modifies probation, protected
      ensures Sound()
      ensures Value() == AfterDel(old(Value()), key)
      ensures r == if key in old(probation.entries) then Lookup(old(probation.Value()), key)
                   else Lookup(old(protected.Value()), key)
    {
      r := probation.Delete(key);
      if r.None? {
        r := protected.Delete(key);
      }
    }

    method ClearAll()
      modifies probation, protected
      requires Sound()
      ensures Sound()
      ensures Value() == ApplyOp(old(Value()), Clear)
    {
      probation.ClearAll();
      protected.ClearAll();
    }

    /** Evict from the front of probation while it is over its share. */
    method RebalanceSegments()
      requires Sound()
      modifies probation
      ensures Sound()
      ensures Value() == Rebalance(old(Value()))
    {
      if |probation.entries| + |protected.entries| <= maxTotal {
        return;
      }
      while |probation.entries| > target && |probation.entries| > 1
        invariant Sound()
        invariant EvictDown(probation.Value(), target) == EvictDown(old(probation.Value()), target)
        decreases |probation.order|
      {
        EmptyOrderNoEntries(probation.Value());
        var k := probation.order[0];
        WithoutLength(probation.order, k);
        var _ := probation.Delete(k);
      }
    }
  }

  lemma EmptyOrderNoEntries<K(!new), V>(c: Cache<K, V>)
    requires forall k :: k in c.order <==> k in c.entries
    ensures c.order == [] ==> c.entries == map[]
  {
    assert c.order == [] ==> forall k :: k !in c.entries;
  }
}
