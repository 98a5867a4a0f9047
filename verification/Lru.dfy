/** The least-recently-used cache: a map of entries and a queue of keys, oldest first. */
module Lru {
  import opened Prelude
  import opened Sequences

  datatype Cache<K(==), V> = Cache(max: nat, entries: map<K, V>, order: seq<K>)

  function Empty<K(==), V>(max: nat): (c: Cache<K, V>) {
    Cache(max, map[], [])
  }

  /** A maximum of 0 still holds one entry. */
  function Capacity(max: nat): (n: nat) {
    if max == 0 then 1 else max
  }

  function Without<K(==)>(xs: seq<K>, k: K): (r: seq<K>) {
    Filter(xs, x => x != k)
  }

  /** The queue lists the entries' keys once each, within the capacity. */
  ghost predicate Valid<K(!new), V>(c: Cache<K, V>) {
    && Distinct(c.order)
    && (forall k :: k in c.order <==> k in c.entries)
    && |c.order| <= Capacity(c.max)
  }

  function Lookup<K(==), V>(c: Cache<K, V>, k: K): (r: Option<V>) {
    if k in c.entries then Some(c.entries[k]) else None
  }

  function Touch<K(==), V>(c: Cache<K, V>, k: K): (r: Cache<K, V>) {
    if k in c.entries then c.(order := Without(c.order, k) + [k]) else c
  }

  /** Room for a new key: the oldest goes when the cache is full. */
  function Evict<K(==), V>(c: Cache<K, V>): (r: Cache<K, V>) {
    if |c.entries| >= c.max && c.order != [] then
      Cache(c.max, c.entries - {c.order[0]}, c.order[1..])
    else c
  }

  function Insert<K(==), V>(c: Cache<K, V>, k: K, v: V): (r: Cache<K, V>) {
    var room := if k in c.entries then c.(order := Without(c.order, k)) else Evict(c);
    Cache(c.max, room.entries[k := v], room.order + [k])
  }

  function Remove<K(==), V>(c: Cache<K, V>, k: K): (r: Cache<K, V>) {
    Cache(c.max, c.entries - {k}, Without(c.order, k))
  }

  datatype Op<K, V> = Get(key: K) | Put(key: K, value: V) | Del(key: K) | Clear

  function Apply<K(==), V>(c: Cache<K, V>, op: Op<K, V>): (r: Cache<K, V>) {
    match op
    case Get(k) => Touch(c, k)
    case Put(k, v) => Insert(c, k, v)
    case Del(k) => Remove(c, k)
    case Clear => Empty(c.max)
  }

  function ApplyAll<K(==), V>(c: Cache<K, V>, ops: seq<Op<K, V>>): (r: Cache<K, V>) {
    if ops == [] then c else Apply(ApplyAll(c, ops[..|ops| - 1]), ops[|ops| - 1])
  }

  // ---- distinct sequences ----

  lemma {:induction false} FilterDistinct<K>(xs: seq<K>, p: K -> bool)
    requires Distinct(xs)
    ensures Distinct(Filter(xs, p))
  {
    if xs != [] {
      var front, last := xs[..|xs| - 1], xs[|xs| - 1];
      var kept := Filter(front, p);
      FilterDistinct(front, p);
      assert forall i | 0 <= i < |kept| :: kept[i] in front;
      assert forall x | x in front :: x != last;
    }
  }

  lemma DistinctSnoc<K>(xs: seq<K>, k: K)
    requires Distinct(xs) && k !in xs
    ensures Distinct(xs + [k])
  {
    assert forall i | 0 <= i < |xs| :: xs[i] in xs;
  }

  lemma {:induction false} WithoutLength<K>(xs: seq<K>, k: K)
    requires Distinct(xs)
    ensures |Without(xs, k)| == |xs| - if k in xs then 1 else 0
    ensures Distinct(Without(xs, k))
  {
    FilterDistinct(xs, x => x != k);
    if xs != [] {
      var front, last := xs[..|xs| - 1], xs[|xs| - 1];
      WithoutLength(front, k);
      assert last !in front;
      assert k in xs <==> k in front || k == last;
    }
  }

  /** Taking out the key at its position is taking it out wherever it is. */
  lemma WithoutAt<K>(xs: seq<K>, i: nat)
    requires Distinct(xs) && i < |xs|
    ensures Without(xs, xs[i]) == xs[..i] + xs[i + 1..]
  {
    var k := xs[i];
    var keep := (x: K) => x != k;
    assert xs == xs[..i] + [k] + xs[i + 1..];
    FilterConcat(xs[..i] + [k], xs[i + 1..], keep);
    FilterConcat(xs[..i], [k], keep);
    FilterExtremes(xs[..i], keep);
    FilterExtremes(xs[i + 1..], keep);
    assert Filter([k], keep) == [];
  }

  lemma {:induction false} DistinctCardinality<K>(xs: seq<K>, s: set<K>)
    requires Distinct(xs) && forall k :: k in xs <==> k in s
    ensures |xs| == |s|
  {
    if xs == [] {
      assert s == {};
    } else {
      var front, last := xs[..|xs| - 1], xs[|xs| - 1];
      assert last !in front;
      assert forall k :: k in xs <==> k in front || k == last;
      DistinctCardinality(front, s - {last});
    }
  }

  lemma EntriesMatchOrder<K(!new), V>(c: Cache<K, V>)
    requires Valid(c)
    ensures |c.entries| == |c.order|
  {
    DistinctCardinality(c.order, c.entries.Keys);
  }

  // ---- every operation keeps the cache valid ----

  lemma EvictValid<K(!new), V>(c: Cache<K, V>)
    requires Valid(c)
    ensures Valid(Evict(c)) && |Evict(c).order| + 1 <= Capacity(c.max)
  {
    EntriesMatchOrder(c);
    if c.order != [] {
      assert c.order == [c.order[0]] + c.order[1..];
      assert c.order[0] !in c.order[1..];
    }
  }

  lemma InsertValid<K(!new), V>(c: Cache<K, V>, k: K, v: V)
    requires Valid(c)
    ensures Valid(Insert(c, k, v))
  {
    if k in c.entries {
      WithoutLength(c.order, k);
      DistinctSnoc(Without(c.order, k), k);
    } else {
      EvictValid(c);
      DistinctSnoc(Evict(c).order, k);
    }
  }

  lemma ApplyValid<K(!new), V>(c: Cache<K, V>, op: Op<K, V>)
    requires Valid(c)
    ensures Valid(Apply(c, op))
  {
    match op
    case Get(k) =>
      WithoutLength(c.order, k);
      if k in c.entries { DistinctSnoc(Without(c.order, k), k); }
    case Put(k, v) => InsertValid(c, k, v);
    case Del(k) => WithoutLength(c.order, k);
    case Clear =>
  }

  // ---- inclusion between capacities ----

  function Restrict<K(==)>(order: seq<K>, keys: set<K>): (r: seq<K>) {
    Filter(order, x => x in keys)
  }

  /**
   `small` is within `big`: its queue is the big queue restricted to its keys, the values
   agree, and `big` holds at most the difference of the capacities more.
   */
  ghost predicate Within<K(!new), V>(small: Cache<K, V>, big: Cache<K, V>) {
    && Valid(small) && Valid(big)
    && small.order == Restrict(big.order, small.entries.Keys)
    && (forall k | k in small.entries :: k in big.entries && big.entries[k] == small.entries[k])
    && |big.order| - |small.order| <= Capacity(big.max) - Capacity(small.max)
  }

  lemma RestrictWithout<K>(order: seq<K>, keys: set<K>, k: K)
    ensures Restrict(Without(order, k), keys) == Without(Restrict(order, keys), k)
    ensures Restrict(order, keys - {k}) == Without(Restrict(order, keys), k)
    ensures k !in keys ==> Restrict(Without(order, k), keys) == Restrict(order, keys)
  {
    var inKeys, notK, both := (x: K) => x in keys, (x: K) => x != k, (x: K) => x in keys && x != k;
    FilterTwice(order, notK, inKeys, both);
    FilterTwice(order, inKeys, notK, both);
    FilterCongruence(order, x => x in keys - {k}, both);
    if k !in keys {
      FilterCongruence(order, inKeys, both);
    }
  }

  /** A key at the back of both queues. */
  lemma RestrictPush<K>(order: seq<K>, keys: set<K>, k: K)
    requires k !in order
    ensures Restrict(order + [k], keys + {k}) == Restrict(order, keys) + [k]
    ensures k !in keys ==> Restrict(order + [k], keys) == Restrict(order, keys)
  {
    FilterConcat(order, [k], x => x in keys + {k});
    FilterConcat(order, [k], x => x in keys);
    FilterCongruence(order, x => x in keys, x => x in keys + {k});
    assert Filter([k], x => x in keys + {k}) == [k];
  }

  lemma RestrictHead<K>(order: seq<K>, keys: set<K>)
    requires order != []
    ensures Restrict(order, keys) == (if order[0] in keys then [order[0]] else []) + Restrict(order[1..], keys)
  {
    assert order == [order[0]] + order[1..];
    FilterConcat([order[0]], order[1..], x => x in keys);
  }

  lemma EvictsWhenFull<K(!new), V>(c: Cache<K, V>)
    requires Valid(c)
    ensures |c.order| == Capacity(c.max) ==>
      c.order != [] && Evict(c) == Cache(c.max, c.entries - {c.order[0]}, c.order[1..])
    ensures |c.order| != Capacity(c.max) ==> Evict(c) == c
  {
    EntriesMatchOrder(c);
  }

  /** Making room in the small cache only. */
  lemma EvictSmall<K(!new), V>(small: Cache<K, V>, big: Cache<K, V>)
    requires Within(small, big)
    ensures Evict(small).order == Restrict(big.order, Evict(small).entries.Keys)
  {
    EvictsWhenFull(small);
    if |small.order| == Capacity(small.max) {
      var f := small.order[0];
      RestrictWithout(big.order, small.entries.Keys, f);
      WithoutAt(small.order, 0);
      assert (small.entries - {f}).Keys == small.entries.Keys - {f};
    }
  }

  /** Making room in both: a key the big cache gives up is one the small cache gives up too. */
  lemma EvictBoth<K(!new), V>(small: Cache<K, V>, big: Cache<K, V>)
    requires Within(small, big)
    ensures Within(Evict(small), Evict(big))
  {
    EvictValid(small);
    EvictValid(big);
    EvictsWhenFull(small);
    EvictsWhenFull(big);
    EvictSmall(small, big);
    var s := Evict(small);
    if |big.order| == Capacity(big.max) {
      var b := big.order[0];
      RestrictHead(big.order, small.entries.Keys);
      assert small.order[0] == b || b !in small.entries;
      RestrictHead(big.order, s.entries.Keys);
      assert b !in s.entries;
    }
  }

  lemma PushBoth<K(!new), V>(small: Cache<K, V>, big: Cache<K, V>, k: K, v: V)
    requires Within(small, big) && k !in big.entries
    requires |small.order| < Capacity(small.max) && |big.order| < Capacity(big.max)
    ensures Within(Cache(small.max, small.entries[k := v], small.order + [k]),
                   Cache(big.max, big.entries[k := v], big.order + [k]))
  {
    hide Restrict;
    RestrictPush(big.order, small.entries.Keys, k);
    DistinctSnoc(small.order, k);
    DistinctSnoc(big.order, k);
    assert small.entries[k := v].Keys == small.entries.Keys + {k};
  }

  lemma TouchOrder<K(!new), V>(small: Cache<K, V>, big: Cache<K, V>, k: K)
    requires Within(small, big)
    ensures Touch(small, k).order == Restrict(Touch(big, k).order, small.entries.Keys)
  {
    hide Valid, Restrict;
    RestrictWithout(big.order, small.entries.Keys, k);
    RestrictPush(Without(big.order, k), small.entries.Keys, k);
    if k in small.entries {
      assert small.entries.Keys + {k} == small.entries.Keys;
    }
  }

  lemma TouchWithin<K(!new), V>(small: Cache<K, V>, big: Cache<K, V>, k: K)
    requires Within(small, big)
    ensures Within(Touch(small, k), Touch(big, k))
  {
    ApplyValid(small, Get(k));
    ApplyValid(big, Get(k));
    TouchOrder(small, big, k);
    TouchCounts(small, big, k);
    hide Restrict, Without, Valid;
  }

  lemma TouchCounts<K(!new), V>(small: Cache<K, V>, big: Cache<K, V>, k: K)
    requires Valid(small) && Valid(big)
    ensures |Touch(small, k).order| == |small.order| && |Touch(big, k).order| == |big.order|
  {
    WithoutLength(small.order, k);
    WithoutLength(big.order, k);
  }

  /** A key in both caches gets a new value. */
  lemma UpdateBoth<K(!new), V>(small: Cache<K, V>, big: Cache<K, V>, k: K, v: V)
    requires Within(small, big) && k in small.entries
    ensures Within(small.(entries := small.entries[k := v]), big.(entries := big.entries[k := v]))
  {
    assert small.entries[k := v].Keys == small.entries.Keys;
  }

  /** The smaller cache takes in the key at the back of the larger one. */
  lemma AdmitOrder<K(!new), V>(small: Cache<K, V>, big: Cache<K, V>, rest: seq<K>, k: K)
    requires Within(small, big) && k !in small.entries
    requires big.order == rest + [k] && k !in rest
    ensures Evict(small).order + [k] == Restrict(big.order, Evict(small).entries.Keys + {k})
  {
    EvictSmall(small, big);
    EvictsWhenFull(small);
    RestrictPush(rest, Evict(small).entries.Keys, k);
  }

  lemma AdmitInto<K(!new), V>(room: Cache<K, V>, big: Cache<K, V>, k: K, v: V)
    requires Valid(Cache(room.max, room.entries[k := v], room.order + [k])) && Valid(big)
    requires room.order + [k] == Restrict(big.order, room.entries.Keys + {k})
    requires k in big.entries && forall x | x in room.entries :: x in big.entries && big.entries[x] == room.entries[x]
    requires |big.order| - |room.order| - 1 <= Capacity(big.max) - Capacity(room.max)
    ensures Within(Cache(room.max, room.entries[k := v], room.order + [k]), big.(entries := big.entries[k := v]))
  {
    assert room.entries[k := v].Keys == room.entries.Keys + {k};
  }

  lemma Admit<K(!new), V>(small: Cache<K, V>, big: Cache<K, V>, rest: seq<K>, k: K, v: V)
    requires Within(small, big) && k !in small.entries && k in big.entries
    requires big.order == rest + [k] && k !in rest
    ensures Within(Insert(small, k, v), big.(entries := big.entries[k := v]))
  {
    AdmitOrder(small, big, rest, k);
    InsertValid(small, k, v);
    EvictsWhenFull(small);
    AdmitInto(Evict(small), big, k, v);
  }

  lemma InsertWithin<K(!new), V>(small: Cache<K, V>, big: Cache<K, V>, k: K, v: V)
    requires Within(small, big)
    ensures Within(Insert(small, k, v), Insert(big, k, v))
  {
    if k in big.entries {
      TouchWithin(small, big, k);
      if k in small.entries {
        UpdateBoth(Touch(small, k), Touch(big, k), k, v);
      } else {
        Admit(small, Touch(big, k), Without(big.order, k), k, v);
      }
    } else {
      EvictBoth(small, big);
      EvictValid(small);
      EvictValid(big);
      PushBoth(Evict(small), Evict(big), k, v);
    }
  }

  lemma RemoveWithin<K(!new), V>(small: Cache<K, V>, big: Cache<K, V>, k: K)
    requires Within(small, big)
    ensures Within(Remove(small, k), Remove(big, k))
  {
    ApplyValid(small, Del(k));
    ApplyValid(big, Del(k));
    WithoutLength(small.order, k);
    WithoutLength(big.order, k);
    RestrictWithout(big.order, small.entries.Keys, k);
    RestrictWithout(Without(big.order, k), small.entries.Keys, k);
    FilterExtremes(Without(small.order, k), x => x != k);
    assert (small.entries - {k}).Keys == small.entries.Keys - {k};
  }

  /**
   LRU inclusion: after any common run the smaller cache holds a part of the larger one, in
   the same recency order and with the same values, although a `get` touches a key only on a hit.
   */
  lemma {:induction false} SmallerCacheWithinLarger<K(!new), V>(n: nat, m: nat, ops: seq<Op<K, V>>)
    requires n <= m
    ensures Within(ApplyAll(Empty(n), ops), ApplyAll(Empty(m), ops))
    ensures ApplyAll(Empty<K, V>(n), ops).max == n && ApplyAll(Empty<K, V>(m), ops).max == m
  {
    if ops != [] {
      var front := ops[..|ops| - 1];
      SmallerCacheWithinLarger(n, m, front);
      var small, big := ApplyAll(Empty<K, V>(n), front), ApplyAll(Empty<K, V>(m), front);
      match ops[|ops| - 1] {
        case Get(k) => TouchWithin(small, big, k);
        case Put(k, v) => InsertWithin(small, big, k, v);
        case Del(k) => RemoveWithin(small, big, k);
        case Clear =>
      }
    }
  }

  /** So a hit in the smaller cache is a hit in the larger one, with the same value. */
  lemma SmallerHitIsLargerHit<K(!new), V>(n: nat, m: nat, ops: seq<Op<K, V>>, k: K)
    requires n <= m
    ensures var small, big := ApplyAll(Empty<K, V>(n), ops), ApplyAll(Empty<K, V>(m), ops);
      Lookup(small, k).Some? ==> Lookup(big, k) == Lookup(small, k)
  {
    SmallerCacheWithinLarger(n, m, ops);
  }

  // ---- the cache object ----

  class LruCache<K(==, !new), V> {
    const maxEntries: nat
    var entries: map<K, V>
    var order: seq<K>

    constructor (maxEntries: nat)
      ensures Value() == Empty(maxEntries) && Sound()
    {
      this.maxEntries := maxEntries;
      entries, order := map[], [];
    }

    ghost function Value(): (c: Cache<K, V>)
      reads this
    {
      Cache(maxEntries, entries, order)
    }

    ghost predicate Sound()
      reads this
    {
      Distinct(order) && forall k :: k in order <==> k in entries
    }

    /** The queue position of a key. */
    method Position(key: K) returns (pos: Option<nat>)
      ensures pos.Some? ==> pos.value < |order| && order[pos.value] == key
      ensures pos.None? ==> key !in order
    {
      for i := 0 to |order|
        invariant key !in order[..i]
      {
        if order[i] == key {
          return Some(i);
        }
        assert order[..i + 1] == order[..i] + [order[i]];
      }
      assert order[..|order|] == order;
      return None;
    }

    /** Take the key out of the queue, if it is there. */
    method Unqueue(key: K)
      requires Distinct(order)
      modifies this`order
      ensures order == Without(old(order), key)
    {
      var pos := Position(key);
      if pos.Some? {
        WithoutAt(order, pos.value);
        order := order[..pos.value] + order[pos.value + 1..];
      } else {
        FilterExtremes(order, x => x != key);
      }
    }

    method Get(key: K) returns (r: Option<V>)
      requires Sound()
      modifies this`order
      ensures Value() == Touch(old(Value()), key) && r == Lookup(old(Value()), key)
      ensures Sound()
    {
      if key !in entries {
        return None;
      }
      var pos := Position(key);
      if pos.Some? {
        WithoutAt(order, pos.value);
        WithoutLength(order, key);
        order := order[..pos.value] + order[pos.value + 1..];
        DistinctSnoc(order, key);
        order := order + [key];
      }
      r := Some(entries[key]);
    }

    method Put(key: K, value: V)
      requires Sound()
      modifies this
      ensures Value() == Insert(old(Value()), key, value)
      ensures Sound()
    {
      if key in entries {
        WithoutLength(order, key);
        Unqueue(key);
      } else if |entries| >= maxEntries && order != [] {
        assert order == [order[0]] + order[1..];
        entries := entries - {order[0]};
        order := order[1..];
      }
      DistinctSnoc(order, key);
      order := order + [key];
      entries := entries[key := value];
    }

    method Delete(key: K) returns (r: Option<V>)
      requires Sound()
      modifies this
      ensures Value() == Remove(old(Value()), key) && r == Lookup(old(Value()), key)
      ensures Sound()
    {
      WithoutLength(order, key);
      r := if key in entries then Some(entries[key]) else None;
      Unqueue(key);
      entries := entries - {key};
    }

    method ClearAll()
      modifies this
      ensures Value() == Empty(maxEntries) && Sound()
    {
      entries, order := map[], [];
    }
  }
}
