/** Snapshots and the compaction that deletes the rows they cover. */
module Compaction {
  import opened Sequences
  import opened MutationLog

  predicate Covered(snapshots: map<RecordKey, nat>, r: Row) {
    KeyOf(r) in snapshots && r.sequence <= snapshots[KeyOf(r)]
  }

  function StoreSnapshot(st: Store, key: RecordKey, sequence: nat): (r: Store) {
    st.(snapshots := st.snapshots[key := sequence])
  }

  /** The rows compaction of `ns` keeps. */
  function Compact(st: Store, ns: string): (r: Store) {
    st.(rows := Filter(st.rows, (x: Row) => !(x.namespace == ns && Covered(st.snapshots, x))))
  }

  /** `DELETE ... WHERE` the record is `key` `AND sequence <= upTo`. */
  function DeleteUpTo(rows: seq<Row>, key: RecordKey, upTo: nat): (r: seq<Row>)
    ensures |r| <= |rows|
  {
    Filter(rows, (x: Row) => !(KeyOf(x) == key && x.sequence <= upTo))
  }

  datatype Progress = Progress(rows: seq<Row>, removed: nat, collapsed: nat)

  /** One delete per snapshot, with the two counters the backends keep. */
  function DeleteEach(rows: seq<Row>, snapshots: map<RecordKey, nat>, keys: seq<RecordKey>): (p: Progress)
    requires forall k | k in keys :: k in snapshots
  {
    if keys == [] then Progress(rows, 0, 0)
    else
      var p := DeleteEach(rows, snapshots, keys[..|keys| - 1]);
      var key := keys[|keys| - 1];
      var kept := DeleteUpTo(p.rows, key, snapshots[key]);
      var deleted := |p.rows| - |kept|;
      if deleted > 0 then Progress(kept, p.removed + deleted, p.collapsed + 1)
      else Progress(kept, p.removed, p.collapsed)
  }

  /** `keys` is some order of the namespace's snapshots. */
  ghost predicate Enumerates(keys: seq<RecordKey>, snapshots: map<RecordKey, nat>, ns: string) {
    && Distinct(keys)
    && (forall k :: k in keys <==> k in snapshots && k.namespace == ns)
  }

  /** The snapshots among `keys` that some row of `rows` lies under. */
  ghost function Collapsing(rows: seq<Row>, snapshots: map<RecordKey, nat>, keys: seq<RecordKey>): (r: set<RecordKey>)
  {
    set x | x in rows && KeyOf(x) in keys && Covered(snapshots, x) :: KeyOf(x)
  }

  /** The rows left after some of the deletes. */
  function Kept(rows: seq<Row>, snapshots: map<RecordKey, nat>, keys: seq<RecordKey>): (r: seq<Row>) {
    Filter(rows, (x: Row) => !(KeyOf(x) in keys && Covered(snapshots, x)))
  }

  lemma KeptStep(rows: seq<Row>, snapshots: map<RecordKey, nat>, front: seq<RecordKey>, key: RecordKey)
    requires key in snapshots
    ensures DeleteUpTo(Kept(rows, snapshots, front), key, snapshots[key]) == Kept(rows, snapshots, front + [key])
  {
    FilterTwice(rows, (x: Row) => !(KeyOf(x) in front && Covered(snapshots, x)),
                (x: Row) => !(KeyOf(x) == key && x.sequence <= snapshots[key]),
                (x: Row) => !(KeyOf(x) in front + [key] && Covered(snapshots, x)));
  }

  lemma KeptNone(rows: seq<Row>, snapshots: map<RecordKey, nat>)
    ensures Kept(rows, snapshots, []) == rows && Collapsing(rows, snapshots, []) == {}
  {
    FilterExtremes(rows, (x: Row) => !(KeyOf(x) in [] && Covered(snapshots, x)));
  }

  lemma {:induction false} DeleteEachIsFilter(rows: seq<Row>, snapshots: map<RecordKey, nat>, keys: seq<RecordKey>)
    requires forall k | k in keys :: k in snapshots
    requires Distinct(keys)
    ensures DeleteEach(rows, snapshots, keys).rows == Kept(rows, snapshots, keys)
    ensures DeleteEach(rows, snapshots, keys).removed == |rows| - |Kept(rows, snapshots, keys)|
    ensures DeleteEach(rows, snapshots, keys).collapsed == |Collapsing(rows, snapshots, keys)|
  {
    hide Kept, Collapsing, DeleteUpTo;
    if keys == [] {
      KeptNone(rows, snapshots);
    } else {
      var front, key := keys[..|keys| - 1], keys[|keys| - 1];
      assert keys == front + [key];
      DeleteEachIsFilter(rows, snapshots, front);
      KeptStep(rows, snapshots, front, key);
      CollapsingStep(rows, snapshots, front, key, Kept(rows, snapshots, front));
    }
  }

  lemma CollapsingHit(rows: seq<Row>, snapshots: map<RecordKey, nat>, front: seq<RecordKey>, key: RecordKey, hit: Row)
    requires key !in front && hit in rows && KeyOf(hit) == key && Covered(snapshots, hit)
    ensures |Collapsing(rows, snapshots, front + [key])| == |Collapsing(rows, snapshots, front)| + 1
  {
    var before, after := Collapsing(rows, snapshots, front), Collapsing(rows, snapshots, front + [key]);
    assert KeyOf(hit) in front + [key];
    assert after == before + {key};
  }

  lemma CollapsingMiss(rows: seq<Row>, snapshots: map<RecordKey, nat>, front: seq<RecordKey>, key: RecordKey)
    requires forall x | x in rows && KeyOf(x) == key :: !Covered(snapshots, x)
    ensures Collapsing(rows, snapshots, front + [key]) == Collapsing(rows, snapshots, front)
  {
  }

  /** Adding one snapshot adds itself to the collapsing set exactly when it deletes something. */
  lemma CollapsingStep(rows: seq<Row>, snapshots: map<RecordKey, nat>, front: seq<RecordKey>, key: RecordKey, kept: seq<Row>)
    requires key !in front && key in snapshots
    requires kept == Kept(rows, snapshots, front)
    ensures |Collapsing(rows, snapshots, front + [key])| == |Collapsing(rows, snapshots, front)|
          + if |DeleteUpTo(kept, key, snapshots[key])| < |kept| then 1 else 0
  {
    hide Collapsing;
    FilterExtremes(kept, (x: Row) => !(KeyOf(x) == key && x.sequence <= snapshots[key]));
    if hit :| hit in kept && KeyOf(hit) == key && hit.sequence <= snapshots[key] {
      CollapsingHit(rows, snapshots, front, key, hit);
      assert hit !in DeleteUpTo(kept, key, snapshots[key]);
    } else {
      assert forall x | x in rows && KeyOf(x) == key :: x in kept;
      CollapsingMiss(rows, snapshots, front, key);
    }
  }

  /**
   Compaction is exact: for every order of the namespace's snapshots it deletes precisely
   the covered rows of that namespace and both counters are right.
   */
  lemma CompactionExact(st: Store, ns: string, keys: seq<RecordKey>)
    requires Enumerates(keys, st.snapshots, ns)
    ensures DeleteEach(st.rows, st.snapshots, keys).rows == Compact(st, ns).rows
    ensures DeleteEach(st.rows, st.snapshots, keys).removed == |st.rows| - |Compact(st, ns).rows|
    ensures DeleteEach(st.rows, st.snapshots, keys).collapsed
         == |set x | x in st.rows && x.namespace == ns && Covered(st.snapshots, x) :: KeyOf(x)|
  {
    DeleteEachIsFilter(st.rows, st.snapshots, keys);
    FilterCongruence(st.rows, (x: Row) => !(KeyOf(x) in keys && Covered(st.snapshots, x)),
                     (x: Row) => !(x.namespace == ns && Covered(st.snapshots, x)));
    assert Collapsing(st.rows, st.snapshots, keys)
        == set x | x in st.rows && x.namespace == ns && Covered(st.snapshots, x) :: KeyOf(x);
  }

  /** A second run finds nothing to delete. */
  lemma CompactIdempotent(st: Store, ns: string, keys: seq<RecordKey>)
    requires Enumerates(keys, st.snapshots, ns)
    ensures Compact(Compact(st, ns), ns) == Compact(st, ns)
    ensures DeleteEach(Compact(st, ns).rows, st.snapshots, keys) == Progress(Compact(st, ns).rows, 0, 0)
  {
    var st' := Compact(st, ns);
    FilterExtremes(st'.rows, (x: Row) => !(x.namespace == ns && Covered(st.snapshots, x)));
    CompactionExact(st', ns, keys);
    assert (set x | x in st'.rows && x.namespace == ns && Covered(st.snapshots, x) :: KeyOf(x)) == {};
  }

  /** Every other namespace reads the same rows as before. */
  lemma OtherNamespacesUnchanged(st: Store, ns: string, other: string, after: nat, limit: nat)
    requires ns != other
    ensures Pull(Compact(st, ns).rows, other, after, limit) == Pull(st.rows, other, after, limit)
  {
    var keep := (x: Row) => !(x.namespace == ns && Covered(st.snapshots, x));
    var want := (x: Row) => x.namespace == other && x.sequence > after;
    FilterTwice(st.rows, keep, want, want);
  }

  lemma CompactKeepsValid(st: Store, ns: string)
    requires Valid(st)
    ensures Valid(Compact(st, ns))
  {
    var keep := (x: Row) => !(x.namespace == ns && Covered(st.snapshots, x));
    FilterAscending(st.rows, keep);
  }
}
