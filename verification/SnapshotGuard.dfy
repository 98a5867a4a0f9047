/**
 When a stored snapshot may be replaced. `store_snapshot` does not look at the one it replaces;
 the guard it lacks is given here, on the tables alone, and is exact over all runs that lead to them.
 */
module SnapshotGuard {
  import opened Bootstrap
  import opened Compaction
  import opened MutationLog
  import opened Prelude
  import opened Sequences
  import R = RetriedPush

  // ---- what every run keeps ----

  /** Of one record the lower rows go first. */
  ghost predicate DeletedFromBelow(st: Store) {
    forall r, q | r in st.accepted && r !in st.rows && q in st.rows && KeyOf(q) == KeyOf(r) :: r.sequence < q.sequence
  }

  lemma {:induction false} CompactUnique(rows: seq<Row>, p: Row -> bool)
    requires UniqueIds(rows)
    ensures UniqueIds(Filter(rows, p))
  {
    if rows != [] {
      var front := rows[..|rows| - 1];
      CompactUnique(front, p);
      var kept := Filter(front, p);
      assert forall i | 0 <= i < |kept| :: kept[i] in front;
    }
  }

  lemma PushDeletesNothing(st: Store, items: seq<Item>)
    requires Valid(st) && DeletedFromBelow(st)
    ensures DeletedFromBelow(InsertAll(st, items))
  {
    InsertAllExtends(st, items);
  }

  lemma CompactDeletesFromBelow(st: Store, ns: string)
    requires Valid(st) && DeletedFromBelow(st)
    ensures DeletedFromBelow(Compact(st, ns))
  {
    var kept := Compact(st, ns).rows;
    forall r, q | r in st.accepted && r !in kept && q in kept && KeyOf(q) == KeyOf(r) ensures r.sequence < q.sequence {
      assert r in st.rows ==> r.namespace == ns && Covered(st.snapshots, r);
    }
  }

  lemma {:induction false} RunsDeleteFromBelow(ops: seq<Op>)
    ensures Valid(ApplyAll(EMPTY, ops)) && UniqueIds(ApplyAll(EMPTY, ops).rows)
    ensures DeletedFromBelow(ApplyAll(EMPTY, ops))
  {
    RunsKeepOneRowPerNumber(EMPTY, ops);
    if ops != [] {
      var st := ApplyAll(EMPTY, ops[..|ops| - 1]);
      RunsDeleteFromBelow(ops[..|ops| - 1]);
      match ops[|ops| - 1]
      case Push(ns, batch) =>
        R.LogIsFirstOccurrences(st, Tag(ns, batch));
        PushDeletesNothing(st, Tag(ns, batch));
      case Snapshot(_, _) =>
      case CompactLog(ns) =>
        CompactUnique(st.rows, (x: Row) => !(x.namespace == ns && Covered(st.snapshots, x)));
        CompactDeletesFromBelow(st, ns);
    }
  }

  // ---- the guard ----

  predicate Stored(rows: seq<Row>, n: nat) {
    exists r | r in rows :: r.sequence == n
  }

  predicate LowerStored(rows: seq<Row>, key: RecordKey, n: nat) {
    exists r | r in rows :: KeyOf(r) == key && r.sequence < n
  }

  /** No row of the record under the old snapshot and not under the new one can be gone. */
  predicate Guard(st: Store, key: RecordKey, sequence: nat) {
    key in st.snapshots ==>
      forall n | sequence < n <= Min(st.snapshots[key], st.last) :: Stored(st.rows, n) || LowerStored(st.rows, key, n)
  }

  predicate SameTables(a: Store, b: Store) {
    a.rows == b.rows && a.last == b.last && a.snapshots == b.snapshots
  }

  lemma GuardedReplaceLosesNothing(st: Store, key: RecordKey, sequence: nat)
    requires Valid(st) && NoLoss(st) && OneRowPerNumber(st) && DeletedFromBelow(st) && Guard(st, key, sequence)
    ensures NoLoss(StoreSnapshot(st, key, sequence))
  {
    forall r | r in st.accepted && r !in st.rows ensures Covered(st.snapshots[key := sequence], r) {
      assert Covered(st.snapshots, r);
      assert !Stored(st.rows, r.sequence);
      assert KeyOf(r) == key ==> !LowerStored(st.rows, key, r.sequence);
    }
  }

  // ---- a run to given tables with a row lost ----

  lemma {:induction false} ApplyConcat(st: Store, a: seq<Op>, b: seq<Op>)
    ensures ApplyAll(st, a + b) == ApplyAll(ApplyAll(st, a), b)
    ensures MonotoneRun(st, a) && MonotoneRun(ApplyAll(st, a), b) ==> MonotoneRun(st, a + b)
  {
    hide Apply, KeepsSnapshots;
    if b == [] {
      assert a + b == a;
    } else {
      ApplyConcat(st, a, b[..|b| - 1]);
      ConcatSnoc(a, b);
      assert (a + b)[..|a + b| - 1] == a + b[..|b| - 1];
    }
  }

  lemma ApplyOne(st: Store, op: Op)
    ensures ApplyAll(st, [op]) == Apply(st, op)
    ensures KeepsSnapshots(st, op) ==> MonotoneRun(st, [op])
  {
    hide Apply;
    assert [op][..0] == [];
  }

  /** A log with `last` numbers given out, the first of them to a row it holds. */
  predicate Numbered(rows: seq<Row>, last: nat) {
    && Ascending(rows) && UniqueIds(rows) && (forall r | r in rows :: 0 < r.sequence <= last)
    && (last > 0 ==> rows != [] && rows[0].sequence == 1)
  }

  lemma NumberedFull(rows: seq<Row>, last: nat)
    requires Numbered(rows, last) && rows != [] && rows[|rows| - 1].sequence == last
    ensures last > 0 && Numbered(rows[..|rows| - 1], last - 1)
    ensures !HasId(rows[..|rows| - 1], rows[|rows| - 1].mutation.id)
  {
    var front := rows[..|rows| - 1];
    assert rows[|rows| - 1] in rows;
    assert forall r | r in front :: r in rows && r.sequence < last;
  }

  lemma NumberedGap(rows: seq<Row>, last: nat)
    requires Numbered(rows, last) && rows != [] && rows[|rows| - 1].sequence != last
    ensures last > 0 && Numbered(rows, last - 1) && HasId(rows, rows[0].mutation.id)
  {
    assert rows[0] in rows && rows[|rows| - 1] in rows;
    assert forall r | r in rows :: r.sequence < last;
  }

  lemma NumberedNone(last: nat)
    requires Numbered([], last)
    ensures last == 0
  {
  }

  /** Every such log comes from pushes alone; a gap comes from repeating the first row. */
  lemma {:induction false} Realize(rows: seq<Row>, last: nat) returns (items: seq<Item>)
    requires Numbered(rows, last)
    ensures |items| == last && InsertAll(EMPTY, items).rows == rows
    decreases last
  {
    if rows == [] {
      NumberedNone(last);
      items := [];
      return;
    }
    hide InsertAll, HasId, Numbered;
    var row := rows[|rows| - 1];
    if row.sequence == last {
      NumberedFull(rows, last);
      items := Realize(rows[..|rows| - 1], last - 1);
      R.InsertFresh(EMPTY, items, Item(row.namespace, row.mutation));
      items := items + [Item(row.namespace, row.mutation)];
    } else {
      NumberedGap(rows, last);
      items := Realize(rows, last - 1);
      R.InsertRepeat(EMPTY, items, Item(rows[0].namespace, rows[0].mutation));
      items := items + [Item(rows[0].namespace, rows[0].mutation)];
    }
  }

  lemma {:induction false} PushEach(st: Store, items: seq<Item>) returns (ops: seq<Op>)
    ensures ApplyAll(st, ops) == InsertAll(st, items) && MonotoneRun(st, ops)
  {
    if items == [] {
      ops := [];
      return;
    }
    var front, x := items[..|items| - 1], items[|items| - 1];
    var before := PushEach(st, front);
    var op := Push(x.namespace, [x.mutation]);
    assert Tag(x.namespace, [x.mutation]) == [x];
    assert items == front + [x];
    InsertAllConcat(st, front, [x]);
    ApplyOne(InsertAll(st, front), op);
    ApplyConcat(st, before, [op]);
    ops := before + [op];
  }

  lemma LastSnapshot(a: map<RecordKey, nat>, b: map<RecordKey, nat>, k: RecordKey)
    requires k in b
    ensures (a + (b - {k}))[k := b[k]] == a + b
    ensures k in a + (b - {k}) ==> k in a && (a + (b - {k}))[k] == a[k]
  {
  }

  lemma {:induction false} StoreEach(st: Store, snapshots: map<RecordKey, nat>) returns (ops: seq<Op>)
    requires forall k | k in snapshots && k in st.snapshots :: st.snapshots[k] <= snapshots[k]
    ensures ApplyAll(st, ops) == st.(snapshots := st.snapshots + snapshots) && MonotoneRun(st, ops)
    decreases |snapshots|
  {
    if snapshots == map[] {
      assert st.snapshots + snapshots == st.snapshots;
      ops := [];
      return;
    }
    hide ApplyAll, MonotoneRun;
    var k :| k in snapshots;
    var rest := snapshots - {k};
    var before := StoreEach(st, rest);
    var s := st.(snapshots := st.snapshots + rest);
    var op := Snapshot(k, snapshots[k]);
    ApplyOne(s, op);
    ApplyConcat(st, before, [op]);
    LastSnapshot(st.snapshots, snapshots, k);
    ops := before + [op];
  }

  /** The rows with two rows of the record put in, one as number `n` and one as number 1 if that is free. */
  lemma WithLostRows(st: Store, key: RecordKey, n: nat) returns (full: seq<Row>, lost: Row)
    requires Valid(st) && UniqueIds(st.rows) && 0 < n <= st.last
    requires !Stored(st.rows, n) && !LowerStored(st.rows, key, n)
    ensures Numbered(full, st.last)
    ensures lost in full && lost.sequence == n && KeyOf(lost) == key
    ensures Compact(Store(full, 0, map[key := n], {}), key.namespace).rows == st.rows
  {
    var ids := set r | r in st.rows :: r.mutation.id;
    var idA := FreshText(ids);
    var idB := FreshText(ids + {idA});
    NotStored(st.rows, ids, idA);
    NotStored(st.rows, ids, idB);
    lost := Row(n, key.namespace, Mutation(idA, "", key.docId, key.recordId, [], 0, 0));
    var fill := Row(1, key.namespace, Mutation(idB, "", key.docId, key.recordId, [], 0, 0));
    var k := SplitPoint(st.rows, n);
    full := Spliced(st.rows, k, lost);
    SplicedRows(st.rows, k, lost);
    SplicedAscends(st.rows, k, lost);
    SplicedUnique(st.rows, k, lost);
    SplicedBack(st.rows, k, lost, key);
    if full[0].sequence != 1 {
      FillFirst(st, full, fill, lost);
      full := [fill] + full;
      FilledBack(full, fill, key, n, st.rows);
    }
  }

  lemma SplitPoint(rows: seq<Row>, n: nat) returns (k: nat)
    requires Ascending(rows) && !Stored(rows, n)
    ensures k <= |rows|
    ensures (forall i | 0 <= i < k :: rows[i].sequence < n) && (forall i | k <= i < |rows| :: rows[i].sequence > n)
  {
    k := |rows|;
    while k > 0 && rows[k - 1].sequence > n
      invariant k <= |rows| && forall i | k <= i < |rows| :: rows[i].sequence > n
    {
      k := k - 1;
    }
    assert k > 0 ==> rows[k - 1] in rows && rows[k - 1].sequence != n;
  }

  function Spliced(rows: seq<Row>, k: nat, x: Row): (r: seq<Row>)
    requires k <= |rows|
    ensures |r| == |rows| + 1
  {
    rows[..k] + [x] + rows[k..]
  }

  lemma SplicedAt(rows: seq<Row>, k: nat, x: Row, i: nat)
    requires k <= |rows| && i <= |rows|
    ensures Spliced(rows, k, x)[i] == if i < k then rows[i] else if i == k then x else rows[i - 1]
  {
  }

  lemma SplicedRows(rows: seq<Row>, k: nat, x: Row)
    requires k <= |rows|
    ensures x in Spliced(rows, k, x) && forall r | r in Spliced(rows, k, x) :: r in rows || r == x
  {
    SplicedAt(rows, k, x, k);
  }

  lemma SplicedAscends(rows: seq<Row>, k: nat, x: Row)
    requires Ascending(rows) && k <= |rows|
    requires forall i | 0 <= i < k :: rows[i].sequence < x.sequence
    requires forall i | k <= i < |rows| :: rows[i].sequence > x.sequence
    ensures Ascending(Spliced(rows, k, x))
  {
    var full := Spliced(rows, k, x);
    forall i, j | 0 <= i < j < |full| ensures full[i].sequence < full[j].sequence {
      SplicedAt(rows, k, x, i);
      SplicedAt(rows, k, x, j);
    }
  }

  lemma SplicedUnique(rows: seq<Row>, k: nat, x: Row)
    requires UniqueIds(rows) && k <= |rows| && !HasId(rows, x.mutation.id)
    ensures UniqueIds(Spliced(rows, k, x))
  {
    assert forall i | 0 <= i < |rows| :: rows[i] in rows;
    var full := Spliced(rows, k, x);
    forall i, j | 0 <= i < j < |full| ensures full[i].mutation.id != full[j].mutation.id {
      SplicedAt(rows, k, x, i);
      SplicedAt(rows, k, x, j);
    }
  }

  lemma SplicedBack(rows: seq<Row>, k: nat, x: Row, key: RecordKey)
    requires k <= |rows| && KeyOf(x) == key
    requires !Stored(rows, x.sequence) && !LowerStored(rows, key, x.sequence)
    ensures Compact(Store(Spliced(rows, k, x), 0, map[key := x.sequence], {}), key.namespace).rows == rows
  {
    var keep := (r: Row) => !(r.namespace == key.namespace && Covered(map[key := x.sequence], r));
    var a, b := rows[..k], rows[k..];
    assert rows == a + b;
    forall r | r in rows ensures keep(r) {
      assert KeyOf(r) == key ==> r.sequence > x.sequence;
    }
    FilterConcat(a + [x], b, keep);
    FilterSnoc(a, x, keep);
    FilterExtremes(a, keep);
    FilterExtremes(b, keep);
  }

  lemma FillFirst(st: Store, full: seq<Row>, fill: Row, lost: Row)
    requires full != [] && Ascending(full) && UniqueIds(full) && forall r | r in full :: 0 < r.sequence <= st.last
    requires full[0].sequence != 1 && fill.sequence == 1 && fill.mutation.id != lost.mutation.id
    requires !HasId(st.rows, fill.mutation.id) && forall r | r in full :: r in st.rows || r == lost
    ensures var f := [fill] + full;
      Ascending(f) && UniqueIds(f) && forall r | r in f :: 0 < r.sequence <= st.last
  {
    assert full[0] in full;
    assert forall i | 0 <= i < |full| :: full[i] in full && full[i].sequence > 1;
  }

  lemma FilledBack(full: seq<Row>, fill: Row, key: RecordKey, n: nat, rows: seq<Row>)
    requires full != [] && full[0] == fill && KeyOf(fill) == key && fill.sequence <= n
    requires Compact(Store(full[1..], 0, map[key := n], {}), key.namespace).rows == rows
    ensures Compact(Store(full, 0, map[key := n], {}), key.namespace).rows == rows
  {
    var keep := (r: Row) => !(r.namespace == key.namespace && Covered(map[key := n], r));
    assert full == [fill] + full[1..];
    assert !keep(fill);
    FilterExtremes([fill], keep);
    FilterConcat([fill], full[1..], keep);
    hide Filter;
  }

  /** A run that ends with the tables of `st` and has lost a row of the record numbered `n`. */
  lemma RunWithLostRow(st: Store, key: RecordKey, n: nat) returns (ops: seq<Op>, lost: Row)
    requires Valid(st) && UniqueIds(st.rows) && key in st.snapshots && 0 < n <= Min(st.snapshots[key], st.last)
    requires !Stored(st.rows, n) && !LowerStored(st.rows, key, n)
    ensures MonotoneRun(EMPTY, ops) && SameTables(ApplyAll(EMPTY, ops), st)
    ensures lost in ApplyAll(EMPTY, ops).accepted && lost.sequence == n && KeyOf(lost) == key
  {
    hide ApplyAll, MonotoneRun, InsertAll, UniqueIds, Stored, LowerStored, Valid;
    var full;
    full, lost := WithLostRows(st, key, n);
    var items := Realize(full, st.last);
    var pushes := PushEach(EMPTY, items);
    var pushed := InsertAll(EMPTY, items);
    PushedLost(items, lost);
    var stores := CompactAndStore(pushed, st, key, n);
    ops := pushes + stores;
    ApplyConcat(EMPTY, pushes, stores);
  }

  lemma PushedLost(items: seq<Item>, lost: Row)
    requires lost in InsertAll(EMPTY, items).rows
    ensures lost in InsertAll(EMPTY, items).accepted
  {
    InsertAllExtends(EMPTY, items);
  }

  /** One snapshot and a compaction, then the snapshots of `st`. */
  lemma CompactAndStore(pushed: Store, st: Store, key: RecordKey, n: nat) returns (ops: seq<Op>)
    requires pushed.last == st.last && pushed.snapshots == map[] && key in st.snapshots && n <= st.snapshots[key]
    requires Compact(Store(pushed.rows, 0, map[key := n], {}), key.namespace).rows == st.rows
    ensures MonotoneRun(pushed, ops) && SameTables(ApplyAll(pushed, ops), st)
    ensures ApplyAll(pushed, ops).accepted == pushed.accepted
  {
    hide ApplyAll, MonotoneRun;
    var snap, compact := Snapshot(key, n), CompactLog(key.namespace);
    var covered := StoreSnapshot(pushed, key, n);
    assert covered.snapshots == map[key := n];
    var compacted := Compact(covered, key.namespace);
    ApplyOne(pushed, snap);
    ApplyOne(covered, compact);
    ApplyConcat(pushed, [snap], [compact]);
    SameRowsKept(covered, Store(pushed.rows, 0, map[key := n], {}), key.namespace);
    var stores := StoreEach(compacted, st.snapshots);
    assert map[key := n] + st.snapshots == st.snapshots;
    ops := [snap] + [compact] + stores;
    ApplyConcat(pushed, [snap] + [compact], stores);
  }

  lemma SameRowsKept(a: Store, b: Store, ns: string)
    requires a.rows == b.rows && a.snapshots == b.snapshots
    ensures Compact(a, ns).rows == Compact(b, ns).rows
  {
    FilterCongruence(a.rows, (x: Row) => !(x.namespace == ns && Covered(a.snapshots, x)),
                     (x: Row) => !(x.namespace == ns && Covered(b.snapshots, x)));
  }

  /**
   Whatever run led to the tables, replacing a snapshot loses nothing, exactly when every number
   under the old snapshot and not under the new one is still stored or has a lower row of the
   record still stored.
   */
  lemma StoreSnapshotKeepsNoLossIff(past: seq<Op>, key: RecordKey, sequence: nat)
    ensures var st := ApplyAll(EMPTY, past);
      (forall ops | MonotoneRun(EMPTY, ops) && SameTables(ApplyAll(EMPTY, ops), st) ::
          NoLoss(StoreSnapshot(ApplyAll(EMPTY, ops), key, sequence)))
      <==> Guard(st, key, sequence)
  {
    var st := ApplyAll(EMPTY, past);
    RunsDeleteFromBelow(past);
    if Guard(st, key, sequence) {
      forall ops | MonotoneRun(EMPTY, ops) && SameTables(ApplyAll(EMPTY, ops), st)
        ensures NoLoss(StoreSnapshot(ApplyAll(EMPTY, ops), key, sequence))
      {
        NothingAcceptedIsLost(EMPTY, ops);
        RunsKeepOneRowPerNumber(EMPTY, ops);
        RunsDeleteFromBelow(ops);
        GuardedReplaceLosesNothing(ApplyAll(EMPTY, ops), key, sequence);
      }
    } else {
      var n :| sequence < n <= Min(st.snapshots[key], st.last) && !Stored(st.rows, n) && !LowerStored(st.rows, key, n);
      var ops, lost := RunWithLostRow(st, key, n);
      assert lost in StoreSnapshot(ApplyAll(EMPTY, ops), key, sequence).accepted;
      assert !NoLoss(StoreSnapshot(ApplyAll(EMPTY, ops), key, sequence));
    }
  }
}
