/** The SQLite backend's transactions, as methods that update its tables. */
module SqliteCoordinator {
  import opened Sequences
  import opened MutationLog
  import opened Compaction

  class Coordinator {
    var rows: seq<Row>
    var last: nat
    var snapshots: map<RecordKey, nat>
    ghost var accepted: set<Row>

    ghost function Model(): (st: Store)
      reads this
    {
      Store(rows, last, snapshots, accepted)
    }

    constructor ()
      ensures Model() == EMPTY
    {
      rows, last, snapshots, accepted := [], 0, map[], {};
    }

    /** `INSERT OR IGNORE`, then the new row's id or a lookup of the stored one. */
    method InsertOrLookup(item: Item) returns (sequence: nat)
      modifies this
      ensures Model() == Insert(old(Model()), item)
      ensures sequence == Ack(old(Model()), item)
    {
      var inserted := !HasId(rows, item.mutation.id);
      last := last + 1;
      if inserted {
        var row := Row(last, item.namespace, item.mutation);
        rows := rows + [row];
        accepted := accepted + {row};
        sequence := last;
      } else {
        sequence := SequenceOf(rows, item.mutation.id);
      }
    }

    /** One transaction: acknowledge every mutation, and prepare what to broadcast after the commit. */
    method Push(ns: string, batch: seq<Mutation>) returns (seqIds: seq<nat>, pending: seq<Row>)
      modifies this
      ensures Model() == InsertAll(old(Model()), Tag(ns, batch))
      ensures seqIds == Acks(old(Model()), Tag(ns, batch))
      ensures pending == Announcements(Tag(ns, batch), seqIds)
    {
      ghost var before, items := Model(), Tag(ns, batch);
      seqIds, pending := [], [];
      for i := 0 to |batch|
        invariant Model() == InsertAll(before, items[..i])
        invariant seqIds == Acks(before, items[..i])
        invariant pending == Announcements(items[..i], Acks(before, items[..i]))
      {
        InsertAllSnoc(before, items[..i], items[i]);
        PrefixSnoc(items, i);
        var sequence := InsertOrLookup(Item(ns, batch[i]));
        seqIds := seqIds + [sequence];
        pending := pending + [Row(sequence, ns, batch[i])];
      }
      assert items[..|batch|] == items;
    }

    method PullRows(ns: string, after: nat, limit: nat) returns (res: seq<Row>)
      ensures res == Pull(rows, ns, after, limit)
    {
      res := [];
      var i := 0;
      while i < |rows| && |res| < limit
        invariant 0 <= i <= |rows|
        invariant res == After(rows[..i], ns, after) && |res| <= limit
      {
        assert rows[..i + 1][..i] == rows[..i];
        if rows[i].namespace == ns && rows[i].sequence > after {
          res := res + [rows[i]];
        }
        i := i + 1;
      }
      assert rows == rows[..i] + rows[i..];
      FilterConcat(rows[..i], rows[i..], (x: Row) => x.namespace == ns && x.sequence > after);
      assert i == |rows| ==> rows[i..] == [];
    }

    method PutSnapshot(key: RecordKey, sequence: nat)
      modifies this
      ensures Model() == StoreSnapshot(old(Model()), key, sequence)
    {
      snapshots := snapshots[key := sequence];
    }

    /** One delete per snapshot; `order` is whatever order the query returned them in. */
    method CompactOplog(ns: string, order: seq<RecordKey>) returns (oplogRemoved: nat, snapshotsCollapsed: nat)
      requires Enumerates(order, snapshots, ns)
      modifies this
      ensures Model() == Compact(old(Model()), ns)
      ensures oplogRemoved == |old(rows)| - |rows|
      ensures snapshotsCollapsed
           == |set x | x in old(rows) && x.namespace == ns && Covered(snapshots, x) :: KeyOf(x)|
    {
      ghost var before := Model();
      oplogRemoved, snapshotsCollapsed := 0, 0;
      for i := 0 to |order|
        invariant snapshots == before.snapshots && last == before.last && accepted == before.accepted
        invariant DeleteEach(before.rows, before.snapshots, order[..i]) == Progress(rows, oplogRemoved, snapshotsCollapsed)
      {
        assert order[..i + 1][..i] == order[..i];
        assert order[i] in order;
        var kept := DeleteUpTo(rows, order[i], snapshots[order[i]]);
        var deleted := |rows| - |kept|;
        rows := kept;
        if deleted > 0 {
          oplogRemoved := oplogRemoved + deleted;
          snapshotsCollapsed := snapshotsCollapsed + 1;
        }
      }
      assert order[..|order|] == order;
      CompactionExact(before, ns, order);
    }
  }
}
