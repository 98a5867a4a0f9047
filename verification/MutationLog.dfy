/**
 The coordinator's durable state: an append-only table of mutations ordered by a
 global sequence number, a table of per-record snapshots, and the queries that the
 backends run on them. `accepted` is the history of everything ever inserted; no
 operation reads it.
 */
module MutationLog {
  import opened Sequences

  datatype Mutation = Mutation(
    id: string,
    replicaId: string,
    docId: string,
    recordId: string,
    blob: seq<bv8>,
    timestamp: nat,
    keyVersion: nat)

  /** A stored mutation, and equally the message broadcast for it. */
  datatype Row = Row(sequence: nat, namespace: string, mutation: Mutation)

  /** One mutation pushed to one namespace. */
  datatype Item = Item(namespace: string, mutation: Mutation)

  datatype RecordKey = RecordKey(namespace: string, docId: string, recordId: string)

  datatype Store = Store(
    rows: seq<Row>,
    last: nat,
    snapshots: map<RecordKey, nat>,
    accepted: set<Row>)

  const EMPTY := Store([], 0, map[], {})

  function KeyOf(r: Row): RecordKey {
    RecordKey(r.namespace, r.mutation.docId, r.mutation.recordId)
  }

  predicate Ascending(rows: seq<Row>) {
    forall i, j | 0 <= i < j < |rows| :: rows[i].sequence < rows[j].sequence
  }

  predicate HasId(rows: seq<Row>, id: string) {
    exists r | r in rows :: r.mutation.id == id
  }

  predicate UniqueIds(rows: seq<Row>) {
    forall i, j | 0 <= i < j < |rows| :: rows[i].mutation.id != rows[j].mutation.id
  }

  lemma HasIdSnoc(rows: seq<Row>, r: Row, id: string)
    ensures HasId(rows + [r], id) <==> HasId(rows, id) || r.mutation.id == id
  {
    assert forall x | x in rows + [r] :: x in rows || x == r;
    assert r in rows + [r];
    assert forall x | x in rows :: x in rows + [r];
  }

  /** What every operation keeps of the mutations table. */
  ghost predicate Valid(st: Store) {
    && Ascending(st.rows)
    && (forall r | r in st.rows :: r in st.accepted)
    && (forall r | r in st.accepted :: 0 < r.sequence <= st.last)
  }

  // ---- push ----

  /** The sequence of the row with the given id. */
  function SequenceOf(rows: seq<Row>, id: string): (s: nat)
    requires HasId(rows, id)
    ensures exists r | r in rows :: r.mutation.id == id && r.sequence == s
  {
    var r := rows[|rows| - 1];
    if r.mutation.id == id then r.sequence
    else
      assert forall q | q in rows :: q == r || q in rows[..|rows| - 1];
      SequenceOf(rows[..|rows| - 1], id)
  }

  /**
   Insert-or-ignore of one mutation. An ignored insert still takes a number from the
   AUTOINCREMENT (or BIGSERIAL) counter.
   */
  function Insert(st: Store, item: Item): (r: Store) {
    if HasId(st.rows, item.mutation.id) then st.(last := st.last + 1)
    else
      var row := Row(st.last + 1, item.namespace, item.mutation);
      st.(rows := st.rows + [row], last := st.last + 1, accepted := st.accepted + {row})
  }

  /** The sequence answered for it: the new row's, or the stored row's when ignored. */
  function Ack(st: Store, item: Item): (r: nat) {
    if HasId(st.rows, item.mutation.id) then SequenceOf(st.rows, item.mutation.id) else st.last + 1
  }

  function InsertAll(st: Store, items: seq<Item>): (r: Store)
    ensures r.last == st.last + |items|
    ensures r.snapshots == st.snapshots
  {
    if items == [] then st else Insert(InsertAll(st, items[..|items| - 1]), items[|items| - 1])
  }

  function Acks(st: Store, items: seq<Item>): (r: seq<nat>)
    ensures |r| == |items|
  {
    if items == [] then []
    else
      var front := items[..|items| - 1];
      Acks(st, front) + [Ack(InsertAll(st, front), items[|items| - 1])]
  }

  function Tag(ns: string, batch: seq<Mutation>): (items: seq<Item>)
    ensures |items| == |batch|
  {
    Map(batch, m => Item(ns, m))
  }

  /** The messages a push broadcasts: its own payloads under the acked sequences. */
  function Announcements(items: seq<Item>, acks: seq<nat>): (r: seq<Row>)
    requires |items| == |acks|
    ensures |r| == |items|
    ensures forall i | 0 <= i < |r| :: r[i] == Row(acks[i], items[i].namespace, items[i].mutation)
  {
    seq(|items|, i requires 0 <= i < |items| => Row(acks[i], items[i].namespace, items[i].mutation))
  }

  // ---- queries ----

  predicate InRange(r: Row, ns: string, lo: nat, hi: nat) {
    r.namespace == ns && lo < r.sequence <= hi
  }

  /** Rows of `ns` with sequence in (lo, hi], in sequence order. */
  function Range(rows: seq<Row>, ns: string, lo: nat, hi: nat): (r: seq<Row>) {
    Filter(rows, (x: Row) => InRange(x, ns, lo, hi))
  }

  /** `SELECT ... WHERE namespace = ns AND sequence > after ORDER BY sequence`. */
  function After(rows: seq<Row>, ns: string, after: nat): (r: seq<Row>) {
    Filter(rows, (x: Row) => x.namespace == ns && x.sequence > after)
  }

  function Take<T>(xs: seq<T>, n: nat): (r: seq<T>)
    ensures r <= xs && |r| == (if |xs| < n then |xs| else n)
  {
    if |xs| < n then xs else xs[..n]
  }

  /** The same query with `LIMIT limit`. */
  function Pull(rows: seq<Row>, ns: string, after: nat, limit: nat): (r: seq<Row>) {
    Take(After(rows, ns, after), limit)
  }

  lemma {:induction false} FilterAscending(rows: seq<Row>, p: Row -> bool)
    requires Ascending(rows)
    ensures Ascending(Filter(rows, p))
  {
    if rows != [] {
      var front, last := rows[..|rows| - 1], rows[|rows| - 1];
      var kept := Filter(front, p);
      FilterAscending(front, p);
      assert forall x | x in front :: x.sequence < last.sequence;
      assert forall i | 0 <= i < |kept| :: kept[i] in front;
    }
  }

  /** An ascending list is determined by its elements. */
  lemma {:induction false} AscendingUnique(a: seq<Row>, b: seq<Row>)
    requires Ascending(a) && Ascending(b)
    requires forall r :: r in a <==> r in b
    ensures a == b
  {
    if a == [] {
      assert forall i | 0 <= i < |b| :: b[i] in a;
    } else {
      assert a[|a| - 1] in b;
      var x, y := a[|a| - 1], b[|b| - 1];
      assert y in a;
      assert x == y;
      var a', b' := a[..|a| - 1], b[..|b| - 1];
      forall r ensures r in a' <==> r in b' {
        assert r in a' ==> r in a && r != x;
        assert r in b' ==> r in b && r != x;
        assert r in a && r != x ==> r in a';
        assert r in b && r != x ==> r in b';
      }
      AscendingUnique(a', b');
    }
  }

  /**
   `sent` lists the rows of `ns` in (lo, hi], each once and in order. Stated by
   membership so that single steps are easy to follow; `ExactlyIsRange` turns it into
   an equation.
   */
  ghost predicate Exactly(sent: seq<Row>, rows: seq<Row>, ns: string, lo: nat, hi: nat) {
    && Ascending(sent)
    && (forall r :: r in sent <==> r in rows && InRange(r, ns, lo, hi))
  }

  lemma ExactlyIsRange(sent: seq<Row>, rows: seq<Row>, ns: string, lo: nat, hi: nat)
    requires Ascending(rows)
    ensures Exactly(sent, rows, ns, lo, hi) <==> sent == Range(rows, ns, lo, hi)
  {
    FilterAscending(rows, (x: Row) => InRange(x, ns, lo, hi));
    if Exactly(sent, rows, ns, lo, hi) {
      AscendingUnique(sent, Range(rows, ns, lo, hi));
    }
  }

  lemma SplitAscending(q: seq<Row>, k: nat, lo: nat, hi: nat)
    requires Ascending(q) && k <= |q|
    requires forall r | r in q :: r.sequence > lo
    requires hi == if k == 0 then lo else q[k - 1].sequence
    ensures lo <= hi
    ensures Ascending(q[..k]) && Ascending(q[k..])
    ensures forall r :: r in q[..k] <==> r in q && r.sequence <= hi
    ensures forall r :: r in q[k..] <==> r in q && r.sequence > hi
  {
    assert k > 0 ==> q[k - 1] in q;
    forall r ensures r in q[..k] <==> r in q && r.sequence <= hi {
      if r in q {
        SplitAt(q, k, hi, r);
      }
    }
    forall r ensures r in q[k..] <==> r in q && r.sequence > hi {
      if r in q {
        SplitAt(q, k, hi, r);
      }
    }
  }

  lemma SplitAt(q: seq<Row>, k: nat, hi: nat, r: Row)
    requires Ascending(q) && k <= |q| && r in q
    requires forall x | x in q && k == 0 :: x.sequence > hi
    requires k > 0 ==> hi == q[k - 1].sequence
    ensures if r.sequence <= hi then r in q[..k] && r !in q[k..] else r !in q[..k] && r in q[k..]
  {
    var i :| 0 <= i < |q| && q[i] == r;
    assert i < k ==> q[..k][i] == r;
    assert i >= k ==> q[k..][i - k] == r;
  }

  lemma AfterAscending(rows: seq<Row>, ns: string, lo: nat, limit: nat)
    requires Ascending(rows)
    ensures Ascending(After(rows, ns, lo)) && Ascending(Pull(rows, ns, lo, limit))
    ensures forall r | r in Pull(rows, ns, lo, limit) :: r.sequence > lo
  {
    FilterAscending(rows, (x: Row) => x.namespace == ns && x.sequence > lo);
    assert forall r | r in Pull(rows, ns, lo, limit) :: r in After(rows, ns, lo);
  }

  /**
   The first `k` rows of a query are exactly a range of the log, and asking again from
   the last of them gives the rest.
   */
  lemma PageExact(rows: seq<Row>, ns: string, lo: nat, k: nat, hi: nat)
    requires Ascending(rows) && k <= |After(rows, ns, lo)|
    requires hi == if k == 0 then lo else After(rows, ns, lo)[k - 1].sequence
    ensures lo <= hi
    ensures Exactly(After(rows, ns, lo)[..k], rows, ns, lo, hi)
    ensures After(rows, ns, hi) == After(rows, ns, lo)[k..]
  {
    AfterAscending(rows, ns, lo, 0);
    AfterAscending(rows, ns, hi, 0);
    SplitAscending(After(rows, ns, lo), k, lo, hi);
    AscendingUnique(After(rows, ns, hi), After(rows, ns, lo)[k..]);
  }

  /** A page, followed by the query from its last row, is the query from before it. */
  lemma NextPage(rows: seq<Row>, ns: string, lo: nat, limit: nat)
    requires Ascending(rows)
    ensures var page := Pull(rows, ns, lo, limit);
      && Ascending(page) && (forall r | r in page :: r.sequence > lo)
      && (page != [] ==> After(rows, ns, lo) == page + After(rows, ns, page[|page| - 1].sequence))
      && (|page| < limit ==> page == After(rows, ns, lo))
  {
    var page, all := Pull(rows, ns, lo, limit), After(rows, ns, lo);
    AfterAscending(rows, ns, lo, limit);
    assert page == all[..|page|];
    if page != [] {
      PageExact(rows, ns, lo, |page|, page[|page| - 1].sequence);
      assert all == all[..|page|] + all[|page|..];
    }
  }

  /** A full query leaves nothing above its last row. */
  lemma AfterExact(rows: seq<Row>, ns: string, lo: nat, hi: nat)
    requires Ascending(rows)
    requires hi == (if After(rows, ns, lo) == [] then lo else After(rows, ns, lo)[|After(rows, ns, lo)| - 1].sequence)
    ensures lo <= hi
    ensures Exactly(After(rows, ns, lo), rows, ns, lo, hi)
    ensures forall r | r in rows && r.namespace == ns :: r.sequence <= hi
  {
    var q := After(rows, ns, lo);
    PageExact(rows, ns, lo, |q|, hi);
    assert q[..|q|] == q;
    assert forall r | r in rows && r.namespace == ns && r.sequence > hi :: r in After(rows, ns, hi);
  }

  // ---- what a push does ----

  lemma AscendingSnoc(rows: seq<Row>, r: Row)
    requires Ascending(rows)
    requires forall x | x in rows :: x.sequence < r.sequence
    ensures Ascending(rows + [r])
  {
    assert forall i | 0 <= i < |rows| :: rows[i] in rows;
  }

  lemma UniqueSnoc(rows: seq<Row>, r: Row)
    requires UniqueIds(rows) && !HasId(rows, r.mutation.id)
    ensures UniqueIds(rows + [r])
  {
    assert forall i | 0 <= i < |rows| :: rows[i] in rows;
  }

  lemma InsertKeepsValid(st: Store, item: Item)
    requires Valid(st)
    ensures Valid(Insert(st, item))
  {
    if !HasId(st.rows, item.mutation.id) {
      var row := Row(st.last + 1, item.namespace, item.mutation);
      AscendingSnoc(st.rows, row);
    }
  }

  /** One more item in a batch. */
  lemma InsertAllSnoc(st: Store, items: seq<Item>, x: Item)
    ensures InsertAll(st, items + [x]) == Insert(InsertAll(st, items), x)
    ensures Acks(st, items + [x]) == Acks(st, items) + [Ack(InsertAll(st, items), x)]
    ensures Announcements(items + [x], Acks(st, items + [x]))
         == Announcements(items, Acks(st, items)) + [Row(Ack(InsertAll(st, items), x), x.namespace, x.mutation)]
  {
    assert (items + [x])[..|items|] == items;
  }

  /** `later` is `earlier` after pushes only: both tables grew at the end, above `earlier.last`. */
  ghost predicate Extends(earlier: Store, later: Store) {
    && earlier.rows <= later.rows
    && earlier.accepted <= later.accepted
    && earlier.last <= later.last
    && earlier.snapshots == later.snapshots
    && (forall r | r in later.rows && r !in earlier.rows :: r.sequence > earlier.last)
    && (forall r | r in later.accepted && r !in earlier.accepted :: r.sequence > earlier.last && r in later.rows)
  }

  /** A push extends the table at the end, above every sequence ever assigned. */
  lemma {:induction false} InsertAllExtends(st: Store, items: seq<Item>)
    requires Valid(st)
    ensures Valid(InsertAll(st, items))
    ensures Extends(st, InsertAll(st, items))
  {
    if items != [] {
      InsertAllExtends(st, items[..|items| - 1]);
      InsertKeepsValid(InsertAll(st, items[..|items| - 1]), items[|items| - 1]);
      InsertExtends(st, InsertAll(st, items[..|items| - 1]), items[|items| - 1]);
    }
  }

  lemma InsertExtends(st: Store, s: Store, item: Item)
    requires Extends(st, s)
    ensures Extends(st, Insert(s, item))
  {
  }

  lemma {:induction false} InsertAllConcat(st: Store, a: seq<Item>, b: seq<Item>)
    ensures InsertAll(st, a + b) == InsertAll(InsertAll(st, a), b)
    ensures Acks(st, a + b) == Acks(st, a) + Acks(InsertAll(st, a), b)
  {
    if b == [] {
      assert a + b == a;
    } else {
      var front, x := b[..|b| - 1], b[|b| - 1];
      hide Insert, Ack;
      InsertAllConcat(st, a, front);
      ConcatSnoc(a, b);
      InsertAllSnoc(st, a + front, x);
      Reassociate(Acks(st, a), Acks(InsertAll(st, a), front), Ack(InsertAll(st, a + front), x));
    }
  }
}
