/**
 Nothing accepted is lost: over every run of pushes, snapshots and compactions each
 accepted mutation stays in the log or under its record's snapshot, so a replica that
 registers and subscribes at a cursor gets everything above it one way or the other.
 */
module Bootstrap {
  import opened Sequences
  import opened MutationLog
  import opened Compaction
  import opened Prelude
  import S = SqliteSubscription
  import D = SqliteDelivery

  datatype Op =
    | Push(ns: string, batch: seq<Mutation>)
    | Snapshot(key: RecordKey, sequence: nat)
    | CompactLog(ns: string)

  function Apply(st: Store, op: Op): (r: Store) {
    match op
    case Push(ns, batch) => InsertAll(st, Tag(ns, batch))
    case Snapshot(key, sequence) => StoreSnapshot(st, key, sequence)
    case CompactLog(ns) => Compact(st, ns)
  }

  function ApplyAll(st: Store, ops: seq<Op>): (r: Store) {
    if ops == [] then st else Apply(ApplyAll(st, ops[..|ops| - 1]), ops[|ops| - 1])
  }

  ghost predicate NoLoss(st: Store) {
    forall r | r in st.accepted :: r in st.rows || Covered(st.snapshots, r)
  }

  /** A record's snapshot sequence never goes down. */
  predicate KeepsSnapshots(st: Store, op: Op) {
    op.Snapshot? && op.key in st.snapshots ==> st.snapshots[op.key] <= op.sequence
  }

  predicate MonotoneRun(st: Store, ops: seq<Op>) {
    ops == [] ||
    var front := ops[..|ops| - 1];
    MonotoneRun(st, front) && KeepsSnapshots(ApplyAll(st, front), ops[|ops| - 1])
  }

  lemma ApplyKeepsNoLoss(st: Store, op: Op)
    requires Valid(st) && NoLoss(st) && KeepsSnapshots(st, op)
    ensures Valid(Apply(st, op)) && NoLoss(Apply(st, op))
  {
    match op
    case Push(ns, batch) => InsertAllExtends(st, Tag(ns, batch));
    case Snapshot(key, sequence) =>
    case CompactLog(ns) =>
      CompactKeepsValid(st, ns);
      assert forall r | r in st.rows :: r in Compact(st, ns).rows || Covered(st.snapshots, r);
  }

  lemma {:induction false} NothingAcceptedIsLost(st: Store, ops: seq<Op>)
    requires Valid(st) && NoLoss(st) && MonotoneRun(st, ops)
    ensures Valid(ApplyAll(st, ops)) && NoLoss(ApplyAll(st, ops))
  {
    if ops != [] {
      NothingAcceptedIsLost(st, ops[..|ops| - 1]);
      ApplyKeepsNoLoss(ApplyAll(st, ops[..|ops| - 1]), ops[|ops| - 1]);
    }
  }

  /** Every sequence was given to one row only. */
  ghost predicate OneRowPerNumber(st: Store) {
    forall r, q | r in st.accepted && q in st.accepted && r.sequence == q.sequence :: r == q
  }

  lemma {:induction false} InsertAllOneRowPerNumber(st: Store, items: seq<Item>)
    requires Valid(st) && OneRowPerNumber(st)
    ensures OneRowPerNumber(InsertAll(st, items))
  {
    if items != [] {
      InsertAllOneRowPerNumber(st, items[..|items| - 1]);
      InsertAllExtends(st, items[..|items| - 1]);
    }
  }

  lemma {:induction false} RunsKeepOneRowPerNumber(st: Store, ops: seq<Op>)
    requires Valid(st) && OneRowPerNumber(st)
    ensures Valid(ApplyAll(st, ops)) && OneRowPerNumber(ApplyAll(st, ops))
  {
    if ops != [] {
      var s := ApplyAll(st, ops[..|ops| - 1]);
      RunsKeepOneRowPerNumber(st, ops[..|ops| - 1]);
      match ops[|ops| - 1]
      case Push(ns, batch) =>
        InsertAllExtends(s, Tag(ns, batch));
        InsertAllOneRowPerNumber(s, Tag(ns, batch));
      case Snapshot(_, _) =>
      case CompactLog(ns) => CompactKeepsValid(s, ns);
    }
  }

  /** `store_snapshot` does not check: an older snapshot stored after compaction loses a row. */
  lemma OlderSnapshotLosesRow(ns: string, m: Mutation)
    ensures var key := RecordKey(ns, m.docId, m.recordId);
      !NoLoss(ApplyAll(EMPTY, [Push(ns, [m]), Snapshot(key, 1), CompactLog(ns), Snapshot(key, 0)]))
  {
    var key := RecordKey(ns, m.docId, m.recordId);
    var row := Row(1, ns, m);
    ApplyFour(EMPTY, Push(ns, [m]), Snapshot(key, 1), CompactLog(ns), Snapshot(key, 0));
    InsertAllSnoc(EMPTY, [], Item(ns, m));
    assert Tag(ns, [m]) == [] + [Item(ns, m)];
    var pushed := Apply(EMPTY, Push(ns, [m]));
    assert pushed.rows == [row] && pushed.accepted == {row};
    var covered := Apply(pushed, Snapshot(key, 1));
    assert Covered(covered.snapshots, row);
    var compacted := Apply(covered, CompactLog(ns));
    assert row !in compacted.rows && row in compacted.accepted;
    assert !Covered(Apply(compacted, Snapshot(key, 0)).snapshots, row);
  }

  lemma ApplyFour(st: Store, a: Op, b: Op, c: Op, d: Op)
    ensures ApplyAll(st, [a, b, c, d]) == Apply(Apply(Apply(Apply(st, a), b), c), d)
  {
    hide Apply;
    var ops := [a, b, c, d];
    assert ops[..3] == [a, b, c] && [a, b, c][..2] == [a, b] && [a, b][..1] == [a] && [a][..0] == [];
    assert ApplyAll(st, [a]) == Apply(st, a);
    assert ApplyAll(st, [a, b]) == Apply(Apply(st, a), b);
    assert ApplyAll(st, [a, b, c]) == Apply(Apply(Apply(st, a), b), c);
  }

  // ---- registration ----

  /** The snapshots sent to a replica registering at cursor `after`. */
  function Registered(st: Store, ns: string, after: nat): (m: map<RecordKey, nat>) {
    map k | k in st.snapshots && k.namespace == ns && st.snapshots[k] > after :: st.snapshots[k]
  }

  /** `later` is `earlier` after steps other than compaction. */
  ghost predicate Grown(earlier: Store, later: Store) {
    && (forall r | r in earlier.rows :: r in later.rows)
    && (forall r | r in later.rows && r !in earlier.rows :: r.sequence > earlier.last)
    && (forall r | r in later.accepted :: r in earlier.accepted || r in later.rows)
    && earlier.last <= later.last
  }

  lemma {:induction false} WithoutCompactionGrows(st: Store, ops: seq<Op>)
    requires Valid(st)
    requires NoCompaction(ops)
    ensures Valid(ApplyAll(st, ops)) && Grown(st, ApplyAll(st, ops))
  {
    if ops != [] {
      var s := ApplyAll(st, ops[..|ops| - 1]);
      WithoutCompactionGrows(st, ops[..|ops| - 1]);
      match ops[|ops| - 1] {
        case Push(ns, batch) => InsertAllExtends(s, Tag(ns, batch));
        case Snapshot(_, _) =>
      }
    }
  }

  /** Every accepted row above the cursor is still a row, or under a snapshot sent on registration. */
  lemma RegisteredOrLogged(atRegister: Store, later: Store, ns: string, cursor: nat, r: Row)
    requires NoLoss(atRegister) && Grown(atRegister, later)
    requires r in later.accepted && r.namespace == ns && r.sequence > cursor
    ensures r in later.rows || Covered(Registered(atRegister, ns, cursor), r)
  {
    if r !in later.rows {
      assert Covered(atRegister.snapshots, r);
    }
  }

  lemma StepGrows(s: S.State, step: S.Step)
    requires Valid(s.store) && !step.CompactLog?
    ensures Valid(S.Next(s, step).store) && Grown(s.store, S.Next(s, step).store)
    ensures S.Next(s, step).sub.ns == s.sub.ns && S.Next(s, step).sub.from == s.sub.from
  {
    if step.Commit? {
      InsertAllExtends(s.store, Tag(step.ns, step.batch));
    }
  }

  lemma GrownTwice(a: Store, b: Store, c: Store)
    requires Grown(a, b) && Grown(b, c)
    ensures Grown(a, c)
  {
  }

  lemma {:induction false} SubscribedStoreGrows(s: S.State, steps: seq<S.Step>)
    requires Valid(s.store)
    requires forall i | 0 <= i < |steps| :: !steps[i].CompactLog?
    ensures Valid(S.Run(s, steps).store) && Grown(s.store, S.Run(s, steps).store)
    ensures S.Run(s, steps).sub.ns == s.sub.ns && S.Run(s, steps).sub.from == s.sub.from
  {
    if steps != [] {
      hide S.Next, Valid, Grown;
      var before := S.Run(s, steps[..|steps| - 1]);
      SubscribedStoreGrows(s, steps[..|steps| - 1]);
      StepGrows(before, steps[|steps| - 1]);
      GrownTwice(s.store, before.store, S.Run(s, steps).store);
    }
  }

  lemma {:induction false} OrderlyDoesNotCompact(home: string -> string, s: S.State, steps: seq<S.Step>)
    requires D.OrderlyRun(home, s, steps)
    ensures forall i | 0 <= i < |steps| :: !steps[i].CompactLog?
  {
    hide S.Run;
    if steps != [] {
      OrderlyDoesNotCompact(home, s, steps[..|steps| - 1]);
    }
  }

  /** The server does not echo a replica's own mutations. */
  function Forwarded(sent: seq<Row>, replica: string): (r: seq<Row>) {
    Filter(sent, (x: Row) => x.mutation.replicaId != replica)
  }

  predicate NoCompaction(ops: seq<Op>) {
    forall i | 0 <= i < |ops| :: !ops[i].CompactLog?
  }

  /** The subscription of `ns` at `point`, opened after some steps with some pushes in flight. */
  function Subscribed(st: Store, between: seq<Op>, flights: seq<seq<Row>>, ns: string, point: nat): (s: S.State) {
    S.State(ApplyAll(st, between), flights, S.Opened(ns, point))
  }

  /** No compaction since registration, pushes to the namespace one after the other, ids at home. */
  ghost predicate Session(home: string -> string, st: Store, between: seq<Op>, flights: seq<seq<Row>>,
                          ns: string, point: nat, steps: seq<S.Step>) {
    && NoCompaction(between)
    && D.Conforms(home, ApplyAll(st, between).rows)
    && (forall k | 0 <= k < |flights| :: forall m | m in flights[k] :: D.Backed(ApplyAll(st, between).rows, m))
    && D.OrderlyRun(home, Subscribed(st, between, flights, ns, point), steps)
  }

  lemma SessionIsSound(home: string -> string, st: Store, between: seq<Op>, flights: seq<seq<Row>>,
                       ns: string, point: nat, steps: seq<S.Step>)
    requires Valid(st) && Session(home, st, between, flights, ns, point, steps)
    ensures var s := S.Run(Subscribed(st, between, flights, ns, point), steps);
      && D.Inv(home, s) && D.GapFree(s)
      && Grown(st, s.store) && s.sub.ns == ns && s.sub.from == point
  {
    hide S.Run, ApplyAll, D.Inv, D.OrderlyRun, D.Conforms, D.Backed, Valid, Grown;
    var later := ApplyAll(st, between);
    var s0 := Subscribed(st, between, flights, ns, point);
    WithoutCompactionGrows(st, between);
    D.OpenedInv(home, later, flights, ns, point);
    D.SubscriptionIsGapFree(home, s0, steps);
    OrderlyDoesNotCompact(home, s0, steps);
    SubscribedStoreGrows(s0, steps);
    GrownTwice(st, later, S.Run(s0, steps).store);
  }

  /** What the replica has: forwarded to it, written by it, or under a snapshot it was sent. */
  predicate Has(sent: seq<Row>, replica: string, snapshots: map<RecordKey, nat>, r: Row) {
    r in Forwarded(sent, replica) || r.mutation.replicaId == replica || Covered(snapshots, r)
  }

  /**
   Bootstrap end to end. A replica registers at `cursor`, then subscribes there after any
   pushes and snapshots but no compaction, and the subscription runs without overlapping
   pushes. The replica has every mutation accepted above the cursor up to what has been
   delivered, and every one without limit once the subscription is idle.
   */
  lemma BootstrapIsComplete(home: string -> string, atRegister: Store, between: seq<Op>,
                            flights: seq<seq<Row>>, ns: string, cursor: nat, steps: seq<S.Step>, replica: string)
    requires Valid(atRegister) && NoLoss(atRegister)
    requires Session(home, atRegister, between, flights, ns, cursor, steps)
    ensures var s := S.Run(Subscribed(atRegister, between, flights, ns, cursor), steps);
      forall r | r in s.store.accepted && InRange(r, ns, cursor, s.sub.lastSent) ::
        Has(s.sub.sent, replica, Registered(atRegister, ns, cursor), r)
    ensures var s := S.Run(Subscribed(atRegister, between, flights, ns, cursor), steps);
      D.Idle(s) ==> forall r | r in s.store.accepted && r.namespace == ns && r.sequence > cursor ::
        Has(s.sub.sent, replica, Registered(atRegister, ns, cursor), r)
  {
    hide S.Run, Subscribed, Session, D.Inv, Valid, Grown, NoLoss, Registered;
    var s := S.Run(Subscribed(atRegister, between, flights, ns, cursor), steps);
    SessionIsSound(home, atRegister, between, flights, ns, cursor, steps);
    if D.Idle(s) {
      D.IdleIsComplete(home, s);
    }
    forall r | r in s.store.accepted && r.namespace == ns && r.sequence > cursor
      ensures r.sequence <= s.sub.lastSent || D.Idle(s) ==>
        Has(s.sub.sent, replica, Registered(atRegister, ns, cursor), r)
    {
      RegisteredOrLogged(atRegister, s.store, ns, cursor, r);
    }
  }

  // ---- the maximum sequence a coordinator reports ----

  ghost function MaxOrZero(s: set<nat>): (m: nat)
    ensures forall x | x in s :: x <= m
    ensures if s == {} then m == 0 else m in s
  {
    if s == {} then 0
    else
      var x :| x in s;
      var m := MaxOrZero(s - {x});
      assert forall y | y in s :: y == x || y in s - {x};
      if m < x then x else m
  }

  /** Some text that is not in the set: one longer than all of it. */
  lemma FreshText(taken: set<string>) returns (x: string)
    ensures x !in taken
  {
    var lengths := set t | t in taken :: |t|;
    assert forall t | t in taken :: |t| in lengths;
    x := seq(MaxOrZero(lengths) + 1, _ => 'x');
  }

  lemma NotStored(rows: seq<Row>, ids: set<string>, id: string)
    requires ids == (set r | r in rows :: r.mutation.id) && id !in ids
    ensures !HasId(rows, id)
  {
    assert forall r | r in rows :: r.mutation.id in ids;
  }

  /** The larger of the maxima over the namespace's rows and snapshots; 0 when there are none. */
  ghost function MaxSequence(st: Store, ns: string): (m: nat) {
    MaxOrZero((set r | r in st.rows && r.namespace == ns :: r.sequence)
            + (set k | k in st.snapshots && k.namespace == ns :: st.snapshots[k]))
  }

  ghost function LastAssigned(st: Store, ns: string): (m: nat)
    ensures forall r | r in st.accepted && r.namespace == ns :: r.sequence <= m
  {
    var all := set r | r in st.accepted && r.namespace == ns :: r.sequence;
    assert forall r | r in st.accepted && r.namespace == ns :: r.sequence in all;
    MaxOrZero(all)
  }

  datatype CursorValidation = Unknown | Accepted | Rejected

  function ValidateCursor(serverMax: nat, cursor: nat): (v: CursorValidation) {
    if serverMax == 0 then Unknown else if serverMax >= cursor then Accepted else Rejected
  }

  /** The maximum covers every sequence ever assigned, and is exact unless a snapshot claims more. */
  lemma MaxSequenceCovers(st: Store, ns: string)
    requires Valid(st) && NoLoss(st)
    ensures LastAssigned(st, ns) <= MaxSequence(st, ns)
    ensures MaxSequence(st, ns) == LastAssigned(st, ns)
       <==> forall k | k in st.snapshots && k.namespace == ns :: st.snapshots[k] <= LastAssigned(st, ns)
  {
    var rows := set r | r in st.rows && r.namespace == ns :: r.sequence;
    var snaps := set k | k in st.snapshots && k.namespace == ns :: st.snapshots[k];
    var all := set r | r in st.accepted && r.namespace == ns :: r.sequence;
    var last := LastAssigned(st, ns);
    if last in all {
      var r :| r in st.accepted && r.namespace == ns && r.sequence == last;
      if r in st.rows {
        assert last in rows;
      } else {
        assert st.snapshots[KeyOf(r)] in snaps;
      }
    }
    forall k | k in st.snapshots && k.namespace == ns ensures st.snapshots[k] <= MaxSequence(st, ns) {
      assert st.snapshots[k] in snaps;
    }
    assert rows <= all;
  }

  /** In every run a cursor taken from any assigned sequence keeps validating. */
  lemma CursorStaysValid(st: Store, ops: seq<Op>, ns: string, r: Row)
    requires Valid(st) && NoLoss(st) && MonotoneRun(st, ops)
    requires r in ApplyAll(st, ops).accepted && r.namespace == ns
    ensures r.sequence <= MaxSequence(ApplyAll(st, ops), ns)
    ensures ValidateCursor(MaxSequence(ApplyAll(st, ops), ns), r.sequence) == Accepted
  {
    NothingAcceptedIsLost(st, ops);
    AssignedBelowMax(ApplyAll(st, ops), r);
  }

  lemma AssignedBelowMax(st: Store, r: Row)
    requires Valid(st) && NoLoss(st) && r in st.accepted
    ensures 0 < r.sequence <= MaxSequence(st, r.namespace)
  {
    MaxSequenceCovers(st, r.namespace);
  }
}
