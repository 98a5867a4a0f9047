/**
 What a registering replica is sent: of all snapshots exactly those it may need, and of the log
 exactly what others wrote.
 */
module Registration {
  import opened Bootstrap
  import opened Compaction
  import opened MutationLog
  import opened Prelude
  import opened Sequences
  import D = SqliteDelivery
  import G = SnapshotGuard
  import P = SubscribePoint
  import S = SqliteSubscription

  /** The snapshots of the chosen records. */
  function Chosen(table: map<RecordKey, nat>, keys: set<RecordKey>): (m: map<RecordKey, nat>) {
    map k | k in table && k in keys :: table[k]
  }

  /** At rest the replica has everything accepted above its cursor. */
  ghost predicate HasAll(s: S.State, replica: string, snapshots: map<RecordKey, nat>, ns: string, cursor: nat) {
    forall r | r in s.store.accepted && r.namespace == ns && r.sequence > cursor ::
      Has(s.sub.sent, replica, snapshots, r)
  }

  /**
   Sending the snapshots of `keys` is enough: whatever run led to the snapshot table, every replica
   in every session that comes to rest has everything above the cursor.
   */
  ghost predicate Suffices(table: map<RecordKey, nat>, keys: set<RecordKey>, ns: string, cursor: nat) {
    forall ops, home, between, flights, steps, replica |
      && MonotoneRun(EMPTY, ops) && ApplyAll(EMPTY, ops).snapshots == table
      && Session(home, ApplyAll(EMPTY, ops), between, flights, ns, cursor, steps)
      && D.Idle(S.Run(Subscribed(ApplyAll(EMPTY, ops), between, flights, ns, cursor), steps)) ::
      HasAll(S.Run(Subscribed(ApplyAll(EMPTY, ops), between, flights, ns, cursor), steps), replica,
             Chosen(table, keys), ns, cursor)
  }

  lemma MoreIsEnough(s: S.State, replica: string, few: map<RecordKey, nat>, many: map<RecordKey, nat>,
                     ns: string, cursor: nat)
    requires HasAll(s, replica, few, ns, cursor) && forall k | k in few :: k in many && many[k] == few[k]
    ensures HasAll(s, replica, many, ns, cursor)
  {
  }

  lemma RegisteredIsEnough(st: Store, keys: set<RecordKey>, ns: string, cursor: nat, home: string -> string,
                           between: seq<Op>, flights: seq<seq<Row>>, steps: seq<S.Step>, replica: string)
    requires Valid(st) && NoLoss(st) && Session(home, st, between, flights, ns, cursor, steps)
    requires D.Idle(S.Run(Subscribed(st, between, flights, ns, cursor), steps))
    requires forall k | k in Registered(st, ns, cursor) :: k in keys
    ensures HasAll(S.Run(Subscribed(st, between, flights, ns, cursor), steps), replica,
                   Chosen(st.snapshots, keys), ns, cursor)
  {
    hide S.Run, Session, Subscribed, D.Idle, Has;
    BootstrapIsComplete(home, st, between, flights, ns, cursor, steps, replica);
    MoreIsEnough(S.Run(Subscribed(st, between, flights, ns, cursor), steps), replica,
                 Registered(st, ns, cursor), Chosen(st.snapshots, keys), ns, cursor);
  }

  /** A session in which a row of the record is gone from the log and was never sent. */
  lemma RowOnlyInSnapshot(table: map<RecordKey, nat>, key: RecordKey, cursor: nat)
    returns (ops: seq<Op>, steps: seq<S.Step>, home: string -> string, lost: Row)
    requires key in table && table[key] > cursor
    ensures MonotoneRun(EMPTY, ops) && ApplyAll(EMPTY, ops).snapshots == table
    ensures Session(home, ApplyAll(EMPTY, ops), [], [], key.namespace, cursor, steps)
    ensures KeyOf(lost) == key && lost.sequence > cursor
    ensures var s := S.Run(Subscribed(ApplyAll(EMPTY, ops), [], [], key.namespace, cursor), steps);
      D.Idle(s) && s.sub.sent == [] && lost in s.store.accepted
  {
    hide S.Run, Session, Subscribed, D.Idle, ApplyAll, MonotoneRun;
    var n := table[key];
    ops, lost := G.RunWithLostRow(Store([], n, table, {}), key, n);
    var st := ApplyAll(EMPTY, ops);
    NothingAcceptedIsLost(EMPTY, ops);
    home := (_: string) => key.namespace;
    P.NoStepsIsSession(home, st, key.namespace, cursor);
    steps := P.SessionRests(home, st, key.namespace, cursor, []);
    SessionIsSound(home, st, [], [], key.namespace, cursor, steps);
  }

  lemma MissesRow(s: S.State, replica: string, snapshots: map<RecordKey, nat>, lost: Row, cursor: nat)
    requires s.sub.sent == [] && lost in s.store.accepted && lost.sequence > cursor
    requires KeyOf(lost) !in snapshots && replica != lost.mutation.replicaId
    ensures !HasAll(s, replica, snapshots, lost.namespace, cursor)
  {
  }

  /**
   The snapshots sent on registration are the least that suffice: those of the namespace above the
   cursor. Without any one of them some replica would miss a row for good.
   */
  lemma RegisteredIsLeast(st: Store, keys: set<RecordKey>, ns: string, cursor: nat)
    ensures Suffices(st.snapshots, keys, ns, cursor) <==> forall k | k in Registered(st, ns, cursor) :: k in keys
    ensures forall k | k in Registered(st, ns, cursor) :: k.namespace == ns && st.snapshots[k] > cursor
  {
    hide S.Run, Session, Subscribed, D.Idle, ApplyAll, MonotoneRun, HasAll;
    if forall k | k in Registered(st, ns, cursor) :: k in keys {
      forall ops, home, between, flights, steps, replica |
        && MonotoneRun(EMPTY, ops) && ApplyAll(EMPTY, ops).snapshots == st.snapshots
        && Session(home, ApplyAll(EMPTY, ops), between, flights, ns, cursor, steps)
        && D.Idle(S.Run(Subscribed(ApplyAll(EMPTY, ops), between, flights, ns, cursor), steps))
        ensures HasAll(S.Run(Subscribed(ApplyAll(EMPTY, ops), between, flights, ns, cursor), steps), replica,
                       Chosen(st.snapshots, keys), ns, cursor)
      {
        NothingAcceptedIsLost(EMPTY, ops);
        RegisteredIsEnough(ApplyAll(EMPTY, ops), keys, ns, cursor, home, between, flights, steps, replica);
      }
    } else {
      var key :| key in Registered(st, ns, cursor) && key !in keys;
      var ops, steps, home, lost := RowOnlyInSnapshot(st.snapshots, key, cursor);
      var replica := lost.mutation.replicaId + "x";
      MissesRow(S.Run(Subscribed(ApplyAll(EMPTY, ops), [], [], ns, cursor), steps), replica,
                Chosen(st.snapshots, keys), lost, cursor);
    }
  }

  /** At rest a replica was forwarded exactly what others wrote to the log above its cursor, in order. */
  lemma ForwardedIsOthersLog(home: string -> string, st: Store, between: seq<Op>, flights: seq<seq<Row>>,
                             ns: string, cursor: nat, steps: seq<S.Step>, replica: string)
    requires Valid(st) && Session(home, st, between, flights, ns, cursor, steps)
    requires D.Idle(S.Run(Subscribed(st, between, flights, ns, cursor), steps))
    ensures var s := S.Run(Subscribed(st, between, flights, ns, cursor), steps);
      Forwarded(s.sub.sent, replica) ==
        Filter(s.store.rows, (x: Row) => x.namespace == ns && x.sequence > cursor && x.mutation.replicaId != replica)
  {
    hide S.Run, Session, Subscribed, D.Idle;
    var s := S.Run(Subscribed(st, between, flights, ns, cursor), steps);
    SessionIsSound(home, st, between, flights, ns, cursor, steps);
    D.IdleIsComplete(home, s);
    FilterTwice(s.store.rows, (x: Row) => x.namespace == ns && x.sequence > cursor,
                (x: Row) => x.mutation.replicaId != replica,
                (x: Row) => x.namespace == ns && x.sequence > cursor && x.mutation.replicaId != replica);
  }

  // ---- the answer to a cursor ----

  /** No row that remains of the namespace and no snapshot of it reaches the sequence. */
  predicate NothingReaches(st: Store, ns: string, n: nat) {
    && (forall r | r in st.rows && r.namespace == ns :: r.sequence < n)
    && (forall k | k in st.snapshots && k.namespace == ns :: st.snapshots[k] < n)
  }

  lemma MaxReachesIff(st: Store, ns: string, n: nat)
    requires n > 0
    ensures MaxSequence(st, ns) < n <==> NothingReaches(st, ns, n)
  {
    var rows := set r | r in st.rows && r.namespace == ns :: r.sequence;
    var snaps := set k | k in st.snapshots && k.namespace == ns :: st.snapshots[k];
    assert forall r | r in st.rows && r.namespace == ns :: r.sequence in rows + snaps;
    assert forall k | k in st.snapshots && k.namespace == ns :: st.snapshots[k] in rows + snaps;
    var m := MaxSequence(st, ns);
    assert rows + snaps != {} ==> m in rows || m in snaps;
  }

  /**
   The answer to a cursor, for every log: unknown when no row remains and no snapshot is above 0,
   otherwise rejected exactly when it is above everything that remains.
   */
  lemma CursorAnswerIff(st: Store, ns: string, cursor: nat)
    requires Valid(st)
    ensures var v := ValidateCursor(MaxSequence(st, ns), cursor);
      && (v == Unknown <==> (forall r | r in st.rows :: r.namespace != ns)
                            && (forall k | k in st.snapshots && k.namespace == ns :: st.snapshots[k] == 0))
      && (v == Rejected <==> v != Unknown && NothingReaches(st, ns, cursor))
      && (v == Accepted <==> v != Unknown && !NothingReaches(st, ns, cursor))
  {
    MaxReachesIff(st, ns, 1);
    if cursor > 0 {
      MaxReachesIff(st, ns, cursor);
    }
  }

  /**
   In every run with something accepted in the namespace, a cursor is rejected exactly when it is
   above every sequence assigned there and every snapshot.
   */
  lemma RejectedIff(st: Store, ops: seq<Op>, ns: string, cursor: nat)
    requires Valid(st) && NoLoss(st) && MonotoneRun(st, ops)
    requires exists r | r in ApplyAll(st, ops).accepted :: r.namespace == ns
    ensures var later := ApplyAll(st, ops);
      ValidateCursor(MaxSequence(later, ns), cursor) == Rejected <==>
        && LastAssigned(later, ns) < cursor
        && (forall k | k in later.snapshots && k.namespace == ns :: later.snapshots[k] < cursor)
  {
    var later := ApplyAll(st, ops);
    NothingAcceptedIsLost(st, ops);
    CursorAnswerIff(later, ns, cursor);
    MaxSequenceCovers(later, ns);
    var r :| r in later.accepted && r.namespace == ns;
    CursorStaysValid(st, ops, ns, r);
  }
}
