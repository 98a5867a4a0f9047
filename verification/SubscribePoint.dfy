/**
 Where a registered replica may subscribe. Above its cursor it skips rows for good, unless
 all of them, and all that can still be committed there, lie under snapshots it was sent.
 */
module SubscribePoint {
  import opened Bootstrap
  import opened Compaction
  import opened MutationLog
  import opened Prelude
  import opened Sequences
  import D = SqliteDelivery
  import O = SqliteOverlap
  import R = RetriedPush
  import S = SqliteSubscription

  /** Everything accepted above the cursor was sent, or lies under a snapshot sent on registration. */
  ghost predicate Reached(st: Store, s: S.State, ns: string, cursor: nat) {
    forall r | r in s.store.accepted && r.namespace == ns && r.sequence > cursor ::
      r in s.sub.sent || Covered(Registered(st, ns, cursor), r)
  }

  /**
   A replica that registers at `cursor` and subscribes at `point` misses nothing: every session
   that comes to rest has reached everything.
   */
  ghost predicate SubscribePointSafe(st: Store, ns: string, cursor: nat, point: nat) {
    forall home, between, flights, steps |
      && Session(home, st, between, flights, ns, point, steps)
      && D.Idle(S.Run(Subscribed(st, between, flights, ns, point), steps)) ::
      Reached(st, S.Run(Subscribed(st, between, flights, ns, point), steps), ns, cursor)
  }

  /** The rows skipped are covered, and no later commit can land at or below the point. */
  predicate SkipsNothing(st: Store, ns: string, cursor: nat, point: nat) {
    && (forall r | r in st.rows && InRange(r, ns, cursor, point) :: Covered(st.snapshots, r))
    && point <= Max(cursor, st.last)
  }

  lemma SkippingNothingReaches(home: string -> string, st: Store, between: seq<Op>, flights: seq<seq<Row>>,
                               ns: string, cursor: nat, point: nat, steps: seq<S.Step>)
    requires Valid(st) && NoLoss(st) && SkipsNothing(st, ns, cursor, point)
    requires Session(home, st, between, flights, ns, point, steps)
    requires D.Idle(S.Run(Subscribed(st, between, flights, ns, point), steps))
    ensures Reached(st, S.Run(Subscribed(st, between, flights, ns, point), steps), ns, cursor)
  {
    hide S.Run, Subscribed, Session, D.Inv, Valid, NoLoss;
    var s := S.Run(Subscribed(st, between, flights, ns, point), steps);
    SessionIsSound(home, st, between, flights, ns, point, steps);
    D.IdleIsComplete(home, s);
    forall r | r in s.store.accepted && r.namespace == ns && r.sequence > cursor
      ensures r in s.sub.sent || Covered(Registered(st, ns, cursor), r)
    {
      RegisteredOrLogged(st, s.store, ns, cursor, r);
      if r in s.store.rows && r.sequence <= point {
        assert r in st.rows && InRange(r, ns, cursor, point);
      }
    }
  }

  // ---- coming to rest ----

  function Total(flights: seq<seq<Row>>): (n: nat) {
    if flights == [] then 0 else Total(flights[..|flights| - 1]) + |flights[|flights| - 1]|
  }

  lemma {:induction false} TotalDrops(flights: seq<seq<Row>>, i: nat)
    requires i < |flights| && flights[i] != []
    ensures Total(flights[i := flights[i][1..]]) == Total(flights) - 1
  {
    var n := |flights| - 1;
    var shorter := flights[i := flights[i][1..]];
    if i < n {
      TotalDrops(flights[..n], i);
      assert shorter[..n] == flights[..n][i := flights[i][1..]];
    } else {
      assert shorter[..n] == flights[..n];
    }
  }

  /** The next thing that can happen without a push. */
  function NextMove(s: S.State, i: nat): (step: S.Step) {
    if s.sub.querying then S.RunQuery
    else if s.sub.buffer != [] then S.Deliver
    else if s.sub.lagged || s.sub.queue != [] then S.Receive
    else S.Broadcast(i)
  }

  /** From every state the channel and the subscriber can come to rest, and the store is as it was. */
  lemma {:induction false} ComesToRest(s: S.State) returns (steps: seq<S.Step>)
    ensures O.ChannelOnly(steps) && D.Idle(S.Run(s, steps)) && S.Run(s, steps).store == s.store
    decreases Total(s.flights), |s.sub.queue|, s.sub.lagged, s.sub.querying, |s.sub.buffer|
  {
    if D.Idle(s) {
      steps := [];
      return;
    }
    var i := 0;
    if !D.RequeryDue(s) && s.sub.buffer == [] && s.sub.queue == [] {
      i :| 0 <= i < |s.flights| && s.flights[i] != [];
      TotalDrops(s.flights, i);
    }
    var step := NextMove(s, i);
    var s' := S.Next(s, step);
    var rest := ComesToRest(s');
    steps := [step] + rest;
    RunCons(s, step, rest);
  }

  lemma {:induction false} RunCons(s: S.State, x: S.Step, steps: seq<S.Step>)
    ensures S.Run(s, [x] + steps) == S.Run(S.Next(s, x), steps)
  {
    hide S.Next;
    O.RunConcat(s, [x], steps);
    S.RunSnoc(s, [], x);
    assert [] + [x] == [x];
  }

  lemma {:induction false} ChannelIsOrderly(home: string -> string, s: S.State, first: seq<S.Step>, steps: seq<S.Step>)
    requires D.OrderlyRun(home, s, first) && O.ChannelOnly(steps)
    ensures D.OrderlyRun(home, s, first + steps)
  {
    hide S.Run;
    if steps == [] {
      assert first + steps == first;
    } else {
      var front, last := steps[..|steps| - 1], steps[|steps| - 1];
      ChannelIsOrderly(home, s, first, front);
      ConcatSnoc(first, steps);
      assert (first + steps)[..|first + steps| - 1] == first + front;
    }
  }

  /** After steps of its own a session can come to rest with the log it then has. */
  lemma SessionRests(home: string -> string, st: Store, ns: string, point: nat, first: seq<S.Step>)
    returns (steps: seq<S.Step>)
    requires Session(home, st, [], [], ns, point, first)
    ensures Session(home, st, [], [], ns, point, steps)
    ensures D.Idle(S.Run(Subscribed(st, [], [], ns, point), steps))
    ensures S.Run(Subscribed(st, [], [], ns, point), steps).store == S.Run(Subscribed(st, [], [], ns, point), first).store
  {
    hide S.Run, Subscribed, D.Idle, D.OrderlyRun;
    var s0 := Subscribed(st, [], [], ns, point);
    var rest := ComesToRest(S.Run(s0, first));
    steps := first + rest;
    ChannelIsOrderly(home, s0, first, rest);
    O.RunConcat(s0, first, rest);
  }

  /** A row at or below the point is not sent, so it must be covered. */
  lemma SkippedRowIsCovered(home: string -> string, st: Store, ns: string, cursor: nat, point: nat,
                            first: seq<S.Step>, r: Row)
    requires Valid(st) && SubscribePointSafe(st, ns, cursor, point)
    requires Session(home, st, [], [], ns, point, first)
    requires r in S.Run(Subscribed(st, [], [], ns, point), first).store.rows && InRange(r, ns, cursor, point)
    ensures Covered(Registered(st, ns, cursor), r)
  {
    hide S.Run, Subscribed, Session, D.Idle;
    var steps := SessionRests(home, st, ns, point, first);
    SessionIsSound(home, st, [], [], ns, point, steps);
    var s := S.Run(Subscribed(st, [], [], ns, point), steps);
    assert Reached(st, s, ns, cursor);
    assert r in s.store.accepted;
    assert r !in s.sub.sent;
  }

  // ---- a commit below the point ----

  function Filler(id: string): (m: Mutation) {
    Mutation(id, "", "", "", [], 0, 0)
  }

  /** A batch that puts a new row of a record without snapshot at the given distance above the log. */
  lemma LateBatch(st: Store, ns: string, distance: nat) returns (batch: seq<Mutation>, m: Mutation)
    ensures Row(st.last + distance + 1, ns, m) in InsertAll(st, Tag(ns, batch)).rows
    ensures RecordKey(ns, m.docId, m.recordId) !in st.snapshots
    ensures forall x | x in batch :: !HasId(st.rows, x.id)
  {
    var ids := set r | r in st.rows :: r.mutation.id;
    var idA := FreshText(ids);
    var idB := FreshText(ids + {idA});
    var docs := set k | k in st.snapshots :: k.docId;
    var doc := FreshText(docs);
    m := Mutation(idB, "", doc, "", [], 0, 0);
    var fillers := seq(distance, _ => Filler(idA));
    batch := fillers + [m];
    NotStored(st.rows, ids, idA);
    NotStored(st.rows, ids, idB);
    var items := Tag(ns, fillers);
    assert Tag(ns, batch) == items + [Item(ns, m)];
    assert !R.HasItem(items, idB);
    R.IdsCome(st, items, idB);
    R.InsertFresh(st, items, Item(ns, m));
    assert forall k | k in st.snapshots :: k.docId in docs;
    LateBatchIsNew(st, idA, idB, batch, m);
  }

  lemma LateBatchIsNew(st: Store, idA: string, idB: string, batch: seq<Mutation>, m: Mutation)
    requires !HasId(st.rows, idA) && !HasId(st.rows, idB)
    requires m.id == idB && forall i | 0 <= i < |batch| :: batch[i] == m || batch[i] == Filler(idA)
    ensures forall x | x in batch :: !HasId(st.rows, x.id)
  {
  }

  lemma PointIsWithinTheLog(home: string -> string, st: Store, ns: string, cursor: nat, point: nat)
    requires Valid(st) && D.Conforms(home, st.rows)
    requires SubscribePointSafe(st, ns, cursor, point)
    ensures point <= Max(cursor, st.last)
  {
    hide S.Run, Subscribed, Session, SubscribePointSafe;
    var top := Max(cursor, st.last);
    if point > top {
      var batch, m := LateBatch(st, ns, top - st.last);
      var first := [S.Commit(ns, batch)];
      var late := Row(top + 1, ns, m);
      CommitIsSession(home, st, ns, point, batch);
      SkippedRowIsCovered(NewHome(home, st, ns), st, ns, cursor, point, first, late);
    }
  }

  /** Ids not yet stored may be taken to belong to `ns`. */
  function NewHome(home: string -> string, st: Store, ns: string): (h: string -> string) {
    (id: string) => if HasId(st.rows, id) then home(id) else ns
  }

  lemma CommitIsSession(home: string -> string, st: Store, ns: string, point: nat, batch: seq<Mutation>)
    requires D.Conforms(home, st.rows) && forall x | x in batch :: !HasId(st.rows, x.id)
    ensures Session(NewHome(home, st, ns), st, [], [], ns, point, [S.Commit(ns, batch)])
    ensures S.Run(Subscribed(st, [], [], ns, point), [S.Commit(ns, batch)]).store == InsertAll(st, Tag(ns, batch))
  {
    var h, s0, steps := NewHome(home, st, ns), Subscribed(st, [], [], ns, point), [S.Commit(ns, batch)];
    assert steps[..0] == [];
    assert s0.store == st;
    forall r | r in st.rows ensures h(r.mutation.id) == r.namespace {
      assert HasId(st.rows, r.mutation.id);
    }
    assert D.OrderlyRun(h, s0, []);
    assert D.OrderlyRun(h, s0, steps);
  }

  lemma NoStepsIsSession(home: string -> string, st: Store, ns: string, point: nat)
    requires D.Conforms(home, st.rows)
    ensures Session(home, st, [], [], ns, point, [])
    ensures S.Run(Subscribed(st, [], [], ns, point), []).store == st
  {
  }

  /**
   Subscribing at `point` is safe exactly when every row it skips is covered and no later commit
   can land at or below it.
   */
  lemma SubscribePointSafeIff(home: string -> string, st: Store, ns: string, cursor: nat, point: nat)
    requires Valid(st) && NoLoss(st) && D.Conforms(home, st.rows)
    ensures SubscribePointSafe(st, ns, cursor, point) <==> SkipsNothing(st, ns, cursor, point)
  {
    hide Session, Subscribed, S.Run, D.Idle, Reached;
    if SkipsNothing(st, ns, cursor, point) {
      forall h, between, flights, steps |
        && Session(h, st, between, flights, ns, point, steps)
        && D.Idle(S.Run(Subscribed(st, between, flights, ns, point), steps))
        ensures Reached(st, S.Run(Subscribed(st, between, flights, ns, point), steps), ns, cursor)
      {
        SkippingNothingReaches(h, st, between, flights, ns, cursor, point, steps);
      }
    } else if SubscribePointSafe(st, ns, cursor, point) {
      PointIsWithinTheLog(home, st, ns, cursor, point);
      NoStepsIsSession(home, st, ns, point);
      forall r | r in st.rows && InRange(r, ns, cursor, point) ensures Covered(st.snapshots, r) {
        SkippedRowIsCovered(home, st, ns, cursor, point, [], r);
      }
      assert false;
    }
  }

  // ---- the documented point ----

  /** The largest registered snapshot can lie above a row of another record. */
  lemma LargestSnapshotSkipsRow(ns: string, a: Mutation, b: Mutation)
    requires a.id != b.id && a.docId != b.docId
    ensures var st := ApplyAll(EMPTY, [Push(ns, [a, b]), Snapshot(RecordKey(ns, b.docId, b.recordId), 2)]);
      var s := S.Run(Subscribed(st, [], [], ns, 2), [S.RunQuery]);
      && Registered(st, ns, 0) == map[RecordKey(ns, b.docId, b.recordId) := 2]
      && D.Idle(s) && s.sub.sent == []
      && Row(1, ns, a) in s.store.rows && !Covered(st.snapshots, Row(1, ns, a))
  {
    var key := RecordKey(ns, b.docId, b.recordId);
    ApplyTwo(EMPTY, Push(ns, [a, b]), Snapshot(key, 2));
    TwoInserts(ns, a, b);
    var st := Apply(Apply(EMPTY, Push(ns, [a, b])), Snapshot(key, 2));
    assert st.rows == [Row(1, ns, a), Row(2, ns, b)] && st.snapshots == map[key := 2];
    QuietQuery(st, ns, 2);
  }

  lemma QuietQuery(st: Store, ns: string, point: nat)
    requires forall r | r in st.rows :: r.sequence <= point
    ensures S.Run(Subscribed(st, [], [], ns, point), [S.RunQuery])
         == S.State(st, [], S.Opened(ns, point).(querying := false))
  {
    hide S.Run;
    var s0 := Subscribed(st, [], [], ns, point);
    O.RunNone(s0);
    S.RunSnoc(s0, [], S.RunQuery);
    assert [] + [S.RunQuery] == [S.RunQuery];
    FilterExtremes(st.rows, (x: Row) => x.namespace == ns && x.sequence > point);
  }

  /** A snapshot that claims a sequence above the log hides the rows committed below it later. */
  lemma LargestSnapshotSkipsLaterRow(ns: string, key: RecordKey, m: Mutation)
    requires key.namespace == ns && key != RecordKey(ns, m.docId, m.recordId)
    ensures var st := ApplyAll(EMPTY, [Snapshot(key, 10)]);
      var s := S.Run(Subscribed(st, [], [], ns, 10), [S.RunQuery] + [S.Commit(ns, [m]), S.Broadcast(0), S.Receive]);
      && Registered(st, ns, 0) == map[key := 10]
      && D.Idle(s) && s.sub.sent == []
      && s.store.rows == [Row(1, ns, m)] && !Covered(st.snapshots, Row(1, ns, m))
  {
    hide S.Run;
    var ops := [Snapshot(key, 10)];
    var st := StoreSnapshot(EMPTY, key, 10);
    assert ops[..0] == [] && ApplyAll(EMPTY, ops) == st;
    QuietQuery(st, ns, 10);
    var s0, s1 := Subscribed(st, [], [], ns, 10), S.State(st, [], S.Opened(ns, 10).(querying := false));
    var row := Row(1, ns, m);
    O.RunConcat(s0, [S.RunQuery], [S.Commit(ns, [m]), S.Broadcast(0), S.Receive]);
    O.RunThree(s1, S.Commit(ns, [m]), S.Broadcast(0), S.Receive);
    O.CommitOne(s1, ns, m);
    var s2 := S.Next(s1, S.Commit(ns, [m]));
    assert s2 == S.State(s2.store, [[row]], s1.sub);
    assert [row][1..] == [];
    var s3 := S.Next(s2, S.Broadcast(0));
    assert s3 == S.State(s2.store, [[]], s1.sub.(queue := [row]));
    var s4 := S.Next(s3, S.Receive);
    assert s4 == S.State(s2.store, [[]], s1.sub);
  }

  lemma ApplyTwo(st: Store, a: Op, b: Op)
    ensures ApplyAll(st, [a, b]) == Apply(Apply(st, a), b)
  {
    hide Apply;
    assert [a, b][..1] == [a] && [a][..0] == [];
    assert ApplyAll(st, [a]) == Apply(st, a);
  }

  lemma TwoInserts(ns: string, a: Mutation, b: Mutation)
    requires a.id != b.id
    ensures InsertAll(EMPTY, Tag(ns, [a, b])).rows == [Row(1, ns, a), Row(2, ns, b)]
  {
    InsertAllSnoc(EMPTY, [], Item(ns, a));
    InsertAllSnoc(EMPTY, [Item(ns, a)], Item(ns, b));
    assert [] + [Item(ns, a)] == [Item(ns, a)] && [Item(ns, a)] + [Item(ns, b)] == Tag(ns, [a, b]);
    assert InsertAll(EMPTY, [Item(ns, a)]).rows == [Row(1, ns, a)];
  }
}
