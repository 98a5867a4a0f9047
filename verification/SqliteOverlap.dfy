/**
 The converse of gap-freedom: when a push commits while a lower row of the namespace is
 neither sent nor queued nor earlier in the push itself, some order of the remaining
 broadcasts and receives skips that row.
 */
module SqliteOverlap {
  import opened Sequences
  import opened MutationLog
  import opened SqliteSubscription
  import opened SqliteDelivery
  import R = RetriedPush

  /** Only the channel and the subscriber move. */
  predicate ChannelOnly(steps: seq<Step>) {
    forall i | 0 <= i < |steps| :: !steps[i].Commit? && !steps[i].PutSnapshot? && !steps[i].CompactLog?
  }

  function Repeat(step: Step, n: nat): (steps: seq<Step>)
    ensures |steps| == n && forall i | 0 <= i < n :: steps[i] == step
  {
    seq(n, _ => step)
  }

  lemma {:induction false} RunConcat(s: State, a: seq<Step>, b: seq<Step>)
    ensures Run(s, a + b) == Run(Run(s, a), b)
  {
    if b == [] {
      assert a + b == a;
    } else {
      hide Next;
      RunConcat(s, a, b[..|b| - 1]);
      ConcatSnoc(a, b);
      RunSnoc(s, a + b[..|b| - 1], b[|b| - 1]);
    }
  }

  lemma RunRepeat(s: State, step: Step, n: nat)
    ensures Run(s, Repeat(step, n + 1)) == Next(Run(s, Repeat(step, n)), step)
  {
    hide Next;
    RunSnoc(s, Repeat(step, n), step);
    assert Repeat(step, n + 1) == Repeat(step, n) + [step];
  }

  lemma {:induction false} BroadcastMany(s: State, k: nat, n: nat)
    requires k < |s.flights| && n <= |s.flights[k]|
    ensures var s' := Run(s, Repeat(Broadcast(k), n));
      && s'.store == s.store
      && s'.sub == s.sub.(queue := s.sub.queue + s.flights[k][..n])
      && |s'.flights| == |s.flights| && s'.flights[k] == s.flights[k][n..]
  {
    if n > 0 {
      BroadcastMany(s, k, n - 1);
      RunRepeat(s, Broadcast(k), n - 1);
      PrefixSnoc(s.flights[k], n - 1);
    }
  }

  /** `t` is `s` after delivering `n` rows of its buffer. */
  predicate DeliveredSome(s: State, t: State, n: nat)
    requires n <= |s.sub.buffer|
  {
    var sub := s.sub;
    && t.store == s.store
    && t.sub.lastSent >= sub.lastSent
    && t.sub == sub.(lastSent := t.sub.lastSent, sent := sub.sent + sub.buffer[..n], buffer := sub.buffer[n..])
  }

  lemma DeliverOne(s: State, t: State, n: nat)
    requires !s.sub.querying && n < |s.sub.buffer| && DeliveredSome(s, t, n)
    ensures DeliveredSome(s, Next(t, Deliver), n + 1)
  {
    PrefixSnoc(s.sub.buffer, n);
    assert t.sub.buffer[0] == s.sub.buffer[n] && t.sub.buffer[1..] == s.sub.buffer[n + 1..];
  }

  lemma {:induction false} DeliverMany(s: State, n: nat)
    requires !s.sub.querying && n <= |s.sub.buffer|
    ensures DeliveredSome(s, Run(s, Repeat(Deliver, n)), n)
  {
    if n == 0 {
      assert Repeat(Deliver, 0) == [] && s.sub.sent + [] == s.sub.sent;
      return;
    }
    hide Next, DeliveredSome;
    DeliverMany(s, n - 1);
    RunRepeat(s, Deliver, n - 1);
    DeliverOne(s, Run(s, Repeat(Deliver, n - 1)), n - 1);
  }

  /** `t` is `s` after receiving `n` messages of its queue. */
  ghost predicate Received(s: State, t: State, n: nat)
    requires n <= |s.sub.queue|
  {
    && t.store == s.store
    && t.sub == s.sub.(lastSent := t.sub.lastSent, sent := t.sub.sent, queue := s.sub.queue[n..])
    && (forall r | r in t.sub.sent :: r in s.sub.sent || r in s.sub.queue[..n])
    && (forall i | 0 <= i < n && s.sub.queue[i].namespace == s.sub.ns :: s.sub.queue[i].sequence <= t.sub.lastSent)
    && s.sub.lastSent <= t.sub.lastSent
  }

  lemma ReceiveOne(s: State, t: State, n: nat)
    requires !s.sub.querying && !s.sub.lagged && s.sub.buffer == [] && n < |s.sub.queue|
    requires Received(s, t, n)
    ensures Received(s, Next(t, Receive), n + 1)
  {
    PrefixSnoc(s.sub.queue, n);
    assert t.sub.queue[0] == s.sub.queue[n] && t.sub.queue[1..] == s.sub.queue[n + 1..];
  }

  lemma {:induction false} ReceiveMany(s: State, n: nat)
    requires !s.sub.querying && !s.sub.lagged && s.sub.buffer == [] && n <= |s.sub.queue|
    ensures Received(s, Run(s, Repeat(Receive, n)), n)
  {
    if n > 0 {
      hide Next, Received;
      ReceiveMany(s, n - 1);
      RunRepeat(s, Receive, n - 1);
      ReceiveOne(s, Run(s, Repeat(Receive, n - 1)), n - 1);
    }
  }

  /** The schedule: broadcast the push up to its `j`-th message, deliver the buffer, receive the queue. */
  function Schedule(s: State, flight: nat, j: nat): (steps: seq<Step>)
    ensures ChannelOnly(steps)
  {
    Repeat(Broadcast(flight), j + 1) + Repeat(Deliver, |s.sub.buffer|) + Repeat(Receive, |s.sub.queue| + j + 1)
  }

  /** After the schedule, only these rows can have been sent. */
  lemma ScheduleSends(s: State, k: nat, j: nat)
    requires !RequeryDue(s) && k < |s.flights| && j < |s.flights[k]|
    ensures var s' := Run(s, Schedule(s, k, j));
      && s'.store == s.store
      && s'.sub.ns == s.sub.ns && s'.sub.from == s.sub.from
      && (s.flights[k][j].namespace == s.sub.ns ==> s.flights[k][j].sequence <= s'.sub.lastSent)
      && (forall r | r in s'.sub.sent ::
            r in s.sub.sent || r in s.sub.buffer || r in s.sub.queue || r in s.flights[k][..j + 1])
  {
    hide Run, Next, Schedule;
    ScheduleRun(s, k, j);
    BroadcastMany(s, k, j + 1);
    PrefixSnoc(s.flights[k], j);
    AfterBroadcast(Run(s, Repeat(Broadcast(k), j + 1)), s.sub.queue, s.flights[k][..j], s.flights[k][j],
                   |s.sub.buffer|, |s.sub.queue| + j + 1);
  }

  lemma ScheduleRun(s: State, k: nat, j: nat)
    ensures Run(s, Schedule(s, k, j))
         == Run(Run(Run(s, Repeat(Broadcast(k), j + 1)), Repeat(Deliver, |s.sub.buffer|)),
                Repeat(Receive, |s.sub.queue| + j + 1))
  {
    hide Run;
    var a, b := Repeat(Broadcast(k), j + 1), Repeat(Deliver, |s.sub.buffer|);
    RunConcat(s, a, b);
    RunConcat(s, a + b, Repeat(Receive, |s.sub.queue| + j + 1));
  }

  lemma AfterBroadcast(s: State, queue: seq<Row>, said: seq<Row>, m: Row, toDeliver: nat, toReceive: nat)
    requires !RequeryDue(s) && s.sub.queue == queue + (said + [m])
    requires toDeliver == |s.sub.buffer| && toReceive == |s.sub.queue|
    ensures var s' := Run(Run(s, Repeat(Deliver, toDeliver)), Repeat(Receive, toReceive));
      && s'.store == s.store
      && s'.sub.ns == s.sub.ns && s'.sub.from == s.sub.from
      && (m.namespace == s.sub.ns ==> m.sequence <= s'.sub.lastSent)
      && (forall r | r in s'.sub.sent :: r in s.sub.sent || r in s.sub.buffer || r in queue || r in said + [m])
  {
    hide Run;
    DeliverMany(s, toDeliver);
    ReceiveMany(Run(s, Repeat(Deliver, toDeliver)), toReceive);
    assert s.sub.queue[|queue| + |said|] == m;
  }

  lemma UnsafeCommitLosesRow(home: string -> string, s: State, batch: seq<Mutation>) returns (steps: seq<Step>, r: Row)
    requires Inv(home, s) && ConformingItems(home, Tag(s.sub.ns, batch))
    requires !CommitSafe(s, s.sub.ns, batch)
    ensures ChannelOnly(steps)
    ensures var s' := Run(Next(s, Commit(s.sub.ns, batch)), steps);
      && r in s'.store.rows && InRange(r, s'.sub.ns, s'.sub.from, s'.sub.lastSent)
      && r !in s'.sub.sent
  {
    var items := Tag(s.sub.ns, batch);
    var said := Announcements(items, Acks(s.store, items));
    var s1 := s.(store := InsertAll(s.store, items));
    var j :| 0 <= j < |said| && !Preceded(s1, s.sub.queue + said[..j], said[j]);
    r :| Unsent(s1, r) && Below(r, said[j]) && r !in s.sub.queue + said[..j];
    var c := Next(s, Commit(s.sub.ns, batch));
    assert c.flights[|s.flights|] == said && c.sub == s.sub && c.store == s1.store;
    EffectiveBounds(s, r);
    steps := Schedule(c, |s.flights|, j);
    SkipsRow(c, |s.flights|, j, r);
  }

  /** A row below the `j`-th message of a push that is in none of the places a send takes from. */
  lemma SkipsRow(c: State, k: nat, j: nat, r: Row)
    requires !RequeryDue(c) && k < |c.flights| && j < |c.flights[k]|
    requires c.flights[k][j].namespace == c.sub.ns && r.namespace == c.sub.ns
    requires c.sub.from < r.sequence && Below(r, c.flights[k][j]) && r in c.store.rows
    requires r !in c.sub.sent && r !in c.sub.buffer && r !in c.sub.queue && r !in c.flights[k][..j]
    ensures var s' := Run(c, Schedule(c, k, j));
      r in s'.store.rows && InRange(r, s'.sub.ns, s'.sub.from, s'.sub.lastSent) && r !in s'.sub.sent
  {
    hide Run, Schedule;
    ScheduleSends(c, k, j);
    PrefixSnoc(c.flights[k], j);
  }

  lemma EffectiveBounds(s: State, r: Row)
    requires SentExactly(s) && r.sequence > Effective(s.sub)
    ensures r !in s.sub.sent && r !in s.sub.buffer && r.sequence > s.sub.from
  {
    assert s.sub.buffer != [] ==> s.sub.buffer[|s.sub.buffer| - 1] in s.sub.buffer;
  }

  lemma {:induction false} ChannelStepsKeepInv(home: string -> string, s: State, steps: seq<Step>)
    requires Inv(home, s) && ChannelOnly(steps)
    ensures Inv(home, Run(s, steps))
  {
    if steps != [] {
      ChannelStepsKeepInv(home, s, steps[..|steps| - 1]);
      NextKeepsInv(home, Run(s, steps[..|steps| - 1]), steps[|steps| - 1]);
    }
  }

  /** A commit is free of gaps under every schedule exactly when it is safe. */
  lemma CommitGapFreeIff(home: string -> string, s: State, batch: seq<Mutation>)
    requires Inv(home, s) && ConformingItems(home, Tag(s.sub.ns, batch))
    ensures (forall steps | ChannelOnly(steps) :: GapFree(Run(Next(s, Commit(s.sub.ns, batch)), steps)))
       <==> CommitSafe(s, s.sub.ns, batch)
  {
    var c := Next(s, Commit(s.sub.ns, batch));
    if CommitSafe(s, s.sub.ns, batch) {
      CommitKeepsInv(home, s, s.sub.ns, batch);
      forall steps | ChannelOnly(steps) ensures GapFree(Run(c, steps)) {
        ChannelStepsKeepInv(home, c, steps);
        InvGapFree(home, Run(c, steps));
      }
    } else {
      var steps, r := UnsafeCommitLosesRow(home, s, batch);
      assert !GapFree(Run(c, steps));
    }
  }

  /** Two overlapping pushes of one new row each: the second is received, the first never is. */
  lemma OverlapLosesRow(ns: string, a: Mutation, b: Mutation)
    requires a.id != b.id
    ensures var s := Run(State(EMPTY, [], Opened(ns, 0)),
                         [RunQuery, Commit(ns, [a]), Commit(ns, [b])] + [Broadcast(1), Receive, Broadcast(0), Receive]);
      && s.store.rows == [Row(1, ns, a), Row(2, ns, b)]
      && s.sub.sent == [Row(2, ns, b)]
      && s.sub.queue == [] && s.flights == [[], []]
  {
    RunConcat(State(EMPTY, [], Opened(ns, 0)), [RunQuery, Commit(ns, [a]), Commit(ns, [b])],
              [Broadcast(1), Receive, Broadcast(0), Receive]);
    OverlapCommits(ns, a, b);
    OverlapReceives(Run(State(EMPTY, [], Opened(ns, 0)), [RunQuery, Commit(ns, [a]), Commit(ns, [b])]), ns, a, b);
  }

  /** An id stored in one namespace and pushed to another is announced to a log that does not hold it. */
  lemma ForeignIdMisleads(a: string, b: string, m: Mutation)
    requires a != b
    ensures var s := Run(State(EMPTY, [], Opened(b, 0)),
                         [RunQuery, Commit(a, [m]), Commit(b, [m])] + [Broadcast(1), Receive]);
      s.store.rows == [Row(1, a, m)] && s.sub.sent == [Row(1, b, m)]
  {
    hide Run, Next;
    var s0 := State(EMPTY, [], Opened(b, 0));
    var first, rest := [RunQuery, Commit(a, [m]), Commit(b, [m])], [Broadcast(1), Receive];
    RunConcat(s0, first, rest);
    RunThree(s0, RunQuery, Commit(a, [m]), Commit(b, [m]));
    var s1 := Next(s0, RunQuery);
    FirstQuery(b);
    CommitOne(s1, a, m);
    var s2 := Next(s1, Commit(a, [m]));
    CommitKnown(s2, Row(1, a, m), b);
    ForeignReceive(Next(s2, Commit(b, [m])), Row(1, b, m));
  }

  lemma {:induction false} NewRowsAreOf(st: Store, items: seq<Item>, ns: string)
    requires forall x | x in items :: x.namespace == ns
    ensures forall r | r in InsertAll(st, items).rows && r !in st.rows :: r.namespace == ns
  {
    if items != [] {
      NewRowsAreOf(st, items[..|items| - 1], ns);
    }
  }

  /** A message of a push is backed exactly when the row stored under its id is of the namespace. */
  lemma BackedIff(st: Store, items: seq<Item>, j: nat, q: Row)
    requires Valid(st) && UniqueIds(st.rows) && j < |items|
    requires q in InsertAll(st, items).rows && q.mutation.id == items[j].mutation.id
    ensures Backed(InsertAll(st, items).rows, Announcements(items, Acks(st, items))[j]) <==>
      q.namespace == items[j].namespace
  {
    hide InsertAll, Acks, UniqueIds, HasId;
    var rows, id := InsertAll(st, items).rows, items[j].mutation.id;
    R.AckIsStoredSequence(st, items, j);
    R.LogIsFirstOccurrences(st, items);
    InsertAllExtends(st, items);
    var r :| r in rows && r.mutation.id == id && r.sequence == SequenceOf(rows, id);
    OneRow(rows, q, r);
    var m := Announcements(items, Acks(st, items))[j];
    assert m.sequence == q.sequence && m.namespace == items[j].namespace;
    BackedBy(rows, q, m);
  }

  lemma BackedBy(rows: seq<Row>, q: Row, m: Row)
    requires Ascending(rows) && q in rows && q.sequence == m.sequence
    ensures Backed(rows, m) <==> q.namespace == m.namespace
  {
    assert forall r | r in rows && r.sequence == q.sequence :: r == q;
  }

  lemma OneRow(rows: seq<Row>, q: Row, r: Row)
    requires UniqueIds(rows) && q in rows && r in rows && q.mutation.id == r.mutation.id
    ensures q == r
  {
    var i :| 0 <= i < |rows| && rows[i] == q;
    var j :| 0 <= j < |rows| && rows[j] == r;
  }

  /** A push announces only rows its namespace holds exactly when every known id of it is stored there. */
  lemma AnnouncesOwnRowsIff(st: Store, ns: string, batch: seq<Mutation>)
    requires Valid(st) && UniqueIds(st.rows)
    ensures var items := Tag(ns, batch);
      (forall m | m in Announcements(items, Acks(st, items)) :: Backed(InsertAll(st, items).rows, m)) <==>
      (forall r | r in st.rows && R.HasItem(items, r.mutation.id) :: r.namespace == ns)
  {
    hide InsertAll, Acks, Backed, UniqueIds, Valid;
    var items := Tag(ns, batch);
    var rows, said := InsertAll(st, items).rows, Announcements(items, Acks(st, items));
    if forall r | r in st.rows && R.HasItem(items, r.mutation.id) :: r.namespace == ns {
      forall j | 0 <= j < |said| ensures Backed(rows, said[j]) {
        KnownIsOwn(st, items, ns, j);
      }
    } else {
      var r :| r in st.rows && R.HasItem(items, r.mutation.id) && r.namespace != ns;
      var x :| x in items && x.mutation.id == r.mutation.id;
      var j :| 0 <= j < |items| && items[j] == x;
      InsertAllExtends(st, items);
      BackedIff(st, items, j, r);
      assert said[j] in said;
    }
  }

  lemma KnownIsOwn(st: Store, items: seq<Item>, ns: string, j: nat)
    requires Valid(st) && UniqueIds(st.rows) && j < |items| && forall x | x in items :: x.namespace == ns
    requires forall r | r in st.rows && R.HasItem(items, r.mutation.id) :: r.namespace == ns
    ensures Backed(InsertAll(st, items).rows, Announcements(items, Acks(st, items))[j])
  {
    hide InsertAll, Acks, UniqueIds;
    R.AckIsStoredSequence(st, items, j);
    NewRowsAreOf(st, items, ns);
    var q :| q in InsertAll(st, items).rows && q.mutation.id == items[j].mutation.id;
    assert items[j] in items;
    BackedIff(st, items, j, q);
  }

  lemma ForeignReceive(s: State, row: Row)
    requires s.sub == Opened(row.namespace, 0).(querying := false) && row.sequence > 0
    requires |s.flights| == 2 && s.flights[1] == [row]
    ensures var s' := Run(s, [Broadcast(1), Receive]); s'.store == s.store && s'.sub.sent == [row]
  {
    hide Run;
    RunTwo(s, Broadcast(1), Receive);
    var s1 := Next(s, Broadcast(1));
    assert s1.sub == s.sub.(queue := [row]) && s1.store == s.store;
    var s2 := Next(s1, Receive);
    assert s2.sub == Accept(s1.sub, row).(queue := []) && s2.store == s.store;
  }

  lemma FirstQuery(ns: string)
    ensures Next(State(EMPTY, [], Opened(ns, 0)), RunQuery) == State(EMPTY, [], Opened(ns, 0).(querying := false))
  {
  }

  lemma RunNone(s: State)
    ensures Run(s, []) == s
  {
  }

  lemma RunTwo(s: State, x: Step, y: Step)
    ensures Run(s, [x, y]) == Next(Next(s, x), y)
  {
    hide Next, Run;
    RunNone(s);
    RunSnoc(s, [], x);
    RunSnoc(s, [] + [x], y);
    assert [x, y] == [] + [x] + [y];
  }

  lemma CommitKnown(s: State, row: Row, ns: string)
    requires s.store.rows == [row]
    ensures var s' := Next(s, Commit(ns, [row.mutation]));
      && s'.store.rows == s.store.rows && s'.sub == s.sub
      && s'.flights == s.flights + [[Row(row.sequence, ns, row.mutation)]]
  {
    assert row in s.store.rows;
    assert SequenceOf(s.store.rows, row.mutation.id) == row.sequence;
    KnownInsert(s.store, ns, row.mutation);
  }

  lemma KnownInsert(st: Store, ns: string, m: Mutation)
    requires HasId(st.rows, m.id)
    ensures InsertAll(st, Tag(ns, [m])).rows == st.rows
    ensures Announcements(Tag(ns, [m]), Acks(st, Tag(ns, [m]))) == [Row(SequenceOf(st.rows, m.id), ns, m)]
  {
    assert Tag(ns, [m]) == [] + [Item(ns, m)];
    InsertAllSnoc(st, [], Item(ns, m));
  }

  lemma OverlapCommits(ns: string, a: Mutation, b: Mutation)
    requires a.id != b.id
    ensures var s := Run(State(EMPTY, [], Opened(ns, 0)), [RunQuery, Commit(ns, [a]), Commit(ns, [b])]);
      && s.store.rows == [Row(1, ns, a), Row(2, ns, b)]
      && s.flights == [[Row(1, ns, a)], [Row(2, ns, b)]]
      && s.sub == Opened(ns, 0).(querying := false)
  {
    hide Run, Next;
    var s0 := State(EMPTY, [], Opened(ns, 0));
    RunThree(s0, RunQuery, Commit(ns, [a]), Commit(ns, [b]));
    var s1 := Next(s0, RunQuery);
    FirstQuery(ns);
    CommitOne(s1, ns, a);
    CommitOne(Next(s1, Commit(ns, [a])), ns, b);
  }

  lemma RunThree(s: State, x: Step, y: Step, z: Step)
    ensures Run(s, [x, y, z]) == Next(Next(Next(s, x), y), z)
  {
    hide Next, Run;
    RunTwo(s, x, y);
    RunSnoc(s, [x, y], z);
    assert [x, y, z] == [x, y] + [z];
  }

  lemma CommitOne(s: State, ns: string, m: Mutation)
    requires !HasId(s.store.rows, m.id)
    ensures var s' := Next(s, Commit(ns, [m]));
      && s'.store.rows == s.store.rows + [Row(s.store.last + 1, ns, m)] && s'.store.last == s.store.last + 1
      && s'.flights == s.flights + [[Row(s.store.last + 1, ns, m)]] && s'.sub == s.sub
  {
    OneInsert(s.store, ns, m);
  }

  lemma OverlapReceives(s: State, ns: string, a: Mutation, b: Mutation)
    requires s.flights == [[Row(1, ns, a)], [Row(2, ns, b)]] && s.sub == Opened(ns, 0).(querying := false)
    ensures var s' := Run(s, [Broadcast(1), Receive, Broadcast(0), Receive]);
      && s'.store == s.store && s'.sub.sent == [Row(2, ns, b)] && s'.sub.queue == [] && s'.flights == [[], []]
  {
    hide Run;
    var x, y := Row(1, ns, a), Row(2, ns, b);
    RunThree(s, Broadcast(1), Receive, Broadcast(0));
    RunSnoc(s, [Broadcast(1), Receive, Broadcast(0)], Receive);
    assert [Broadcast(1), Receive, Broadcast(0)] + [Receive] == [Broadcast(1), Receive, Broadcast(0), Receive];
    assert [y][1..] == [] && [x][1..] == [];
    var s1 := Next(s, Broadcast(1));
    assert s1 == State(s.store, [[x], []], s.sub.(queue := [y]));
    var s2 := Next(s1, Receive);
    assert s2 == State(s.store, [[x], []], s.sub.(lastSent := 2, sent := [y]));
    var s3 := Next(s2, Broadcast(0));
    assert s3 == State(s.store, [[], []], s2.sub.(queue := [x]));
  }

  lemma OneInsert(st: Store, ns: string, m: Mutation)
    requires !HasId(st.rows, m.id)
    ensures InsertAll(st, Tag(ns, [m])).rows == st.rows + [Row(st.last + 1, ns, m)]
    ensures Announcements(Tag(ns, [m]), Acks(st, Tag(ns, [m]))) == [Row(st.last + 1, ns, m)]
  {
    assert Tag(ns, [m]) == [] + [Item(ns, m)];
    InsertAllSnoc(st, [], Item(ns, m));
  }
}
