/**
 A SQLite subscription while the log is compacted under it. Rows may go before they are sent, but
 only rows under a snapshot: every accepted row up to the last one sent was sent or is covered.
 */
module SqliteCompacted {
  import opened MutationLog
  import opened Sequences
  import opened SqliteDelivery
  import opened SqliteSubscription
  import B = Bootstrap
  import C = Compaction
  import P = DeliveryProgress

  /** The rows no snapshot covers. */
  function Live(st: Store): (rows: seq<Row>) {
    Filter(st.rows, (r: Row) => !C.Covered(st.snapshots, r))
  }

  /** The state as if everything covered were compacted away. */
  function View(s: State): (v: State) {
    s.(store := s.store.(rows := Live(s.store)))
  }

  ghost predicate Holds(held: seq<Row>, rows: seq<Row>, ns: string, low: nat, high: nat) {
    forall r | r in rows && InRange(r, ns, low, high) :: r in held
  }

  /** Rising rows of the namespace in (low, high]. */
  ghost predicate InOrder(rows: seq<Row>, ns: string, low: nat, high: nat) {
    Ascending(rows) && forall r | r in rows :: InRange(r, ns, low, high)
  }

  /**
   Every live row of the namespace is sent up to `lastSent` and fetched up to the end of the
   buffer. What is sent, and then what is fetched, rises, so no row is sent twice.
   */
  ghost predicate Reached(s: State) {
    var sub := s.sub;
    && Holds(sub.sent, Live(s.store), sub.ns, sub.from, sub.lastSent)
    && Holds(sub.buffer, Live(s.store), sub.ns, sub.lastSent, Effective(sub))
    && InOrder(sub.sent, sub.ns, sub.from, sub.lastSent)
    && InOrder(sub.buffer, sub.ns, sub.lastSent, s.store.last)
    && sub.from <= sub.lastSent && (sub.lastSent == sub.from || sub.lastSent <= s.store.last)
  }

  ghost predicate Bounded(s: State) {
    && (forall m | m in s.sub.queue :: m.sequence <= s.store.last)
    && (forall k | 0 <= k < |s.flights| :: forall m | m in s.flights[k] :: m.sequence <= s.store.last)
  }

  ghost predicate Ordered(s: State) {
    QueueOrdered(View(s)) && FlightsOrdered(View(s)) && AllAnnounced(View(s))
  }

  ghost predicate Kept(s: State) {
    && Valid(s.store) && B.NoLoss(s.store)
    && Bounded(s) && Reached(s)
    && (s.sub.querying ==> s.sub.buffer == [])
    && (!RequeryDue(s) ==> Ordered(s))
  }

  // ---- steps that change the store ----

  /** Order survives when nothing new is unsent but rows above every message. */
  lemma OrderSurvives(v: State, v': State, bound: nat)
    requires v.sub == v'.sub && v.flights == v'.flights && Bounded(v) && v.store.last <= bound
    requires forall r | Unsent(v', r) :: Unsent(v, r) || r.sequence > bound
    ensures QueueOrdered(v) ==> QueueOrdered(v')
    ensures FlightsOrdered(v) ==> FlightsOrdered(v')
  {
    forall before: seq<Row>, m | Preceded(v, before, m) && m.sequence <= bound ensures Preceded(v', before, m) {
    }
    assert forall i | 0 <= i < |v.sub.queue| :: v.sub.queue[i] in v.sub.queue;
    if FlightsOrdered(v) {
      forall k | 0 <= k < |v.flights| ensures FlightOrdered(v', v.flights[k]) {
        assert FlightOrdered(v, v.flights[k]);
        assert forall j | 0 <= j < |v.flights[k]| :: v.flights[k][j] in v.flights[k];
      }
    }
  }

  /** Covering more rows, or removing covered ones, leaves fewer live rows and nothing else to do. */
  lemma ShrinkKeeps(s: State, st: Store)
    requires Kept(s) && Valid(st) && B.NoLoss(st) && st.last == s.store.last
    requires forall r | r in Live(st) :: r in Live(s.store)
    ensures Kept(s.(store := st))
  {
    hide Live, B.NoLoss, Valid;
    var s' := s.(store := st);
    assert Effective(s'.sub) == Effective(s.sub);
    assert Reached(s');
    if !RequeryDue(s) {
      OrderSurvives(View(s), View(s'), s.store.last);
      FewerAnnounced(View(s), View(s'));
    }
  }

  lemma FewerAnnounced(v: State, v': State)
    requires v.sub == v'.sub && v.flights == v'.flights && AllAnnounced(v)
    requires forall r | Unsent(v', r) :: Unsent(v, r)
    ensures AllAnnounced(v')
  {
    forall r | Unsent(v', r) ensures r in v'.sub.queue || InFlight(v', r) {
      assert InFlight(v, r) ==> InFlight(v', r);
    }
  }

  lemma SnapshotKeeps(s: State, key: RecordKey, sequence: nat)
    requires Kept(s) && B.KeepsSnapshots(s.store, B.Snapshot(key, sequence))
    ensures Kept(Next(s, PutSnapshot(key, sequence)))
  {
    var st := C.StoreSnapshot(s.store, key, sequence);
    B.ApplyKeepsNoLoss(s.store, B.Snapshot(key, sequence));
    assert forall r | C.Covered(s.store.snapshots, r) :: C.Covered(st.snapshots, r);
    ShrinkKeeps(s, st);
  }

  lemma CompactKeeps(s: State, ns: string)
    requires Kept(s)
    ensures Kept(Next(s, CompactLog(ns)))
  {
    B.ApplyKeepsNoLoss(s.store, B.CompactLog(ns));
    ShrinkKeeps(s, C.Compact(s.store, ns));
  }

  // ---- a commit ----

  lemma LiveGrows(st: Store, later: Store, r: Row)
    requires Extends(st, later) && r in Live(later)
    ensures r in Live(st) || (r in later.rows && r !in st.rows && r.sequence > st.last)
  {
  }

  lemma CommitReaches(s: State, later: Store)
    requires Reached(s) && Extends(s.store, later)
    ensures Reached(s.(store := later))
  {
    hide Live;
    assert s.sub.buffer != [] ==> s.sub.buffer[|s.sub.buffer| - 1] in s.sub.buffer;
    forall r | r in Live(later) ensures r in Live(s.store) || r.sequence > s.store.last {
      LiveGrows(s.store, later, r);
    }
  }

  lemma CommitOrders(s: State, ns: string, batch: seq<Mutation>)
    requires Kept(s) && !RequeryDue(s) && NoOverlap(s, Commit(ns, batch))
    ensures Ordered(Next(s, Commit(ns, batch)))
  {
    hide Live, B.NoLoss, InsertAll, Acks;
    var items := Tag(ns, batch);
    var later, said := InsertAll(s.store, items), Announcements(items, Acks(s.store, items));
    var v, v' := View(s), View(s.(store := later));
    InsertAllExtends(s.store, items);
    AnnouncementsCover(s.store, items);
    forall r | Unsent(v', r)
      ensures Unsent(v, r) || (r in later.rows && r !in s.store.rows && r.sequence > s.store.last)
    {
      LiveGrows(s.store, later, r);
    }
    OrderSurvives(v, v', s.store.last);
    SaidInOrder(s, v', said, ns);
    AddFlight(v', said);
    CommitAnnounces(v, v', said);
    assert View(Next(s, Commit(ns, batch))) == v'.(flights := s.flights + [said]);
  }

  lemma CommitAnnounces(v: State, v': State, said: seq<Row>)
    requires v.sub == v'.sub && v.flights == v'.flights && AllAnnounced(v)
    requires forall r | Unsent(v', r) :: Unsent(v, r) || r in said
    ensures AllAnnounced(v'.(flights := v.flights + [said]))
  {
    var w := v'.(flights := v.flights + [said]);
    assert w.flights[|v.flights|] == said;
    forall r | Unsent(w, r) ensures r in w.sub.queue || InFlight(w, r) {
      assert Unsent(v', r);
      if Unsent(v, r) && r !in v.sub.queue {
        var k :| 0 <= k < |v.flights| && r in v.flights[k];
        assert w.flights[k] == v.flights[k];
      }
    }
  }

  lemma SaidInOrder(s: State, v': State, said: seq<Row>, ns: string)
    requires AllAnnounced(View(s)) && v'.sub == s.sub && (forall j | 0 <= j < |said| :: said[j].namespace == ns)
    requires ns == s.sub.ns ==>
      forall k | 0 <= k < |s.flights| :: forall r | r in s.flights[k] :: r.namespace != s.sub.ns
    requires forall r | Unsent(v', r) ::
      Unsent(View(s), r) || (r in said && forall j | 0 <= j < |said| && Below(r, said[j]) :: r in said[..j])
    ensures FlightOrdered(v', said)
  {
    forall j | 0 <= j < |said| ensures Preceded(v', s.sub.queue + said[..j], said[j]) {
      forall r | Unsent(v', r) && Below(r, said[j]) && ns == s.sub.ns ensures r in s.sub.queue + said[..j] {
        if Unsent(View(s), r) {
          assert !InFlight(View(s), r);
        }
      }
    }
  }

  lemma CommitBounded(s: State, ns: string, batch: seq<Mutation>)
    requires Valid(s.store) && Bounded(s)
    ensures Bounded(Next(s, Commit(ns, batch)))
  {
    AnnouncementsCover(s.store, Tag(ns, batch));
  }

  lemma CommitKeeps(s: State, ns: string, batch: seq<Mutation>)
    requires Kept(s) && NoOverlap(s, Commit(ns, batch))
    ensures Kept(Next(s, Commit(ns, batch)))
  {
    hide Live, Ordered, Reached, Bounded;
    var items := Tag(ns, batch);
    InsertAllExtends(s.store, items);
    B.ApplyKeepsNoLoss(s.store, B.Push(ns, batch));
    CommitBounded(s, ns, batch);
    CommitReaches(s, InsertAll(s.store, items));
    SameReached(s.(store := InsertAll(s.store, items)), Next(s, Commit(ns, batch)));
    if !RequeryDue(s) {
      CommitOrders(s, ns, batch);
    }
  }

  lemma SameReached(s: State, t: State)
    requires s.store == t.store && s.sub == t.sub && Reached(s)
    ensures Reached(t)
  {
  }

  // ---- the channel and the subscriber ----

  lemma BroadcastKeeps(s: State, i: nat)
    requires Kept(s) && i < |s.flights| && s.flights[i] != []
    ensures Kept(Next(s, Broadcast(i)))
  {
    hide Live, B.NoLoss, Valid;
    var s' := Next(s, Broadcast(i));
    var head, rest := s.flights[i][0], s.flights[i][1..];
    assert s.flights[i] == [head] + rest;
    assert forall r | r in s'.sub.queue :: r in s.sub.queue || r == head;
    assert forall k | 0 <= k < |s'.flights| :: s'.flights[k] == if k == i then rest else s.flights[k];
    assert View(s') == Next(View(s), Broadcast(i));
    assert Bounded(s') && Reached(s');
    if !RequeryDue(s) {
      BroadcastOrdered(View(s), i);
      BroadcastAnnounces(View(s), i);
    }
  }

  /** A query returns every row above `low`, so every live one. */
  lemma FetchedHolds(st: Store, ns: string, low: nat, high: nat)
    requires Valid(st)
    requires var b := After(st.rows, ns, low); high == if b == [] then low else b[|b| - 1].sequence
    ensures Holds(After(st.rows, ns, low), Live(st), ns, low, high)
    ensures InOrder(After(st.rows, ns, low), ns, low, st.last)
    ensures forall r | r in Live(st) && r.namespace == ns :: r.sequence <= high
  {
    AfterExact(st.rows, ns, low, high);
    AfterAscending(st.rows, ns, low, 0);
  }

  lemma QueryFetches(s: State)
    requires Kept(s) && s.sub.querying
    ensures Reached(Next(s, RunQuery)) && forall r :: !Unsent(View(Next(s, RunQuery)), r)
  {
    hide Live, Holds, InOrder, Valid, B.NoLoss;
    FetchedHolds(s.store, s.sub.ns, s.sub.lastSent, Effective(Next(s, RunQuery).sub));
  }

  lemma QueryKeeps(s: State)
    requires Kept(s) && s.sub.querying
    ensures Kept(Next(s, RunQuery))
  {
    hide Live, Reached, B.NoLoss, Valid;
    QueryFetches(s);
  }

  lemma SendInOrder(sent: seq<Row>, r: Row, ns: string, from: nat, lastSent: nat)
    requires InOrder(sent, ns, from, lastSent) && r.namespace == ns && from <= lastSent < r.sequence
    ensures InOrder(sent + [r], ns, from, r.sequence)
  {
    assert forall i | 0 <= i < |sent| :: sent[i] in sent;
  }

  lemma ShiftHolds(sent: seq<Row>, b: seq<Row>, rows: seq<Row>, ns: string, from: nat, lastSent: nat, high: nat)
    requires Holds(sent, rows, ns, from, lastSent) && Holds(b, rows, ns, lastSent, high)
    requires b != [] && Ascending(b) && lastSent < b[0].sequence <= high
    ensures Holds(sent + [b[0]], rows, ns, from, b[0].sequence) && Holds(b[1..], rows, ns, b[0].sequence, high)
  {
    P.DropFirst(b);
  }

  lemma ShiftInOrder(b: seq<Row>, ns: string, lastSent: nat, high: nat)
    requires InOrder(b, ns, lastSent, high) && b != []
    ensures InOrder(b[1..], ns, b[0].sequence, high)
    ensures b[0].namespace == ns && lastSent < b[0].sequence <= b[|b| - 1].sequence && b[0].sequence <= high
  {
    P.DropFirst(b);
    assert b[0] in b;
  }

  lemma DeliverReaches(s: State)
    requires Reached(s) && !s.sub.querying && s.sub.buffer != []
    ensures Effective(Next(s, Deliver).sub) == Effective(s.sub)
    ensures Reached(Next(s, Deliver))
  {
    hide Live, Holds, InOrder;
    var sub := s.sub;
    BufferAscends(s);
    ShiftInOrder(sub.buffer, sub.ns, sub.lastSent, s.store.last);
    SendInOrder(sub.sent, sub.buffer[0], sub.ns, sub.from, sub.lastSent);
    ShiftHolds(sub.sent, sub.buffer, Live(s.store), sub.ns, sub.from, sub.lastSent, Effective(sub));
  }

  lemma BufferAscends(s: State)
    requires Reached(s)
    ensures Ascending(s.sub.buffer)
  {
  }

  lemma DeliverKeeps(s: State)
    requires Kept(s) && !s.sub.querying && s.sub.buffer != []
    ensures Kept(Next(s, Deliver))
  {
    hide Live, Reached, B.NoLoss, Valid, Effective;
    DeliverReaches(s);
    if !RequeryDue(s) {
      SameUnsentKeepsOrder(View(s), View(Next(s, Deliver)));
    }
  }

  lemma ReceiveReaches(s: State)
    requires Reached(s) && Bounded(s) && QueueOrdered(View(s))
    requires !RequeryDue(s) && s.sub.buffer == [] && s.sub.queue != []
    ensures Reached(Next(s, Receive))
    ensures forall r | Unsent(View(Next(s, Receive)), r) :: Unsent(View(s), r) && r != s.sub.queue[0]
  {
    hide Live;
    var m := s.sub.queue[0];
    assert m in s.sub.queue;
    assert Preceded(View(s), s.sub.queue[..0], m);
    if m.namespace == s.sub.ns && m.sequence > s.sub.lastSent {
      forall r | r in Live(s.store) && InRange(r, s.sub.ns, s.sub.lastSent, m.sequence) ensures r == m {
        assert Unsent(View(s), r);
      }
      SendInOrder(s.sub.sent, m, s.sub.ns, s.sub.from, s.sub.lastSent);
    }
  }

  lemma ReceiveKeeps(s: State)
    requires Kept(s) && !RequeryDue(s) && s.sub.buffer == [] && s.sub.queue != []
    ensures Kept(Next(s, Receive))
  {
    hide Live, Reached, B.NoLoss, Valid, Unsent;
    var q := s.sub.queue;
    assert q == [q[0]] + q[1..];
    ReceiveReaches(s);
    ReceiveOrdered(View(s), View(Next(s, Receive)), q[0]);
  }

  lemma LagKeeps(s: State)
    requires Kept(s)
    ensures Kept(Next(s, DropOldest))
    ensures s.sub.lagged ==> Kept(Next(s, Receive))
  {
    hide Live, Ordered, B.NoLoss, Valid;
    assert Reached(Next(s, DropOldest)) && Reached(s);
  }

  // ---- runs ----

  /** Pushes to the namespace one after the other, and snapshots that never go down. */
  ghost predicate Orderly(s: State, step: Step) {
    && NoOverlap(s, step)
    && (step.PutSnapshot? ==> B.KeepsSnapshots(s.store, B.Snapshot(step.key, step.sequence)))
  }

  ghost predicate OrderlyWithCompaction(s: State, steps: seq<Step>) {
    steps == [] ||
    var front := steps[..|steps| - 1];
    OrderlyWithCompaction(s, front) && Orderly(Run(s, front), steps[|steps| - 1])
  }

  lemma NextKeeps(s: State, step: Step)
    requires Kept(s) && Orderly(s, step)
    ensures Kept(Next(s, step)) && Next(s, step).sub.ns == s.sub.ns && Next(s, step).sub.from == s.sub.from
  {
    hide Kept;
    match step
    case Commit(ns, batch) => CommitKeeps(s, ns, batch);
    case PutSnapshot(key, sequence) => SnapshotKeeps(s, key, sequence);
    case CompactLog(ns) => CompactKeeps(s, ns);
    case Broadcast(i) => if i < |s.flights| && s.flights[i] != [] { BroadcastKeeps(s, i); }
    case DropOldest => LagKeeps(s);
    case RunQuery => if s.sub.querying { QueryKeeps(s); }
    case Deliver => if !s.sub.querying && s.sub.buffer != [] { DeliverKeeps(s); }
    case Receive =>
      if s.sub.lagged {
        LagKeeps(s);
      } else if !s.sub.querying && s.sub.buffer == [] && s.sub.queue != [] {
        ReceiveKeeps(s);
      }
  }

  lemma {:induction false} RunKeeps(s: State, steps: seq<Step>)
    requires Kept(s) && OrderlyWithCompaction(s, steps)
    ensures Kept(Run(s, steps)) && Run(s, steps).sub.ns == s.sub.ns && Run(s, steps).sub.from == s.sub.from
  {
    hide Next, Kept, Orderly;
    if steps != [] {
      RunKeeps(s, steps[..|steps| - 1]);
      NextKeeps(Run(s, steps[..|steps| - 1]), steps[|steps| - 1]);
    }
  }

  lemma OpenedKeeps(store: Store, flights: seq<seq<Row>>, ns: string, from: nat)
    requires Valid(store) && B.NoLoss(store)
    requires forall k | 0 <= k < |flights| :: forall m | m in flights[k] :: m.sequence <= store.last
    ensures Kept(State(store, flights, Opened(ns, from)))
  {
  }

  /** Up to the last row sent, and everywhere at rest, every accepted row is sent or under a snapshot. */
  ghost predicate Delivered(s: State, ns: string, from: nat) {
    && InOrder(s.sub.sent, ns, from, s.sub.lastSent)
    && forall r | r in s.store.accepted && r.namespace == ns && from < r.sequence
                  && (r.sequence <= s.sub.lastSent || Idle(s)) ::
         r in s.sub.sent || C.Covered(s.store.snapshots, r)
  }

  lemma KeptIsDelivered(s: State)
    requires Kept(s)
    ensures Delivered(s, s.sub.ns, s.sub.from)
  {
    hide Valid;
    if Idle(s) {
      assert forall r :: !InFlight(View(s), r);
      assert forall r :: !Unsent(View(s), r);
    }
    forall r | r in s.store.accepted && !C.Covered(s.store.snapshots, r) ensures r in Live(s.store) {
    }
  }

  /**
   In every run, compaction included, whose pushes to the namespace do not overlap and whose
   snapshots never go down, whatever the channel drops: what is sent rises, every accepted row up
   to the last one sent was sent or lies under a snapshot now stored, and at rest so does every
   accepted row above the start.
   */
  lemma SentOrCovered(store: Store, flights: seq<seq<Row>>, ns: string, from: nat, steps: seq<Step>)
    requires Valid(store) && B.NoLoss(store)
    requires forall k | 0 <= k < |flights| :: forall m | m in flights[k] :: m.sequence <= store.last
    requires OrderlyWithCompaction(State(store, flights, Opened(ns, from)), steps)
    ensures Delivered(Run(State(store, flights, Opened(ns, from)), steps), ns, from)
  {
    hide Run, OrderlyWithCompaction, Delivered, Kept;
    OpenedKeeps(store, flights, ns, from);
    RunKeeps(State(store, flights, Opened(ns, from)), steps);
    KeptIsDelivered(Run(State(store, flights, Opened(ns, from)), steps));
  }
}
