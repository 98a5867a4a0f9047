/**
 What a SQLite subscriber is sent is the namespace's log, without gaps, for every pattern
 of drops and lags, as long as each push to the namespace commits when the rows before it
 have been announced. Without that, a gap can be scheduled; the condition is exact.
 */
module SqliteDelivery {
  import opened Sequences
  import opened MutationLog
  import opened SqliteSubscription
  import P = DeliveryProgress

  /** An id is only ever pushed to one namespace, given by `home`. */
  ghost predicate Conforms(home: string -> string, rows: seq<Row>) {
    forall r | r in rows :: home(r.mutation.id) == r.namespace
  }

  ghost predicate ConformingItems(home: string -> string, items: seq<Item>) {
    forall x | x in items :: home(x.mutation.id) == x.namespace
  }

  function ProgressOf(sub: Sub): P.Progress {
    P.Progress(sub.ns, sub.from, sub.lastSent, sub.sent, sub.buffer)
  }

  function Effective(sub: Sub): nat {
    P.Effective(ProgressOf(sub))
  }

  ghost predicate Unsent(s: State, r: Row) {
    r in s.store.rows && r.namespace == s.sub.ns && Effective(s.sub) < r.sequence
  }

  /** `r` must be sent before `m` may be; a message can differ from the row stored under its sequence. */
  predicate Below(r: Row, m: Row) {
    r.sequence < m.sequence || (r.sequence == m.sequence && r != m)
  }

  /** Every unsent row below `m` is in `before`. */
  ghost predicate Preceded(s: State, before: seq<Row>, m: Row) {
    m.namespace == s.sub.ns ==> forall r | Unsent(s, r) && Below(r, m) :: r in before
  }

  ghost predicate QueueOrdered(s: State) {
    forall i | 0 <= i < |s.sub.queue| :: Preceded(s, s.sub.queue[..i], s.sub.queue[i])
  }

  ghost predicate FlightOrdered(s: State, flight: seq<Row>) {
    forall j | 0 <= j < |flight| :: Preceded(s, s.sub.queue + flight[..j], flight[j])
  }

  ghost predicate FlightsOrdered(s: State) {
    forall k | 0 <= k < |s.flights| :: FlightOrdered(s, s.flights[k])
  }

  ghost predicate InFlight(s: State, r: Row) {
    exists k | 0 <= k < |s.flights| :: r in s.flights[k]
  }

  ghost predicate AllAnnounced(s: State) {
    forall r | Unsent(s, r) :: r in s.sub.queue || InFlight(s, r)
  }

  /** The next thing the subscriber does after its buffer is to query. */
  predicate RequeryDue(s: State) {
    s.sub.querying || s.sub.lagged
  }

  /** A row of the message's namespace is stored under its sequence. */
  ghost predicate Backed(rows: seq<Row>, m: Row) {
    exists r | r in rows :: r.sequence == m.sequence && r.namespace == m.namespace
  }

  ghost predicate MessagesStored(s: State) {
    && (forall m | m in s.sub.queue :: Backed(s.store.rows, m))
    && (forall k | 0 <= k < |s.flights| :: forall m | m in s.flights[k] :: Backed(s.store.rows, m))
  }

  ghost predicate SentExactly(s: State) {
    P.SentExactly(s.store, ProgressOf(s.sub))
  }

  ghost predicate Inv(home: string -> string, s: State) {
    && Valid(s.store)
    && Conforms(home, s.store.rows)
    && MessagesStored(s)
    && SentExactly(s)
    && (s.sub.querying ==> s.sub.buffer == [])
    && (!RequeryDue(s) ==> QueueOrdered(s) && FlightsOrdered(s) && AllAnnounced(s))
  }

  // ---- what a commit announces ----

  lemma AnnouncementStored(home: string -> string, st: Store, x: Item)
    requires Conforms(home, st.rows) && home(x.mutation.id) == x.namespace
    ensures Conforms(home, Insert(st, x).rows)
    ensures Backed(Insert(st, x).rows, Row(Ack(st, x), x.namespace, x.mutation))
    ensures forall m | Backed(st.rows, m) :: Backed(Insert(st, x).rows, m)
  {
    if HasId(st.rows, x.mutation.id) {
      var q :| q in st.rows && q.mutation.id == x.mutation.id && q.sequence == Ack(st, x);
    } else {
      assert Row(st.last + 1, x.namespace, x.mutation) in Insert(st, x).rows;
      BackedLonger(st.rows, Insert(st, x).rows);
    }
  }

  lemma BackedLonger(rows: seq<Row>, longer: seq<Row>)
    requires rows <= longer
    ensures forall m | Backed(rows, m) :: Backed(longer, m)
  {
    forall m | Backed(rows, m) ensures Backed(longer, m) {
      var r :| r in rows && r.sequence == m.sequence && r.namespace == m.namespace;
      assert r in longer;
    }
  }

  lemma {:induction false} AnnouncementsStored(home: string -> string, st: Store, items: seq<Item>)
    requires Conforms(home, st.rows) && ConformingItems(home, items)
    ensures Conforms(home, InsertAll(st, items).rows)
    ensures forall m | m in Announcements(items, Acks(st, items)) :: Backed(InsertAll(st, items).rows, m)
  {
    if items != [] {
      var front, x := items[..|items| - 1], items[|items| - 1];
      assert items == front + [x];
      AnnouncementsStored(home, st, front);
      AnnouncementStored(home, InsertAll(st, front), x);
      InsertAllSnoc(st, front, x);
    }
  }

  /** The new rows are announced in sequence order, each before anything above it. */
  lemma {:induction false} AnnouncementsCover(st: Store, items: seq<Item>)
    requires Valid(st)
    ensures var said := Announcements(items, Acks(st, items));
      && (forall r | r in InsertAll(st, items).rows && r !in st.rows :: r in said)
      && (forall j | 0 <= j < |said| :: said[j].sequence <= st.last + |items|)
      && (forall j, r | 0 <= j < |said| && r in InsertAll(st, items).rows && r !in st.rows
                        && Below(r, said[j]) :: r in said[..j])
  {
    if items != [] {
      var front, x := items[..|items| - 1], items[|items| - 1];
      assert items == front + [x];
      AnnouncementsCover(st, front);
      InsertAllExtends(st, front);
      InsertAllSnoc(st, front, x);
      CoverStep(st, InsertAll(st, front), Announcements(front, Acks(st, front)), x);
    }
  }

  lemma CoverStep(st: Store, s: Store, said: seq<Row>, x: Item)
    requires Valid(s)
    requires forall r | r in s.rows && r !in st.rows :: r in said
    requires forall j | 0 <= j < |said| :: said[j].sequence <= s.last
    requires forall j, r | 0 <= j < |said| && r in s.rows && r !in st.rows && Below(r, said[j]) :: r in said[..j]
    ensures var said' := said + [Row(Ack(s, x), x.namespace, x.mutation)];
      && (forall r | r in Insert(s, x).rows && r !in st.rows :: r in said')
      && (forall j | 0 <= j < |said'| :: said'[j].sequence <= s.last + 1)
      && (forall j, r | 0 <= j < |said'| && r in Insert(s, x).rows && r !in st.rows
                        && Below(r, said'[j]) :: r in said'[..j])
  {
    var ann := Row(Ack(s, x), x.namespace, x.mutation);
    var said' := said + [ann];
    assert Ack(s, x) <= s.last + 1;
    forall j, r | 0 <= j < |said'| && r in Insert(s, x).rows && r !in st.rows && Below(r, said'[j])
      ensures r in said'[..j]
    {
      if j < |said| {
        assert said'[..j] == said[..j];
        assert r in s.rows;
      } else {
        assert said'[..j] == said;
        assert r in s.rows;
      }
    }
  }

  // ---- every step keeps the invariant ----

  /** The messages a push of `batch` will broadcast come after every unsent row below them. */
  ghost predicate CommitOrdered(s: State, batch: seq<Mutation>) {
    var items := Tag(s.sub.ns, batch);
    FlightOrdered(s.(store := InsertAll(s.store, items)), Announcements(items, Acks(s.store, items)))
  }

  /** A push may commit now without risking a gap for this subscriber. */
  ghost predicate CommitSafe(s: State, ns: string, batch: seq<Mutation>) {
    ns == s.sub.ns ==> RequeryDue(s) || CommitOrdered(s, batch)
  }

  lemma ExtendSentExactly(s: State, store: Store)
    requires Valid(s.store) && SentExactly(s) && Extends(s.store, store)
    ensures SentExactly(s.(store := store))
  {
    P.ExtendKeepsExact(s.store, store, ProgressOf(s.sub));
  }

  lemma ExtendUnsent(s: State, store: Store, r: Row)
    requires Valid(s.store) && SentExactly(s) && Extends(s.store, store)
    ensures Unsent(s.(store := store), r) ==> Unsent(s, r) || (r !in s.store.rows && r.sequence > s.store.last)
  {
  }

  lemma ExtendOrdered(s: State, store: Store)
    requires Valid(s.store) && SentExactly(s) && MessagesStored(s) && Extends(s.store, store)
    ensures QueueOrdered(s) ==> QueueOrdered(s.(store := store))
    ensures FlightsOrdered(s) ==> FlightsOrdered(s.(store := store))
  {
    var s' := s.(store := store);
    forall before: seq<Row>, m | Preceded(s, before, m) && Backed(s.store.rows, m) ensures Preceded(s', before, m) {
      forall r | Unsent(s', r) && Below(r, m) && m.namespace == s.sub.ns ensures r in before {
        ExtendUnsent(s, store, r);
      }
    }
    if FlightsOrdered(s) {
      forall k | 0 <= k < |s.flights| ensures FlightOrdered(s', s.flights[k]) {
        assert FlightOrdered(s, s.flights[k]);
      }
    }
  }

  lemma CommitAnnounced(s: State, store: Store, said: seq<Row>)
    requires Valid(s.store) && SentExactly(s) && Extends(s.store, store)
    requires AllAnnounced(s)
    requires forall r | r in store.rows && r !in s.store.rows :: r in said
    ensures AllAnnounced(State(store, s.flights + [said], s.sub))
  {
    var s' := State(store, s.flights + [said], s.sub);
    assert s'.flights[|s.flights|] == said;
    forall r | Unsent(s', r) ensures r in s.sub.queue || InFlight(s', r) {
      if Unsent(s, r) && r !in s.sub.queue {
        var k :| 0 <= k < |s.flights| && r in s.flights[k];
        assert s'.flights[k] == s.flights[k];
      }
    }
  }

  lemma CommitOrder(s: State, ns: string, batch: seq<Mutation>)
    requires Valid(s.store) && SentExactly(s) && MessagesStored(s)
    requires QueueOrdered(s) && FlightsOrdered(s) && AllAnnounced(s)
    requires ns == s.sub.ns ==> CommitOrdered(s, batch)
    ensures var s' := Next(s, Commit(ns, batch)); QueueOrdered(s') && FlightsOrdered(s') && AllAnnounced(s')
  {
    var items := Tag(ns, batch);
    var store := InsertAll(s.store, items);
    var said := Announcements(items, Acks(s.store, items));
    InsertAllExtends(s.store, items);
    AnnouncementsCover(s.store, items);
    ExtendOrdered(s, store);
    CommitAnnounced(s, store, said);
    assert forall j | 0 <= j < |said| :: said[j].namespace == ns;
    AddFlight(s.(store := store), said);
  }

  lemma CommitSends(s: State, ns: string, batch: seq<Mutation>)
    requires Valid(s.store) && SentExactly(s)
    ensures Valid(Next(s, Commit(ns, batch)).store) && SentExactly(Next(s, Commit(ns, batch)))
  {
    var items := Tag(ns, batch);
    InsertAllExtends(s.store, items);
    ExtendSentExactly(s, InsertAll(s.store, items));
  }

  lemma CommitStores(home: string -> string, s: State, ns: string, batch: seq<Mutation>)
    requires Valid(s.store) && Conforms(home, s.store.rows) && MessagesStored(s)
    requires ConformingItems(home, Tag(ns, batch))
    ensures Conforms(home, Next(s, Commit(ns, batch)).store.rows) && MessagesStored(Next(s, Commit(ns, batch)))
  {
    var items := Tag(ns, batch);
    InsertAllExtends(s.store, items);
    AnnouncementsStored(home, s.store, items);
    StoredSomewhere(s, InsertAll(s.store, items), Announcements(items, Acks(s.store, items)));
  }

  lemma StoredSomewhere(s: State, store: Store, said: seq<Row>)
    requires MessagesStored(s) && s.store.rows <= store.rows && forall m | m in said :: Backed(store.rows, m)
    ensures MessagesStored(State(store, s.flights + [said], s.sub))
  {
    BackedLonger(s.store.rows, store.rows);
  }

  lemma CommitKeepsInv(home: string -> string, s: State, ns: string, batch: seq<Mutation>)
    requires Inv(home, s)
    requires ConformingItems(home, Tag(ns, batch))
    requires CommitSafe(s, ns, batch)
    ensures Inv(home, Next(s, Commit(ns, batch)))
  {
    hide SentExactly, QueueOrdered, FlightsOrdered, AllAnnounced;
    CommitStores(home, s, ns, batch);
    CommitSends(s, ns, batch);
    if !RequeryDue(s) {
      CommitOrder(s, ns, batch);
    }
  }

  lemma AddFlight(s: State, said: seq<Row>)
    requires QueueOrdered(s) && FlightsOrdered(s) && FlightOrdered(s, said)
    ensures QueueOrdered(s.(flights := s.flights + [said])) && FlightsOrdered(s.(flights := s.flights + [said]))
  {
    var s' := s.(flights := s.flights + [said]);
    forall before: seq<Row>, m | Preceded(s, before, m) ensures Preceded(s', before, m) {
      assert forall r :: Unsent(s', r) == Unsent(s, r);
    }
    forall k | 0 <= k < |s'.flights| ensures FlightOrdered(s', s'.flights[k]) {
      assert FlightOrdered(s, s'.flights[k]);
    }
  }

  lemma BroadcastStores(s: State, i: nat)
    requires MessagesStored(s) && i < |s.flights| && s.flights[i] != []
    ensures MessagesStored(Next(s, Broadcast(i)))
  {
    var s' := Next(s, Broadcast(i));
    var head, rest := s.flights[i][0], s.flights[i][1..];
    assert s.flights[i] == [head] + rest;
    assert forall r | r in s'.sub.queue :: r in s.sub.queue || r == head;
    assert forall k | 0 <= k < |s'.flights| :: s'.flights[k] == if k == i then rest else s.flights[k];
  }

  lemma BroadcastAnnounces(s: State, i: nat)
    requires AllAnnounced(s) && i < |s.flights| && s.flights[i] != []
    ensures AllAnnounced(Next(s, Broadcast(i)))
  {
    var s' := Next(s, Broadcast(i));
    var head := s.flights[i][0];
    assert s.flights[i] == [head] + s'.flights[i];
    forall r | Unsent(s', r) ensures r in s'.sub.queue || InFlight(s', r) {
      assert Unsent(s, r);
      if r !in s.sub.queue && r != head {
        var k :| 0 <= k < |s.flights| && r in s.flights[k];
        assert r in s'.flights[k];
      }
    }
  }

  lemma BroadcastKeepsInv(home: string -> string, s: State, i: nat)
    requires Inv(home, s) && i < |s.flights| && s.flights[i] != []
    ensures Inv(home, Next(s, Broadcast(i)))
  {
    assert SentExactly(Next(s, Broadcast(i)));
    hide SentExactly, MessagesStored, QueueOrdered, FlightsOrdered, AllAnnounced;
    BroadcastStores(s, i);
    if !RequeryDue(s) {
      BroadcastOrdered(s, i);
      BroadcastAnnounces(s, i);
    }
  }

  lemma BroadcastOrdered(s: State, i: nat)
    requires i < |s.flights| && s.flights[i] != []
    requires QueueOrdered(s) && FlightsOrdered(s)
    ensures QueueOrdered(Next(s, Broadcast(i))) && FlightsOrdered(Next(s, Broadcast(i)))
  {
    var s' := Next(s, Broadcast(i));
    var q, q', head := s.sub.queue, s'.sub.queue, s.flights[i][0];
    forall j | 0 <= j < |q'| ensures Preceded(s', q'[..j], q'[j]) {
      assert forall r :: Unsent(s', r) == Unsent(s, r);
      if j < |q| {
        assert q'[..j] == q[..j];
        assert Preceded(s, q[..j], q[j]);
      } else {
        assert FlightOrdered(s, s.flights[i]);
        assert Preceded(s, q + s.flights[i][..0], head);
        assert q'[..j] == q + s.flights[i][..0];
      }
    }
    forall k | 0 <= k < |s'.flights| ensures FlightOrdered(s', s'.flights[k]) {
      BroadcastFlightOrdered(s, i, k);
    }
  }

  lemma BroadcastFlightOrdered(s: State, i: nat, k: nat)
    requires i < |s.flights| && s.flights[i] != [] && k < |s.flights|
    requires FlightOrdered(s, s.flights[k])
    ensures FlightOrdered(Next(s, Broadcast(i)), Next(s, Broadcast(i)).flights[k])
  {
    var s' := Next(s, Broadcast(i));
    var f := s'.flights[k];
    forall j | 0 <= j < |f| ensures Preceded(s', s'.sub.queue + f[..j], f[j]) {
      assert forall r :: Unsent(s', r) == Unsent(s, r);
      var off := if k == i then 1 else 0;
      assert Preceded(s, s.sub.queue + s.flights[k][..j + off], s.flights[k][j + off]);
      if k == i {
        assert s.flights[i][..j + 1] == [s.flights[i][0]] + f[..j];
      }
      assert forall r | r in s.sub.queue + s.flights[k][..j + off] :: r in s'.sub.queue + f[..j];
    }
  }

  lemma QueryKeepsInv(home: string -> string, s: State)
    requires Inv(home, s) && s.sub.querying
    ensures Inv(home, Next(s, RunQuery))
  {
    var s' := Next(s, RunQuery);
    AfterExact(s.store.rows, s.sub.ns, s.sub.lastSent, Effective(s'.sub));
    assert SentExactly(s');
    assert forall r :: !Unsent(s', r);
  }

  lemma DeliverSends(s: State)
    requires Valid(s.store) && SentExactly(s) && !s.sub.querying && s.sub.buffer != []
    ensures SentExactly(Next(s, Deliver))
    ensures Effective(Next(s, Deliver).sub) == Effective(s.sub)
  {
    hide P.SentExactly, P.Effective;
    P.SendKeepsExact(s.store, ProgressOf(s.sub));
    assert ProgressOf(Next(s, Deliver).sub) == P.SendFirst(ProgressOf(s.sub));
  }

  lemma DeliverKeepsInv(home: string -> string, s: State)
    requires Inv(home, s) && !s.sub.querying && s.sub.buffer != []
    ensures Inv(home, Next(s, Deliver))
  {
    hide SentExactly, Effective;
    DeliverSends(s);
    SameUnsentKeepsOrder(s, Next(s, Deliver));
  }

  /** Ordering depends only on the unsent rows, the queue and the flights. */
  lemma SameUnsentKeepsOrder(s: State, s': State)
    requires s.sub.queue == s'.sub.queue && s.flights == s'.flights && s.sub.ns == s'.sub.ns
    requires forall r :: Unsent(s', r) == Unsent(s, r)
    ensures QueueOrdered(s) ==> QueueOrdered(s')
    ensures FlightsOrdered(s) ==> FlightsOrdered(s')
    ensures AllAnnounced(s) ==> AllAnnounced(s')
  {
    assert forall before: seq<Row>, m :: Preceded(s, before, m) ==> Preceded(s', before, m);
    if FlightsOrdered(s) {
      forall k | 0 <= k < |s.flights| ensures FlightOrdered(s', s.flights[k]) {
        assert FlightOrdered(s, s.flights[k]);
      }
    }
    if AllAnnounced(s) {
      forall r | Unsent(s', r) ensures r in s'.sub.queue || InFlight(s', r) {
        assert Unsent(s, r);
      }
    }
  }

  lemma ReceiveSends(s: State)
    requires SentExactly(s) && MessagesStored(s) && QueueOrdered(s) && Valid(s.store)
    requires !RequeryDue(s) && s.sub.buffer == [] && s.sub.queue != []
    ensures SentExactly(Next(s, Receive))
    ensures forall r | Unsent(Next(s, Receive), r) :: Unsent(s, r) && r != s.sub.queue[0]
  {
    var m := s.sub.queue[0];
    assert m in s.sub.queue;
    assert Preceded(s, s.sub.queue[..0], m);
    if m.namespace == s.sub.ns && m.sequence > s.sub.lastSent {
      forall r | r in s.store.rows && InRange(r, s.sub.ns, s.sub.lastSent, m.sequence) ensures r == m {
        assert Unsent(s, r);
      }
      var r :| r in s.store.rows && r.sequence == m.sequence && r.namespace == m.namespace;
      assert InRange(r, s.sub.ns, s.sub.lastSent, m.sequence);
      AscendingSnoc(s.sub.sent, m);
    }
  }

  lemma ReceiveKeepsInv(home: string -> string, s: State)
    requires Inv(home, s) && !RequeryDue(s) && s.sub.buffer == [] && s.sub.queue != []
    ensures Inv(home, Next(s, Receive))
  {
    hide SentExactly, Unsent;
    var q := s.sub.queue;
    assert q == [q[0]] + q[1..];
    ReceiveSends(s);
    ReceiveOrdered(s, Next(s, Receive), q[0]);
  }

  lemma ReceiveOrdered(s: State, s': State, m: Row)
    requires s.sub.queue == [m] + s'.sub.queue && s.flights == s'.flights && s.sub.ns == s'.sub.ns
    requires forall r | Unsent(s', r) :: Unsent(s, r) && r != m
    requires QueueOrdered(s) && FlightsOrdered(s) && AllAnnounced(s)
    ensures QueueOrdered(s') && FlightsOrdered(s') && AllAnnounced(s')
  {
    var q, q' := s.sub.queue, s'.sub.queue;
    forall i | 0 <= i < |q'| ensures Preceded(s', q'[..i], q'[i]) {
      assert Preceded(s, q[..i + 1], q[i + 1]);
      assert q[..i + 1] == [m] + q'[..i];
    }
    forall k | 0 <= k < |s'.flights| ensures FlightOrdered(s', s'.flights[k]) {
      var f := s.flights[k];
      assert FlightOrdered(s, f);
      forall j | 0 <= j < |f| ensures Preceded(s', q' + f[..j], f[j]) {
        assert Preceded(s, q + f[..j], f[j]);
        assert q + f[..j] == [m] + (q' + f[..j]);
      }
    }
    forall r | Unsent(s', r) ensures r in q' || InFlight(s', r) {
      assert Unsent(s, r);
      assert InFlight(s, r) ==> InFlight(s', r);
    }
  }

  /** Everything but compaction, with conforming and safe commits. */
  ghost predicate Allowed(home: string -> string, s: State, step: Step) {
    && !step.CompactLog?
    && (step.Commit? ==> ConformingItems(home, Tag(step.ns, step.batch)) && CommitSafe(s, step.ns, step.batch))
  }

  lemma SnapshotKeepsInv(home: string -> string, s: State, key: RecordKey, sequence: nat)
    requires Inv(home, s)
    ensures Inv(home, Next(s, PutSnapshot(key, sequence)))
  {
    var s' := Next(s, PutSnapshot(key, sequence));
    assert SentExactly(s');
    assert MessagesStored(s');
    hide SentExactly, MessagesStored;
    SameUnsentKeepsOrder(s, s');
  }

  /** Losing a message makes a query due. */
  lemma DropKeepsInv(home: string -> string, s: State)
    requires Inv(home, s)
    ensures Inv(home, Next(s, DropOldest))
  {
    hide QueueOrdered, FlightsOrdered, AllAnnounced, Valid, Conforms;
    assert SentExactly(Next(s, DropOldest));
  }

  lemma LagKeepsInv(home: string -> string, s: State)
    requires Inv(home, s) && s.sub.lagged
    ensures Inv(home, Next(s, Receive))
  {
    hide QueueOrdered, FlightsOrdered, AllAnnounced, Valid, Conforms;
    assert SentExactly(Next(s, Receive));
  }

  lemma NextKeepsInv(home: string -> string, s: State, step: Step)
    requires Inv(home, s) && Allowed(home, s, step)
    ensures Inv(home, Next(s, step))
  {
    hide Inv;
    match step
    case Commit(ns, batch) => CommitKeepsInv(home, s, ns, batch);
    case Broadcast(i) => if i < |s.flights| && s.flights[i] != [] { BroadcastKeepsInv(home, s, i); }
    case RunQuery => if s.sub.querying { QueryKeepsInv(home, s); }
    case Deliver => if !s.sub.querying && s.sub.buffer != [] { DeliverKeepsInv(home, s); }
    case Receive =>
      if s.sub.lagged {
        LagKeepsInv(home, s);
      } else if !s.sub.querying && s.sub.buffer == [] && s.sub.queue != [] {
        ReceiveKeepsInv(home, s);
      }
    case PutSnapshot(key, sequence) => SnapshotKeepsInv(home, s, key, sequence);
    case DropOldest => DropKeepsInv(home, s);
  }

  // ---- whole runs ----

  /** Every step of the run is allowed in the state it is taken in. */
  ghost predicate AllowedRun(home: string -> string, s: State, steps: seq<Step>) {
    steps == [] ||
    var front, last := steps[..|steps| - 1], steps[|steps| - 1];
    AllowedRun(home, s, front) && Allowed(home, Run(s, front), last)
  }

  lemma {:induction false} RunKeepsInv(home: string -> string, s: State, steps: seq<Step>)
    requires Inv(home, s) && AllowedRun(home, s, steps)
    ensures Inv(home, Run(s, steps))
  {
    hide Next, Inv, Allowed;
    if steps != [] {
      RunKeepsInv(home, s, steps[..|steps| - 1]);
      NextKeepsInv(home, Run(s, steps[..|steps| - 1]), steps[|steps| - 1]);
    }
  }

  /** A subscription may be opened in any state of the coordinator, with pushes in flight. */
  lemma OpenedInv(home: string -> string, store: Store, flights: seq<seq<Row>>, ns: string, from: nat)
    requires Valid(store) && Conforms(home, store.rows)
    requires forall k | 0 <= k < |flights| :: forall m | m in flights[k] :: Backed(store.rows, m)
    ensures Inv(home, State(store, flights, Opened(ns, from)))
  {
  }

  ghost predicate GapFree(s: State) {
    s.sub.sent == Range(s.store.rows, s.sub.ns, s.sub.from, s.sub.lastSent)
  }

  lemma InvGapFree(home: string -> string, s: State)
    requires Inv(home, s)
    ensures GapFree(s)
  {
    P.SentIsRange(s.store, ProgressOf(s.sub));
  }

  /** No push to the namespace commits while another still has rows of it to broadcast. */
  ghost predicate NoOverlap(s: State, step: Step) {
    step.Commit? && step.ns == s.sub.ns ==>
      forall k | 0 <= k < |s.flights| :: forall r | r in s.flights[k] :: r.namespace != s.sub.ns
  }

  lemma NoOverlapIsSafe(home: string -> string, s: State, batch: seq<Mutation>)
    requires Inv(home, s) && NoOverlap(s, Commit(s.sub.ns, batch))
    ensures CommitSafe(s, s.sub.ns, batch)
  {
    var items := Tag(s.sub.ns, batch);
    var said := Announcements(items, Acks(s.store, items));
    var s1 := s.(store := InsertAll(s.store, items));
    if !RequeryDue(s) {
      InsertAllExtends(s.store, items);
      AnnouncementsCover(s.store, items);
      forall j | 0 <= j < |said| ensures Preceded(s1, s.sub.queue + said[..j], said[j]) {
        forall r | Unsent(s1, r) && Below(r, said[j]) ensures r in s.sub.queue + said[..j] {
          if r in s.store.rows {
            assert Unsent(s, r);
            assert !InFlight(s, r);
          } else {
            assert r in said[..j];
          }
        }
      }
    }
  }

  /** No compaction, ids at home, and pushes to the namespace one after the other. */
  ghost predicate OrderlyRun(home: string -> string, s: State, steps: seq<Step>) {
    steps == [] ||
    var front, last := steps[..|steps| - 1], steps[|steps| - 1];
    && OrderlyRun(home, s, front)
    && !last.CompactLog?
    && (last.Commit? ==> ConformingItems(home, Tag(last.ns, last.batch)))
    && NoOverlap(Run(s, front), last)
  }

  lemma {:induction false} OrderlyIsAllowed(home: string -> string, s: State, steps: seq<Step>)
    requires Inv(home, s) && OrderlyRun(home, s, steps)
    ensures AllowedRun(home, s, steps)
  {
    hide Next, Inv, CommitSafe;
    if steps != [] {
      var front, last := steps[..|steps| - 1], steps[|steps| - 1];
      OrderlyIsAllowed(home, s, front);
      RunKeepsInv(home, s, front);
      CommitIsSafe(home, Run(s, front), last);
    }
  }

  lemma CommitIsSafe(home: string -> string, s: State, step: Step)
    requires Inv(home, s) && NoOverlap(s, step)
    ensures step.Commit? ==> CommitSafe(s, step.ns, step.batch)
  {
    if step.Commit? && step.ns == s.sub.ns {
      NoOverlapIsSafe(home, s, step.batch);
    }
  }

  /**
   SQLite delivery refines a reliable stream. In every run without compaction in which
   pushes to the namespace do not overlap, whatever the channel drops and however the steps
   interleave, what has been sent is the namespace's log in (from, lastSent].
   */
  lemma SubscriptionIsGapFree(home: string -> string, s: State, steps: seq<Step>)
    requires Inv(home, s) && OrderlyRun(home, s, steps)
    ensures GapFree(Run(s, steps))
    ensures Inv(home, Run(s, steps))
  {
    OrderlyIsAllowed(home, s, steps);
    RunKeepsInv(home, s, steps);
    InvGapFree(home, Run(s, steps));
  }

  /** Nothing is left to query, deliver, receive or broadcast. */
  predicate Idle(s: State) {
    && !RequeryDue(s) && s.sub.buffer == [] && s.sub.queue == []
    && forall k | 0 <= k < |s.flights| :: s.flights[k] == []
  }

  /** When nothing is left to broadcast, receive or deliver, everything committed has been sent. */
  lemma IdleIsComplete(home: string -> string, s: State)
    requires Inv(home, s) && Idle(s)
    ensures s.sub.sent == After(s.store.rows, s.sub.ns, s.sub.from)
  {
    InvGapFree(home, s);
    assert forall r :: !InFlight(s, r);
    assert forall r :: !Unsent(s, r);
    FilterCongruence(s.store.rows, (x: Row) => InRange(x, s.sub.ns, s.sub.from, s.sub.lastSent),
                     (x: Row) => x.namespace == s.sub.ns && x.sequence > s.sub.from);
  }
}
