/**
 A live SQLite subscription as a state machine. Pushes commit under the connection lock
 but broadcast their rows afterwards, one at a time; the broadcast channel may drop its
 oldest messages, which the subscriber learns of as a lag and repairs by querying again.

 Every list of steps is a run: a step that is not possible in a state leaves it unchanged.
 */
module SqliteSubscription {
  import opened Prelude
  import opened Sequences
  import opened MutationLog
  import C = Compaction
  import P = DeliveryProgress

  /** The subscriber task and its end of the broadcast channel. */
  datatype Sub = Sub(
    ns: string,
    from: nat,
    lastSent: nat,
    sent: seq<Row>,
    querying: bool,
    buffer: seq<Row>,
    queue: seq<Row>,
    lagged: bool)

  /** `flights[i]` is what push `i` has committed and still has to broadcast. */
  datatype State = State(store: Store, flights: seq<seq<Row>>, sub: Sub)

  datatype Step =
    | Commit(ns: string, batch: seq<Mutation>)
    | PutSnapshot(key: RecordKey, sequence: nat)
    | CompactLog(ns: string)
    | Broadcast(flight: nat)
    | DropOldest
    | RunQuery
    | Deliver
    | Receive

  function Send(sub: Sub, m: Row): (r: Sub) {
    sub.(lastSent := Max(sub.lastSent, m.sequence), sent := sub.sent + [m])
  }

  /** A message is forwarded when it is of the namespace and above everything sent. */
  function Accept(sub: Sub, m: Row): (r: Sub) {
    if m.namespace == sub.ns && m.sequence > sub.lastSent
    then sub.(lastSent := m.sequence, sent := sub.sent + [m])
    else sub
  }

  function Next(s: State, step: Step): (s': State) {
    var sub := s.sub;
    match step
    case Commit(ns, batch) =>
      var items := Tag(ns, batch);
      s.(store := InsertAll(s.store, items),
         flights := s.flights + [Announcements(items, Acks(s.store, items))])
    case PutSnapshot(key, sequence) => s.(store := C.StoreSnapshot(s.store, key, sequence))
    case CompactLog(ns) => s.(store := C.Compact(s.store, ns))
    case Broadcast(i) =>
      if i < |s.flights| && s.flights[i] != [] then
        s.(flights := s.flights[i := s.flights[i][1..]], sub := sub.(queue := sub.queue + [s.flights[i][0]]))
      else s
    case DropOldest =>
      if sub.queue != [] then s.(sub := sub.(queue := sub.queue[1..], lagged := true)) else s
    case RunQuery =>
      if sub.querying then
        s.(sub := sub.(querying := false, buffer := After(s.store.rows, sub.ns, sub.lastSent)))
      else s
    case Deliver =>
      if !sub.querying && sub.buffer != [] then
        s.(sub := Send(sub, sub.buffer[0]).(buffer := sub.buffer[1..]))
      else s
    case Receive =>
      if sub.querying || sub.buffer != [] then s
      else if sub.lagged then s.(sub := sub.(lagged := false, querying := true))
      else if sub.queue != [] then s.(sub := Accept(sub, sub.queue[0]).(queue := sub.queue[1..]))
      else s
  }

  function Run(s: State, steps: seq<Step>): (s': State) {
    if steps == [] then s else Next(Run(s, steps[..|steps| - 1]), steps[|steps| - 1])
  }

  lemma RunSnoc(s: State, steps: seq<Step>, x: Step)
    ensures Run(s, steps + [x]) == Next(Run(s, steps), x)
  {
    SnocPrefix(steps, x);
  }

  /** A subscription just opened: the channel is attached and the first query is due. */
  function Opened(ns: string, from: nat): (sub: Sub) {
    Sub(ns, from, from, [], true, [], [], false)
  }

  // ---- delivery strictly increases, whatever else happens ----

  ghost predicate StoreIncreasing(st: Store) {
    Ascending(st.rows) && forall r | r in st.rows :: r.sequence <= st.last
  }

  ghost predicate SubIncreasing(sub: Sub) {
    && Ascending(sub.sent) && Ascending(sub.buffer)
    && (forall r | r in sub.sent :: r.namespace == sub.ns && sub.from < r.sequence <= sub.lastSent)
    && (forall r | r in sub.buffer :: r.namespace == sub.ns && sub.lastSent < r.sequence)
    && sub.from <= sub.lastSent
  }

  ghost predicate Increasing(s: State) {
    StoreIncreasing(s.store) && SubIncreasing(s.sub)
  }

  lemma {:induction false} InsertAllAscending(st: Store, items: seq<Item>)
    requires Ascending(st.rows) && forall r | r in st.rows :: r.sequence <= st.last
    ensures Ascending(InsertAll(st, items).rows)
    ensures forall r | r in InsertAll(st, items).rows :: r.sequence <= InsertAll(st, items).last
  {
    if items != [] {
      var s := InsertAll(st, items[..|items| - 1]);
      var x := items[|items| - 1];
      InsertAllAscending(st, items[..|items| - 1]);
      AscendingSnoc(s.rows, Row(s.last + 1, x.namespace, x.mutation));
    }
  }

  lemma QueryIncreases(st: Store, sub: Sub)
    requires StoreIncreasing(st) && SubIncreasing(sub)
    ensures SubIncreasing(sub.(querying := false, buffer := After(st.rows, sub.ns, sub.lastSent)))
  {
    FilterAscending(st.rows, (x: Row) => x.namespace == sub.ns && x.sequence > sub.lastSent);
  }

  lemma SendIncreases(sub: Sub)
    requires SubIncreasing(sub) && sub.buffer != []
    ensures SubIncreasing(Send(sub, sub.buffer[0]).(buffer := sub.buffer[1..]))
  {
    P.DropFirst(sub.buffer);
    assert sub.buffer[0] in sub.buffer;
    AscendingSnoc(sub.sent, sub.buffer[0]);
  }

  lemma AcceptIncreases(sub: Sub, m: Row)
    requires SubIncreasing(sub) && sub.buffer == []
    ensures SubIncreasing(Accept(sub, m))
  {
    if m.sequence > sub.lastSent {
      AscendingSnoc(sub.sent, m);
    }
  }

  lemma NextIncreasing(s: State, step: Step)
    requires Increasing(s)
    ensures Increasing(Next(s, step))
  {
    match step
    case Commit(ns, batch) => InsertAllAscending(s.store, Tag(ns, batch));
    case CompactLog(ns) =>
      FilterAscending(s.store.rows, (x: Row) => !(x.namespace == ns && C.Covered(s.store.snapshots, x)));
    case RunQuery => QueryIncreases(s.store, s.sub);
    case Deliver => if s.sub.buffer != [] { SendIncreases(s.sub); }
    case Receive => if s.sub.buffer == [] && s.sub.queue != [] { AcceptIncreases(s.sub, s.sub.queue[0]); }
    case _ =>
  }

  lemma NextSentGrows(s: State, step: Step)
    ensures s.sub.sent <= Next(s, step).sub.sent
  {
  }

  /** No run, with overlapping pushes or compaction or anything else, sends out of order or twice. */
  lemma {:induction false} SentStrictlyIncreases(s: State, steps: seq<Step>)
    requires Increasing(s)
    ensures Increasing(Run(s, steps))
    ensures s.sub.sent <= Run(s, steps).sub.sent
  {
    hide Next, Increasing;
    if steps != [] {
      SentStrictlyIncreases(s, steps[..|steps| - 1]);
      NextSentGrows(Run(s, steps[..|steps| - 1]), steps[|steps| - 1]);
      NextIncreasing(Run(s, steps[..|steps| - 1]), steps[|steps| - 1]);
    }
  }
}
