/**
 A live Postgres subscription. Rows only ever come from the database, a page at a time; a
 notification merely says that the namespace changed. Pushes hold the client lock from the
 transaction to the notification, so commits are ordered.
 */
module PostgresSubscription {
  import opened Prelude
  import opened Sequences
  import opened MutationLog
  import P = DeliveryProgress

  const PULL_LIMIT: nat := 1000

  /** Where the subscriber is: about to query, sending a page, or waiting for a notification. */
  datatype Phase = Paging | Sending(full: bool) | Waiting

  datatype Sub = Sub(
    ns: string,
    from: nat,
    lastSent: nat,
    sent: seq<Row>,
    phase: Phase,
    buffer: seq<Row>,
    queue: seq<string>)

  /** `wire` holds the notifications on their way from the database to the channel. */
  datatype State = State(store: Store, wire: seq<string>, sub: Sub)

  datatype Step =
    | Commit(ns: string, batch: seq<Mutation>)
    | Forward
    | LoseOnWire
    | DropOldest
    | RunQuery
    | Deliver
    | Receive

  function Next(s: State, step: Step): (s': State) {
    var sub := s.sub;
    match step
    case Commit(ns, batch) => s.(store := InsertAll(s.store, Tag(ns, batch)), wire := s.wire + [ns])
    case Forward =>
      if s.wire == [] then s else s.(wire := s.wire[1..], sub := sub.(queue := sub.queue + [s.wire[0]]))
    case LoseOnWire => if s.wire == [] then s else s.(wire := s.wire[1..])
    case DropOldest => if sub.queue == [] then s else s.(sub := sub.(queue := sub.queue[1..]))
    case RunQuery =>
      if !sub.phase.Paging? then s
      else
        var page := Pull(s.store.rows, sub.ns, sub.lastSent, PULL_LIMIT);
        if page == [] then s.(sub := sub.(phase := Waiting))
        else s.(sub := sub.(phase := Sending(|page| == PULL_LIMIT), buffer := page))
    case Deliver =>
      if !sub.phase.Sending? then s
      else if sub.buffer == [] then s.(sub := sub.(phase := if sub.phase.full then Paging else Waiting))
      else
        var m := sub.buffer[0];
        s.(sub := sub.(lastSent := Max(sub.lastSent, m.sequence), sent := sub.sent + [m], buffer := sub.buffer[1..]))
    case Receive =>
      if !sub.phase.Waiting? || sub.queue == [] then s
      else s.(sub := sub.(queue := sub.queue[1..], phase := if sub.queue[0] == sub.ns then Paging else Waiting))
  }

  function Run(s: State, steps: seq<Step>): (s': State) {
    if steps == [] then s else Next(Run(s, steps[..|steps| - 1]), steps[|steps| - 1])
  }

  function Opened(ns: string, from: nat): (sub: Sub) {
    Sub(ns, from, from, [], Paging, [], [])
  }

  lemma RunSnoc(s: State, steps: seq<Step>, x: Step)
    ensures Run(s, steps + [x]) == Next(Run(s, steps), x)
  {
    SnocPrefix(steps, x);
  }

  // ---- invariant ----

  function ProgressOf(sub: Sub): P.Progress {
    P.Progress(sub.ns, sub.from, sub.lastSent, sub.sent, sub.buffer)
  }

  ghost predicate Inv(s: State) {
    && Valid(s.store)
    && P.SentExactly(s.store, ProgressOf(s.sub))
    && (!s.sub.phase.Sending? ==> s.sub.buffer == [])
  }

  lemma CommitKeepsInv(s: State, ns: string, batch: seq<Mutation>)
    requires Inv(s)
    ensures Inv(Next(s, Commit(ns, batch)))
  {
    InsertAllExtends(s.store, Tag(ns, batch));
    P.ExtendKeepsExact(s.store, InsertAll(s.store, Tag(ns, batch)), ProgressOf(s.sub));
  }

  lemma QueryKeepsInv(s: State)
    requires Inv(s) && s.sub.phase.Paging?
    ensures Inv(Next(s, RunQuery))
  {
    var s' := Next(s, RunQuery);
    var all := After(s.store.rows, s.sub.ns, s.sub.lastSent);
    var page := Pull(s.store.rows, s.sub.ns, s.sub.lastSent, PULL_LIMIT);
    assert page == all[..|page|] && s'.sub.buffer == page;
    PageExact(s.store.rows, s.sub.ns, s.sub.lastSent, |page|, P.Effective(ProgressOf(s'.sub)));
  }

  lemma DeliverKeepsInv(s: State)
    requires Inv(s) && s.sub.phase.Sending? && s.sub.buffer != []
    ensures Inv(Next(s, Deliver))
    ensures P.Effective(ProgressOf(Next(s, Deliver).sub)) == P.Effective(ProgressOf(s.sub))
  {
    hide P.SentExactly, P.Effective;
    P.SendKeepsExact(s.store, ProgressOf(s.sub));
    assert ProgressOf(Next(s, Deliver).sub) == P.SendFirst(ProgressOf(s.sub));
  }

  lemma NextKeepsInv(s: State, step: Step)
    requires Inv(s)
    ensures Inv(Next(s, step))
  {
    hide P.SentExactly;
    match step
    case Commit(ns, batch) => CommitKeepsInv(s, ns, batch);
    case RunQuery => if s.sub.phase.Paging? { QueryKeepsInv(s); }
    case Deliver => if s.sub.phase.Sending? && s.sub.buffer != [] { DeliverKeepsInv(s); }
    case _ => assert ProgressOf(Next(s, step).sub) == ProgressOf(s.sub);
  }

  lemma {:induction false} RunKeepsInv(s: State, steps: seq<Step>)
    requires Inv(s)
    ensures Inv(Run(s, steps))
  {
    hide Next, Inv;
    if steps != [] {
      RunKeepsInv(s, steps[..|steps| - 1]);
      NextKeepsInv(Run(s, steps[..|steps| - 1]), steps[|steps| - 1]);
    }
  }

  /**
   In every interleaving of pushes, lost notifications and page boundaries, what has been
   sent is the namespace's log in (from, lastSent].
   */
  lemma SubscriptionIsGapFree(store: Store, wire: seq<string>, ns: string, from: nat, steps: seq<Step>)
    requires Valid(store)
    ensures var s := Run(State(store, wire, Opened(ns, from)), steps);
      && Inv(s)
      && s.sub.sent == Range(s.store.rows, s.sub.ns, s.sub.from, s.sub.lastSent)
  {
    var s0 := State(store, wire, Opened(ns, from));
    RunKeepsInv(s0, steps);
    P.SentIsRange(Run(s0, steps).store, ProgressOf(Run(s0, steps).sub));
  }

  // ---- completeness at rest ----

  /** Everything committed is sent or fetched. */
  ghost predicate CaughtUp(s: State) {
    forall r | r in s.store.rows && r.namespace == s.sub.ns :: r.sequence <= P.Effective(ProgressOf(s.sub))
  }

  /** No further query is planned for what is already committed. */
  predicate Settled(sub: Sub) {
    sub.phase.Waiting? || (sub.phase.Sending? && !sub.phase.full)
  }

  predicate Announced(s: State) {
    s.sub.ns in s.sub.queue || s.sub.ns in s.wire
  }

  /** Whatever is not yet fetched will be: a query is planned or a notification is on its way. */
  ghost predicate Promised(s: State) {
    Settled(s.sub) ==> CaughtUp(s) || Announced(s)
  }

  predicate AtRest(s: State) {
    s.sub.phase.Waiting? && !Announced(s)
  }

  predicate NoLosses(steps: seq<Step>) {
    forall i | 0 <= i < |steps| :: !steps[i].LoseOnWire? && !steps[i].DropOldest?
  }

  /** However a subscriber comes to rest without a further loss, it has everything. */
  ghost predicate RestsComplete(s: State) {
    forall steps | NoLosses(steps) && AtRest(Run(s, steps)) :: CaughtUp(Run(s, steps))
  }

  lemma CommitKeepsPromise(s: State, ns: string, batch: seq<Mutation>)
    requires Promised(s)
    ensures Promised(Next(s, Commit(ns, batch)))
  {
    var s' := Next(s, Commit(ns, batch));
    assert ns in s'.wire && forall x | x in s.wire :: x in s'.wire;
    if ns != s.sub.ns {
      InsertAllOtherNamespace(s.store, Tag(ns, batch), s.sub.ns);
    }
  }

  lemma {:induction false} InsertAllOtherNamespace(st: Store, items: seq<Item>, ns: string)
    requires forall x | x in items :: x.namespace != ns
    ensures forall r | r in InsertAll(st, items).rows && r.namespace == ns :: r in st.rows
  {
    if items != [] {
      InsertAllOtherNamespace(st, items[..|items| - 1], ns);
    }
  }

  lemma QueryKeepsPromise(s: State)
    requires Inv(s) && s.sub.phase.Paging?
    ensures Promised(Next(s, RunQuery))
  {
    var s' := Next(s, RunQuery);
    var hi := P.Effective(ProgressOf(s'.sub));
    var all := After(s.store.rows, s.sub.ns, s.sub.lastSent);
    var page := Pull(s.store.rows, s.sub.ns, s.sub.lastSent, PULL_LIMIT);
    assert page == all[..|page|] && s'.sub.buffer == page;
    PageExact(s.store.rows, s.sub.ns, s.sub.lastSent, |page|, hi);
    if Settled(s'.sub) {
      assert |page| == |all| && After(s.store.rows, s.sub.ns, hi) == [];
      forall r | r in s.store.rows && r.namespace == s.sub.ns ensures r.sequence <= hi {
        assert r.sequence > hi ==> r in After(s.store.rows, s.sub.ns, hi);
      }
    }
  }

  lemma NextKeepsPromise(s: State, step: Step)
    requires Inv(s) && Promised(s) && !step.LoseOnWire? && !step.DropOldest?
    ensures Promised(Next(s, step))
  {
    hide P.SentExactly;
    match step
    case Commit(ns, batch) => CommitKeepsPromise(s, ns, batch);
    case RunQuery => if s.sub.phase.Paging? { QueryKeepsPromise(s); }
    case Deliver => if s.sub.phase.Sending? && s.sub.buffer != [] { DeliverKeepsInv(s); }
    case Forward => assert forall x | x in s.wire :: x == s.wire[0] || x in s.wire[1..];
    case Receive => assert forall x | x in s.sub.queue :: x == s.sub.queue[0] || x in s.sub.queue[1..];
  }

  lemma {:induction false} RunKeepsPromise(s: State, steps: seq<Step>)
    requires Inv(s) && Promised(s) && NoLosses(steps)
    ensures Promised(Run(s, steps))
  {
    hide Next, Inv, Promised;
    if steps != [] {
      var front := steps[..|steps| - 1];
      RunKeepsPromise(s, front);
      RunKeepsInv(s, front);
      NextKeepsPromise(Run(s, front), steps[|steps| - 1]);
    }
  }

  /** Emptying the buffer brings a settled subscriber to rest without learning anything new. */
  lemma {:induction false} SettledComesToRest(s: State) returns (steps: seq<Step>)
    requires Inv(s) && Settled(s.sub) && !Announced(s)
    ensures NoLosses(steps) && AtRest(Run(s, steps))
    ensures CaughtUp(Run(s, steps)) <==> CaughtUp(s)
    decreases |s.sub.buffer|, s.sub.phase.Sending?
  {
    if s.sub.phase.Waiting? {
      steps := [];
      return;
    }
    var s' := Next(s, Deliver);
    if s.sub.buffer != [] {
      DeliverKeepsInv(s);
    } else {
      NextKeepsInv(s, Deliver);
    }
    assert CaughtUp(s') <==> CaughtUp(s);
    var rest := SettledComesToRest(s');
    steps := [Deliver] + rest;
    RunCons(s, Deliver, rest);
  }

  lemma {:induction false} RunCons(s: State, x: Step, steps: seq<Step>)
    ensures Run(s, [x] + steps) == Run(Next(s, x), steps)
  {
    hide Next;
    if steps == [] {
      RunSnoc(s, [], x);
      assert [x] + steps == [] + [x];
    } else {
      RunCons(s, x, steps[..|steps| - 1]);
      ConcatSnoc([x], steps);
      RunSnoc(s, [x] + steps[..|steps| - 1], steps[|steps| - 1]);
    }
  }

  /** A subscriber rests complete exactly when what it has not fetched is planned or announced. */
  lemma RestsCompleteIff(s: State)
    requires Inv(s)
    ensures RestsComplete(s) <==> Promised(s)
  {
    if Promised(s) {
      forall steps | NoLosses(steps) && AtRest(Run(s, steps)) ensures CaughtUp(Run(s, steps)) {
        RunKeepsPromise(s, steps);
      }
    } else {
      var steps := SettledComesToRest(s);
    }
  }

  /** Losing a notification does harm exactly when the rows it stood for have no other announcement. */
  lemma LossHarmsIff(s: State)
    requires Inv(s)
    ensures s.sub.queue != [] ==>
      (RestsComplete(Next(s, DropOldest)) <==>
        (Settled(s.sub) ==> CaughtUp(s) || s.sub.ns in s.sub.queue[1..] || s.sub.ns in s.wire))
    ensures s.wire != [] ==>
      (RestsComplete(Next(s, LoseOnWire)) <==>
        (Settled(s.sub) ==> CaughtUp(s) || s.sub.ns in s.sub.queue || s.sub.ns in s.wire[1..]))
  {
    NextKeepsInv(s, DropOldest);
    NextKeepsInv(s, LoseOnWire);
    RestsCompleteIff(Next(s, DropOldest));
    RestsCompleteIff(Next(s, LoseOnWire));
  }

  /** Waiting, having everything means that the whole tail was sent. */
  lemma WaitingIsComplete(s: State)
    requires Inv(s) && s.sub.phase.Waiting?
    ensures s.sub.sent == After(s.store.rows, s.sub.ns, s.sub.from) <==> CaughtUp(s)
  {
    var rows, ns, from, last := s.store.rows, s.sub.ns, s.sub.from, s.sub.lastSent;
    P.SentIsRange(s.store, ProgressOf(s.sub));
    if CaughtUp(s) {
      FilterCongruence(rows, (x: Row) => InRange(x, ns, from, last), (x: Row) => x.namespace == ns && x.sequence > from);
    } else {
      var r :| r in rows && r.namespace == ns && r.sequence > last;
      assert r in After(rows, ns, from) && r !in Range(rows, ns, from, last);
    }
  }

  /** Without losses a subscription at rest has sent its whole tail, however it was opened. */
  lemma RestIsComplete(store: Store, wire: seq<string>, ns: string, from: nat, steps: seq<Step>)
    requires Valid(store) && NoLosses(steps)
    requires AtRest(Run(State(store, wire, Opened(ns, from)), steps))
    ensures var s := Run(State(store, wire, Opened(ns, from)), steps);
      s.sub.sent == After(s.store.rows, s.sub.ns, s.sub.from)
  {
    var s0 := State(store, wire, Opened(ns, from));
    RunKeepsInv(s0, steps);
    RunKeepsPromise(s0, steps);
    WaitingIsComplete(Run(s0, steps));
  }

  /** A lag is only logged: the row whose notification was dropped stays unsent until the next one. */
  lemma LostNotificationStalls(ns: string, m: Mutation)
    ensures var s := Run(State(EMPTY, [], Opened(ns, 0)), [RunQuery, Commit(ns, [m]), Forward, DropOldest]);
      && s.store.rows == [Row(1, ns, m)] && s.sub.sent == []
      && AtRest(s) && s.sub.queue == [] && s.wire == []
  {
    hide Run;
    var s0 := State(EMPTY, [], Opened(ns, 0));
    RunFour(s0, RunQuery, Commit(ns, [m]), Forward, DropOldest);
    var s1 := Next(s0, RunQuery);
    assert s1 == s0.(sub := s0.sub.(phase := Waiting));
    InsertAllSnoc(EMPTY, [], Item(ns, m));
    assert Tag(ns, [m]) == [] + [Item(ns, m)];
    var s2 := Next(s1, Commit(ns, [m]));
    assert s2.wire == [ns] && s2.sub == s1.sub && s2.store.rows == [Row(1, ns, m)];
    var s3 := Next(s2, Forward);
    assert s3.wire == [] && s3.sub == s1.sub.(queue := [ns]) && s3.store == s2.store;
  }

  lemma RunFour(s: State, a: Step, b: Step, c: Step, d: Step)
    ensures Run(s, [a, b, c, d]) == Next(Next(Next(Next(s, a), b), c), d)
  {
    hide Next, Run;
    RunNone(s);
    RunSnoc(s, [], a);
    RunSnoc(s, [] + [a], b);
    RunSnoc(s, [] + [a] + [b], c);
    RunSnoc(s, [] + [a] + [b] + [c], d);
    assert [a, b, c, d] == [] + [a] + [b] + [c] + [d];
  }

  lemma RunNone(s: State)
    ensures Run(s, []) == s
  {
  }

  /** The subscription loop over a fixed log: nested loops over pages and the rows of a page. */
  class Task {
    const ns: string
    var lastSent: nat
    var sent: seq<Row>

    constructor (ns: string, from: nat)
      ensures this.ns == ns && lastSent == from && sent == []
    {
      this.ns := ns;
      lastSent := from;
      sent := [];
    }

    method SendPage(page: seq<Row>)
      requires Ascending(page) && forall r | r in page :: r.sequence > lastSent
      modifies this
      ensures sent == old(sent) + page
      ensures lastSent == if page == [] then old(lastSent) else page[|page| - 1].sequence
    {
      for i := 0 to |page|
        invariant sent == old(sent) + page[..i]
        invariant lastSent == if i == 0 then old(lastSent) else page[i - 1].sequence
      {
        PrefixSnoc(page, i);
        assert page[i] in page;
        lastSent := Max(lastSent, page[i].sequence);
        sent := sent + [page[i]];
      }
    }

    /** Paging ends, and then everything committed above the cursor has been sent. */
    method SendPending(rows: seq<Row>)
      requires Ascending(rows)
      modifies this
      ensures sent == old(sent) + After(rows, ns, old(lastSent))
      ensures After(rows, ns, lastSent) == []
    {
      ghost var expected := sent + After(rows, ns, lastSent);
      while true
        invariant sent + After(rows, ns, lastSent) == expected
        decreases |After(rows, ns, lastSent)|
      {
        var page := Pull(rows, ns, lastSent, PULL_LIMIT);
        NextPage(rows, ns, lastSent, PULL_LIMIT);
        if page == [] {
          break;
        }
        SendPage(page);
        if |page| < PULL_LIMIT {
          break;
        }
      }
    }
  }
}
