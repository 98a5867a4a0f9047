/** A Postgres subscription can always finish what is announced: it comes to rest without a loss. */
module PostgresRest {
  import opened MutationLog
  import opened PostgresSubscription
  import opened Prelude
  import opened Sequences
  import P = DeliveryProgress

  /** The next thing that can happen without a push and without a loss. */
  function NextMove(s: State): (step: Step) {
    if s.sub.phase.Paging? then RunQuery
    else if s.sub.phase.Sending? then Deliver
    else if s.sub.queue != [] then Receive
    else Forward
  }

  /** Within one stretch of paging: a sent-out page asks again, a query fills the buffer. */
  function Turn(sub: Sub): (n: nat) {
    if sub.phase.Waiting? then 0
    else if sub.phase.Paging? then 2
    else if sub.buffer != [] then 1
    else 3
  }

  predicate QuietSteps(steps: seq<Step>) {
    forall i | 0 <= i < |steps| :: !steps[i].Commit? && !steps[i].LoseOnWire? && !steps[i].DropOldest?
  }

  lemma AfterShrinks(rows: seq<Row>, ns: string, lo: nat, r: Row)
    requires r in rows && r.namespace == ns && r.sequence > lo
    ensures |After(rows, ns, r.sequence)| < |After(rows, ns, lo)|
  {
    var p := (x: Row) => x.namespace == ns && x.sequence > lo;
    var yes := (x: Row) => x.namespace == ns && x.sequence > r.sequence;
    var no := (x: Row) => x.namespace == ns && lo < x.sequence <= r.sequence;
    FilterSplits(rows, p, yes, no);
    assert r in Filter(rows, no);
  }

  lemma DeliverShrinks(s: State)
    requires Inv(s) && s.sub.phase.Sending? && s.sub.buffer != []
    ensures var s' := Next(s, Deliver);
      |After(s.store.rows, s.sub.ns, s'.sub.lastSent)| < |After(s.store.rows, s.sub.ns, s.sub.lastSent)|
  {
    var first := s.sub.buffer[0];
    assert first in s.sub.buffer;
    AfterShrinks(s.store.rows, s.sub.ns, s.sub.lastSent, first);
  }

  function Ahead(s: State): (n: nat) {
    |After(s.store.rows, s.sub.ns, s.sub.lastSent)|
  }

  /** Less on the wire, or in the queue, or to fetch, or a turn further on. */
  predicate Nearer(s': State, s: State) {
    || |s'.wire| < |s.wire|
    || (s'.wire == s.wire && |s'.sub.queue| < |s.sub.queue|)
    || (s'.wire == s.wire && s'.sub.queue == s.sub.queue && Ahead(s') < Ahead(s))
    || (s'.wire == s.wire && s'.sub.queue == s.sub.queue && Ahead(s') == Ahead(s) && Turn(s'.sub) < Turn(s.sub))
  }

  lemma MoveIsNearer(s: State)
    requires Inv(s) && !AtRest(s)
    ensures Nearer(Next(s, NextMove(s)), s) && Next(s, NextMove(s)).store == s.store
  {
    hide After, Inv;
    if s.sub.phase.Sending? && s.sub.buffer != [] {
      DeliverShrinks(s);
    }
  }

  lemma MoveIsQuiet(s: State)
    ensures QuietSteps([NextMove(s)])
  {
  }

  /** From every state of every run it can come to rest, and the log is as it was. */
  lemma {:induction false} ComesToRest(s: State) returns (steps: seq<Step>)
    requires Inv(s)
    ensures QuietSteps(steps) && AtRest(Run(s, steps)) && Run(s, steps).store == s.store
    decreases |s.wire|, |s.sub.queue|, Ahead(s), Turn(s.sub)
  {
    if AtRest(s) {
      steps := [];
      return;
    }
    hide Inv, Run, Ahead, Turn, Next, AtRest, NextMove;
    var step := NextMove(s);
    MoveIsQuiet(s);
    NextKeepsInv(s, step);
    MoveIsNearer(s);
    var rest := ComesToRest(Next(s, step));
    steps := [step] + rest;
    RunCons(s, step, rest);
  }

  /** So after any run without losses, nothing further lost, it can have sent the whole tail. */
  lemma CatchesUp(store: Store, wire: seq<string>, ns: string, from: nat, before: seq<Step>)
    returns (steps: seq<Step>)
    requires Valid(store) && NoLosses(before)
    ensures QuietSteps(steps)
    ensures var s := Run(Run(State(store, wire, Opened(ns, from)), before), steps);
      && s.store == Run(State(store, wire, Opened(ns, from)), before).store
      && s.sub.sent == After(s.store.rows, s.sub.ns, s.sub.from)
  {
    hide Run, Next, After;
    var s0 := State(store, wire, Opened(ns, from));
    OpenedInv(store, wire, ns, from);
    RunKeepsInv(s0, before);
    RunKeepsPromise(s0, before);
    var s := Run(s0, before);
    steps := ComesToRest(s);
    RunKeepsInv(s, steps);
    RunKeepsPromise(s, steps);
    WaitingIsComplete(Run(s, steps));
  }

  lemma OpenedInv(store: Store, wire: seq<string>, ns: string, from: nat)
    requires Valid(store)
    ensures Inv(State(store, wire, Opened(ns, from))) && Promised(State(store, wire, Opened(ns, from)))
  {
  }
}
