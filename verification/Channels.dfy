/**
 The channels are first-in first-out: what a subscriber has still to receive is always the latest
 part of what was broadcast, whatever was dropped.
 */
module Channels {
  import opened MutationLog
  import G = PostgresSubscription
  import S = SqliteSubscription

  // ---- rows broadcast to a SQLite subscriber ----

  predicate Broadcasts(s: S.State, step: S.Step) {
    step.Broadcast? && step.flight < |s.flights| && s.flights[step.flight] != []
  }

  /** A drop, or a receive that is not about a lag, takes one message off. */
  predicate Takes(s: S.State, step: S.Step) {
    && s.sub.queue != []
    && (step.DropOldest? || (step.Receive? && !s.sub.querying && s.sub.buffer == [] && !s.sub.lagged))
  }

  /** What was in the channel at first, and every row broadcast since. */
  function Arrived(s: S.State, steps: seq<S.Step>): (rows: seq<Row>) {
    if steps == [] then s.sub.queue
    else
      var front, step := steps[..|steps| - 1], steps[|steps| - 1];
      var s' := S.Run(s, front);
      Arrived(s, front) + if Broadcasts(s', step) then [s'.flights[step.flight][0]] else []
  }

  function Taken(s: S.State, steps: seq<S.Step>): (n: nat) {
    if steps == [] then 0
    else
      var front, step := steps[..|steps| - 1], steps[|steps| - 1];
      Taken(s, front) + if Takes(S.Run(s, front), step) then 1 else 0
  }

  lemma QueueStep(s: S.State, step: S.Step)
    ensures S.Next(s, step).sub.queue ==
      if Broadcasts(s, step) then s.sub.queue + [s.flights[step.flight][0]]
      else if Takes(s, step) then s.sub.queue[1..]
      else s.sub.queue
  {
  }

  /** In every run the channel holds all that arrived but the oldest, as many as were taken. */
  lemma {:induction false} QueueIsLatest(s: S.State, steps: seq<S.Step>)
    ensures Taken(s, steps) <= |Arrived(s, steps)|
    ensures S.Run(s, steps).sub.queue == Arrived(s, steps)[Taken(s, steps)..]
  {
    hide S.Next;
    if steps != [] {
      QueueIsLatest(s, steps[..|steps| - 1]);
      QueueStep(S.Run(s, steps[..|steps| - 1]), steps[|steps| - 1]);
    }
  }

  // ---- notifications to a Postgres subscriber ----

  /** The namespaces of the pushes so far, after what was on the wire at first. */
  function Committed(s: G.State, steps: seq<G.Step>): (names: seq<string>) {
    if steps == [] then s.wire
    else
      var front, step := steps[..|steps| - 1], steps[|steps| - 1];
      Committed(s, front) + if step.Commit? then [step.ns] else []
  }

  predicate LeavesWire(s: G.State, step: G.Step) {
    s.wire != [] && (step.Forward? || step.LoseOnWire?)
  }

  function Left(s: G.State, steps: seq<G.Step>): (n: nat) {
    if steps == [] then 0
    else
      var front, step := steps[..|steps| - 1], steps[|steps| - 1];
      Left(s, front) + if LeavesWire(G.Run(s, front), step) then 1 else 0
  }

  lemma WireStep(s: G.State, step: G.Step)
    ensures G.Next(s, step).wire ==
      if step.Commit? then s.wire + [step.ns] else if LeavesWire(s, step) then s.wire[1..] else s.wire
  {
  }

  /** Every push is announced once, in order; on the wire are the latest announcements. */
  lemma {:induction false} WireIsLatest(s: G.State, steps: seq<G.Step>)
    ensures Left(s, steps) <= |Committed(s, steps)|
    ensures G.Run(s, steps).wire == Committed(s, steps)[Left(s, steps)..]
  {
    hide G.Next;
    if steps != [] {
      WireIsLatest(s, steps[..|steps| - 1]);
      WireStep(G.Run(s, steps[..|steps| - 1]), steps[|steps| - 1]);
    }
  }

  function Notified(s: G.State, steps: seq<G.Step>): (names: seq<string>) {
    if steps == [] then s.sub.queue
    else
      var front, step := steps[..|steps| - 1], steps[|steps| - 1];
      var s' := G.Run(s, front);
      Notified(s, front) + if step.Forward? && s'.wire != [] then [s'.wire[0]] else []
  }

  predicate TakesName(s: G.State, step: G.Step) {
    s.sub.queue != [] && (step.DropOldest? || (step.Receive? && s.sub.phase.Waiting?))
  }

  function NamesTaken(s: G.State, steps: seq<G.Step>): (n: nat) {
    if steps == [] then 0
    else
      var front, step := steps[..|steps| - 1], steps[|steps| - 1];
      NamesTaken(s, front) + if TakesName(G.Run(s, front), step) then 1 else 0
  }

  lemma NamesStep(s: G.State, step: G.Step)
    ensures G.Next(s, step).sub.queue ==
      if step.Forward? && s.wire != [] then s.sub.queue + [s.wire[0]]
      else if TakesName(s, step) then s.sub.queue[1..]
      else s.sub.queue
  {
  }

  /** And the channel holds the latest of those that came over the wire. */
  lemma {:induction false} NamesAreLatest(s: G.State, steps: seq<G.Step>)
    ensures NamesTaken(s, steps) <= |Notified(s, steps)|
    ensures G.Run(s, steps).sub.queue == Notified(s, steps)[NamesTaken(s, steps)..]
  {
    hide G.Next;
    if steps != [] {
      NamesAreLatest(s, steps[..|steps| - 1]);
      NamesStep(G.Run(s, steps[..|steps| - 1]), steps[|steps| - 1]);
    }
  }
}
