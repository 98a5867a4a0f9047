/** What the shared wall is in every interleaving: the largest time its successful calls knew. */
module ClockThreadReadings {
  import opened ClockThreads
  import opened HybridClock
  import opened Prelude

  /** The system time thread `i` last computed with: `now` reads it once, an update on every turn. */
  function LastReading(s0: State, steps: seq<Step>, i: nat): (v: nat) {
    if steps == [] then 0
    else
      var front, step := steps[..|steps| - 1], steps[|steps| - 1];
      var s := Run(s0, front);
      if step.Advance? && step.thread == i < |s.threads| && s.threads[i].pc.LoadLogical? then
        if s.threads[i].call.NowCall? then s.threads[i].sys else step.sys
      else LastReading(s0, front, i)
  }

  /** The wall a call received, if any. */
  function Received(call: Call): (w: nat) {
    if call.UpdateCall? then call.received.wall else 0
  }

  /** The step is an exchange that finds the wall it had loaded. */
  predicate Succeeds(s: State, step: Step) {
    step.Advance? && step.thread < |s.threads| && s.threads[step.thread].pc.Exchange?
    && s.threads[step.thread].pc.w == s.wall
  }

  /** The largest of the start and what every call that succeeded had received and read. */
  function LargestKnown(s0: State, steps: seq<Step>): (w: nat) {
    if steps == [] then s0.wall
    else
      var front, step := steps[..|steps| - 1], steps[|steps| - 1];
      var s := Run(s0, front);
      if Succeeds(s, step) then
        Max(LargestKnown(s0, front),
            Max(Received(s.threads[step.thread].call), LastReading(s0, front, step.thread)))
      else LargestKnown(s0, front)
  }

  ghost predicate Proposes(s0: State, steps: seq<Step>, i: nat) {
    var s := Run(s0, steps);
    i < |s.threads| && s.threads[i].pc.Exchange? ==>
      s.threads[i].pc.wall == Max(s.threads[i].pc.w, Max(Received(s.threads[i].call), LastReading(s0, steps, i)))
  }

  lemma ProposedWall(call: Call, sys: nat, w: nat, l: u32)
    ensures Proposal(call, sys, w, l).wall == Max(w, Max(Received(call), sys))
  {
  }

  /** What an exchange is about to store is the largest of what was loaded, received and read. */
  lemma {:induction false} ProposalIsLargest(s0: State, steps: seq<Step>, i: nat)
    requires forall k | 0 <= k < |s0.threads| :: s0.threads[k].pc.Idle?
    ensures Proposes(s0, steps, i)
  {
    if steps != [] {
      hide Proposal, Received;
      var front, step := steps[..|steps| - 1], steps[|steps| - 1];
      ProposalIsLargest(s0, front, i);
      var s := Run(s0, front);
      if step.Advance? && step.thread == i < |s.threads| && s.threads[i].pc.LoadLogical? {
        var t := s.threads[i];
        ProposedWall(t.call, if t.call.NowCall? then t.sys else step.sys, t.pc.w, s.logical);
      }
    }
  }

  lemma WallStep(s: State, step: Step)
    ensures Next(s, step).wall == if Succeeds(s, step) then s.threads[step.thread].pc.wall else s.wall
  {
  }

  /** In every interleaving the shared wall is exactly that largest time. */
  lemma {:induction false} SharedWallIsLargestKnown(s0: State, steps: seq<Step>)
    requires forall k | 0 <= k < |s0.threads| :: s0.threads[k].pc.Idle?
    ensures Run(s0, steps).wall == LargestKnown(s0, steps)
  {
    if steps != [] {
      hide Next, LastReading, Received;
      var front, step := steps[..|steps| - 1], steps[|steps| - 1];
      SharedWallIsLargestKnown(s0, front);
      WallStep(Run(s0, front), step);
      ProposalIsLargest(s0, front, step.thread);
    }
  }
}
