/**
 One hybrid clock shared by many threads, at the grain of its atomic operations: each load,
 compare-exchange and store is a step of its own, in any interleaving.
 */
module ClockThreads {
  import opened HybridClock
  import opened Prelude

  datatype Call = NowCall | UpdateCall(received: Stamp)

  /** The next atomic operation of a thread. */
  datatype Pc =
    | Idle
    | LoadWall
    | LoadLogical(w: nat)
    | Exchange(w: nat, wall: nat, logical: u32)
    | StoreLogical(wall: nat, logical: u32)

  /** `floor` is the shared wall when the call began; `before` how many calls had returned by then. */
  datatype Thread = Thread(call: Call, sys: nat, floor: nat, before: nat, pc: Pc)

  datatype Returned = Returned(before: nat, stamp: Stamp)

  datatype State = State(wall: nat, logical: u32, threads: seq<Thread>, history: seq<Returned>)

  datatype Step = Begin(thread: nat, call: Call, sys: nat) | Advance(thread: nat, sys: nat)

  /** The new value computed from the two loads. */
  function Proposal(call: Call, sys: nat, w: nat, l: u32): (t: Stamp) {
    match call
    case NowCall => StampOf(Now(Clock(w, l, false), sys))
    case UpdateCall(received) => StampOf(Receive(Clock(w, l, false), received, sys))
  }

  function SetPc(s: State, i: nat, pc: Pc): State
    requires i < |s.threads|
  {
    s.(threads := s.threads[i := s.threads[i].(pc := pc)])
  }

  /** `now` reads the system clock once, `update_with_received` on every turn of its loop. */
  function Next(s: State, step: Step): (s': State) {
    if step.thread >= |s.threads| then s
    else
      var i, t := step.thread, s.threads[step.thread];
      match step
      case Begin(_, call, sys) =>
        if t.pc.Idle? then s.(threads := s.threads[i := Thread(call, sys, s.wall, |s.history|, LoadWall)]) else s
      case Advance(_, sys) =>
        match t.pc
        case Idle => s
        case LoadWall => SetPc(s, i, LoadLogical(s.wall))
        case LoadLogical(w) =>
          var p := Proposal(t.call, if t.call.NowCall? then t.sys else sys, w, s.logical);
          SetPc(s, i, Exchange(w, p.wall, p.logical))
        case Exchange(w, wall, logical) =>
          if s.wall == w then SetPc(s, i, StoreLogical(wall, logical)).(wall := wall)
          else SetPc(s, i, LoadWall)
        case StoreLogical(wall, logical) =>
          SetPc(s, i, Idle).(logical := logical, history := s.history + [Returned(t.before, Stamp(wall, logical))])
  }

  function Run(s: State, steps: seq<Step>): (s': State) {
    if steps == [] then s else Next(Run(s, steps[..|steps| - 1]), steps[|steps| - 1])
  }

  predicate ThreadInv(s: State, t: Thread) {
    t.pc.Idle? || (
      && t.floor <= s.wall
      && t.before <= |s.history|
      && (forall a | 0 <= a < t.before :: s.history[a].stamp.wall <= t.floor)
      && match t.pc
         case LoadLogical(w) => t.floor <= w <= s.wall
         case Exchange(w, wall, _) => t.floor <= w <= s.wall && w <= wall
         case StoreLogical(wall, _) => t.floor <= wall <= s.wall
         case _ => true)
  }

  ghost predicate Inv(s: State) {
    && (forall i | 0 <= i < |s.threads| :: ThreadInv(s, s.threads[i]))
    && (forall a | 0 <= a < |s.history| :: s.history[a].stamp.wall <= s.wall)
    && (forall b | 0 <= b < |s.history| :: s.history[b].before <= b)
    && (forall a, b | 0 <= b < |s.history| && 0 <= a < s.history[b].before ::
          s.history[a].stamp.wall <= s.history[b].stamp.wall)
  }

  lemma ThreadsMonotone(s: State, s': State, t: Thread)
    requires ThreadInv(s, t)
    requires s.wall <= s'.wall && s.history <= s'.history
    ensures ThreadInv(s', t)
  {
    assert forall a | 0 <= a < |s.history| :: s'.history[a] == s.history[a];
  }

  lemma OwnStep(s: State, step: Step)
    requires Inv(s) && step.thread < |s.threads|
    ensures var s' := Next(s, step);
      && ThreadInv(s', s'.threads[step.thread])
      && s.wall <= s'.wall && s.history <= s'.history
  {
    assert ThreadInv(s, s.threads[step.thread]);
  }

  lemma NextKeepsInv(s: State, step: Step)
    requires Inv(s)
    ensures Inv(Next(s, step))
    ensures s.wall <= Next(s, step).wall
  {
    var s' := Next(s, step);
    if step.thread < |s.threads| {
      OwnStep(s, step);
      assert ThreadInv(s, s.threads[step.thread]);
      forall k | 0 <= k < |s'.threads| ensures ThreadInv(s', s'.threads[k]) {
        if k != step.thread {
          assert ThreadInv(s, s.threads[k]);
          ThreadsMonotone(s, s', s.threads[k]);
        }
      }
    }
  }

  /**
   In every interleaving the shared wall never decreases, and a call that began after another
   had returned gets a wall at least as large.
   */
  lemma {:induction false} InterleavingsAreMonotone(s: State, steps: seq<Step>)
    requires Inv(s)
    ensures Inv(Run(s, steps))
    ensures s.wall <= Run(s, steps).wall
    ensures var h := Run(s, steps).history;
      forall a, b | 0 <= b < |h| && 0 <= a < h[b].before :: h[a].stamp.wall <= h[b].stamp.wall
  {
    if steps != [] {
      InterleavingsAreMonotone(s, steps[..|steps| - 1]);
      NextKeepsInv(Run(s, steps[..|steps| - 1]), steps[|steps| - 1]);
    }
  }

  /** A new clock with idle threads. */
  function Fresh(sys: nat, n: nat): (s: State) {
    State(sys, 0, seq(n, _ => Thread(NowCall, 0, 0, 0, Idle)), [])
  }

  lemma FreshInv(sys: nat, n: nat)
    ensures Inv(Fresh(sys, n))
  {
  }

  /** So it is from a new clock, whatever its threads do. */
  lemma SharedClockIsMonotone(sys: nat, n: nat, steps: seq<Step>)
    ensures sys <= Run(Fresh(sys, n), steps).wall
    ensures forall b | 0 <= b < |Run(Fresh(sys, n), steps).history| :: Run(Fresh(sys, n), steps).history[b].before <= b
    ensures var h := Run(Fresh(sys, n), steps).history;
      forall a, b | 0 <= a < b < |h| && a < h[b].before :: h[a].stamp.wall <= h[b].stamp.wall
  {
    FreshInv(sys, n);
    InterleavingsAreMonotone(Fresh(sys, n), steps);
  }

  // ---- calls one after the other ----

  /** No call begins while another thread is in one. */
  predicate SerialRun(s: State, steps: seq<Step>) {
    steps == [] ||
    var front, step := steps[..|steps| - 1], steps[|steps| - 1];
    && SerialRun(s, front)
    && (step.Begin? ==> forall i | 0 <= i < |Run(s, front).threads| && i != step.thread :: Run(s, front).threads[i].pc.Idle?)
  }

  /** The counters received are at most `bound`. */
  predicate Bounded(steps: seq<Step>, bound: nat) {
    forall i | 0 <= i < |steps| && steps[i].Begin? && steps[i].call.UpdateCall? :: steps[i].call.received.logical <= bound
  }

  predicate Rising(h: seq<Returned>) {
    forall a, b | 0 <= a < b < |h| :: Less(h[a].stamp, h[b].stamp)
  }

  predicate AllBelow(h: seq<Returned>, t: Stamp) {
    forall a | 0 <= a < |h| :: Less(h[a].stamp, t)
  }

  predicate AllAtMost(h: seq<Returned>, t: Stamp) {
    forall a | 0 <= a < |h| :: AtMost(h[a].stamp, t)
  }

  /** What the one thread in a call knows: the clock has not changed under it. */
  predicate Alone(s: State, t: Thread, bound: nat) {
    t.pc.Idle? || (
      && (t.call.UpdateCall? ==> t.call.received.logical <= bound)
      && match t.pc
         case LoadLogical(w) => w == s.wall
         case Exchange(w, wall, logical) =>
           w == s.wall <= wall && logical <= bound && Less(Stamp(s.wall, s.logical), Stamp(wall, logical))
         case StoreLogical(wall, logical) =>
           wall == s.wall && logical <= bound && AllBelow(s.history, Stamp(wall, logical))
         case _ => true)
  }

  ghost predicate SerialInv(s: State, bound: nat) {
    && (forall i, j | 0 <= i < j < |s.threads| :: s.threads[i].pc.Idle? || s.threads[j].pc.Idle?)
    && (forall i | 0 <= i < |s.threads| :: Alone(s, s.threads[i], bound))
    && s.logical <= bound
    && Rising(s.history) && AllAtMost(s.history, Stamp(s.wall, s.logical))
  }

  lemma ProposalAdvances(call: Call, sys: nat, w: nat, l: u32, bound: nat)
    requires l <= bound < MAX_LOGICAL && (call.UpdateCall? ==> call.received.logical <= bound)
    ensures Less(Stamp(w, l), Proposal(call, sys, w, l))
    ensures Proposal(call, sys, w, l).logical <= bound + 1 && w <= Proposal(call, sys, w, l).wall
  {
    match call
    case NowCall => NowAdvancesIff(Clock(w, l, false), sys);
    case UpdateCall(received) => ReceiveAdvancesIff(Clock(w, l, false), received, sys);
  }

  lemma AloneAdvances(s: State, step: Step, bound: nat)
    requires SerialInv(s, bound) && bound < MAX_LOGICAL && step.Advance? && step.thread < |s.threads|
    ensures var s' := Next(s, step);
      && Alone(s', s'.threads[step.thread], bound + 1)
      && s'.logical <= bound + 1
      && Rising(s'.history) && AllAtMost(s'.history, Stamp(s'.wall, s'.logical))
  {
    var t := s.threads[step.thread];
    assert Alone(s, t, bound);
    match t.pc
    case LoadLogical(w) =>
      ProposalAdvances(t.call, if t.call.NowCall? then t.sys else step.sys, w, s.logical, bound);
    case Exchange(w, wall, logical) => ExchangeRises(s.history, Stamp(s.wall, s.logical), Stamp(wall, logical));
    case _ =>
  }

  lemma ExchangeRises(h: seq<Returned>, before: Stamp, after: Stamp)
    requires AllAtMost(h, before) && Less(before, after)
    ensures AllBelow(h, after) && AllAtMost(h, Stamp(after.wall, before.logical))
  {
  }

  lemma SerialNext(s: State, step: Step, bound: nat)
    requires SerialInv(s, bound) && bound < MAX_LOGICAL
    requires step.Begin? ==> forall i | 0 <= i < |s.threads| && i != step.thread :: s.threads[i].pc.Idle?
    requires step.Begin? && step.call.UpdateCall? ==> step.call.received.logical <= bound
    ensures SerialInv(Next(s, step), bound + 1)
  {
    var s' := Next(s, step);
    if step.thread < |s.threads| && step.Advance? && !s.threads[step.thread].pc.Idle? {
      AloneAdvances(s, step, bound);
      hide Alone, Rising, AllAtMost;
      forall i | 0 <= i < |s'.threads| && i != step.thread ensures s'.threads[i].pc.Idle? {
        assert s'.threads[i] == s.threads[i];
      }
      IdleIsAlone(s', bound + 1);
    } else {
      forall i | 0 <= i < |s'.threads| ensures Alone(s', s'.threads[i], bound + 1) {
        assert i != step.thread ==> s'.threads[i] == s.threads[i];
        assert Alone(s, s.threads[i], bound);
      }
    }
  }

  lemma IdleIsAlone(s: State, bound: nat)
    ensures forall i | 0 <= i < |s.threads| && s.threads[i].pc.Idle? :: Alone(s, s.threads[i], bound)
  {
  }

  lemma {:induction false} SerialRunKeepsInv(s: State, steps: seq<Step>, bound: nat)
    requires SerialInv(s, bound) && SerialRun(s, steps) && Bounded(steps, bound) && bound + |steps| < TWO_32
    ensures SerialInv(Run(s, steps), bound + |steps|)
  {
    hide Next, SerialInv;
    if steps != [] {
      SerialRunKeepsInv(s, steps[..|steps| - 1], bound);
      SerialNext(Run(s, steps[..|steps| - 1]), steps[|steps| - 1], bound + |steps| - 1);
    }
  }

  /**
   While calls come one after the other, and steps and counters received stay below 2^32 together,
   every timestamp is strictly above all earlier ones.
   */
  lemma SerialCallsRise(sys: nat, n: nat, steps: seq<Step>, bound: nat)
    requires SerialRun(Fresh(sys, n), steps) && Bounded(steps, bound) && bound + |steps| < TWO_32
    ensures Rising(Run(Fresh(sys, n), steps).history)
  {
    assert SerialInv(Fresh(sys, n), bound);
    SerialRunKeepsInv(Fresh(sys, n), steps, bound);
  }

  /** A list of states linked by steps is what the run goes through. */
  lemma {:induction false} RunPath(steps: seq<Step>, path: seq<State>)
    requires |path| == |steps| + 1
    requires forall i | 0 <= i < |steps| :: Next(path[i], steps[i]) == path[i + 1]
    ensures Run(path[0], steps) == path[|steps|]
  {
    if steps != [] {
      RunPath(steps[..|steps| - 1], path[..|steps|]);
    }
  }
}
