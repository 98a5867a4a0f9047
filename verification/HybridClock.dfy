/**
 The hybrid logical clock: one clock's operations, and causality over every
 message-passing run of any number of replicas with arbitrary system clocks.
 */
module HybridClock {
  import opened Prelude

  const MAX_LOGICAL: nat := TWO_32 - 1

  datatype Stamp = Stamp(wall: nat, logical: u32)

  datatype Clock = Clock(wall: nat, logical: u32, wrapped: bool)

  /** The derived order: wall first, then logical. */
  predicate Less(a: Stamp, b: Stamp) {
    a.wall < b.wall || (a.wall == b.wall && a.logical < b.logical)
  }

  predicate AtMost(a: Stamp, b: Stamp) {
    a == b || Less(a, b)
  }

  function StampOf(c: Clock): Stamp {
    Stamp(c.wall, c.logical)
  }

  function WrappingIncrement(x: u32): (r: u32) {
    (x + 1) % TWO_32
  }

  function Now(c: Clock, sys: nat): (c': Clock) {
    var wall := if sys > c.wall then sys else c.wall;
    var logical := if sys > c.wall then 0 else WrappingIncrement(c.logical);
    Clock(wall, logical, c.wrapped || (logical == 0 && c.logical > 0))
  }

  function Receive(c: Clock, t: Stamp, sys: nat): (c': Clock) {
    var wall := Max(Max(c.wall, t.wall), sys);
    var logical :=
      if wall == c.wall then WrappingIncrement(Max(c.logical, t.logical))
      else if wall == t.wall then WrappingIncrement(t.logical)
      else 0;
    Clock(wall, logical, c.wrapped)
  }

  class HybridLogicalClock {
    var wall: nat
    var logical: u32
    var wrapped: bool

    ghost function Value(): Clock
      reads this
    {
      Clock(wall, logical, wrapped)
    }

    constructor (sys: nat)
      ensures Value() == Clock(sys, 0, false)
    {
      wall, logical, wrapped := sys, 0, false;
    }

    /** A call that meets no other call: the first compare-exchange succeeds. */
    method Tick(sys: nat) returns (t: Stamp)
      modifies this
      ensures Value() == Now(old(Value()), sys) && t == StampOf(Value())
    {
      var w, l := wall, logical;
      if sys > w {
        wall, logical := sys, 0;
      } else {
        logical := WrappingIncrement(l);
      }
      if logical == 0 && l > 0 {
        wrapped := true;
      }
      t := Stamp(wall, logical);
    }

    method DidLogicalWrap() returns (r: bool)
      ensures r == Value().wrapped
    {
      r := wrapped;
    }

    method ClearLogicalWrap()
      modifies this
      ensures Value() == Invoke(old(Value()), ClearCall)
    {
      wrapped := false;
    }

    method UpdateWithReceived(received: Stamp, sys: nat)
      modifies this
      ensures Value() == Receive(old(Value()), received, sys)
    {
      var w, l := wall, logical;
      wall := Max(Max(w, received.wall), sys);
      if wall == w {
        logical := WrappingIncrement(Max(l, received.logical));
      } else if wall == received.wall {
        logical := WrappingIncrement(received.logical);
      } else {
        logical := 0;
      }
    }
  }

  // ---- one step ----

  predicate NowWraps(c: Clock, sys: nat) {
    sys <= c.wall && c.logical == MAX_LOGICAL
  }

  predicate ReceiveWraps(c: Clock, t: Stamp, sys: nat) {
    var wall := Max(Max(c.wall, t.wall), sys);
    if wall == c.wall then Max(c.logical, t.logical) == MAX_LOGICAL
    else wall == t.wall && t.logical == MAX_LOGICAL
  }

  lemma IncrementIs(x: u32)
    ensures WrappingIncrement(x) == if x == MAX_LOGICAL then 0 else x + 1
  {
  }

  /** A call advances the clock exactly when the logical counter does not wrap. */
  lemma NowAdvancesIff(c: Clock, sys: nat)
    ensures Less(StampOf(c), StampOf(Now(c, sys))) <==> !NowWraps(c, sys)
  {
    IncrementIs(c.logical);
  }

  /** A receive passes both the clock and the message exactly when the counter does not wrap. */
  lemma ReceiveAdvancesIff(c: Clock, t: Stamp, sys: nat)
    ensures Less(StampOf(c), StampOf(Receive(c, t, sys))) && Less(t, StampOf(Receive(c, t, sys)))
       <==> !ReceiveWraps(c, t, sys)
  {
    IncrementIs(Max(c.logical, t.logical));
    IncrementIs(t.logical);
  }

  // ---- the wrap flag ----

  /** The calls on one clock. */
  datatype ClockCall = TickCall(sys: nat) | MergeCall(received: Stamp, sys: nat) | ClearCall

  function Invoke(c: Clock, call: ClockCall): (c': Clock) {
    match call
    case TickCall(sys) => Now(c, sys)
    case MergeCall(t, sys) => Receive(c, t, sys)
    case ClearCall => c.(wrapped := false)
  }

  function InvokeAll(c: Clock, calls: seq<ClockCall>): (c': Clock) {
    if calls == [] then c else Invoke(InvokeAll(c, calls[..|calls| - 1]), calls[|calls| - 1])
  }

  predicate TickWraps(c: Clock, call: ClockCall) {
    call.TickCall? && NowWraps(c, call.sys)
  }

  predicate MergeWraps(c: Clock, call: ClockCall) {
    call.MergeCall? && ReceiveWraps(c, call.received, call.sys)
  }

  /** The wall moves on and takes a counter above 0 back to 0. */
  predicate Jumps(c: Clock, call: ClockCall) {
    call.TickCall? && call.sys > c.wall && c.logical > 0
  }

  predicate SinceClear(calls: seq<ClockCall>, i: nat) {
    forall j | i < j < |calls| :: !calls[j].ClearCall?
  }

  /** Some call since the flag was last cleared was made in a state where `p` holds. */
  ghost predicate Since(c: Clock, calls: seq<ClockCall>, p: (Clock, ClockCall) -> bool) {
    exists i | 0 <= i < |calls| :: SinceClear(calls, i) && p(InvokeAll(c, calls[..i]), calls[i])
  }

  lemma SinceClearStep(calls: seq<ClockCall>, i: nat)
    requires i < |calls| - 1
    ensures SinceClear(calls, i) <==> SinceClear(calls[..|calls| - 1], i) && !calls[|calls| - 1].ClearCall?
  {
    var n := |calls| - 1;
    assert forall j | 0 <= j < n :: calls[..n][j] == calls[j];
  }

  lemma SinceStep(c: Clock, calls: seq<ClockCall>, p: (Clock, ClockCall) -> bool)
    requires calls != [] && forall x :: !p(x, ClearCall)
    ensures var front, last := calls[..|calls| - 1], calls[|calls| - 1];
      Since(c, calls, p) <==> !last.ClearCall? && (Since(c, front, p) || p(InvokeAll(c, front), last))
  {
    hide InvokeAll, SinceClear;
    var n := |calls| - 1;
    var front, last := calls[..n], calls[n];
    SinceClearLast(calls);
    forall i | 0 <= i < n
      ensures SinceClear(calls, i) <==> SinceClear(front, i) && !last.ClearCall?
      ensures p(InvokeAll(c, front[..i]), front[i]) == p(InvokeAll(c, calls[..i]), calls[i])
    {
      SinceClearStep(calls, i);
      assert front[..i] == calls[..i];
    }
  }

  lemma SinceClearLast(calls: seq<ClockCall>)
    requires calls != []
    ensures SinceClear(calls, |calls| - 1)
  {
  }

  /** What the flag says, after any calls: a tick since the last clear wrapped the counter or jumped over it. */
  lemma {:induction false} FlagMeans(c: Clock, calls: seq<ClockCall>)
    requires !c.wrapped
    ensures InvokeAll(c, calls).wrapped <==> Since(c, calls, TickWraps) || Since(c, calls, Jumps)
  {
    hide Since;
    if calls == [] {
      SinceNone(c, TickWraps);
      SinceNone(c, Jumps);
    } else {
      FlagMeans(c, calls[..|calls| - 1]);
      SinceStep(c, calls, TickWraps);
      SinceStep(c, calls, Jumps);
      FlagStep(InvokeAll(c, calls[..|calls| - 1]), calls[|calls| - 1]);
    }
  }

  lemma SinceNone(c: Clock, p: (Clock, ClockCall) -> bool)
    ensures !Since(c, [], p)
  {
  }

  lemma FlagStep(c: Clock, call: ClockCall)
    ensures Invoke(c, call).wrapped <==> !call.ClearCall? && (c.wrapped || TickWraps(c, call) || Jumps(c, call))
  {
    IncrementIs(c.logical);
  }

  /**
   The flag says whether the counter wrapped since the last clear exactly when a tick did wrap it,
   or it was jumped over just in case it wrapped in a merge, which the flag does not notice.
   */
  lemma WrapFlagIff(c: Clock, calls: seq<ClockCall>)
    requires !c.wrapped
    ensures (InvokeAll(c, calls).wrapped <==> Since(c, calls, TickWraps) || Since(c, calls, MergeWraps))
       <==> Since(c, calls, TickWraps) || (Since(c, calls, Jumps) <==> Since(c, calls, MergeWraps))
  {
    hide Since;
    FlagMeans(c, calls);
  }

  /** An ordinary advance of time raises the flag; a wrap on receive does not. */
  lemma WrapFlagIsUnreliable()
    ensures var c, calls := Clock(5, 1, false), [TickCall(6)];
      InvokeAll(c, calls).wrapped && !Since(c, calls, TickWraps) && !Since(c, calls, MergeWraps)
    ensures var c, calls := Clock(5, MAX_LOGICAL, false), [MergeCall(Stamp(5, 0), 5)];
      !InvokeAll(c, calls).wrapped && Since(c, calls, MergeWraps)
  {
    OneCall(Clock(5, 1, false), TickCall(6));
    OneCall(Clock(5, MAX_LOGICAL, false), MergeCall(Stamp(5, 0), 5));
  }

  lemma OneCall(c: Clock, call: ClockCall)
    requires !call.ClearCall?
    ensures InvokeAll(c, [call]) == Invoke(c, call)
    ensures Since(c, [call], TickWraps) <==> TickWraps(c, call)
    ensures Since(c, [call], MergeWraps) <==> MergeWraps(c, call)
  {
    hide Since;
    assert [call][..0] == [];
    SinceNone(c, TickWraps);
    SinceNone(c, MergeWraps);
    SinceStep(c, [call], TickWraps);
    SinceStep(c, [call], MergeWraps);
  }

  // ---- runs of many replicas ----

  /** A replica takes a timestamp, or processes the message that carried an earlier timestamp. */
  datatype Event =
    | Tick(replica: nat, sys: nat)
    | Deliver(replica: nat, message: nat, sys: nat)

  /** Messages carry timestamps of earlier ticks; `n` is the number of replicas. */
  predicate WellFormed(n: nat, events: seq<Event>) {
    forall i | 0 <= i < |events| ::
      && events[i].replica < n
      && (events[i].Deliver? ==> events[i].message < i && events[events[i].message].Tick?)
  }

  datatype Outcome = Outcome(clocks: seq<Clock>, stamps: seq<Stamp>)

  function Step(o: Outcome, e: Event): (o': Outcome)
    requires e.replica < |o.clocks|
    requires e.Deliver? ==> e.message < |o.stamps|
    ensures |o'.clocks| == |o.clocks| && |o'.stamps| == |o.stamps| + 1
  {
    var c := o.clocks[e.replica];
    var c' := if e.Tick? then Now(c, e.sys) else Receive(c, o.stamps[e.message], e.sys);
    Outcome(o.clocks[e.replica := c'], o.stamps + [StampOf(c')])
  }

  /** Clocks start at the system times in `init`; `stamps[i]` is the replica's clock after event `i`. */
  function Exec(init: seq<nat>, events: seq<Event>): (o: Outcome)
    requires WellFormed(|init|, events)
    ensures |o.clocks| == |init| && |o.stamps| == |events|
  {
    if events == [] then Outcome(seq(|init|, i requires 0 <= i < |init| => Clock(init[i], 0, false)), [])
    else Step(Exec(init, events[..|events| - 1]), events[|events| - 1])
  }

  /** The counters grow by at most one an event, so 2^32 - 1 events cannot make one wrap. */
  lemma {:induction false} LogicalBounded(init: seq<nat>, events: seq<Event>)
    requires WellFormed(|init|, events)
    ensures forall r | 0 <= r < |init| :: Exec(init, events).clocks[r].logical <= |events|
    ensures forall i | 0 <= i < |events| :: Exec(init, events).stamps[i].logical <= |events|
  {
    hide Step;
    if events != [] {
      var n := |events| - 1;
      LogicalBounded(init, events[..n]);
      StepBounded(Exec(init, events[..n]), events[n], n);
    }
  }

  lemma StepBounded(o: Outcome, e: Event, bound: nat)
    requires e.replica < |o.clocks| && (e.Deliver? ==> e.message < |o.stamps|)
    requires forall r | 0 <= r < |o.clocks| :: o.clocks[r].logical <= bound
    requires forall i | 0 <= i < |o.stamps| :: o.stamps[i].logical <= bound
    ensures forall r | 0 <= r < |o.clocks| :: Step(o, e).clocks[r].logical <= bound + 1
    ensures forall i | 0 <= i <= |o.stamps| :: Step(o, e).stamps[i].logical <= bound + 1
  {
    var c := o.clocks[e.replica];
    IncrementIs(c.logical);
    if e.Deliver? {
      IncrementIs(Max(c.logical, o.stamps[e.message].logical));
      IncrementIs(o.stamps[e.message].logical);
    }
  }

  /** No wall ever exceeds the largest system time read so far by any replica. */
  lemma {:induction false} WallsWithinSystemTime(init: seq<nat>, events: seq<Event>, bound: nat)
    requires WellFormed(|init|, events)
    requires forall i | 0 <= i < |init| :: init[i] <= bound
    requires forall i | 0 <= i < |events| :: events[i].sys <= bound
    ensures forall r | 0 <= r < |init| :: Exec(init, events).clocks[r].wall <= bound
    ensures forall i | 0 <= i < |events| :: Exec(init, events).stamps[i].wall <= bound
  {
    if events != [] {
      WallsWithinSystemTime(init, events[..|events| - 1], bound);
    }
  }

  /** The event's new stamp passes the replica's clock, and the message it delivers. */
  lemma EventAdvances(init: seq<nat>, events: seq<Event>)
    requires WellFormed(|init|, events) && 0 < |events| < TWO_32
    ensures var e, o := events[|events| - 1], Exec(init, events[..|events| - 1]);
      && Less(StampOf(o.clocks[e.replica]), Exec(init, events).stamps[|events| - 1])
      && (e.Deliver? ==> Less(o.stamps[e.message], Exec(init, events).stamps[|events| - 1]))
  {
    var front, e := events[..|events| - 1], events[|events| - 1];
    var o := Exec(init, front);
    LogicalBounded(init, front);
    if e.Tick? {
      NowAdvancesIff(o.clocks[e.replica], e.sys);
    } else {
      ReceiveAdvancesIff(o.clocks[e.replica], o.stamps[e.message], e.sys);
    }
  }

  /** A replica's clock is never behind a stamp it gave out. */
  lemma {:induction false} ClockNotBehind(init: seq<nat>, events: seq<Event>, i: nat)
    requires WellFormed(|init|, events) && i < |events| < TWO_32
    ensures AtMost(Exec(init, events).stamps[i], StampOf(Exec(init, events).clocks[events[i].replica]))
    decreases |events|
  {
    if i < |events| - 1 {
      var front, e := events[..|events| - 1], events[|events| - 1];
      ClockNotBehind(init, front, i);
      EventAdvances(init, events);
      assert Exec(init, events).stamps[i] == Exec(init, front).stamps[i];
    }
  }

  /** Same replica, or the sending of a message and its delivery. */
  predicate DirectlyBefore(events: seq<Event>, i: nat, j: nat)
    requires i < j < |events|
  {
    events[i].replica == events[j].replica || (events[j].Deliver? && events[j].message == i)
  }

  predicate HappenedBefore(events: seq<Event>, i: nat, j: nat)
    requires i < j < |events|
    decreases j - i
  {
    || DirectlyBefore(events, i, j)
    || exists k | i < k < j :: HappenedBefore(events, i, k) && DirectlyBefore(events, k, j)
  }

  lemma {:induction false} DirectCausality(init: seq<nat>, events: seq<Event>, i: nat, j: nat)
    requires WellFormed(|init|, events) && |events| < TWO_32
    requires i < j < |events| && DirectlyBefore(events, i, j)
    ensures Less(Exec(init, events).stamps[i], Exec(init, events).stamps[j])
    decreases |events|
  {
    var front := events[..|events| - 1];
    if j < |front| {
      DirectCausality(init, front, i, j);
    } else {
      EventAdvances(init, events);
      ClockNotBehind(init, front, i);
    }
  }

  /** Causality: in every run of fewer than 2^32 events, happened-before implies a smaller timestamp. */
  lemma {:induction false} Causality(init: seq<nat>, events: seq<Event>, i: nat, j: nat)
    requires WellFormed(|init|, events) && |events| < TWO_32
    requires i < j < |events| && HappenedBefore(events, i, j)
    ensures Less(Exec(init, events).stamps[i], Exec(init, events).stamps[j])
    decreases j - i
  {
    if DirectlyBefore(events, i, j) {
      DirectCausality(init, events, i, j);
    } else {
      var k :| i < k < j && HappenedBefore(events, i, k) && DirectlyBefore(events, k, j);
      Causality(init, events, i, k);
      DirectCausality(init, events, k, j);
    }
  }

  // ---- the wrap flag in runs ----

  ghost predicate TickOf(events: seq<Event>, r: nat, i: nat)
    requires i < |events|
  {
    events[i].Tick? && events[i].replica == r
  }

  /** Event `i` is a tick of `r` that moves its wall over a counter above 0. */
  ghost predicate JumpAt(init: seq<nat>, events: seq<Event>, r: nat, i: nat)
    requires WellFormed(|init|, events) && r < |init| && i < |events|
  {
    TickOf(events, r, i) && Jumps(Exec(init, events[..i]).clocks[r], TickCall(events[i].sys))
  }

  /** Event `i` wraps the counter of `r`. */
  ghost predicate WrapAt(init: seq<nat>, events: seq<Event>, r: nat, i: nat)
    requires WellFormed(|init|, events) && r < |init| && i < |events|
  {
    var o := Exec(init, events[..i]);
    events[i].replica == r &&
    match events[i]
    case Tick(_, sys) => NowWraps(o.clocks[r], sys)
    case Deliver(_, message, sys) => ReceiveWraps(o.clocks[r], o.stamps[message], sys)
  }

  lemma NothingWraps(init: seq<nat>, events: seq<Event>, r: nat, i: nat)
    requires WellFormed(|init|, events) && r < |init| && i < |events| < TWO_32
    ensures !WrapAt(init, events, r, i)
  {
    LogicalBounded(init, events[..i]);
  }

  lemma StepFlag(o: Outcome, e: Event, r: nat)
    requires e.replica < |o.clocks| && r < |o.clocks| && (e.Deliver? ==> e.message < |o.stamps|)
    requires e.Tick? && e.replica == r ==> !NowWraps(o.clocks[r], e.sys)
    ensures Step(o, e).clocks[r].wrapped <==>
      o.clocks[r].wrapped || (e.Tick? && e.replica == r && Jumps(o.clocks[r], TickCall(e.sys)))
  {
    FlagStep(o.clocks[r], TickCall(e.sys));
  }

  lemma FlagAfterEvent(init: seq<nat>, events: seq<Event>, r: nat)
    requires WellFormed(|init|, events) && r < |init| && 0 < |events| < TWO_32
    ensures Exec(init, events).clocks[r].wrapped <==>
      Exec(init, events[..|events| - 1]).clocks[r].wrapped || JumpAt(init, events, r, |events| - 1)
  {
    hide Step, Jumps, NowWraps, ReceiveWraps;
    var n := |events| - 1;
    NothingWraps(init, events, r, n);
    StepFlag(Exec(init, events[..n]), events[n], r);
  }

  lemma {:induction false} FlagInRun(init: seq<nat>, events: seq<Event>, r: nat)
    requires WellFormed(|init|, events) && r < |init| && |events| < TWO_32
    ensures Exec(init, events).clocks[r].wrapped <==> exists i | 0 <= i < |events| :: JumpAt(init, events, r, i)
  {
    if events != [] {
      var n := |events| - 1;
      FlagInRun(init, events[..n], r);
      FlagAfterEvent(init, events, r);
      forall i | 0 <= i < n ensures JumpAt(init, events[..n], r, i) == JumpAt(init, events, r, i) {
        assert events[..n][..i] == events[..i];
      }
    }
  }

  /** In every run of fewer than 2^32 events the flag is right exactly when no tick jumps over a counter. */
  lemma FlagIsRightIff(init: seq<nat>, events: seq<Event>, r: nat)
    requires WellFormed(|init|, events) && r < |init| && |events| < TWO_32
    ensures (Exec(init, events).clocks[r].wrapped <==> exists i | 0 <= i < |events| :: WrapAt(init, events, r, i))
       <==> forall i | 0 <= i < |events| :: !JumpAt(init, events, r, i)
  {
    FlagInRun(init, events, r);
    forall i | 0 <= i < |events| ensures !WrapAt(init, events, r, i) {
      NothingWraps(init, events, r, i);
    }
  }
}
