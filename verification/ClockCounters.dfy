/** What a timestamp's counter says: the longest chain of events that passed it on. */
module ClockCounters {
  import opened ClockReadings
  import opened HybridClock
  import opened Prelude

  function StampIn(init: seq<nat>, events: seq<Event>, i: nat): (t: Stamp)
    requires WellFormed(|init|, events) && i < |events|
  {
    Exec(init, events).stamps[i]
  }

  /** The event's own reading is above everything known before. */
  ghost predicate ReadsAhead(init: seq<nat>, events: seq<Event>, i: nat)
    requires WellFormed(|init|, events) && i < |events|
  {
    forall v: nat | KnownBefore(init, events, i, v) :: v < events[i].sys
  }

  /** The replica had already reached the event's wall. */
  predicate WallHeld(init: seq<nat>, events: seq<Event>, i: nat)
    requires WellFormed(|init|, events) && i < |events|
  {
    var w, r := StampIn(init, events, i).wall, events[i].replica;
    w == init[r] || exists j | 0 <= j < i && events[j].replica == r :: StampIn(init, events, j).wall == w
  }

  /** Event `k` passes its counter on: it has the same wall, or its message came while the wall was held. */
  predicate PassesOn(init: seq<nat>, events: seq<Event>, k: nat, i: nat)
    requires WellFormed(|init|, events) && k < i < |events|
  {
    && DirectlyBefore(events, k, i)
    && (|| StampIn(init, events, k).wall == StampIn(init, events, i).wall
        || (events[i].Deliver? && events[i].message == k && WallHeld(init, events, i)))
  }

  /** Events none of which reads ahead, each passing its counter on to the next, up to event `i`. */
  ghost predicate Chain(init: seq<nat>, events: seq<Event>, chain: seq<nat>, i: nat)
    requires WellFormed(|init|, events) && i < |events|
    decreases |chain|
  {
    && chain != [] && chain[|chain| - 1] == i && !ReadsAhead(init, events, i)
    && var front := chain[..|chain| - 1];
       front == [] ||
       var k := front[|front| - 1];
       k < i && PassesOn(init, events, k, i) && Chain(init, events, front, k)
  }

  // ---- one event ----

  lemma {:induction false} ClockIsStamp(init: seq<nat>, events: seq<Event>, r: nat)
    requires WellFormed(|init|, events) && r < |init|
    ensures var o := Exec(init, events);
      StampOf(o.clocks[r]) == Stamp(init[r], 0)
      || exists j | 0 <= j < |events| && events[j].replica == r :: o.stamps[j] == StampOf(o.clocks[r])
  {
    hide Now, Receive;
    if events != [] {
      var n := |events| - 1;
      ClockIsStamp(init, events[..n], r);
      var o := Exec(init, events);
      assert forall j | 0 <= j < n :: o.stamps[j] == Exec(init, events[..n]).stamps[j];
      if events[n].replica == r {
        assert o.stamps[n] == StampOf(o.clocks[r]);
      }
    }
  }

  /** The replica's clock before event `i` is the latest of its start and its stamps so far. */
  lemma OwnClock(init: seq<nat>, events: seq<Event>, i: nat)
    requires WellFormed(|init|, events) && i < |events| < TWO_32
    ensures var r := events[i].replica;
      var own := StampOf(Exec(init, events[..i]).clocks[r]);
      && (forall j | 0 <= j < i && events[j].replica == r :: AtMost(StampIn(init, events, j), own))
      && (own == Stamp(init[r], 0) || exists j | 0 <= j < i && events[j].replica == r :: StampIn(init, events, j) == own)
  {
    hide Exec;
    var r := events[i].replica;
    StampAt(init, events, i);
    ClockIsStamp(init, events[..i], r);
    assert forall j | 0 <= j < i :: events[..i][j] == events[j];
    forall j | 0 <= j < i && events[j].replica == r
      ensures AtMost(StampIn(init, events, j), StampOf(Exec(init, events[..i]).clocks[r]))
    {
      ClockNotBehind(init, events[..i], j);
    }
  }

  lemma NowCounter(c: Clock, sys: nat)
    requires c.logical < MAX_LOGICAL
    ensures var c' := Now(c, sys); c.wall <= c'.wall && c'.logical == if c'.wall == c.wall then c.logical + 1 else 0
  {
    IncrementIs(c.logical);
  }

  lemma ReceiveCounter(c: Clock, t: Stamp, sys: nat)
    requires c.logical < MAX_LOGICAL && t.logical < MAX_LOGICAL
    ensures var c' := Receive(c, t, sys);
      && c.wall <= c'.wall
      && c'.logical == if c'.wall == c.wall then Max(c.logical, t.logical) + 1
                       else if c'.wall == t.wall then t.logical + 1 else 0
  {
    IncrementIs(Max(c.logical, t.logical));
    IncrementIs(t.logical);
  }

  /** What event `i` does to the counter, by the clock and the message it starts from. */
  lemma CounterStep(init: seq<nat>, events: seq<Event>, i: nat)
    requires WellFormed(|init|, events) && i < |events| < TWO_32
    ensures var e, t, own := events[i], StampIn(init, events, i), Exec(init, events[..i]).clocks[events[i].replica];
      && own.wall <= t.wall
      && t.logical ==
           if e.Tick? then if t.wall == own.wall then own.logical + 1 else 0
           else
             var m := StampIn(init, events, e.message);
             if t.wall == own.wall then Max(own.logical, m.logical) + 1
             else if t.wall == m.wall then m.logical + 1 else 0
  {
    hide Exec, Now, Receive;
    var e := events[i];
    StampAt(init, events, i);
    LogicalBounded(init, events[..i]);
    var c := Exec(init, events[..i]).clocks[e.replica];
    if e.Tick? {
      NowCounter(c, e.sys);
    } else {
      ReceiveCounter(c, StampIn(init, events, e.message), e.sys);
    }
  }

  lemma HeldIff(init: seq<nat>, events: seq<Event>, i: nat)
    requires WellFormed(|init|, events) && i < |events| < TWO_32
    ensures WallHeld(init, events, i) <==>
      StampIn(init, events, i).wall == Exec(init, events[..i]).clocks[events[i].replica].wall
  {
    hide Exec;
    OwnWall(init, events, i);
    CounterStep(init, events, i);
  }

  /** A counter passed on is smaller than the counter it leads to. */
  lemma PassedOnIsSmaller(init: seq<nat>, events: seq<Event>, k: nat, i: nat)
    requires WellFormed(|init|, events) && k < i < |events| < TWO_32 && PassesOn(init, events, k, i)
    ensures StampIn(init, events, k).logical < StampIn(init, events, i).logical
  {
    hide Exec, StampIn, WallHeld;
    HeldIff(init, events, i);
    OwnClock(init, events, i);
    CounterStep(init, events, i);
  }

  /** A counter above 1 was passed on by some event with the counter before it. */
  lemma PassedOnBy(init: seq<nat>, events: seq<Event>, i: nat) returns (k: nat)
    requires WellFormed(|init|, events) && i < |events| < TWO_32 && StampIn(init, events, i).logical > 1
    ensures k < i && PassesOn(init, events, k, i)
    ensures StampIn(init, events, k).logical + 1 == StampIn(init, events, i).logical
  {
    hide Exec, StampIn, WallHeld;
    HeldIff(init, events, i);
    OwnClock(init, events, i);
    CounterStep(init, events, i);
    var r, t := events[i].replica, StampIn(init, events, i);
    var own := StampOf(Exec(init, events[..i]).clocks[r]);
    if own.wall == t.wall && own.logical + 1 == t.logical {
      k :| 0 <= k < i && events[k].replica == r && StampIn(init, events, k) == own;
    } else {
      k := events[i].message;
    }
  }

  // ---- chains ----

  lemma {:induction false} ChainsAreShort(init: seq<nat>, events: seq<Event>, chain: seq<nat>, i: nat)
    requires WellFormed(|init|, events) && i < |events| < TWO_32 && Chain(init, events, chain, i)
    ensures |chain| <= StampIn(init, events, i).logical
    decreases |chain|
  {
    hide StampIn, PassesOn, ReadsAhead;
    CounterIsZero(init, events, i);
    var front := chain[..|chain| - 1];
    if front != [] {
      var k := front[|front| - 1];
      ChainsAreShort(init, events, front, k);
      PassedOnIsSmaller(init, events, k, i);
    }
  }

  lemma CounterIsZero(init: seq<nat>, events: seq<Event>, i: nat)
    requires WellFormed(|init|, events) && i < |events| < TWO_32
    ensures StampIn(init, events, i).logical == 0 <==> ReadsAhead(init, events, i)
  {
    hide Exec;
    CounterIsZeroIff(init, events, i);
  }

  lemma {:induction false} LongestChain(init: seq<nat>, events: seq<Event>, i: nat) returns (chain: seq<nat>)
    requires WellFormed(|init|, events) && i < |events| < TWO_32 && StampIn(init, events, i).logical > 0
    ensures Chain(init, events, chain, i) && |chain| == StampIn(init, events, i).logical
  {
    hide StampIn, PassesOn, ReadsAhead;
    CounterIsZero(init, events, i);
    if StampIn(init, events, i).logical == 1 {
      chain := [i];
    } else {
      var k := PassedOnBy(init, events, i);
      var front := LongestChain(init, events, k);
      chain := front + [i];
      assert chain[..|chain| - 1] == front;
    }
  }

  /**
   In every run below 2^32 events the counter is 0 when the event reads ahead, and otherwise the
   length of the longest chain of events that passed it on.
   */
  lemma CounterIsLongestChain(init: seq<nat>, events: seq<Event>, i: nat)
    requires WellFormed(|init|, events) && i < |events| < TWO_32
    ensures var counter := StampIn(init, events, i).logical;
      if ReadsAhead(init, events, i) then counter == 0
      else
        && (exists chain :: Chain(init, events, chain, i) && |chain| == counter)
        && (forall chain | Chain(init, events, chain, i) :: |chain| <= counter)
  {
    hide StampIn, ReadsAhead, Chain;
    CounterIsZero(init, events, i);
    if !ReadsAhead(init, events, i) {
      var longest := LongestChain(init, events, i);
      forall chain | Chain(init, events, chain, i) ensures |chain| <= StampIn(init, events, i).logical {
        ChainsAreShort(init, events, chain, i);
      }
    }
  }
}
