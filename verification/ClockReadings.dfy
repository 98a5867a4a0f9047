/** What a timestamp says: the largest system time among the readings that led to it. */
module ClockReadings {
  import opened HybridClock
  import opened Prelude

  predicate Leads(events: seq<Event>, j: nat, i: nat)
    requires i < |events|
  {
    j == i || (j < i && HappenedBefore(events, j, i))
  }

  /** A system time read by an event, or by its replica when it started. */
  predicate ReadAt(init: seq<nat>, events: seq<Event>, j: nat, v: nat)
    requires WellFormed(|init|, events) && j < |events|
  {
    v == events[j].sys || v == init[events[j].replica]
  }

  /** A system time that event `i` can know of: its own, or one of an event that happened before it. */
  predicate Known(init: seq<nat>, events: seq<Event>, i: nat, v: nat)
    requires WellFormed(|init|, events) && i < |events|
  {
    exists j | 0 <= j <= i :: Leads(events, j, i) && ReadAt(init, events, j, v)
  }

  ghost predicate IsLargestKnown(init: seq<nat>, events: seq<Event>, i: nat, w: nat)
    requires WellFormed(|init|, events) && i < |events|
  {
    Known(init, events, i, w) && forall v: nat | Known(init, events, i, v) :: v <= w
  }

  /** A replica's wall is the largest of its start and its stamps. */
  lemma {:induction false} ClockWall(init: seq<nat>, events: seq<Event>, r: nat)
    requires WellFormed(|init|, events) && r < |init|
    ensures var o := Exec(init, events);
      && init[r] <= o.clocks[r].wall
      && (forall j | 0 <= j < |events| && events[j].replica == r :: o.stamps[j].wall <= o.clocks[r].wall)
      && (o.clocks[r].wall == init[r]
          || exists j | 0 <= j < |events| && events[j].replica == r :: o.stamps[j].wall == o.clocks[r].wall)
  {
    if events != [] {
      var n := |events| - 1;
      ClockWall(init, events[..n], r);
      var o := Exec(init, events);
      assert forall j | 0 <= j < n :: o.stamps[j] == Exec(init, events[..n]).stamps[j];
      if events[n].replica == r {
        assert o.stamps[n].wall == o.clocks[r].wall;
      }
    }
  }

  lemma {:induction false} StampStays(init: seq<nat>, events: seq<Event>, i: nat)
    requires WellFormed(|init|, events) && i < |events|
    ensures Exec(init, events).stamps[i] == Exec(init, events[..i + 1]).stamps[i]
    decreases |events|
  {
    hide Step;
    var n := |events| - 1;
    if i == n {
      assert events[..i + 1] == events;
    } else {
      StampStays(init, events[..n], i);
      assert events[..n][..i + 1] == events[..i + 1];
      EarlierStamps(init, events, i);
    }
  }

  lemma EarlierStamps(init: seq<nat>, events: seq<Event>, i: nat)
    requires WellFormed(|init|, events) && i < |events| - 1
    ensures Exec(init, events).stamps[i] == Exec(init, events[..|events| - 1]).stamps[i]
  {
  }

  /** The stamp of event `i` by the state before it, over one run. */
  lemma StampAt(init: seq<nat>, events: seq<Event>, i: nat)
    requires WellFormed(|init|, events) && i < |events|
    ensures var o, e := Exec(init, events[..i]), events[i];
      Exec(init, events).stamps[i] ==
        StampOf(if e.Tick? then Now(o.clocks[e.replica], e.sys)
                else Receive(o.clocks[e.replica], Exec(init, events).stamps[e.message], e.sys))
    ensures forall j | 0 <= j < i :: Exec(init, events[..i]).stamps[j] == Exec(init, events).stamps[j]
  {
    hide Now, Receive;
    var upTo := events[..i + 1];
    assert upTo[..i] == events[..i];
    StampStays(init, events, i);
    forall j | 0 <= j < i ensures Exec(init, events[..i]).stamps[j] == Exec(init, events).stamps[j] {
      StampStays(init, events, j);
      StampStays(init, events[..i], j);
      assert events[..i][..j + 1] == events[..j + 1];
    }
  }

  /** A system time known before event `i`: by its replica at the start or by an event that happened before. */
  predicate KnownBefore(init: seq<nat>, events: seq<Event>, i: nat, v: nat)
    requires WellFormed(|init|, events) && i < |events|
  {
    v == init[events[i].replica] || exists j | 0 <= j < i :: HappenedBefore(events, j, i) && ReadAt(init, events, j, v)
  }

  lemma KnownBeforeIff(init: seq<nat>, events: seq<Event>, i: nat, v: nat)
    requires WellFormed(|init|, events) && i < |events|
    ensures Known(init, events, i, v) <==> v == events[i].sys || KnownBefore(init, events, i, v)
    ensures KnownBefore(init, events, i, v) <==>
      || v == init[events[i].replica]
      || exists k | 0 <= k < i :: DirectlyBefore(events, k, i) && Known(init, events, k, v)
  {
    hide DirectlyBefore;
    if j: nat :| j < i && HappenedBefore(events, j, i) && ReadAt(init, events, j, v) {
      if DirectlyBefore(events, j, i) {
        assert Leads(events, j, j) && Known(init, events, j, v);
      } else {
        var k :| j < k < i && HappenedBefore(events, j, k) && DirectlyBefore(events, k, i);
        assert Leads(events, j, k) && Known(init, events, k, v);
      }
    }
    assert Leads(events, i, i);
    assert forall j | 0 <= j < i :: Leads(events, j, i) == HappenedBefore(events, j, i);
    forall k | 0 <= k < i && DirectlyBefore(events, k, i) && Known(init, events, k, v)
      ensures KnownBefore(init, events, i, v)
    {
      var j :| 0 <= j <= k && Leads(events, j, k) && ReadAt(init, events, j, v);
      assert HappenedBefore(events, j, i);
    }
  }

  ghost predicate IsLargestBefore(init: seq<nat>, events: seq<Event>, i: nat, w: nat)
    requires WellFormed(|init|, events) && i < |events|
  {
    KnownBefore(init, events, i, w) && forall v: nat | KnownBefore(init, events, i, v) :: v <= w
  }

  /** The wall an event starts from: its replica's, or the message's when that is larger. */
  function Base(init: seq<nat>, events: seq<Event>, i: nat): (w: nat)
    requires WellFormed(|init|, events) && i < |events|
  {
    var e := events[i];
    var own := Exec(init, events[..i]).clocks[e.replica].wall;
    if e.Tick? then own else Max(own, Exec(init, events).stamps[e.message].wall)
  }

  /** The replica's own events bound its wall, and one of them, or the start, reached it. */
  lemma OwnWall(init: seq<nat>, events: seq<Event>, i: nat)
    requires WellFormed(|init|, events) && i < |events|
    ensures var r, stamps := events[i].replica, Exec(init, events).stamps;
      var own := Exec(init, events[..i]).clocks[r].wall;
      && init[r] <= own
      && (forall j | 0 <= j < i && events[j].replica == r :: stamps[j].wall <= own)
      && (own == init[r] || exists j | 0 <= j < i && events[j].replica == r :: stamps[j].wall == own)
  {
    hide Exec;
    StampAt(init, events, i);
    ClockWall(init, events[..i], events[i].replica);
    assert forall j | 0 <= j < i :: events[..i][j] == events[j];
  }

  lemma BaseIsLargestBefore(init: seq<nat>, events: seq<Event>, i: nat)
    requires WellFormed(|init|, events) && i < |events|
    requires forall k | 0 <= k < i :: IsLargestKnown(init, events, k, Exec(init, events).stamps[k].wall)
    ensures IsLargestBefore(init, events, i, Base(init, events, i))
  {
    hide Exec, Known, KnownBefore;
    var e, stamps := events[i], Exec(init, events).stamps;
    OwnWall(init, events, i);
    forall v: nat
      ensures KnownBefore(init, events, i, v) <==>
        || v == init[e.replica]
        || exists k | 0 <= k < i :: DirectlyBefore(events, k, i) && Known(init, events, k, v)
    {
      KnownBeforeIff(init, events, i, v);
    }
    forall v: nat | KnownBefore(init, events, i, v) ensures v <= Base(init, events, i) {
    }
    forall k | 0 <= k < i && DirectlyBefore(events, k, i) ensures KnownBefore(init, events, i, stamps[k].wall) {
      assert Known(init, events, k, stamps[k].wall);
    }
  }

  /** In every run a timestamp's wall is exactly the largest system time known to its event. */
  lemma {:induction false} WallIsLargestReading(init: seq<nat>, events: seq<Event>, i: nat)
    requires WellFormed(|init|, events) && i < |events|
    ensures IsLargestKnown(init, events, i, Exec(init, events).stamps[i].wall)
    ensures IsLargestBefore(init, events, i, Base(init, events, i))
  {
    hide Exec, Known, KnownBefore;
    forall k | 0 <= k < i ensures IsLargestKnown(init, events, k, Exec(init, events).stamps[k].wall) {
      WallIsLargestReading(init, events, k);
    }
    BaseIsLargestBefore(init, events, i);
    StampAt(init, events, i);
    forall v: nat
      ensures Known(init, events, i, v) <==> v == events[i].sys || KnownBefore(init, events, i, v)
    {
      KnownBeforeIff(init, events, i, v);
    }
  }

  /** Below 2^32 events the counter is 0 exactly when the event's own reading is above all earlier ones. */
  lemma CounterIsZeroIff(init: seq<nat>, events: seq<Event>, i: nat)
    requires WellFormed(|init|, events) && i < |events| < TWO_32
    ensures Exec(init, events).stamps[i].logical == 0
       <==> forall v: nat | KnownBefore(init, events, i, v) :: v < events[i].sys
  {
    hide Exec, KnownBefore;
    var e := events[i];
    WallIsLargestReading(init, events, i);
    StampAt(init, events, i);
    LogicalBounded(init, events[..i]);
    var c := Exec(init, events[..i]).clocks[e.replica];
    IncrementIs(c.logical);
    if e.Deliver? {
      var t := Exec(init, events).stamps[e.message];
      IncrementIs(Max(c.logical, t.logical));
      IncrementIs(t.logical);
    }
  }
}
