/** Two overlapping calls of `now` on one clock: when some schedule gives them the same timestamp. */
module ClockOverlap {
  import opened ClockThreads
  import opened HybridClock
  import opened Prelude

  /** Both threads have begun a call, having read the system times in `sys`, and not loaded anything yet. */
  function Begun(wall: nat, logical: u32, sys: seq<nat>): (s: State)
    requires |sys| == 2
  {
    State(wall, logical, [Thread(NowCall, sys[0], wall, 0, LoadWall), Thread(NowCall, sys[1], wall, 0, LoadWall)], [])
  }

  predicate AdvancesOnly(steps: seq<Step>) {
    forall i | 0 <= i < |steps| :: steps[i].Advance?
  }

  /** Both calls have returned, with one timestamp. */
  predicate Collided(s: State) {
    |s.history| == 2 && s.history[0].stamp == s.history[1].stamp
  }

  // ---- a schedule with equal timestamps ----

  /** With both system times at most the wall, both exchange the wall for itself and store the same counter. */
  lemma OverlappingCallsCollide(wall: nat, logical: u32, sys: seq<nat>)
    requires logical < MAX_LOGICAL && |sys| == 2 && sys[0] <= wall && sys[1] <= wall
    ensures var a0, a1 := Advance(0, 0), Advance(1, 0);
      Collided(Run(Begun(wall, logical, sys), [a0, a0, a1, a1, a0, a1, a0, a1]))
  {
    var a0, a1 := Advance(0, 0), Advance(1, 0);
    var t, u := Thread(NowCall, sys[0], wall, 0, LoadWall), Thread(NowCall, sys[1], wall, 0, LoadWall);
    var l, x, y := LoadLogical(wall), Exchange(wall, wall, logical + 1), StoreLogical(wall, logical + 1);
    var r := Returned(0, Stamp(wall, logical + 1));
    var s0 := State(wall, logical, [t, u], []);
    var s1 := State(wall, logical, [t.(pc := l), u], []);
    var s2 := State(wall, logical, [t.(pc := x), u], []);
    var s3 := State(wall, logical, [t.(pc := x), u.(pc := l)], []);
    var s4 := State(wall, logical, [t.(pc := x), u.(pc := x)], []);
    var s5 := State(wall, logical, [t.(pc := y), u.(pc := x)], []);
    var s6 := State(wall, logical, [t.(pc := y), u.(pc := y)], []);
    var s7 := State(wall, logical + 1, [t.(pc := Idle), u.(pc := y)], [r]);
    var s8 := State(wall, logical + 1, [t.(pc := Idle), u.(pc := Idle)], [r, r]);
    assert Next(s0, a0) == s1;
    assert Next(s1, a0) == s2;
    assert Next(s2, a1) == s3;
    assert Next(s3, a1) == s4;
    assert Next(s4, a0) == s5;
    assert Next(s5, a1) == s6;
    assert Next(s6, a0) == s7;
    assert Next(s7, a1) == s8;
    RunPath([a0, a0, a1, a1, a0, a1, a0, a1], [s0, s1, s2, s3, s4, s5, s6, s7, s8]);
  }

  // ---- otherwise the timestamps differ ----

  /** What a thread takes its timestamp to be once its exchange has succeeded. */
  type Claims = c: seq<Option<Stamp>> | |c| == 2 witness [None, None]

  predicate Claimed(pc: Pc) {
    pc.StoreLogical? || pc.Idle?
  }

  function First(wall: nat, logical: u32, sys: nat): (t: Stamp) {
    Proposal(NowCall, sys, wall, logical)
  }

  /** Before any exchange: what was loaded is the initial clock. */
  predicate Untouched(pc: Pc, wall: nat, logical: u32, sys: nat) {
    match pc
    case LoadWall => true
    case LoadLogical(w) => w == wall
    case Exchange(w, wall', logical') => w == wall && Stamp(wall', logical') == First(wall, logical, sys)
    case _ => false
  }

  /** After the other's exchange to `x`: an exchange that could succeed is for another timestamp. */
  predicate Behind(pc: Pc, wall: nat, x: Stamp) {
    match pc
    case LoadWall => true
    case LoadLogical(w) => w == wall || w == x.wall
    case Exchange(w, wall', logical') => w == x.wall ==> Stamp(wall', logical') != x
    case _ => false
  }

  predicate Returns(h: seq<Returned>, c: Claims, idle0: bool, idle1: bool) {
    if idle0 && idle1 then
      |h| == 2 && c[0].Some? && c[1].Some? &&
      ((h[0].stamp == c[0].value && h[1].stamp == c[1].value) || (h[0].stamp == c[1].value && h[1].stamp == c[0].value))
    else if idle0 then |h| == 1 && c[0] == Some(h[0].stamp)
    else if idle1 then |h| == 1 && c[1] == Some(h[0].stamp)
    else h == []
  }

  ghost predicate Racing(s: State, wall: nat, logical: u32, sys: seq<nat>, c: Claims)
    requires |sys| == 2
  {
    && |s.threads| == 2
    && (forall i | 0 <= i < 2 :: s.threads[i].call.NowCall? && s.threads[i].sys == sys[i])
    && (forall i | 0 <= i < 2 :: c[i].Some? <==> Claimed(s.threads[i].pc))
    && (forall i | 0 <= i < 2 && s.threads[i].pc.StoreLogical? ::
          c[i] == Some(Stamp(s.threads[i].pc.wall, s.threads[i].pc.logical)))
    && (c[0].None? && c[1].None? ==> Even(s, wall, logical, sys))
    && (c[0].Some? && c[1].None? ==> Ahead(s, wall, logical, sys[0], c[0].value, s.threads[1].pc))
    && (c[1].Some? && c[0].None? ==> Ahead(s, wall, logical, sys[1], c[1].value, s.threads[0].pc))
    && (c[0].Some? && c[1].Some? ==> c[0] != c[1])
    && Returns(s.history, c, s.threads[0].pc.Idle?, s.threads[1].pc.Idle?)
  }

  predicate Even(s: State, wall: nat, logical: u32, sys: seq<nat>)
    requires |sys| == 2 && |s.threads| == 2
  {
    && s.wall == wall && s.logical == logical
    && (forall i | 0 <= i < 2 :: Untouched(s.threads[i].pc, wall, logical, sys[i]))
  }

  /** One thread has exchanged to `x`, the other is at `pc`. */
  predicate Ahead(s: State, wall: nat, logical: u32, sys: nat, x: Stamp, pc: Pc) {
    x == First(wall, logical, sys) && s.wall == x.wall && (s.logical == logical || s.logical == x.logical)
    && Behind(pc, wall, x)
  }

  /** The other's next proposal is not `x`, when its exchange could succeed. */
  lemma NextProposalDiffers(wall: nat, logical: u32, sys: nat, other: nat, l: u32)
    requires logical < MAX_LOGICAL && (sys > wall || other > wall)
    requires l == logical || l == First(wall, logical, sys).logical
    ensures Proposal(NowCall, other, First(wall, logical, sys).wall, l) != First(wall, logical, sys)
  {
    IncrementIs(logical);
    IncrementIs(l);
  }

  lemma FirstProposalsDiffer(wall: nat, logical: u32, sys: nat, other: nat)
    requires sys > wall || other > wall
    ensures First(wall, logical, sys).wall == wall ==> First(wall, logical, other) != First(wall, logical, sys)
  {
  }

  function NextClaims(s: State, c: Claims, i: nat): (c': Claims)
    requires i < 2 && i < |s.threads|
  {
    var pc := s.threads[i].pc;
    if pc.Exchange? && s.wall == pc.w then c[i := Some(Stamp(pc.wall, pc.logical))] else c
  }

  lemma LoadStep(s: State, step: Step, wall: nat, logical: u32, sys: seq<nat>, c: Claims)
    requires |sys| == 2 && (sys[0] > wall || sys[1] > wall) && logical < MAX_LOGICAL
    requires Racing(s, wall, logical, sys, c) && step.Advance? && step.thread < 2
    requires s.threads[step.thread].pc.LoadWall? || s.threads[step.thread].pc.LoadLogical?
    ensures Racing(Next(s, step), wall, logical, sys, NextClaims(s, c, step.thread))
  {
    var i, j := step.thread, 1 - step.thread;
    var pc := s.threads[i].pc;
    if c[j].Some? && pc.LoadLogical? && pc.w == c[j].value.wall {
      NextProposalDiffers(wall, logical, sys[j], sys[i], s.logical);
    }
  }

  lemma ExchangeStep(s: State, step: Step, wall: nat, logical: u32, sys: seq<nat>, c: Claims)
    requires |sys| == 2 && (sys[0] > wall || sys[1] > wall) && logical < MAX_LOGICAL
    requires Racing(s, wall, logical, sys, c) && step.Advance? && step.thread < 2
    requires s.threads[step.thread].pc.Exchange?
    ensures Racing(Next(s, step), wall, logical, sys, NextClaims(s, c, step.thread))
  {
    hide Proposal;
    FirstProposalsDiffer(wall, logical, sys[step.thread], sys[1 - step.thread]);
  }

  lemma StoreStep(s: State, step: Step, wall: nat, logical: u32, sys: seq<nat>, c: Claims)
    requires |sys| == 2 && (sys[0] > wall || sys[1] > wall) && logical < MAX_LOGICAL
    requires Racing(s, wall, logical, sys, c) && step.Advance? && step.thread < 2
    requires s.threads[step.thread].pc.StoreLogical?
    ensures Racing(Next(s, step), wall, logical, sys, NextClaims(s, c, step.thread))
  {
  }

  lemma RaceStep(s: State, step: Step, wall: nat, logical: u32, sys: seq<nat>, c: Claims)
    requires |sys| == 2 && (sys[0] > wall || sys[1] > wall) && logical < MAX_LOGICAL
    requires Racing(s, wall, logical, sys, c) && step.Advance? && step.thread < 2
    ensures Racing(Next(s, step), wall, logical, sys, NextClaims(s, c, step.thread))
  {
    hide Racing, Next;
    TwoThreads(s, wall, logical, sys, c);
    match s.threads[step.thread].pc
    case LoadWall => LoadStep(s, step, wall, logical, sys, c);
    case LoadLogical(_) => LoadStep(s, step, wall, logical, sys, c);
    case Exchange(_, _, _) => ExchangeStep(s, step, wall, logical, sys, c);
    case StoreLogical(_, _) => StoreStep(s, step, wall, logical, sys, c);
    case Idle => IdleStep(s, step);
  }

  lemma IdleStep(s: State, step: Step)
    requires step.Advance? && step.thread < |s.threads| && s.threads[step.thread].pc.Idle?
    ensures Next(s, step) == s
  {
  }

  lemma {:induction false} RaceRuns(wall: nat, logical: u32, sys: seq<nat>, steps: seq<Step>) returns (c: Claims)
    requires |sys| == 2 && (sys[0] > wall || sys[1] > wall) && logical < MAX_LOGICAL && AdvancesOnly(steps)
    ensures Racing(Run(Begun(wall, logical, sys), steps), wall, logical, sys, c)
  {
    if steps == [] {
      c := [None, None];
      return;
    }
    hide Racing, Next;
    var front, step := steps[..|steps| - 1], steps[|steps| - 1];
    var s := Run(Begun(wall, logical, sys), front);
    c := RaceRuns(wall, logical, sys, front);
    if step.thread < 2 {
      RaceStep(s, step, wall, logical, sys, c);
      TwoThreads(s, wall, logical, sys, c);
      c := NextClaims(s, c, step.thread);
    } else {
      OtherThread(s, step, wall, logical, sys, c);
    }
  }

  lemma TwoThreads(s: State, wall: nat, logical: u32, sys: seq<nat>, c: Claims)
    requires |sys| == 2 && Racing(s, wall, logical, sys, c)
    ensures |s.threads| == 2
  {
  }

  lemma OtherThread(s: State, step: Step, wall: nat, logical: u32, sys: seq<nat>, c: Claims)
    requires |sys| == 2 && Racing(s, wall, logical, sys, c) && step.thread >= 2
    ensures Next(s, step) == s
  {
  }

  lemma RaceIsWon(s: State, wall: nat, logical: u32, sys: seq<nat>, c: Claims)
    requires |sys| == 2 && Racing(s, wall, logical, sys, c)
    ensures !Collided(s)
  {
  }

  /**
   Two overlapping calls of `now` can return the same timestamp exactly when both have read system
   times that are not above the clock's wall.
   */
  lemma CollideIff(wall: nat, logical: u32, sys: seq<nat>)
    requires |sys| == 2 && logical < MAX_LOGICAL
    ensures (exists steps | AdvancesOnly(steps) :: Collided(Run(Begun(wall, logical, sys), steps)))
       <==> sys[0] <= wall && sys[1] <= wall
  {
    hide Run, Racing, Collided;
    if sys[0] <= wall && sys[1] <= wall {
      OverlappingCallsCollide(wall, logical, sys);
      var a0, a1 := Advance(0, 0), Advance(1, 0);
      assert AdvancesOnly([a0, a0, a1, a1, a0, a1, a0, a1]);
    } else {
      forall steps | AdvancesOnly(steps) ensures !Collided(Run(Begun(wall, logical, sys), steps)) {
        var c := RaceRuns(wall, logical, sys, steps);
        RaceIsWon(Run(Begun(wall, logical, sys), steps), wall, logical, sys, c);
      }
    }
  }
}
