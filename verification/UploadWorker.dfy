/**
 The upload worker: it waits for a notification, or for a timer while offline, then sends
 batches until one sends nothing, and backs off exponentially while writes stay pending.
 */
module UploadWorker {
  import opened Prelude
  import opened Sequences

  const FIRST_BACKOFF: nat := 1000
  const MAX_BACKOFF: nat := 30000
  const MAX_REASONABLE: nat := 1_000_000

  type Positive = n: nat | n > 0 witness 1

  /** The outcome of one batch; after an empty one the pending count is read, which may fail. */
  datatype Reply = Pushed(n: Positive) | Nothing(pending: Option<nat>) | BatchFailed

  datatype Worker = Worker(offline: bool, backoff: nat)

  const ONLINE := Worker(false, 0)

  /** Implausible counts are taken for 0. */
  function SafeCount(count: nat): (n: nat) {
    if count > MAX_REASONABLE then 0 else count
  }

  function React(w: Worker, reply: Reply): (r: Worker) {
    match reply
    case Pushed(_) => ONLINE
    case Nothing(Some(count)) =>
      if SafeCount(count) > 0 && !w.offline then Worker(true, FIRST_BACKOFF)
      else if SafeCount(count) > 0 then w.(backoff := Min(w.backoff * 2, MAX_BACKOFF))
      else if w.offline then ONLINE
      else w
    case _ => w
  }

  function ReactAll(w: Worker, replies: seq<Reply>): (r: Worker) {
    if replies == [] then w else React(ReactAll(w, replies[..|replies| - 1]), replies[|replies| - 1])
  }

  // ---- the backoff in closed form ----

  /** Empty batches with writes pending since the last success or empty queue; errors do not count. */
  function Streak(replies: seq<Reply>): (k: nat) {
    if replies == [] then 0
    else
      var k := Streak(replies[..|replies| - 1]);
      match replies[|replies| - 1]
      case Pushed(_) => 0
      case Nothing(Some(count)) => if 1 <= count <= MAX_REASONABLE then k + 1 else 0
      case _ => k
  }

  function Power2(k: nat): (p: nat)
    ensures p >= 1
  {
    if k == 0 then 1 else 2 * Power2(k - 1)
  }

  function BackoffFor(streak: nat): (b: nat) {
    if streak == 0 then 0 else Min(FIRST_BACKOFF * Power2(streak - 1), MAX_BACKOFF)
  }

  lemma BackoffDoubles(streak: nat)
    requires streak >= 1
    ensures BackoffFor(streak + 1) == Min(BackoffFor(streak) * 2, MAX_BACKOFF)
    ensures FIRST_BACKOFF <= BackoffFor(streak) <= MAX_BACKOFF
  {
  }

  /** In every run the worker's state is the doubling sequence at the current streak. */
  lemma {:induction false} BackoffClosedForm(replies: seq<Reply>)
    ensures ReactAll(ONLINE, replies) == Worker(Streak(replies) > 0, BackoffFor(Streak(replies)))
  {
    if replies != [] {
      var front := replies[..|replies| - 1];
      BackoffClosedForm(front);
      if Streak(front) > 0 {
        BackoffDoubles(Streak(front));
      }
    }
  }

  /** Offline exactly when backing off, and then within the two limits. */
  lemma OfflineIffBackingOff(replies: seq<Reply>)
    ensures var w := ReactAll(ONLINE, replies);
      && (w.offline <==> w.backoff > 0)
      && (w.offline ==> FIRST_BACKOFF <= w.backoff <= MAX_BACKOFF)
  {
    BackoffClosedForm(replies);
    if Streak(replies) > 0 {
      BackoffDoubles(Streak(replies));
    }
  }

  predicate EmptyWithPending(reply: Reply) {
    reply.Nothing? && reply.pending.Some? && 1 <= reply.pending.value <= 1_000_000
  }

  lemma {:induction false} StreakOfRounds(replies: seq<Reply>, rounds: seq<Reply>)
    requires forall r | r in rounds :: EmptyWithPending(r)
    ensures Streak(replies + rounds) == Streak(replies) + |rounds|
  {
    if rounds == [] {
      assert replies + rounds == replies;
    } else {
      var front, last := rounds[..|rounds| - 1], rounds[|rounds| - 1];
      StreakOfRounds(replies, front);
      assert (replies + rounds)[..|replies + rounds| - 1] == replies + front;
      assert last in rounds;
    }
  }

  /** After `k` such rounds in a row from online, the wait is `min(1000 * 2^(k-1), 30000)`. */
  lemma BackoffAfterRounds(before: seq<Reply>, rounds: seq<Reply>)
    requires !ReactAll(ONLINE, before).offline && rounds != []
    requires forall r | r in rounds :: EmptyWithPending(r)
    ensures ReactAll(ONLINE, before + rounds) ==
      Worker(true, Min(1000 * Power2(|rounds| - 1), 30000))
  {
    BackoffClosedForm(before);
    StreakOfRounds(before, rounds);
    BackoffClosedForm(before + rounds);
  }

  // ---- the worker and its notification channel ----

  /** Where the worker is: awaiting, emptying the channel, about to send, sending, ended. */
  datatype Phase = Waiting | Draining | Ready | Sending | Stopped

  /** Counts of notifications posted and taken, and the replies so far. */
  datatype State = State(phase: Phase, posted: nat, taken: nat, closed: bool, replies: seq<Reply>)

  datatype Step = Post | Close | Receive | Timer | Drain | Drained | Begin | Answer(reply: Reply) | Stop

  const INITIAL := State(Waiting, 0, 0, false, [])

  function WorkerOf(s: State): (w: Worker) {
    ReactAll(ONLINE, s.replies)
  }

  predicate Enabled(s: State, step: Step) {
    match step
    case Post => !s.closed
    case Close => !s.closed
    case Receive => s.phase.Waiting? && !WorkerOf(s).offline && s.taken < s.posted
    case Stop => s.phase.Waiting? && !WorkerOf(s).offline && s.taken == s.posted && s.closed
    case Timer => s.phase.Waiting? && WorkerOf(s).offline
    case Drain => s.phase.Draining? && s.taken < s.posted
    case Drained => s.phase.Draining? && s.taken == s.posted
    case Begin => s.phase.Ready?
    case Answer(_) => s.phase.Sending?
  }

  function Next(s: State, step: Step): (r: State) {
    match step
    case Post => s.(posted := s.posted + 1)
    case Close => s.(closed := true)
    case Receive => s.(phase := Ready, taken := s.taken + 1)
    case Stop => s.(phase := Stopped)
    case Timer => s.(phase := Draining)
    case Drain => s.(taken := s.taken + 1)
    case Drained => s.(phase := Ready)
    case Begin => s.(phase := Sending)
    case Answer(reply) =>
      s.(phase := if reply.Pushed? then Sending else Waiting, replies := s.replies + [reply])
  }

  function Run(steps: seq<Step>): (s: State) {
    if steps == [] then INITIAL else Next(Run(steps[..|steps| - 1]), steps[|steps| - 1])
  }

  predicate Allowed(steps: seq<Step>) {
    steps == [] ||
    var front := steps[..|steps| - 1];
    Allowed(front) && Enabled(Run(front), steps[|steps| - 1])
  }

  lemma {:induction false} TakenWerePosted(steps: seq<Step>)
    requires Allowed(steps)
    ensures Run(steps).taken <= Run(steps).posted
  {
    if steps != [] {
      TakenWerePosted(steps[..|steps| - 1]);
    }
  }

  predicate Consumes(step: Step) {
    step.Receive? || step.Drain?
  }

  /** A pass was begun after position `j`. */
  predicate ServedSince(steps: seq<Step>, j: nat) {
    exists b | j < b < |steps| :: steps[b].Begin?
  }

  predicate AboutToSend(s: State) {
    s.phase.Draining? || s.phase.Ready?
  }

  lemma {:induction false} AllowedPrefix(steps: seq<Step>, k: nat)
    requires Allowed(steps) && k <= |steps|
    ensures Allowed(steps[..k])
  {
    if k < |steps| {
      AllowedPrefix(steps[..|steps| - 1], k);
      assert steps[..|steps| - 1][..k] == steps[..k];
    } else {
      assert steps[..k] == steps;
    }
  }

  /** Every notification taken from the channel is followed by a pass, or one is about to begin. */
  lemma {:induction false} ConsumedIsServed(steps: seq<Step>, j: nat)
    requires Allowed(steps) && j < |steps| && Consumes(steps[j])
    ensures ServedSince(steps, j) || AboutToSend(Run(steps))
  {
    var n := |steps| - 1;
    if j < n {
      var front := steps[..n];
      ConsumedIsServed(front, j);
      if ServedSince(front, j) {
        var b :| j < b < n && front[b].Begin?;
        assert steps[b].Begin?;
      } else if steps[n].Begin? {
        assert ServedSince(steps, j);
      }
    }
  }

  lemma {:induction false} TakenMeansConsumed(steps: seq<Step>, j: nat)
    requires Allowed(steps) && j <= |steps| && Allowed(steps[..j])
    requires Run(steps[..j]).taken < Run(steps).taken
    ensures exists c | j <= c < |steps| :: Consumes(steps[c])
  {
    var n := |steps| - 1;
    assert steps[..|steps|] == steps;
    if j <= n && !Consumes(steps[n]) {
      var front := steps[..n];
      assert front[..j] == steps[..j];
      TakenMeansConsumed(front, j);
      var c :| j <= c < n && Consumes(front[c]);
      assert Consumes(steps[c]);
    }
  }

  lemma PostIsCounted(steps: seq<Step>, j: nat)
    requires Allowed(steps) && j < |steps| && steps[j].Post?
    ensures Allowed(steps[..j + 1]) && Run(steps[..j + 1]).taken < Run(steps[..j + 1]).posted
  {
    AllowedPrefix(steps, j);
    AllowedPrefix(steps, j + 1);
    PrefixSnoc(steps, j);
    SnocPrefix(steps[..j], steps[j]);
    TakenWerePosted(steps[..j]);
  }

  lemma {:induction false} PostedGrows(steps: seq<Step>, k: nat)
    requires Allowed(steps) && k <= |steps| && Allowed(steps[..k])
    ensures Run(steps[..k]).posted <= Run(steps).posted
  {
    if k < |steps| {
      var front := steps[..|steps| - 1];
      assert front[..k] == steps[..k];
      PostedGrows(front, k);
    } else {
      assert steps[..k] == steps;
    }
  }

  /**
   While the worker waits with its channel empty, every notification ever posted has had a
   pass begun after it.
   */
  lemma IdleMeansServed(steps: seq<Step>, j: nat)
    requires Allowed(steps) && j < |steps| && steps[j].Post?
    requires Run(steps).taken == Run(steps).posted && !AboutToSend(Run(steps))
    ensures ServedSince(steps, j)
  {
    PostIsCounted(steps, j);
    PostedGrows(steps, j + 1);
    TakenMeansConsumed(steps, j + 1);
    var c :| j + 1 <= c < |steps| && Consumes(steps[c]);
    ConsumedIsServed(steps, c);
    var b :| c < b < |steps| && steps[b].Begin?;
    assert j < b;
  }

  /** The replies since the last pass began. */
  function PassReplies(steps: seq<Step>): (r: seq<Reply>) {
    if steps == [] then []
    else
      var before := PassReplies(steps[..|steps| - 1]);
      match steps[|steps| - 1]
      case Begin => []
      case Answer(reply) => before + [reply]
      case _ => before
  }

  /**
   In every run a pass goes on exactly while its batches send something: it is over once one was
   empty or failed, so the worker never waits right after a batch that sent writes.
   */
  lemma {:induction false} PassEndsIff(steps: seq<Step>)
    requires Allowed(steps)
    ensures var got := PassReplies(steps);
      && (forall i | 0 <= i < |got| - 1 :: got[i].Pushed?)
      && (got != [] ==> (Run(steps).phase.Sending? <==> got[|got| - 1].Pushed?))
  {
    hide Enabled, Run, Allowed;
    if steps != [] {
      var front, step := steps[..|steps| - 1], steps[|steps| - 1];
      assert steps == front + [step];
      AllowedSnoc(front, step);
      PassEndsIff(front);
      PassStep(Run(front), step);
    }
  }

  lemma PassStep(s: State, step: Step)
    requires Enabled(s, step)
    ensures Next(s, step).phase.Sending? <==>
      step.Begin? || (s.phase.Sending? && !step.Answer?) || (step.Answer? && step.reply.Pushed?)
    ensures step.Answer? ==> s.phase.Sending?
  {
  }

  /** What the worker last woke for: the timer, or a notification. */
  function LastWake(steps: seq<Step>): (w: Option<Step>) {
    if steps == [] then None
    else if steps[|steps| - 1].Timer? || steps[|steps| - 1].Receive? then Some(steps[|steps| - 1])
    else LastWake(steps[..|steps| - 1])
  }

  /** In every run a pass about to begin was woken by the timer when offline and by a notification when online. */
  lemma {:induction false} WokenBy(steps: seq<Step>)
    requires Allowed(steps) && AboutToSend(Run(steps))
    ensures LastWake(steps) == Some(if WorkerOf(Run(steps)).offline then Timer else Receive)
  {
    hide ReactAll;
    var front, step := steps[..|steps| - 1], steps[|steps| - 1];
    if !step.Timer? && !step.Receive? {
      WokenBy(front);
    }
  }

  /** The worker's own steps: nobody posts and nobody closes the channel. */
  predicate Unaided(steps: seq<Step>) {
    forall i | 0 <= i < |steps| :: !steps[i].Post? && !steps[i].Close?
  }

  predicate Begins(steps: seq<Step>) {
    exists i | 0 <= i < |steps| :: steps[i].Begin?
  }

  /** The worker can begin another pass by itself. */
  ghost predicate CanBegin(steps: seq<Step>) {
    exists more: seq<Step> | Unaided(more) && Allowed(steps + more) :: Begins(more)
  }

  lemma AllowedSnoc(steps: seq<Step>, step: Step)
    ensures Allowed(steps + [step]) <==> Allowed(steps) && Enabled(Run(steps), step)
    ensures Run(steps + [step]) == Next(Run(steps), step)
  {
    SnocPrefix(steps, step);
  }

  lemma OfflineBegins(steps: seq<Step>)
    requires Allowed(steps) && Run(steps).phase.Waiting? && Run(steps).taken == Run(steps).posted
    requires WorkerOf(Run(steps)).offline
    ensures CanBegin(steps)
  {
    hide Run, Allowed;
    AllowedSnoc(steps, Timer);
    AllowedSnoc(steps + [Timer], Drained);
    AllowedSnoc(steps + [Timer] + [Drained], Begin);
    var more := [Timer, Drained, Begin];
    assert steps + [Timer] + [Drained] + [Begin] == steps + more;
    assert Unaided(more) && more[2].Begin? && Begins(more);
  }

  lemma FirstIsEnabled(steps: seq<Step>, more: seq<Step>)
    requires Allowed(steps + more) && more != []
    ensures Enabled(Run(steps), more[0])
  {
    hide Run, Enabled;
    AllowedPrefix(steps + more, |steps| + 1);
    assert (steps + more)[..|steps| + 1] == steps + [more[0]];
    AllowedSnoc(steps, more[0]);
  }

  lemma OnlineWaits(s: State, step: Step)
    requires s.phase.Waiting? && s.taken == s.posted && !s.closed && !WorkerOf(s).offline
    requires !step.Post? && !step.Close?
    ensures !Enabled(s, step)
  {
  }

  /**
   In every run: waiting with an empty open channel, the worker tries again by itself exactly when
   it is offline. So after a batch error while online it waits for the next notification.
   */
  lemma BeginsUnaidedIff(steps: seq<Step>)
    requires Allowed(steps)
    requires Run(steps).phase.Waiting? && Run(steps).taken == Run(steps).posted && !Run(steps).closed
    ensures CanBegin(steps) <==> WorkerOf(Run(steps)).offline
  {
    hide Run, Enabled, Allowed;
    if WorkerOf(Run(steps)).offline {
      OfflineBegins(steps);
    } else if CanBegin(steps) {
      var more: seq<Step> :| Unaided(more) && Allowed(steps + more) && Begins(more);
      OnlineWaits(Run(steps), more[0]);
      FirstIsEnabled(steps, more);
      assert false;
    }
  }

  // ---- the worker loop ----

  class UploadTask {
    var offline: bool
    var backoff: nat

    ghost function Model(): (w: Worker)
      reads this
    {
      Worker(offline, backoff)
    }

    constructor ()
      ensures Model() == ONLINE
    {
      offline, backoff := false, 0;
    }

    /** One pass: batches until one sends nothing or fails. `replies` is what the queue would answer. */
    method SendBatches(replies: seq<Reply>) returns (used: nat)
      requires exists r | r in replies :: r.Nothing? || r.BatchFailed?
      modifies this
      ensures 1 <= used <= |replies| && (replies[used - 1].Nothing? || replies[used - 1].BatchFailed?)
      ensures forall i | 0 <= i < used - 1 :: replies[i].Pushed?
      ensures Model() == ReactAll(old(Model()), replies[..used])
    {
      used := 0;
      var go := true;
      while go
        invariant used <= |replies|
        invariant go ==> forall i | 0 <= i < used :: replies[i].Pushed?
        invariant !go ==> used >= 1 && !replies[used - 1].Pushed?
        invariant !go ==> forall i | 0 <= i < used - 1 :: replies[i].Pushed?
        invariant Model() == ReactAll(old(Model()), replies[..used])
        decreases go, |replies| - used
      {
        PrefixSnoc(replies, used);
        SnocPrefix(replies[..used], replies[used]);
        match replies[used] {
          case Nothing(count) =>
            if count.Some? {
              var safe := if count.value > MAX_REASONABLE then 0 else count.value;
              if safe > 0 && !offline {
                offline, backoff := true, FIRST_BACKOFF;
              } else if safe > 0 {
                backoff := Min(backoff * 2, MAX_BACKOFF);
              } else if safe == 0 && offline {
                offline, backoff := false, 0;
              }
            }
            go := false;
          case Pushed(_) =>
            offline, backoff := false, 0;
          case BatchFailed =>
            go := false;
        }
        used := used + 1;
      }
    }
  }
}
