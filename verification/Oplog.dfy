/**
 The client's durable oplog: local writes waiting for the server. Entries are appended,
 marked synced or failed by id, and removed once synced and old.
 */
module Oplog {
  import opened MutationLog
  import opened Prelude
  import opened Sequences

  datatype Status = Pending | Synced | Failed | Optimistic

  datatype Entry = Entry(
    id: string,
    namespace: string,
    docId: string,
    recordId: string,
    update: seq<bv8>,
    createdAt: u64,
    sequence: Option<u64>,
    status: Status)

  predicate Uploadable(s: Status) {
    s.Pending? || s.Optimistic?
  }

  predicate Waiting(e: Entry, ns: string) {
    e.namespace == ns && Uploadable(e.status)
  }

  /** The calls that change the oplog; `now` is the clock reading of the call. */
  datatype Op =
    | Append(entry: Entry)
    | MarkSynced(id: string, sequence: u64)
    | MarkFailed(id: string)
    | DeleteOlderThan(namespace: string, seconds: u64, now: u64)
    | DeleteBefore(namespace: string, cutoff: u64)
    | DeleteRecordBefore(namespace: string, docId: string, recordId: string, cutoff: u64)

  /** `now` less the age in milliseconds: the product wraps at 64 bits, the difference stops at 0. */
  function Cutoff(seconds: u64, now: u64): (c: u64) {
    var age := seconds * 1000 % TWO_64;
    if now < age then 0 else now - age
  }

  predicate Deletes(op: Op) {
    op.DeleteOlderThan? || op.DeleteBefore? || op.DeleteRecordBefore?
  }

  predicate Marks(op: Op, id: string) {
    (op.MarkSynced? || op.MarkFailed?) && op.id == id
  }

  /** The entries a delete call removes. */
  predicate Expired(e: Entry, op: Op) {
    e.status.Synced? &&
    match op
    case DeleteOlderThan(ns, seconds, now) => e.namespace == ns && e.createdAt < Cutoff(seconds, now)
    case DeleteBefore(ns, cutoff) => e.namespace == ns && e.createdAt < cutoff
    case DeleteRecordBefore(ns, doc, rec, cutoff) =>
      e.namespace == ns && e.docId == doc && e.recordId == rec && e.createdAt < cutoff
    case _ => false
  }

  /** What a mark call does to the entry it finds. */
  function Marked(e: Entry, op: Op): (r: Entry) {
    match op
    case MarkSynced(_, s) => e.(status := Synced, sequence := Some(s))
    case MarkFailed(_) => e.(status := Failed)
    case _ => e
  }

  /** The position of the first entry with the id, or the length. */
  function FirstIndex(log: seq<Entry>, id: string): (k: nat)
    ensures k <= |log|
    ensures k < |log| ==> log[k].id == id
    ensures forall i | 0 <= i < k :: log[i].id != id
  {
    if log == [] then 0
    else
      var k := FirstIndex(log[..|log| - 1], id);
      if k < |log| - 1 || log[|log| - 1].id == id then k else |log|
  }

  function Step(log: seq<Entry>, op: Op): (r: seq<Entry>)
    ensures !Deletes(op) ==> |log| <= |r|
    ensures Deletes(op) ==> |r| <= |log|
  {
    match op
    case Append(e) => log + [e]
    case MarkSynced(id, _) =>
      var k := FirstIndex(log, id);
      if k < |log| then log[k := Marked(log[k], op)] else log
    case MarkFailed(id) =>
      var k := FirstIndex(log, id);
      if k < |log| then log[k := Marked(log[k], op)] else log
    case _ => Filter(log, (e: Entry) => !Expired(e, op))
  }

  /** The count a delete call returns. */
  function Removed(log: seq<Entry>, op: Op): (n: nat) {
    if Deletes(op) then |log| - |Step(log, op)| else 0
  }

  function Run(ops: seq<Op>): (log: seq<Entry>) {
    if ops == [] then [] else Step(Run(ops[..|ops| - 1]), ops[|ops| - 1])
  }

  function TotalRemoved(ops: seq<Op>): (n: nat) {
    if ops == [] then 0
    else
      var front := ops[..|ops| - 1];
      TotalRemoved(front) + Removed(Run(front), ops[|ops| - 1])
  }

  function Appended(ops: seq<Op>): (n: nat) {
    |Filter(ops, (op: Op) => op.Append?)|
  }

  // ---- conservation ----

  /** Every appended entry is still there or was counted by some delete. */
  lemma {:induction false} Conservation(ops: seq<Op>)
    ensures Appended(ops) == |Run(ops)| + TotalRemoved(ops)
  {
    hide Step, Removed, Filter;
    var p := (op: Op) => op.Append?;
    if ops == [] {
      FilterNone(p);
    } else {
      var front, op := ops[..|ops| - 1], ops[|ops| - 1];
      Conservation(front);
      assert ops == front + [op];
      FilterSnoc(front, op, p);
      StepConserves(Run(front), op);
    }
  }

  lemma StepConserves(log: seq<Entry>, op: Op)
    ensures |log| + (if op.Append? then 1 else 0) == |Step(log, op)| + Removed(log, op)
  {
  }

  // ---- what leaves, and why ----

  predicate HasEntry(log: seq<Entry>, id: string) {
    exists e | e in log :: e.id == id
  }

  function EntriesOf(log: seq<Entry>, id: string): (n: nat) {
    |Filter(log, (e: Entry) => e.id == id)|
  }

  function AppendedOf(ops: seq<Op>, id: string): (n: nat) {
    |Filter(ops, (op: Op) => op.Append? && op.entry.id == id)|
  }

  /** How many entries with the id a step finds expired. */
  function ExpiredOf(log: seq<Entry>, op: Op, id: string): (n: nat) {
    |Filter(log, (e: Entry) => e.id == id && Expired(e, op))|
  }

  function RemovedOf(ops: seq<Op>, id: string): (n: nat) {
    if ops == [] then 0
    else
      var front := ops[..|ops| - 1];
      RemovedOf(front, id) + ExpiredOf(Run(front), ops[|ops| - 1], id)
  }

  lemma StepOf(log: seq<Entry>, op: Op, id: string)
    ensures EntriesOf(Step(log, op), id) + ExpiredOf(log, op, id)
         == EntriesOf(log, id) + if op.Append? && op.entry.id == id then 1 else 0
  {
    var p := (e: Entry) => e.id == id;
    if Deletes(op) {
      DeleteOf(log, op, id);
    } else {
      FilterExtremes(log, (e: Entry) => e.id == id && Expired(e, op));
      if op.Append? {
        FilterSnoc(log, op.entry, p);
      } else {
        var k := FirstIndex(log, op.id);
        if k < |log| {
          FilterReplacedAlike(log, k, Marked(log[k], op), p);
        }
      }
    }
  }

  lemma DeleteOf(log: seq<Entry>, op: Op, id: string)
    requires Deletes(op)
    ensures EntriesOf(Step(log, op), id) + ExpiredOf(log, op, id) == EntriesOf(log, id)
  {
    hide Expired;
    var p := (e: Entry) => e.id == id;
    var gone := (e: Entry) => e.id == id && Expired(e, op);
    var kept := (e: Entry) => !Expired(e, op) && e.id == id;
    FilterTwice(log, (e: Entry) => !Expired(e, op), p, kept);
    FilterSplits(log, p, gone, kept);
  }

  /** For each id: entries appended are entries present and entries some delete found expired. */
  lemma {:induction false} IdConservation(ops: seq<Op>, id: string)
    ensures AppendedOf(ops, id) == EntriesOf(Run(ops), id) + RemovedOf(ops, id)
  {
    hide Step, EntriesOf, ExpiredOf;
    if ops == [] {
      NoEntries(id);
    } else {
      var front, op := ops[..|ops| - 1], ops[|ops| - 1];
      IdConservation(front, id);
      assert ops == front + [op];
      FilterSnoc(front, op, (op: Op) => op.Append? && op.entry.id == id);
      StepOf(Run(front), op, id);
    }
  }

  lemma NoEntries(id: string)
    ensures EntriesOf([], id) == 0
  {
  }

  /**
   An id is gone exactly when deletes have found as many of its entries synced, older than the
   cutoff and matching as were ever appended.
   */
  lemma LeavesIff(ops: seq<Op>, id: string)
    ensures HasEntry(Run(ops), id) <==> RemovedOf(ops, id) < AppendedOf(ops, id)
  {
    IdConservation(ops, id);
    FilterExtremes(Run(ops), (e: Entry) => e.id == id);
  }

  // ---- pending entries survive ----

  /**
   By the history alone: the uploadable entries appended to `ns` and not marked since, in
   append order. Deletes do not occur in it.
   */
  function Unmarked(ops: seq<Op>, ns: string): (r: seq<Entry>) {
    if ops == [] then [] else UnmarkedAfter(Unmarked(ops[..|ops| - 1], ns), ops[|ops| - 1], ns)
  }

  function UnmarkedAfter(unmarked: seq<Entry>, op: Op, ns: string): (r: seq<Entry>) {
    match op
    case Append(e) => if Waiting(e, ns) then unmarked + [e] else unmarked
    case MarkSynced(_, _) => Filter(unmarked, (e: Entry) => e.id != op.id)
    case MarkFailed(_) => Filter(unmarked, (e: Entry) => e.id != op.id)
    case _ => unmarked
  }

  /** Every waiting entry with the marked id is the one that a mark finds. */
  predicate FirstsOnly(log: seq<Entry>, op: Op, ns: string)
    requires op.MarkSynced? || op.MarkFailed?
  {
    forall i | 0 <= i < |log| && log[i].id == op.id && Waiting(log[i], ns) :: i == FirstIndex(log, op.id)
  }

  /** A mark takes exactly the entries with its id off the waiting list, exactly when there is no second one. */
  lemma MarkDropsIff(log: seq<Entry>, op: Op, ns: string)
    requires op.MarkSynced? || op.MarkFailed?
    ensures Filter(Step(log, op), (e: Entry) => Waiting(e, ns)) ==
        Filter(Filter(log, (e: Entry) => Waiting(e, ns)), (e: Entry) => e.id != op.id)
      <==> FirstsOnly(log, op, ns)
  {
    var p, q := (e: Entry) => Waiting(e, ns), (e: Entry) => e.id != op.id;
    if FirstsOnly(log, op, ns) {
      MarkDrops(log, op, ns);
    } else {
      var i :| 0 <= i < |log| && log[i].id == op.id && Waiting(log[i], ns) && i != FirstIndex(log, op.id);
      assert Step(log, op)[i] == log[i];
      assert log[i] in Filter(Step(log, op), p) && log[i] !in Filter(Filter(log, p), q);
    }
  }

  lemma MarkDrops(log: seq<Entry>, op: Op, ns: string)
    requires (op.MarkSynced? || op.MarkFailed?) && FirstsOnly(log, op, ns)
    ensures Filter(Step(log, op), (e: Entry) => Waiting(e, ns)) ==
      Filter(Filter(log, (e: Entry) => Waiting(e, ns)), (e: Entry) => e.id != op.id)
  {
    var p, q := (e: Entry) => Waiting(e, ns), (e: Entry) => e.id != op.id;
    var both := (e: Entry) => Waiting(e, ns) && e.id != op.id;
    FilterTwice(log, p, q, both);
    var k := FirstIndex(log, op.id);
    if k < |log| {
      FilterReplaced(log, k, Marked(log[k], op), p, both);
    } else {
      FilterCongruence(log, p, both);
    }
  }

  /** Every mark of the run is such a mark. */
  predicate MarksFirst(ops: seq<Op>, ns: string) {
    ops == [] ||
    var front, op := ops[..|ops| - 1], ops[|ops| - 1];
    MarksFirst(front, ns) && (op.MarkSynced? || op.MarkFailed? ==> FirstsOnly(Run(front), op, ns))
  }

  lemma PendingStep(log: seq<Entry>, op: Op, ns: string)
    ensures var p := (e: Entry) => Waiting(e, ns);
      && (op.Append? ==> Filter(Step(log, op), p) == Filter(log, p) + if p(op.entry) then [op.entry] else [])
      && (Deletes(op) ==> Filter(Step(log, op), p) == Filter(log, p))
  {
    var p := (e: Entry) => Waiting(e, ns);
    if op.Append? {
      FilterSnoc(log, op.entry, p);
    } else if Deletes(op) {
      FilterTwice(log, (e: Entry) => !Expired(e, op), p, p);
    }
  }

  /** What is read as pending is what the history leaves unmarked, whatever was deleted. */
  lemma {:induction false} PendingSurvives(ops: seq<Op>, ns: string)
    requires MarksFirst(ops, ns)
    ensures Filter(Run(ops), (e: Entry) => Waiting(e, ns)) == Unmarked(ops, ns)
  {
    hide Step, FirstsOnly;
    if ops != [] {
      var front, op := ops[..|ops| - 1], ops[|ops| - 1];
      PendingSurvives(front, ns);
      PendingStep(Run(front), op, ns);
      if op.MarkSynced? || op.MarkFailed? {
        MarkDrops(Run(front), op, ns);
      }
    }
  }

  /** A mark leaves the entries with other ids as they are. */
  lemma MarkKeepsOthers(log: seq<Entry>, op: Op, ns: string)
    requires op.MarkSynced? || op.MarkFailed?
    ensures var p, q := (e: Entry) => Waiting(e, ns), (e: Entry) => e.id != op.id;
      Filter(Filter(Step(log, op), p), q) == Filter(Filter(log, p), q)
  {
    var p, q := (e: Entry) => Waiting(e, ns), (e: Entry) => e.id != op.id;
    var both := (e: Entry) => Waiting(e, ns) && e.id != op.id;
    FilterTwice(log, p, q, both);
    FilterTwice(Step(log, op), p, q, both);
    var k := FirstIndex(log, op.id);
    if k < |log| {
      FilterReplaced(log, k, Marked(log[k], op), both, both);
    }
  }

  lemma MarkKeepsUnmarked(log: seq<Entry>, op: Op, ns: string, unmarked: seq<Entry>)
    requires op.MarkSynced? || op.MarkFailed?
    requires Subsequence(unmarked, Filter(log, (e: Entry) => Waiting(e, ns)))
    ensures Subsequence(Filter(unmarked, (e: Entry) => e.id != op.id),
                        Filter(Step(log, op), (e: Entry) => Waiting(e, ns)))
  {
    var p, q := (e: Entry) => Waiting(e, ns), (e: Entry) => e.id != op.id;
    MarkKeepsOthers(log, op, ns);
    FilterSubsequence(unmarked, Filter(log, p), q);
    FilterIsSubsequence(Filter(Step(log, op), p), q);
    SubsequenceTransitive(Filter(unmarked, q), Filter(Filter(log, p), q), Filter(Step(log, op), p));
  }

  lemma StepKeepsUnmarked(log: seq<Entry>, op: Op, ns: string, unmarked: seq<Entry>)
    requires Subsequence(unmarked, Filter(log, (e: Entry) => Waiting(e, ns)))
    ensures Subsequence(UnmarkedAfter(unmarked, op, ns), Filter(Step(log, op), (e: Entry) => Waiting(e, ns)))
  {
    hide Step, Waiting, Subsequence, Filter;
    PendingStep(log, op, ns);
    if op.Append? {
      var pending := Filter(log, (e: Entry) => Waiting(e, ns));
      SubsequenceSnoc(unmarked, pending, op.entry);
      assert pending + [] == pending;
    } else if !Deletes(op) {
      MarkKeepsUnmarked(log, op, ns, unmarked);
    }
  }

  /** In every run, repeated ids or not, every uploadable write not marked since is read as pending, in order. */
  lemma {:induction false} UnmarkedIsPending(ops: seq<Op>, ns: string)
    ensures Subsequence(Unmarked(ops, ns), Filter(Run(ops), (e: Entry) => Waiting(e, ns)))
  {
    hide Step, Waiting, Subsequence, Filter, UnmarkedAfter;
    if ops == [] {
      NothingIsSubsequence(Filter(Run(ops), (e: Entry) => Waiting(e, ns)));
    } else {
      var front, op := ops[..|ops| - 1], ops[|ops| - 1];
      UnmarkedIsPending(front, ns);
      StepKeepsUnmarked(Run(front), op, ns, Unmarked(front, ns));
    }
  }

  /** No two appends use one id. */
  predicate FreshIds(ops: seq<Op>) {
    forall i, j | 0 <= i < j < |ops| && ops[i].Append? && ops[j].Append? :: ops[i].entry.id != ops[j].entry.id
  }

  lemma {:induction false} AppendedOnce(ops: seq<Op>, id: string)
    requires FreshIds(ops)
    ensures AppendedOf(ops, id) <= 1
  {
    if ops != [] {
      var front, op := ops[..|ops| - 1], ops[|ops| - 1];
      var p := (x: Op) => x.Append? && x.entry.id == id;
      AppendedOnce(front, id);
      assert ops == front + [op];
      FilterSnoc(front, op, p);
      if p(op) {
        FilterExtremes(front, p);
      }
    }
  }

  /** With ids that are never used twice every mark is such a mark. */
  lemma {:induction false} FreshIdsMarkFirst(ops: seq<Op>, ns: string)
    requires FreshIds(ops)
    ensures MarksFirst(ops, ns)
  {
    if ops != [] {
      var front, op := ops[..|ops| - 1], ops[|ops| - 1];
      FreshIdsMarkFirst(front, ns);
      if op.MarkSynced? || op.MarkFailed? {
        AppendedOnce(front, op.id);
        IdConservation(front, op.id);
        MarkFindsOnly(Run(front), op, ns);
      }
    }
  }

  lemma MarkFindsOnly(log: seq<Entry>, op: Op, ns: string)
    requires (op.MarkSynced? || op.MarkFailed?) && EntriesOf(log, op.id) <= 1
    ensures FirstsOnly(log, op, ns)
  {
    var k := FirstIndex(log, op.id);
    forall i | 0 <= i < |log| && log[i].id == op.id ensures i == k {
      if k < i {
        FilterTwo(log, k, i, (e: Entry) => e.id == op.id);
      }
    }
  }

  // ---- acknowledgement ----

  predicate AppendedId(ops: seq<Op>, id: string) {
    exists op | op in ops :: op.Append? && op.entry.id == id
  }

  lemma {:induction false} PresentWasAppended(ops: seq<Op>, id: string)
    requires HasEntry(Run(ops), id)
    ensures AppendedId(ops, id)
  {
    LeavesIff(ops, id);
    FilterExtremes(ops, (op: Op) => op.Append? && op.entry.id == id);
  }

  /** The server acknowledged the id after its append, or it was appended as synced. */
  ghost predicate Acknowledged(ops: seq<Op>, id: string) {
    exists i | 0 <= i < |ops| ::
      && ops[i].Append? && ops[i].entry.id == id
      && (ops[i].entry.status.Synced? || exists j | i < j < |ops| :: ops[j].MarkSynced? && ops[j].id == id)
  }

  lemma AcknowledgedGrows(ops: seq<Op>, op: Op, id: string)
    requires Acknowledged(ops, id)
    ensures Acknowledged(ops + [op], id)
  {
    var after := ops + [op];
    var i :| 0 <= i < |ops| && ops[i].Append? && ops[i].entry.id == id
      && (ops[i].entry.status.Synced? || exists j | i < j < |ops| :: ops[j].MarkSynced? && ops[j].id == id);
    assert after[i] == ops[i];
    if !ops[i].entry.status.Synced? {
      var j :| i < j < |ops| && ops[j].MarkSynced? && ops[j].id == id;
      assert after[j] == ops[j];
    }
  }

  lemma MarkAcknowledges(ops: seq<Op>, op: Op)
    requires op.MarkSynced? && AppendedId(ops, op.id)
    ensures Acknowledged(ops + [op], op.id)
  {
    var after := ops + [op];
    var a :| a in ops && a.Append? && a.entry.id == op.id;
    var i :| 0 <= i < |ops| && ops[i] == a;
    assert after[i] == a && after[|ops|] == op;
  }

  /** Every synced entry was acknowledged; so nothing leaves that was not. */
  lemma {:induction false} SyncedWasAcknowledged(ops: seq<Op>, e: Entry)
    requires e in Run(ops) && e.status.Synced?
    ensures Acknowledged(ops, e.id)
  {
    var front, op := ops[..|ops| - 1], ops[|ops| - 1];
    assert ops == front + [op];
    if e in Run(front) {
      SyncedWasAcknowledged(front, e);
      AcknowledgedGrows(front, op, e.id);
    } else if op.Append? {
      assert ops[|front|] == op && op.entry == e;
    } else {
      var k := FirstIndex(Run(front), op.id);
      assert Run(front)[k] in Run(front);
      PresentWasAppended(front, e.id);
      MarkAcknowledges(front, op);
    }
  }

  lemma UnsyncedStays(log: seq<Entry>, op: Op, id: string)
    requires HasEntry(log, id) && forall e | e in log && e.id == id :: !e.status.Synced?
    ensures HasEntry(Step(log, op), id)
  {
    var p := (e: Entry) => e.id == id;
    StepOf(log, op, id);
    FilterExtremes(log, (e: Entry) => e.id == id && Expired(e, op));
    FilterExtremes(log, p);
    FilterExtremes(Step(log, op), p);
  }

  lemma AppendedIsPresent(log: seq<Entry>, e: Entry)
    ensures HasEntry(Step(log, Append(e)), e.id)
  {
    assert e in Step(log, Append(e));
  }

  /** A write the server never acknowledged is still in the oplog. */
  lemma {:induction false} UnacknowledgedStays(ops: seq<Op>, i: nat)
    requires i < |ops| && ops[i].Append? && !Acknowledged(ops, ops[i].entry.id)
    ensures HasEntry(Run(ops), ops[i].entry.id)
  {
    hide Step, Acknowledged;
    var n, id := |ops| - 1, ops[i].entry.id;
    var front := ops[..n];
    assert ops == front + [ops[n]];
    if i == n {
      AppendedIsPresent(Run(front), ops[n].entry);
    } else {
      StillUnacknowledged(front, ops[n], id);
      UnacknowledgedStays(front, i);
      UnsyncedStays(Run(front), ops[n], id);
    }
  }

  lemma StillUnacknowledged(front: seq<Op>, op: Op, id: string)
    requires !Acknowledged(front + [op], id)
    ensures !Acknowledged(front, id)
    ensures forall e | e in Run(front) && e.id == id :: !e.status.Synced?
  {
    hide Acknowledged, Run;
    if Acknowledged(front, id) {
      AcknowledgedGrows(front, op, id);
    }
    forall e | e in Run(front) && e.id == id ensures !e.status.Synced? {
      if e.status.Synced? {
        SyncedWasAcknowledged(front, e);
      }
    }
  }

  /** With a repeated id only the first copy is marked: the second is read as pending for ever. */
  lemma RepeatedIdStaysPending(e: Entry, s: u64)
    requires Uploadable(e.status)
    ensures Run([Append(e), Append(e), MarkSynced(e.id, s), MarkSynced(e.id, s)]) ==
      [e.(status := Synced, sequence := Some(s)), e]
  {
    var ack := MarkSynced(e.id, s);
    var acked := e.(status := Synced, sequence := Some(s));
    var none: seq<Op> := [];
    var twice := none + [Append(e)] + [Append(e)];
    RunSnoc(none, Append(e));
    RunSnoc(none + [Append(e)], Append(e));
    RunSnoc(twice, ack);
    RunSnoc(twice + [ack], ack);
    MarkHead(e, e, ack);
    MarkHead(acked, e, ack);
    assert Run(twice) == [e, e];
    assert [Append(e), Append(e), ack, ack] == twice + [ack] + [ack];
  }

  lemma MarkHead(x: Entry, y: Entry, op: Op)
    requires Marks(op, x.id)
    ensures Step([x, y], op) == [Marked(x, op), y]
  {
    assert [x, y][0].id == op.id;
    assert FirstIndex([x, y], op.id) == 0;
  }

  lemma RunSnoc(ops: seq<Op>, op: Op)
    ensures Run(ops + [op]) == Step(Run(ops), op)
  {
    SnocPrefix(ops, op);
  }

  // ---- what a delete removes ----

  /** Exactly the synced entries of the namespace that are more than `seconds` old go; the rest keep their order. */
  lemma OlderThanRemoves(log: seq<Entry>, ns: string, seconds: u64, now: u64)
    ensures Step(log, DeleteOlderThan(ns, seconds, now)) == Filter(log, (e: Entry) =>
      !(e.status == Synced && e.namespace == ns && e.createdAt + seconds * 1000 % TWO_64 < now))
  {
    FilterCongruence(log, (e: Entry) => !Expired(e, DeleteOlderThan(ns, seconds, now)), (e: Entry) =>
      !(e.status == Synced && e.namespace == ns && e.createdAt + seconds * 1000 % TWO_64 < now));
  }

  lemma BeforeRemoves(log: seq<Entry>, ns: string, cutoff: u64)
    ensures Step(log, DeleteBefore(ns, cutoff)) == Filter(log, (e: Entry) =>
      !(e.status == Synced && e.namespace == ns && e.createdAt < cutoff))
  {
    FilterCongruence(log, (e: Entry) => !Expired(e, DeleteBefore(ns, cutoff)), (e: Entry) =>
      !(e.status == Synced && e.namespace == ns && e.createdAt < cutoff));
  }

  lemma RecordBeforeRemoves(log: seq<Entry>, ns: string, doc: string, rec: string, cutoff: u64)
    ensures Step(log, DeleteRecordBefore(ns, doc, rec, cutoff)) == Filter(log, (e: Entry) =>
      !(e.status == Synced && e.namespace == ns && e.docId == doc && e.recordId == rec && e.createdAt < cutoff))
  {
    FilterCongruence(log, (e: Entry) => !Expired(e, DeleteRecordBefore(ns, doc, rec, cutoff)), (e: Entry) =>
      !(e.status == Synced && e.namespace == ns && e.docId == doc && e.recordId == rec && e.createdAt < cutoff));
  }

  /** The cutoff given for the entry's namespace, or record, is not above its creation. */
  predicate Spares(op: Op, e: Entry) {
    match op
    case DeleteOlderThan(ns, seconds, now) => ns == e.namespace ==> now <= e.createdAt + seconds * 1000 % TWO_64
    case DeleteBefore(ns, cutoff) => ns == e.namespace ==> cutoff <= e.createdAt
    case DeleteRecordBefore(ns, doc, rec, cutoff) =>
      ns == e.namespace && doc == e.docId && rec == e.recordId ==> cutoff <= e.createdAt
    case _ => true
  }

  /** The entry as appended, but for what marks change. */
  predicate SameWrite(x: Entry, e: Entry) {
    x == e.(status := x.status, sequence := x.sequence)
  }

  ghost predicate Holds(log: seq<Entry>, e: Entry) {
    exists x | x in log :: SameWrite(x, e)
  }

  lemma SparedStays(log: seq<Entry>, op: Op, e: Entry)
    requires Holds(log, e) && Spares(op, e)
    ensures Holds(Step(log, op), e)
  {
    var x :| x in log && SameWrite(x, e);
    if Deletes(op) {
      assert !Expired(x, op);
    } else if !op.Append? {
      var i :| 0 <= i < |log| && log[i] == x;
      assert SameWrite(Step(log, op)[i], e) && Step(log, op)[i] in Step(log, op);
    }
  }

  /** Over runs: an entry created at or after every cutoff given for its namespace since never leaves. */
  lemma {:induction false} RecentStays(ops: seq<Op>, i: nat)
    requires i < |ops| && ops[i].Append?
    requires forall j | i < j < |ops| :: Spares(ops[j], ops[i].entry)
    ensures Holds(Run(ops), ops[i].entry)
    decreases |ops|
  {
    hide Step, Holds, Spares;
    var n := |ops| - 1;
    if i == n {
      AppendedIsHeld(Run(ops[..n]), ops[n].entry);
    } else {
      RecentStays(ops[..n], i);
      SparedStays(Run(ops[..n]), ops[n], ops[i].entry);
    }
  }

  lemma AppendedIsHeld(log: seq<Entry>, e: Entry)
    ensures Holds(Step(log, Append(e)), e)
  {
    assert e in Step(log, Append(e));
  }

  // ---- the store ----

  /** Nothing is lost by not writing back an index that kept everything. */
  lemma KeptIsStep(log: seq<Entry>, op: Op)
    requires Deletes(op)
    ensures Step(log, op) == Filter(log, (e: Entry) => !Expired(e, op))
    ensures Removed(log, op) == |log| - |Step(log, op)|
    ensures Removed(log, op) == 0 ==> Step(log, op) == log
  {
    FilterExtremes(log, (e: Entry) => !Expired(e, op));
  }

  lemma PendingOrOptimistic(log: seq<Entry>, ns: string)
    ensures Filter(log, (e: Entry) => Waiting(e, ns)) ==
      Filter(log, (e: Entry) => e.namespace == ns && (e.status == Pending || e.status == Optimistic))
  {
    FilterCongruence(log, (e: Entry) => Waiting(e, ns),
                     (e: Entry) => e.namespace == ns && (e.status == Pending || e.status == Optimistic));
  }

  class OplogStore {
    var oplog: seq<Entry>

    constructor ()
      ensures oplog == []
    {
      oplog := [];
    }

    method AppendEntry(e: Entry)
      modifies this
      ensures oplog == Step(old(oplog), Append(e))
    {
      oplog := oplog + [e];
    }

    method ReadPending(ns: string, limit: nat) returns (pending: seq<Entry>)
      ensures pending == Take(Filter(oplog, (e: Entry) => Waiting(e, ns)), limit)
      ensures pending == Take(Filter(oplog, (e: Entry) =>
        e.namespace == ns && (e.status == Pending || e.status == Optimistic)), limit)
    {
      pending := [];
      var p := (e: Entry) => Waiting(e, ns);
      var i := 0;
      while i < |oplog| && |pending| < limit
        invariant i <= |oplog| && |pending| <= limit
        invariant pending == Filter(oplog[..i], p)
      {
        FilterStep(oplog, i, p);
        if Waiting(oplog[i], ns) {
          pending := pending + [oplog[i]];
        }
        i := i + 1;
      }
      assert oplog == oplog[..i] + oplog[i..];
      FilterConcat(oplog[..i], oplog[i..], p);
      PendingOrOptimistic(oplog, ns);
    }

    /** The first entry with the id, scanning from the oldest. */
    method Find(id: string) returns (k: nat)
      ensures k == FirstIndex(oplog, id)
    {
      k := 0;
      while k < |oplog| && oplog[k].id != id
        invariant k <= |oplog|
        invariant forall i | 0 <= i < k :: oplog[i].id != id
      {
        k := k + 1;
      }
    }

    method MarkEntrySynced(id: string, sequence: u64)
      modifies this
      ensures oplog == Step(old(oplog), MarkSynced(id, sequence))
    {
      var k := Find(id);
      if k < |oplog| {
        oplog := oplog[k := oplog[k].(status := Synced, sequence := Some(sequence))];
      }
    }

    method MarkEntryFailed(id: string)
      modifies this
      ensures oplog == Step(old(oplog), MarkFailed(id))
    {
      var k := Find(id);
      if k < |oplog| {
        oplog := oplog[k := oplog[k].(status := Failed)];
      }
    }

    /** The entries a delete keeps. */
    method Kept(op: Op) returns (kept: seq<Entry>)
      ensures kept == Filter(oplog, (e: Entry) => !Expired(e, op))
    {
      hide Expired, Filter;
      kept := [];
      var log := oplog;
      var keep := (e: Entry) => !Expired(e, op);
      FilterNone(keep);
      assert log[..0] == [];
      for i := 0 to |log|
        invariant kept == Filter(log[..i], keep)
      {
        FilterStep(log, i, keep);
        if !Expired(log[i], op) {
          kept := kept + [log[i]];
        }
      }
      assert log[..|log|] == log;
    }

    /** `retain`, writing the index back only when something went. */
    method Retain(op: Op) returns (removed: nat)
      requires Deletes(op)
      modifies this
      ensures oplog == Step(old(oplog), op)
      ensures removed == Removed(old(oplog), op)
    {
      var kept := Kept(op);
      KeptIsStep(oplog, op);
      removed := |oplog| - |kept|;
      if removed > 0 {
        oplog := kept;
      }
    }

    method DeleteSyncedOlderThan(ns: string, seconds: u64, now: u64) returns (removed: nat)
      modifies this
      ensures oplog == Step(old(oplog), DeleteOlderThan(ns, seconds, now))
      ensures oplog == Filter(old(oplog), (e: Entry) =>
        !(e.status == Synced && e.namespace == ns && e.createdAt + seconds * 1000 % TWO_64 < now))
      ensures removed == Removed(old(oplog), DeleteOlderThan(ns, seconds, now))
    {
      OlderThanRemoves(oplog, ns, seconds, now);
      removed := Retain(DeleteOlderThan(ns, seconds, now));
    }

    method DeleteSyncedBefore(ns: string, cutoff: u64) returns (removed: nat)
      modifies this
      ensures oplog == Step(old(oplog), DeleteBefore(ns, cutoff))
      ensures oplog == Filter(old(oplog), (e: Entry) =>
        !(e.status == Synced && e.namespace == ns && e.createdAt < cutoff))
      ensures removed == Removed(old(oplog), DeleteBefore(ns, cutoff))
    {
      BeforeRemoves(oplog, ns, cutoff);
      removed := Retain(DeleteBefore(ns, cutoff));
    }

    method DeleteSyncedRecordBefore(ns: string, doc: string, rec: string, cutoff: u64) returns (removed: nat)
      modifies this
      ensures oplog == Step(old(oplog), DeleteRecordBefore(ns, doc, rec, cutoff))
      ensures oplog == Filter(old(oplog), (e: Entry) =>
        !(e.status == Synced && e.namespace == ns && e.docId == doc && e.recordId == rec && e.createdAt < cutoff))
      ensures removed == Removed(old(oplog), DeleteRecordBefore(ns, doc, rec, cutoff))
    {
      RecordBeforeRemoves(oplog, ns, doc, rec, cutoff);
      removed := Retain(DeleteRecordBefore(ns, doc, rec, cutoff));
    }
  }
}
