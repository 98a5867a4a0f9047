/** What the store holds and what a read returns, by the operations alone. */
module DocumentHistory {
  import opened Documents
  import opened Prelude
  import opened SegmentedLru

  predicate At(op: DocOp, doc: string, rec: string) {
    !op.Reset? && op.doc == doc && op.rec == rec
  }

  /** A record is there from its first write until it is deleted. */
  predicate Alive(ops: seq<DocOp>, doc: string, rec: string) {
    ops != [] &&
    var op := ops[|ops| - 1];
    if op.Reset? || (At(op, doc, rec) && op.DeleteRecord?) then false
    else if At(op, doc, rec) && (op.SetField? || op.SetRecord?) then true
    else Alive(ops[..|ops| - 1], doc, rec)
  }

  /** The value last given to the field, unless the field, its record or everything went since. */
  function LastValue(ops: seq<DocOp>, doc: string, rec: string, field: string): (v: Option<string>) {
    if ops == [] then None
    else
      var op, before := ops[|ops| - 1], LastValue(ops[..|ops| - 1], doc, rec, field);
      if op.Reset? then None
      else if !At(op, doc, rec) then before
      else
        match op
        case SetField(_, _, f, value) => if f == field then Some(value) else before
        case SetRecord(_, _, fields) => if field in fields then Some(fields[field]) else None
        case DeleteField(_, _, f) => if f == field then None else before
        case DeleteRecord(_, _) => None
        case _ => before
  }

  /** The record has exactly the fields that the history leaves it with. */
  ghost predicate TellsHistory(record: Option<Fields>, ops: seq<DocOp>, doc: string, rec: string) {
    && (record.Some? <==> Alive(ops, doc, rec))
    && (record.Some? ==> forall f ::
          LastValue(ops, doc, rec, f) == if f in record.value then Some(record.value[f]) else None)
  }

  lemma {:induction false} DeadHasNoValue(ops: seq<DocOp>, doc: string, rec: string, field: string)
    ensures !Alive(ops, doc, rec) ==> LastValue(ops, doc, rec, field) == None
  {
    if ops != [] {
      DeadHasNoValue(ops[..|ops| - 1], doc, rec, field);
    }
  }

  /** What an operation on a record does to it. */
  function RecordAfter(before: Option<Fields>, op: DocOp): (after: Option<Fields>) {
    match op
    case SetField(_, _, f, v) => Some((if before.Some? then before.value else map[])[f := v])
    case SetRecord(_, _, fields) => Some(fields)
    case DeleteField(_, _, f) => if before.Some? then Some(before.value - {f}) else None
    case DeleteRecord(_, _) => None
    case _ => before
  }

  lemma OwnRecord(rt: Runtime, op: DocOp, doc: string, rec: string)
    requires At(op, doc, rec)
    ensures GetRecord(Perform(rt, op).store, doc, rec) == RecordAfter(GetRecord(rt.store, doc, rec), op)
  {
    hide AfterGet, AfterPut, AfterDel, Key;
  }

  lemma HistoryStep(record: Option<Fields>, ops: seq<DocOp>, op: DocOp, doc: string, rec: string)
    requires TellsHistory(record, ops, doc, rec) && At(op, doc, rec)
    ensures TellsHistory(RecordAfter(record, op), ops + [op], doc, rec)
  {
    assert (ops + [op])[..|ops|] == ops;
    forall f | !Alive(ops, doc, rec) ensures LastValue(ops, doc, rec, f) == None {
      DeadHasNoValue(ops, doc, rec, f);
    }
  }

  lemma OtherHistory(record: Option<Fields>, ops: seq<DocOp>, op: DocOp, doc: string, rec: string)
    requires TellsHistory(record, ops, doc, rec) && !At(op, doc, rec) && !op.Reset?
    ensures TellsHistory(record, ops + [op], doc, rec)
  {
    assert (ops + [op])[..|ops|] == ops;
  }

  lemma StoreStep(rt: Runtime, ops: seq<DocOp>, op: DocOp, doc: string, rec: string)
    requires TellsHistory(GetRecord(rt.store, doc, rec), ops, doc, rec)
    ensures TellsHistory(GetRecord(Perform(rt, op).store, doc, rec), ops + [op], doc, rec)
  {
    hide TellsHistory, GetRecord, Perform;
    if op.Reset? {
      AfterReset(rt, ops, doc, rec);
    } else if At(op, doc, rec) {
      OwnRecord(rt, op, doc, rec);
      HistoryStep(GetRecord(rt.store, doc, rec), ops, op, doc, rec);
    } else {
      StoreChangesAt(rt, op, doc, rec);
      OtherHistory(GetRecord(rt.store, doc, rec), ops, op, doc, rec);
    }
  }

  lemma AfterReset(rt: Runtime, ops: seq<DocOp>, doc: string, rec: string)
    ensures TellsHistory(GetRecord(Perform(rt, Reset).store, doc, rec), ops + [Reset], doc, rec)
  {
  }

  /** After any run the store holds, of every record, what the history says. */
  lemma {:induction false} StoreIsHistory(rt0: Runtime, ops: seq<DocOp>, doc: string, rec: string)
    requires rt0.store == map[]
    ensures TellsHistory(GetRecord(PerformAll(rt0, ops).store, doc, rec), ops, doc, rec)
  {
    if ops != [] {
      var front, op := ops[..|ops| - 1], ops[|ops| - 1];
      StoreIsHistory(rt0, front, doc, rec);
      assert ops == front + [op];
      hide Perform, TellsHistory, Alive, LastValue;
      StoreStep(PerformAll(rt0, front), front, op, doc, rec);
    }
  }

  /** How many operations there were when the cached copy was last made good or dropped. */
  function LastRenewal(ops: seq<DocOp>, doc: string, rec: string): (n: nat)
    ensures n <= |ops|
  {
    if ops == [] then 0
    else if Renews(ops[|ops| - 1], doc, rec) then |ops|
    else LastRenewal(ops[..|ops| - 1], doc, rec)
  }

  lemma CopyStays(rt: Runtime, op: DocOp, doc: string, rec: string)
    requires SegmentedLru.Inv(rt.cache) && Permitted(rt, op) && ColonFree(doc) && !Renews(op, doc, rec)
    ensures OnlyForgets(rt.cache, Perform(rt, op).cache, Key(doc, rec))
  {
    hide Perform, Key, Find;
    if op.doc != doc || op.rec != rec {
      KeysDiffer(doc, rec, op.doc, op.rec);
      CacheChangesAt(rt, op, Key(doc, rec));
    } else {
      OwnCopyStays(rt, op, doc, rec);
    }
  }

  lemma OwnCopyStays(rt: Runtime, op: DocOp, doc: string, rec: string)
    requires SegmentedLru.Inv(rt.cache) && (op.Read? || op.DeleteField?) && op.doc == doc && op.rec == rec
    ensures OnlyForgets(rt.cache, Perform(rt, op).cache, Key(doc, rec))
  {
    hide AfterGet, Key, Find;
    if op.Read? {
      GetForgets(rt.cache, Key(doc, rec), Key(doc, rec));
    }
  }

  /** A cached record is the store's as it was when the copy was last made good. */
  lemma {:induction false} CachedIsRenewed(maxTotal: nat, target: nat, ops: seq<DocOp>, doc: string, rec: string)
    requires PermittedRun(Started(maxTotal, target), ops) && ColonFree(doc)
    ensures var rt0 := Started(maxTotal, target);
      var hit := Find(PerformAll(rt0, ops).cache, Key(doc, rec));
      hit.Some? ==> hit == GetRecord(PerformAll(rt0, ops[..LastRenewal(ops, doc, rec)]).store, doc, rec)
  {
    var rt0 := Started(maxTotal, target);
    if ops == [] {
      return;
    }
    hide Started, Perform, Key, Find, Renews, Stripped;
    var front, op := ops[..|ops| - 1], ops[|ops| - 1];
    RunCopies(maxTotal, target, front, doc, rec);
    if Renews(op, doc, rec) {
      RenewedCopy(PerformAll(rt0, front), op, doc, rec);
      assert ops[..|ops|] == ops;
    } else {
      CachedIsRenewed(maxTotal, target, front, doc, rec);
      CopyStays(PerformAll(rt0, front), op, doc, rec);
      assert front[..LastRenewal(front, doc, rec)] == ops[..LastRenewal(ops, doc, rec)];
    }
  }

  /** The part of the history a read answers from. */
  function Answered(maxTotal: nat, target: nat, ops: seq<DocOp>, doc: string, rec: string): (past: seq<DocOp>) {
    if Find(PerformAll(Started(maxTotal, target), ops).cache, Key(doc, rec)).Some?
    then ops[..LastRenewal(ops, doc, rec)]
    else ops
  }

  /**
   What `get` returns after any run: the record as the history leaves it or, while it is cached, as
   the history left it when the copy was last made good, which `delete_field` does not do.
   */
  lemma ReadIsHistory(maxTotal: nat, target: nat, ops: seq<DocOp>, doc: string, rec: string)
    requires PermittedRun(Started(maxTotal, target), ops) && ColonFree(doc)
    ensures var rt := PerformAll(Started(maxTotal, target), ops);
      TellsHistory(ReadResult(rt, doc, rec), Answered(maxTotal, target, ops, doc, rec), doc, rec)
  {
    hide Find, Key, PerformAll, TellsHistory, LastRenewal;
    CachedIsRenewed(maxTotal, target, ops, doc, rec);
    StoreIsHistory(Started(maxTotal, target), Answered(maxTotal, target, ops, doc, rec), doc, rec);
  }

  /** After any run, what is put into the cache is what is read, and what is evicted is read from the store. */
  lemma CachedIsRead(maxTotal: nat, target: nat, ops: seq<DocOp>, doc: string, rec: string, fields: Fields)
    requires PermittedRun(Started(maxTotal, target), ops) && ColonFree(doc)
    ensures var rt := PerformAll(Started(maxTotal, target), ops);
      && ReadResult(Perform(rt, CacheRecord(doc, rec, fields)), doc, rec) == Some(fields)
      && ReadResult(Perform(rt, Forget(doc, rec)), doc, rec) == GetRecord(rt.store, doc, rec)
  {
    hide PerformAll, PermittedRun, Stripped, AfterPut, AfterDel, Find, Key, SegmentedLru.Inv;
    var rt := PerformAll(Started(maxTotal, target), ops);
    RunCopies(maxTotal, target, ops, doc, rec);
    CachedHere(rt, Key(doc, rec), fields);
  }

  lemma CachedHere(rt: Runtime, key: string, fields: Fields)
    requires SegmentedLru.Inv(rt.cache)
    ensures Find(AfterPut(rt.cache, key, fields), key) == Some(fields) && Find(AfterDel(rt.cache, key), key) == None
  {
    hide AfterPut, AfterDel, Find;
    PutForgets(rt.cache, key, fields, key);
    DelForgets(rt.cache, key, key);
  }
}
