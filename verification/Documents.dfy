/**
 The document runtime: an in-memory store of records behind a segmented cache whose keys are
 "doc:record". What a read returns is the store's record, through promotion and eviction.
 */
module Documents {
  import opened Lru
  import opened Prelude
  import opened SegmentedLru

  /** Field values are only copied, so their structure does not matter here. */
  type Fields = map<string, string>

  type DocumentStore = map<string, map<string, Fields>>

  datatype Runtime = Runtime(store: DocumentStore, cache: Segmented<string, Fields>)

  // ---- the store ----

  function GetRecord(store: DocumentStore, doc: string, rec: string): (r: Option<Fields>) {
    if doc in store && rec in store[doc] then Some(store[doc][rec]) else None
  }

  predicate HasField(store: DocumentStore, doc: string, rec: string, field: string) {
    GetRecord(store, doc, rec).Some? && field in GetRecord(store, doc, rec).value
  }

  function Records(store: DocumentStore, doc: string): map<string, Fields> {
    if doc in store then store[doc] else map[]
  }

  function PutRecord(store: DocumentStore, doc: string, rec: string, fields: Fields): (r: DocumentStore) {
    store[doc := Records(store, doc)[rec := fields]]
  }

  function PutField(store: DocumentStore, doc: string, rec: string, field: string, value: string): (r: DocumentStore) {
    var before := match GetRecord(store, doc, rec) case Some(f) => f case None => map[];
    PutRecord(store, doc, rec, before[field := value])
  }

  function DropField(store: DocumentStore, doc: string, rec: string, field: string): (r: DocumentStore) {
    if doc in store && rec in store[doc] then store[doc := store[doc][rec := store[doc][rec] - {field}]] else store
  }

  function DropRecord(store: DocumentStore, doc: string, rec: string): (r: DocumentStore) {
    if doc in store then store[doc := store[doc] - {rec}] else store
  }

  // ---- cache keys ----

  function Key(doc: string, rec: string): (k: string) {
    doc + ":" + rec
  }

  predicate ColonFree(s: string) {
    ':' !in s
  }

  function DocOf(key: string): (doc: string)
    ensures ColonFree(doc) && doc <= key
  {
    if key == "" || key[0] == ':' then "" else [key[0]] + DocOf(key[1..])
  }

  lemma {:induction false} KeySplits(doc: string, rec: string)
    requires ColonFree(doc)
    ensures DocOf(Key(doc, rec)) == doc
    decreases |doc|
  {
    if doc != "" {
      KeySplits(doc[1..], rec);
      assert Key(doc, rec)[1..] == Key(doc[1..], rec);
    }
  }

  /** Two records share a cache key exactly when a colon can be read as part of either id. */
  lemma KeysCollideIff(d1: string, r1: string, d2: string, r2: string)
    requires d1 != d2 || r1 != r2
    ensures Key(d1, r1) == Key(d2, r2)
       <==> exists s :: (d1 == Key(d2, s) && r2 == Key(s, r1)) || (d2 == Key(d1, s) && r1 == Key(s, r2))
  {
    if Key(d1, r1) == Key(d2, r2) {
      if |d1| <= |d2| {
        LongerDoc(d1, r1, d2, r2);
      } else {
        LongerDoc(d2, r2, d1, r1);
      }
    }
    if s :| (d1 == Key(d2, s) && r2 == Key(s, r1)) || (d2 == Key(d1, s) && r1 == Key(s, r2)) {
      if d1 == Key(d2, s) && r2 == Key(s, r1) {
        assert Key(Key(d2, s), r1) == Key(d2, Key(s, r1));
      } else {
        assert Key(Key(d1, s), r2) == Key(d1, Key(s, r2));
      }
    }
  }

  lemma LongerDoc(d1: string, r1: string, d2: string, r2: string)
    requires Key(d1, r1) == Key(d2, r2) && |d1| <= |d2| && (d1 != d2 || r1 != r2)
    ensures exists s :: d2 == Key(d1, s) && r1 == Key(s, r2)
  {
    var k, n := Key(d1, r1), |d1|;
    assert k[..n] == d1 && k[n + 1..] == r1;
    assert k[..|d2|] == d2 && k[|d2| + 1..] == r2;
    assert d2[..n] == d1;
    assert n < |d2|;
    assert d2[n] == k[n] == ':';
    var s := d2[n + 1..];
    assert d2 == Key(d1, s);
    assert r1 == k[n + 1..] == Key(s, r2);
  }

  // ---- operations ----

  datatype DocOp =
    | Read(doc: string, rec: string)
    | SetField(doc: string, rec: string, field: string, value: string)
    | SetRecord(doc: string, rec: string, fields: Fields)
    | DeleteField(doc: string, rec: string, field: string)
    | DeleteRecord(doc: string, rec: string)
    | CacheRecord(doc: string, rec: string, fields: Fields)
    | Forget(doc: string, rec: string)
    | Reset

  /** What `get` returns: the cached record, or else the store's. */
  function ReadResult(rt: Runtime, doc: string, rec: string): (r: Option<Fields>) {
    var hit := Find(rt.cache, Key(doc, rec));
    if hit.Some? then hit else GetRecord(rt.store, doc, rec)
  }

  function Perform(rt: Runtime, op: DocOp): (r: Runtime) {
    match op
    case Read(doc, rec) => rt.(cache := AfterGet(rt.cache, Key(doc, rec)))
    case SetField(doc, rec, field, value) =>
      var store := PutField(rt.store, doc, rec, field, value);
      Runtime(store, AfterPut(rt.cache, Key(doc, rec), store[doc][rec]))
    case SetRecord(doc, rec, fields) =>
      Runtime(PutRecord(rt.store, doc, rec, fields), AfterPut(rt.cache, Key(doc, rec), fields))
    case DeleteField(doc, rec, field) => rt.(store := DropField(rt.store, doc, rec, field))
    case DeleteRecord(doc, rec) =>
      Runtime(DropRecord(rt.store, doc, rec), AfterDel(rt.cache, Key(doc, rec)))
    case CacheRecord(doc, rec, fields) => rt.(cache := AfterPut(rt.cache, Key(doc, rec), fields))
    case Forget(doc, rec) => rt.(cache := AfterDel(rt.cache, Key(doc, rec)))
    case Reset => Runtime(map[], ApplyOp(rt.cache, Clear))
  }

  function PerformAll(rt: Runtime, ops: seq<DocOp>): (r: Runtime) {
    if ops == [] then rt else Perform(PerformAll(rt, ops[..|ops| - 1]), ops[|ops| - 1])
  }

  function Started(maxTotal: nat, target: nat): (rt: Runtime) {
    Runtime(map[], New(maxTotal, target))
  }

  // ---- what a read returns ----

  /** Document ids without a colon, and only the store's own records put into the cache. */
  predicate Permitted(rt: Runtime, op: DocOp) {
    && (op.Reset? || ColonFree(op.doc))
    && (op.CacheRecord? ==> GetRecord(rt.store, op.doc, op.rec) == Some(op.fields))
  }

  predicate PermittedRun(rt: Runtime, ops: seq<DocOp>) {
    ops == [] ||
    var front := ops[..|ops| - 1];
    PermittedRun(rt, front) && Permitted(PerformAll(rt, front), ops[|ops| - 1])
  }

  /** The operations after which no older copy of the record is cached. */
  predicate Renews(op: DocOp, doc: string, rec: string) {
    op.Reset? || (op.doc == doc && op.rec == rec && !op.Read? && !op.DeleteField?)
  }

  /** The operation takes a field from the stored record. */
  predicate Strips(store: DocumentStore, op: DocOp, doc: string, rec: string) {
    op.DeleteField? && op.doc == doc && op.rec == rec && HasField(store, doc, rec, op.field)
  }

  /** The stored record lost a field since it was last written, cached, removed or evicted. */
  predicate Stripped(rt: Runtime, ops: seq<DocOp>, doc: string, rec: string) {
    ops != [] &&
    var front, op := ops[..|ops| - 1], ops[|ops| - 1];
    !Renews(op, doc, rec) && (Stripped(rt, front, doc, rec) || Strips(PerformAll(rt, front).store, op, doc, rec))
  }

  predicate Extends(longer: Fields, shorter: Fields) {
    forall x | x in shorter :: x in longer && longer[x] == shorter[x]
  }

  /** A cached copy has all the stored fields, and more exactly when the record was stripped. */
  predicate CopyOf(hit: Option<Fields>, stored: Option<Fields>, stripped: bool) {
    hit.Some? ==> stored.Some? && Extends(hit.value, stored.value) && (hit != stored <==> stripped)
  }

  ghost predicate Copies(rt: Runtime, doc: string, rec: string, stripped: bool) {
    SegmentedLru.Inv(rt.cache) && CopyOf(Find(rt.cache, Key(doc, rec)), GetRecord(rt.store, doc, rec), stripped)
  }

  lemma KeysDiffer(doc: string, rec: string, d: string, r: string)
    requires ColonFree(doc) && ColonFree(d) && (d != doc || r != rec)
    ensures Key(d, r) != Key(doc, rec)
  {
    KeySplits(doc, rec);
    KeySplits(d, r);
    assert Key(doc, rec)[|doc| + 1..] == rec && Key(d, r)[|d| + 1..] == r;
  }

  /** `later` holds no more of `key` than `earlier`. */
  predicate OnlyForgets(earlier: Segmented<string, Fields>, later: Segmented<string, Fields>, key: string) {
    Find(later, key).Some? ==> Find(later, key) == Find(earlier, key)
  }

  lemma StoreChangesAt(rt: Runtime, op: DocOp, doc: string, rec: string)
    requires op.Reset? || op.doc != doc || op.rec != rec
    ensures !op.Reset? ==> GetRecord(Perform(rt, op).store, doc, rec) == GetRecord(rt.store, doc, rec)
  {
    hide AfterGet, AfterPut, AfterDel;
  }

  lemma CacheChangesAt(rt: Runtime, op: DocOp, key: string)
    requires SegmentedLru.Inv(rt.cache) && (op.Reset? || Key(op.doc, op.rec) != key)
    ensures SegmentedLru.Inv(Perform(rt, op).cache) && OnlyForgets(rt.cache, Perform(rt, op).cache, key)
  {
    hide AfterGet, AfterPut, AfterDel, Key, Find;
    match op
    case Read(doc, rec) =>
      GetKeepsInv(rt.cache, Key(doc, rec));
      GetForgets(rt.cache, Key(doc, rec), key);
    case SetField(doc, rec, field, value) =>
      var fields := PutField(rt.store, doc, rec, field, value)[doc][rec];
      PutKeepsInv(rt.cache, Key(doc, rec), fields);
      PutForgets(rt.cache, Key(doc, rec), fields, key);
    case SetRecord(doc, rec, fields) =>
      PutKeepsInv(rt.cache, Key(doc, rec), fields);
      PutForgets(rt.cache, Key(doc, rec), fields, key);
    case CacheRecord(doc, rec, fields) =>
      PutKeepsInv(rt.cache, Key(doc, rec), fields);
      PutForgets(rt.cache, Key(doc, rec), fields, key);
    case DeleteRecord(doc, rec) =>
      DelKeepsInv(rt.cache, Key(doc, rec));
      DelForgets(rt.cache, Key(doc, rec), key);
    case Forget(doc, rec) =>
      DelKeepsInv(rt.cache, Key(doc, rec));
      DelForgets(rt.cache, Key(doc, rec), key);
    case DeleteField(_, _, _) =>
    case Reset => ClearedCache(rt.cache, key);
  }

  lemma ClearedCache(c: Segmented<string, Fields>, key: string)
    requires SegmentedLru.Inv(c)
    ensures SegmentedLru.Inv(ApplyOp(c, Clear)) && Find(ApplyOp(c, Clear), key) == None
  {
  }

  /** After a write or a caching the copy is the stored record; after a removal or an eviction there is none. */
  lemma RenewedCopy(rt: Runtime, op: DocOp, doc: string, rec: string)
    requires SegmentedLru.Inv(rt.cache) && Permitted(rt, op) && Renews(op, doc, rec)
    ensures Copies(Perform(rt, op), doc, rec, false)
  {
    hide AfterGet, AfterPut, AfterDel, Key, Find;
    var key := Key(doc, rec);
    match op
    case SetField(_, _, field, value) =>
      var fields := PutField(rt.store, doc, rec, field, value)[doc][rec];
      PutKeepsInv(rt.cache, key, fields);
      PutForgets(rt.cache, key, fields, key);
    case SetRecord(_, _, fields) =>
      PutKeepsInv(rt.cache, key, fields);
      PutForgets(rt.cache, key, fields, key);
    case CacheRecord(_, _, fields) =>
      PutKeepsInv(rt.cache, key, fields);
      PutForgets(rt.cache, key, fields, key);
    case DeleteRecord(_, _) =>
      DelKeepsInv(rt.cache, key);
      DelForgets(rt.cache, key, key);
    case Forget(_, _) =>
      DelKeepsInv(rt.cache, key);
      DelForgets(rt.cache, key, key);
    case Reset => ClearedCache(rt.cache, key);
  }

  lemma FieldRemoved(hit: Option<Fields>, stored: Fields, field: string, stripped: bool)
    requires CopyOf(hit, Some(stored), stripped)
    ensures CopyOf(hit, Some(stored - {field}), stripped || field in stored)
  {
    assert field in stored ==> field !in stored - {field};
    assert field !in stored ==> stored - {field} == stored;
  }

  lemma PerformCopies(rt: Runtime, op: DocOp, doc: string, rec: string, stripped: bool)
    requires ColonFree(doc) && Permitted(rt, op) && Copies(rt, doc, rec, stripped)
    ensures Copies(Perform(rt, op), doc, rec, !Renews(op, doc, rec) && (stripped || Strips(rt.store, op, doc, rec)))
  {
    hide Perform, Key, Find, SegmentedLru.Inv, CopyOf;
    if Renews(op, doc, rec) {
      RenewedCopy(rt, op, doc, rec);
    } else if op.doc != doc || op.rec != rec {
      KeysDiffer(doc, rec, op.doc, op.rec);
      CacheChangesAt(rt, op, Key(doc, rec));
      StoreChangesAt(rt, op, doc, rec);
      ForgottenCopy(Find(rt.cache, Key(doc, rec)), Find(Perform(rt, op).cache, Key(doc, rec)),
                    GetRecord(rt.store, doc, rec), stripped);
    } else {
      OwnCopy(rt, op, doc, rec, stripped);
    }
  }

  lemma ForgottenCopy(hit: Option<Fields>, later: Option<Fields>, stored: Option<Fields>, stripped: bool)
    requires CopyOf(hit, stored, stripped) && (later.Some? ==> later == hit)
    ensures CopyOf(later, stored, stripped)
  {
  }

  lemma OwnCopy(rt: Runtime, op: DocOp, doc: string, rec: string, stripped: bool)
    requires Copies(rt, doc, rec, stripped) && (op.Read? || op.DeleteField?) && op.doc == doc && op.rec == rec
    ensures Copies(Perform(rt, op), doc, rec, stripped || Strips(rt.store, op, doc, rec))
  {
    hide AfterGet, Key, Find;
    var key := Key(doc, rec);
    if op.Read? {
      GetKeepsInv(rt.cache, key);
      GetForgets(rt.cache, key, key);
    } else if GetRecord(rt.store, doc, rec).Some? {
      FieldRemoved(Find(rt.cache, key), rt.store[doc][rec], op.field, stripped);
    }
  }

  lemma {:induction false} RunCopies(maxTotal: nat, target: nat, ops: seq<DocOp>, doc: string, rec: string)
    requires PermittedRun(Started(maxTotal, target), ops) && ColonFree(doc)
    ensures var rt0 := Started(maxTotal, target);
      Copies(PerformAll(rt0, ops), doc, rec, Stripped(rt0, ops, doc, rec))
  {
    var rt0 := Started(maxTotal, target);
    if ops == [] {
      return;
    }
    hide Perform, Copies, Started, Renews, Strips;
    RunCopies(maxTotal, target, ops[..|ops| - 1], doc, rec);
    PerformCopies(PerformAll(rt0, ops[..|ops| - 1]), ops[|ops| - 1], doc, rec,
                  Stripped(rt0, ops[..|ops| - 1], doc, rec));
  }

  /**
   After any run, fields removed or not, a read returns the store's record exactly when none is
   cached or no field was taken from it since the cached copy was made.
   */
  lemma ReadIsRightIff(maxTotal: nat, target: nat, ops: seq<DocOp>, doc: string, rec: string)
    requires PermittedRun(Started(maxTotal, target), ops) && ColonFree(doc)
    ensures var rt := PerformAll(Started(maxTotal, target), ops);
      ReadResult(rt, doc, rec) == GetRecord(rt.store, doc, rec)
      <==> Find(rt.cache, Key(doc, rec)).None? || !Stripped(Started(maxTotal, target), ops, doc, rec)
  {
    hide Find, Key, PerformAll, Stripped;
    RunCopies(maxTotal, target, ops, doc, rec);
  }

  /** Without `delete_field` a read returns the store's record, through promotion and eviction. */
  lemma ReadsReturnTheStore(maxTotal: nat, target: nat, ops: seq<DocOp>, doc: string, rec: string)
    requires PermittedRun(Started(maxTotal, target), ops) && ColonFree(doc)
    requires forall i | 0 <= i < |ops| :: !ops[i].DeleteField?
    ensures var rt := PerformAll(Started(maxTotal, target), ops);
      ReadResult(rt, doc, rec) == GetRecord(rt.store, doc, rec)
  {
    hide Find, Key, PerformAll, Stripped;
    ReadIsRightIff(maxTotal, target, ops, doc, rec);
    NothingStripped(Started(maxTotal, target), ops, doc, rec);
  }

  lemma {:induction false} NothingStripped(rt: Runtime, ops: seq<DocOp>, doc: string, rec: string)
    requires forall i | 0 <= i < |ops| :: !ops[i].DeleteField?
    ensures !Stripped(rt, ops, doc, rec)
  {
    if ops != [] {
      NothingStripped(rt, ops[..|ops| - 1], doc, rec);
    }
  }

  /** A record written and then stripped of a field is read with the field, also after removing it again. */
  lemma DeletedFieldIsRead(doc: string, rec: string, fields: Fields, field: string)
    requires field in fields
    ensures var remove := DeleteField(doc, rec, field);
      var rt := PerformAll(Started(5000, 1000), [SetRecord(doc, rec, fields), remove]);
      var again := PerformAll(Started(5000, 1000), [SetRecord(doc, rec, fields), remove, remove]);
      && GetRecord(rt.store, doc, rec) == Some(fields - {field}) && ReadResult(rt, doc, rec) == Some(fields)
      && GetRecord(again.store, doc, rec) == Some(fields - {field}) && ReadResult(again, doc, rec) == Some(fields)
  {
    hide AfterPut, Find;
    var remove := DeleteField(doc, rec, field);
    var ops := [SetRecord(doc, rec, fields), remove, remove];
    var rt0 := Started(5000, 1000);
    var rt1 := Perform(rt0, ops[0]);
    PutForgets(rt0.cache, Key(doc, rec), fields, Key(doc, rec));
    assert ops[..2] == [SetRecord(doc, rec, fields), remove] && ops[..2][..1] == ops[..1] && ops[..1][..0] == [];
    assert PerformAll(rt0, ops[..1]) == rt1;
    assert PerformAll(rt0, ops[..2]) == Perform(rt1, remove);
    assert fields - {field} - {field} == fields - {field};
  }

  /** With a colon in a document id one record can be read as another. */
  lemma ColonMixesRecords(x: Fields, y: Fields)
    requires x != y
    ensures var rt := PerformAll(Started(5000, 1000), [SetRecord("a", "b:c", x), SetRecord("a:b", "c", y)]);
      GetRecord(rt.store, "a", "b:c") == Some(x) && ReadResult(rt, "a", "b:c") == Some(y)
  {
    hide AfterPut, Find;
    var ops := [SetRecord("a", "b:c", x), SetRecord("a:b", "c", y)];
    var rt0 := Started(5000, 1000);
    var key := Key("a", "b:c");
    assert key == Key("a:b", "c");
    var rt1 := Perform(rt0, ops[0]);
    PutForgets(rt0.cache, key, x, key);
    PutKeepsInv(rt0.cache, key, x);
    PutForgets(rt1.cache, key, y, key);
    assert PerformAll(rt0, ops[..1]) == rt1;
  }

  // ---- the runtime object ----

  const CACHE_CAPACITY: nat := 5000

  /** The capacity times the hot fraction 0.2. */
  const CACHE_PROBATION: nat := 1000

  class DocumentRuntime {
    var store: DocumentStore
    const cache: SegmentedLruCache<string, Fields>

    ghost function Value(): (rt: Runtime)
      reads this, cache.probation, cache.protected
    {
      Runtime(store, cache.Value())
    }

    constructor ()
      ensures cache.Sound() && fresh(cache.probation) && fresh(cache.protected)
      ensures Value() == Started(CACHE_CAPACITY, CACHE_PROBATION)
    {
      store := map[];
      cache := new SegmentedLruCache<string, Fields>(CACHE_CAPACITY, CACHE_PROBATION);
    }

    method GetDocument(doc: string, rec: string) returns (r: Option<Fields>)
      requires cache.Sound()
      modifies cache.probation, cache.protected
      ensures cache.Sound()
      ensures Value() == Perform(old(Value()), Read(doc, rec)) && r == ReadResult(old(Value()), doc, rec)
    {
      r := cache.Get(Key(doc, rec));
      if r.None? {
        r := GetRecord(store, doc, rec);
      }
    }

    method WriteField(doc: string, rec: string, field: string, value: string)
      requires cache.Sound()
      modifies this, cache.probation, cache.protected
      ensures cache.Sound()
      ensures Value() == Perform(old(Value()), SetField(doc, rec, field, value))
    {
      store := PutField(store, doc, rec, field, value);
      var record := GetRecord(store, doc, rec);
      if record.Some? {
        cache.Put(Key(doc, rec), record.value);
      }
    }

    method WriteRecord(doc: string, rec: string, fields: Fields)
      requires cache.Sound()
      modifies this, cache.probation, cache.protected
      ensures cache.Sound()
      ensures Value() == Perform(old(Value()), SetRecord(doc, rec, fields))
    {
      hide AfterPut, Key, PutRecord;
      store := PutRecord(store, doc, rec, fields);
      cache.Put(Key(doc, rec), fields);
    }

    method RemoveField(doc: string, rec: string, field: string)
      modifies this
      ensures Value() == Perform(old(Value()), DeleteField(doc, rec, field))
    {
      store := DropField(store, doc, rec, field);
    }

    method RemoveRecord(doc: string, rec: string)
      requires cache.Sound()
      modifies this, cache.probation, cache.protected
      ensures cache.Sound()
      ensures Value() == Perform(old(Value()), DeleteRecord(doc, rec))
    {
      hide AfterDel, Key, DropRecord;
      store := DropRecord(store, doc, rec);
      var _ := cache.Delete(Key(doc, rec));
    }

    method CacheFields(doc: string, rec: string, fields: Fields)
      requires cache.Sound()
      modifies cache.probation, cache.protected
      ensures cache.Sound()
      ensures Value() == Perform(old(Value()), CacheRecord(doc, rec, fields))
    {
      hide AfterPut, Key;
      ghost var before := Value();
      cache.Put(Key(doc, rec), fields);
      assert Value() == before.(cache := AfterPut(before.cache, Key(doc, rec), fields));
    }

    method EvictRecord(doc: string, rec: string)
      requires cache.Sound()
      modifies cache.probation, cache.protected
      ensures cache.Sound()
      ensures Value() == Perform(old(Value()), Forget(doc, rec))
    {
      var _ := cache.Delete(Key(doc, rec));
    }

    method ClearAll()
      requires cache.Sound()
      modifies this, cache.probation, cache.protected
      ensures cache.Sound()
      ensures Value() == Perform(old(Value()), Reset)
    {
      store := map[];
      cache.ClearAll();
    }
  }
}
