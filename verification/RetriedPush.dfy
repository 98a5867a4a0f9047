/**
 Retries. A push may repeat mutations inside a batch, between batches, or because the
 client fell back from its WebSocket to HTTP without knowing whether the first attempt
 was processed. Deduplication by id makes the log, and every acknowledgement, the same as
 if each mutation had been pushed once.
 */
module RetriedPush {
  import opened Sequences
  import opened MutationLog

  predicate HasItem(items: seq<Item>, id: string) {
    exists x | x in items :: x.mutation.id == id
  }

  lemma HasItemSnoc(items: seq<Item>, x: Item, id: string)
    ensures HasItem(items + [x], id) <==> HasItem(items, id) || x.mutation.id == id
  {
    assert forall y | y in items + [x] :: y in items || y == x;
    assert x in items + [x];
    assert forall y | y in items :: y in items + [x];
  }

  /** The items whose id is neither stored in `rows` nor seen earlier in the list. */
  function NewItems(rows: seq<Row>, items: seq<Item>): (r: seq<Item>)
    ensures |r| <= |items|
  {
    if items == [] then []
    else
      var front, last := items[..|items| - 1], items[|items| - 1];
      var r := NewItems(rows, front);
      if HasId(rows, last.mutation.id) || HasItem(r, last.mutation.id) then r else r + [last]
  }

  predicate Repeats(rows: seq<Row>, items: seq<Item>, i: nat)
    requires i < |items|
  {
    HasId(rows, items[i].mutation.id) || HasItem(items[..i], items[i].mutation.id)
  }

  /** The log without its numbering. */
  function Contents(rows: seq<Row>): (r: seq<Item>)
    ensures |r| == |rows|
  {
    if rows == [] then []
    else
      var last := rows[|rows| - 1];
      Contents(rows[..|rows| - 1]) + [Item(last.namespace, last.mutation)]
  }

  lemma ContentsSnoc(rows: seq<Row>, r: Row)
    ensures Contents(rows + [r]) == Contents(rows) + [Item(r.namespace, r.mutation)]
  {
    assert (rows + [r])[..|rows|] == rows;
  }

  lemma InsertContents(st: Store, item: Item)
    requires UniqueIds(st.rows)
    ensures UniqueIds(Insert(st, item).rows)
    ensures Contents(Insert(st, item).rows)
         == if HasId(st.rows, item.mutation.id) then Contents(st.rows) else Contents(st.rows) + [item]
  {
    if !HasId(st.rows, item.mutation.id) {
      var row := Row(st.last + 1, item.namespace, item.mutation);
      UniqueSnoc(st.rows, row);
      ContentsSnoc(st.rows, row);
    }
  }

  lemma NewItemsSnoc(rows: seq<Row>, items: seq<Item>, x: Item)
    ensures NewItems(rows, items + [x])
         == if HasId(rows, x.mutation.id) || HasItem(NewItems(rows, items), x.mutation.id) then NewItems(rows, items)
            else NewItems(rows, items) + [x]
  {
    SnocPrefix(items, x);
  }

  lemma {:induction false} NewItemsIds(rows: seq<Row>, items: seq<Item>, id: string)
    requires !HasId(rows, id)
    ensures HasItem(NewItems(rows, items), id) <==> HasItem(items, id)
  {
    if items != [] {
      var front, last := items[..|items| - 1], items[|items| - 1];
      NewItemsIds(rows, front, id);
      assert items == front + [last];
      HasItemSnoc(front, last, id);
      HasItemSnoc(NewItems(rows, front), last, id);
    }
  }

  lemma {:induction false} NewItemsIdempotent(rows: seq<Row>, items: seq<Item>)
    ensures NewItems(rows, NewItems(rows, items)) == NewItems(rows, items)
  {
    if items != [] {
      var front, last := items[..|items| - 1], items[|items| - 1];
      NewItemsIdempotent(rows, front);
      NewItemsSnoc(rows, NewItems(rows, front), last);
    }
  }

  /** The log after any pushes is what was there and then the first occurrences of what is new. */
  lemma {:induction false} LogIsFirstOccurrences(st: Store, items: seq<Item>)
    requires UniqueIds(st.rows)
    ensures UniqueIds(InsertAll(st, items).rows)
    ensures Contents(InsertAll(st, items).rows) == Contents(st.rows) + NewItems(st.rows, items)
  {
    hide Insert, UniqueIds;
    if items == [] {
      assert Contents(st.rows) + [] == Contents(st.rows);
    } else {
      var front, last := items[..|items| - 1], items[|items| - 1];
      LogIsFirstOccurrences(st, front);
      InsertContents(InsertAll(st, front), last);
      IdsCome(st, front, last.mutation.id);
      if !HasId(st.rows, last.mutation.id) {
        NewItemsIds(st.rows, front, last.mutation.id);
        Reassociate(Contents(st.rows), NewItems(st.rows, front), last);
      }
      hide HasId, HasItem, Contents;
    }
  }

  /** Repeats, of each other or of what is stored, change neither which mutations are stored nor their order. */
  lemma RepeatFreeLogAgrees(st: Store, items: seq<Item>)
    requires UniqueIds(st.rows)
    ensures Contents(InsertAll(st, items).rows)
         == Contents(InsertAll(st, NewItems(st.rows, items)).rows)
         == Contents(st.rows) + NewItems(st.rows, items)
  {
    LogIsFirstOccurrences(st, items);
    LogIsFirstOccurrences(st, NewItems(st.rows, items));
    NewItemsIdempotent(st.rows, items);
  }

  function Flatten(batches: seq<seq<Item>>): (items: seq<Item>) {
    if batches == [] then [] else Flatten(batches[..|batches| - 1]) + batches[|batches| - 1]
  }

  /** One push after the other. */
  function PushAll(st: Store, batches: seq<seq<Item>>): (r: Store) {
    if batches == [] then st else InsertAll(PushAll(st, batches[..|batches| - 1]), batches[|batches| - 1])
  }

  /** The acknowledgements of the pushes, one list per batch. */
  function PushAcks(st: Store, batches: seq<seq<Item>>): (r: seq<seq<nat>>)
    ensures |r| == |batches|
  {
    if batches == [] then []
    else
      var front := batches[..|batches| - 1];
      PushAcks(st, front) + [Acks(PushAll(st, front), batches[|batches| - 1])]
  }

  function FlattenAcks(acks: seq<seq<nat>>): (r: seq<nat>) {
    if acks == [] then [] else FlattenAcks(acks[..|acks| - 1]) + acks[|acks| - 1]
  }

  /** How pushes are cut into batches matters neither to the log nor to the acknowledgements. */
  lemma {:induction false} BatchesAreOnePush(st: Store, batches: seq<seq<Item>>)
    ensures PushAll(st, batches) == InsertAll(st, Flatten(batches))
    ensures FlattenAcks(PushAcks(st, batches)) == Acks(st, Flatten(batches))
  {
    if batches != [] {
      hide InsertAll, Acks;
      var front, last := batches[..|batches| - 1], batches[|batches| - 1];
      BatchesAreOnePush(st, front);
      InsertAllConcat(st, Flatten(front), last);
      SnocPrefix(PushAcks(st, front), Acks(PushAll(st, front), last));
    }
  }

  lemma AckStep(s: Store, item: Item)
    requires UniqueIds(s.rows)
    ensures HasId(Insert(s, item).rows, item.mutation.id)
    ensures Ack(s, item) == SequenceOf(Insert(s, item).rows, item.mutation.id)
  {
    var row := Row(s.last + 1, item.namespace, item.mutation);
    HasIdSnoc(s.rows, row, item.mutation.id);
    assert (s.rows + [row])[..|s.rows|] == s.rows;
  }

  lemma StoredSequenceStays(s: Store, item: Item, id: string)
    requires HasId(s.rows, id)
    ensures HasId(Insert(s, item).rows, id)
    ensures SequenceOf(Insert(s, item).rows, id) == SequenceOf(s.rows, id)
  {
    var row := Row(s.last + 1, item.namespace, item.mutation);
    HasIdSnoc(s.rows, row, id);
    assert (s.rows + [row])[..|s.rows|] == s.rows;
  }

  /** Every acknowledgement, first or repeated, is the sequence under which the id is stored. */
  lemma {:induction false} AckIsStoredSequence(st: Store, items: seq<Item>, i: nat)
    requires UniqueIds(st.rows)
    requires i < |items|
    ensures HasId(InsertAll(st, items).rows, items[i].mutation.id)
    ensures Acks(st, items)[i] == SequenceOf(InsertAll(st, items).rows, items[i].mutation.id)
  {
    hide Insert, Ack, UniqueIds, HasId, SequenceOf;
    var front, last := items[..|items| - 1], items[|items| - 1];
    LogIsFirstOccurrences(st, front);
    if i < |front| {
      AckIsStoredSequence(st, front, i);
      StoredSequenceStays(InsertAll(st, front), last, items[i].mutation.id);
    } else {
      AckStep(InsertAll(st, front), last);
    }
  }

  /** First acceptances take the running number, so their sequences strictly increase. */
  lemma {:induction false} FirstAckIsFresh(st: Store, items: seq<Item>, i: nat)
    requires i < |items|
    ensures !Repeats(st.rows, items, i) ==> Acks(st, items)[i] == st.last + 1 + i
    decreases |items|
  {
    var front, last := items[..|items| - 1], items[|items| - 1];
    if i < |front| {
      FirstAckIsFresh(st, front, i);
      assert front[..i] == items[..i];
    } else if !Repeats(st.rows, items, i) {
      assert items[..i] == front;
      IdsCome(st, front, last.mutation.id);
    }
  }

  lemma {:induction false} IdsCome(st: Store, items: seq<Item>, id: string)
    ensures HasId(InsertAll(st, items).rows, id) <==> HasId(st.rows, id) || HasItem(items, id)
  {
    if items != [] {
      var front, last := items[..|items| - 1], items[|items| - 1];
      IdsCome(st, front, id);
      assert items == front + [last];
      HasItemSnoc(front, last, id);
      HasIdSnoc(InsertAll(st, front).rows, Row(InsertAll(st, front).last + 1, last.namespace, last.mutation), id);
    }
  }

  /** The same id is acknowledged with the same sequence, in whatever batch it appears. */
  lemma SameIdSameAck(st: Store, items: seq<Item>, i: nat, j: nat)
    requires UniqueIds(st.rows)
    requires i < |items| && j < |items| && items[i].mutation.id == items[j].mutation.id
    ensures Acks(st, items)[i] == Acks(st, items)[j]
  {
    AckIsStoredSequence(st, items, i);
    AckIsStoredSequence(st, items, j);
  }

  // ---- numbering ----

  predicate RepeatFree(rows: seq<Row>, items: seq<Item>) {
    forall i | 0 <= i < |items| :: !Repeats(rows, items, i)
  }

  /** No new mutation comes after a repeated one. */
  predicate RepeatsComeLast(rows: seq<Row>, items: seq<Item>) {
    forall i, j | 0 <= i < j < |items| :: Repeats(rows, items, i) ==> Repeats(rows, items, j)
  }

  lemma RepeatsInPrefix(rows: seq<Row>, items: seq<Item>, i: nat)
    requires i < |items| - 1
    ensures Repeats(rows, items, i) == Repeats(rows, items[..|items| - 1], i)
  {
    assert items[..i] == items[..|items| - 1][..i];
  }

  lemma {:induction false} RepeatFreeIff(rows: seq<Row>, items: seq<Item>)
    ensures RepeatFree(rows, items) <==> |NewItems(rows, items)| == |items|
    ensures RepeatFree(rows, items) ==> NewItems(rows, items) == items
  {
    hide HasId, HasItem, RepeatFree;
    if items == [] {
      NothingRepeats(rows);
    } else {
      var front, last := items[..|items| - 1], items[|items| - 1];
      RepeatFreeIff(rows, front);
      RepeatFreeStep(rows, items);
      if !HasId(rows, last.mutation.id) {
        NewItemsIds(rows, front, last.mutation.id);
      }
      assert items == front + [last];
    }
  }

  lemma NothingRepeats(rows: seq<Row>)
    ensures RepeatFree(rows, [])
  {
  }

  lemma RepeatFreeStep(rows: seq<Row>, items: seq<Item>)
    requires items != []
    ensures var front, last := items[..|items| - 1], items[|items| - 1];
      RepeatFree(rows, items) <==>
        RepeatFree(rows, front) && !HasId(rows, last.mutation.id) && !HasItem(front, last.mutation.id)
  {
    hide HasId, HasItem;
    var n := |items| - 1;
    assert Repeats(rows, items, n) <==> HasId(rows, items[n].mutation.id) || HasItem(items[..n], items[n].mutation.id);
    forall i | 0 <= i < n ensures Repeats(rows, items, i) == Repeats(rows, items[..n], i) {
      RepeatsInPrefix(rows, items, i);
    }
  }

  lemma NumberingStep(rows: seq<Row>, items: seq<Item>)
    requires items != []
    ensures var front := items[..|items| - 1];
      RepeatsComeLast(rows, items) <==>
        if Repeats(rows, items, |items| - 1) then RepeatsComeLast(rows, front) else RepeatFree(rows, front)
  {
    hide HasId, HasItem;
    var n := |items| - 1;
    var front := items[..n];
    forall i | 0 <= i < n ensures Repeats(rows, items, i) == Repeats(rows, front, i) {
      RepeatsInPrefix(rows, items, i);
    }
    hide Repeats;
    if RepeatsComeLast(rows, items) {
      assert forall i | 0 <= i < n :: Repeats(rows, items, i) ==> Repeats(rows, items, n);
      assert forall i, j | 0 <= i < j < n :: Repeats(rows, items, i) ==> Repeats(rows, items, j);
    }
    if RepeatsComeLast(rows, front) {
      assert forall i, j | 0 <= i < j < n :: Repeats(rows, items, i) ==> Repeats(rows, items, j);
    }
  }

  /** The last row's number is the number of pushes so far. */
  lemma InsertFresh(st: Store, items: seq<Item>, x: Item)
    requires !HasId(InsertAll(st, items).rows, x.mutation.id)
    ensures InsertAll(st, items + [x]).rows
         == InsertAll(st, items).rows + [Row(st.last + |items| + 1, x.namespace, x.mutation)]
  {
    SnocPrefix(items, x);
  }

  lemma InsertRepeat(st: Store, items: seq<Item>, x: Item)
    requires HasId(InsertAll(st, items).rows, x.mutation.id)
    ensures InsertAll(st, items + [x]).rows == InsertAll(st, items).rows
  {
    SnocPrefix(items, x);
  }

  ghost predicate SameNumbers(st: Store, items: seq<Item>) {
    InsertAll(st, items).rows == InsertAll(st, NewItems(st.rows, items)).rows
  }

  lemma NumberingRepeat(st: Store, front: seq<Item>, last: Item)
    requires HasId(st.rows, last.mutation.id) || HasItem(front, last.mutation.id)
    ensures SameNumbers(st, front + [last]) <==> SameNumbers(st, front)
  {
    hide InsertAll, NewItems;
    if !HasId(st.rows, last.mutation.id) {
      NewItemsIds(st.rows, front, last.mutation.id);
    }
    NewItemsSnoc(st.rows, front, last);
    IdsCome(st, front, last.mutation.id);
    InsertRepeat(st, front, last);
  }

  lemma NumberingFresh(st: Store, front: seq<Item>, last: Item)
    requires !HasId(st.rows, last.mutation.id) && !HasItem(front, last.mutation.id)
    ensures SameNumbers(st, front + [last]) <==> RepeatFree(st.rows, front)
  {
    hide InsertAll, NewItems, RepeatFree;
    var f := NewItems(st.rows, front);
    NewItemsIds(st.rows, front, last.mutation.id);
    NewItemsSnoc(st.rows, front, last);
    IdsCome(st, front, last.mutation.id);
    IdsCome(st, f, last.mutation.id);
    InsertFresh(st, front, last);
    InsertFresh(st, f, last);
    RepeatFreeIff(st.rows, front);
    var a, b := InsertAll(st, front + [last]).rows, InsertAll(st, f + [last]).rows;
    assert a[|a| - 1].sequence == st.last + |front| + 1;
    assert b[|b| - 1].sequence == st.last + |f| + 1;
  }

  /**
   Since an ignored insert uses up a number, the numbered log equals that of the
   repeat-free list exactly when no new mutation follows a repeated one.
   */
  lemma {:induction false} SameNumbersIff(st: Store, items: seq<Item>)
    ensures SameNumbers(st, items) <==> RepeatsComeLast(st.rows, items)
  {
    if items == [] {
      assert NewItems(st.rows, items) == items;
      return;
    }
    hide SameNumbers, RepeatsComeLast, RepeatFree, HasItem, HasId;
    var front, last := items[..|items| - 1], items[|items| - 1];
    SameNumbersIff(st, front);
    NumberingStep(st.rows, items);
    assert items == front + [last];
    if Repeats(st.rows, items, |front|) {
      NumberingRepeat(st, front, last);
    } else {
      NumberingFresh(st, front, last);
    }
  }

  /** A retry before a new mutation leaves a gap in the numbers. */
  lemma RetryLeavesGap(a: Item, b: Item)
    requires a.mutation.id != b.mutation.id
    ensures NewItems([], [a, a, b]) == [a, b]
    ensures InsertAll(EMPTY, [a, a, b]).rows != InsertAll(EMPTY, [a, b]).rows
  {
    hide InsertAll, NewItems;
    var items := [a, a, b];
    NewOfThree(a, b);
    SameNumbersIff(EMPTY, items);
    assert items[..1] == [a] && items[..2] == [a, a] && a in [a];
    assert Repeats([], items, 1) && !Repeats([], items, 2);
  }

  lemma NewOfThree(a: Item, b: Item)
    requires a.mutation.id != b.mutation.id
    ensures NewItems([], [a, a, b]) == [a, b]
  {
    var none: seq<Item> := [];
    NewItemsSnoc([], none, a);
    NewItemsSnoc([], none + [a], a);
    NewItemsSnoc([], none + [a] + [a], b);
    hide NewItems;
    assert a in [a];
    assert [a, a, b] == none + [a] + [a] + [b] && [a, b] == none + [a] + [b];
  }

  // ---- WebSocket first, HTTP as the fallback ----

  /**
   What became of the WebSocket attempt: it was not made, answered, never processed, or
   processed without an answer, before or after the HTTP request, with pushes of others between.
   */
  datatype WsAttempt =
    | NotConnected
    | Acked
    | Dropped
    | ProcessedBefore(between: seq<Item>)
    | ProcessedAfter(between: seq<Item>)

  function Between(ws: WsAttempt): (items: seq<Item>) {
    match ws
    case ProcessedBefore(between) => between
    case ProcessedAfter(between) => between
    case _ => []
  }

  datatype Pushed = Pushed(store: Store, sequences: seq<nat>)

  /** The client's push: the final store and the sequences the client returns. */
  function HttpPush(st: Store, ns: string, batch: seq<Mutation>, ws: WsAttempt): (r: Pushed) {
    var items := Tag(ns, batch);
    match ws
    case ProcessedBefore(between) =>
      var met := InsertAll(InsertAll(st, items), between);
      Pushed(InsertAll(met, items), Acks(met, items))
    case ProcessedAfter(between) =>
      Pushed(InsertAll(InsertAll(InsertAll(st, items), between), items), Acks(st, items))
    case _ => Pushed(InsertAll(st, items), Acks(st, items))
  }

  lemma {:induction false} AllRepeated(st: Store, items: seq<Item>)
    requires forall x | x in items :: HasId(st.rows, x.mutation.id)
    ensures InsertAll(st, items).rows == st.rows
    ensures InsertAll(st, items).accepted == st.accepted
    ensures forall i | 0 <= i < |items| :: Acks(st, items)[i] == SequenceOf(st.rows, items[i].mutation.id)
  {
    hide Insert, Ack, HasId, SequenceOf;
    if items != [] {
      var front, x := items[..|items| - 1], items[|items| - 1];
      AllRepeated(st, front);
      assert x in items;
      RepeatedInsert(InsertAll(st, front), x);
    }
  }

  lemma RepeatedInsert(st: Store, x: Item)
    requires HasId(st.rows, x.mutation.id)
    ensures Insert(st, x).rows == st.rows && Insert(st, x).accepted == st.accepted
    ensures Ack(st, x) == SequenceOf(st.rows, x.mutation.id)
  {
  }

  lemma {:induction false} StaysStored(st: Store, items: seq<Item>, id: string)
    requires HasId(st.rows, id)
    ensures HasId(InsertAll(st, items).rows, id)
    ensures SequenceOf(InsertAll(st, items).rows, id) == SequenceOf(st.rows, id)
  {
    hide Insert, HasId, SequenceOf;
    if items != [] {
      StaysStored(st, items[..|items| - 1], id);
      StoredSequenceStays(InsertAll(st, items[..|items| - 1]), items[|items| - 1], id);
    }
  }

  /** Pushing again after others have pushed changes no row and gets the first answers. */
  lemma PushAgain(st: Store, items: seq<Item>, between: seq<Item>)
    requires UniqueIds(st.rows)
    ensures var met := InsertAll(InsertAll(st, items), between);
      && InsertAll(met, items).rows == met.rows && InsertAll(met, items).accepted == met.accepted
      && Acks(met, items) == Acks(st, items)
  {
    hide InsertAll, Acks, HasId, SequenceOf, UniqueIds;
    var once := InsertAll(st, items);
    var met := InsertAll(once, between);
    forall i | 0 <= i < |items|
      ensures HasId(met.rows, items[i].mutation.id)
      ensures Acks(st, items)[i] == SequenceOf(met.rows, items[i].mutation.id)
    {
      AckIsStoredSequence(st, items, i);
      StaysStored(once, between, items[i].mutation.id);
    }
    AllRepeated(met, items);
  }

  /**
   Whatever happened to the first attempt, and whoever else pushed meanwhile, the log is that of
   one push and the others', and the client gets the answers of one push.
   */
  lemma HttpPushExactlyOnce(st: Store, ns: string, batch: seq<Mutation>, ws: WsAttempt)
    requires UniqueIds(st.rows)
    ensures var items := Tag(ns, batch);
      var once, pushed := InsertAll(InsertAll(st, items), Between(ws)), HttpPush(st, ns, batch, ws);
      && pushed.store.rows == once.rows && pushed.store.accepted == once.accepted
      && pushed.sequences == Acks(st, items)
  {
    PushAgain(st, Tag(ns, batch), Between(ws));
  }
}
