/**
 Redis stream ids as sequence numbers: an id `ms-n` stands for `ms * 1_000_000 + n` in 64
 bits, and a pull is a range query from the id of the next sequence.
 */
module RedisStream {
  import opened Decimal
  import opened Prelude
  import opened Text
  import opened Sequences
  import Log = MutationLog

  const SLOTS: nat := 1_000_000
  const MAX: u64 := 0xFFFF_FFFF_FFFF_FFFF

  /** A stream id as Redis orders it: the millisecond, then the counter within it. */
  datatype Id = Id(ms: u64, n: u64)

  predicate Before(a: Id, b: Id) {
    a.ms < b.ms || (a.ms == b.ms && a.n < b.n)
  }

  function IdText(id: Id): (s: string) {
    Print(id.ms) + "-" + Print(id.n)
  }

  /** An id without a dash counts as slot 0, an unreadable number as 0; the sum wraps at 64 bits. */
  function StreamIdToSeq(s: string): (r: u64) {
    var ms := ParseOr(Head(s, '-'), TWO_64, 0);
    var n := ParseOr(if '-' in s then Tail(s, '-') else "0", TWO_64, 0);
    (ms * SLOTS + n) % TWO_64
  }

  function SeqToStreamId(s: u64): (r: string) {
    Print(s / SLOTS) + "-" + Print(s % SLOTS)
  }

  function Sequence(id: Id): (s: u64) {
    (id.ms * SLOTS + id.n) % TWO_64
  }

  function IdOf(s: u64): (id: Id) {
    Id(s / SLOTS, s % SLOTS)
  }

  /** The ids the encoding is made for. */
  predicate Fits(id: Id) {
    id.n < SLOTS && id.ms * SLOTS + id.n < TWO_64
  }

  // ---- the codec ----

  /** The text functions compute the numeric ones. */
  lemma TextIsId(id: Id, s: u64)
    ensures StreamIdToSeq(IdText(id)) == Sequence(id)
    ensures SeqToStreamId(s) == IdText(IdOf(s))
  {
    hide ParseOr, Print, Split, Tail;
    var ms, n := Print(id.ms), Print(id.n);
    SplitConcat(ms, n, '-');
    assert IdText(id) == ms + ['-'] + n;
    assert IdText(id)[|ms|] == '-';
    ParsePrint(id.ms, TWO_64, 0);
    ParsePrint(id.n, TWO_64, 0);
  }

  lemma TextParts(a: string, b: string)
    requires '-' !in a
    ensures StreamIdToSeq(a + "-" + b) == (ParseOr(a, TWO_64, 0) * SLOTS + ParseOr(b, TWO_64, 0)) % TWO_64
    ensures StreamIdToSeq(a) == ParseOr(a, TWO_64, 0) * SLOTS % TWO_64
  {
    hide ParseOr, Split, Tail;
    var s := a + ['-'] + b;
    assert s == a + "-" + b && s[|a|] == '-';
    SplitConcat(a, b, '-');
    SplitFree(a, '-');
    ZeroSlot();
  }

  /** Without a dash the whole text is the millisecond; what cannot be read counts as 0. */
  lemma LooseIds(ms: u64, junk: string)
    requires ParseUnsigned(junk, TWO_64) == None && '-' !in junk
    ensures StreamIdToSeq(Print(ms)) == ms * SLOTS % TWO_64
    ensures StreamIdToSeq(Print(ms) + "-" + junk) == ms * SLOTS % TWO_64
    ensures StreamIdToSeq(junk + "-" + Print(ms)) == ms
    ensures StreamIdToSeq(junk) == 0
  {
    hide Print, StreamIdToSeq, ParseUnsigned;
    ParsePrint(ms, TWO_64, 0);
    DigitsOnly(ms);
    TextParts(Print(ms), junk);
    TextParts(junk, Print(ms));
  }

  lemma DigitsOnly(n: nat)
    ensures Free(Print(n), '-')
  {
  }

  lemma ZeroSlot()
    ensures ParseOr("0", TWO_64, 0) == 0
  {
    NumberOfPrint(0);
  }

  lemma IdTextInjective(a: Id, b: Id)
    requires IdText(a) == IdText(b)
    ensures a == b
  {
    SplitConcat(Print(a.ms), Print(a.n), '-');
    SplitConcat(Print(b.ms), Print(b.n), '-');
    assert IdText(a) == Print(a.ms) + ['-'] + Print(a.n);
    assert IdText(b) == Print(b.ms) + ['-'] + Print(b.n);
    assert Head(IdText(a), '-') == Print(a.ms) && Head(IdText(b), '-') == Print(b.ms);
    NumberOfPrint(a.ms);
    NumberOfPrint(b.ms);
    NumberOfPrint(a.n);
    NumberOfPrint(b.n);
  }

  /** Every sequence survives printing and reading. */
  lemma SequenceRoundTrip(s: u64)
    ensures StreamIdToSeq(SeqToStreamId(s)) == s
    ensures Fits(IdOf(s))
  {
    TextIsId(IdOf(s), s);
  }

  lemma IdRoundTrip(id: Id)
    ensures IdOf(Sequence(id)) == id <==> Fits(id)
  {
  }

  /** An id survives being turned into a sequence and back exactly when it fits. */
  lemma IdRoundTripIff(id: Id)
    ensures SeqToStreamId(StreamIdToSeq(IdText(id))) == IdText(id) <==> Fits(id)
  {
    TextIsId(id, Sequence(id));
    IdRoundTrip(id);
    if IdText(IdOf(Sequence(id))) == IdText(id) {
      IdTextInjective(IdOf(Sequence(id)), id);
    }
  }

  /** On fitting ids the two orders agree. */
  lemma OrderIsomorphism(a: Id, b: Id)
    requires Fits(a) && Fits(b)
    ensures Before(a, b) <==> Sequence(a) < Sequence(b)
  {
  }

  /** The millionth entry of a millisecond has the sequence of the next millisecond's first. */
  lemma CrowdedMillisecondCollides(ms: u64)
    requires (ms + 1) * SLOTS < TWO_64
    ensures StreamIdToSeq(IdText(Id(ms, SLOTS))) == StreamIdToSeq(IdText(Id(ms + 1, 0)))
    ensures Before(Id(ms, SLOTS), Id(ms + 1, 0))
  {
    hide StreamIdToSeq, IdText;
    var next: u64 := ms + 1;
    TextIsId(Id(ms, SLOTS), 0);
    TextIsId(Id(next, 0), 0);
  }

  // ---- range queries ----

  /** Whether a range query from the id after `after` returns `id`. */
  predicate Selected(id: Id, after: u64) {
    !Before(id, IdOf(if after == MAX then MAX else after + 1))
  }

  ghost predicate SelectedExactly(id: Id) {
    forall after: u64 | after < MAX :: Selected(id, after) <==> Sequence(id) > after
  }

  lemma FittingIsSelectedExactly(id: Id, after: u64)
    requires Fits(id)
    ensures after < MAX ==> (Selected(id, after) <==> Sequence(id) > after)
    ensures after == MAX ==> (Selected(id, after) <==> Sequence(id) == MAX)
  {
    var start := if after == MAX then MAX else after + 1;
    OrderIsomorphism(id, IdOf(start));
    IdRoundTrip(IdOf(start));
  }

  lemma MisfitIsMisselected(id: Id)
    requires !Fits(id) && !(Sequence(id) == MAX && Before(IdOf(MAX), id))
    ensures !SelectedExactly(id)
  {
    var s := Sequence(id);
    if Before(id, IdOf(s)) {
      var after: u64 := s - 1;
      assert !Selected(id, after);
    } else {
      var after: u64 := s;
      assert Selected(id, after);
    }
  }

  /**
   A range query answers "sequence above `after`" for every cursor below the maximum exactly
   when the id fits, or has wrapped onto the very last sequence.
   */
  lemma SelectedExactlyIff(id: Id)
    ensures SelectedExactly(id) <==> Fits(id) || (Sequence(id) == MAX && Before(IdOf(MAX), id))
  {
    if Fits(id) {
      forall after: u64 | after < MAX ensures Selected(id, after) <==> Sequence(id) > after {
        FittingIsSelectedExactly(id, after);
      }
    } else if Sequence(id) == MAX && Before(IdOf(MAX), id) {
      forall after: u64 | after < MAX ensures Selected(id, after) {
      }
    } else {
      MisfitIsMisselected(id);
    }
  }

  // ---- pulling ----

  /** A stream entry; the mutation is absent when its fields cannot be read. */
  datatype Entry = Entry(id: Id, mutation: Option<Log.Mutation>)

  predicate Ordered(entries: seq<Entry>) {
    forall i, j | 0 <= i < j < |entries| :: Before(entries[i].id, entries[j].id)
  }

  /** What `push` writes, on ids that fit. */
  predicate WellFormed(entries: seq<Entry>) {
    Ordered(entries) && forall e | e in entries :: Fits(e.id) && e.mutation.Some?
  }

  /** The readable entries as rows of the namespace. */
  function Rows(entries: seq<Entry>, ns: string): (rows: seq<Log.Row>) {
    if entries == [] then []
    else
      var front, e := Rows(entries[..|entries| - 1], ns), entries[|entries| - 1];
      if e.mutation.Some? then front + [Log.Row(Sequence(e.id), ns, e.mutation.value)] else front
  }

  /** `XRANGE` from the id after `after` to the end, with a count. */
  function RangeQuery(entries: seq<Entry>, after: u64, limit: nat): (page: seq<Entry>) {
    Log.Take(Filter(entries, (e: Entry) => Selected(e.id, after)), limit)
  }

  lemma {:induction false} RowsOfRange(entries: seq<Entry>, ns: string, after: u64)
    requires WellFormed(entries) && after < MAX
    ensures Rows(Filter(entries, (e: Entry) => Selected(e.id, after)), ns) == Log.After(Rows(entries, ns), ns, after)
  {
    if entries != [] {
      var front, e := entries[..|entries| - 1], entries[|entries| - 1];
      RowsOfRange(front, ns, after);
      FittingIsSelectedExactly(e.id, after);
      var kept := Filter(front, (e: Entry) => Selected(e.id, after));
      SnocPrefix(kept, e);
      SnocPrefix(Rows(front, ns), Log.Row(Sequence(e.id), ns, e.mutation.value));
    }
  }

  lemma {:induction false} RowsLength(entries: seq<Entry>, ns: string)
    requires forall e | e in entries :: e.mutation.Some?
    ensures |Rows(entries, ns)| == |entries|
    ensures forall i | 0 <= i < |entries| ::
      Rows(entries, ns)[i] == Log.Row(Sequence(entries[i].id), ns, entries[i].mutation.value)
  {
    if entries != [] {
      RowsLength(entries[..|entries| - 1], ns);
    }
  }

  lemma RowsAscending(entries: seq<Entry>, ns: string)
    requires WellFormed(entries)
    ensures Log.Ascending(Rows(entries, ns))
  {
    RowsLength(entries, ns);
    forall i, j | 0 <= i < j < |entries| ensures Sequence(entries[i].id) < Sequence(entries[j].id) {
      OrderIsomorphism(entries[i].id, entries[j].id);
    }
  }

  /** A stream pull is the log's pull on the stream's rows. */
  lemma PullIsLogPull(entries: seq<Entry>, ns: string, after: u64, limit: nat)
    requires WellFormed(entries) && after < MAX
    ensures Rows(RangeQuery(entries, after, limit), ns) == Log.Pull(Rows(entries, ns), ns, after, limit)
  {
    var all := Filter(entries, (e: Entry) => Selected(e.id, after));
    RowsOfRange(entries, ns, after);
    RowsLength(all, ns);
    RowsLength(RangeQuery(entries, after, limit), ns);
  }

  /** From the maximal cursor the query goes back to the entry at the cursor itself. */
  lemma MaximalCursorRepeats(entries: seq<Entry>, e: Entry)
    requires WellFormed(entries) && e in entries && Sequence(e.id) == MAX
    ensures Filter(entries, (e: Entry) => Selected(e.id, MAX)) == [e]
  {
    RowsAscending(entries, "");
    RowsLength(entries, "");
    var n := |entries| - 1;
    assert entries[n] == e;
    forall x | x in entries[..n] ensures !Selected(x.id, MAX) {
      FittingIsSelectedExactly(x.id, MAX);
    }
    FittingIsSelectedExactly(e.id, MAX);
    FilterExtremes(entries[..n], (e: Entry) => Selected(e.id, MAX));
  }

  /** The millionth entry of a millisecond is missed by the very pull that should return it first. */
  lemma CrowdedEntryIsMissed(ms: u64, m: Log.Mutation, ns: string, limit: nat)
    requires (ms + 1) * SLOTS < TWO_64
    ensures var entries := [Entry(Id(ms, SLOTS), Some(m))];
      var sequence := (ms + 1) * SLOTS;
      && Rows(entries, ns) == [Log.Row(sequence, ns, m)]
      && RangeQuery(entries, sequence - 1, limit) == []
  {
    var e := Entry(Id(ms, SLOTS), Some(m));
    var after: u64 := (ms + 1) * SLOTS - 1;
    assert [e][..0] == [];
    assert Sequence(e.id) == after + 1;
    assert !Selected(e.id, after);
    FilterExtremes([e], (x: Entry) => Selected(x.id, after));
  }

  /** `pull`: query, then keep the entries that can be read. */
  method Pull(entries: seq<Entry>, ns: string, after: u64, limit: nat) returns (rows: seq<Log.Row>)
    ensures rows == Rows(RangeQuery(entries, after, limit), ns)
    ensures WellFormed(entries) && after < MAX ==> rows == Log.Pull(Rows(entries, ns), ns, after, limit)
  {
    rows := [];
    var page := RangeQuery(entries, after, limit);
    for i := 0 to |page|
      invariant rows == Rows(page[..i], ns)
    {
      PrefixSnoc(page, i);
      SnocPrefix(page[..i], page[i]);
      if page[i].mutation.Some? {
        rows := rows + [Log.Row(Sequence(page[i].id), ns, page[i].mutation.value)];
      }
    }
    assert page[..|page|] == page;
    if WellFormed(entries) && after < MAX {
      PullIsLogPull(entries, ns, after, limit);
    }
  }
}
