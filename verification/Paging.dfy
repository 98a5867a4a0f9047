/** A client reading a namespace page by page while others go on pushing. */
module Paging {
  import opened MutationLog
  import opened Sequences

  /** The log at each pull; pushes append above everything assigned. */
  predicate Growing(logs: seq<seq<Row>>) {
    && (forall k | 0 <= k < |logs| :: Ascending(logs[k]))
    && (forall j, k | 0 <= j <= k < |logs| :: logs[j] <= logs[k])
  }

  /** Rows of a longer log up to a row of the shorter one are the shorter one's. */
  lemma LongerRange(rows: seq<Row>, longer: seq<Row>, ns: string, lo: nat, r: Row)
    requires rows <= longer && Ascending(longer) && r in rows
    ensures Range(longer, ns, lo, r.sequence) == Range(rows, ns, lo, r.sequence)
  {
    var p := (x: Row) => InRange(x, ns, lo, r.sequence);
    var more := longer[|rows|..];
    var i :| 0 <= i < |rows| && rows[i] == r;
    assert longer == rows + more && longer[i] == r;
    forall x | x in more ensures !p(x) {
      var j :| 0 <= j < |more| && more[j] == x;
      assert longer[|rows| + j] == x;
    }
    FilterConcat(rows, more, p);
    FilterExtremes(more, p);
  }

  /** The reader stands at `after` with nothing, or at a row of the log with everything up to it. */
  ghost predicate ReadUpTo(rows: seq<Row>, ns: string, after: nat, cursor: nat, all: seq<Row>) {
    && after <= cursor
    && all == Range(rows, ns, after, cursor)
    && (cursor == after || exists r | r in rows :: r.sequence == cursor)
  }

  lemma ReadLonger(rows: seq<Row>, longer: seq<Row>, ns: string, after: nat, cursor: nat, all: seq<Row>)
    requires ReadUpTo(rows, ns, after, cursor, all) && rows <= longer && Ascending(longer)
    ensures ReadUpTo(longer, ns, after, cursor, all)
  {
    if cursor == after {
      FilterExtremes(rows, (x: Row) => InRange(x, ns, after, cursor));
      FilterExtremes(longer, (x: Row) => InRange(x, ns, after, cursor));
    } else {
      var r :| r in rows && r.sequence == cursor;
      LongerRange(rows, longer, ns, after, r);
      assert r in longer;
    }
  }

  /** Everything read and everything above the cursor is the whole tail. */
  lemma ReadAndRest(rows: seq<Row>, ns: string, after: nat, cursor: nat)
    requires Ascending(rows) && after <= cursor
    ensures Range(rows, ns, after, cursor) + After(rows, ns, cursor) == After(rows, ns, after)
  {
    var a, b := Range(rows, ns, after, cursor), After(rows, ns, cursor);
    FilterAscending(rows, (x: Row) => InRange(x, ns, after, cursor));
    AfterAscending(rows, ns, cursor, 0);
    AfterAscending(rows, ns, after, 0);
    AscendingJoin(a, b, cursor);
    AscendingUnique(a + b, After(rows, ns, after));
  }

  lemma AscendingJoin(a: seq<Row>, b: seq<Row>, hi: nat)
    requires Ascending(a) && Ascending(b)
    requires (forall r | r in a :: r.sequence <= hi) && (forall r | r in b :: r.sequence > hi)
    ensures Ascending(a + b)
  {
    assert forall i | 0 <= i < |a| :: a[i] in a;
    assert forall i | 0 <= i < |b| :: b[i] in b;
  }

  lemma ReadPage(rows: seq<Row>, ns: string, after: nat, cursor: nat, all: seq<Row>, limit: nat)
    requires Ascending(rows) && ReadUpTo(rows, ns, after, cursor, all)
    ensures var page := Pull(rows, ns, cursor, limit);
      && (page != [] ==> ReadUpTo(rows, ns, after, page[|page| - 1].sequence, all + page))
      && (|page| < limit ==> all + page == After(rows, ns, after))
  {
    var page, tail := Pull(rows, ns, cursor, limit), After(rows, ns, cursor);
    ReadAndRest(rows, ns, after, cursor);
    NextPage(rows, ns, cursor, limit);
    if page != [] {
      var last := page[|page| - 1];
      assert last in page && last in tail && last in rows;
      PageExact(rows, ns, cursor, |page|, last.sequence);
      assert tail[..|page|] == page;
      ExactlyIsRange(page, rows, ns, cursor, last.sequence);
      JoinRanges(rows, ns, after, cursor, last.sequence);
    }
  }

  lemma JoinRanges(rows: seq<Row>, ns: string, lo: nat, mid: nat, hi: nat)
    requires Ascending(rows) && lo <= mid <= hi
    ensures Range(rows, ns, lo, mid) + Range(rows, ns, mid, hi) == Range(rows, ns, lo, hi)
  {
    var a, b := Range(rows, ns, lo, mid), Range(rows, ns, mid, hi);
    FilterAscending(rows, (x: Row) => InRange(x, ns, lo, mid));
    FilterAscending(rows, (x: Row) => InRange(x, ns, mid, hi));
    FilterAscending(rows, (x: Row) => InRange(x, ns, lo, hi));
    AscendingJoin(a, b, mid);
    AscendingUnique(a + b, Range(rows, ns, lo, hi));
  }

  lemma FullPage(rows: seq<Row>, ns: string, after: nat, cursor: nat, all: seq<Row>, limit: nat, cursor': nat)
    requires Ascending(rows) && ReadUpTo(rows, ns, after, cursor, all)
    requires var page := Pull(rows, ns, cursor, limit);
      cursor' == if page == [] then cursor else page[|page| - 1].sequence
    ensures var page := Pull(rows, ns, cursor, limit);
      && (|page| == limit ==> ReadUpTo(rows, ns, after, cursor', all + page))
      && (|page| != limit ==> all + page == After(rows, ns, after))
  {
    ReadPage(rows, ns, after, cursor, all, limit);
    hide ReadUpTo, After;
    assert all + [] == all;
  }

  lemma NothingRead(rows: seq<Row>, ns: string, after: nat)
    ensures ReadUpTo(rows, ns, after, after, [])
  {
    FilterExtremes(rows, (x: Row) => InRange(x, ns, after, after));
  }

  /** The log the last page came from. */
  function Served(logs: seq<seq<Row>>, used: nat): (rows: seq<Row>)
    requires logs != [] && used <= |logs|
  {
    if used == 0 then logs[0] else logs[used - 1]
  }

  /**
   `has_more` is "the page is full". Reading ends with the whole tail of the log that the last page
   was served from; until then every pull brought a full page and every row up to the cursor is read.
   */
  method PullAll(logs: seq<seq<Row>>, ns: string, after: nat, limit: nat)
    returns (all: seq<Row>, cursor: nat, used: nat, hasMore: bool)
    requires logs != [] && Growing(logs)
    ensures 1 <= used <= |logs|
    ensures !hasMore ==> all == After(logs[used - 1], ns, after)
    ensures hasMore ==> used == |logs| && all == Range(logs[used - 1], ns, after, cursor)
    ensures hasMore ==> |all| == used * limit && |all| <= |After(logs[used - 1], ns, after)|
  {
    hide ReadUpTo, After, Pull;
    all, cursor, used, hasMore := [], after, 0, true;
    NothingRead(logs[0], ns, after);
    while hasMore && used < |logs|
      invariant used <= |logs| && (!hasMore ==> used >= 1)
      invariant hasMore ==> |all| == used * limit
      invariant hasMore ==> ReadUpTo(Served(logs, used), ns, after, cursor, all)
      invariant !hasMore ==> all == After(Served(logs, used), ns, after)
      decreases |logs| - used
    {
      var rows := logs[used];
      var page := Pull(rows, ns, cursor, limit);
      var next := if page == [] then cursor else page[|page| - 1].sequence;
      ReadLonger(Served(logs, used), rows, ns, after, cursor, all);
      FullPage(rows, ns, after, cursor, all, limit, next);
      hasMore := |page| == limit;
      all := all + page;
      cursor := next;
      used := used + 1;
      assert used * limit == (used - 1) * limit + limit;
    }
    if hasMore {
      ReadIsOfTheTail(Served(logs, used), ns, after, cursor, all);
    }
  }

  lemma ReadIsOfTheTail(rows: seq<Row>, ns: string, after: nat, cursor: nat, all: seq<Row>)
    requires Ascending(rows) && ReadUpTo(rows, ns, after, cursor, all)
    ensures all == Range(rows, ns, after, cursor) && |all| <= |After(rows, ns, after)|
  {
    ReadAndRest(rows, ns, after, cursor);
  }
}
