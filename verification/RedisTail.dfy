/** Reading a Redis stream to its end by limited pulls, each from the last sequence of the one before. */
module RedisTail {
  import opened Prelude
  import opened RedisStream
  import Log = MutationLog

  /** A reader that pulls from the last sequence it got until a page is not full. */
  datatype Reader = Reader(all: seq<Log.Row>, cursor: u64, more: bool)

  /** What a pull returns; every sequence is a 64-bit one. */
  lemma {:induction false} RowsFit(entries: seq<Entry>, ns: string)
    ensures forall r | r in Rows(entries, ns) :: r.sequence <= MAX
  {
    if entries != [] {
      RowsFit(entries[..|entries| - 1], ns);
    }
  }

  function Round(entries: seq<Entry>, ns: string, limit: nat, r: Reader): (r': Reader) {
    if !r.more then r
    else
      var page := Rows(RangeQuery(entries, r.cursor, limit), ns);
      RowsFit(RangeQuery(entries, r.cursor, limit), ns);
      Reader(r.all + page, if page == [] then r.cursor else page[|page| - 1].sequence, |page| == limit)
  }

  function Rounds(entries: seq<Entry>, ns: string, after: u64, limit: nat, n: nat): (r: Reader) {
    if n == 0 then Reader([], after, true) else Round(entries, ns, limit, Rounds(entries, ns, after, limit, n - 1))
  }

  function RowsAfter(entries: seq<Entry>, ns: string, after: u64): (rows: seq<Log.Row>) {
    Log.After(Rows(entries, ns), ns, after)
  }

  /** The cursor after `k` rows of the tail. */
  function CursorAt(tail: seq<Log.Row>, after: u64, k: nat): (c: nat)
    requires k <= |tail|
  {
    if k == 0 then after else tail[k - 1].sequence
  }

  lemma TailSplits(entries: seq<Entry>, ns: string, after: u64, k: nat)
    requires WellFormed(entries) && k <= |RowsAfter(entries, ns, after)|
    ensures var tail := RowsAfter(entries, ns, after); var c := CursorAt(tail, after, k);
      && c <= MAX && (k < |tail| ==> c < MAX)
      && Log.After(Rows(entries, ns), ns, c) == tail[k..]
  {
    var rows, tail := Rows(entries, ns), RowsAfter(entries, ns, after);
    var c := CursorAt(tail, after, k);
    RowsAscending(entries, ns);
    RowsFit(entries, ns);
    Log.PageExact(rows, ns, after, k, c);
    if k < |tail| {
      assert tail[k] == tail[k..][0] && tail[k] in Log.After(rows, ns, c);
    }
  }

  /** The reader has the first `k` rows of the tail and goes on from there. */
  predicate ReadSome(r: Reader, tail: seq<Log.Row>, after: u64, k: nat)
    requires k <= |tail|
  {
    r.more && r.all == tail[..k] && r.cursor == CursorAt(tail, after, k)
  }

  lemma FullRound(entries: seq<Entry>, ns: string, after: u64, limit: nat, r: Reader, k: nat)
    requires WellFormed(entries) && limit >= 1 && k + limit <= |RowsAfter(entries, ns, after)|
    requires ReadSome(r, RowsAfter(entries, ns, after), after, k)
    ensures ReadSome(Round(entries, ns, limit, r), RowsAfter(entries, ns, after), after, k + limit)
  {
    hide RowsAfter, Rows, RangeQuery, WellFormed;
    var tail := RowsAfter(entries, ns, after);
    TailSplits(entries, ns, after, k);
    PullIsLogPull(entries, ns, r.cursor, limit);
    assert tail[k..][..limit] == tail[k..k + limit];
    assert tail[..k] + tail[k..k + limit] == tail[..k + limit];
  }

  /** While the tail fills pages the reader has a prefix of it and goes on. */
  lemma {:induction false} FullRounds(entries: seq<Entry>, ns: string, after: u64, limit: nat, n: nat)
    requires WellFormed(entries) && limit >= 1 && n * limit <= |RowsAfter(entries, ns, after)|
    ensures ReadSome(Rounds(entries, ns, after, limit, n), RowsAfter(entries, ns, after), after, n * limit)
  {
    hide RowsAfter, Round, WellFormed;
    if n > 0 {
      var k := (n - 1) * limit;
      assert n * limit == k + limit;
      FullRounds(entries, ns, after, limit, n - 1);
      hide ReadSome;
      FullRound(entries, ns, after, limit, Rounds(entries, ns, after, limit, n - 1), k);
    }
  }

  /** A page that is not full ends the reading with the whole tail, unless the cursor is maximal. */
  lemma LastRound(entries: seq<Entry>, ns: string, after: u64, limit: nat, n: nat)
    requires WellFormed(entries) && limit >= 1
    requires n * limit <= |RowsAfter(entries, ns, after)| < (n + 1) * limit
    requires CursorAt(RowsAfter(entries, ns, after), after, n * limit) < MAX
    ensures var r := Rounds(entries, ns, after, limit, n + 1); !r.more && r.all == RowsAfter(entries, ns, after)
  {
    hide Rows, RangeQuery, WellFormed, RowsAfter;
    var tail, k := RowsAfter(entries, ns, after), n * limit;
    assert (n + 1) * limit == k + limit;
    FullRounds(entries, ns, after, limit, n);
    TailSplits(entries, ns, after, k);
    PullIsLogPull(entries, ns, CursorAt(tail, after, k), limit);
    assert tail[..k] + tail[k..] == tail;
  }

  lemma {:induction false} NeverShorter(entries: seq<Entry>, ns: string, after: u64, limit: nat, n: nat, m: nat)
    requires n <= m
    ensures |Rounds(entries, ns, after, limit, n).all| <= |Rounds(entries, ns, after, limit, m).all|
  {
    if n < m {
      NeverShorter(entries, ns, after, limit, n, m - 1);
    }
  }

  lemma MaximalPage(entries: seq<Entry>, ns: string, limit: nat, row: Log.Row)
    requires WellFormed(entries) && limit >= 1 && row in Rows(entries, ns) && row.sequence == MAX
    ensures |Rows(RangeQuery(entries, MAX, limit), ns)| == 1
  {
    RowsLength(entries, ns);
    var i :| 0 <= i < |entries| && Rows(entries, ns)[i] == row;
    MaximalCursorRepeats(entries, entries[i]);
    assert RangeQuery(entries, MAX, limit) == [entries[i]];
    RowsLength([entries[i]], ns);
  }

  lemma TailIsOfTheStream(entries: seq<Entry>, ns: string, after: u64, i: nat)
    requires i < |RowsAfter(entries, ns, after)|
    ensures RowsAfter(entries, ns, after)[i] in Rows(entries, ns)
  {
    assert RowsAfter(entries, ns, after)[i] in RowsAfter(entries, ns, after);
  }

  /** At the maximal cursor the next page starts over with the last entry. */
  lemma OvershootRound(entries: seq<Entry>, ns: string, after: u64, limit: nat, n: nat)
    requires WellFormed(entries) && limit >= 1 && after < MAX && n * limit <= |RowsAfter(entries, ns, after)|
    requires CursorAt(RowsAfter(entries, ns, after), after, n * limit) == MAX
    ensures |RowsAfter(entries, ns, after)| == n * limit
    ensures |Rounds(entries, ns, after, limit, n + 1).all| > |RowsAfter(entries, ns, after)|
  {
    hide RowsAfter, Rows, RangeQuery, WellFormed;
    var tail, k := RowsAfter(entries, ns, after), n * limit;
    TailIsOfTheStream(entries, ns, after, k - 1);
    FullRounds(entries, ns, after, limit, n);
    TailSplits(entries, ns, after, k);
    MaximalPage(entries, ns, limit, tail[k - 1]);
  }

  /** The tail ends at the last 64-bit sequence, just where a page is full. */
  predicate EndsFullAtMaximum(tail: seq<Log.Row>, limit: nat)
    requires limit >= 1
  {
    tail != [] && |tail| % limit == 0 && tail[|tail| - 1].sequence == MAX
  }

  lemma Pages(length: nat, limit: nat) returns (n: nat)
    requires limit >= 1
    ensures n * limit <= length < (n + 1) * limit
    ensures length % limit == 0 <==> length == n * limit
  {
    n := length / limit;
    assert length == n * limit + length % limit;
    assert (n + 1) * limit == n * limit + limit;
  }

  /** At the end of the full pages the cursor is maximal exactly when the tail ends full at the maximum. */
  lemma MaximalCursorIff(entries: seq<Entry>, ns: string, after: u64, limit: nat, n: nat)
    requires WellFormed(entries) && limit >= 1 && after < MAX
    requires n * limit <= |RowsAfter(entries, ns, after)|
    requires |RowsAfter(entries, ns, after)| % limit == 0 <==> |RowsAfter(entries, ns, after)| == n * limit
    ensures CursorAt(RowsAfter(entries, ns, after), after, n * limit) == MAX
       <==> EndsFullAtMaximum(RowsAfter(entries, ns, after), limit)
  {
    TailSplits(entries, ns, after, n * limit);
  }

  /** Repeated limited pulls end with exactly the tail, exactly when it does not end full at the maximum. */
  lemma TailIsReadIff(entries: seq<Entry>, ns: string, after: u64, limit: nat)
    requires WellFormed(entries) && limit >= 1 && after < MAX
    ensures (exists n: nat :: !Rounds(entries, ns, after, limit, n).more
                           && Rounds(entries, ns, after, limit, n).all == RowsAfter(entries, ns, after))
       <==> !EndsFullAtMaximum(RowsAfter(entries, ns, after), limit)
  {
    hide Rounds, RowsAfter, WellFormed;
    var tail := RowsAfter(entries, ns, after);
    var k := Pages(|tail|, limit);
    MaximalCursorIff(entries, ns, after, limit, k);
    if EndsFullAtMaximum(tail, limit) {
      OvershootRound(entries, ns, after, limit, k);
      forall n: nat ensures Rounds(entries, ns, after, limit, n).more || Rounds(entries, ns, after, limit, n).all != tail {
        if n <= k {
          Multiply(n, k, limit);
          FullRounds(entries, ns, after, limit, n);
        } else {
          NeverShorter(entries, ns, after, limit, k + 1, n);
        }
      }
    } else {
      TailSplits(entries, ns, after, k * limit);
      LastRound(entries, ns, after, limit, k);
    }
  }

  lemma Multiply(a: nat, b: nat, c: nat)
    requires a <= b
    ensures a * c <= b * c
  {
  }

  /** Limited pulls, each from the last sequence of the one before, give the whole tail. */
  method PullTail(entries: seq<Entry>, ns: string, after: u64, limit: nat) returns (all: seq<Log.Row>)
    requires WellFormed(entries) && limit >= 1 && after < MAX
    requires !EndsFullAtMaximum(RowsAfter(entries, ns, after), limit)
    ensures all == RowsAfter(entries, ns, after)
  {
    hide RangeQuery, RowsAfter, Rows, WellFormed;
    ghost var k := Pages(|RowsAfter(entries, ns, after)|, limit);
    MaximalCursorIff(entries, ns, after, limit, k);
    TailSplits(entries, ns, after, k * limit);
    LastRound(entries, ns, after, limit, k);
    all := [];
    var cursor: u64, more := after, true;
    ghost var n: nat := 0;
    while more
      invariant Reader(all, cursor, more) == Rounds(entries, ns, after, limit, n)
      invariant n <= k + 1
      decreases k + 1 - n
    {
      var page := Pull(entries, ns, cursor, limit);
      RowsFit(RangeQuery(entries, cursor, limit), ns);
      more := |page| == limit;
      all := all + page;
      if page != [] {
        assert page[|page| - 1] in page;
        cursor := page[|page| - 1].sequence;
      }
      n := n + 1;
    }
    if n <= k {
      Multiply(n, k, limit);
      FullRounds(entries, ns, after, limit, n);
    }
  }
}
