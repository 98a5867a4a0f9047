/**
 Resuming across disconnects. Each connection serves the namespace's log after the requested
 cursor as event-stream frames; the client sees any prefix of those bytes and drops a partial
 line. The concatenated output is the log, without gap or repeat.
 */
module EventStreamResume {
  import opened Prelude
  import opened Sequences
  import opened MutationLog
  import opened EventStream
  import S = SqliteSubscription
  import D = SqliteDelivery

  /** What the server writes: one event a row, and comment lines to keep the connection alive. */
  datatype Frame = Data(row: Row) | KeepAlive

  const DATA_PREFIX: seq<byte> := [100, 97, 116, 97, 58, 32]

  /** `encode` is the JSON text of a row as bytes. */
  function FrameBytes(encode: Row -> seq<byte>, f: Frame): (bs: seq<byte>) {
    match f
    case Data(row) => DATA_PREFIX + encode(row) + [NEWLINE] + [NEWLINE]
    case KeepAlive => [58, NEWLINE] + [NEWLINE]
  }

  function Served(encode: Row -> seq<byte>, frames: seq<Frame>): (bs: seq<byte>) {
    if frames == [] then []
    else Served(encode, frames[..|frames| - 1]) + FrameBytes(encode, frames[|frames| - 1])
  }

  function Rows(frames: seq<Frame>): (rows: seq<Row>) {
    if frames == [] then []
    else
      var f := frames[|frames| - 1];
      Rows(frames[..|frames| - 1]) + (match f case Data(row) => [row] case KeepAlive => [])
  }

  /** Every row's line parses back to the row, and the three fixed lines are plain ASCII. */
  ghost predicate Faithful(utf8: Utf8, json: Json, encode: Row -> seq<byte>, text: Row -> string) {
    && (forall row :: NEWLINE !in encode(row))
    && (forall row :: Solid(text(row)) && json(text(row)) == Some(row))
    && (forall row :: utf8(DATA_PREFIX + encode(row) + [NEWLINE]) == Some("data: " + text(row) + "\n"))
    && utf8([58, NEWLINE]) == Some(":\n")
    && utf8([NEWLINE]) == Some("\n")
  }

  // ---- a frame yields its row ----

  lemma TrimTail(s: string)
    requires Solid(s)
    ensures Trim(s) == s && Trim(" " + s) == s && Trim(s + "\n") == s
  {
    assert (" " + s)[1..] == s;
    assert (s + "\n")[..|s|] == s;
    assert TrimStart(s + "\n") == s + "\n";
  }

  lemma DataLineRow(utf8: Utf8, json: Json, encode: Row -> seq<byte>, text: Row -> string, row: Row)
    requires Faithful(utf8, json, encode, text)
    ensures Parser(utf8, json)(DATA_PREFIX + encode(row) + [NEWLINE]) == [row]
  {
    var t := text(row);
    assert Solid("data: " + t);
    TrimTail("data: " + t);
    TrimTail(t);
    assert ("data: " + t)[5..] == " " + t;
  }

  lemma BlankLineRow(utf8: Utf8, json: Json, encode: Row -> seq<byte>, text: Row -> string)
    requires Faithful(utf8, json, encode, text)
    ensures Parser(utf8, json)([NEWLINE]) == [] && Parser(utf8, json)([58, NEWLINE]) == []
  {
    TrimTail(":");
    assert ":" + "\n" == ":\n";
    assert "\n"[1..] == "";
    assert Trim("\n") == "";
  }

  /** A line on its own. */
  lemma OneLine(parse: LineParser, line: seq<byte>)
    requires line != [] && line[|line| - 1] == NEWLINE
    requires forall i | 0 <= i < |line| - 1 :: line[i] != NEWLINE
    ensures Emit(parse, line) == parse(line) && Rest(line) == []
  {
    FirstNewlineUnique(line, |line| - 1);
    assert line[..|line|] == line && line[|line|..] == [];
  }

  lemma TwoLines(parse: LineParser, line: seq<byte>)
    requires line != [] && line[|line| - 1] == NEWLINE
    requires forall i | 0 <= i < |line| - 1 :: line[i] != NEWLINE
    ensures Emit(parse, line + [NEWLINE]) == parse(line) + parse([NEWLINE])
    ensures Rest(line + [NEWLINE]) == []
  {
    OneLine(parse, line);
    OneLine(parse, [NEWLINE]);
    EmitConcat(parse, line, [NEWLINE]);
    assert [] + [NEWLINE] == [NEWLINE];
  }

  lemma FrameYields(utf8: Utf8, json: Json, encode: Row -> seq<byte>, text: Row -> string, f: Frame)
    requires Faithful(utf8, json, encode, text)
    ensures Emit(Parser(utf8, json), FrameBytes(encode, f)) == (match f case Data(row) => [row] case KeepAlive => [])
    ensures Rest(FrameBytes(encode, f)) == []
  {
    hide Emit, Rest, Parser;
    var parse := Parser(utf8, json);
    BlankLineRow(utf8, json, encode, text);
    match f
    case Data(row) =>
      DataLineRow(utf8, json, encode, text, row);
      var line := DATA_PREFIX + encode(row) + [NEWLINE];
      assert forall i | 0 <= i < |encode(row)| :: encode(row)[i] in encode(row);
      TwoLines(parse, line);
    case KeepAlive =>
      TwoLines(parse, [58, NEWLINE]);
  }

  lemma {:induction false} ServedYields(utf8: Utf8, json: Json, encode: Row -> seq<byte>, text: Row -> string,
                                        frames: seq<Frame>)
    requires Faithful(utf8, json, encode, text)
    ensures Emit(Parser(utf8, json), Served(encode, frames)) == Rows(frames)
    ensures Rest(Served(encode, frames)) == []
  {
    if frames != [] {
      var front, f := frames[..|frames| - 1], frames[|frames| - 1];
      ServedYields(utf8, json, encode, text, front);
      FrameYields(utf8, json, encode, text, f);
      EmitConcat(Parser(utf8, json), Served(encode, front), FrameBytes(encode, f));
      assert [] + FrameBytes(encode, f) == FrameBytes(encode, f);
    }
  }

  /** Whatever prefix of the bytes arrives, a prefix of the rows is emitted. */
  lemma PrefixYieldsPrefix(utf8: Utf8, json: Json, encode: Row -> seq<byte>, text: Row -> string,
                           frames: seq<Frame>, received: seq<byte>)
    requires Faithful(utf8, json, encode, text) && received <= Served(encode, frames)
    ensures Emit(Parser(utf8, json), received) <= Rows(frames)
  {
    var all := Served(encode, frames);
    ServedYields(utf8, json, encode, text, frames);
    assert all == received + all[|received|..];
    EmitConcat(Parser(utf8, json), received, all[|received|..]);
  }

  // ---- across connections ----

  /** The log when the connection was served, the frames written, and the chunks that arrived. */
  datatype Connection = Connection(log: seq<Row>, frames: seq<Frame>, chunks: seq<seq<byte>>)

  /** One connection: an empty buffer, then every chunk. */
  function Connect(parse: LineParser, r: Reader, c: Connection): (r': Reader) {
    FeedAll(parse, r.(buffer := []), c.chunks)
  }

  function Session(parse: LineParser, from: nat, conns: seq<Connection>): (r: Reader) {
    if conns == [] then Reader([], from, [])
    else Connect(parse, Session(parse, from, conns[..|conns| - 1]), conns[|conns| - 1])
  }

  /** The server serves the log after the requested cursor, in order; some prefix arrives. */
  ghost predicate ServesAfter(encode: Row -> seq<byte>, ns: string, after: nat, c: Connection) {
    && Ascending(c.log)
    && Rows(c.frames) <= After(c.log, ns, after)
    && Concat(c.chunks) <= Served(encode, c.frames)
  }

  /** Every connection is served so from the cursor reached before it, and the log only grows. */
  ghost predicate Honest(parse: LineParser, encode: Row -> seq<byte>, ns: string, from: nat, conns: seq<Connection>) {
    conns == [] ||
    var front, c := conns[..|conns| - 1], conns[|conns| - 1];
    && Honest(parse, encode, ns, from, front)
    && ServesAfter(encode, ns, Session(parse, from, front).after, c)
    && (front == [] || front[|front| - 1].log <= c.log)
  }

  lemma {:induction false} MaxOfAscending(after: nat, rows: seq<Row>)
    requires Ascending(rows) && forall r | r in rows :: r.sequence > after
    ensures MaxSequence(after, rows) == if rows == [] then after else rows[|rows| - 1].sequence
  {
    if rows != [] {
      MaxOfAscending(after, rows[..|rows| - 1]);
      assert rows[|rows| - 1] in rows;
    }
  }

  /** The cursor's row is in the log, unless nothing has been read. */
  ghost predicate Read(log: seq<Row>, ns: string, from: nat, r: Reader) {
    && Exactly(r.out, log, ns, from, r.after)
    && from <= r.after
    && (r.after == from || exists x | x in log :: x.sequence == r.after)
  }

  lemma NothingRead(log: seq<Row>, ns: string, from: nat)
    ensures Read(log, ns, from, Reader([], from, []))
  {
  }

  lemma ReadLonger(log: seq<Row>, longer: seq<Row>, ns: string, from: nat, r: Reader)
    requires Read(log, ns, from, r) && log <= longer && Ascending(longer)
    ensures Read(longer, ns, from, r)
  {
    if r.after != from {
      var i :| 0 <= i < |log| && log[i].sequence == r.after;
      assert forall j | 0 <= j < |log| :: longer[j] == log[j] && log[j] in log;
      forall x | x in longer && x !in log ensures x.sequence > r.after {
        var j :| 0 <= j < |longer| && longer[j] == x;
      }
      assert longer[i] in longer;
    }
  }

  lemma PrefixOfQuery(log: seq<Row>, ns: string, after: nat, rows: seq<Row>)
    requires Ascending(log) && rows <= After(log, ns, after)
    ensures Ascending(rows) && forall x | x in rows :: x in log && x.sequence > after
    ensures After(log, ns, after)[..|rows|] == rows
  {
    AfterAscending(log, ns, after, 0);
    assert forall x | x in rows :: x in After(log, ns, after);
  }

  /** Appending the next `k` rows of the query keeps the reader exact. */
  lemma ReadNext(log: seq<Row>, ns: string, from: nat, r: Reader, rows: seq<Row>)
    requires Read(log, ns, from, r) && Ascending(log) && rows <= After(log, ns, r.after)
    ensures Read(log, ns, from, r.(out := r.out + rows, after := MaxSequence(r.after, rows)))
  {
    PrefixOfQuery(log, ns, r.after, rows);
    MaxOfAscending(r.after, rows);
    hide Exactly, After, MaxSequence;
    var hi := MaxSequence(r.after, rows);
    PageExact(log, ns, r.after, |rows|, hi);
    ExactlyAppend(log, ns, from, r.after, hi, r.out, rows);
    assert rows != [] ==> rows[|rows| - 1] in log;
  }

  lemma ExactlyAppend(log: seq<Row>, ns: string, lo: nat, mid: nat, hi: nat, a: seq<Row>, b: seq<Row>)
    requires lo <= mid <= hi && Exactly(a, log, ns, lo, mid) && Exactly(b, log, ns, mid, hi)
    ensures Exactly(a + b, log, ns, lo, hi)
  {
    assert forall i | 0 <= i < |a| :: a[i] in a;
    assert forall i | 0 <= i < |b| :: b[i] in b;
  }

  lemma ConnectRead(utf8: Utf8, json: Json, encode: Row -> seq<byte>, text: Row -> string,
                    ns: string, from: nat, r: Reader, c: Connection)
    requires Faithful(utf8, json, encode, text)
    requires Read(c.log, ns, from, r) && ServesAfter(encode, ns, r.after, c)
    ensures Read(c.log, ns, from, Connect(Parser(utf8, json), r, c))
  {
    var parse := Parser(utf8, json);
    ChunkingIrrelevant(parse, r.(buffer := []), c.chunks);
    var got := Concat(c.chunks);
    assert [] + got == got;
    PrefixYieldsPrefix(utf8, json, encode, text, c.frames, got);
    ReadNext(c.log, ns, from, r, Emit(parse, got));
  }

  /**
   Across any number of disconnects, with any chunking and any partial lines lost, the output
   is the namespace's log in (from, after], where `after` is the cursor of the next request.
   */
  lemma {:induction false} ResumesWithoutGap(utf8: Utf8, json: Json, encode: Row -> seq<byte>, text: Row -> string,
                                             ns: string, from: nat, conns: seq<Connection>)
    requires Faithful(utf8, json, encode, text)
    requires Honest(Parser(utf8, json), encode, ns, from, conns)
    requires conns != []
    ensures var r, log := Session(Parser(utf8, json), from, conns), conns[|conns| - 1].log;
      && Read(log, ns, from, r)
      && r.out == Range(log, ns, from, r.after)
  {
    hide Read, Connect, Parser, Faithful;
    var parse := Parser(utf8, json);
    var front, c := conns[..|conns| - 1], conns[|conns| - 1];
    var r := Session(parse, from, front);
    if front == [] {
      NothingRead(c.log, ns, from);
    } else {
      ResumesWithoutGap(utf8, json, encode, text, ns, from, front);
      ReadLonger(front[|front| - 1].log, c.log, ns, from, r);
    }
    ConnectRead(utf8, json, encode, text, ns, from, r, c);
    ExactlyIsRange(Session(parse, from, conns).out, c.log, ns, from, Session(parse, from, conns).after);
  }

  /** A gap-free subscription opened at the cursor is such a server. */
  lemma SubscriptionServesAfter(home: string -> string, s: S.State)
    requires D.Inv(home, s)
    ensures s.sub.sent <= After(s.store.rows, s.sub.ns, s.sub.from)
  {
    D.InvGapFree(home, s);
    RangeIsPrefix(s.store.rows, s.sub.ns, s.sub.from, s.sub.lastSent);
  }

  lemma {:induction false} RangeIsPrefix(rows: seq<Row>, ns: string, lo: nat, hi: nat)
    requires Ascending(rows)
    ensures Range(rows, ns, lo, hi) <= After(rows, ns, lo)
  {
    if rows != [] {
      var front, last := rows[..|rows| - 1], rows[|rows| - 1];
      RangeIsPrefix(front, ns, lo, hi);
      if InRange(last, ns, lo, hi) {
        FilterCongruence(front, (x: Row) => InRange(x, ns, lo, hi), (x: Row) => x.namespace == ns && x.sequence > lo);
      }
    }
  }
}
