/**
 The client's fallback event-stream reader: bytes arrive in chunks, complete lines are
 drained from a buffer, and each `data:` line that parses is one mutation. The reader
 reconnects after the largest sequence it has seen.
 */
module EventStream {
  import opened MutationLog
  import opened Prelude

  type byte = x: nat | x < 256

  const NEWLINE: byte := 10

  /** `std::str::from_utf8` and the JSON parser. */
  type Utf8 = seq<byte> -> Option<string>
  type Json = string -> Option<Row>

  // ---- one line ----

  predicate IsWhitespace(c: char) {
    || '\t' <= c <= '\r' || c == ' ' || c == '\U{85}' || c == '\U{A0}' || c == '\U{1680}'
    || '\U{2000}' <= c <= '\U{200A}' || c == '\U{2028}' || c == '\U{2029}'
    || c == '\U{202F}' || c == '\U{205F}' || c == '\U{3000}'
  }

  function TrimStart(s: string): (r: string) {
    if s != "" && IsWhitespace(s[0]) then TrimStart(s[1..]) else s
  }

  function TrimEnd(s: string): (r: string) {
    if s != "" && IsWhitespace(s[|s| - 1]) then TrimEnd(s[..|s| - 1]) else s
  }

  function Trim(s: string): (r: string) {
    TrimEnd(TrimStart(s))
  }

  function LineRow(utf8: Utf8, json: Json, line: seq<byte>): (r: Option<Row>) {
    match utf8(line)
    case None => None
    case Some(s) =>
      var text := Trim(s);
      if "data:" <= text then json(Trim(text[5..])) else None
  }

  function LineRows(utf8: Utf8, json: Json, line: seq<byte>): (r: seq<Row>) {
    match LineRow(utf8, json, line)
    case None => []
    case Some(row) => [row]
  }

  /** What the reader makes of a complete line: at most one row. */
  type LineParser = seq<byte> -> seq<Row>

  function Parser(utf8: Utf8, json: Json): (parse: LineParser) {
    line => LineRows(utf8, json, line)
  }

  /** Text that trimming leaves alone. */
  predicate Solid(s: string) {
    s != "" && !IsWhitespace(s[0]) && !IsWhitespace(s[|s| - 1])
  }

  predicate Blank(s: string) {
    forall i | 0 <= i < |s| :: IsWhitespace(s[i])
  }

  lemma {:induction false} TrimStartBlank(pad: string, s: string)
    requires Blank(pad) && (s == "" || !IsWhitespace(s[0]))
    ensures TrimStart(pad + s) == s
  {
    if pad == "" {
      assert pad + s == s;
    } else {
      TrimStartBlank(pad[1..], s);
      assert (pad + s)[1..] == pad[1..] + s;
    }
  }

  lemma {:induction false} TrimEndBlank(s: string, pad: string)
    requires Blank(pad) && (s == "" || !IsWhitespace(s[|s| - 1]))
    ensures TrimEnd(s + pad) == s
  {
    if pad == "" {
      assert s + pad == s;
    } else {
      TrimEndBlank(s, pad[..|pad| - 1]);
      assert (s + pad)[..|s + pad| - 1] == s + pad[..|pad| - 1];
    }
  }

  lemma TrimPadded(before: string, s: string, after: string)
    requires Blank(before) && Blank(after) && Solid(s)
    ensures Trim(before + s + after) == s
  {
    assert before + s + after == before + (s + after);
    TrimStartBlank(before, s + after);
    TrimEndBlank(s, after);
  }

  /** A `data:` line gives what its text parses to, whatever white space surrounds tag and text. */
  lemma DataLine(utf8: Utf8, json: Json, line: seq<byte>, a: string, b: string, text: string, c: string)
    requires Blank(a) && Blank(b) && Blank(c) && Solid(text)
    requires utf8(line) == Some(a + ("data:" + b + text) + c)
    ensures LineRow(utf8, json, line) == json(text)
  {
    var s := "data:" + b + text;
    assert s[|s| - 1] == text[|text| - 1];
    TrimPadded(a, s, c);
    assert s[5..] == b + text + "";
    TrimPadded(b, text, "");
  }

  /** Any other line gives nothing. */
  lemma OtherLine(utf8: Utf8, json: Json, line: seq<byte>, a: string, text: string, c: string)
    requires Blank(a) && Blank(c) && Solid(text) && !("data:" <= text)
    requires utf8(line) == None || utf8(line) == Some(a + text + c)
    ensures LineRow(utf8, json, line) == None
  {
    TrimPadded(a, text, c);
  }

  // ---- splitting into lines ----

  /** Position of the first newline at or after `i`, or the length when there is none. */
  function NewlineFrom(bs: seq<byte>, i: nat): (p: nat)
    requires i <= |bs|
    ensures i <= p <= |bs|
    ensures p < |bs| ==> bs[p] == NEWLINE
    ensures forall k | i <= k < p :: bs[k] != NEWLINE
    decreases |bs| - i
  {
    if i == |bs| || bs[i] == NEWLINE then i else NewlineFrom(bs, i + 1)
  }

  function FirstNewline(bs: seq<byte>): (p: nat)
    ensures p <= |bs|
  {
    NewlineFrom(bs, 0)
  }

  /** The rows of the complete lines of `bs`. */
  function Emit(parse: LineParser, bs: seq<byte>): (r: seq<Row>)
    decreases |bs|
  {
    var p := FirstNewline(bs);
    if p == |bs| then [] else parse(bs[..p + 1]) + Emit(parse, bs[p + 1..])
  }

  /** The partial line after the last newline. */
  function Rest(bs: seq<byte>): (r: seq<byte>)
    decreases |bs|
  {
    var p := FirstNewline(bs);
    if p == |bs| then bs else Rest(bs[p + 1..])
  }

  lemma FirstNewlineUnique(bs: seq<byte>, p: nat)
    requires p < |bs| && bs[p] == NEWLINE
    requires forall i | 0 <= i < p :: bs[i] != NEWLINE
    ensures FirstNewline(bs) == p
  {
  }

  lemma SplitConcat(a: seq<byte>, b: seq<byte>, p: nat)
    requires p <= |a|
    ensures (a + b)[..p] == a[..p] && (a + b)[p..] == a[p..] + b
  {
  }

  lemma EmitLine(parse: LineParser, a: seq<byte>, b: seq<byte>, p: nat)
    requires p == FirstNewline(a) < |a|
    ensures Emit(parse, a + b) == parse(a[..p + 1]) + Emit(parse, a[p + 1..] + b)
    ensures Rest(a + b) == Rest(a[p + 1..] + b)
  {
    FirstNewlineUnique(a + b, p);
    SplitConcat(a, b, p + 1);
  }

  /** Reading `a` and then `b` is reading them at once. */
  lemma {:induction false} EmitConcat(parse: LineParser, a: seq<byte>, b: seq<byte>)
    ensures Emit(parse, a + b) == Emit(parse, a) + Emit(parse, Rest(a) + b)
    ensures Rest(a + b) == Rest(Rest(a) + b)
    decreases |a|
  {
    var p := FirstNewline(a);
    if p < |a| {
      EmitLine(parse, a, b, p);
      EmitConcat(parse, a[p + 1..], b);
    }
  }

  // ---- the reader ----

  datatype Reader = Reader(buffer: seq<byte>, after: nat, out: seq<Row>)

  function MaxSequence(after: nat, rows: seq<Row>): (m: nat)
    ensures m >= after
  {
    if rows == [] then after
    else
      var m := MaxSequence(after, rows[..|rows| - 1]);
      if m < rows[|rows| - 1].sequence then rows[|rows| - 1].sequence else m
  }

  /** Everything the buffered lines give. */
  function Drain(parse: LineParser, r: Reader): (r': Reader) {
    var rows := Emit(parse, r.buffer);
    Reader(Rest(r.buffer), MaxSequence(r.after, rows), r.out + rows)
  }

  function Feed(parse: LineParser, r: Reader, chunk: seq<byte>): (r': Reader) {
    Drain(parse, r.(buffer := r.buffer + chunk))
  }

  function FeedAll(parse: LineParser, r: Reader, chunks: seq<seq<byte>>): (r': Reader) {
    if chunks == [] then r
    else Feed(parse, FeedAll(parse, r, chunks[..|chunks| - 1]), chunks[|chunks| - 1])
  }

  function Concat(chunks: seq<seq<byte>>): (r: seq<byte>) {
    if chunks == [] then [] else Concat(chunks[..|chunks| - 1]) + chunks[|chunks| - 1]
  }

  lemma {:induction false} MaxSequenceConcat(after: nat, a: seq<Row>, b: seq<Row>)
    ensures MaxSequence(after, a + b) == MaxSequence(MaxSequence(after, a), b)
  {
    if b == [] {
      assert a + b == a;
    } else {
      MaxSequenceConcat(after, a, b[..|b| - 1]);
      assert (a + b)[..|a + b| - 1] == a + b[..|b| - 1];
    }
  }

  /** A buffer between chunks holds no newline. */
  lemma {:induction false} RestHasNoNewline(bs: seq<byte>)
    ensures FirstNewline(Rest(bs)) == |Rest(bs)|
    decreases |bs|
  {
    if FirstNewline(bs) < |bs| {
      RestHasNoNewline(bs[FirstNewline(bs) + 1..]);
    }
  }

  lemma FeedConcat(parse: LineParser, r: Reader, a: seq<byte>, b: seq<byte>)
    ensures Feed(parse, Feed(parse, r, a), b) == Feed(parse, r, a + b)
  {
    assert r.buffer + (a + b) == r.buffer + a + b;
    FeedSplit(parse, r, r.buffer + a, b);
  }

  lemma FeedSplit(parse: LineParser, r: Reader, a: seq<byte>, b: seq<byte>)
    ensures var first, second := Emit(parse, a), Emit(parse, Rest(a) + b);
      && r.out + Emit(parse, a + b) == r.out + first + second
      && Rest(a + b) == Rest(Rest(a) + b)
      && MaxSequence(r.after, Emit(parse, a + b)) == MaxSequence(MaxSequence(r.after, first), second)
  {
    hide Emit, Rest, MaxSequence;
    EmitConcat(parse, a, b);
    MaxSequenceConcat(r.after, Emit(parse, a), Emit(parse, Rest(a) + b));
  }

  /** What the reader has emitted, and its cursor, do not depend on how the bytes were cut. */
  lemma {:induction false} ChunkingIrrelevant(parse: LineParser, r: Reader, chunks: seq<seq<byte>>)
    requires FirstNewline(r.buffer) == |r.buffer|
    ensures FeedAll(parse, r, chunks) == Feed(parse, r, Concat(chunks))
  {
    if chunks == [] {
      assert r.buffer + [] == r.buffer;
    } else {
      ChunkingIrrelevant(parse, r, chunks[..|chunks| - 1]);
      FeedConcat(parse, r, Concat(chunks[..|chunks| - 1]), chunks[|chunks| - 1]);
    }
  }

  /** Draining one line. */
  lemma DrainLine(parse: LineParser, r: Reader, line: seq<byte>, rest: seq<byte>)
    requires FirstNewline(r.buffer) < |r.buffer|
    requires line == r.buffer[..FirstNewline(r.buffer) + 1] && rest == r.buffer[FirstNewline(r.buffer) + 1..]
    ensures Drain(parse, r) == Drain(parse, Reader(rest, MaxSequence(r.after, parse(line)), r.out + parse(line)))
  {
    MaxSequenceConcat(r.after, parse(line), Emit(parse, rest));
  }

  /** The reading loop: the buffer is extended by a chunk and drained line by line. */
  class StreamReader {
    const utf8: Utf8
    const json: Json
    var buffer: seq<byte>
    var after: nat
    var out: seq<Row>

    constructor (utf8: Utf8, json: Json, from: nat)
      ensures this.utf8 == utf8 && this.json == json
      ensures Value() == Reader([], from, [])
    {
      this.utf8, this.json := utf8, json;
      buffer, after, out := [], from, [];
    }

    ghost function Value(): Reader
      reads this
    {
      Reader(buffer, after, out)
    }

    method HandleLine(line: seq<byte>)
      modifies this`after, this`out
      ensures out == old(out) + LineRows(utf8, json, line)
      ensures after == MaxSequence(old(after), LineRows(utf8, json, line))
    {
      var row := LineRow(utf8, json, line);
      if row.Some? {
        after := if after < row.value.sequence then row.value.sequence else after;
        out := out + [row.value];
      }
    }

    method FeedChunk(chunk: seq<byte>)
      modifies this
      ensures Value() == Feed(Parser(utf8, json), old(Value()), chunk)
    {
      ghost var parse := Parser(utf8, json);
      buffer := buffer + chunk;
      while FirstNewline(buffer) < |buffer|
        invariant Drain(parse, Value()) == Feed(parse, old(Value()), chunk)
        decreases |buffer|
      {
        var pos := FirstNewline(buffer);
        var line, rest := buffer[..pos + 1], buffer[pos + 1..];
        DrainLine(parse, Value(), line, rest);
        buffer := rest;
        HandleLine(line);
      }
    }

    /** A new connection starts with an empty buffer; a partial line is lost. */
    method Reconnect()
      modifies this
      ensures Value() == old(Value()).(buffer := [])
    {
      buffer := [];
    }
  }
}
