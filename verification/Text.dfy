/** Splitting text at a separator and joining it again. */
module Text {
  predicate Free(s: string, c: char) {
    c !in s
  }

  /** `str::split`: always at least one part. */
  function Split(s: string, c: char): (parts: seq<string>)
    ensures parts != []
  {
    if s == "" then [""]
    else
      var rest := Split(s[1..], c);
      if s[0] == c then [""] + rest else [[s[0]] + rest[0]] + rest[1..]
  }

  /** `[...].join`. */
  function Join(parts: seq<string>, c: char): (s: string) {
    if parts == [] then ""
    else if |parts| == 1 then parts[0]
    else parts[0] + [c] + Join(parts[1..], c)
  }

  /** The text before the first separator, and the text after it ("" when there is none). */
  function Head(s: string, c: char): (r: string) {
    Split(s, c)[0]
  }

  function Tail(s: string, c: char): (r: string) {
    if s == "" then "" else if s[0] == c then s[1..] else Tail(s[1..], c)
  }

  lemma {:induction false} SplitFree(s: string, c: char)
    requires Free(s, c)
    ensures Split(s, c) == [s]
  {
    if s != "" {
      SplitFree(s[1..], c);
      assert [s[0]] + s[1..] == s;
    }
  }

  lemma {:induction false} SplitConcat(a: string, b: string, c: char)
    requires Free(a, c)
    ensures Split(a + [c] + b, c) == [a] + Split(b, c)
    ensures Tail(a + [c] + b, c) == b
  {
    var s := a + [c] + b;
    if a == "" {
      assert s[1..] == b;
    } else {
      SplitConcat(a[1..], b, c);
      assert s[1..] == a[1..] + [c] + b;
      assert [a[0]] + a[1..] == a;
    }
  }

  /** Joining and splitting is the identity on non-empty lists of separator-free parts. */
  lemma {:induction false} SplitJoin(parts: seq<string>, c: char)
    requires parts != [] && forall p | p in parts :: Free(p, c)
    ensures Split(Join(parts, c), c) == parts
  {
    if |parts| == 1 {
      SplitFree(parts[0], c);
    } else {
      SplitJoin(parts[1..], c);
      SplitConcat(parts[0], Join(parts[1..], c), c);
      assert [parts[0]] + parts[1..] == parts;
    }
  }

  /** Parts are free of the separator, and of everything the text is free of. */
  lemma {:induction false} SplitParts(s: string, c: char)
    ensures forall p | p in Split(s, c) :: Free(p, c)
    ensures forall p, d | p in Split(s, c) && Free(s, d) :: Free(p, d)
  {
    if s != "" {
      SplitParts(s[1..], c);
      assert forall d :: Free(s, d) ==> Free(s[1..], d) && d != s[0];
      var rest := Split(s[1..], c);
      assert rest[0] in rest;
      assert forall p | p in rest[1..] :: p in rest;
    }
  }

  lemma {:induction false} JoinFree(parts: seq<string>, c: char, d: char)
    requires c != d && forall p | p in parts :: Free(p, d)
    ensures Free(Join(parts, c), d)
  {
    if |parts| > 1 {
      JoinFree(parts[1..], c, d);
      assert parts[0] in parts;
    } else if |parts| == 1 {
      assert parts[0] in parts;
    }
  }
}
