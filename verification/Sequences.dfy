/**
 Filtering and de-duplication of finite sequences, shared by the log, the
 oplog and the stream models.
 */
module Sequences {

  /** The elements of `xs` that satisfy `p`, in order. */
  function Filter<T>(xs: seq<T>, p: T -> bool): (r: seq<T>)
    ensures forall x | x in r :: x in xs && p(x)
    ensures forall x | x in xs && p(x) :: x in r
    ensures |r| <= |xs|
  {
    if xs == [] then []
    else
      var rest := Filter(xs[..|xs| - 1], p);
      if p(xs[|xs| - 1]) then rest + [xs[|xs| - 1]] else rest
  }

  lemma FilterNone<T>(p: T -> bool)
    ensures Filter([], p) == []
  {
  }

  /** Filtering one element more. */
  lemma FilterSnoc<T>(xs: seq<T>, x: T, p: T -> bool)
    ensures Filter(xs + [x], p) == if p(x) then Filter(xs, p) + [x] else Filter(xs, p)
  {
    SnocPrefix(xs, x);
  }

  lemma FilterStep<T>(xs: seq<T>, i: nat, p: T -> bool)
    requires i < |xs|
    ensures Filter(xs[..i + 1], p) == if p(xs[i]) then Filter(xs[..i], p) + [xs[i]] else Filter(xs[..i], p)
  {
    PrefixSnoc(xs, i);
    FilterSnoc(xs[..i], xs[i], p);
  }

  lemma ConcatSnoc<T>(xs: seq<T>, ys: seq<T>)
    requires ys != []
    ensures xs + ys == (xs + ys[..|ys| - 1]) + [ys[|ys| - 1]]
  {
  }

  lemma {:induction false} FilterConcat<T>(xs: seq<T>, ys: seq<T>, p: T -> bool)
    ensures Filter(xs + ys, p) == Filter(xs, p) + Filter(ys, p)
  {
    if ys == [] {
      assert xs + ys == xs;
    } else {
      var front, last := ys[..|ys| - 1], ys[|ys| - 1];
      FilterConcat(xs, front, p);
      ConcatSnoc(xs, ys);
      FilterSnoc(xs + front, last, p);
      Reassociate(Filter(xs, p), Filter(front, p), last);
    }
  }

  lemma Reassociate<T>(a: seq<T>, b: seq<T>, x: T)
    ensures a + b + [x] == a + (b + [x])
  {
  }

  lemma {:induction false} FilterCongruence<T>(xs: seq<T>, p: T -> bool, q: T -> bool)
    requires forall x | x in xs :: p(x) == q(x)
    ensures Filter(xs, p) == Filter(xs, q)
  {
    if xs != [] {
      FilterCongruence(xs[..|xs| - 1], p, q);
    }
  }

  /** Filtering twice is filtering by the conjunction. */
  lemma {:induction false} FilterTwice<T>(xs: seq<T>, p: T -> bool, q: T -> bool, both: T -> bool)
    requires forall x | x in xs :: both(x) == (p(x) && q(x))
    ensures Filter(Filter(xs, p), q) == Filter(xs, both)
  {
    if xs != [] {
      var front, last := xs[..|xs| - 1], xs[|xs| - 1];
      FilterTwice(front, p, q, both);
      if p(last) {
        FilterConcat(Filter(front, p), [last], q);
      }
    }
  }

  /** A filter that keeps nothing, and one that keeps everything. */
  lemma {:induction false} FilterExtremes<T>(xs: seq<T>, p: T -> bool)
    ensures (forall x | x in xs :: !p(x)) ==> Filter(xs, p) == []
    ensures (forall x | x in xs :: p(x)) ==> Filter(xs, p) == xs
    ensures |Filter(xs, p)| == |xs| ==> Filter(xs, p) == xs
  {
    if xs != [] {
      FilterExtremes(xs[..|xs| - 1], p);
      assert xs == xs[..|xs| - 1] + [xs[|xs| - 1]];
    }
  }

  /** Replacing an element by one that the filter drops is dropping the element. */
  lemma FilterReplaced<T>(xs: seq<T>, k: nat, x: T, p: T -> bool, q: T -> bool)
    requires k < |xs| && !p(x) && !q(xs[k])
    requires forall i | 0 <= i < |xs| && i != k :: p(xs[i]) == q(xs[i])
    ensures Filter(xs[k := x], p) == Filter(xs, q)
  {
    var a, b := xs[..k], xs[k + 1..];
    ReplaceSplit(xs, k, x);
    FilterConcat(a + [xs[k]], b, q);
    FilterSnoc(a, xs[k], q);
    FilterConcat(a + [x], b, p);
    FilterSnoc(a, x, p);
    FilterCongruence(a, p, q);
    FilterCongruence(b, p, q);
  }

  /** Replacing an element by one that the filter treats alike keeps the count. */
  lemma FilterReplacedAlike<T>(xs: seq<T>, k: nat, x: T, p: T -> bool)
    requires k < |xs| && p(x) == p(xs[k])
    ensures |Filter(xs[k := x], p)| == |Filter(xs, p)|
  {
    var a, b := xs[..k], xs[k + 1..];
    ReplaceSplit(xs, k, x);
    FilterConcat(a + [xs[k]], b, p);
    FilterConcat(a + [x], b, p);
    FilterSnoc(a, xs[k], p);
    FilterSnoc(a, x, p);
  }

  /** A filter splits by any condition. */
  lemma {:induction false} FilterSplits<T>(xs: seq<T>, p: T -> bool, yes: T -> bool, no: T -> bool)
    requires forall x | x in xs :: p(x) == (yes(x) || no(x)) && !(yes(x) && no(x))
    ensures |Filter(xs, p)| == |Filter(xs, yes)| + |Filter(xs, no)|
  {
    if xs != [] {
      FilterSplits(xs[..|xs| - 1], p, yes, no);
    }
  }

  /** Two elements that pass make two that are kept. */
  lemma {:induction false} FilterTwo<T>(xs: seq<T>, i: nat, j: nat, p: T -> bool)
    requires i < j < |xs| && p(xs[i]) && p(xs[j])
    ensures |Filter(xs, p)| >= 2
  {
    var front := xs[..|xs| - 1];
    if j < |front| {
      FilterTwo(front, i, j, p);
    } else {
      assert front[i] in front;
    }
  }

  lemma ReplaceSplit<T>(xs: seq<T>, k: nat, x: T)
    requires k < |xs|
    ensures xs == xs[..k] + [xs[k]] + xs[k + 1..]
    ensures xs[k := x] == xs[..k] + [x] + xs[k + 1..]
  {
  }

  lemma PrefixSnoc<T>(xs: seq<T>, i: nat)
    requires i < |xs|
    ensures xs[..i + 1] == xs[..i] + [xs[i]]
  {
  }

  lemma SnocPrefix<T>(xs: seq<T>, x: T)
    ensures (xs + [x])[..|xs|] == xs
  {
  }

  /** The elements of `xs` occur in `ys` in order. */
  ghost predicate Subsequence<T>(xs: seq<T>, ys: seq<T>)
    decreases |ys|
  {
    xs == [] ||
    (ys != [] &&
     var x, y := |xs| - 1, |ys| - 1;
     (Subsequence(xs, ys[..y]) || (xs[x] == ys[y] && Subsequence(xs[..x], ys[..y]))))
  }

  lemma NothingIsSubsequence<T>(ys: seq<T>)
    ensures Subsequence([], ys)
  {
  }

  lemma SubsequenceSnoc<T>(xs: seq<T>, ys: seq<T>, y: T)
    requires Subsequence(xs, ys)
    ensures Subsequence(xs, ys + [y]) && Subsequence(xs + [y], ys + [y])
  {
    SnocPrefix(xs, y);
    SnocPrefix(ys, y);
  }

  lemma {:induction false} SubsequenceTransitive<T>(xs: seq<T>, ys: seq<T>, zs: seq<T>)
    requires Subsequence(xs, ys) && Subsequence(ys, zs)
    ensures Subsequence(xs, zs)
    decreases |zs|
  {
    if xs != [] {
      var x, y, z := |xs| - 1, |ys| - 1, |zs| - 1;
      if Subsequence(ys, zs[..z]) {
        SubsequenceTransitive(xs, ys, zs[..z]);
      } else if Subsequence(xs, ys[..y]) {
        SubsequenceTransitive(xs, ys[..y], zs[..z]);
      } else {
        SubsequenceTransitive(xs[..x], ys[..y], zs[..z]);
      }
    }
  }

  lemma {:induction false} FilterIsSubsequence<T>(xs: seq<T>, p: T -> bool)
    ensures Subsequence(Filter(xs, p), xs)
  {
    if xs != [] {
      FilterIsSubsequence(xs[..|xs| - 1], p);
      SnocPrefix(Filter(xs[..|xs| - 1], p), xs[|xs| - 1]);
    }
  }

  lemma {:induction false} FilterSubsequence<T>(xs: seq<T>, ys: seq<T>, p: T -> bool)
    requires Subsequence(xs, ys)
    ensures Subsequence(Filter(xs, p), Filter(ys, p))
    decreases |ys|
  {
    if xs != [] {
      var x, y := |xs| - 1, |ys| - 1;
      SnocPrefix(Filter(ys[..y], p), ys[y]);
      if Subsequence(xs, ys[..y]) {
        FilterSubsequence(xs, ys[..y], p);
      } else {
        FilterSubsequence(xs[..x], ys[..y], p);
        SnocPrefix(Filter(xs[..x], p), xs[x]);
      }
    }
  }

  predicate Distinct<T(==)>(xs: seq<T>) {
    forall i, j | 0 <= i < j < |xs| :: xs[i] != xs[j]
  }

  function Map<S, T>(xs: seq<S>, f: S -> T): (r: seq<T>)
    ensures |r| == |xs|
    ensures forall i | 0 <= i < |xs| :: r[i] == f(xs[i])
  {
    seq(|xs|, i requires 0 <= i < |xs| => f(xs[i]))
  }
}
