/** Decimal text of unsigned integers, as the bus and the stream ids use it. */
module Decimal {
  import opened Prelude

  predicate IsDigit(c: char) {
    '0' <= c <= '9'
  }

  predicate AllDigits(s: string) {
    forall i | 0 <= i < |s| :: IsDigit(s[i])
  }

  function DigitChar(d: nat): (c: char)
    requires d < 10
    ensures IsDigit(c)
  {
    '0' + d as char
  }

  function DigitValue(c: char): (d: nat)
    requires IsDigit(c)
    ensures d < 10
  {
    c as int - '0' as int
  }

  function Print(n: nat): (s: string)
    ensures s != "" && AllDigits(s)
  {
    if n < 10 then [DigitChar(n)] else Print(n / 10) + [DigitChar(n % 10)]
  }

  function NumberOf(s: string): (n: nat)
    requires AllDigits(s)
  {
    if s == "" then 0 else 10 * NumberOf(s[..|s| - 1]) + DigitValue(s[|s| - 1])
  }

  /** `str::parse` of an unsigned type below `bound`: an optional plus sign, then digits, no overflow. */
  function ParseUnsigned(s: string, bound: nat): (r: Option<nat>)
    ensures r.Some? ==> r.value < bound
  {
    var digits := if s != "" && s[0] == '+' then s[1..] else s;
    if digits != "" && AllDigits(digits) && NumberOf(digits) < bound then Some(NumberOf(digits)) else None
  }

  /** `parse().unwrap_or(default)`. */
  function ParseOr(s: string, bound: nat, default: nat): (n: nat)
    requires default < bound
    ensures n < bound
  {
    match ParseUnsigned(s, bound)
    case Some(n) => n
    case None => default
  }

  lemma {:induction false} NumberOfPrint(n: nat)
    ensures NumberOf(Print(n)) == n
  {
    if n >= 10 {
      NumberOfPrint(n / 10);
      assert Print(n)[..|Print(n)| - 1] == Print(n / 10);
    }
  }

  /** Printing and parsing is the identity on every value of the type. */
  lemma ParsePrint(n: nat, bound: nat, default: nat)
    requires n < bound && default < bound
    ensures ParseUnsigned(Print(n), bound) == Some(n)
    ensures ParseOr(Print(n), bound, default) == n
  {
    NumberOfPrint(n);
  }

  /** A plus sign is accepted; an empty text, any other sign and a number at or above the bound are not. */
  lemma ParsesExactly(n: nat, bound: nat, s: string)
    ensures ParseUnsigned("+" + Print(n), bound) == if n < bound then Some(n) else None
    ensures ParseUnsigned(Print(n), bound) == if n < bound then Some(n) else None
    ensures ParseUnsigned("", bound) == None && ParseUnsigned("+", bound) == None
    ensures ParseUnsigned("-" + s, bound) == None && (!AllDigits(s) ==> ParseUnsigned("+" + s, bound) == None)
  {
    NumberOfPrint(n);
    assert ("+" + Print(n))[1..] == Print(n) && ("+" + s)[1..] == s;
    assert Print(n)[0] != '+' && !IsDigit(("-" + s)[0]);
  }
}
