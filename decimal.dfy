/** Rust's `str::parse::<u64>` (the `FromStr` of an unsigned 64-bit integer),
    as used to read the `timeout` parameter, and decimal rendering as its inverse. */
module Decimal {
  import opened Wrappers

  const U64Bound: nat := 0x1_0000_0000_0000_0000

  newtype u64 = x: int | 0 <= x < 0x1_0000_0000_0000_0000

  predicate IsDigit(c: char) { '0' <= c <= '9' }

  function DigitValue(c: char): (d: nat)
    requires IsDigit(c)
    ensures d < 10
  {
    c as int - '0' as int
  }

  function DigitChar(d: nat): (c: char)
    requires d < 10
    ensures IsDigit(c) && DigitValue(c) == d
  {
    ('0' as int + d) as char
  }

  predicate AllDigits(s: string) { forall i :: 0 <= i < |s| ==> IsDigit(s[i]) }

  /** The number a digit string denotes, most significant digit first. */
  function DigitsValue(s: string): nat
    requires AllDigits(s)
  {
    if s == [] then 0 else DigitsValue(s[..|s| - 1]) * 10 + DigitValue(s[|s| - 1])
  }

  /** The part of the text after an optional leading '+'. */
  function Unsigned(s: string): string
  {
    if |s| > 0 && s[0] == '+' then s[1..] else s
  }

  /** What `u64::from_str` accepts: an optional '+', then at least one ASCII digit,
      denoting a number below 2^64. No '-', no whitespace, no other sign. */
  predicate IsU64Literal(s: string)
  {
    var digits := Unsigned(s);
    |digits| > 0 && AllDigits(digits) && DigitsValue(digits) < U64Bound
  }

  /** Reads digits left to right as `u64::from_str` does: multiply by ten and add,
      failing on a non-digit or as soon as the running value leaves the u64 range. */
  function Accumulate(acc: u64, s: string): Option<u64>
    decreases |s|
  {
    if s == [] then Some(acc)
    else if !IsDigit(s[0]) then None
    else
      var next := acc as int * 10 + DigitValue(s[0]);
      if next >= U64Bound then None else Accumulate(next as u64, s[1..])
  }

  lemma ValueMonotone(p: string, q: string)
    requires AllDigits(p + q)
    ensures AllDigits(p) && DigitsValue(p) <= DigitsValue(p + q)
    decreases |q|
  {
    assert forall i :: 0 <= i < |p| ==> p[i] == (p + q)[i];
    if q != [] {
      var q' := q[..|q| - 1];
      assert (p + q)[..|p + q| - 1] == p + q';
      assert forall i :: 0 <= i < |p + q'| ==> (p + q')[i] == (p + q)[i];
      ValueMonotone(p, q');
    } else {
      assert p + q == p;
    }
  }

  /** Accumulating the digits of `s` after those of `p` gives the value of `p + s`,
      or fails exactly when `p + s` has a non-digit or is too large. */
  lemma {:induction false} AccumulateCorrect(p: string, s: string)
    requires AllDigits(p) && DigitsValue(p) < U64Bound
    ensures Accumulate(DigitsValue(p) as u64, s) ==
            if AllDigits(p + s) && DigitsValue(p + s) < U64Bound then Some(DigitsValue(p + s) as u64) else None
    decreases |s|
  {
    if s == [] {
      assert p + s == p;
    } else if !IsDigit(s[0]) {
      assert (p + s)[|p|] == s[0];
    } else {
      var p' := p + [s[0]];
      assert p'[..|p'| - 1] == p;
      assert p' + s[1..] == p + s;
      assert AllDigits(p') by {
        forall i | 0 <= i < |p'| ensures IsDigit(p'[i]) {
          if i < |p| { assert p'[i] == p[i]; }
        }
      }
      if DigitsValue(p') >= U64Bound {
        if AllDigits(p + s) {
          ValueMonotone(p', s[1..]);
        }
      } else {
        AccumulateCorrect(p', s[1..]);
      }
    }
  }

  /** `str::parse::<u64>`: `None` is the `Err` that the caller turns into a panic. */
  function ParseU64(s: string): (r: Option<u64>)
    ensures r.Some? <==> IsU64Literal(s)
    ensures r.Some? ==> r.value as int == DigitsValue(Unsigned(s))
  {
    if s == [] || s == "+" || s == "-" then None
    else
      var digits := if s[0] == '+' then s[1..] else s;
      AccumulateCorrect([], digits);
      assert [] + digits == digits;
      Accumulate(0, digits)
  }

  /** Decimal rendering of a natural number, without sign or leading zeros. */
  function Render(n: nat): (s: string)
    ensures |s| > 0 && AllDigits(s) && DigitsValue(s) == n
    decreases n
  {
    if n < 10 then [DigitChar(n)]
    else
      var init := Render(n / 10);
      var s := init + [DigitChar(n % 10)];
      assert s[..|s| - 1] == init;
      s
  }

  /** Parsing inverts rendering on the whole u64 range, with or without a '+'
      sign, and a rendered number of 2^64 or more is refused rather than wrapped. */
  lemma ParseRender(n: nat)
    ensures ParseU64(Render(n)) == if n < U64Bound then Some(n as u64) else None
    ensures ParseU64("+" + Render(n)) == ParseU64(Render(n))
  {
  }

  /** A leading '-' is refused, even on "-0", as is surrounding whitespace. */
  lemma ParseRejectsSignAndSpace(s: string)
    ensures ParseU64("-" + s).None?
    ensures ParseU64(" " + s).None?
    ensures ParseU64(s + " ").None?
  {
  }
}
