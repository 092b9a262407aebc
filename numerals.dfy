/**
  Decimal numerals: Python's `str(n)` and `f"{n:02d}"` for naturals, the
  value of a digit string, and `int(float(token))` restricted to plain
  decimal numerals (an optional sign, digits, an optional fractional part).
 */
module Numerals {

  import opened Wrappers
  import opened Text

  predicate IsDigit(c: char)
  {
    '0' <= c <= '9'
  }

  predicate AllDigits(s: string)
  {
    forall k :: 0 <= k < |s| ==> IsDigit(s[k])
  }

  function DigitValue(c: char): (d: nat)
    requires IsDigit(c)
    ensures d < 10
  {
    (c as int) - ('0' as int)
  }

  function DigitChar(d: nat): (c: char)
    requires d < 10
    ensures IsDigit(c) && DigitValue(c) == d
  {
    ('0' as int + d) as char
  }

  /** The value of a string of decimal digits, most significant first; `""` is 0. */
  function DigitsValue(s: string): nat
    requires AllDigits(s)
    decreases |s|
  {
    if s == "" then 0 else DigitsValue(s[..|s| - 1]) * 10 + DigitValue(s[|s| - 1])
  }

  /** `str(n)` for a natural number: decimal digits without leading zeros. */
  function NatToString(n: nat): (r: string)
    ensures r != "" && AllDigits(r)
    ensures r[0] == '0' ==> n == 0
    ensures n < 10 <==> |r| == 1
    decreases n
  {
    if n < 10 then [DigitChar(n)] else NatToString(n / 10) + [DigitChar(n % 10)]
  }

  /** Reading back the digits that `NatToString` writes gives the number. */
  lemma {:induction false} NatToStringRoundTrip(n: nat)
    ensures DigitsValue(NatToString(n)) == n
    decreases n
  {
    var s := NatToString(n);
    if n >= 10 {
      NatToStringRoundTrip(n / 10);
      assert s[..|s| - 1] == NatToString(n / 10);
    }
  }

  /** Two different naturals are never written the same way. */
  lemma NatToStringInjective(m: nat, n: nat)
    requires NatToString(m) == NatToString(n)
    ensures m == n
  {
    NatToStringRoundTrip(m);
    NatToStringRoundTrip(n);
  }

  /** `f"{n:02d}"`: at least two digits, zero-padded on the left. */
  function Pad2(n: nat): (r: string)
    ensures AllDigits(r) && |r| >= 2
    ensures n < 100 ==> |r| == 2
  {
    if n < 10 then "0" + NatToString(n) else NatToString(n)
  }

  /** Reading back `Pad2(n)` gives `n`. */
  lemma Pad2RoundTrip(n: nat)
    ensures DigitsValue(Pad2(n)) == n
  {
    NatToStringRoundTrip(n);
    if n < 10 {
      var s := Pad2(n);
      assert s[..1] == "0";
      assert DigitsValue(s[..1]) == 0;
    }
  }

  function Signed(negative: bool, v: nat): int
  {
    if negative then -(v as int) else v
  }

  /**
    `int(float(token))` where `token` is a plain decimal numeral of ASCII
    digits, `[+-]? digits [. digits?]` or `[+-]? . digits`: the exact integer
    part, with the sign. Python first rounds the numeral to the nearest double,
    so the two differ for numerals a double cannot hold exactly (the model does
    not round). Any other token makes Python's `float` raise `ValueError`,
    modelled as `None`.
   */
  function TruncatedDecimal(token: string): Option<int>
  {
    var negative := |token| > 0 && token[0] == '-';
    var body := if |token| > 0 && (token[0] == '-' || token[0] == '+') then token[1..] else token;
    match UnsignedDecimal(body)
    case None => None
    case Some(v) => Some(Signed(negative, v))
  }

  /** The integer part of an unsigned `digits [. digits?]` or `. digits`, if the text is one. */
  function UnsignedDecimal(body: string): Option<nat>
  {
    match IndexOf(body, ".")
    case None =>
      if body != "" && AllDigits(body) then Some(DigitsValue(body)) else None
    case Some(i) =>
      var whole := body[..i];
      var fraction := body[i + 1..];
      if AllDigits(whole) && AllDigits(fraction) && (whole != "" || fraction != "")
      then Some(DigitsValue(whole))
      else None
  }

  /** A token with a sign first is read as the sign applied to the numeral after it. */
  lemma TruncatedDecimalSign(numeral: string)
    requires numeral == "" || (numeral[0] != '-' && numeral[0] != '+')
    ensures TruncatedDecimal("-" + numeral) == if TruncatedDecimal(numeral).Some? then Some(-TruncatedDecimal(numeral).value) else None
    ensures TruncatedDecimal("+" + numeral) == TruncatedDecimal(numeral)
  {
    assert ("-" + numeral)[1..] == numeral;
    assert ("+" + numeral)[1..] == numeral;
  }

  /** A one-character mark that is not a digit never occurs inside a run of digits, whatever follows it. */
  lemma DigitsExclude(w: string, rest: string, mark: string)
    requires AllDigits(w) && |mark| == 1 && !IsDigit(mark[0])
    ensures forall k :: 0 <= k < |w| ==> !OccursAt(w + rest, mark, k)
    ensures !Contains(w, mark)
  {
    forall k | 0 <= k < |w| ensures !OccursAt(w + rest, mark, k) {
      assert (w + rest)[k..k + 1][0] == w[k];
    }
    forall k | 0 <= k < |w| ensures !OccursAt(w, mark, k) {
      assert w[k..k + 1][0] == w[k];
    }
  }

  /** The leftmost non-digit mark after a run of digits is the one right after it. */
  lemma MarkAfterDigits(w: string, mark: string, rest: string)
    requires AllDigits(w) && |mark| == 1 && !IsDigit(mark[0])
    ensures IndexOf(w + mark + rest, mark) == Some(|w|)
    ensures (w + mark + rest)[..|w|] == w && (w + mark + rest)[|w| + 1..] == rest
  {
    var t := w + mark + rest;
    DigitsExclude(w, mark + rest, mark);
    assert t == w + (mark + rest);
    assert OccursAt(t, mark, |w|);
  }

  /**
    A rendered natural followed by a fractional part reads back as that
    natural: the progress tool's `42.0` is 42.
   */
  lemma TruncatedDecimalOfRendered(n: nat, fraction: string)
    requires AllDigits(fraction)
    ensures TruncatedDecimal(NatToString(n) + "." + fraction) == Some(n)
  {
    NatToStringRoundTrip(n);
    MarkAfterDigits(NatToString(n), ".", fraction);
  }

  /** A rendered natural reads back as itself: `int(float("42"))` is 42. */
  lemma TruncatedDecimalOfNat(n: nat)
    ensures TruncatedDecimal(NatToString(n)) == Some(n)
  {
    NatToStringRoundTrip(n);
    DigitsExclude(NatToString(n), "", ".");
  }
}
