/** Decimal rendering of an integer, as Java's string concatenation renders an `Integer`,
    and the reading back of such a rendering. */
module Decimal {
  import opened Wrappers

  predicate IsDigit(ch: char) {
    '0' <= ch <= '9'
  }

  predicate AllDigits(s: string) {
    forall i :: 0 <= i < |s| ==> IsDigit(s[i])
  }

  function DigitChar(d: nat): (ch: char)
    requires d < 10
    ensures IsDigit(ch)
    ensures (ch as int) - ('0' as int) == d
  {
    (('0' as int) + d) as char
  }

  /** The decimal digits of `n`, most significant first, without leading zeros. */
  function NatToString(n: nat): (s: string)
    ensures |s| >= 1
    ensures AllDigits(s)
    ensures s[0] == '0' ==> n == 0
    decreases n
  {
    if n < 10 then [DigitChar(n)] else NatToString(n / 10) + [DigitChar(n % 10)]
  }

  /** `Integer.toString`: a minus sign before the digits of a negative value. */
  function IntToString(v: int): (s: string)
    ensures |s| >= 1
    ensures v < 0 <==> s[0] == '-'
  {
    if v < 0 then "-" + NatToString(-v) else NatToString(v)
  }

  /** The value of a string of decimal digits. */
  function DigitsValue(s: string): nat
    requires AllDigits(s)
  {
    if |s| == 0 then 0 else DigitsValue(s[..|s| - 1]) * 10 + ((s[|s| - 1] as int) - ('0' as int))
  }

  /** The length of the longest all-digit prefix of `s`. */
  function LeadingDigits(s: string): (k: nat)
    ensures k <= |s|
    ensures AllDigits(s[..k])
    ensures k < |s| ==> !IsDigit(s[k])
  {
    if |s| == 0 || !IsDigit(s[0]) then 0 else 1 + LeadingDigits(s[1..])
  }

  /** Reads an optionally signed decimal number from the front of `s`; returns the number
      and the rest of the string, or `None` when no digit follows. */
  function ParseIntPrefix(s: string): (r: Option<(int, string)>)
  {
    var neg := |s| > 0 && s[0] == '-';
    var body := if neg then s[1..] else s;
    var k := LeadingDigits(body);
    if k == 0 then None
    else
      var n: int := DigitsValue(body[..k]);
      var v := if neg then 0 - n else n;
      Some((v, body[k..]))
  }

  lemma {:induction false} NatToStringValue(n: nat)
    ensures DigitsValue(NatToString(n)) == n
    decreases n
  {
    var s := NatToString(n);
    if n >= 10 {
      NatToStringValue(n / 10);
      assert s[..|s| - 1] == NatToString(n / 10);
    }
  }

  /** The digit run of `digits + rest` stops where `rest` begins when `rest` opens with a
      non-digit. */
  lemma {:induction false} LeadingDigitsOfConcat(digits: string, rest: string)
    requires AllDigits(digits)
    requires |rest| > 0 && !IsDigit(rest[0])
    ensures LeadingDigits(digits + rest) == |digits|
    decreases |digits|
  {
    if |digits| > 0 {
      assert (digits + rest)[1..] == digits[1..] + rest;
      LeadingDigitsOfConcat(digits[1..], rest);
    } else {
      assert digits + rest == rest;
    }
  }

  /** A rendered integer followed by text that opens with a non-digit reads back as that
      integer and that text. */
  lemma {:induction false} IntToStringParses(v: int, rest: string)
    requires |rest| > 0 && !IsDigit(rest[0])
    ensures ParseIntPrefix(IntToString(v) + rest) == Some((v, rest))
  {
    var m: nat := if v < 0 then -v else v;
    var digits := NatToString(m);
    var s := IntToString(v) + rest;
    var body := if v < 0 then s[1..] else s;
    assert body == digits + rest;
    LeadingDigitsOfConcat(digits, rest);
    assert body[..|digits|] == digits;
    assert body[|digits|..] == rest;
    NatToStringValue(m);
  }
}
