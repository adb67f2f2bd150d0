/** Text rendering of bug ids for the resolver's error message: a decimal
    numeral per id, and a list of ids written as a set literal `{10, 12}`. */
module Render {

  predicate IsDigit(c: char) {
    '0' <= c <= '9'
  }

  function DigitChar(d: nat): (c: char)
    requires d < 10
    ensures IsDigit(c)
  {
    "0123456789"[d]
  }

  function DigitValue(c: char): (d: nat)
    requires IsDigit(c)
    ensures d < 10
  {
    (c as int - '0' as int) as nat
  }

  /** The decimal numeral of `n`, without leading zeros. */
  function Decimal(n: nat): (s: string)
    ensures |s| > 0
    ensures forall i :: 0 <= i < |s| ==> IsDigit(s[i])
    ensures n > 0 ==> s[0] != '0'
  {
    if n < 10 then [DigitChar(n)] else Decimal(n / 10) + [DigitChar(n % 10)]
  }

  /** The value of a numeral made of decimal digits. */
  function ParseDecimal(s: string): nat
    requires forall i :: 0 <= i < |s| ==> IsDigit(s[i])
  {
    if s == [] then 0 else ParseDecimal(s[..|s| - 1]) * 10 + DigitValue(s[|s| - 1])
  }

  /** Reading back the numeral of `n` gives `n`, so distinct ids render distinctly. */
  lemma {:induction false} DecimalRoundTrip(n: nat)
    ensures ParseDecimal(Decimal(n)) == n
  {
    if n >= 10 {
      DecimalRoundTrip(n / 10);
      var s := Decimal(n);
      assert s[..|s| - 1] == Decimal(n / 10);
    }
  }

  /** The numerals of `ids`, separated by ", ". */
  function JoinIds(ids: seq<nat>): string {
    if ids == [] then ""
    else if |ids| == 1 then Decimal(ids[0])
    else Decimal(ids[0]) + ", " + JoinIds(ids[1..])
  }

  /** `ids` written the way a set of integers prints: braces around the
      comma-separated numerals. */
  function SetLiteral(ids: seq<nat>): (s: string)
    ensures |s| >= 2 && s[0] == '{' && s[|s| - 1] == '}'
    ensures s[1..|s| - 1] == JoinIds(ids)
  {
    "{" + JoinIds(ids) + "}"
  }
}
