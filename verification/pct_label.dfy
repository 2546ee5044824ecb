/** Decimal digit strings, as Python writes the integer part of a formatted float. */
module Decimal {

  predicate IsDigit(c: char)
  {
    '0' <= c <= '9'
  }

  predicate AllDigits(s: string)
  {
    forall i :: 0 <= i < |s| ==> IsDigit(s[i])
  }

  function DigitChar(d: nat): (c: char)
    requires d < 10
    ensures IsDigit(c)
  {
    (48 + d) as char
  }

  function DigitValue(c: char): (d: nat)
    requires IsDigit(c)
    ensures d < 10
  {
    c as int - 48
  }

  /** Decimal notation of `n`, no leading zeros. */
  function Show(n: nat): (s: string)
    ensures |s| >= 1 && AllDigits(s)
    ensures s[0] == '0' ==> n == 0
  {
    if n < 10 then [DigitChar(n)] else Show(n / 10) + [DigitChar(n % 10)]
  }

  /** The number a digit string denotes. */
  function Read(s: string): nat
    requires AllDigits(s)
  {
    if |s| == 0 then 0 else Read(s[..|s| - 1]) * 10 + DigitValue(s[|s| - 1])
  }

  lemma {:induction false} ReadShow(n: nat)
    ensures Read(Show(n)) == n
  {
    var s := Show(n);
    if n < 10 {
      assert s[..0] == [];
    } else {
      assert s[..|s| - 1] == Show(n / 10);
      ReadShow(n / 10);
    }
  }
}

/** `_fmt_pct`: the signed one-decimal percentage label drawn on the bars. */
module PctLabel {
  import opened Decimal

  /** A year-over-year change as pandas holds it: NaN, a finite float, or an infinity. */
  datatype Pct = Missing | Finite(value: real) | Infinite(negative: bool)

  /** Round to the nearest integer, ties to the even neighbour (Python's `format` rounding). */
  function RoundHalfEven(y: real): (r: int)
    ensures -0.5 <= r as real - y <= 0.5
    ensures (r as real - y == 0.5 || y - r as real == 0.5) ==> r % 2 == 0
  {
    var f := y.Floor;
    var frac := y - f as real;
    if frac < 0.5 then f
    else if frac > 0.5 then f + 1
    else if f % 2 == 0 then f
    else f + 1
  }

  function SignChar(negative: bool): char
  {
    if negative then '-' else '+'
  }

  /** `f"{x:+.1f}%"` for a finite `x`, or `""` when the value is missing. */
  function FmtPct(p: Pct): (s: string)
    ensures s == "" <==> p.Missing?
    ensures p.Finite? ==> WellFormed(s) && s[0] == SignChar(p.value < 0.0)
    ensures p.Infinite? ==> s == [SignChar(p.negative)] + "inf%"
  {
    match p
    case Missing => ""
    case Infinite(negative) => [SignChar(negative)] + "inf%"
    case Finite(x) =>
      var q: nat := RoundHalfEven(if x < 0.0 then -x * 10.0 else x * 10.0);
      [SignChar(x < 0.0)] + Show(q / 10) + "." + [DigitChar(q % 10)] + "%"
  }

  /** Shape of a finite label: explicit sign, integer digits, a point, one digit, `%`. */
  predicate WellFormed(s: string)
  {
    && |s| >= 5
    && (s[0] == '+' || s[0] == '-')
    && AllDigits(s[1..|s| - 3])
    && s[|s| - 3] == '.'
    && IsDigit(s[|s| - 2])
    && s[|s| - 1] == '%'
  }

  /** The number a well-formed label shows. */
  function LabelValue(s: string): real
    requires WellFormed(s)
  {
    var magnitude := Read(s[1..|s| - 3]) as real + DigitValue(s[|s| - 2]) as real / 10.0;
    if s[0] == '-' then -magnitude else magnitude
  }

  /** A finite label reads back as the value to within half of its last digit,
      with the sign of the value. */
  lemma LabelRoundTrip(x: real)
    ensures -0.05 <= LabelValue(FmtPct(Finite(x))) - x <= 0.05
  {
    var a := if x < 0.0 then -x * 10.0 else x * 10.0;
    var q: nat := RoundHalfEven(a);
    var digits := Show(q / 10);
    var s := [SignChar(x < 0.0)] + digits + "." + [DigitChar(q % 10)] + "%";
    assert s == FmtPct(Finite(x));
    assert |s| == |digits| + 4;
    assert s[1..|s| - 3] == digits by {
      assert forall k :: 0 <= k < |digits| ==> s[1 + k] == digits[k];
    }
    assert s[|s| - 2] == DigitChar(q % 10);
    ReadShow(q / 10);
    var m := (q / 10) as real + (q % 10) as real / 10.0;
    assert m * 10.0 == q as real;
    assert LabelValue(s) == if x < 0.0 then -m else m;
  }
}
