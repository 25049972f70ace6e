/** JavaScript's `parseInt(x, 10)` and `parseFloat(x)` as the page applies
    them to record fields. Numbers are exact: a finite result is a `real`. */
module JsNumber {
  import opened Wrappers
  import opened JsText

  /** A JavaScript number as far as the page can observe it. */
  datatype Num = Finite(value: real) | Infinite(negative: bool) | NaN

  /** The value of the longest run of decimal digits at the start of
      `body`, or `None` when it does not start with a digit. */
  function LeadingNat(body: string): Option<nat> {
    var n := DigitRun(body);
    if n == 0 then None else Some(DigitsValue(body[..n]))
  }

  /** One optional sign, then the leading digits. */
  function SignedLeadingInt(t: string): Option<int> {
    if |t| > 0 && t[0] == '-' then
      match LeadingNat(t[1..])
      case None => None
      case Some(n) => Some(-(n as int))
    else if |t| > 0 && t[0] == '+' then
      match LeadingNat(t[1..])
      case None => None
      case Some(n) => Some(n as int)
    else
      match LeadingNat(t)
      case None => None
      case Some(n) => Some(n as int)
  }

  /** `parseInt(v, 10)`: leading white space is skipped, one optional sign is
      read, then the longest run of decimal digits; no digits gives `NaN`
      (here `None`), as does an absent field (`String(undefined)`). */
  function ParseInt(v: Option<string>): Option<int> {
    match v
    case None => None
    case Some(s) => SignedLeadingInt(TrimStart(s))
  }

  /** The leading digits of a numeral followed by a non-digit are the numeral. */
  lemma LeadingNatOfNumeral(n: nat, rest: string)
    requires rest == [] || !IsDigit(rest[0])
    ensures LeadingNat(NatToString(n) + rest) == Some(n)
  {
    var d := NatToString(n);
    DigitsValueOfNatToString(n);
    DigitRunOf(d, rest);
    assert (d + rest)[..|d|] == d;
  }

  /** Only white space before a text that starts with a non-space is skipped. */
  lemma TrimStartOfSpaces(ws: string, x: string)
    requires forall i :: 0 <= i < |ws| ==> IsJsSpace(ws[i])
    requires x != [] && !IsJsSpace(x[0])
    ensures TrimStart(ws + x) == x
  {
    TrimStartBefore(ws, x);
  }

  /** `parseInt` reads back a decimal numeral with optional leading white space
      and any trailing text that does not start with a digit. */
  lemma ParseIntOfDecimal(ws: string, n: nat, rest: string)
    requires forall i :: 0 <= i < |ws| ==> IsJsSpace(ws[i])
    requires rest == [] || !IsDigit(rest[0])
    ensures ParseInt(Some(ws + NatToString(n) + rest)) == Some(n)
  {
    var d := NatToString(n);
    var x := d + rest;
    assert x[0] == d[0] && IsDigit(x[0]);
    Regroup(ws, d, rest);
    TrimStartOfSpaces(ws, x);
    LeadingNatOfNumeral(n, rest);
    assert SignedLeadingInt(x) == Some(n as int);
  }

  /** A minus sign before a numeral reads as the negated numeral. */
  lemma SignedLeadingIntOfNegative(n: nat, rest: string)
    requires rest == [] || !IsDigit(rest[0])
    ensures SignedLeadingInt("-" + NatToString(n) + rest) == Some(-(n as int))
  {
    var y := NatToString(n) + rest;
    Regroup("-", NatToString(n), rest);
    assert ("-" + y)[0] == '-' && ("-" + y)[1..] == y;
    LeadingNatOfNumeral(n, rest);
  }

  /** `parseInt` reads a minus sign before a decimal numeral as a negative number. */
  lemma ParseIntOfNegative(ws: string, n: nat, rest: string)
    requires forall i :: 0 <= i < |ws| ==> IsJsSpace(ws[i])
    requires rest == [] || !IsDigit(rest[0])
    ensures ParseInt(Some(ws + "-" + NatToString(n) + rest)) == Some(-(n as int))
  {
    var x := "-" + NatToString(n) + rest;
    Regroup(ws, "-" + NatToString(n), rest);
    Regroup(ws, "-", NatToString(n));
    TrimStartOfSpaces(ws, x);
    SignedLeadingIntOfNegative(n, rest);
  }

  /** `10^e` applied to a mantissa, for a signed exponent. */
  function Scale(mantissa: real, e: int): real {
    if e >= 0 then mantissa * Pow10(e) as real else mantissa / Pow10(-e) as real
  }

  /** The exponent part `e[+-]digits` at the start of `s`, or 0 when there is
      no complete exponent part (a bare `e` is not consumed). */
  function ExponentPart(s: string): int {
    if |s| >= 2 && (s[0] == 'e' || s[0] == 'E') then
      var digits := if s[1] == '-' || s[1] == '+' then s[2..] else s[1..];
      var k := DigitRun(digits);
      if k == 0 then 0
      else if s[1] == '-' then -(DigitsValue(digits[..k]) as int)
      else DigitsValue(digits[..k])
    else 0
  }

  /** The longest unsigned decimal literal at the start of `body`: digits,
      an optional fraction, an optional exponent; at least one digit before
      or after the point. */
  function UnsignedDecimal(body: string): Option<real> {
    var a := DigitRun(body);
    var hasPoint := a < |body| && body[a] == '.';
    var f := if hasPoint then DigitRun(body[a + 1..]) else 0;
    if a == 0 && f == 0 then None
    else
      var fraction := if hasPoint then DigitsValue(body[a + 1..][..f]) as real / Pow10(f) as real else 0.0;
      var consumed := if hasPoint then a + 1 + f else a;
      Some(Scale(DigitsValue(body[..a]) as real + fraction, ExponentPart(body[consumed..])))
  }

  /** One optional sign, then `Infinity` or the longest decimal literal. */
  function SignedDecimal(t: string): Num {
    var negative := |t| > 0 && t[0] == '-';
    var body := if |t| > 0 && (t[0] == '-' || t[0] == '+') then t[1..] else t;
    if |body| >= 8 && body[..8] == "Infinity" then Infinite(negative)
    else match UnsignedDecimal(body)
      case None => NaN
      case Some(x) => Finite(if negative then -x else x)
  }

  /** `parseFloat(v)`: leading white space is skipped, then a signed
      `Infinity` or decimal literal is read; anything else is `NaN`. */
  function ParseFloat(v: Option<string>): Num {
    match v
    case None => NaN
    case Some(s) => SignedDecimal(TrimStart(s))
  }

  /** How the reader splits digits, a point and more digits. */
  lemma PointSplit(d: string, f: string)
    requires AllDigits(d) && AllDigits(f)
    ensures var body := d + ("." + f);
            DigitRun(body) == |d| && body[|d|] == '.' && body[..|d|] == d
            && DigitRun(body[|d| + 1..]) == |f| && body[|d| + 1..][..|f|] == f
            && body[|d| + 1 + |f|..] == []
  {
    var body := d + ("." + f);
    DigitRunOf(d, "." + f);
    assert body[|d| + 1..] == f + [];
    DigitRunOf(f, []);
  }

  /** A numeral, a point and zeros make an unsigned literal worth the numeral. */
  lemma UnsignedDecimalOfZeroFraction(n: nat, zeros: string)
    requires forall i :: 0 <= i < |zeros| ==> zeros[i] == '0'
    ensures UnsignedDecimal(NatToString(n) + "." + zeros) == Some(n as real)
  {
    var d := NatToString(n);
    Regroup(d, ".", zeros);
    DigitsValueOfZeros(zeros);
    PointSplit(d, zeros);
    DigitsValueOfNatToString(n);
    assert ExponentPart([]) == 0;
    assert Scale(n as real + 0.0 / Pow10(|zeros|) as real, 0) == n as real;
  }

  /** A numeral alone is an unsigned literal worth the numeral. */
  lemma UnsignedDecimalOfNumeral(n: nat)
    ensures UnsignedDecimal(NatToString(n)) == Some(n as real)
  {
    var d := NatToString(n);
    DigitRunOf(d, []);
    assert d + [] == d && d[..|d|] == d && d[|d|..] == [];
    DigitsValueOfNatToString(n);
  }

  /** A text starting with a digit is read as an unsigned decimal literal. */
  lemma SignedDecimalOfDigit(t: string)
    requires t != [] && IsDigit(t[0])
    ensures SignedDecimal(t) == match UnsignedDecimal(t) case None => NaN case Some(x) => Finite(x)
  {
    assert |t| < 8 || t[..8] != "Infinity" by {
      if |t| >= 8 {
        assert t[..8][0] == t[0];
      }
    }
  }

  /** `parseFloat` reads a whole number written with a decimal point and any
      number of trailing zeros (`"399.0000"`) as that whole number. */
  lemma ParseFloatOfZeroFraction(ws: string, n: nat, zeros: string)
    requires forall i :: 0 <= i < |ws| ==> IsJsSpace(ws[i])
    requires forall i :: 0 <= i < |zeros| ==> zeros[i] == '0'
    ensures ParseFloat(Some(ws + NatToString(n) + "." + zeros)) == Finite(n as real)
  {
    var body := NatToString(n) + "." + zeros;
    Regroup(ws, NatToString(n) + ".", zeros);
    Regroup(ws, NatToString(n), ".");
    TrimStartOfSpaces(ws, body);
    UnsignedDecimalOfZeroFraction(n, zeros);
    SignedDecimalOfDigit(body);
  }

  /** `parseFloat` reads back a decimal numeral. */
  lemma ParseFloatOfNumeral(ws: string, n: nat)
    requires forall i :: 0 <= i < |ws| ==> IsJsSpace(ws[i])
    ensures ParseFloat(Some(ws + NatToString(n))) == Finite(n as real)
  {
    var d := NatToString(n);
    TrimStartOfSpaces(ws, d);
    UnsignedDecimalOfNumeral(n);
    SignedDecimalOfDigit(d);
  }
}
