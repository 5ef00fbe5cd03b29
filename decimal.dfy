/**
  The amount conversion `float(value.replace(',', '.'))` of the command
  handlers, restricted to plain decimal literals: an optional sign, digits,
  and an optional fractional part after one `.`. A conversion failure is
  `None` (the handlers catch the exception and skip the line). The same
  module renders natural numbers in decimal, as `f"{n}"` and `f"{n:02d}"` do.
 */
module Decimal {
  import opened Optional

  predicate IsDigit(c: char) {
    '0' <= c <= '9'
  }

  predicate AllDigits(s: string) {
    forall i :: 0 <= i < |s| ==> IsDigit(s[i])
  }

  /** The characters that may occur in a literal `float` accepts here. */
  predicate IsNumeral(c: char) {
    IsDigit(c) || c == '.' || c == '+' || c == '-'
  }

  function Pow10(n: nat): (p: nat)
    ensures p >= 1
  {
    if n == 0 then 1 else 10 * Pow10(n - 1)
  }

  /** The value of a string of decimal digits, most significant first. */
  function DigitsValue(s: string): (v: nat)
    requires AllDigits(s)
    ensures v < Pow10(|s|)
    decreases |s|
  {
    if |s| == 0 then 0
    else 10 * DigitsValue(s[..|s| - 1]) + (s[|s| - 1] as int - '0' as int)
  }

  /** The value of the digits after the decimal point. */
  function Fraction(s: string): (f: real)
    requires AllDigits(s)
    ensures 0.0 <= f < 1.0
  {
    var v, p := DigitsValue(s), Pow10(|s|);
    DivBelowOne(v as real, p as real);
    v as real / p as real
  }

  lemma DivBelowOne(v: real, p: real)
    requires 0.0 <= v < p
    ensures 0.0 <= v / p < 1.0
  {
    var f := v / p;
    assert f * p == v;
  }

  /** Length of the run of digits that `s` starts with. */
  function LeadingDigits(s: string): (n: nat)
    ensures n <= |s| && AllDigits(s[..n])
    ensures n < |s| ==> !IsDigit(s[n])
    decreases |s|
  {
    if |s| > 0 && IsDigit(s[0]) then
      var n := 1 + LeadingDigits(s[1..]);
      assert forall i :: 1 <= i < n ==> s[..n][i] == s[1..][..n - 1][i - 1];
      n
    else 0
  }

  /** An unsigned literal: `digits`, `digits.`, `digits.digits` or `.digits`. */
  function ParseUnsigned(s: string): (r: Option<real>)
    ensures r.Some? ==> r.value >= 0.0
    ensures r.Some? ==> |s| > 0 && forall i :: 0 <= i < |s| ==> IsDigit(s[i]) || s[i] == '.'
  {
    var n := LeadingDigits(s);
    if n == |s| then
      if n > 0 then Some(DigitsValue(s) as real) else None
    else if s[n] == '.' && AllDigits(s[n + 1..]) && (n > 0 || n + 1 < |s|) then
      assert forall i :: n + 1 <= i < |s| ==> s[i] == s[n + 1..][i - n - 1];
      Some(DigitsValue(s[..n]) as real + Fraction(s[n + 1..]))
    else None
  }

  /** `float(s)` on an already stripped string. */
  function ParseAmount(s: string): (r: Option<real>)
    ensures r.Some? ==> |s| > 0 && forall i :: 0 <= i < |s| ==> IsNumeral(s[i])
  {
    if |s| > 0 && (s[0] == '+' || s[0] == '-') then
      match ParseUnsigned(s[1..])
      case None => None
      case Some(v) =>
        assert forall i :: 1 <= i < |s| ==> s[i] == s[1..][i - 1];
        Some(if s[0] == '-' then -v else v)
    else ParseUnsigned(s)
  }

  /** `f"{n}"` for a natural number. */
  function NatToString(n: nat): (s: string)
    ensures |s| > 0 && AllDigits(s)
  {
    if n < 10 then [(n + '0' as int) as char]
    else NatToString(n / 10) + [(n % 10 + '0' as int) as char]
  }

  /** `f"{n:02d}"` for a natural number: its digits read back as `n`, and
      below 100 it is exactly two characters. */
  function Pad2(n: nat): (s: string)
    ensures |s| >= 2 && AllDigits(s)
    ensures DigitsValue(s) == n
    ensures n < 100 ==> |s| == 2
  {
    NatToStringValue(n);
    if n < 10 then
      var s := "0" + NatToString(n);
      assert s[..1] == "0";
      s
    else
      assert n < 100 ==> |NatToString(n / 10)| == 1;
      NatToString(n)
  }

  /** Reading back a rendered natural number gives the number. */
  lemma {:induction false} NatToStringValue(n: nat)
    ensures DigitsValue(NatToString(n)) == n
  {
    var s := NatToString(n);
    if n >= 10 {
      NatToStringValue(n / 10);
      assert s[..|s| - 1] == NatToString(n / 10);
    }
  }

  /** A rendered natural number is parsed back as that number. */
  lemma ParseNat(n: nat)
    ensures ParseAmount(NatToString(n)) == Some(n as real)
  {
    var s := NatToString(n);
    NatToStringValue(n);
    AllDigitsRun(s);
  }

  lemma AllDigitsRun(s: string)
    requires AllDigits(s)
    ensures LeadingDigits(s) == |s|
  {
  }

  /** A rendered `whole.digits` literal is parsed back as whole plus fraction;
      with a `-` in front it is parsed as the negated value. */
  lemma ParseDecimalLiteral(whole: nat, frac: string)
    requires AllDigits(frac)
    ensures ParseAmount(NatToString(whole) + "." + frac)
         == Some(whole as real + Fraction(frac))
    ensures ParseAmount("-" + NatToString(whole) + "." + frac)
         == Some(-(whole as real + Fraction(frac)))
  {
    var s := NatToString(whole) + "." + frac;
    ParseUnsignedLiteral(whole, frac);
    assert IsDigit(s[0]);
    NegatedLiteral(s);
    assert "-" + NatToString(whole) + "." + frac == "-" + s;
  }

  lemma NegatedLiteral(s: string)
    requires ParseUnsigned(s).Some?
    ensures ParseAmount("-" + s) == Some(-ParseUnsigned(s).value)
  {
    assert ("-" + s)[1..] == s;
  }

  lemma ParseUnsignedLiteral(whole: nat, frac: string)
    requires AllDigits(frac)
    ensures ParseUnsigned(NatToString(whole) + "." + frac)
         == Some(whole as real + Fraction(frac))
  {
    var w := NatToString(whole);
    var s := w + "." + frac;
    NatToStringValue(whole);
    assert s == w + ("." + frac);
    LeadingDigitsOfPrefix(w, "." + frac);
    assert s[..|w|] == w;
    assert s[|w|] == '.';
    assert s[|w| + 1..] == frac;
  }

  lemma {:induction false} LeadingDigitsOfPrefix(w: string, rest: string)
    requires AllDigits(w)
    requires rest == [] || !IsDigit(rest[0])
    ensures LeadingDigits(w + rest) == |w|
    decreases |w|
  {
    if |w| > 0 {
      assert (w + rest)[1..] == w[1..] + rest;
      LeadingDigitsOfPrefix(w[1..], rest);
    } else {
      assert w + rest == rest;
    }
  }

  /** `float` accepts a lone sign or a lone point nowhere. */
  lemma ParseRejectsBare()
    ensures ParseAmount("") == None
    ensures ParseAmount(".") == None
    ensures ParseAmount("-") == None
    ensures ParseAmount("+.") == None
  {
    assert LeadingDigits(".") == 0;
    assert ".."[1..] == ".";
    assert "-"[1..] == "";
    assert "+."[1..] == ".";
  }
}
