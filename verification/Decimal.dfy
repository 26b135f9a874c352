/** Decimal text of integers, as `to_string` writes it and `parse_bytes(.., 10)` reads it. */
module Decimal {
  import opened Prelude

  function Digit(d: int): char
    requires 0 <= d < 10
  {
    (48 + d) as char
  }

  predicate IsDigit(c: char) { '0' <= c <= '9' }

  function DigitValue(c: char): (d: nat)
    requires IsDigit(c)
    ensures d < 10 && Digit(d) == c
  {
    (c as int) - 48
  }

  function DigitsOf(n: nat): (s: string)
    ensures s != [] && forall c <- s :: IsDigit(c)
    ensures n > 0 ==> s[0] != '0'
    ensures n == 0 ==> s == "0"
  {
    if n < 10 then [Digit(n)] else DigitsOf(n / 10) + [Digit(n % 10)]
  }

  function ToDecimal(i: int): (s: string)
    ensures s != [] && (s[0] == '-' <==> i < 0)
  {
    if i < 0 then "-" + DigitsOf(-i)
    else assert IsDigit(DigitsOf(i)[0]); DigitsOf(i)
  }

  function DigitsValue(s: string): nat
    requires forall c <- s :: IsDigit(c)
  {
    if s == [] then 0 else DigitsValue(s[..|s| - 1]) * 10 + DigitValue(s[|s| - 1])
  }

  /** An optional minus sign and at least one digit. */
  function ParseDecimal(s: string): Option<int> {
    if s != [] && s[0] == '-' then
      if |s| > 1 && forall c <- s[1..] :: IsDigit(c) then Some(0 - DigitsValue(s[1..]) as int) else None
    else if s != [] && forall c <- s :: IsDigit(c) then Some(DigitsValue(s))
    else None
  }

  lemma {:induction false} DigitsRoundTrip(n: nat)
    ensures DigitsValue(DigitsOf(n)) == n
  {
    var s := DigitsOf(n);
    if n < 10 {
      assert s == [Digit(n)] && s[..0] == [];
    } else {
      DigitsRoundTrip(n / 10);
      assert s[..|s| - 1] == DigitsOf(n / 10) && s[|s| - 1] == Digit(n % 10);
    }
  }

  lemma DecimalRoundTrip(i: int)
    ensures ParseDecimal(ToDecimal(i)) == Some(i)
  {
    if i < 0 {
      DigitsRoundTrip(-i);
      assert ("-" + DigitsOf(-i))[1..] == DigitsOf(-i);
    } else {
      DigitsRoundTrip(i);
    }
  }

  lemma {:induction false} DigitsShortest(s: string)
    requires s != [] && forall c <- s :: IsDigit(c)
    ensures |DigitsOf(DigitsValue(s))| <= |s|
  {
    var front := s[..|s| - 1];
    if DigitsValue(s) >= 10 {
      DigitsShortest(front);
      assert DigitsValue(s) / 10 == DigitsValue(front);
    }
  }

  /** No text of a number is shorter than the one written for it. */
  lemma DecimalShortest(s: string)
    requires ParseDecimal(s).Some?
    ensures |ToDecimal(ParseDecimal(s).value)| <= |s|
  {
    if s[0] == '-' { DigitsShortest(s[1..]); } else { DigitsShortest(s); }
  }
}
