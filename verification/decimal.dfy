/** Decimal digit strings: JavaScript's and Python's integer-to-string
    conversion and the digit reading that `parseFloat` performs. */
module Decimal {

  predicate IsDigit(c: char) {
    '0' <= c <= '9'
  }

  predicate AllDigits(s: string) {
    forall i :: 0 <= i < |s| ==> IsDigit(s[i])
  }

  function DigitChar(d: nat): (c: char)
    requires d < 10
    ensures IsDigit(c)
  {
    ('0' as int + d) as char
  }

  function DigitValue(c: char): (d: nat)
    requires IsDigit(c)
    ensures d < 10 && DigitChar(d) == c
  {
    c as int - '0' as int
  }

  function Pow10(k: nat): (r: nat)
    ensures r >= 1
  {
    if k == 0 then 1 else 10 * Pow10(k - 1)
  }

  /** Shortest decimal rendering of `n`, as `String(n)` and `str(n)` give it. */
  function NatToString(n: nat): (s: string)
    ensures |s| > 0 && AllDigits(s)
    ensures n >= 10 ==> s[0] != '0'
  {
    if n < 10 then [DigitChar(n)] else NatToString(n / 10) + [DigitChar(n % 10)]
  }

  /** The number a string of decimal digits denotes, most significant first. */
  function DigitsValue(s: string): (n: nat)
    requires AllDigits(s)
    ensures |s| == 0 ==> n == 0
    ensures n < Pow10(|s|)
  {
    if |s| == 0 then 0
    else DigitsValue(s[..|s| - 1]) * 10 + DigitValue(s[|s| - 1])
  }

  /** Reading back a rendered number gives the number. */
  lemma {:induction false} NatToStringRoundTrip(n: nat)
    ensures DigitsValue(NatToString(n)) == n
  {
    if n >= 10 {
      var s := NatToString(n);
      assert s[..|s| - 1] == NatToString(n / 10);
      NatToStringRoundTrip(n / 10);
    }
  }

  lemma NatToStringInjective(a: nat, b: nat)
    requires NatToString(a) == NatToString(b)
    ensures a == b
  {
    NatToStringRoundTrip(a);
    NatToStringRoundTrip(b);
  }

  /** Appending digits shifts the value of the prefix. */
  lemma {:induction false} DigitsValueAppend(a: string, b: string)
    requires AllDigits(a) && AllDigits(b)
    ensures AllDigits(a + b)
    ensures DigitsValue(a + b) == DigitsValue(a) * Pow10(|b|) + DigitsValue(b)
    decreases |b|
  {
    if |b| == 0 {
      assert a + b == a;
    } else {
      var b' := b[..|b| - 1];
      var d := DigitValue(b[|b| - 1]);
      assert (a + b)[..|a + b| - 1] == a + b';
      assert b[..|b| - 1] == b';
      DigitsValueAppend(a, b');
      ShiftStep(DigitsValue(a), Pow10(|b'|), DigitsValue(b'), d);
    }
  }

  lemma ShiftStep(x: int, p: int, y: int, d: int)
    ensures (x * p + y) * 10 + d == x * (10 * p) + (y * 10 + d)
  {
  }

  /** Quotient and remainder are the only such pair. */
  lemma DivModTen(q: nat, r: nat, n: nat)
    requires r < 10 && n == q * 10 + r
    ensures q == n / 10 && r == n % 10
  {
  }

  lemma DivModHundred(q: nat, r: nat, n: nat)
    requires r < 100 && n == q * 100 + r
    ensures q == n / 100 && r == n % 100
  {
  }

  /** A digit string without a leading zero denotes a positive number. */
  lemma {:induction false} LeadingNonzeroPositive(d: string)
    requires |d| > 0 && AllDigits(d) && d[0] != '0'
    ensures DigitsValue(d) >= 1
  {
    if |d| > 1 {
      LeadingNonzeroPositive(d[..|d| - 1]);
    }
  }

  /** A digit string with no superfluous leading zero is the rendering of
      the number it denotes. */
  lemma {:induction false} CanonicalIsNatToString(d: string)
    requires |d| > 0 && AllDigits(d) && (d[0] == '0' ==> |d| == 1)
    ensures d == NatToString(DigitsValue(d))
  {
    var last := d[|d| - 1];
    if |d| == 1 {
      assert d[..0] == [];
      assert d == [last];
    } else {
      var init := d[..|d| - 1];
      assert d == init + [last];
      CanonicalIsNatToString(init);
      LeadingNonzeroPositive(init);
      var v := DigitsValue(d);
      assert v == DigitsValue(init) * 10 + DigitValue(last);
      DivModTen(DigitsValue(init), DigitValue(last), v);
    }
  }
}
