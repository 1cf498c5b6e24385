/** Decimal digits: reading a run of ASCII digits as a number, and writing a
    number back as a fixed-width zero-padded field or as the shortest numeral. */
module Digits {

  predicate IsDigit(c: char) {
    '0' <= c <= '9'
  }

  predicate AllDigits(s: string) {
    forall i :: 0 <= i < |s| ==> IsDigit(s[i])
  }

  function DigitValue(c: char): (v: nat)
    requires IsDigit(c)
    ensures v < 10
  {
    c as int - '0' as int
  }

  function DigitChar(v: nat): (c: char)
    requires v < 10
    ensures IsDigit(c) && DigitValue(c) == v
  {
    ('0' as int + v) as char
  }

  function Pow10(w: nat): (p: nat)
    ensures p >= 1
  {
    if w == 0 then 1 else 10 * Pow10(w - 1)
  }

  /** The number a run of digits denotes, most significant digit first. */
  function ValueOf(s: string): nat
    requires AllDigits(s)
  {
    if |s| == 0 then 0 else ValueOf(s[..|s| - 1]) * 10 + DigitValue(s[|s| - 1])
  }

  /** A field of w digits holds a number below 10^w. */
  lemma {:induction false} ValueOfBound(s: string)
    requires AllDigits(s)
    ensures ValueOf(s) < Pow10(|s|)
  {
    if |s| > 0 {
      ValueOfBound(s[..|s| - 1]);
    }
  }

  /** `n` written in exactly `width` digits, with leading zeros (the `%02d` / `%04d` fields). */
  function Padded(n: nat, width: nat): (s: string)
    requires n < Pow10(width)
    ensures |s| == width
  {
    if width == 0 then "" else Padded(n / 10, width - 1) + [DigitChar(n % 10)]
  }

  /** A zero-padded field is all digits and reads back as the number written. */
  lemma {:induction false} PaddedValue(n: nat, width: nat)
    requires n < Pow10(width)
    ensures AllDigits(Padded(n, width))
    ensures ValueOf(Padded(n, width)) == n
  {
    if width > 0 {
      var s := Padded(n, width);
      PaddedValue(n / 10, width - 1);
      assert s[..|s| - 1] == Padded(n / 10, width - 1);
    }
  }

  /** Reading a digit field and writing it back at the same width gives the field. */
  lemma {:induction false} PaddedOfValue(s: string)
    requires AllDigits(s)
    ensures ValueOf(s) < Pow10(|s|)
    ensures Padded(ValueOf(s), |s|) == s
  {
    ValueOfBound(s);
    if |s| > 0 {
      var init := s[..|s| - 1];
      PaddedOfValue(init);
      assert ValueOf(s) / 10 == ValueOf(init);
      assert ValueOf(s) % 10 == DigitValue(s[|s| - 1]);
      assert s == init + [s[|s| - 1]];
    }
  }

  /** The shortest decimal numeral of `n`, as Python's `str` on a non-negative int. */
  function Decimal(n: nat): string {
    if n < 10 then [DigitChar(n)] else Decimal(n / 10) + [DigitChar(n % 10)]
  }

  /** A numeral without a superfluous leading zero. */
  predicate Canonical(s: string) {
    |s| >= 1 && AllDigits(s) && (s[0] == '0' ==> |s| == 1)
  }

  /** `Decimal` writes a canonical numeral that reads back as the number. */
  lemma {:induction false} DecimalValue(n: nat)
    ensures Canonical(Decimal(n))
    ensures ValueOf(Decimal(n)) == n
  {
    if n >= 10 {
      var s := Decimal(n);
      DecimalValue(n / 10);
      assert s[..|s| - 1] == Decimal(n / 10);
      assert s[0] == Decimal(n / 10)[0];
    }
  }

  /** Every canonical numeral is the one `Decimal` writes for its value. */
  lemma {:induction false} DecimalOfValue(s: string)
    requires Canonical(s)
    ensures Decimal(ValueOf(s)) == s
  {
    if |s| > 1 {
      var init := s[..|s| - 1];
      assert init[0] == s[0];
      assert ValueOf(init) >= 1 by { LeadingDigitPositive(init); }
      DecimalOfValue(init);
      assert ValueOf(s) / 10 == ValueOf(init);
      assert ValueOf(s) % 10 == DigitValue(s[|s| - 1]);
      assert s == init + [s[|s| - 1]];
    }
  }

  /** A run of digits that starts with a non-zero digit denotes a positive number. */
  lemma {:induction false} LeadingDigitPositive(s: string)
    requires |s| >= 1 && AllDigits(s) && s[0] != '0'
    ensures ValueOf(s) >= 1
  {
    if |s| > 1 {
      var init := s[..|s| - 1];
      assert init[0] == s[0];
      LeadingDigitPositive(init);
    }
  }

  /** Length of the longest prefix of `s` made of digits. */
  function DigitRun(s: string): (k: nat)
    ensures k <= |s|
  {
    if |s| == 0 || !IsDigit(s[0]) then 0 else 1 + DigitRun(s[1..])
  }

  /** The digit run is made of digits and ends at the first non-digit. */
  lemma {:induction false} DigitRunDigits(s: string)
    ensures AllDigits(s[..DigitRun(s)])
    ensures DigitRun(s) < |s| ==> !IsDigit(s[DigitRun(s)])
  {
    if |s| > 0 && IsDigit(s[0]) {
      DigitRunDigits(s[1..]);
      assert s[..DigitRun(s)] == [s[0]] + s[1..][..DigitRun(s[1..])];
    }
  }

  /** The digit run of a numeral followed by a non-digit is exactly that numeral. */
  lemma {:induction false} DigitRunOfConcat(a: string, b: string)
    requires AllDigits(a)
    requires |b| >= 1 && !IsDigit(b[0])
    ensures DigitRun(a + b) == |a|
  {
    if |a| > 0 {
      DigitRunOfConcat(a[1..], b);
      assert (a + b)[1..] == a[1..] + b;
    }
  }
}
