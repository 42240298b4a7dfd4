/**
 * Decimal text of natural numbers, as printed by Python's str() and format(),
 * and by printf's %d and %0*zu conversions for values that are not negative.
 */
module Decimal {

  predicate IsDigit(c: char) {
    '0' <= c <= '9'
  }

  predicate AllDigits(s: string) {
    forall i :: 0 <= i < |s| ==> IsDigit(s[i])
  }

  function DigitChar(d: nat): (c: char)
    requires d < 10
    ensures IsDigit(c)
  {
    (d + '0' as int) as char
  }

  function DigitValue(c: char): (d: nat)
    requires IsDigit(c)
    ensures d < 10
  {
    (c as int) - ('0' as int)
  }

  function Pow10(n: nat): (r: nat)
    ensures r >= 1
  {
    if n == 0 then 1 else 10 * Pow10(n - 1)
  }

  /** Number of decimal digits of n; zero has one digit. */
  function DigitCount(n: nat): (k: nat)
    ensures k >= 1
  {
    if n < 10 then 1 else 1 + DigitCount(n / 10)
  }

  /** The shortest decimal text of n, without sign or leading zeros. */
  function NatToString(n: nat): (s: string)
    ensures |s| == DigitCount(n)
    ensures AllDigits(s)
    ensures n != 0 ==> s[0] != '0'
  {
    if n < 10 then [DigitChar(n)] else NatToString(n / 10) + [DigitChar(n % 10)]
  }

  /** The value of a string of decimal digits, most significant first. */
  function DigitsValue(s: string): nat
    requires AllDigits(s)
  {
    if s == [] then 0 else 10 * DigitsValue(s[..|s| - 1]) + DigitValue(s[|s| - 1])
  }

  function Zeros(n: nat): (s: string)
    ensures |s| == n
    ensures forall i :: 0 <= i < n ==> s[i] == '0'
  {
    if n == 0 then [] else Zeros(n - 1) + ['0']
  }

  /** n padded on the left with '0' to at least `width` characters (%0*zu, {:04}). */
  function ZeroPad(n: nat, width: nat): (s: string)
    ensures AllDigits(s)
    ensures |s| == if width > DigitCount(n) then width else DigitCount(n)
  {
    var digits := NatToString(n);
    if width > |digits| then Zeros(width - |digits|) + digits else digits
  }

  lemma {:induction false} DigitCountBounds(n: nat)
    ensures n < Pow10(DigitCount(n))
    ensures DigitCount(n) > 1 ==> Pow10(DigitCount(n) - 1) <= n
  {
    if n >= 10 {
      DigitCountBounds(n / 10);
    }
  }

  lemma {:induction false} DigitsValueConcat(a: string, b: string)
    requires AllDigits(a) && AllDigits(b)
    ensures AllDigits(a + b)
    ensures DigitsValue(a + b) == DigitsValue(a) * Pow10(|b|) + DigitsValue(b)
  {
    if b == [] {
      assert a + b == a;
    } else {
      var b' := b[..|b| - 1];
      var ab := a + b;
      assert ab[..|ab| - 1] == a + b';
      assert ab[|ab| - 1] == b[|b| - 1];
      DigitsValueConcat(a, b');
      ConcatStep(DigitsValue(ab), DigitsValue(a), DigitsValue(b), DigitsValue(b'), DigitValue(b[|b| - 1]), Pow10(|b'|), Pow10(|b|));
    }
  }

  /** The arithmetic of one step of DigitsValueConcat: appending a digit d multiplies by ten and adds d. */
  lemma {:induction false} ConcatStep(vab: int, va: int, vb: int, vb': int, d: int, p: int, pb: int)
    requires vab == 10 * (va * p + vb') + d && vb == 10 * vb' + d && pb == 10 * p
    ensures vab == va * pb + vb
  {
  }

  lemma {:induction false} ZerosValue(n: nat)
    ensures AllDigits(Zeros(n)) && DigitsValue(Zeros(n)) == 0
  {
    if n > 0 {
      ZerosValue(n - 1);
      assert Zeros(n)[..n - 1] == Zeros(n - 1);
    }
  }

  /** Reading back the text of n gives n. */
  lemma {:induction false} NatToStringValue(n: nat)
    ensures DigitsValue(NatToString(n)) == n
  {
    if n >= 10 {
      NatToStringValue(n / 10);
      var s := NatToString(n);
      assert s[..|s| - 1] == NatToString(n / 10);
    }
  }

  /** Leading zeros do not change the value of a digit string. */
  lemma {:induction false} ZerosPrefixValue(k: nat, s: string)
    requires AllDigits(s)
    ensures AllDigits(Zeros(k) + s) && DigitsValue(Zeros(k) + s) == DigitsValue(s)
  {
    var z := Zeros(k);
    ZerosValue(k);
    DigitsValueConcat(z, s);
    var p := Pow10(|s|);
    assert DigitsValue(z) * p == 0 * p == 0;
  }

  /** Reading back the zero-padded text of n gives n, whatever the width. */
  lemma {:induction false} ZeroPadValue(n: nat, width: nat)
    ensures DigitsValue(ZeroPad(n, width)) == n
  {
    NatToStringValue(n);
    if width > DigitCount(n) {
      ZerosPrefixValue(width - DigitCount(n), NatToString(n));
    }
  }

  /** Distinct numbers have distinct padded texts. */
  lemma {:induction false} ZeroPadInjective(n: nat, m: nat, width: nat)
    requires ZeroPad(n, width) == ZeroPad(m, width)
    ensures n == m
  {
    ZeroPadValue(n, width);
    ZeroPadValue(m, width);
  }
}
