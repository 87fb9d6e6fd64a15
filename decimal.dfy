/**
 * Decimal digit strings: reading them (as strptime does) and writing them
 * zero-padded (as strftime and str.format do).
 */
module Decimal {

  predicate IsDigit(c: char) {
    '0' <= c <= '9'
  }

  /** Every character of s is a decimal digit (stated last character first, as ValueOf reads). */
  predicate AllDigits(s: string) {
    s == [] || (AllDigits(s[..|s| - 1]) && IsDigit(s[|s| - 1]))
  }

  /** A digit string holds no character that is not a digit. */
  lemma {:induction false} NotInDigits(s: string, c: char)
    requires AllDigits(s) && !IsDigit(c)
    ensures c !in s
  {
    if s != [] {
      NotInDigits(s[..|s| - 1], c);
      assert s == s[..|s| - 1] + [s[|s| - 1]];
    }
  }

  function DigitChar(k: nat): (c: char)
    requires k < 10
  {
    ('0' as int + k) as char
  }

  function DigitValue(c: char): nat
    requires IsDigit(c)
  {
    c as int - '0' as int
  }

  /** The number a string of decimal digits denotes ("" denotes 0). */
  function ValueOf(s: string): nat
    requires AllDigits(s)
  {
    if s == [] then 0 else ValueOf(s[..|s| - 1]) * 10 + DigitValue(s[|s| - 1])
  }

  /** The shortest decimal spelling of n, as str(n) writes it. */
  function Digits(n: nat): (r: string)
    ensures |r| >= 1
    ensures n < 10 <==> |r| == 1
  {
    if n < 10 then [DigitChar(n)] else Digits(n / 10) + [DigitChar(n % 10)]
  }

  /** Digits(n) is a digit string denoting n, with no leading zero unless n is 0. */
  lemma {:induction false} DigitsSpell(n: nat)
    ensures AllDigits(Digits(n)) && ValueOf(Digits(n)) == n
    ensures Digits(n)[0] == '0' <==> n == 0
  {
    var r := Digits(n);
    if n >= 10 {
      DigitsSpell(n / 10);
      assert r[..|r| - 1] == Digits(n / 10);
    }
  }

  function Pow10(k: nat): pos {
    if k == 0 then 1 else 10 * Pow10(k - 1)
  }

  type pos = n: int | n >= 1 witness 1

  /** Leading zeros do not change the number a digit string denotes. */
  lemma {:induction false} ValueOfLeadingZeros(z: string, s: string)
    requires AllDigits(z) && ValueOf(z) == 0 && AllDigits(s)
    ensures AllDigits(z + s) && ValueOf(z + s) == ValueOf(s)
  {
    if s != [] {
      assert (z + s)[..|z + s| - 1] == z + s[..|s| - 1];
      ValueOfLeadingZeros(z, s[..|s| - 1]);
    } else {
      assert z + s == z;
    }
  }

  /** A number below 10^k needs at most k digits. */
  lemma {:induction false} DigitsFit(n: nat, k: nat)
    requires k >= 1 && n < Pow10(k)
    ensures |Digits(n)| <= k
  {
    if n >= 10 {
      DigitsFit(n / 10, k - 1);
    }
  }

  /**
   * n written with at least `width` digits, zero-padded on the left: the
   * '{:0Nd}' conversion of str.format and the %m, %d, ... of strftime.
   */
  function ZeroPad(n: nat, width: nat): (r: string)
    ensures |r| == if width <= |Digits(n)| then |Digits(n)| else width
  {
    if width <= |Digits(n)| then Digits(n) else "0" + ZeroPad(n, width - 1)
  }

  /**
   * ZeroPad(n, width) is a digit string denoting n, exactly `width`
   * characters long when n has at most that many digits.
   */
  lemma {:induction false} ZeroPadSpell(n: nat, width: nat)
    ensures AllDigits(ZeroPad(n, width)) && ValueOf(ZeroPad(n, width)) == n
    ensures |ZeroPad(n, width)| >= width && |ZeroPad(n, width)| >= 1
    ensures width >= 1 && n < Pow10(width) ==> |ZeroPad(n, width)| == width
  {
    DigitsSpell(n);
    if width >= 1 && n < Pow10(width) {
      DigitsFit(n, width);
    }
    if width > |Digits(n)| {
      ZeroPadSpell(n, width - 1);
      assert AllDigits("0") && ValueOf("0") == 0 by {
        assert "0"[..0] == [];
      }
      ValueOfLeadingZeros("0", ZeroPad(n, width - 1));
    }
  }
}
