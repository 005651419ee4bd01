/**
 * Decimal digit strings: the digit runs that the CSV typing reads
 * (index.ts:61-62) and the period keys the engine writes
 * (`${year}` and `toISOString().substring(0, 7)`, index.ts:150, 227, 230).
 */
module Numerals {

  predicate IsDigit(c: char) {
    '0' <= c <= '9'
  }

  predicate AllDigits(s: string) {
    forall i :: 0 <= i < |s| ==> IsDigit(s[i])
  }

  function DigitChar(n: nat): (c: char)
    requires n < 10
    ensures IsDigit(c)
  {
    ('0' as int + n) as char
  }

  function DigitValue(c: char): (n: nat)
    requires IsDigit(c)
    ensures n < 10 && DigitChar(n) == c
  {
    c as int - '0' as int
  }

  /** The number a digit string denotes, most significant digit first. */
  function Value(s: string): nat
    requires AllDigits(s)
  {
    if s == [] then 0 else 10 * Value(s[..|s| - 1]) + DigitValue(s[|s| - 1])
  }

  function Pow10(n: nat): (r: nat)
    ensures r >= 1
  {
    if n == 0 then 1 else 10 * Pow10(n - 1)
  }

  /** The last `width` decimal digits of `n`, zero-padded on the left. */
  function Pad(n: nat, width: nat): (r: string)
    ensures |r| == width && AllDigits(r)
  {
    if width == 0 then "" else Pad(n / 10, width - 1) + [DigitChar(n % 10)]
  }

  /** Padding a number that fits the width loses nothing. */
  lemma {:induction false} ValueOfPad(n: nat, width: nat)
    requires n < Pow10(width)
    ensures Value(Pad(n, width)) == n
  {
    if width > 0 {
      var p := Pad(n, width);
      var q := n / 10;
      assert q < Pow10(width - 1) by {
        assert n < 10 * Pow10(width - 1);
      }
      assert p[..width - 1] == Pad(q, width - 1);
      assert DigitValue(p[width - 1]) == n % 10 by {
        assert p[width - 1] == DigitChar(n % 10);
      }
      ValueOfPad(q, width - 1);
      assert n == 10 * q + n % 10;
    }
  }

  /** Reading a digit string and padding its value back to its own width gives the string again. */
  lemma {:induction false} PadOfValue(s: string)
    requires AllDigits(s)
    ensures Pad(Value(s), |s|) == s
  {
    if s != [] {
      var init := s[..|s| - 1];
      var d := DigitValue(s[|s| - 1]);
      assert (10 * Value(init) + d) / 10 == Value(init);
      assert (10 * Value(init) + d) % 10 == d;
      PadOfValue(init);
      assert s == init + [s[|s| - 1]];
    }
  }

  /** The shortest decimal text of `n` (JS number-to-string for a non-negative integer). */
  function Decimal(n: nat): (r: string)
    ensures |r| >= 1 && AllDigits(r)
  {
    if n < 10 then [DigitChar(n)] else Decimal(n / 10) + [DigitChar(n % 10)]
  }

  lemma {:induction false} ValueOfDecimal(n: nat)
    ensures Value(Decimal(n)) == n
  {
    if n >= 10 {
      var r := Decimal(n);
      assert r[..|r| - 1] == Decimal(n / 10);
      ValueOfDecimal(n / 10);
    } else {
      assert Decimal(n)[..0] == [];
    }
  }

  /** Decimal text is one-to-one. */
  lemma DecimalInjective(a: nat, b: nat)
    requires a != b
    ensures Decimal(a) != Decimal(b)
  {
    ValueOfDecimal(a);
    ValueOfDecimal(b);
  }

  /** JS template-literal text of an integer: `${i}`. */
  function IntText(i: int): (r: string)
    ensures i >= 0 ==> r == Decimal(i)
  {
    if i < 0 then "-" + Decimal(-i) else Decimal(i)
  }
}
