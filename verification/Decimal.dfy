/** Decimal rendering and parsing of integers, as done by Go's strconv and fmt. */
module Decimal {

  const MAX_INT64 := 0x7FFF_FFFF_FFFF_FFFF

  predicate IsDigit(c: char) {
    '0' <= c <= '9'
  }

  function DigitChar(d: nat): (c: char)
    requires d < 10
    ensures IsDigit(c) && DigitValue(c) == d
  {
    (d + 48) as char
  }

  function DigitValue(c: char): (d: nat)
    requires IsDigit(c)
    ensures d < 10
  {
    c as int - 48
  }

  predicate AllDigits(s: string) {
    forall i :: 0 <= i < |s| ==> IsDigit(s[i])
  }

  /** The digits of n, most significant first, without leading zeros. */
  function Digits(n: nat): (s: string)
    ensures |s| > 0 && AllDigits(s)
  {
    if n < 10 then [DigitChar(n)] else Digits(n / 10) + [DigitChar(n % 10)]
  }

  /** `%d` of an integer. */
  function Render(n: int): (r: string) {
    if n < 0 then "-" + Digits(-n) else Digits(n)
  }

  /** `%0<width>d` of a non-negative integer. */
  function Padded(n: nat, width: nat): (s: string)
    decreases width
    ensures AllDigits(s)
  {
    if width == 0 then (if n == 0 then "" else Digits(n))
    else Padded(n / 10, width - 1) + [DigitChar(n % 10)]
  }

  /** The number a string of digits stands for. */
  function Value(s: string): (r: nat)
    requires AllDigits(s)
  {
    if s == "" then 0 else Value(s[..|s| - 1]) * 10 + DigitValue(s[|s| - 1])
  }

  lemma {:induction false} ValueOfDigits(n: nat)
    ensures Value(Digits(n)) == n
  {
    if n >= 10 {
      ValueOfDigits(n / 10);
      assert Digits(n)[..|Digits(n)| - 1] == Digits(n / 10);
    } else {
      assert Digits(n)[..0] == "";
    }
  }

  /** Padding keeps the value, and a number that fits has exactly that width. */
  lemma {:induction false} PaddedSound(n: nat, width: nat)
    ensures Value(Padded(n, width)) == n
    ensures n < Power10(width) ==> |Padded(n, width)| == width
  {
    if width == 0 {
      if n != 0 { ValueOfDigits(n); }
    } else {
      PaddedSound(n / 10, width - 1);
      var s := Padded(n, width);
      assert s[..|s| - 1] == Padded(n / 10, width - 1);
    }
  }

  function Power10(k: nat): (r: nat) {
    if k == 0 then 1 else 10 * Power10(k - 1)
  }

  /** Rendering is injective on all integers, and never contains a colon. */
  lemma RenderInjective(m: int, n: int)
    requires Render(m) == Render(n)
    ensures m == n
  {
    ValueOfDigits(if m < 0 then -m else m);
    ValueOfDigits(if n < 0 then -n else n);
    assert !IsDigit('-');
    if m < 0 {
      assert Render(m)[0] == '-';
      assert Render(m)[1..] == Digits(-m) && Render(n)[1..] == Digits(-n);
    } else {
      assert IsDigit(Render(m)[0]);
    }
  }

  lemma RenderHasNoColon(n: int)
    ensures ':' !in Render(n)
  {
    assert AllDigits(Digits(if n < 0 then -n else n));
  }
}
