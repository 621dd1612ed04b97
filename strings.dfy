/**
 * Character and string helpers shared by the name-building code: decimal
 * digits, zero padding, ASCII lower-casing and Python's notion of whitespace.
 */
module Strings {

  predicate IsDigit(c: char) { '0' <= c <= '9' }

  predicate AllDigits(s: string) { forall i :: 0 <= i < |s| ==> IsDigit(s[i]) }

  function DigitChar(d: nat): (c: char)
    requires d < 10
    ensures IsDigit(c) && DigitVal(c) == d
  {
    (d + '0' as int) as char
  }

  function DigitVal(c: char): nat
    requires IsDigit(c)
  {
    c as int - '0' as int
  }

  /** Decimal rendering of a natural number, as Python's `str(n)`. */
  function NatStr(n: nat): (r: string)
    ensures |r| >= 1 && AllDigits(r)
    ensures r[0] == '0' ==> n == 0
  {
    if n < 10 then [DigitChar(n)] else NatStr(n / 10) + [DigitChar(n % 10)]
  }

  /** Value of a string of decimal digits, as Python's `int(s)`. */
  function DigitsVal(s: string): nat
    requires AllDigits(s)
  {
    if s == [] then 0 else DigitsVal(s[..|s| - 1]) * 10 + DigitVal(s[|s| - 1])
  }

  lemma {:induction false} NatStrRoundTrip(n: nat)
    ensures DigitsVal(NatStr(n)) == n
  {
    if n >= 10 {
      var s := NatStr(n);
      assert s[..|s| - 1] == NatStr(n / 10);
      NatStrRoundTrip(n / 10);
    }
  }

  lemma NatStrInjective(a: nat, b: nat)
    requires NatStr(a) == NatStr(b)
    ensures a == b
  {
    NatStrRoundTrip(a);
    NatStrRoundTrip(b);
  }

  function Zeros(k: nat): (r: string)
    ensures |r| == k && AllDigits(r)
    ensures forall i :: 0 <= i < k ==> r[i] == '0'
  {
    if k == 0 then [] else Zeros(k - 1) + "0"
  }

  /** `n` printed with at least `width` digits, left-padded with zeros (`%0<width>d`). */
  function ZeroPad(n: nat, width: nat): (r: string)
    ensures |r| == if |NatStr(n)| < width then width else |NatStr(n)|
    ensures AllDigits(r)
  {
    if |NatStr(n)| < width then Zeros(width - |NatStr(n)|) + NatStr(n) else NatStr(n)
  }

  lemma {:induction false} DigitsValZerosPrefix(z: nat, s: string)
    requires AllDigits(s)
    ensures AllDigits(Zeros(z) + s) && DigitsVal(Zeros(z) + s) == DigitsVal(s)
  {
    if s == [] {
      DigitsValAllZeros(z);
      assert Zeros(z) + s == Zeros(z);
    } else {
      var t := Zeros(z) + s;
      assert t[..|t| - 1] == Zeros(z) + s[..|s| - 1];
      DigitsValZerosPrefix(z, s[..|s| - 1]);
    }
  }

  lemma {:induction false} DigitsValAllZeros(z: nat)
    ensures DigitsVal(Zeros(z)) == 0
  {
    if z > 0 {
      assert Zeros(z)[..z - 1] == Zeros(z - 1);
      DigitsValAllZeros(z - 1);
    }
  }

  /** Zero padding keeps the value: `int(f"{n:0{w}d}") == n`. */
  lemma ZeroPadValue(n: nat, width: nat)
    ensures DigitsVal(ZeroPad(n, width)) == n
  {
    NatStrRoundTrip(n);
    if |NatStr(n)| < width {
      DigitsValZerosPrefix(width - |NatStr(n)|, NatStr(n));
    }
  }

  lemma NatStrLength(n: nat, k: nat)
    requires n < Pow10(k) && k >= 1
    ensures |NatStr(n)| <= k
  {
    if n >= 10 {
      NatStrLength(n / 10, k - 1);
    }
  }

  function Pow10(k: nat): nat
  {
    if k == 0 then 1 else 10 * Pow10(k - 1)
  }

  /** A number below 10^w printed with `%0<w>d` has exactly `w` digits. */
  lemma ZeroPadExact(n: nat, width: nat)
    requires width >= 1 && n < Pow10(width)
    ensures |ZeroPad(n, width)| == width
  {
    NatStrLength(n, width);
  }

  /** ASCII lower-casing of one character. */
  function Lower(c: char): (r: char)
    ensures IsDigit(c) ==> r == c
  {
    if 'A' <= c <= 'Z' then (c as int + 32) as char else c
  }

  function LowerStr(s: string): (r: string)
    ensures |r| == |s|
    ensures forall i :: 0 <= i < |s| ==> r[i] == Lower(s[i])
  {
    if s == [] then [] else [Lower(s[0])] + LowerStr(s[1..])
  }

  lemma LowerConcat(a: string, b: string)
    ensures LowerStr(a + b) == LowerStr(a) + LowerStr(b)
  {
    assert forall i :: 0 <= i < |a + b| ==> LowerStr(a + b)[i] == (LowerStr(a) + LowerStr(b))[i];
  }

  lemma LowerDigits(s: string)
    requires AllDigits(s)
    ensures LowerStr(s) == s
  {
  }

  predicate StartsWith(s: string, p: string) { |p| <= |s| && s[..|p|] == p }

  predicate EndsWith(s: string, p: string) { |p| <= |s| && s[|s| - |p|..] == p }

  predicate ContainsChar(s: string, c: char) { exists i :: 0 <= i < |s| && s[i] == c }

  /**
   * Python's whitespace (`str.isspace`, the `\s` class of `re` on `str`):
   * U+0009..U+000D, U+001C..U+001F, space, U+0085, U+00A0, U+1680,
   * U+2000..U+200A, U+2028, U+2029, U+202F, U+205F and U+3000.
   */
  predicate IsSpace(c: char)
  {
    var k := c as int;
    (9 <= k <= 13) || (28 <= k <= 32) || k == 0x85 || k == 0xA0 || k == 0x1680
    || (0x2000 <= k <= 0x200A) || k == 0x2028 || k == 0x2029 || k == 0x202F
    || k == 0x205F || k == 0x3000
  }
}
