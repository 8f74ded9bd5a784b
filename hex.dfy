/** Hexadecimal digit strings: the arithmetic behind Python's `int(s, 16)`,
    `hex(n)[2:]` and `str.rjust`, which the colour code relies on. */
module HexStrings {

  predicate IsHexDigit(c: char) {
    '0' <= c <= '9' || 'a' <= c <= 'f' || 'A' <= c <= 'F'
  }

  /** The character class `[0-9a-f]` of a regular expression. */
  predicate IsLowerHexDigit(c: char) {
    '0' <= c <= '9' || 'a' <= c <= 'f'
  }

  predicate AllHexDigits(s: string) {
    forall i :: 0 <= i < |s| ==> IsHexDigit(s[i])
  }

  predicate AllLowerHexDigits(s: string) {
    forall i :: 0 <= i < |s| ==> IsLowerHexDigit(s[i])
  }

  function DigitValue(c: char): (d: nat)
    requires IsHexDigit(c)
    ensures d < 16
  {
    if '0' <= c <= '9' then c as int - '0' as int
    else if 'a' <= c <= 'f' then c as int - 'a' as int + 10
    else c as int - 'A' as int + 10
  }

  /** The digit Python's `hex` prints for `d`: lower case. */
  function LowerDigit(d: nat): (c: char)
    requires d < 16
    ensures IsLowerHexDigit(c) && DigitValue(c) == d
  {
    if d < 10 then ('0' as int + d) as char else ('a' as int + d - 10) as char
  }

  function Pow16(k: nat): (p: nat)
    ensures p >= 1
  {
    if k == 0 then 1 else 16 * Pow16(k - 1)
  }

  /** The value of a string of hexadecimal digits, most significant first. */
  function ParseHex(s: string): nat
    requires AllHexDigits(s)
  {
    if s == [] then 0 else ParseHex(s[..|s| - 1]) * 16 + DigitValue(s[|s| - 1])
  }

  /** `hex(n)[2:]`: the lower-case digits of `n` without leading zeros
      ("0" for zero). */
  function Hex(n: nat): (s: string)
    ensures 1 <= |s| && AllLowerHexDigits(s)
    ensures ParseHex(s) == n
    ensures n > 0 ==> s[0] != '0'
  {
    if n < 16 then [LowerDigit(n)]
    else
      var high := Hex(n / 16);
      var s := high + [LowerDigit(n % 16)];
      assert s[..|s| - 1] == high;
      s
  }

  function Repeat(c: char, k: nat): string {
    seq(k, _ => c)
  }

  /** `s.rjust(width, fill)`. */
  function RJust(s: string, width: nat, fill: char): string {
    if |s| >= width then s else Repeat(fill, width - |s|) + s
  }

  /** `hex(n)[2:]` fits in `k` digits exactly when `n < 16^k`. */
  lemma {:induction false} HexLength(n: nat, k: nat)
    requires k >= 1
    ensures |Hex(n)| <= k <==> n < Pow16(k)
  {
    if n >= 16 {
      if k == 1 {
        assert |Hex(n)| == |Hex(n / 16)| + 1;
      } else {
        HexLength(n / 16, k - 1);
        assert |Hex(n)| == |Hex(n / 16)| + 1;
      }
    }
  }

  /** A value written in `|s|` digits is below `16^|s|`. */
  lemma {:induction false} ParseHexBound(s: string)
    requires AllHexDigits(s)
    ensures ParseHex(s) < Pow16(|s|)
  {
    if s != [] {
      ParseHexBound(s[..|s| - 1]);
    }
  }

  /** Leading zeros do not change the value. */
  lemma {:induction false} ParseHexLeadingZeros(k: nat, s: string)
    requires AllHexDigits(s)
    ensures AllHexDigits(Repeat('0', k) + s)
    ensures ParseHex(Repeat('0', k) + s) == ParseHex(s)
  {
    var z := Repeat('0', k) + s;
    if s == [] {
      assert z == Repeat('0', k);
      if k > 0 {
        assert z[..|z| - 1] == Repeat('0', k - 1) + s;
        ParseHexLeadingZeros(k - 1, s);
      }
    } else {
      var init := s[..|s| - 1];
      assert z[..|z| - 1] == Repeat('0', k) + init;
      ParseHexLeadingZeros(k, init);
    }
  }

  /** Concatenating digit strings shifts the first by the length of the
      second. */
  lemma {:induction false} ParseHexAppend(a: string, b: string)
    requires AllHexDigits(a) && AllHexDigits(b)
    ensures AllHexDigits(a + b)
    ensures ParseHex(a + b) == ParseHex(a) * Pow16(|b|) + ParseHex(b)
  {
    if b == [] {
      assert a + b == a;
    } else {
      var init := b[..|b| - 1];
      assert (a + b)[..|a + b| - 1] == a + init;
      ParseHexAppend(a, init);
      var d := DigitValue(b[|b| - 1]);
      assert ParseHex(a + b) == ParseHex(a + init) * 16 + d;
      assert ParseHex(b) == ParseHex(init) * 16 + d;
      assert Pow16(|b|) == Pow16(|init|) * 16;
      Regroup(ParseHex(a), Pow16(|init|), ParseHex(init), d);
    }
  }

  /** Appending one digit multiplies by 16: `(x p + y) 16 + d = x (16 p) + (16 y + d)`. */
  lemma Regroup(x: int, p: int, y: int, d: int)
    ensures (x * p + y) * 16 + d == x * (p * 16) + (y * 16 + d)
  {
  }

  /** Two lower-case digit strings of one length with one value are equal:
      the printed form of a value in a fixed width is unique. */
  lemma {:induction false} ParseHexInjective(a: string, b: string)
    requires AllLowerHexDigits(a) && AllLowerHexDigits(b) && |a| == |b|
    ensures ParseHex(a) == ParseHex(b) ==> a == b
  {
    if a != [] && ParseHex(a) == ParseHex(b) {
      var n := |a| - 1;
      ParseHexInjective(a[..n], b[..n]);
      assert DigitValue(a[n]) == ParseHex(a) % 16 == DigitValue(b[n]);
      assert ParseHex(a[..n]) == ParseHex(a) / 16 == ParseHex(b[..n]);
      assert a == a[..n] + [a[n]] && b == b[..n] + [b[n]];
    }
  }
}
