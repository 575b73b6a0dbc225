/** `toHexString` of src/core/helpers.ts: `n.toString(16)` left-padded with '0'
    to two characters, optionally behind a "0x" prefix. */
module Helpers {

  /** The characters `Number.prototype.toString(16)` uses, most significant first. */
  const LowerHexDigits: string := "0123456789abcdef"

  predicate IsLowerHexDigit(c: char) {
    '0' <= c <= '9' || 'a' <= c <= 'f'
  }

  predicate AllLowerHex(s: string) {
    forall i :: 0 <= i < |s| ==> IsLowerHexDigit(s[i])
  }

  lemma AllLowerHexConcat(a: string, b: string)
    requires AllLowerHex(a) && AllLowerHex(b)
    ensures AllLowerHex(a + b)
  {
  }

  /** Digits accepted by `parseInt(_, 16)`: either case. */
  predicate IsHexDigit(c: char) {
    '0' <= c <= '9' || 'a' <= c <= 'f' || 'A' <= c <= 'F'
  }

  function HexDigit(d: nat): (c: char)
    requires d < 16
    ensures IsLowerHexDigit(c) && HexDigitValue(c) == d
  {
    LowerHexDigits[d]
  }

  function HexDigitValue(c: char): (d: nat)
    ensures d < 16
  {
    if '0' <= c <= '9' then (c - '0') as nat
    else if 'a' <= c <= 'f' then (c - 'a') as nat + 10
    else if 'A' <= c <= 'F' then (c - 'A') as nat + 10
    else 0
  }

  /** `parseInt(s, 16)` on a string of hex digits: base 16, most significant digit
      first. k digits read as a number below 16^k. */
  function ParseHex(s: string): (v: nat)
    ensures v < Pow16(|s|)
  {
    if s == [] then 0 else ParseHex(s[..|s| - 1]) * 16 + HexDigitValue(s[|s| - 1])
  }

  function Pow16(k: nat): (p: nat)
    ensures p >= 1
  {
    if k == 0 then 1 else 16 * Pow16(k - 1)
  }

  /** `n.toString(16)` for a non-negative integer: lowercase digits, no leading zero. */
  function ToBase16(n: nat): (s: string)
    ensures |s| >= 1
    ensures forall i :: 0 <= i < |s| ==> IsLowerHexDigit(s[i])
    ensures n >= 16 ==> s[0] != '0'
  {
    if n < 16 then [HexDigit(n)] else ToBase16(n / 16) + [HexDigit(n % 16)]
  }

  /** `s.padStart(len, fill)`. */
  function PadStart(s: string, len: nat, fill: char): (r: string)
    ensures |r| == if |s| >= len then |s| else len
    ensures r[|r| - |s|..] == s
    ensures forall i :: 0 <= i < |r| - |s| ==> r[i] == fill
  {
    if |s| >= len then s else seq(len - |s|, _ => fill) + s
  }

  /** toHexString(n, withPrefix), src/core/helpers.ts:1-4. */
  function ToHexString(n: nat, withPrefix: bool): (r: string)
    ensures withPrefix ==> r == "0x" + ToHexString(n, false)
    ensures !withPrefix ==> |r| >= 2 && AllLowerHex(r)
    ensures !withPrefix && n < 16 ==> r[0] == '0'
    ensures !withPrefix && n >= 16 ==> r == ToBase16(n)
  {
    var result := PadStart(ToBase16(n), 2, '0');
    if withPrefix then "0x" + result else result
  }

  lemma {:induction false} ParseHexSnoc(s: string, c: char)
    ensures ParseHex(s + [c]) == ParseHex(s) * 16 + HexDigitValue(c)
  {
    assert (s + [c])[..|s + [c]| - 1] == s;
  }

  /** A leading '0' does not change the value read. */
  lemma {:induction false} ParseHexLeadingZero(s: string)
    ensures ParseHex(['0'] + s) == ParseHex(s)
    decreases |s|
  {
    if s != [] {
      var init := s[..|s| - 1];
      assert (['0'] + s)[..|['0'] + s| - 1] == ['0'] + init;
      ParseHexLeadingZero(init);
    }
  }

  /** Reading `n.toString(16)` back in base 16 gives n. */
  lemma {:induction false} ParseToBase16(n: nat)
    ensures ParseHex(ToBase16(n)) == n
    decreases n
  {
    if n < 16 {
      assert [HexDigit(n)] == [] + [HexDigit(n)];
      ParseHexSnoc([], HexDigit(n));
    } else {
      ParseToBase16(n / 16);
      ParseHexSnoc(ToBase16(n / 16), HexDigit(n % 16));
    }
  }

  /** Reading the unprefixed result of toHexString as base 16 gives back n. */
  lemma ParseToHexString(n: nat)
    ensures ParseHex(ToHexString(n, false)) == n
  {
    ParseToBase16(n);
    var s := ToBase16(n);
    if |s| < 2 {
      assert ToHexString(n, false) == ['0'] + s;
      ParseHexLeadingZero(s);
    }
  }

  /** The number of digits of `n.toString(16)` is the least k with n < 16^k. */
  lemma {:induction false} ToBase16Length(n: nat)
    ensures n < Pow16(|ToBase16(n)|)
    ensures |ToBase16(n)| == 1 || Pow16(|ToBase16(n)| - 1) <= n
    decreases n
  {
    if n >= 16 {
      ToBase16Length(n / 16);
    }
  }

  /** For a byte value the unprefixed result is exactly two characters. */
  lemma ToHexStringOfByte(n: nat)
    requires n < 256
    ensures |ToHexString(n, false)| == 2
  {
    ToBase16Length(n);
  }

  /** From 256 on nothing is truncated: the result has exactly as many characters
      as n has hex digits. */
  lemma ToHexStringWide(n: nat)
    requires n >= 256
    ensures Pow16(|ToHexString(n, false)| - 1) <= n < Pow16(|ToHexString(n, false)|)
    ensures |ToHexString(n, false)| >= 3
  {
    ToBase16Length(n);
  }
}
