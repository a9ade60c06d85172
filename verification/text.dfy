/** Bytes and the digit renderings Rust's `format!` produces for `{}` and `{:x}`. */
module Text {

  /** An unsigned 8-bit value (`u8`). */
  type byte = b: int | 0 <= b < 256

  /** True of the characters a single 7-bit byte encodes. */
  predicate IsAscii(s: string) {
    forall i :: 0 <= i < |s| ==> s[i] as int < 128
  }

  /** The UTF-8 bytes of an ASCII string: one byte per character. */
  function AsciiBytes(s: string): (bs: seq<byte>)
    requires IsAscii(s)
    ensures |bs| == |s|
    ensures forall i :: 0 <= i < |s| ==> bs[i] == s[i] as int
  {
    seq(|s|, i requires 0 <= i < |s| => s[i] as int as byte)
  }

  /** A lower-case hexadecimal digit character. */
  predicate IsHexChar(c: char) {
    '0' <= c <= '9' || 'a' <= c <= 'f'
  }

  function DigitValue(c: char): (d: nat)
    requires IsHexChar(c)
    ensures d < 16
  {
    if '0' <= c <= '9' then c as int - '0' as int else c as int - 'a' as int + 10
  }

  /** `c` is a lower-case digit of `base`. */
  predicate IsDigit(c: char, base: nat) {
    IsHexChar(c) && DigitValue(c) < base
  }

  /** The digit character for `d`, lower case above nine, as `{:x}` prints it. */
  function DigitChar(d: nat): (c: char)
    requires d < 16
    ensures IsHexChar(c) && DigitValue(c) == d
  {
    if d < 10 then ('0' as int + d) as char else ('a' as int + d - 10) as char
  }

  /** Positional rendering of `n` in `base`, most significant digit first, no leading zeros. */
  function Digits(n: nat, base: nat): (s: string)
    requires 2 <= base <= 16
    ensures |s| >= 1
    ensures forall i :: 0 <= i < |s| ==> IsDigit(s[i], base)
    decreases n
  {
    if n < base then [DigitChar(n)]
    else
      DivisionShrinks(n, base);
      Digits(n / base, base) + [DigitChar(n % base)]
  }

  lemma DivisionShrinks(n: nat, base: nat)
    requires 2 <= base <= n
    ensures n / base < n && n % base < base
    ensures (n / base) * base + n % base == n
  {
  }

  /** `format!("{}", n)`. */
  function Decimal(n: nat): string {
    Digits(n, 10)
  }

  /** `format!("{:x}", n)`. */
  function LowerHex(n: nat): string {
    Digits(n, 16)
  }

  /** The number a string of `base` digits denotes; the partner of `Digits`. */
  function ParseDigits(s: string, base: nat): nat
    requires 2 <= base <= 16
    requires forall i :: 0 <= i < |s| ==> IsDigit(s[i], base)
  {
    if |s| == 0 then 0
    else
      var last := s[|s| - 1];
      assert IsDigit(last, base);
      ParseDigits(s[..|s| - 1], base) * base + DigitValue(last)
  }

  /** Rendering then parsing gives the number back, so a message carrying `Digits(n)` identifies `n`. */
  lemma {:induction false} DigitsRoundTrip(n: nat, base: nat)
    requires 2 <= base <= 16
    ensures ParseDigits(Digits(n, base), base) == n
    decreases n
  {
    if n >= base {
      var s := Digits(n, base);
      DivisionShrinks(n, base);
      DigitsRoundTrip(n / base, base);
      assert s[..|s| - 1] == Digits(n / base, base);
      assert DigitValue(s[|s| - 1]) == n % base;
    }
  }
}
