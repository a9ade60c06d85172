/**
 * Well-formed UTF-8 as `String::from_utf8` accepts it (Table 3-7 of the Unicode
 * Standard, section 3.9): no overlong forms, no surrogates, nothing above U+10FFFF.
 */
module Utf8 {
  import opened Text

  predicate InRange(b: byte, lo: int, hi: int) {
    lo <= b <= hi
  }

  /** A continuation byte 80..BF. */
  predicate IsContinuation(b: byte) {
    InRange(b, 0x80, 0xBF)
  }

  /** Length of the well-formed sequence `bs` starts with, or 0 when it starts ill-formed. */
  function SequenceLength(bs: seq<byte>): (n: nat)
    requires |bs| > 0
    ensures n <= |bs| && n <= 4
  {
    var b0 := bs[0];
    if b0 <= 0x7F then 1
    else if InRange(b0, 0xC2, 0xDF) then
      if |bs| >= 2 && IsContinuation(bs[1]) then 2 else 0
    else if InRange(b0, 0xE0, 0xEF) then
      var lo := if b0 == 0xE0 then 0xA0 else 0x80;
      var hi := if b0 == 0xED then 0x9F else 0xBF;
      if |bs| >= 3 && InRange(bs[1], lo, hi) && IsContinuation(bs[2]) then 3 else 0
    else if InRange(b0, 0xF0, 0xF4) then
      var lo := if b0 == 0xF0 then 0x90 else 0x80;
      var hi := if b0 == 0xF4 then 0x8F else 0xBF;
      if |bs| >= 4 && InRange(bs[1], lo, hi) && IsContinuation(bs[2]) && IsContinuation(bs[3]) then 4 else 0
    else 0
  }

  /** `bs` is a concatenation of well-formed UTF-8 sequences. */
  predicate IsValid(bs: seq<byte>)
    decreases |bs|
  {
    |bs| == 0 || (SequenceLength(bs) > 0 && IsValid(bs[SequenceLength(bs)..]))
  }

  /** Every 7-bit byte string is valid UTF-8 (the ASCII subset encodes itself). */
  lemma {:induction false} AsciiIsValid(bs: seq<byte>)
    requires forall i :: 0 <= i < |bs| ==> bs[i] < 0x80
    ensures IsValid(bs)
  {
    if |bs| > 0 {
      assert SequenceLength(bs) == 1;
      AsciiIsValid(bs[1..]);
    }
  }

  /** Bytes UTF-8 spends on the scalar value `c`. */
  function Width(c: char): nat {
    if c as int < 0x80 then 1 else if c as int < 0x800 then 2 else if c as int < 0x1_0000 then 3 else 4
  }

  /** `str::len()`: the UTF-8 byte length of `s`. */
  function EncodedLength(s: string): (n: nat)
    ensures n >= |s|
    ensures n == |s| <==> forall i :: 0 <= i < |s| ==> s[i] as int < 0x80
  {
    if |s| == 0 then 0 else Width(s[0]) + EncodedLength(s[1..])
  }
}
