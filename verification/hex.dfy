/**
 * Byte <-> hex-digit-pair conversion shared by both example libraries: encoding is
 * `format!("{:02x}", b)` per byte, decoding is `u8::from_str_radix(pair, 16)` per
 * two-character slice.
 */
module Hex {
  import opened Wrappers
  import opened Text

  /** `format!("{:02x}", b)`: two lower-case digits, high nibble first. */
  function EncodeByte(b: byte): (s: string)
    ensures |s| == 2 && IsHexChar(s[0]) && IsHexChar(s[1])
    ensures 16 * DigitValue(s[0]) + DigitValue(s[1]) == b
  {
    [DigitChar(b / 16), DigitChar(b % 16)]
  }

  /** The bytes of `bs`, each rendered as two lower-case hex digits, concatenated. */
  function Encode(bs: seq<byte>): (s: string)
    ensures |s| == 2 * |bs|
    ensures forall i :: 0 <= i < |s| ==> IsHexChar(s[i])
  {
    if |bs| == 0 then [] else EncodeByte(bs[0]) + Encode(bs[1..])
  }

  /** Rust's `char::is_ascii_hexdigit`: either case. */
  predicate IsAsciiHexDigit(c: char) {
    '0' <= c <= '9' || 'a' <= c <= 'f' || 'A' <= c <= 'F'
  }

  function HexDigitValue(c: char): (d: nat)
    requires IsAsciiHexDigit(c)
    ensures d < 16
  {
    if '0' <= c <= '9' then c as int - '0' as int
    else if 'a' <= c <= 'f' then c as int - 'a' as int + 10
    else c as int - 'A' as int + 10
  }

  /**
   * `u8::from_str_radix(&[a, b], 16)`. Besides two hex digits of either case, the
   * standard library accepts a leading `+` followed by one digit, so "+f" parses as 15.
   */
  function ParsePair(a: char, b: char): (r: Option<byte>)
    ensures r.Some? <==> (IsAsciiHexDigit(a) || a == '+') && IsAsciiHexDigit(b)
    ensures r.Some? && a != '+' ==> r.value == 16 * HexDigitValue(a) + HexDigitValue(b)
    ensures r.Some? && a == '+' ==> r.value == HexDigitValue(b)
  {
    if a == '+' then
      if IsAsciiHexDigit(b) then Some(HexDigitValue(b)) else None
    else if IsAsciiHexDigit(a) && IsAsciiHexDigit(b) then
      Some(16 * HexDigitValue(a) + HexDigitValue(b))
    else None
  }

  /**
   * The decoding loop `for i in (0..hex.len()).step_by(2)`: parse each pair in turn and
   * stop at the first that fails, reporting that pair.
   */
  function DecodePairs(hex: string): (r: Result<seq<byte>, string>)
    requires |hex| % 2 == 0
    ensures r.Ok? <==> forall k :: 0 <= k < |hex| / 2 ==> PairParses(hex, k)
    ensures r.Ok? ==> 2 * |r.value| == |hex|
    ensures r.Ok? ==> forall k :: 0 <= k < |r.value| ==> ParsePair(hex[2 * k], hex[2 * k + 1]) == Some(r.value[k])
    ensures r.Err? ==> exists k: nat :: FirstBadPair(hex, k) && r.error == hex[2 * k..2 * k + 2]
  {
    if |hex| == 0 then Ok([])
    else
      match ParsePair(hex[0], hex[1])
      case None =>
        assert FirstBadPair(hex, 0);
        Err(hex[..2])
      case Some(b) =>
        var rest := DecodePairs(hex[2..]);
        PairsShift(hex);
        match rest
        case Ok(bs) =>
          DecodedPrepend(hex, b, bs);
          Ok([b] + bs)
        case Err(e) =>
          assert exists j: nat :: FirstBadPair(hex, j) && e == hex[2 * j..2 * j + 2] by {
            var k: nat :| FirstBadPair(hex[2..], k) && e == hex[2..][2 * k..2 * k + 2];
            FirstBadShift(hex, k);
          }
          Err(e)
  }

  /** The pairs of `hex` decode to `b` followed by what the pairs after the first decode to. */
  lemma DecodedPrepend(hex: string, b: byte, bs: seq<byte>)
    requires |hex| >= 2 && ParsePair(hex[0], hex[1]) == Some(b) && 2 * |bs| + 2 == |hex|
    requires forall k :: 0 <= k < |bs| ==> ParsePair(hex[2..][2 * k], hex[2..][2 * k + 1]) == Some(bs[k])
    ensures forall k :: 0 <= k < |bs| + 1 ==> ParsePair(hex[2 * k], hex[2 * k + 1]) == Some(([b] + bs)[k])
  {
    forall k | 1 <= k < |bs| + 1
      ensures ParsePair(hex[2 * k], hex[2 * k + 1]) == Some(([b] + bs)[k])
    {
      assert hex[2 * k] == hex[2..][2 * (k - 1)];
      assert hex[2 * k + 1] == hex[2..][2 * (k - 1) + 1];
    }
  }

  /** The first bad pair after the leading good one is the first bad pair of the whole. */
  lemma FirstBadShift(hex: string, k: nat)
    requires |hex| >= 2 && ParsePair(hex[0], hex[1]).Some? && FirstBadPair(hex[2..], k)
    ensures FirstBadPair(hex, k + 1)
    ensures hex[2..][2 * k..2 * k + 2] == hex[2 * (k + 1)..2 * (k + 1) + 2]
  {
    PairsShift(hex);
    assert PairParses(hex, 0);
  }

  /** Pair `k` is the first of `hex` that does not parse: every pair before it does. */
  ghost predicate FirstBadPair(hex: string, k: nat) {
    && 2 * k + 1 < |hex|
    && !PairParses(hex, k)
    && forall j :: 0 <= j < k ==> PairParses(hex, j)
  }

  /** The `k`-th two-character pair of `hex` parses. */
  predicate PairParses(hex: string, k: nat)
    requires 2 * k + 1 < |hex|
  {
    ParsePair(hex[2 * k], hex[2 * k + 1]).Some?
  }

  lemma PairsShift(hex: string)
    requires |hex| >= 2
    ensures forall k :: 1 <= k < |hex| / 2 ==> PairParses(hex, k) == PairParses(hex[2..], k - 1)
  {
    forall k | 1 <= k < |hex| / 2
      ensures PairParses(hex, k) == PairParses(hex[2..], k - 1)
    {
      assert hex[2 * k] == hex[2..][2 * (k - 1)];
      assert hex[2 * k + 1] == hex[2..][2 * (k - 1) + 1];
    }
  }

  lemma LowerDigitIsAsciiHex(c: char)
    requires IsHexChar(c)
    ensures IsAsciiHexDigit(c) && HexDigitValue(c) == DigitValue(c)
  {
  }

  /** Decoding inverts encoding: every byte sequence survives `Encode` then `DecodePairs`. */
  lemma {:induction false} DecodeEncode(bs: seq<byte>)
    ensures DecodePairs(Encode(bs)) == Ok(bs)
  {
    if |bs| > 0 {
      var s := Encode(bs);
      var e := EncodeByte(bs[0]);
      assert s == e + Encode(bs[1..]);
      LowerDigitIsAsciiHex(e[0]);
      LowerDigitIsAsciiHex(e[1]);
      assert ParsePair(s[0], s[1]) == Some(bs[0]);
      assert s[2..] == Encode(bs[1..]);
      DecodeEncode(bs[1..]);
      assert DecodePairs(s) == Ok([bs[0]] + bs[1..]);
      assert [bs[0]] + bs[1..] == bs;
    }
  }
}
