/**
 * examples/reference/src/lib.rs: `ValueConverter`, a 1..8-byte buffer readable as
 * little-endian integers, raw bytes, UTF-8 text or lower-case hex.
 */
module ValueConverter {
  import opened Wrappers
  import opened Text
  import Hex
  import Utf8

  /** `MAX_BUFFER_SIZE`. */
  const MaxBufferSize: nat := 8

  type i32 = x: int | -0x8000_0000 <= x < 0x8000_0000
  type u32 = x: int | 0 <= x < 0x1_0000_0000
  type i64 = x: int | -0x8000_0000_0000_0000 <= x < 0x8000_0000_0000_0000
  type u64 = x: int | 0 <= x < 0x1_0000_0000_0000_0000

  datatype ConvError =
    | OutOfRange(msg: string)
    | InvalidUtf8(msg: string)
    | InvalidHex(msg: string)
    | BufferTooLarge(got: nat, max: nat)
    | EmptyValue

  datatype Converter = Converter(bytes: seq<byte>)

  /** What every constructor guarantees: between one and `MAX_BUFFER_SIZE` bytes. */
  predicate Valid(c: Converter) {
    1 <= |c.bytes| <= MaxBufferSize
  }

  function Pow256(n: nat): (p: nat)
    ensures p >= 1
  {
    if n == 0 then 1 else 256 * Pow256(n - 1)
  }

  /** `to_le_bytes` of an unsigned value: `n` bytes, least significant first. */
  function LittleEndian(v: nat, n: nat): (bs: seq<byte>)
    requires v < Pow256(n)
    ensures |bs| == n
  {
    if n == 0 then [] else [v % 256] + LittleEndian(v / 256, n - 1)
  }

  /** `from_le_bytes` read as an unsigned value. */
  function FromLittleEndian(bs: seq<byte>): (v: nat)
    ensures v < Pow256(|bs|)
  {
    if |bs| == 0 then 0 else bs[0] + 256 * FromLittleEndian(bs[1..])
  }

  /** Reading back what was written gives the value. */
  lemma {:induction false} ReadWritten(v: nat, n: nat)
    requires v < Pow256(n)
    ensures FromLittleEndian(LittleEndian(v, n)) == v
  {
    if n > 0 {
      ReadWritten(v / 256, n - 1);
      assert LittleEndian(v, n)[1..] == LittleEndian(v / 256, n - 1);
    }
  }

  /** Writing back what was read gives the bytes. */
  lemma {:induction false} WriteRead(bs: seq<byte>)
    ensures LittleEndian(FromLittleEndian(bs), |bs|) == bs
  {
    if |bs| > 0 {
      var v := FromLittleEndian(bs);
      WriteRead(bs[1..]);
      assert v % 256 == bs[0] && v / 256 == FromLittleEndian(bs[1..]);
    }
  }

  /** Two's complement: the unsigned `bits`-bit pattern of a signed value, and back. */
  function ToUnsigned(v: int, bits: nat): nat
    requires -(Pow2(bits) as int) <= 2 * v < Pow2(bits)
  {
    if v < 0 then v + Pow2(bits) else v
  }

  function ToSigned(u: nat, bits: nat): int
    requires u < Pow2(bits)
  {
    if 2 * u >= Pow2(bits) then u - Pow2(bits) else u
  }

  function Pow2(n: nat): (p: nat)
    ensures p >= 1
  {
    if n == 0 then 1 else 2 * Pow2(n - 1)
  }

  lemma Pow2Values()
    ensures Pow2(32) == Pow256(4) == 0x1_0000_0000
    ensures Pow2(64) == Pow256(8) == 0x1_0000_0000_0000_0000
  {
    assert Pow2(8) == 256;
    assert Pow2(16) == 256 * 256;
    assert Pow2(32) == Pow2(16) * Pow2(16) by { Pow2Add(16, 16); }
    assert Pow2(64) == Pow2(32) * Pow2(32) by { Pow2Add(32, 32); }
  }

  lemma {:induction false} Pow2Add(a: nat, b: nat)
    ensures Pow2(a + b) == Pow2(a) * Pow2(b)
  {
    if a > 0 {
      Pow2Add(a - 1, b);
    }
  }

  /** `from_u32`. */
  function FromU32(v: u32): (c: Converter)
    ensures Valid(c) && |c.bytes| == 4 && FromLittleEndian(c.bytes) == v
  {
    Pow2Values();
    ReadWritten(v, 4);
    Converter(LittleEndian(v, 4))
  }

  /** `from_i32`: the two's-complement bit pattern, little-endian. */
  function FromI32(v: i32): (c: Converter)
    ensures Valid(c) && |c.bytes| == 4 && FromLittleEndian(c.bytes) == (if v < 0 then v + 0x1_0000_0000 else v)
  {
    Pow2Values();
    var u := ToUnsigned(v, 32);
    ReadWritten(u, 4);
    Converter(LittleEndian(u, 4))
  }

  /** `from_u64`. */
  function FromU64(v: u64): (c: Converter)
    ensures Valid(c) && |c.bytes| == 8 && FromLittleEndian(c.bytes) == v
  {
    Pow2Values();
    ReadWritten(v, 8);
    Converter(LittleEndian(v, 8))
  }

  /** `from_i64`. */
  function FromI64(v: i64): (c: Converter)
    ensures Valid(c) && |c.bytes| == 8
    ensures FromLittleEndian(c.bytes) == (if v < 0 then v + 0x1_0000_0000_0000_0000 else v)
  {
    Pow2Values();
    var u := ToUnsigned(v, 64);
    ReadWritten(u, 8);
    Converter(LittleEndian(u, 8))
  }

  /** The length checks shared by `from_bytes` and `from_string`. */
  function CheckLength(bs: seq<byte>): (r: Result<Converter, ConvError>)
    ensures r.Ok? <==> 1 <= |bs| <= MaxBufferSize
    ensures r.Ok? ==> r.value == Converter(bs) && Valid(r.value)
    ensures |bs| == 0 ==> r == Err(EmptyValue)
    ensures |bs| > MaxBufferSize ==> r == Err(BufferTooLarge(|bs|, MaxBufferSize))
  {
    if |bs| == 0 then Err(EmptyValue)
    else if |bs| > MaxBufferSize then Err(BufferTooLarge(|bs|, MaxBufferSize))
    else Ok(Converter(bs))
  }

  /** `from_bytes`. */
  function FromBytes(bs: seq<byte>): (r: Result<Converter, ConvError>)
    ensures r.Ok? <==> 1 <= |bs| <= MaxBufferSize
    ensures r.Ok? ==> r.value.bytes == bs && Valid(r.value)
    ensures |bs| == 0 ==> r == Err(EmptyValue)
    ensures |bs| > MaxBufferSize ==> r == Err(BufferTooLarge(|bs|, MaxBufferSize))
  {
    CheckLength(bs)
  }

  /** `from_string(s)`, given the UTF-8 bytes of `s` (valid, as every `&str` is). */
  function FromString(utf8: seq<byte>): (r: Result<Converter, ConvError>)
    requires Utf8.IsValid(utf8)
    ensures r.Ok? <==> 1 <= |utf8| <= MaxBufferSize
    ensures r.Ok? ==> r.value.bytes == utf8 && Valid(r.value)
    ensures |utf8| == 0 ==> r == Err(EmptyValue)
    ensures |utf8| > MaxBufferSize ==> r == Err(BufferTooLarge(|utf8|, MaxBufferSize))
  {
    CheckLength(utf8)
  }

  /**
   * `from_hex`: empty, then odd length, then the first bad pair, and only after the whole
   * string decoded, the size bound.
   */
  function FromHex(hex: string): (r: Result<Converter, ConvError>)
    requires IsAscii(hex)
    ensures |hex| == 0 ==> r == Err(EmptyValue)
    ensures |hex| > 0 && |hex| % 2 == 1 ==> r == Err(InvalidHex("odd length"))
    ensures |hex| > 0 && |hex| % 2 == 0 && Hex.DecodePairs(hex).Err? ==>
      r == Err(InvalidHex("invalid byte: " + Hex.DecodePairs(hex).error))
    ensures |hex| > 0 && |hex| % 2 == 0 && Hex.DecodePairs(hex).Ok? && |hex| > 2 * MaxBufferSize ==>
      r == Err(BufferTooLarge(|hex| / 2, MaxBufferSize))
    ensures r.Ok? <==> 0 < |hex| <= 2 * MaxBufferSize && |hex| % 2 == 0 && Hex.DecodePairs(hex).Ok?
    ensures r.Ok? ==> Valid(r.value) && 2 * |r.value.bytes| == |hex| && r.value.bytes == Hex.DecodePairs(hex).value
  {
    if |hex| == 0 then Err(EmptyValue)
    else if |hex| % 2 != 0 then Err(InvalidHex("odd length"))
    else
      match Hex.DecodePairs(hex)
      case Err(pair) => Err(InvalidHex("invalid byte: " + pair))
      case Ok(bs) =>
        if |bs| > MaxBufferSize then Err(BufferTooLarge(|bs|, MaxBufferSize)) else Ok(Converter(bs))
  }

  /** The `OutOfRange` message of the fixed-width readers. */
  function WidthMessage(width: nat, name: string, got: nat): string {
    "need exactly " + Decimal(width) + " bytes for " + name + ", got " + Decimal(got)
  }

  /** `to_u32`: exactly four bytes, read little-endian. */
  function ToU32(c: Converter): (r: Result<u32, ConvError>)
    ensures r.Ok? <==> |c.bytes| == 4
    ensures r.Err? ==> r.error == OutOfRange(WidthMessage(4, "u32", |c.bytes|))
    ensures r.Ok? ==> LittleEndian(r.value, 4) == c.bytes
  {
    if |c.bytes| != 4 then Err(OutOfRange(WidthMessage(4, "u32", |c.bytes|)))
    else
      Pow2Values();
      WriteRead(c.bytes);
      Ok(FromLittleEndian(c.bytes))
  }

  /** `to_i32`: exactly four bytes, read as a two's-complement little-endian value. */
  function ToI32(c: Converter): (r: Result<i32, ConvError>)
    ensures r.Ok? <==> |c.bytes| == 4
    ensures r.Err? ==> r.error == OutOfRange(WidthMessage(4, "i32", |c.bytes|))
    ensures r.Ok? ==> FromLittleEndian(c.bytes) == (if r.value < 0 then r.value + 0x1_0000_0000 else r.value)
  {
    if |c.bytes| != 4 then Err(OutOfRange(WidthMessage(4, "i32", |c.bytes|)))
    else
      Pow2Values();
      Ok(ToSigned(FromLittleEndian(c.bytes), 32))
  }

  /** `to_u64`. */
  function ToU64(c: Converter): (r: Result<u64, ConvError>)
    ensures r.Ok? <==> |c.bytes| == 8
    ensures r.Err? ==> r.error == OutOfRange(WidthMessage(8, "u64", |c.bytes|))
    ensures r.Ok? ==> LittleEndian(r.value, 8) == c.bytes
  {
    if |c.bytes| != 8 then Err(OutOfRange(WidthMessage(8, "u64", |c.bytes|)))
    else
      Pow2Values();
      WriteRead(c.bytes);
      Ok(FromLittleEndian(c.bytes))
  }

  /** `to_i64`. */
  function ToI64(c: Converter): (r: Result<i64, ConvError>)
    ensures r.Ok? <==> |c.bytes| == 8
    ensures r.Err? ==> r.error == OutOfRange(WidthMessage(8, "i64", |c.bytes|))
    ensures r.Ok? ==> FromLittleEndian(c.bytes) == (if r.value < 0 then r.value + 0x1_0000_0000_0000_0000 else r.value)
  {
    if |c.bytes| != 8 then Err(OutOfRange(WidthMessage(8, "i64", |c.bytes|)))
    else
      Pow2Values();
      Ok(ToSigned(FromLittleEndian(c.bytes), 64))
  }

  /** `to_string`: the bytes as text when they are well-formed UTF-8. */
  function ToText(c: Converter): (r: Result<seq<byte>, ConvError>)
    ensures r.Ok? <==> Utf8.IsValid(c.bytes)
    ensures r.Ok? ==> r.value == c.bytes
  {
    if Utf8.IsValid(c.bytes) then Ok(c.bytes) else Err(InvalidUtf8("invalid utf-8 sequence"))
  }

  /** `to_hex`: two lower-case digits per byte. */
  function ToHex(c: Converter): (s: string)
    ensures |s| == 2 * |c.bytes|
    ensures forall i :: 0 <= i < |s| ==> IsHexChar(s[i])
  {
    Hex.Encode(c.bytes)
  }

  /** `len`: the number of stored bytes, half the length of `to_hex`. */
  function Len(c: Converter): (n: nat)
    ensures 2 * n == |ToHex(c)|
  {
    |c.bytes|
  }

  /** `as_bytes`: the stored bytes, exactly what `to_hex` encodes. */
  function AsBytes(c: Converter): (b: seq<byte>)
    ensures |b| == Len(c)
    ensures Hex.DecodePairs(ToHex(c)) == Ok(b)
  {
    Hex.DecodeEncode(c.bytes);
    c.bytes
  }

  /** `is_empty`: `len() == 0`, equivalently an empty `to_hex`. */
  function IsEmpty(c: Converter): (e: bool)
    ensures e <==> Len(c) == 0
    ensures e <==> ToHex(c) == []
  {
    |c.bytes| == 0
  }

  /** Every successfully built converter has `1 <= len() <= MAX_BUFFER_SIZE`, so is never empty. */
  lemma ConstructedLengthBounds(bs: seq<byte>, hex: string)
    requires IsAscii(hex)
    ensures FromBytes(bs).Ok? ==> 1 <= Len(FromBytes(bs).value) <= MaxBufferSize && !IsEmpty(FromBytes(bs).value)
    ensures FromHex(hex).Ok? ==> 1 <= Len(FromHex(hex).value) <= MaxBufferSize
  {
  }

  lemma RoundTripU32(v: u32)
    ensures ToU32(FromU32(v)) == Ok(v)
  {
  }

  lemma RoundTripU64(v: u64)
    ensures ToU64(FromU64(v)) == Ok(v)
  {
  }

  lemma RoundTripI32(v: i32)
    ensures ToI32(FromI32(v)) == Ok(v)
  {
    Pow2Values();
  }

  lemma RoundTripI64(v: i64)
    ensures ToI64(FromI64(v)) == Ok(v)
  {
    Pow2Values();
  }

  /** The other direction: any four bytes read as `i32` and written back are the same bytes. */
  lemma BytesRoundTripI32(c: Converter)
    requires |c.bytes| == 4
    ensures FromI32(ToI32(c).value) == c
  {
    Pow2Values();
    WriteRead(c.bytes);
  }

  lemma BytesRoundTripI64(c: Converter)
    requires |c.bytes| == 8
    ensures FromI64(ToI64(c).value) == c
  {
    Pow2Values();
    WriteRead(c.bytes);
  }

  /** `from_hex(to_hex())` gives back every converter, as the Python round-trip example relies on. */
  lemma HexRoundTrip(c: Converter)
    requires Valid(c)
    ensures IsAscii(ToHex(c)) && FromHex(ToHex(c)) == Ok(c)
  {
    Hex.DecodeEncode(c.bytes);
  }

  /** The example's chain i32 -> hex -> converter -> i32 returns -12345. */
  lemma NegativeI32ThroughHex()
    ensures var c := FromI32(-12345);
      IsAscii(ToHex(c)) && FromHex(ToHex(c)).Ok? && ToI32(FromHex(ToHex(c)).value) == Ok(-12345)
  {
    HexRoundTrip(FromI32(-12345));
    RoundTripI32(-12345);
  }
}
