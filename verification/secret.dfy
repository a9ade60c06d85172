/**
 * reference-example/src/lib.rs: the secret-message processor's pure text transforms,
 * its error enum and its mapping onto boundary errors with codes 100..103.
 */
module Secret {
  import opened Wrappers
  import opened Text
  import opened LastError
  import Hex
  import Utf8

  /** `ProcessError`. */
  datatype ProcessError =
    | InvalidHex(text: string)
    | InvalidFormat(text: string)
    | TooShort(got: nat, expected: nat)
    | TooLong(got: nat, max: nat)

  /** The `SecretError` discriminant each variant maps to. */
  function SecretCode(e: ProcessError): int32 {
    match e
    case InvalidHex(_) => 100
    case InvalidFormat(_) => 101
    case TooShort(_, _) => 102
    case TooLong(_, _) => 103
  }

  function Name(e: ProcessError): string {
    match e
    case InvalidHex(_) => "InvalidHex"
    case InvalidFormat(_) => "InvalidFormat"
    case TooShort(_, _) => "TooShort"
    case TooLong(_, _) => "TooLong"
  }

  function Detail(e: ProcessError): string {
    match e
    case InvalidHex(s) => s
    case InvalidFormat(s) => s
    case TooShort(got, expected) => "got " + Decimal(got) + ", expected at least " + Decimal(expected)
    case TooLong(got, max) => "got " + Decimal(got) + ", max " + Decimal(max)
  }

  /** `impl From<ProcessError> for Error`: library codes above the reserved 1..99 range. */
  function ToError(e: ProcessError): (r: Error)
    ensures 100 <= r.code <= 103
    ensures e.InvalidHex? <==> r.code == 100
    ensures e.InvalidFormat? <==> r.code == 101
    ensures e.TooShort? <==> r.code == 102
    ensures e.TooLong? <==> r.code == 103
    ensures |Name(e)| + 2 <= |r.message| && r.message[..|Name(e)| + 2] == Name(e) + ": "
    ensures r.message[|Name(e)| + 2..] == Detail(e)
  {
    var m := (Name(e) + ": ") + Detail(e);
    assert m[..|Name(e)| + 2] == Name(e) + ": " && m[|Name(e)| + 2..] == Detail(e);
    Error(SecretCode(e), m)
  }

  // ---------------------------------------------------------------- ROT13

  predicate InRange(c: char, lo: char, hi: char) {
    lo <= c <= hi
  }

  function Rot13Char(c: char): char {
    if InRange(c, 'a', 'm') || InRange(c, 'A', 'M') then (c as int + 13) as char
    else if InRange(c, 'n', 'z') || InRange(c, 'N', 'Z') then (c as int - 13) as char
    else c
  }

  /** `rot13`. */
  function Rot13(s: string): (r: string)
    ensures |r| == |s|
    ensures forall i :: 0 <= i < |s| ==> r[i] == Rot13Char(s[i])
  {
    seq(|s|, i requires 0 <= i < |s| => Rot13Char(s[i]))
  }

  /** Letters move 13 places within their case; everything else stays. */
  lemma Rot13Shifts(c: char)
    ensures (InRange(c, 'a', 'm') || InRange(c, 'A', 'M')) ==> Rot13Char(c) as int == c as int + 13
    ensures (InRange(c, 'n', 'z') || InRange(c, 'N', 'Z')) ==> Rot13Char(c) as int == c as int - 13
    ensures !(InRange(c, 'a', 'z') || InRange(c, 'A', 'Z')) ==> Rot13Char(c) == c
    ensures InRange(c, 'a', 'z') <==> InRange(Rot13Char(c), 'a', 'z')
    ensures InRange(c, 'A', 'Z') <==> InRange(Rot13Char(c), 'A', 'Z')
  {
  }

  /** Applying ROT13 twice restores the text. */
  lemma Rot13Involution(s: string)
    ensures Rot13(Rot13(s)) == s
  {
    assert forall i :: 0 <= i < |s| ==> Rot13Char(Rot13Char(s[i])) == s[i];
  }

  lemma Rot13Example()
    ensures Rot13("Hello World") == "Uryyb Jbeyq"
  {
  }

  // ---------------------------------------------------------------- vowels and consonants

  function ToAsciiLower(c: char): char {
    if InRange(c, 'A', 'Z') then (c as int + 32) as char else c
  }

  predicate IsVowel(c: char) {
    var l := ToAsciiLower(c);
    l == 'a' || l == 'e' || l == 'i' || l == 'o' || l == 'u'
  }

  predicate IsAsciiAlphabetic(c: char) {
    InRange(c, 'a', 'z') || InRange(c, 'A', 'Z')
  }

  /** `count_vowels`: the characters that are vowels of either case. */
  function CountVowels(s: string): nat {
    if |s| == 0 then 0 else (if IsVowel(s[0]) then 1 else 0) + CountVowels(s[1..])
  }

  /** `count_consonants`: ASCII letters that are not vowels. */
  function CountConsonants(s: string): nat {
    if |s| == 0 then 0
    else (if IsAsciiAlphabetic(s[0]) && !IsVowel(s[0]) then 1 else 0) + CountConsonants(s[1..])
  }

  /** `count_vowels` is zero exactly when no character is a vowel, and `|s|` exactly when all are. */
  lemma {:induction false} VowelCountMeaning(s: string)
    ensures CountVowels(s) <= |s|
    ensures CountVowels(s) == 0 <==> forall i :: 0 <= i < |s| ==> !IsVowel(s[i])
    ensures CountVowels(s) == |s| <==> forall i :: 0 <= i < |s| ==> IsVowel(s[i])
  {
    if |s| > 0 {
      VowelCountMeaning(s[1..]);
      assert forall i :: 1 <= i < |s| ==> s[i] == s[1..][i - 1];
    }
  }

  /** `count_consonants` is zero exactly when no character is a consonant, and `|s|` exactly when all are. */
  lemma {:induction false} ConsonantCountMeaning(s: string)
    ensures CountConsonants(s) <= |s|
    ensures CountConsonants(s) == 0 <==> forall i :: 0 <= i < |s| ==> !(IsAsciiAlphabetic(s[i]) && !IsVowel(s[i]))
    ensures CountConsonants(s) == |s| <==> forall i :: 0 <= i < |s| ==> IsAsciiAlphabetic(s[i]) && !IsVowel(s[i])
  {
    if |s| > 0 {
      ConsonantCountMeaning(s[1..]);
      assert forall i :: 1 <= i < |s| ==> s[i] == s[1..][i - 1];
    }
  }

  /**
   * `remove_vowels`: keeps the characters in order, dropping exactly the vowels of
   * either case; every other character keeps its multiplicity.
   */
  function RemoveVowels(s: string): (r: string)
    ensures |r| + CountVowels(s) == |s|
    ensures forall i :: 0 <= i < |r| ==> !IsVowel(r[i])
  {
    if |s| == 0 then []
    else
      var rest := RemoveVowels(s[1..]);
      if IsVowel(s[0]) then rest else [s[0]] + rest
  }

  /** Every character that is not a vowel survives `RemoveVowels` as often as it occurred. */
  lemma {:induction false} RemoveVowelsKeepsOthers(s: string, c: char)
    requires !IsVowel(c)
    ensures multiset(RemoveVowels(s))[c] == multiset(s)[c]
  {
    if |s| > 0 {
      RemoveVowelsKeepsOthers(s[1..], c);
      assert s == [s[0]] + s[1..];
      assert multiset(s) == multiset([s[0]]) + multiset(s[1..]);
      if !IsVowel(s[0]) {
        assert multiset(RemoveVowels(s)) == multiset([s[0]]) + multiset(RemoveVowels(s[1..]));
      }
    }
  }

  /** Vowels and consonants are disjoint classes of characters, so they never outnumber the text. */
  lemma {:induction false} CountsBounded(s: string)
    ensures CountVowels(s) + CountConsonants(s) <= |s|
  {
    if |s| > 0 {
      CountsBounded(s[1..]);
    }
  }

  // ---------------------------------------------------------------- words

  /** `char::is_whitespace`: the Unicode White_Space property. */
  predicate IsWhitespace(c: char) {
    var n := c as int;
    (0x09 <= n <= 0x0D) || n == 0x20 || n == 0x85 || n == 0xA0 || n == 0x1680
    || (0x2000 <= n <= 0x200A) || n == 0x2028 || n == 0x2029 || n == 0x202F || n == 0x205F
    || n == 0x3000
  }

  /** Position `i` begins a maximal run of non-whitespace characters. */
  predicate StartsWord(s: string, i: nat)
    requires i < |s|
  {
    !IsWhitespace(s[i]) && (i == 0 || IsWhitespace(s[i - 1]))
  }

  /** The number of pieces `split_whitespace` yields: how many positions start a word. */
  function WordsIn(s: string): nat {
    if |s| == 0 then 0
    else WordsIn(s[..|s| - 1]) + (if StartsWord(s, |s| - 1) then 1 else 0)
  }

  /** `count_words`: one left-to-right pass counting where words begin. */
  method CountWords(s: string) returns (n: nat)
    ensures n == WordsIn(s)
  {
    n := 0;
    var inWord := false;
    var i := 0;
    while i < |s|
      invariant 0 <= i <= |s|
      invariant n == WordsIn(s[..i])
      invariant inWord <==> (i > 0 && !IsWhitespace(s[i - 1]))
    {
      assert s[..i + 1][..i] == s[..i];
      if IsWhitespace(s[i]) {
        inWord := false;
      } else {
        if !inWord {
          n := n + 1;
        }
        inWord := true;
      }
      i := i + 1;
    }
    assert s[..|s|] == s;
  }

  /**
   * `secret_count_chars`: `chars().count()`, the number of scalar values. It never
   * exceeds the UTF-8 byte length and equals it exactly for ASCII text.
   */
  function CountChars(s: string): (n: nat)
    ensures n <= Utf8.EncodedLength(s)
    ensures n == Utf8.EncodedLength(s) <==> forall i :: 0 <= i < |s| ==> s[i] as int < 0x80
  {
    |s|
  }

  /** The counting tests' anchor: "Hello World" has 11 chars, 3 vowels, 7 consonants, 2 words. */
  lemma CountingExample()
    ensures CountChars("Hello World") == 11
    ensures CountVowels("Hello World") == 3
    ensures CountConsonants("Hello World") == 7
  {
    var a, b := "Hello", " World";
    assert a + b == "Hello World";
    CountsSplit(a, b);
    HelloCounts();
    WorldCounts();
  }

  lemma HelloCounts()
    ensures CountVowels("Hello") == 2 && CountConsonants("Hello") == 3
  {
    var a := "Hello";
    assert a[1..] == "ello" && a[1..][1..] == "llo" && a[1..][1..][1..] == "lo";
    assert a[1..][1..][1..][1..] == "o" && a[1..][1..][1..][1..][1..] == [];
  }

  lemma HelloWithoutVowels()
    ensures RemoveVowels("Hello") == "Hll"
  {
    var a := "Hello";
    assert a[1..] == "ello" && a[1..][1..] == "llo" && a[1..][1..][1..] == "lo";
    assert a[1..][1..][1..][1..] == "o" && a[1..][1..][1..][1..][1..] == [];
  }

  lemma WorldCounts()
    ensures CountVowels(" World") == 1 && CountConsonants(" World") == 4
  {
    var b := " World";
    assert b[1..] == "World" && b[1..][1..] == "orld" && b[1..][1..][1..] == "rld";
    assert b[1..][1..][1..][1..] == "ld" && b[1..][1..][1..][1..][1..] == "d";
    assert b[1..][1..][1..][1..][1..][1..] == [];
  }

  lemma WorldWithoutVowels()
    ensures RemoveVowels(" World") == " Wrld"
  {
    var b := " World";
    assert b[1..] == "World" && b[1..][1..] == "orld" && b[1..][1..][1..] == "rld";
    assert b[1..][1..][1..][1..] == "ld" && b[1..][1..][1..][1..][1..] == "d";
    assert b[1..][1..][1..][1..][1..][1..] == [];
  }

  /** Both counts add up over a concatenation. */
  lemma {:induction false} CountsSplit(a: string, b: string)
    ensures CountVowels(a + b) == CountVowels(a) + CountVowels(b)
    ensures CountConsonants(a + b) == CountConsonants(a) + CountConsonants(b)
  {
    if |a| > 0 {
      assert (a + b)[1..] == a[1..] + b;
      CountsSplit(a[1..], b);
    } else {
      assert a + b == b;
    }
  }

  /** "Hello World" is two words. */
  lemma WordsExample()
    ensures WordsIn("Hello World") == 2
  {
    var s := "Hello World";
    WordsCountStarts(s, |s|);
    assert s[..|s|] == s;
    assert StartsWord(s, 0);
    assert !StartsWord(s, 1) && !StartsWord(s, 2) && !StartsWord(s, 3) && !StartsWord(s, 4) && !StartsWord(s, 5);
    assert StartsWord(s, 6);
    assert !StartsWord(s, 7) && !StartsWord(s, 8) && !StartsWord(s, 9) && !StartsWord(s, 10);
    assert StartsBefore(s, 6) == 1;
  }

  /** `WordsIn` counts the word starts among the first `n` positions. */
  function StartsBefore(s: string, n: nat): nat
    requires n <= |s|
  {
    if n == 0 then 0 else StartsBefore(s, n - 1) + (if StartsWord(s, n - 1) then 1 else 0)
  }

  lemma {:induction false} WordsCountStarts(s: string, n: nat)
    requires n <= |s|
    ensures WordsIn(s[..n]) == StartsBefore(s, n)
  {
    if n > 0 {
      assert s[..n][..n - 1] == s[..n - 1];
      WordsCountStarts(s, n - 1);
      assert StartsWord(s[..n], n - 1) == StartsWord(s, n - 1);
    }
  }

  lemma RemoveVowelsExample()
    ensures RemoveVowels("Hello World") == "Hll Wrld"
  {
    HelloWithoutVowels();
    WorldWithoutVowels();
    RemovedConcat("Hello", " World", "Hll", " Wrld");
    assert "Hello" + " World" == "Hello World";
    assert "Hll" + " Wrld" == "Hll Wrld";
  }

  /** `RemoveVowelsSplit` for known halves. */
  lemma RemovedConcat(a: string, b: string, x: string, y: string)
    requires RemoveVowels(a) == x && RemoveVowels(b) == y
    ensures RemoveVowels(a + b) == x + y
  {
    RemoveVowelsSplit(a, b);
  }

  lemma {:induction false} RemoveVowelsSplit(a: string, b: string)
    ensures RemoveVowels(a + b) == RemoveVowels(a) + RemoveVowels(b)
  {
    if |a| > 0 {
      assert (a + b)[1..] == a[1..] + b;
      RemoveVowelsSplit(a[1..], b);
    } else {
      assert a + b == b;
    }
  }

  // ---------------------------------------------------------------- substitution

  /** `substitute(input, from, to)`: `str::replace` of every `from` by `to`. */
  function Substitute(s: string, from: char, to: char): (r: string)
    ensures |r| == |s|
    ensures forall i :: 0 <= i < |s| ==> r[i] == (if s[i] == from then to else s[i])
  {
    seq(|s|, i requires 0 <= i < |s| => if s[i] == from then to else s[i])
  }

  /** Substituting back undoes a substitution whose target did not occur in the text. */
  lemma SubstituteUndo(s: string, from: char, to: char)
    requires forall i :: 0 <= i < |s| ==> s[i] != to
    ensures Substitute(Substitute(s, from, to), to, from) == s
  {
  }

  // ---------------------------------------------------------------- hex

  /** `to_hex(input)` over the UTF-8 bytes of `input`. */
  function ToHex(utf8: seq<byte>): (s: string)
    ensures |s| == 2 * |utf8|
    ensures forall i :: 0 <= i < |s| ==> IsHexChar(s[i])
  {
    Hex.Encode(utf8)
  }

  /**
   * `from_hex(hex)`: odd length, then the first bad pair, give `InvalidHex`; decoded
   * bytes that are not UTF-8 give `InvalidFormat`. The result is the text's UTF-8 bytes.
   */
  function FromHex(hex: string): (r: Result<seq<byte>, ProcessError>)
    requires IsAscii(hex)
    ensures |hex| % 2 == 1 ==> r == Err(InvalidHex("odd length"))
    ensures |hex| % 2 == 0 && Hex.DecodePairs(hex).Err? ==> r == Err(InvalidHex(Hex.DecodePairs(hex).error))
    ensures r.Ok? <==> |hex| % 2 == 0 && Hex.DecodePairs(hex).Ok? && Utf8.IsValid(Hex.DecodePairs(hex).value)
    ensures r.Ok? ==> r.value == Hex.DecodePairs(hex).value && 2 * |r.value| == |hex|
    ensures r.Err? && r.error.InvalidFormat? ==> r.error == InvalidFormat("invalid UTF-8")
  {
    if |hex| % 2 != 0 then Err(InvalidHex("odd length"))
    else
      match Hex.DecodePairs(hex)
      case Err(pair) => Err(InvalidHex(pair))
      case Ok(bs) => if Utf8.IsValid(bs) then Ok(bs) else Err(InvalidFormat("invalid UTF-8"))
  }

  /** Decoding inverts encoding for every string: `from_hex(to_hex(s)) == s`. */
  lemma HexRoundTrip(utf8: seq<byte>)
    requires Utf8.IsValid(utf8)
    ensures IsAscii(ToHex(utf8)) && FromHex(ToHex(utf8)) == Ok(utf8)
  {
    var hex := ToHex(utf8);
    assert |hex| % 2 == 0;
    Hex.DecodeEncode(utf8);
    assert Hex.DecodePairs(hex) == Ok(utf8);
    assert Utf8.IsValid(Hex.DecodePairs(hex).value);
  }

  /** The hex tests: "Hello" encodes to "48656c6c6f" and decodes back. */
  lemma HexExample()
    ensures ToHex([72, 101, 108, 108, 111]) == "48656c6c6f"
    ensures FromHex("48656c6c6f") == Ok([72, 101, 108, 108, 111])
  {
    var hello: seq<byte> := [72, 101, 108, 108, 111];
    HelloHexDigits();
    Utf8.AsciiIsValid(hello);
    HexRoundTrip(hello);
  }

  /** The digits of "Hello", byte by byte. */
  lemma HelloHexDigits()
    ensures ToHex([72, 101, 108, 108, 111]) == "48656c6c6f"
  {
    var hello: seq<byte> := [72, 101, 108, 108, 111];
    assert Hex.EncodeByte(72) == "48" && Hex.EncodeByte(101) == "65";
    assert Hex.EncodeByte(108) == "6c" && Hex.EncodeByte(111) == "6f";
    assert hello[1..] == [101, 108, 108, 111];
    assert hello[1..][1..] == [108, 108, 111];
    assert hello[1..][1..][1..] == [108, 111];
    assert hello[1..][1..][1..][1..] == [111];
  }

  /** "invalid" has odd length and is refused with code 100. */
  lemma InvalidHexExample()
    ensures FromHex("invalid") == Err(InvalidHex("odd length"))
    ensures ToError(InvalidHex("odd length")).code == 100
  {
  }

  /** A decoded byte that begins no UTF-8 sequence is refused as a format error, code 101. */
  lemma BadUtf8Example()
    ensures FromHex("ff") == Err(InvalidFormat("invalid UTF-8"))
    ensures ToError(InvalidFormat("invalid UTF-8")).code == 101
  {
    var h := "ff";
    assert h[0] == 'f' && h[1] == 'f' && h[2..] == [];
    assert Hex.ParsePair(h[0], h[1]) == Some(255);
    assert Hex.DecodePairs(h[2..]) == Ok([]);
    var one: seq<byte> := [255];
    assert one == [255] + [];
    assert Hex.DecodePairs(h) == Ok(one);
    assert Utf8.SequenceLength(one) == 0;
  }

  /** `from_str_radix` accepts a sign, so the pair "+f" decodes to the byte 15. */
  lemma PlusSignAccepted()
    ensures FromHex("+f") == Ok([15])
  {
    var h := "+f";
    assert h[0] == '+' && h[1] == 'f' && h[2..] == [];
    assert Hex.ParsePair(h[0], h[1]) == Some(15);
    assert Hex.DecodePairs(h[2..]) == Ok([]);
    var one: seq<byte> := [15];
    assert one == [15] + [];
    assert Hex.DecodePairs(h) == Ok(one);
    Utf8.AsciiIsValid(one);
  }

  /**
   * `secret_is_valid_hex` on the converted text: `len() % 2 == 0` on the UTF-8 length and
   * every character an ASCII hex digit.
   */
  function IsValidHexText(s: string): (ok: bool)
    ensures ok <==> |s| % 2 == 0 && forall i :: 0 <= i < |s| ==> Hex.IsAsciiHexDigit(s[i])
  {
    Utf8.EncodedLength(s) % 2 == 0 && forall i :: 0 <= i < |s| ==> Hex.IsAsciiHexDigit(s[i])
  }

  // ---------------------------------------------------------------- length

  /** `validate_length(input, min, max)` on the UTF-8 length: too short is checked first. */
  function ValidateLength(s: string, min: nat, max: nat): (r: Result<(), ProcessError>)
    ensures var len := Utf8.EncodedLength(s);
      && (len < min ==> r == Err(TooShort(len, min)))
      && (min <= len && len > max ==> r == Err(TooLong(len, max)))
      && (r.Ok? <==> min <= len <= max)
  {
    var len := Utf8.EncodedLength(s);
    if len < min then Err(TooShort(len, min))
    else if len > max then Err(TooLong(len, max))
    else Ok(())
  }

  /** The validation tests: "hello" fits 1..10; "hi" is short of 5 (102); "hello world" exceeds 5 (103). */
  lemma ValidationExample()
    ensures ValidateLength("hello", 1, 10) == Ok(())
    ensures ValidateLength("hi", 5, 10) == Err(TooShort(2, 5)) && ToError(TooShort(2, 5)).code == 102
    ensures ValidateLength("hello world", 1, 5) == Err(TooLong(11, 5)) && ToError(TooLong(11, 5)).code == 103
  {
    var hello, hi, hw := "hello", "hi", "hello world";
    assert forall i :: 0 <= i < |hello| ==> hello[i] as int < 0x80;
    assert forall i :: 0 <= i < |hi| ==> hi[i] as int < 0x80;
    assert forall i :: 0 <= i < |hw| ==> hw[i] as int < 0x80;
  }

  lemma HexTextExample()
    ensures IsValidHexText("48656c6c6f") && !IsValidHexText("xyz")
  {
    var s := "48656c6c6f";
    assert forall i :: 0 <= i < |s| ==> s[i] as int < 0x80;
    assert forall i :: 0 <= i < |s| ==> Hex.IsAsciiHexDigit(s[i]);
    var t := "xyz";
    assert !Hex.IsAsciiHexDigit(t[0]);
  }
}
