/** Base16 text of byte strings, as the `hex` crate writes and reads it:
    `encode` gives the lowercase alphabet of section 8 of RFC 4648, and
    `decode` accepts either case. */
module Hex {
  import opened Wrappers
  import opened Text

  datatype HexError = OddLength | InvalidHexCharacter(c: char, index: nat)

  predicate IsLowerHex(c: char) {
    ('0' <= c <= '9') || ('a' <= c <= 'f')
  }

  /** The lowercase digit for a nibble. */
  function HexChar(v: nat): (c: char)
    requires v < 16
    ensures IsLowerHex(c)
  {
    if v < 10 then (48 + v) as char else (97 + v - 10) as char
  }

  /** The value of a hexadecimal digit of either case. */
  function DigitValue(c: char): (r: Option<nat>)
    ensures r.Some? ==> r.value < 16
    ensures r.Some? <==> IsLowerHex(c) || ('A' <= c <= 'F')
  {
    if '0' <= c <= '9' then Some(c as int - 48)
    else if 'a' <= c <= 'f' then Some(c as int - 97 + 10)
    else if 'A' <= c <= 'F' then Some(c as int - 65 + 10)
    else None
  }

  /** A lowercase digit has the value `HexChar` writes it for, and an
      uppercase one the value of its lowercase counterpart. */
  lemma DigitValueCases(c: char)
    ensures IsLowerHex(c) ==> DigitValue(c).Some? && HexChar(DigitValue(c).value) == c
    ensures 'A' <= c <= 'F' ==> DigitValue(c).Some? && HexChar(DigitValue(c).value) == (c as int + 32) as char
  {
  }

  /** `hex::encode`: two lowercase digits per byte, high nibble first. */
  function Encode(data: seq<byte>): (s: string)
    ensures |s| == 2 * |data|
    ensures forall i :: 0 <= i < |s| ==> IsLowerHex(s[i])
  {
    if data == [] then [] else [HexChar(data[0] / 16), HexChar(data[0] % 16)] + Encode(data[1..])
  }

  /** `hex::decode`: an odd length is refused before any digit is read; then
      the first character that is not a digit is reported with its position. */
  function Decode(s: string): (r: Result<seq<byte>, HexError>)
    ensures r.Success? ==> 2 * |r.value| == |s|
  {
    if |s| % 2 != 0 then Failure(OddLength) else DecodePairs(s, 0)
  }

  function DecodePairs(s: string, offset: nat): (r: Result<seq<byte>, HexError>)
    requires |s| % 2 == 0
    ensures r.Success? ==> 2 * |r.value| == |s|
    decreases |s|
  {
    if s == [] then Success([])
    else
      match (DigitValue(s[0]), DigitValue(s[1]))
      case (None, _) => Failure(InvalidHexCharacter(s[0], offset))
      case (_, None) => Failure(InvalidHexCharacter(s[1], offset + 1))
      case (Some(hi), Some(lo)) =>
        var rest :- DecodePairs(s[2..], offset + 2);
        Success([hi * 16 + lo] + rest)
  }

  lemma HexCharValue(v: nat)
    requires v < 16
    ensures DigitValue(HexChar(v)) == Some(v)
  {
  }

  /** Decoding what `Encode` wrote gives the bytes back. */
  lemma {:induction false} DecodeEncode(data: seq<byte>)
    ensures Decode(Encode(data)) == Success(data)
  {
    DecodePairsEncode(data, 0);
  }

  lemma {:induction false} DecodePairsEncode(data: seq<byte>, offset: nat)
    ensures DecodePairs(Encode(data), offset) == Success(data)
  {
    if data != [] {
      var s := Encode(data);
      HexCharValue(data[0] / 16);
      HexCharValue(data[0] % 16);
      assert s[2..] == Encode(data[1..]);
      DecodePairsEncode(data[1..], offset + 2);
      assert [data[0]] + data[1..] == data;
    }
  }

  /** Lowercase text that decodes is exactly what `Encode` writes for its bytes. */
  lemma {:induction false} EncodeDecode(s: string)
    requires forall i :: 0 <= i < |s| ==> IsLowerHex(s[i])
    requires Decode(s).Success?
    ensures Encode(Decode(s).value) == s
  {
    EncodeDecodePairs(s, 0);
  }

  lemma {:induction false} EncodeDecodePairs(s: string, offset: nat)
    requires |s| % 2 == 0
    requires forall i :: 0 <= i < |s| ==> IsLowerHex(s[i])
    requires DecodePairs(s, offset).Success?
    ensures Encode(DecodePairs(s, offset).value) == s
  {
    if s != [] {
      var hi := DigitValue(s[0]).value;
      var lo := DigitValue(s[1]).value;
      EncodeDecodePairs(s[2..], offset + 2);
      var data := DecodePairs(s, offset).value;
      assert data == [hi * 16 + lo] + DecodePairs(s[2..], offset + 2).value;
      assert data[1..] == DecodePairs(s[2..], offset + 2).value;
      assert HexChar(hi) == s[0];
      assert HexChar(lo) == s[1];
      assert s == [s[0], s[1]] + s[2..];
    }
  }

  lemma EncodePlain(data: seq<byte>)
    ensures Plain(Encode(data))
  {
  }
}
