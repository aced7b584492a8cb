/** `bin2hex`: every byte becomes two lowercase hexadecimal digits, high nibble first. */
module Hex {

  newtype byte = x: int | 0 <= x < 256

  predicate IsHexDigit(c: char) {
    '0' <= c <= '9' || 'a' <= c <= 'f'
  }

  function Digit(n: int): (c: char)
    requires 0 <= n < 16
    ensures IsHexDigit(c)
  {
    if n < 10 then (48 + n) as char else (87 + n) as char
  }

  /** The value of a lowercase hexadecimal digit. */
  function DigitValue(c: char): (n: int)
    requires IsHexDigit(c)
    ensures 0 <= n < 16
    ensures Digit(n) == c
  {
    if c <= '9' then c as int - 48 else c as int - 87
  }

  lemma DigitValueOfDigit(n: int)
    requires 0 <= n < 16
    ensures DigitValue(Digit(n)) == n
  {
  }

  function HexEncode(bs: seq<byte>): (s: string)
    ensures |s| == 2 * |bs|
    ensures forall i :: 0 <= i < |s| ==> IsHexDigit(s[i])
  {
    if bs == [] then ""
    else [Digit(bs[0] as int / 16), Digit(bs[0] as int % 16)] + HexEncode(bs[1..])
  }

  predicate IsHexString(s: string) {
    |s| % 2 == 0 && forall i :: 0 <= i < |s| ==> IsHexDigit(s[i])
  }

  /** `hex2bin` on an even-length string of lowercase digits. */
  function HexDecode(s: string): (bs: seq<byte>)
    requires IsHexString(s)
    ensures 2 * |bs| == |s|
    decreases |s|
  {
    if s == [] then []
    else [(16 * DigitValue(s[0]) + DigitValue(s[1])) as byte] + HexDecode(s[2..])
  }

  /** Decoding undoes encoding: the key names the bytes it was made from. */
  lemma {:induction false} DecodeEncode(bs: seq<byte>)
    ensures IsHexString(HexEncode(bs))
    ensures HexDecode(HexEncode(bs)) == bs
  {
    if bs != [] {
      var s := HexEncode(bs);
      var b := bs[0] as int;
      DigitValueOfDigit(b / 16);
      DigitValueOfDigit(b % 16);
      assert s[2..] == HexEncode(bs[1..]);
      DecodeEncode(bs[1..]);
    }
  }

  /** Encoding is injective: distinct random draws give distinct keys. */
  lemma EncodeInjective(a: seq<byte>, b: seq<byte>)
    requires HexEncode(a) == HexEncode(b)
    ensures a == b
  {
    DecodeEncode(a);
    DecodeEncode(b);
  }

  /** An API key: the encoding of 32 bytes, 64 lowercase hexadecimal digits. */
  predicate IsApiKey(s: string) {
    |s| == 64 && IsHexString(s)
  }

  lemma ApiKeyOfThirtyTwoBytes(bs: seq<byte>)
    requires |bs| == 32
    ensures IsApiKey(HexEncode(bs))
  {
  }
}
