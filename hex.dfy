/** encoding/hex: base 16 as in section 8 of RFC 4648, written in lower
    case, read in either case. */
module Hex {
  import opened Common

  function Digit(n: int): byte
    requires 0 <= n < 16
  {
    if n < 10 then 48 + n else 87 + n
  }

  predicate IsHexChar(c: byte)
  {
    (48 <= c <= 57) || (97 <= c <= 102) || (65 <= c <= 70)
  }

  function DigitValue(c: byte): (n: int)
    requires IsHexChar(c)
    ensures 0 <= n < 16
  {
    if c <= 57 then c - 48 else if c >= 97 then c - 87 else c - 55
  }

  lemma DigitValueOfDigit(n: int)
    requires 0 <= n < 16
    ensures IsHexChar(Digit(n)) && DigitValue(Digit(n)) == n
  {
  }

  const ErrLength: Error := Error(Bytes("encoding/hex: odd length hex string"))
  const ErrInvalidByte: Error := Error(Bytes("encoding/hex: invalid byte"))

  /** hex.EncodeToString: two lower-case digits per byte, high nibble first. */
  function Encode(b: seq<byte>): (s: seq<byte>)
    ensures |s| == 2 * |b|
    ensures forall i :: 0 <= i < |s| ==> IsHexChar(s[i])
  {
    if b == [] then []
    else
      DigitValueOfDigit(b[0] / 16);
      DigitValueOfDigit(b[0] % 16);
      [Digit(b[0] / 16), Digit(b[0] % 16)] + Encode(b[1..])
  }

  /** hex.DecodeString: an invalid digit, or an odd length, is an error. */
  function Decode(s: seq<byte>): (r: Result<seq<byte>>)
    ensures r.Ok? ==> |s| % 2 == 0 && |r.value| == |s| / 2
    ensures |s| % 2 == 1 ==> r.Err?
    decreases |s|
  {
    if s == [] then Ok([])
    else if !IsHexChar(s[0]) then Err(ErrInvalidByte)
    else if |s| == 1 then Err(ErrLength)
    else if !IsHexChar(s[1]) then Err(ErrInvalidByte)
    else
      match Decode(s[2..])
      case Err(e) => Err(e)
      case Ok(rest) => Ok([DigitValue(s[0]) * 16 + DigitValue(s[1])] + rest)
  }

  /** Every encoding reads back as the bytes it came from. */
  lemma {:induction false} DecodeEncode(b: seq<byte>)
    ensures Decode(Encode(b)) == Ok(b)
  {
    if b != [] {
      var s := Encode(b);
      DigitValueOfDigit(b[0] / 16);
      DigitValueOfDigit(b[0] % 16);
      assert s[2..] == Encode(b[1..]);
      DecodeEncode(b[1..]);
      assert b == [b[0]] + b[1..];
    }
  }
}
