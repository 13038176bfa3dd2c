/** base64.StdEncoding: the base 64 alphabet of section 4 of RFC 4648, with
    `=` padding that the decoder requires.  Like Go's default (non-strict)
    decoder, the unused low bits of a padded final group are ignored, and
    `\r` and `\n` are skipped wherever they stand. */
module Base64 {
  import opened Common

  const Pad: byte := 61

  /** The character for a 6-bit value: A-Z, a-z, 0-9, '+', '/'. */
  function Char(n: int): byte
    requires 0 <= n < 64
  {
    if n < 26 then 65 + n
    else if n < 52 then 97 + (n - 26)
    else if n < 62 then 48 + (n - 52)
    else if n == 62 then 43
    else 47
  }

  predicate IsChar(c: byte)
  {
    (65 <= c <= 90) || (97 <= c <= 122) || (48 <= c <= 57) || c == 43 || c == 47
  }

  function Value(c: byte): (n: int)
    requires IsChar(c)
    ensures 0 <= n < 64
  {
    if 65 <= c <= 90 then c - 65
    else if 97 <= c <= 122 then c - 71
    else if 48 <= c <= 57 then c + 4
    else if c == 43 then 62
    else 63
  }

  lemma ValueOfChar(n: int)
    requires 0 <= n < 64
    ensures IsChar(Char(n)) && Value(Char(n)) == n
  {
  }

  lemma PadIsNotChar()
    ensures !IsChar(Pad)
  {
  }

  const ErrCorrupt: Error := Error(Bytes("illegal base64 data"))

  /** The four characters of three bytes. */
  function Group(b0: byte, b1: byte, b2: byte): (s: seq<byte>)
    ensures |s| == 4
  {
    [Char(b0 / 4), Char((b0 % 4) * 16 + b1 / 16), Char((b1 % 16) * 4 + b2 / 64), Char(b2 % 64)]
  }

  /** The last group for one remaining byte: two characters and `==`. */
  function GroupOfOne(b0: byte): (s: seq<byte>)
    ensures |s| == 4 && s[2] == Pad && s[3] == Pad
  {
    [Char(b0 / 4), Char((b0 % 4) * 16), Pad, Pad]
  }

  /** The last group for two remaining bytes: three characters and `=`. */
  function GroupOfTwo(b0: byte, b1: byte): (s: seq<byte>)
    ensures |s| == 4 && IsChar(s[2]) && s[3] == Pad
  {
    ValueOfChar((b1 % 16) * 4);
    [Char(b0 / 4), Char((b0 % 4) * 16 + b1 / 16), Char((b1 % 16) * 4), Pad]
  }

  /** base64.StdEncoding.EncodeToString. */
  function Encode(b: seq<byte>): (s: seq<byte>)
    ensures |b| > 0 ==> |s| >= 4
    decreases |b|
  {
    if |b| == 0 then []
    else if |b| == 1 then GroupOfOne(b[0])
    else if |b| == 2 then GroupOfTwo(b[0], b[1])
    else Group(b[0], b[1], b[2]) + Encode(b[3..])
  }

  /** The bytes of a final group of four: full, or padded with one or two `=`. */
  function DecodeLast(q: seq<byte>): Result<seq<byte>>
    requires |q| == 4
  {
    if IsChar(q[0]) && IsChar(q[1]) && IsChar(q[2]) && IsChar(q[3]) then
      Ok(DecodeGroup(q))
    else if IsChar(q[0]) && IsChar(q[1]) && IsChar(q[2]) && q[3] == Pad then
      Ok([Value(q[0]) * 4 + Value(q[1]) / 16, (Value(q[1]) % 16) * 16 + Value(q[2]) / 4])
    else if IsChar(q[0]) && IsChar(q[1]) && q[2] == Pad && q[3] == Pad then
      Ok([Value(q[0]) * 4 + Value(q[1]) / 16])
    else Err(ErrCorrupt)
  }

  function DecodeGroup(q: seq<byte>): seq<byte>
    requires |q| == 4 && IsChar(q[0]) && IsChar(q[1]) && IsChar(q[2]) && IsChar(q[3])
  {
    [Value(q[0]) * 4 + Value(q[1]) / 16,
     (Value(q[1]) % 16) * 16 + Value(q[2]) / 4,
     (Value(q[2]) % 4) * 64 + Value(q[3])]
  }

  /** The decoder on a text without line breaks: whole groups of four, and
      only the last may carry padding. */
  function DecodeGroups(s: seq<byte>): (r: Result<seq<byte>>)
    decreases |s|
  {
    if |s| == 0 then Ok([])
    else if |s| < 4 then Err(ErrCorrupt)
    else if |s| == 4 then DecodeLast(s)
    else if IsChar(s[0]) && IsChar(s[1]) && IsChar(s[2]) && IsChar(s[3]) then
      match DecodeGroups(s[4..])
      case Err(e) => Err(e)
      case Ok(rest) => Ok(DecodeGroup(s[..4]) + rest)
    else Err(ErrCorrupt)
  }

  /** Only a text whose length is a multiple of four is whole groups. */
  lemma {:induction false} DecodedLength(s: seq<byte>)
    requires DecodeGroups(s).Ok?
    ensures |s| % 4 == 0
    decreases |s|
  {
    if |s| > 4 {
      DecodedLength(s[4..]);
    }
  }

  /** A text whose length, line breaks aside, is not a multiple of four is
      refused. */
  lemma RaggedFails(s: seq<byte>)
    requires |Strip(s)| % 4 != 0
    ensures Decode(s).Err?
  {
    if Decode(s).Ok? {
      DecodeIsStripped(s);
      DecodedLength(Strip(s));
      assert false;
    }
  }

  /** A text without line breaks whose length is not a multiple of four is
      refused. */
  lemma RaggedTextFails(s: seq<byte>)
    requires NoBreaks(s) && |s| % 4 != 0
    ensures Decode(s).Err?
  {
    StripNoBreaks(s);
    RaggedFails(s);
  }

  // ------------------------------------------------------------ line breaks

  predicate IsBreak(c: byte)
  {
    c == 10 || c == 13
  }

  predicate NoBreaks(s: seq<byte>)
  {
    forall i :: 0 <= i < |s| ==> !IsBreak(s[i])
  }

  /** The text with every `\r` and `\n` removed, the characters the decoder
      skips wherever they stand. */
  function Strip(s: seq<byte>): (t: seq<byte>)
    ensures |t| <= |s|
    decreases |s|
  {
    if |s| == 0 then []
    else if IsBreak(s[0]) then Strip(s[1..])
    else [s[0]] + Strip(s[1..])
  }

  /** Stripping leaves no line break, so stripping twice changes nothing. */
  lemma {:induction false} StripRemovesBreaks(s: seq<byte>)
    ensures NoBreaks(Strip(s)) && Strip(Strip(s)) == Strip(s)
    decreases |s|
  {
    if |s| > 0 {
      StripRemovesBreaks(s[1..]);
      var r := Strip(s[1..]);
      if !IsBreak(s[0]) {
        forall i | 0 <= i < |[s[0]] + r|
          ensures !IsBreak(([s[0]] + r)[i])
        {
          if i > 0 {
            assert ([s[0]] + r)[i] == r[i - 1];
          }
        }
      }
    }
    StripNoBreaks(Strip(s));
  }

  /** base64.StdEncoding.DecodeString: line breaks are skipped, and what is
      left must be whole groups of four.  A text without line breaks is
      decoded as it is (Strip leaves it unchanged, by StripNoBreaks). */
  function Decode(s: seq<byte>): Result<seq<byte>>
  {
    if NoBreaks(s) then DecodeGroups(s) else DecodeGroups(Strip(s))
  }

  /** A text without line breaks is left as it is. */
  lemma {:induction false} StripNoBreaks(s: seq<byte>)
    requires NoBreaks(s)
    ensures Strip(s) == s
    decreases |s|
  {
    if |s| > 0 {
      assert NoBreaks(s[1..]) by {
        forall i | 0 <= i < |s[1..]|
          ensures !IsBreak(s[1..][i])
        {
          assert s[1..][i] == s[i + 1];
        }
      }
      StripNoBreaks(s[1..]);
    }
  }

  /** Stripping works piece by piece. */
  lemma {:induction false} StripAppend(s: seq<byte>, t: seq<byte>)
    ensures Strip(s + t) == Strip(s) + Strip(t)
    decreases |s|
  {
    if |s| > 0 {
      assert (s + t)[1..] == s[1..] + t;
      StripAppend(s[1..], t);
    } else {
      assert s + t == t;
    }
  }

  /** A `\r\n` inserted anywhere does not change what is decoded. */
  lemma BreaksIgnored(s: seq<byte>, k: int)
    requires 0 <= k <= |s|
    ensures Decode(s[..k] + [13, 10] + s[k..]) == Decode(s)
  {
    var a, b := s[..k], s[k..];
    var x := a + [13, 10] + b;
    assert Strip(x) == Strip(s) by {
      StripAppend(a + [13, 10], b);
      StripAppend(a, [13, 10]);
      StripAppend(a, b);
      CrLfStripped();
      assert a + b == s;
    }
    DecodeIsStripped(x);
    DecodeIsStripped(s);
  }

  /** Decoding is decoding of the stripped text. */
  lemma DecodeIsStripped(s: seq<byte>)
    ensures Decode(s) == DecodeGroups(Strip(s))
  {
    if NoBreaks(s) {
      StripNoBreaks(s);
    }
  }

  lemma CrLfStripped()
    ensures Strip([13, 10]) == []
  {
    assert [13, 10][1..] == [10];
    assert [10][1..] == [];
  }

  /** An encoding holds no line break. */
  lemma {:induction false} EncodeNoBreaks(b: seq<byte>)
    ensures NoBreaks(Encode(b))
    decreases |b|
  {
    PadIsNotChar();
    if |b| == 1 {
      ValueOfChar(b[0] / 4);
      ValueOfChar((b[0] % 4) * 16);
    } else if |b| == 2 {
      ValueOfChar(b[0] / 4);
      ValueOfChar((b[0] % 4) * 16 + b[1] / 16);
    } else if |b| > 2 {
      EncodeNoBreaks(b[3..]);
      EncodeCons(b);
      GroupRoundTrip(b[0], b[1], b[2]);
      NoBreaksAppend(Group(b[0], b[1], b[2]), Encode(b[3..]));
    }
  }

  lemma NoBreaksAppend(s: seq<byte>, t: seq<byte>)
    requires |s| == 4 && IsChar(s[0]) && IsChar(s[1]) && IsChar(s[2]) && IsChar(s[3]) && NoBreaks(t)
    ensures NoBreaks(s + t)
  {
    forall i | 0 <= i < |s + t|
      ensures !IsBreak((s + t)[i])
    {
      if i >= 4 {
        assert (s + t)[i] == t[i - 4];
      }
    }
  }

  /** Every encoding reads back as the bytes it came from. */
  lemma DecodeEncode(b: seq<byte>)
    ensures Decode(Encode(b)) == Ok(b)
  {
    EncodeNoBreaks(b);
    StripNoBreaks(Encode(b));
    GroupsEncode(b);
  }

  lemma GroupRoundTrip(b0: byte, b1: byte, b2: byte)
    ensures var q := Group(b0, b1, b2);
      IsChar(q[0]) && IsChar(q[1]) && IsChar(q[2]) && IsChar(q[3]) &&
      DecodeGroup(q) == [b0, b1, b2]
  {
    var v0, v1, v2, v3 := b0 / 4, (b0 % 4) * 16 + b1 / 16, (b1 % 16) * 4 + b2 / 64, b2 % 64;
    ValueOfChar(v0);
    ValueOfChar(v1);
    ValueOfChar(v2);
    ValueOfChar(v3);
    FirstByte(b0, b1);
    SecondByte(b0, b1, b2);
    ThirdByte(b1, b2);
  }

  lemma FirstByte(b0: byte, b1: byte)
    ensures (b0 / 4) * 4 + ((b0 % 4) * 16 + b1 / 16) / 16 == b0
  {
    Split16(b0 % 4, b1 / 16);
  }

  lemma SecondByte(b0: byte, b1: byte, b2: byte)
    ensures (((b0 % 4) * 16 + b1 / 16) % 16) * 16 + ((b1 % 16) * 4 + b2 / 64) / 4 == b1
  {
    Split16(b0 % 4, b1 / 16);
    Split4(b1 % 16, b2 / 64);
  }

  lemma ThirdByte(b1: byte, b2: byte)
    ensures (((b1 % 16) * 4 + b2 / 64) % 4) * 64 + b2 % 64 == b2
  {
    Split4(b1 % 16, b2 / 64);
  }

  /** The high and low parts of `hi * 16 + lo` for a low part below 16. */
  lemma Split16(hi: int, lo: int)
    requires 0 <= hi && 0 <= lo < 16
    ensures (hi * 16 + lo) / 16 == hi && (hi * 16 + lo) % 16 == lo
  {
  }

  /** The high and low parts of `hi * 4 + lo` for a low part below 4. */
  lemma Split4(hi: int, lo: int)
    requires 0 <= hi && 0 <= lo < 4
    ensures (hi * 4 + lo) / 4 == hi && (hi * 4 + lo) % 4 == lo
  {
  }

  lemma LastOfOne(b0: byte)
    ensures DecodeGroups(GroupOfOne(b0)) == Ok([b0])
  {
    ValueOfChar(b0 / 4);
    ValueOfChar((b0 % 4) * 16);
    PadIsNotChar();
    assert ((b0 % 4) * 16) / 16 == b0 % 4;
  }

  lemma LastOfTwo(b0: byte, b1: byte)
    ensures DecodeGroups(GroupOfTwo(b0, b1)) == Ok([b0, b1])
  {
    var v1 := (b0 % 4) * 16 + b1 / 16;
    ValueOfChar(b0 / 4);
    ValueOfChar(v1);
    ValueOfChar((b1 % 16) * 4);
    PadIsNotChar();
    assert v1 / 16 == b0 % 4 && v1 % 16 == b1 / 16 by {
      Split16(b0 % 4, b1 / 16);
    }
    assert ((b1 % 16) * 4) / 4 == b1 % 16;
  }

  lemma LastOfThree(b0: byte, b1: byte, b2: byte)
    ensures DecodeGroups(Group(b0, b1, b2)) == Ok([b0, b1, b2])
  {
    GroupRoundTrip(b0, b1, b2);
  }

  lemma FirstOfMany(b0: byte, b1: byte, b2: byte, t: seq<byte>)
    requires DecodeGroups(t).Ok? && |t| > 0
    ensures DecodeGroups(Group(b0, b1, b2) + t) == Ok([b0, b1, b2] + DecodeGroups(t).value)
  {
    var s := Group(b0, b1, b2) + t;
    GroupRoundTrip(b0, b1, b2);
    assert s[..4] == Group(b0, b1, b2);
    assert s[4..] == t;
  }

  /** Every encoding is whole groups that decode to the bytes it came from. */
  lemma {:induction false} GroupsEncode(b: seq<byte>)
    ensures DecodeGroups(Encode(b)) == Ok(b)
    decreases |b|
  {
    if |b| == 1 {
      OneRoundTrip(b);
    } else if |b| == 2 {
      TwoRoundTrip(b);
    } else if |b| == 3 {
      ThreeRoundTrip(b);
    } else if |b| > 3 {
      GroupsEncode(b[3..]);
      ManyRoundTrip(b);
    }
  }

  lemma OneRoundTrip(b: seq<byte>)
    requires |b| == 1
    ensures DecodeGroups(Encode(b)) == Ok(b)
  {
    assert Encode(b) == GroupOfOne(b[0]);
    LastOfOne(b[0]);
    assert b == [b[0]];
  }

  lemma TwoRoundTrip(b: seq<byte>)
    requires |b| == 2
    ensures DecodeGroups(Encode(b)) == Ok(b)
  {
    assert Encode(b) == GroupOfTwo(b[0], b[1]);
    LastOfTwo(b[0], b[1]);
    assert b == [b[0], b[1]];
  }

  lemma ThreeRoundTrip(b: seq<byte>)
    requires |b| == 3
    ensures DecodeGroups(Encode(b)) == Ok(b)
  {
    EncodeThree(b);
    LastOfThree(b[0], b[1], b[2]);
    ThreeElements(b);
  }

  lemma EncodeThree(b: seq<byte>)
    requires |b| == 3
    ensures Encode(b) == Group(b[0], b[1], b[2])
  {
    assert Encode(b[3..]) == [];
  }

  lemma ThreeElements(b: seq<byte>)
    requires |b| == 3
    ensures b == [b[0], b[1], b[2]]
  {
  }

  lemma ManyRoundTrip(b: seq<byte>)
    requires |b| > 3 && DecodeGroups(Encode(b[3..])) == Ok(b[3..])
    ensures DecodeGroups(Encode(b)) == Ok(b)
  {
    EncodeCons(b);
    FirstOfMany(b[0], b[1], b[2], Encode(b[3..]));
    Three(b);
  }

  lemma Three(b: seq<byte>)
    requires |b| >= 3
    ensures b == [b[0], b[1], b[2]] + b[3..]
  {
  }

  /** The encoding of three or more bytes: a full group, then the rest. */
  lemma EncodeCons(b: seq<byte>)
    requires |b| >= 3
    ensures Encode(b) == Group(b[0], b[1], b[2]) + Encode(b[3..])
  {
  }

  /** An encoding is whole groups of four. */
  lemma {:induction false} EncodeLength(b: seq<byte>)
    ensures |Encode(b)| % 4 == 0
    decreases |b|
  {
    if |b| > 3 {
      EncodeLength(b[3..]);
      EncodeCons(b);
    }
  }

  /** Every encoding ends with the padding its length calls for. */
  lemma {:induction false} EncodePadding(b: seq<byte>)
    ensures EndsPadded(|b|, Encode(b))
    decreases |b|
  {
    if |b| > 3 {
      EncodePadding(b[3..]);
      EncodeCons(b);
      PaddedAfterGroup(|b[3..]|, Group(b[0], b[1], b[2]), Encode(b[3..]));
    }
  }

  /** The end of an encoding of `n` bytes: two `=` for a length one more than
      a multiple of three, one `=` after a base 64 character for two more. */
  ghost predicate EndsPadded(n: int, s: seq<byte>)
  {
    (n % 3 == 1 ==> |s| >= 4 && s[|s| - 1] == Pad && s[|s| - 2] == Pad) &&
    (n % 3 == 2 ==> |s| >= 4 && s[|s| - 1] == Pad && IsChar(s[|s| - 2]))
  }

  lemma PaddedAfterGroup(n: int, g: seq<byte>, t: seq<byte>)
    requires |g| == 4 && EndsPadded(n, t)
    ensures EndsPadded(n + 3, g + t)
  {
    var s := g + t;
    assert (n + 3) % 3 == n % 3;
    assert n % 3 != 0 ==> s[|s| - 1] == t[|t| - 1] && s[|s| - 2] == t[|t| - 2];
  }
}
