/** The part of JSON the control messages use: flat arrays of strings and
    integers.  Writing such an array (JavaScript's JSON.stringify, or a Go
    format string that spells one out) is concrete here; READING JSON is Go's
    encoding/json, which the model does not re-implement: a parser is a
    parameter, and what is assumed of it is the predicate `ReadsArrayText`.
    What it does to a string that is not valid UTF-8 is concrete: `Coerce`. */
module Json {
  import opened Common
  import opened Decimal

  /** A JSON array element: a string (its decoded bytes), an integer, or any
      other value (a fraction, a boolean, null, an object, a nested array). */
  datatype Value = JString(s: seq<byte>) | JInt(n: int) | JOther

  const Quote: byte := 34
  const Backslash: byte := 92

  function HexDigit(n: int): byte
    requires 0 <= n < 16
  {
    if n < 10 then 48 + n else 87 + n
  }

  /** How one byte is written inside a string literal, as JSON.stringify does. */
  function EscapeByte(b: byte): seq<byte>
  {
    if b == Quote then [Backslash, Quote]
    else if b == Backslash then [Backslash, Backslash]
    else if b == 8 then [Backslash, 98]
    else if b == 9 then [Backslash, 116]
    else if b == 10 then [Backslash, 110]
    else if b == 12 then [Backslash, 102]
    else if b == 13 then [Backslash, 114]
    else if b < 32 then [Backslash, 117, 48, 48, HexDigit(b / 16), HexDigit(b % 16)]
    else [b]
  }

  function Escape(s: seq<byte>): seq<byte>
  {
    if s == [] then [] else EscapeByte(s[0]) + Escape(s[1..])
  }

  /** A byte that a string literal holds as itself. */
  predicate Plain(b: byte) { 32 <= b && b != Quote && b != Backslash }

  lemma {:induction false} EscapePlain(s: seq<byte>)
    requires forall i :: 0 <= i < |s| ==> Plain(s[i])
    ensures Escape(s) == s
  {
    if s != [] {
      EscapePlain(s[1..]);
      assert s == [s[0]] + s[1..];
    }
  }

  function ValueText(v: Value): seq<byte>
  {
    match v
    case JString(s) => [Quote] + Escape(s) + [Quote]
    case JInt(n) => Itoa(n)
    case JOther => Bytes("null")
  }

  function ElementsText(vs: seq<Value>): seq<byte>
  {
    if |vs| == 0 then []
    else if |vs| == 1 then ValueText(vs[0])
    else ValueText(vs[0]) + [Comma] + ElementsText(vs[1..])
  }

  /** The compact text of an array, `[e1,e2,...]`. */
  function ArrayText(vs: seq<Value>): seq<byte>
  {
    [91] + ElementsText(vs) + [93]
  }

  /** An array whose first element is a string starts with the two bytes `["`. */
  lemma ArrayTextOpens(t: seq<byte>, rest: seq<Value>)
    ensures HasPrefix(ArrayText([JString(t)] + rest), [91, Quote]) && |ArrayText([JString(t)] + rest)| >= 4
  {
    var vs := [JString(t)] + rest;
    assert vs[0] == JString(t);
    if |vs| == 1 {
      assert ArrayText(vs) == [91] + ([Quote] + Escape(t) + [Quote]) + [93];
    } else {
      assert ArrayText(vs) == [91] + (([Quote] + Escape(t) + [Quote]) + [Comma] + ElementsText(vs[1..])) + [93];
    }
  }

  // ------------------------------------------------ reading back strings

  /** A UTF-8 continuation byte. */
  predicate Cont(b: byte) { 0x80 <= b <= 0xBF }

  /** The second byte utf8.DecodeRune accepts after a three- or four-byte
      lead: shortest form only, no surrogates (after ED), nothing above
      U+10FFFF (after F4). */
  predicate SecondOk(lead: byte, b: byte)
  {
    if lead == 0xE0 then 0xA0 <= b <= 0xBF
    else if lead == 0xED then 0x80 <= b <= 0x9F
    else if lead == 0xF0 then 0x90 <= b <= 0xBF
    else if lead == 0xF4 then 0x80 <= b <= 0x8F
    else Cont(b)
  }

  /** The width of the valid UTF-8 encoding that opens s, as utf8.DecodeRune
      reads it; 0 when s does not open with one (DecodeRune then returns
      RuneError with width 1). */
  function RuneWidth(s: seq<byte>): (n: nat)
    ensures n <= |s| && n <= 4
    ensures s != [] && s[0] < 0x80 ==> n == 1
  {
    if |s| == 0 then 0
    else if s[0] < 0x80 then 1
    else if 0xC2 <= s[0] <= 0xDF then (if |s| >= 2 && Cont(s[1]) then 2 else 0)
    else if 0xE0 <= s[0] <= 0xEF then (if |s| >= 3 && SecondOk(s[0], s[1]) && Cont(s[2]) then 3 else 0)
    else if 0xF0 <= s[0] <= 0xF4 then
      (if |s| >= 4 && SecondOk(s[0], s[1]) && Cont(s[2]) && Cont(s[3]) then 4 else 0)
    else 0
  }

  /** Bytes that are a sequence of valid UTF-8 encodings. */
  predicate ValidUtf8(s: seq<byte>)
    decreases |s|
  {
    s == [] || (RuneWidth(s) > 0 && ValidUtf8(s[RuneWidth(s)..]))
  }

  /** U+FFFD, utf8.RuneError, in UTF-8. */
  const Replacement: seq<byte> := [0xEF, 0xBF, 0xBD]

  /** What encoding/json makes of the bytes of a string literal: every valid
      encoding is kept, and every byte that does not open one is replaced by
      U+FFFD and skipped (unquoteBytes decodes each such byte as RuneError of
      width 1).  The escapes this module writes are all ASCII, so a byte's
      fate is the same in the escaped text as in the raw string. */
  function Coerce(s: seq<byte>): seq<byte>
    decreases |s|
  {
    if s == [] then []
    else if RuneWidth(s) > 0 then s[..RuneWidth(s)] + Coerce(s[RuneWidth(s)..])
    else Replacement + Coerce(s[1..])
  }

  /** Valid UTF-8 is read back unchanged. */
  lemma {:induction false} CoerceKeepsValid(s: seq<byte>)
    requires ValidUtf8(s)
    ensures Coerce(s) == s
    decreases |s|
  {
    if s != [] {
      var n := RuneWidth(s);
      CoerceKeepsValid(s[n..]);
      assert s == s[..n] + s[n..];
    }
  }

  /** Coercion never shortens, and every replaced byte adds two bytes. */
  lemma {:induction false} CoerceLength(s: seq<byte>)
    ensures |Coerce(s)| >= |s|
    ensures !ValidUtf8(s) ==> |Coerce(s)| >= |s| + 2
    decreases |s|
  {
    if s != [] {
      var n := RuneWidth(s);
      if n > 0 {
        CoerceLength(s[n..]);
      } else {
        CoerceLength(s[1..]);
      }
    }
  }

  /** The bytes read back are the bytes written exactly when they are valid
      UTF-8. */
  lemma CoerceFixed(s: seq<byte>)
    ensures Coerce(s) == s <==> ValidUtf8(s)
    ensures Coerce(s) == [] <==> s == []
  {
    CoerceLength(s);
    if ValidUtf8(s) {
      CoerceKeepsValid(s);
    }
  }

  /** The width of a valid head depends on that head alone. */
  lemma HeadWidth(s: seq<byte>, t: seq<byte>)
    requires RuneWidth(s) > 0
    ensures RuneWidth(s[..RuneWidth(s)] + t) == RuneWidth(s)
  {
    var u := s[..RuneWidth(s)] + t;
    assert u[0] == s[0];
    if RuneWidth(s) >= 2 { assert u[1] == s[1]; }
    if RuneWidth(s) >= 3 { assert u[2] == s[2]; }
    if RuneWidth(s) >= 4 { assert u[3] == s[3]; }
  }

  /** What encoding/json returns is always valid UTF-8, so reading it a
      second time changes nothing. */
  lemma {:induction false} CoerceIsValid(s: seq<byte>)
    ensures ValidUtf8(Coerce(s))
    ensures Coerce(Coerce(s)) == Coerce(s)
    decreases |s|
  {
    if s != [] {
      var n := RuneWidth(s);
      if n > 0 {
        CoerceIsValid(s[n..]);
        var u := s[..n] + Coerce(s[n..]);
        HeadWidth(s, Coerce(s[n..]));
        assert u[n..] == Coerce(s[n..]);
      } else {
        CoerceIsValid(s[1..]);
        var u := Replacement + Coerce(s[1..]);
        assert u[0] == 0xEF && u[1] == 0xBF && u[2] == 0xBD;
        assert RuneWidth(u) == 3;
        assert u[3..] == Coerce(s[1..]);
      }
    }
    CoerceKeepsValid(Coerce(s));
  }

  /** ASCII is valid UTF-8. */
  lemma {:induction false} AsciiValid(s: seq<byte>)
    requires forall i :: 0 <= i < |s| ==> s[i] < 0x80
    ensures ValidUtf8(s) && Coerce(s) == s
    decreases |s|
  {
    if s != [] {
      AsciiValid(s[1..]);
      CoerceKeepsValid(s);
    }
  }

  /** A lone 0xFF, and a two-byte lead cut short, each come back as U+FFFD. */
  lemma InvalidBytesReplaced()
    ensures Coerce([0xFF]) == Replacement
    ensures Coerce([0x61, 0xC3]) == [0x61] + Replacement
    ensures !ValidUtf8([0xFF])
  {
    assert RuneWidth([0xFF]) == 0;
    assert [0xFF][1..] == [];
    var t: seq<byte> := [0x61, 0xC3];
    assert RuneWidth(t) == 1 && t[..1] == [0x61] && t[1..] == [0xC3];
    assert RuneWidth([0xC3]) == 0 && [0xC3][1..] == [];
  }

  /** What encoding/json reads back for one element. */
  function CoerceValue(v: Value): Value
  {
    if v.JString? then JString(Coerce(v.s)) else v
  }

  function CoerceValues(vs: seq<Value>): (r: seq<Value>)
    ensures |r| == |vs|
    ensures forall i :: 0 <= i < |vs| ==> r[i] == CoerceValue(vs[i])
  {
    seq(|vs|, i requires 0 <= i < |vs| => CoerceValue(vs[i]))
  }

  /** Reading strings after coercion is coercing the strings read; the
      integers are untouched. */
  lemma CoercedFields(vs: seq<Value>)
    ensures forall i :: 0 <= i < |vs| ==> Strings(CoerceValues(vs))[i] == Coerce(Strings(vs)[i])
    ensures Ints(CoerceValues(vs)) == Ints(vs)
  {
    assert Coerce([]) == [];
  }

  /** An array without strings is read back as it is. */
  lemma IntValuesKept(ns: seq<int>)
    ensures CoerceValues(IntValues(ns)) == IntValues(ns)
  {
  }

  /** json.Unmarshal of a byte text into a slice of values: None when the text
      is not valid JSON or not an array. */
  type ArrayParser = seq<byte> -> Option<seq<Value>>

  /** What is assumed of encoding/json: it reads back every array this
      module writes, with each string's invalid UTF-8 replaced as Coerce
      says. */
  ghost predicate ReadsArrayText(parse: ArrayParser)
  {
    forall vs :: parse(ArrayText(vs)) == Some(CoerceValues(vs))
  }

  /** The integers of a list, as JSON numbers. */
  function IntValues(ns: seq<int>): (vs: seq<Value>)
    ensures |vs| == |ns|
    ensures forall i :: 0 <= i < |ns| ==> vs[i] == JInt(ns[i])
  {
    seq(|ns|, i requires 0 <= i < |ns| => JInt(ns[i]))
  }

  /** json.Unmarshal into `[]string`: an element of another kind is left at
      the zero value "" (the type error is reported, and ignored by callers). */
  function Strings(vs: seq<Value>): (r: seq<seq<byte>>)
    ensures |r| == |vs|
    ensures forall i :: 0 <= i < |vs| ==> r[i] == (if vs[i].JString? then vs[i].s else [])
  {
    seq(|vs|, i requires 0 <= i < |vs| => if vs[i].JString? then vs[i].s else [])
  }

  /** json.Unmarshal into `[]int` (64-bit): an element that is not an integer
      in range is left at 0. */
  function Ints(vs: seq<Value>): (r: seq<int>)
    ensures |r| == |vs|
    ensures forall i :: 0 <= i < |vs| ==>
      r[i] == (if vs[i].JInt? && MinInt64 <= vs[i].n <= MaxInt64 then vs[i].n else 0)
  {
    seq(|vs|, i requires 0 <= i < |vs| =>
      if vs[i].JInt? && MinInt64 <= vs[i].n <= MaxInt64 then vs[i].n else 0)
  }
}
