/** Decimal text as Go writes and reads it: the `%d` verb of fmt,
    strconv.Atoi on a 64-bit platform, and strings.Split on one separator byte. */
module Decimal {
  import opened Common

  const MinInt64: int := -0x8000_0000_0000_0000
  const MaxInt64: int := 0x7fff_ffff_ffff_ffff

  const Minus: byte := 45
  const Plus: byte := 43
  const Comma: byte := 44

  predicate IsDigit(b: byte) { 48 <= b <= 57 }

  predicate AllDigits(s: seq<byte>) { forall i :: 0 <= i < |s| ==> IsDigit(s[i]) }

  /** The decimal digits of `n`, most significant first, without leading zeros. */
  function Digits(n: nat): (r: seq<byte>)
    ensures |r| >= 1 && AllDigits(r)
    ensures n >= 10 ==> r[0] != 48
    decreases n
  {
    if n < 10 then [48 + n] else Digits(n / 10) + [48 + n % 10]
  }

  /** fmt's `%d` of an integer. */
  function Itoa(n: int): (r: seq<byte>)
    ensures |r| >= 1
    ensures Comma !in r
  {
    if n < 0 then [Minus] + Digits(-n) else Digits(n)
  }

  /** The number a run of digits denotes. */
  function DigitsValue(s: seq<byte>): nat
    requires AllDigits(s)
    decreases |s|
  {
    if s == [] then 0 else DigitsValue(s[..|s| - 1]) * 10 + (s[|s| - 1] - 48)
  }

  lemma {:induction false} DigitsValueOfDigits(n: nat)
    ensures DigitsValue(Digits(n)) == n
  {
    if n >= 10 {
      var d := Digits(n / 10);
      DigitsValueOfDigits(n / 10);
      assert (d + [48 + n % 10])[..|d|] == d;
    }
  }

  const MaxUint64: int := 0xffff_ffff_ffff_ffff

  /** The text after an optional sign. */
  function Body(s: seq<byte>): seq<byte>
  {
    if |s| > 0 && (s[0] == Plus || s[0] == Minus) then s[1..] else s
  }

  predicate Negative(s: seq<byte>) { |s| > 0 && s[0] == Minus }

  /** The text is an optional sign followed by at least one digit. */
  predicate IsIntegerText(s: seq<byte>)
  {
    |Body(s)| > 0 && AllDigits(Body(s))
  }

  /** The longest run of digits that opens s. */
  function LeadingDigits(s: seq<byte>): (p: seq<byte>)
    ensures |p| <= |s| && p == s[..|p|] && AllDigits(p)
    ensures |p| < |s| ==> !IsDigit(s[|p|])
    decreases |s|
  {
    if s == [] || !IsDigit(s[0]) then []
    else
      var q := LeadingDigits(s[1..]);
      assert ([s[0]] + q)[1..] == q;
      [s[0]] + q
  }

  /** ParseUint's digit loop overflows uint64 before it meets a byte that
      is not a digit: it then stops with a range error, whatever follows. */
  predicate Overflows(s: seq<byte>)
  {
    DigitsValue(LeadingDigits(Body(s))) > MaxUint64
  }

  function SyntaxError(s: seq<byte>): Error
  {
    Error(Bytes("strconv.Atoi: parsing \"") + s + Bytes("\": invalid syntax"))
  }

  function RangeError(s: seq<byte>): Error
  {
    Error(Bytes("strconv.Atoi: parsing \"") + s + Bytes("\": value out of range"))
  }

  /** Result of strconv.Atoi: the value and the error. */
  datatype AtoiResult = AtoiResult(value: int, err: Option<Error>)

  /** strconv.Atoi on a 64-bit platform.  Digits are read from the left:
      once the value read exceeds 2^64 - 1 the result is the int64 bound of
      the sign with a range error, even if a byte that is not a digit
      follows; otherwise a text that is not an integer gives 0 and a syntax
      error, and an integer outside the int64 range gives the nearest bound
      with a range error.  (Texts under 19 bytes take Atoi's fast path,
      which cannot overflow and agrees with this.) */
  function Atoi(s: seq<byte>): (r: AtoiResult)
    ensures MinInt64 <= r.value <= MaxInt64
    ensures Overflows(s) ==> r == AtoiResult(if Negative(s) then MinInt64 else MaxInt64, Some(RangeError(s)))
    ensures !IsIntegerText(s) && !Overflows(s) ==> r == AtoiResult(0, Some(SyntaxError(s)))
    ensures IsIntegerText(s) ==> r.err.None? || r.err == Some(RangeError(s))
    ensures r.err.None? ==> IsIntegerText(s) && r.value == (if Negative(s) then -(DigitsValue(Body(s)) as int) else DigitsValue(Body(s)))
  {
    var body := Body(s);
    if DigitsValue(LeadingDigits(body)) > MaxUint64 then
      AtoiResult(if Negative(s) then MinInt64 else MaxInt64, Some(RangeError(s)))
    else if |body| == 0 || !AllDigits(body) then AtoiResult(0, Some(SyntaxError(s)))
    else
      var m: int := DigitsValue(body);
      var v: int := if Negative(s) then -m else m;
      if v < MinInt64 then AtoiResult(MinInt64, Some(RangeError(s)))
      else if v > MaxInt64 then AtoiResult(MaxInt64, Some(RangeError(s)))
      else AtoiResult(v, None)
  }

  function Pow10(n: nat): (r: nat)
    ensures r >= 1
  {
    if n == 0 then 1 else 10 * Pow10(n - 1)
  }

  /** n digits denote less than 10^n. */
  lemma {:induction false} DigitsValueBound(p: seq<byte>)
    requires AllDigits(p)
    ensures DigitsValue(p) < Pow10(|p|)
    decreases |p|
  {
    if p != [] {
      DigitsValueBound(p[..|p| - 1]);
    }
  }

  /** A text shorter than 20 bytes never overflows: at most 19 digits. */
  lemma ShortNeverOverflows(s: seq<byte>)
    requires |s| < 20
    ensures !Overflows(s)
  {
    var p := LeadingDigits(Body(s));
    DigitsValueBound(p);
    PowMonotone(|p|, 19);
    Pow10Nineteen();
  }

  lemma Pow10Nineteen()
    ensures Pow10(19) == 10_000_000_000_000_000_000
  {
    assert Pow10(4) == 10_000;
    assert Pow10(8) == 100_000_000;
    assert Pow10(12) == 1_000_000_000_000;
    assert Pow10(16) == 10_000_000_000_000_000;
  }

  lemma {:induction false} PowMonotone(m: nat, n: nat)
    requires m <= n
    ensures Pow10(m) <= Pow10(n)
    decreases n
  {
    if m < n {
      PowMonotone(m, n - 1);
    }
  }

  /** Twenty nines overflow; the `x` after them is never read, so the
      text, which is not an integer, still gives a range error. */
  lemma OverflowBeforeJunk(s: seq<byte>)
    requires s == Bytes("99999999999999999999x")
    ensures !IsIntegerText(s) && Overflows(s) && !Negative(s)
    ensures Atoi(s) == AtoiResult(MaxInt64, Some(RangeError(s)))
  {
    var nines := s[..20];
    assert forall i :: 0 <= i < 20 ==> s[i] == 57;
    assert s[20] == 120;
    assert Body(s) == s;
    LeadingNines(s, 20);
    NinesValue(nines);
  }

  /** The digits that open s, when exactly its first n bytes are digits. */
  lemma LeadingNines(s: seq<byte>, n: nat)
    requires n < |s| && AllDigits(s[..n]) && !IsDigit(s[n])
    ensures LeadingDigits(s) == s[..n]
    decreases n
  {
    if n > 0 {
      assert s[1..][..n - 1] == s[1..n];
      LeadingNines(s[1..], n - 1);
      assert s[..n] == [s[0]] + s[1..n];
    }
  }

  lemma NinesValue(p: seq<byte>)
    requires |p| == 20 && forall i :: 0 <= i < 20 ==> p[i] == 57
    ensures AllDigits(p) && DigitsValue(p) > MaxUint64
  {
    NinesValueIs(p);
    Pow10Nineteen();
    assert Pow10(20) == 10 * Pow10(19);
  }

  /** k nines denote 10^k - 1. */
  lemma {:induction false} NinesValueIs(p: seq<byte>)
    requires forall i :: 0 <= i < |p| ==> p[i] == 57
    ensures AllDigits(p) && DigitsValue(p) == Pow10(|p|) - 1
    decreases |p|
  {
    if p != [] {
      var q := p[..|p| - 1];
      assert forall i :: 0 <= i < |q| ==> q[i] == 57;
      NinesValueIs(q);
    }
  }

  /** Reading back what `%d` wrote gives the number, with no error. */
  lemma AtoiOfItoa(n: int)
    requires MinInt64 <= n <= MaxInt64
    ensures Atoi(Itoa(n)) == AtoiResult(n, None)
  {
    if n < 0 {
      AtoiOfNegative(n);
    } else {
      DigitsValueOfDigits(n);
      assert Body(Digits(n)) == Digits(n);
      DigitsLead(Digits(n));
    }
  }

  /** A run of digits is its own leading run. */
  lemma DigitsLead(p: seq<byte>)
    requires AllDigits(p)
    ensures LeadingDigits(p) == p
  {
  }

  lemma AtoiOfNegative(n: int)
    requires MinInt64 <= n < 0
    ensures Atoi([Minus] + Digits(-n)) == AtoiResult(n, None)
  {
    var s := [Minus] + Digits(-n);
    var d := Digits(-n);
    DigitsValueOfDigits(-n);
    assert s[1..] == d;
    assert Body(s) == d && Negative(s);
    DigitsLead(d);
    assert !Overflows(s) && IsIntegerText(s);
  }

  /** Index of the first `x` in `s`. */
  function IndexOf(s: seq<byte>, x: byte): (i: nat)
    requires x in s
    ensures i < |s| && s[i] == x && x !in s[..i]
  {
    if s[0] == x then 0
    else
      var j := IndexOf(s[1..], x);
      assert s[..j + 1] == [s[0]] + s[1..][..j];
      j + 1
  }

  /** strings.Split(s, sep) for a one-byte separator: the pieces between
      separators; a text without separator is one piece. */
  function Split(s: seq<byte>, sep: byte): (r: seq<seq<byte>>)
    ensures |r| >= 1
    decreases |s|
  {
    if sep !in s then [s]
    else
      var i := IndexOf(s, sep);
      [s[..i]] + Split(s[i + 1..], sep)
  }

  /** Splitting a piece, the separator and the rest gives the piece followed by
      the pieces of the rest. */
  lemma SplitCons(a: seq<byte>, sep: byte, rest: seq<byte>)
    requires sep !in a
    ensures Split(a + [sep] + rest, sep) == [a] + Split(rest, sep)
  {
    var s := a + [sep] + rest;
    assert s[|a|] == sep;
    var i := IndexOf(s, sep);
    assert forall k :: 0 <= k < |a| ==> s[k] == a[k];
    assert i <= |a| by {
      assert forall k :: 0 <= k < i ==> s[..i][k] == s[k];
    }
    assert i == |a|;
    assert s[..i] == a;
    assert s[i + 1..] == rest;
  }
}
