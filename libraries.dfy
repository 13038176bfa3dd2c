/** The library algorithms the session codecs call, as parameters.  zlib's
    DEFLATE (RFC 1950/1951), btcutil's base58, encoding/json on a struct and
    AES-GCM (NIST SP 800-38D) are not re-implemented: each is a record of
    functions, and what the model relies on is stated as a predicate that the
    lemmas require.  Only the two-byte zlib stream header, which Go's
    zlib.NewReader checks before any inflation, is written out. */
module Libraries {
  import opened Common
  import Decimal

  // ---------------------------------------------------------------- zlib

  /** compress/zlib: `compress` is NewWriter + Write + Close on a buffer;
      `inflate` is ioutil.ReadAll of a reader whose header was accepted. */
  datatype Zlib = Zlib(compress: seq<byte> -> seq<byte>, inflate: seq<byte> -> Result<seq<byte>>)

  const ErrUnexpectedEof: Error := Error(Bytes("unexpected EOF"))
  const ErrHeader: Error := Error(Bytes("zlib: invalid header"))
  const ErrDictionary: Error := Error(Bytes("zlib: invalid dictionary"))

  /** Big-endian value of four bytes. */
  function Be32(b: seq<byte>): nat
    requires |b| == 4
  {
    ((b[0] as int * 256 + b[1]) * 256 + b[2]) * 256 + b[3]
  }

  /** The first two bytes name deflate with a window of at most 32 KiB
      and their big-endian value is a multiple of 31. */
  predicate ValidHeader(b: seq<byte>)
  {
    |b| >= 2 && b[0] % 16 == 8 && b[0] / 16 <= 7 && (b[0] as int * 256 + b[1]) % 31 == 0
  }

  /** The FDICT flag, bit 5 of the second byte. */
  predicate PresetDict(b: seq<byte>)
    requires |b| >= 2
  {
    (b[1] / 32) % 2 == 1
  }

  /** zlib.NewReader's check of the stream header (section 2.2 of RFC 1950):
      the method must be 8 (deflate), the window at most 7 (32K), CMF*256+FLG
      a multiple of 31; a preset dictionary (FDICT) is refused unless its
      Adler-32 equals that of the empty dictionary, 1. */
  function HeaderCheck(b: seq<byte>): Option<Error>
  {
    if |b| < 2 then Some(ErrUnexpectedEof)
    else if b[0] % 16 != 8 || b[0] / 16 > 7 || (b[0] as int * 256 + b[1]) % 31 != 0 then Some(ErrHeader)
    else if (b[1] / 32) % 2 == 1 then
      if |b| < 6 then Some(ErrUnexpectedEof)
      else if Be32(b[2..6]) != 1 then Some(ErrDictionary)
      else None
    else None
  }

  /** The errors of the header check, and the converse: the header passes
      exactly when none of them applies. */
  lemma HeaderErrors(b: seq<byte>)
    ensures |b| < 2 ==> HeaderCheck(b) == Some(ErrUnexpectedEof)
    ensures |b| >= 2 && (b[0] % 16 != 8 || b[0] / 16 > 7) ==> HeaderCheck(b) == Some(ErrHeader)
    ensures |b| >= 2 && (b[0] as int * 256 + b[1]) % 31 != 0 ==> HeaderCheck(b) == Some(ErrHeader)
    ensures ValidHeader(b) && PresetDict(b) && |b| < 6 ==> HeaderCheck(b) == Some(ErrUnexpectedEof)
    ensures ValidHeader(b) && PresetDict(b) && |b| >= 6 && Be32(b[2..6]) != 1 ==> HeaderCheck(b) == Some(ErrDictionary)
    ensures HeaderCheck(b).None? <==> ValidHeader(b) && (PresetDict(b) ==> |b| >= 6 && Be32(b[2..6]) == 1)
  {
  }

  /** NewReader followed by ReadAll: the header error, else the inflation. */
  function Read(z: Zlib, b: seq<byte>): (r: Result<seq<byte>>)
    ensures HeaderCheck(b).Some? ==> r == Err(HeaderCheck(b).value)
    ensures HeaderCheck(b).None? ==> r == z.inflate(b)
  {
    match HeaderCheck(b)
    case Some(e) => Err(e)
    case None => z.inflate(b)
  }

  /** What is relied on: the writer emits a valid header, and inflating a
      compressed stream gives back what was written. */
  ghost predicate ZlibSound(z: Zlib)
  {
    forall d :: HeaderCheck(z.compress(d)).None? && z.inflate(z.compress(d)) == Ok(d)
  }

  lemma ReadCompressed(z: Zlib, d: seq<byte>)
    requires ZlibSound(z)
    ensures Read(z, z.compress(d)) == Ok(d)
  {
  }

  // -------------------------------------------------------------- base58

  /** btcutil/base58: Decode returns the empty slice for invalid text. */
  datatype Base58 = Base58(encode: seq<byte> -> seq<byte>, decode: seq<byte> -> seq<byte>)

  /** The 58 characters of the Bitcoin alphabet. */
  predicate IsBase58Char(c: byte)
  {
    (49 <= c <= 57) || (65 <= c <= 90 && c != 73 && c != 79) || (97 <= c <= 122 && c != 108)
  }

  predicate IsAscii(s: seq<byte>)
  {
    forall i :: 0 <= i < |s| ==> s[i] < 128
  }

  ghost predicate Base58Sound(b: Base58)
  {
    forall d :: b.decode(b.encode(d)) == d &&
      (forall i :: 0 <= i < |b.encode(d)| ==> IsBase58Char(b.encode(d)[i]))
  }

  lemma Base58Ascii(b: Base58, d: seq<byte>)
    requires Base58Sound(b)
    ensures IsAscii(b.encode(d))
  {
    var e := b.encode(d);
    forall i | 0 <= i < |e| ensures e[i] < 128 {
      assert IsBase58Char(e[i]);
    }
  }

  // ------------------------------------------------------ JSON of a struct

  /** encoding/json Marshal and Unmarshal of one struct type. */
  datatype StructJson<!T> = StructJson(marshal: T -> seq<byte>, unmarshal: seq<byte> -> Result<T>)

  /** What is relied on: a value whose string fields satisfy `text` (the
      caller's choice; ASCII here) reads back as itself.  Go replaces
      invalid UTF-8 when marshalling, so no codec round-trips every byte
      string. */
  ghost predicate JsonSound<T(!new)>(j: StructJson<T>, text: T -> bool)
  {
    forall x :: text(x) ==> j.unmarshal(j.marshal(x)) == Ok(x)
  }

  // ------------------------------------------------------------- AES-GCM

  /** cipher.NewGCM over aes.NewCipher(key), with the standard 12-byte
      nonce and no additional data: Seal(nil, nonce, plaintext, nil) and
      Open(nil, nonce, ciphertext, nil). */
  datatype Aead = Aead(
    seal: (seq<byte>, seq<byte>, seq<byte>) -> seq<byte>,
    open: (seq<byte>, seq<byte>, seq<byte>) -> Option<seq<byte>>)

  const TagSize: nat := 16
  const NonceSize: nat := 12

  const ErrOpen: Error := Error(Bytes("cipher: message authentication failed"))

  /** aes.NewCipher accepts keys of 16, 24 or 32 bytes. */
  predicate IsAesKeySize(n: nat) { n == 16 || n == 24 || n == 32 }

  function KeySizeError(n: nat): Error
  {
    Error(Bytes("crypto/aes: invalid key size ") + Decimal.Itoa(n))
  }

  /** What is relied on: opening a sealed text gives the plaintext back, a
      sealed text is the plaintext plus a 16-byte tag, and a text that opens
      is exactly the seal of what it opens to (authentication). */
  ghost predicate AeadSound(a: Aead)
  {
    (forall k, n, p :: a.open(k, n, a.seal(k, n, p)) == Some(p) && |a.seal(k, n, p)| == |p| + TagSize) &&
    (forall k, n, c :: a.open(k, n, c).Some? ==> c == a.seal(k, n, a.open(k, n, c).value))
  }
}
