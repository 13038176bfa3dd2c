/** Package sd: the session description exchanged to set up a connection,
    its two-layer text encoding (zlib and base58 on the Sdp field, then JSON
    and base58 on the whole struct) and the AES-GCM encryption of the Sdp
    used by one-way connections.

    A SessionDescription is a Go value: it is copied when assigned and when
    passed to Encode.  Its pointer-receiver methods GenKeys, Encrypt and
    Decrypt are therefore functions from the old struct to the new struct
    and the returned error. */
module Sd {
  import opened Common
  import Hex
  import opened Libraries

  datatype SessionDescription = SessionDescription(
    sdp: seq<byte>, tenKbSiteLoc: seq<byte>, key: seq<byte>, nonce: seq<byte>)

  /** The libraries the package is built on. */
  datatype Codecs = Codecs(zlib: Zlib, b58: Base58, json: StructJson<SessionDescription>, aead: Aead)

  /** Every field is ASCII text, which encoding/json carries unchanged. */
  predicate Textual(x: SessionDescription)
  {
    IsAscii(x.sdp) && IsAscii(x.tenKbSiteLoc) && IsAscii(x.key) && IsAscii(x.nonce)
  }

  ghost predicate Sound(c: Codecs)
  {
    ZlibSound(c.zlib) && Base58Sound(c.b58) && JsonSound(c.json, Textual) && AeadSound(c.aead)
  }

  // ------------------------------------------------------------ Encode/Decode

  /** The struct as it is marshalled: Sdp replaced by base58 of its zlib stream. */
  function Packed(c: Codecs, offer: SessionDescription): SessionDescription
  {
    offer.(sdp := c.b58.encode(c.zlib.compress(offer.sdp)))
  }

  /** sd.Encode. The json.Marshal error is discarded in the source; a struct
      of strings always marshals. */
  function Encode(c: Codecs, offer: SessionDescription): seq<byte>
  {
    c.b58.encode(c.json.marshal(Packed(c, offer)))
  }

  /** sd.Decode: base58, then JSON into the struct, then base58 and zlib on
      its Sdp.  The first failing step's error is returned. */
  function Decode(c: Codecs, s: seq<byte>): (r: Result<SessionDescription>)
    ensures c.json.unmarshal(c.b58.decode(s)).Err? ==> r == Err(c.json.unmarshal(c.b58.decode(s)).error)
    ensures c.json.unmarshal(c.b58.decode(s)).Ok? ==>
      var sd := c.json.unmarshal(c.b58.decode(s)).value;
      var inner := c.b58.decode(sd.sdp);
      (HeaderCheck(inner).Some? ==> r == Err(HeaderCheck(inner).value)) &&
      (r.Ok? <==> Read(c.zlib, inner).Ok?) &&
      (r.Ok? ==> r.value == sd.(sdp := Read(c.zlib, inner).value))
  {
    var sd :- c.json.unmarshal(c.b58.decode(s));
    var d :- Read(c.zlib, c.b58.decode(sd.sdp));
    Ok(sd.(sdp := d))
  }

  lemma HexAscii(b: seq<byte>)
    ensures IsAscii(Hex.Encode(b))
  {
    var e := Hex.Encode(b);
    forall i | 0 <= i < |e| ensures e[i] < 128 {
      assert Hex.IsHexChar(e[i]);
    }
  }

  /** Decoding an encoding gives back the whole struct: the Sdp through the
      zlib and base58 layers, and TenKbSiteLoc, Key and Nonce because the
      whole struct is marshalled.  Any Sdp bytes survive; the other fields
      need only be ASCII. */
  lemma DecodeEncode(c: Codecs, x: SessionDescription)
    requires Sound(c)
    requires IsAscii(x.tenKbSiteLoc) && IsAscii(x.key) && IsAscii(x.nonce)
    ensures Decode(c, Encode(c, x)) == Ok(x)
  {
    var y := Packed(c, x);
    Base58Ascii(c.b58, c.zlib.compress(x.sdp));
    assert Textual(y);
    assert c.b58.decode(Encode(c, x)) == c.json.marshal(y);
    assert c.json.unmarshal(c.json.marshal(y)) == Ok(y);
    assert c.b58.decode(y.sdp) == c.zlib.compress(x.sdp);
    ReadCompressed(c.zlib, x.sdp);
  }

  // -------------------------------------------------- keys and encryption

  /** A method's new struct together with the error it returned. */
  datatype Mutation = Mutation(sd: SessionDescription, err: Option<Error>)

  const KeyBytes: nat := 32

  /** sd.GenKeys, given what crypto/rand delivered for the 32-byte key and
      the 12-byte nonce (io.ReadFull gives all the bytes or an error).  A
      failed read returns its error; a key read before a failed nonce read
      is kept. */
  function GenKeys(sd: SessionDescription, keyRead: Result<seq<byte>>, nonceRead: Result<seq<byte>>): (r: Mutation)
    requires keyRead.Ok? ==> |keyRead.value| == KeyBytes
    requires nonceRead.Ok? ==> |nonceRead.value| == NonceSize
    ensures r.sd.sdp == sd.sdp && r.sd.tenKbSiteLoc == sd.tenKbSiteLoc
    ensures keyRead.Err? ==> r == Mutation(sd, Some(keyRead.error))
    ensures keyRead.Ok? ==> Hex.Decode(r.sd.key) == Ok(keyRead.value) && |r.sd.key| == 2 * KeyBytes
    ensures keyRead.Ok? && nonceRead.Err? ==> r.err == Some(nonceRead.error) && r.sd.nonce == sd.nonce
    ensures r.err.None? <==> keyRead.Ok? && nonceRead.Ok?
    ensures r.err.None? ==> Hex.Decode(r.sd.nonce) == Ok(nonceRead.value) && |r.sd.nonce| == 2 * NonceSize
  {
    match keyRead
    case Err(e) => Mutation(sd, Some(e))
    case Ok(k) =>
      Hex.DecodeEncode(k);
      var withKey := sd.(key := Hex.Encode(k));
      match nonceRead
      case Err(e) => Mutation(withKey, Some(e))
      case Ok(n) =>
        Hex.DecodeEncode(n);
        Mutation(withKey.(nonce := Hex.Encode(n)), None)
  }

  /** The one panic inside Encrypt and Decrypt: GCM's Seal and Open panic
      on a nonce that is not 12 bytes.  The source gives no guarantee
      against it, so callers must rule it out. */
  predicate NonceFits(sd: SessionDescription)
  {
    KeysFit(sd.key, sd.nonce)
  }

  predicate KeysFit(key: seq<byte>, nonce: seq<byte>)
  {
    (Hex.Decode(nonce).Ok? && Hex.Decode(key).Ok? && IsAesKeySize(|Hex.Decode(key).value|)) ==>
      |Hex.Decode(nonce).value| == NonceSize
  }

  /** sd.Encrypt: hex-decode the nonce, then the key; build the cipher (key of
      16, 24 or 32 bytes); replace Sdp by the hex of the sealed Sdp. */
  function Encrypt(c: Codecs, sd: SessionDescription): (r: Mutation)
    requires NonceFits(sd)
    ensures r.sd.key == sd.key && r.sd.nonce == sd.nonce && r.sd.tenKbSiteLoc == sd.tenKbSiteLoc
    ensures r.err.Some? ==> r.sd == sd
    ensures r.err.None? <==>
      Hex.Decode(sd.nonce).Ok? && Hex.Decode(sd.key).Ok? && IsAesKeySize(|Hex.Decode(sd.key).value|)
    ensures r.err.None? ==>
      r.sd.sdp == Hex.Encode(c.aead.seal(Hex.Decode(sd.key).value, Hex.Decode(sd.nonce).value, sd.sdp))
  {
    match Hex.Decode(sd.nonce)
    case Err(e) => Mutation(sd, Some(e))
    case Ok(nonce) =>
      match Hex.Decode(sd.key)
      case Err(e) => Mutation(sd, Some(e))
      case Ok(key) =>
        if !IsAesKeySize(|key|) then Mutation(sd, Some(KeySizeError(|key|)))
        else Mutation(sd.(sdp := Hex.Encode(c.aead.seal(key, nonce, sd.sdp))), None)
  }

  /** The key, the Sdp and the nonce are all hex. */
  predicate AllHex(sd: SessionDescription)
  {
    Hex.Decode(sd.key).Ok? && Hex.Decode(sd.sdp).Ok? && Hex.Decode(sd.nonce).Ok?
  }

  /** sd.Decrypt: hex-decode the key, the Sdp and the nonce, in that order;
      build the cipher; open.  Every failure returns the error and leaves
      the struct as it was. */
  function Decrypt(c: Codecs, sd: SessionDescription): (r: Mutation)
    requires NonceFits(sd)
    ensures r.sd.key == sd.key && r.sd.nonce == sd.nonce && r.sd.tenKbSiteLoc == sd.tenKbSiteLoc
    ensures r.err.Some? ==> r.sd == sd
    ensures Hex.Decode(sd.key).Err? ==> r.err == Some(Hex.Decode(sd.key).error)
    ensures Hex.Decode(sd.key).Ok? && Hex.Decode(sd.sdp).Err? ==> r.err == Some(Hex.Decode(sd.sdp).error)
    ensures Hex.Decode(sd.key).Ok? && Hex.Decode(sd.sdp).Ok? && Hex.Decode(sd.nonce).Err? ==>
      r.err == Some(Hex.Decode(sd.nonce).error)
    ensures AllHex(sd) && !IsAesKeySize(|Hex.Decode(sd.key).value|) ==>
      r.err == Some(KeySizeError(|Hex.Decode(sd.key).value|))
    ensures AllHex(sd) && IsAesKeySize(|Hex.Decode(sd.key).value|) ==>
      (var plain := c.aead.open(Hex.Decode(sd.key).value, Hex.Decode(sd.nonce).value, Hex.Decode(sd.sdp).value);
       (plain.None? ==> r.err == Some(ErrOpen)) &&
       (plain.Some? ==> r == Mutation(sd.(sdp := plain.value), None)))
    ensures r.err.None? ==>
      Hex.Decode(sd.key).Ok? && Hex.Decode(sd.sdp).Ok? && Hex.Decode(sd.nonce).Ok? &&
      IsAesKeySize(|Hex.Decode(sd.key).value|) &&
      c.aead.open(Hex.Decode(sd.key).value, Hex.Decode(sd.nonce).value, Hex.Decode(sd.sdp).value) == Some(r.sd.sdp)
  {
    match Hex.Decode(sd.key)
    case Err(e) => Mutation(sd, Some(e))
    case Ok(key) =>
      match Hex.Decode(sd.sdp)
      case Err(e) => Mutation(sd, Some(e))
      case Ok(ciphertext) =>
        match Hex.Decode(sd.nonce)
        case Err(e) => Mutation(sd, Some(e))
        case Ok(nonce) =>
          if !IsAesKeySize(|key|) then Mutation(sd, Some(KeySizeError(|key|)))
          else
            match c.aead.open(key, nonce, ciphertext)
            case None => Mutation(sd, Some(ErrOpen))
            case Some(plaintext) => Mutation(sd.(sdp := plaintext), None)
  }

  /** Fresh keys from GenKeys always satisfy Encrypt: a 32-byte key and a
      12-byte nonce, so encryption neither fails nor panics. */
  lemma GenKeysThenEncrypt(c: Codecs, sd: SessionDescription, k: seq<byte>, n: seq<byte>)
    requires |k| == KeyBytes && |n| == NonceSize
    ensures var g := GenKeys(sd, Ok(k), Ok(n)).sd;
      NonceFits(g) && Encrypt(c, g).err.None? &&
      Encrypt(c, g).sd.sdp == Hex.Encode(c.aead.seal(k, n, sd.sdp))
  {
    Hex.DecodeEncode(k);
    Hex.DecodeEncode(n);
  }

  /** Encrypt replaces the Sdp by a text different from it: the hex of a
      sealed text is more than twice as long as the plaintext. */
  lemma EncryptChangesSdp(c: Codecs, sd: SessionDescription)
    requires AeadSound(c.aead) && NonceFits(sd)
    requires Encrypt(c, sd).err.None?
    ensures Encrypt(c, sd).sd.sdp != sd.sdp
  {
    var key := Hex.Decode(sd.key).value;
    var nonce := Hex.Decode(sd.nonce).value;
    assert |c.aead.seal(key, nonce, sd.sdp)| == |sd.sdp| + TagSize;
  }

  /** Decrypt with the same Key and Nonce restores the Sdp Encrypt replaced. */
  lemma DecryptEncrypt(c: Codecs, sd: SessionDescription)
    requires AeadSound(c.aead) && NonceFits(sd)
    requires Encrypt(c, sd).err.None?
    ensures NonceFits(Encrypt(c, sd).sd) && Decrypt(c, Encrypt(c, sd).sd) == Mutation(sd, None)
  {
    var key := Hex.Decode(sd.key).value;
    var nonce := Hex.Decode(sd.nonce).value;
    var sealed := c.aead.seal(key, nonce, sd.sdp);
    Hex.DecodeEncode(sealed);
    assert c.aead.open(key, nonce, sealed) == Some(sd.sdp);
  }

  /** A successful Decrypt authenticates: the Sdp it was given is the hex
      of exactly the seal of what it returns, under the struct's key and
      nonce. */
  lemma DecryptAuthenticates(c: Codecs, sd: SessionDescription)
    requires AeadSound(c.aead) && NonceFits(sd)
    requires Decrypt(c, sd).err.None?
    ensures Hex.Decode(sd.sdp) ==
      Ok(c.aead.seal(Hex.Decode(sd.key).value, Hex.Decode(sd.nonce).value, Decrypt(c, sd).sd.sdp))
  {
    var key := Hex.Decode(sd.key).value;
    var nonce := Hex.Decode(sd.nonce).value;
    var ct := Hex.Decode(sd.sdp).value;
    assert c.aead.open(key, nonce, ct).Some?;
  }
}
