/** The browser side's Go code, compiled to WebAssembly
    (web-client/src/main.go): the callbacks `encode` and `decode` that the
    page calls, and the two package variables `key` and `nonce` in which
    decode keeps the keys of the last offer for the next encode.  Each
    callback hands its results to a JavaScript function as strings; here
    they are the callback's return values, the empty string standing for
    "no error" as in the source. */
module WebClient {
  import opened Common
  import Sd
  import Hex
  import opened Libraries
  import TenKbSite
  import Host

  /** What encode passes to its callback: the encoded answer, error text. */
  datatype Encoded = Encoded(encoded: seq<byte>, err: seq<byte>)

  /** What decode passes to its callback: Sdp, 10kb.site path, error text. */
  datatype Decoded = Decoded(sdp: seq<byte>, tenKbSiteLoc: seq<byte>, err: seq<byte>)

  /** decode's outcome together with the keys held afterwards. */
  datatype Step = Step(out: Decoded, key: seq<byte>, nonce: seq<byte>)

  /** encode, given the keys held: the answer is encrypted under them when
      a key is held, and then sent without them. */
  function EncodeAnswer(c: Sd.Codecs, key: seq<byte>, nonce: seq<byte>, sdp: seq<byte>): (r: Encoded)
    requires key != [] ==> Sd.KeysFit(key, nonce)
    ensures key == [] ==> r == Encoded(Sd.Encode(c, Sd.SessionDescription(sdp, [], [], [])), [])
    ensures key != [] && Sd.Encrypt(c, Sd.SessionDescription(sdp, [], key, nonce)).err.Some? ==>
      r == Encoded([], Sd.Encrypt(c, Sd.SessionDescription(sdp, [], key, nonce)).err.value.text)
    ensures key != [] && Sd.Encrypt(c, Sd.SessionDescription(sdp, [], key, nonce)).err.None? ==>
      r.err == [] &&
      r.encoded == Sd.Encode(c, Sd.SessionDescription(Sd.Encrypt(c, Sd.SessionDescription(sdp, [], key, nonce)).sd.sdp, [], [], []))
  {
    var answer := Sd.SessionDescription(sdp, [], key, nonce);
    var m := if key != [] then Sd.Encrypt(c, answer) else Sd.Mutation(answer, None);
    if m.err.Some? then Encoded([], m.err.value.text)
    else Encoded(Sd.Encode(c, m.sd.(key := [], nonce := [])), [])
  }

  /** What decode demands of the offer it reads: Decrypt's cipher panics
      on a nonce of the wrong size, which nothing in the source rules out. */
  predicate Decryptable(c: Sd.Codecs, s: seq<byte>)
  {
    Sd.Decode(c, s).Ok? && Sd.Decode(c, s).value.key != [] ==> Sd.NonceFits(Sd.Decode(c, s).value)
  }

  /** decode: a decode error is reported and the keys are untouched; an
      offer with a key makes its key and nonce the held ones before it is
      decrypted, so a failed decryption still replaces the keys. */
  function DecodeOffer(c: Sd.Codecs, s: seq<byte>, key: seq<byte>, nonce: seq<byte>): (r: Step)
    requires Decryptable(c, s)
    ensures Sd.Decode(c, s).Err? ==> r == Step(Decoded([], [], Sd.Decode(c, s).error.text), key, nonce)
    ensures Sd.Decode(c, s).Ok? && Sd.Decode(c, s).value.key == [] ==>
      r == Step(Decoded(Sd.Decode(c, s).value.sdp, Sd.Decode(c, s).value.tenKbSiteLoc, []), key, nonce)
    ensures Sd.Decode(c, s).Ok? && Sd.Decode(c, s).value.key != [] ==>
      r.key == Sd.Decode(c, s).value.key && r.nonce == Sd.Decode(c, s).value.nonce
    ensures r.out.err != [] ==> r.out.sdp == [] && r.out.tenKbSiteLoc == []
  {
    match Sd.Decode(c, s)
    case Err(e) => Step(Decoded([], [], e.text), key, nonce)
    case Ok(offer) =>
      if offer.key == [] then Step(Decoded(offer.sdp, offer.tenKbSiteLoc, []), key, nonce)
      else
        var m := Sd.Decrypt(c, offer);
        if m.err.Some? then Step(Decoded([], [], m.err.value.text), offer.key, offer.nonce)
        else Step(Decoded(m.sd.sdp, m.sd.tenKbSiteLoc, []), offer.key, offer.nonce)
  }

  /** An answer goes out without keys: what the host decodes from it is
      the Sdp (encrypted when a key is held) and nothing else. */
  lemma AnswerCarriesNoKeys(c: Sd.Codecs, key: seq<byte>, nonce: seq<byte>, sdp: seq<byte>)
    requires Sd.Sound(c)
    requires key != [] ==> Sd.KeysFit(key, nonce)
    requires key == [] || Sd.Encrypt(c, Sd.SessionDescription(sdp, [], key, nonce)).err.None?
    ensures var e := EncodeAnswer(c, key, nonce, sdp);
      e.err == [] &&
      Sd.Decode(c, e.encoded) == Ok(Sd.SessionDescription(
        if key == [] then sdp else Sd.Encrypt(c, Sd.SessionDescription(sdp, [], key, nonce)).sd.sdp, [], [], []))
  {
    var s := if key == [] then sdp else Sd.Encrypt(c, Sd.SessionDescription(sdp, [], key, nonce)).sd.sdp;
    Sd.DecodeEncode(c, Sd.SessionDescription(s, [], [], []));
  }

  /** An encrypted offer from the host is decrypted back to its Sdp, and its
      key and nonce become the held ones. */
  lemma OfferDecrypted(c: Sd.Codecs, plain: Sd.SessionDescription, key: seq<byte>, nonce: seq<byte>)
    requires Sd.Sound(c) && Sd.NonceFits(plain) && plain.key != []
    requires IsAscii(plain.tenKbSiteLoc) && IsAscii(plain.key) && IsAscii(plain.nonce)
    requires Sd.Encrypt(c, plain).err.None?
    ensures Decryptable(c, Sd.Encode(c, Sd.Encrypt(c, plain).sd))
    ensures DecodeOffer(c, Sd.Encode(c, Sd.Encrypt(c, plain).sd), key, nonce) ==
      Step(Decoded(plain.sdp, plain.tenKbSiteLoc, []), plain.key, plain.nonce)
  {
    var offer := Sd.Encrypt(c, plain).sd;
    Sd.DecodeEncode(c, offer);
    Sd.DecryptEncrypt(c, plain);
  }

  /** The one-way exchange closes: an answer encoded under the offer's keys
      and uploaded as the body of a 200 reply, after any number of 404s, is
      what the host's run decrypts — the answer's Sdp under the offer's
      keys. */
  lemma AnswerReachesHost(c: Sd.Codecs, offer: Sd.SessionDescription, sdp: seq<byte>,
                          retries: seq<TenKbSite.HttpReply>)
    requires Sd.Sound(c) && Sd.NonceFits(offer) && offer.key != []
    requires Sd.Encrypt(c, Sd.SessionDescription(sdp, [], offer.key, offer.nonce)).err.None?
    requires forall k :: 0 <= k < |retries| ==> TenKbSite.Retries(retries[k])
    ensures var e := EncodeAnswer(c, offer.key, offer.nonce, sdp);
      e.err == [] &&
      Host.OneWayAnswer(c, offer, retries + [TenKbSite.Reply(TenKbSite.StatusOK, e.encoded, None)]) ==
        Host.Got(Sd.SessionDescription(sdp, [], offer.key, offer.nonce))
  {
    var answer := Sd.SessionDescription(sdp, [], offer.key, offer.nonce);
    var e := EncodeAnswer(c, offer.key, offer.nonce, sdp);
    var sealed := Sd.Encrypt(c, answer).sd;
    AnswerCarriesNoKeys(c, offer.key, offer.nonce, sdp);
    var replies := retries + [TenKbSite.Reply(TenKbSite.StatusOK, e.encoded, None)];
    assert forall k :: 0 <= k < |retries| ==> replies[k] == retries[k];
    TenKbSite.PollAnswered(replies, |retries|);
    assert Sd.SessionDescription(sealed.sdp, [], [], []).(key := offer.key, nonce := offer.nonce) == sealed;
    Sd.DecryptEncrypt(c, answer);
  }

  /** The whole one-way handshake: the host's offer (fresh keys, encrypted
      Sdp, relay path) is decrypted by the browser, which keeps its keys;
      the answer the browser then encodes under them, uploaded after any
      number of 404s, is decrypted by the host to the browser's Sdp. */
  lemma OneWayHandshake(c: Sd.Codecs, offerSdp: seq<byte>, answerSdp: seq<byte>, k: seq<byte>, n: seq<byte>,
                        loc: seq<byte>, retries: seq<TenKbSite.HttpReply>)
    requires Sd.Sound(c) && |k| == Sd.KeyBytes && |n| == NonceSize && IsAscii(loc)
    requires forall i :: 0 <= i < |retries| ==> TenKbSite.Retries(retries[i])
    ensures var g := Sd.GenKeys(Sd.SessionDescription(offerSdp, [], [], []), Ok(k), Ok(n)).sd;
      var offer := Sd.Encrypt(c, g).sd.(tenKbSiteLoc := loc);
      Decryptable(c, Sd.Encode(c, offer)) &&
      DecodeOffer(c, Sd.Encode(c, offer), [], []) == Step(Decoded(offerSdp, loc, []), offer.key, offer.nonce) &&
      Sd.KeysFit(offer.key, offer.nonce) && offer.key != [] &&
      Host.OneWayAnswer(c, offer, retries + [TenKbSite.Reply(TenKbSite.StatusOK,
        EncodeAnswer(c, offer.key, offer.nonce, answerSdp).encoded, None)]) ==
        Host.Got(Sd.SessionDescription(answerSdp, [], offer.key, offer.nonce))
  {
    var g := Sd.GenKeys(Sd.SessionDescription(offerSdp, [], [], []), Ok(k), Ok(n)).sd;
    Sd.GenKeysThenEncrypt(c, Sd.SessionDescription(offerSdp, [], [], []), k, n);
    var offer := Sd.Encrypt(c, g).sd.(tenKbSiteLoc := loc);
    var plain := g.(tenKbSiteLoc := loc);
    assert Sd.Encrypt(c, plain).sd == offer;
    Sd.HexAscii(k);
    Sd.HexAscii(n);
    OfferDecrypted(c, plain, [], []);
    Hex.DecodeEncode(k);
    Hex.DecodeEncode(n);
    AnswerReachesHost(c, offer, answerSdp, retries);
  }

  class WebClient {
    /** The package variables `key` and `nonce`. */
    var key: seq<byte>
    var nonce: seq<byte>

    constructor ()
      ensures key == [] && nonce == []
    {
      key := [];
      nonce := [];
    }

    method Encode(c: Sd.Codecs, sdp: seq<byte>) returns (encoded: seq<byte>, err: seq<byte>)
      requires key != [] ==> Sd.KeysFit(key, nonce)
      ensures Encoded(encoded, err) == EncodeAnswer(c, key, nonce, sdp)
    {
      var answerSd := Sd.SessionDescription(sdp, [], key, nonce);
      if key != [] {
        var m := Sd.Encrypt(c, answerSd);
        if m.err.Some? {
          return [], m.err.value.text;
        }
        answerSd := m.sd;
      }
      answerSd := answerSd.(key := [], nonce := []);
      return Sd.Encode(c, answerSd), [];
    }

    method Decode(c: Sd.Codecs, s: seq<byte>) returns (sdp: seq<byte>, tenKbSiteLoc: seq<byte>, err: seq<byte>)
      requires Decryptable(c, s)
      modifies this`key, this`nonce
      ensures Step(Decoded(sdp, tenKbSiteLoc, err), key, nonce) == DecodeOffer(c, s, old(key), old(nonce))
    {
      var decoded := Sd.Decode(c, s);
      if decoded.Err? {
        return [], [], decoded.error.text;
      }
      var offer := decoded.value;
      if offer.key != [] {
        key := offer.key;
        nonce := offer.nonce;
        var m := Sd.Decrypt(c, offer);
        if m.err.Some? {
          return [], [], m.err.value.text;
        }
        offer := m.sd;
      }
      return offer.sdp, offer.tenKbSiteLoc, [];
    }
  }
}
