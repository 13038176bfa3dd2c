/** The older text form of a session description (session_description.go):
    base64 of the zlib stream of the JSON of `{Sdp, TenKbSiteLoc}`, and a
    reader that tolerates one `=` lost when the text was copied and pasted. */
module OfferCodec {
  import opened Common
  import opened Libraries
  import Base64

  datatype OfferDescription = OfferDescription(sdp: seq<byte>, tenKbSiteLoc: seq<byte>)

  datatype Codecs = Codecs(zlib: Zlib, json: StructJson<OfferDescription>)

  predicate Textual(x: OfferDescription)
  {
    IsAscii(x.sdp) && IsAscii(x.tenKbSiteLoc)
  }

  ghost predicate Sound(c: Codecs)
  {
    ZlibSound(c.zlib) && JsonSound(c.json, Textual)
  }

  /** encodeBytes: base64 of the zlib stream. */
  function EncodeBytes(z: Zlib, b: seq<byte>): seq<byte>
  {
    Base64.Encode(z.compress(b))
  }

  /** encodeOffer: encodeBytes of the JSON of the whole struct. */
  function EncodeOffer(c: Codecs, offer: OfferDescription): seq<byte>
  {
    EncodeBytes(c.zlib, c.json.marshal(offer))
  }

  // ------------------------------------------------------ the retry loop

  /** What the two-pass loop of decodeOffer leaves in `sdCompressed, err`:
      the decoding of the text if it is valid base64, otherwise the
      decoding of the text with one `=` appended. */
  function Retried(s: seq<byte>): Result<seq<byte>>
  {
    if Base64.Decode(s).Ok? then Base64.Decode(s) else Base64.Decode(s + [Base64.Pad])
  }

  /** The loop itself: two passes; each failed pass appends `=` to the text. */
  method DecodeWithRetry(offer: seq<byte>) returns (decoded: Result<seq<byte>>)
    ensures decoded == Retried(offer)
  {
    var text := offer;
    decoded := Ok([]);
    var i := 0;
    while i < 2
      invariant 0 <= i <= 2
      invariant i == 0 ==> text == offer
      invariant i == 1 ==>
        decoded == Base64.Decode(offer) && text == (if decoded.Ok? then offer else offer + [Base64.Pad])
      invariant i == 2 ==> decoded == Retried(offer)
    {
      decoded := Base64.Decode(text);
      if decoded.Err? {
        text := text + [Base64.Pad];
      }
      i := i + 1;
    }
  }

  /** decodeOffer as a function of its input: the base64 error after the
      retry, else the zlib error, else the JSON error, else the struct. */
  function DecodeOfferSpec(c: Codecs, s: seq<byte>): (r: Result<OfferDescription>)
    ensures Retried(s).Err? ==> r == Err(Retried(s).error)
    ensures Retried(s).Ok? && Read(c.zlib, Retried(s).value).Err? ==> r == Err(Read(c.zlib, Retried(s).value).error)
    ensures r.Ok? ==>
      Retried(s).Ok? && Read(c.zlib, Retried(s).value).Ok? &&
      c.json.unmarshal(Read(c.zlib, Retried(s).value).value) == r
  {
    var compressed :- Retried(s);
    var inflated :- Read(c.zlib, compressed);
    c.json.unmarshal(inflated)
  }

  /** decodeOffer. */
  method DecodeOffer(c: Codecs, s: seq<byte>) returns (r: Result<OfferDescription>)
    ensures r == DecodeOfferSpec(c, s)
  {
    var compressed := DecodeWithRetry(s);
    if compressed.Err? {
      return Err(compressed.error);
    }
    var inflated := Read(c.zlib, compressed.value);
    if inflated.Err? {
      return Err(inflated.error);
    }
    r := c.json.unmarshal(inflated.value);
  }

  // ------------------------------------------------------------ properties

  /** Valid base64 is read as it is: nothing is appended. */
  lemma ValidTextUnchanged(s: seq<byte>)
    requires Base64.Decode(s).Ok?
    ensures Retried(s) == Base64.Decode(s)
  {
  }

  /** The bytes of an encoding are recovered by the retry as they are. */
  lemma RetriedEncoding(b: seq<byte>)
    ensures Retried(Base64.Encode(b)) == Ok(b)
  {
    Base64.DecodeEncode(b);
  }

  /** An encoding ending in one `=` with that `=` dropped is recovered. */
  lemma OneDroppedPadRecovered(b: seq<byte>)
    requires |b| % 3 == 2
    ensures var s := Base64.Encode(b); Retried(s[..|s| - 1]) == Ok(b)
  {
    Base64.EncodePadding(b);
    Base64.EncodeLength(b);
    Base64.EncodeNoBreaks(b);
    Base64.DecodeEncode(b);
    PadPutBack(Base64.Encode(b), b);
  }

  /** A valid text ending in `=`, with that `=` dropped, reads as the text. */
  lemma PadPutBack(s: seq<byte>, b: seq<byte>)
    requires Base64.NoBreaks(s)
    requires |s| % 4 == 0 && |s| >= 4 && s[|s| - 1] == Base64.Pad && Base64.Decode(s) == Ok(b)
    ensures Retried(s[..|s| - 1]) == Ok(b)
  {
    var t := s[..|s| - 1];
    NoBreaksPrefix(s, |s| - 1);
    Base64.RaggedTextFails(t);
    assert t + [Base64.Pad] == s;
  }

  lemma NoBreaksPrefix(s: seq<byte>, k: int)
    requires Base64.NoBreaks(s) && 0 <= k <= |s|
    ensures Base64.NoBreaks(s[..k])
  {
    assert forall i :: 0 <= i < k ==> s[..k][i] == s[i];
  }

  /** An encoding ending in `==` with both dropped is NOT recovered: only
      one missing padding character is put back. */
  lemma TwoDroppedPadsFail(b: seq<byte>)
    requires |b| % 3 == 1
    ensures var s := Base64.Encode(b); Retried(s[..|s| - 2]).Err?
  {
    Base64.EncodePadding(b);
    Base64.EncodeLength(b);
    Base64.EncodeNoBreaks(b);
    TwoShortFails(Base64.Encode(b));
  }

  /** Two characters short of whole groups is too many for the retry. */
  lemma TwoShortFails(s: seq<byte>)
    requires Base64.NoBreaks(s) && |s| % 4 == 0 && |s| >= 4
    ensures Retried(s[..|s| - 2]).Err?
  {
    var t := s[..|s| - 2];
    NoBreaksPrefix(s, |s| - 2);
    Base64.RaggedTextFails(t);
    Base64.StripAppend(t, [Base64.Pad]);
    Base64.StripNoBreaks(t);
    Base64.StripNoBreaks([Base64.Pad]);
    Base64.RaggedFails(t + [Base64.Pad]);
  }

  /** decodeOffer reads back what encodeOffer wrote, both fields included. */
  lemma DecodeEncode(c: Codecs, x: OfferDescription)
    requires Sound(c) && Textual(x)
    ensures DecodeOfferSpec(c, EncodeOffer(c, x)) == Ok(x)
  {
    RetriedEncoding(c.zlib.compress(c.json.marshal(x)));
    ReadCompressed(c.zlib, c.json.marshal(x));
  }

  /** The same holds when the encoding lost one closing `=`. */
  lemma DecodeEncodeDroppedPad(c: Codecs, x: OfferDescription)
    requires Sound(c) && Textual(x)
    requires |c.zlib.compress(c.json.marshal(x))| % 3 == 2
    ensures var s := EncodeOffer(c, x); DecodeOfferSpec(c, s[..|s| - 1]) == Ok(x)
  {
    var b := c.zlib.compress(c.json.marshal(x));
    var s := EncodeOffer(c, x);
    OneDroppedPadRecovered(b);
    ReadCompressed(c.zlib, c.json.marshal(x));
    SpecOfRead(c, s[..|s| - 1], b);
  }

  /** Once the retry has given the compressed bytes, decodeOffer reads them. */
  lemma SpecOfRead(c: Codecs, t: seq<byte>, b: seq<byte>)
    requires Retried(t) == Ok(b) && Read(c.zlib, b).Ok?
    ensures DecodeOfferSpec(c, t) == c.json.unmarshal(Read(c.zlib, b).value)
  {
  }
}
