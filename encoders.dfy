/**
  orewrap/encoders.py: `Encoder`, a codec built from up to two callables, `EncodeQueue`,
  a pipeline of codecs folded with `functools.reduce`, and the text, lower-casing and
  base16 stages.
*/
module Encoders {
  import opened Wrappers
  import opened Unicode
  import opened Py
  import Pipeline

  /** `Encoder(encoder, decoder)`: a callable left as None keeps the identity method of the class. */
  function Encoder(encoder: Option<Stage>, decoder: Option<Stage>): Codec
  {
    Codec(
      if encoder.Some? then encoder.value else Identity,
      if decoder.Some? then decoder.value else Identity)
  }

  /**
    `EncodeQueue(*encoders)`: encoders in the order given, decoders in the reverse order.
    The `None` filter of the source tests bound methods, which are never None, so it
    keeps every stage.
  */
  function EncodeQueue(encoders: seq<Codec>): Codec
  {
    Pipeline.Compose(encoders)
  }

  /** An `Encoder()` with no callables changes nothing in either direction and so round-trips. */
  lemma DefaultEncoderIsIdentity(v: Value)
    ensures Encoder(None, None).encode(v) == Ok(v) && Encoder(None, None).decode(v) == Ok(v)
    ensures Pipeline.RoundTrips(Encoder(None, None))
  {
  }

  /** A callable that is given replaces the method; one that is not leaves the identity. */
  lemma EncoderUsesGiven(e: Stage, d: Stage, v: Value, x: Value)
    ensures Encoder(Some(e), None).encode(v) == e(v) && Encoder(Some(e), None).decode(x) == Ok(x)
    ensures Encoder(None, Some(d)).encode(v) == Ok(v) && Encoder(None, Some(d)).decode(x) == d(x)
    ensures Encoder(Some(e), Some(d)) == Codec(e, d)
  {
  }

  /** The empty queue is the identity. */
  lemma EmptyQueueIsIdentity(v: Value)
    ensures EncodeQueue([]).encode(v) == Ok(v) && EncodeQueue([]).decode(v) == Ok(v)
  {
    Pipeline.EmptyIsIdentity(v);
  }

  /** `EncodeQueue(a, b)` encodes with `a` first and decodes with `b` first. */
  lemma QueueOrder(a: Codec, b: Codec, v: Value, x: Value)
    ensures EncodeQueue([a, b]).encode(v) == Pipeline.Then(a.encode(v), b.encode)
    ensures EncodeQueue([a, b]).decode(x) == Pipeline.Then(b.decode(x), a.decode)
  {
    Pipeline.EncodeCons(a, [b], v);
    assert [a] + [b] == [a, b];
    Pipeline.EncodeCons(b, [], v);
    Pipeline.DecodeCons(a, [b], x);
    Pipeline.DecodeCons(b, [], x);
    match a.encode(v)
    case Err(_) =>
    case Ok(w) => Pipeline.EncodeCons(b, [], w);
  }

  /** A queue of stages that each round-trip round-trips. */
  lemma QueueRoundTrips(encoders: seq<Codec>)
    requires forall i :: 0 <= i < |encoders| ==> Pipeline.RoundTrips(encoders[i])
    ensures Pipeline.RoundTrips(EncodeQueue(encoders))
  {
    Pipeline.RoundTripAll(encoders);
  }

  /** `EncodeQueue(EncodeQueue(a, b), c)` behaves exactly like `EncodeQueue(a, b, c)`. */
  lemma NestedQueueFlattens(a: Codec, b: Codec, c: Codec, v: Value, x: Value)
    ensures EncodeQueue([EncodeQueue([a, b]), c]).encode(v) == EncodeQueue([a, b, c]).encode(v)
    ensures EncodeQueue([EncodeQueue([a, b]), c]).decode(x) == EncodeQueue([a, b, c]).decode(x)
  {
    Pipeline.Flatten([a, b], [c], v, x);
    assert [EncodeQueue([a, b])] + [c] == [EncodeQueue([a, b]), c];
    assert [a, b] + [c] == [a, b, c];
  }

  // ---------------------------------------------------------------- string_encoder

  function StrToUtf8(v: Value): PyResult<Value> {
    Ok(PyBytes(Unicode.Encode(Str(v))))
  }

  /** `code.decode(encoding='utf-8')`: only bytes have that method. */
  function Utf8ToStr(c: Value): PyResult<Value> {
    match c
    case PyBytes(data) => DecodeUtf8(data)
    case _ => Err(AttributeError)
  }

  const StringEncoder: Codec := Encoder(Some(StrToUtf8), Some(Utf8ToStr))

  /** Whatever goes in, its `str()` comes back: text round-trips and nothing else is restored. */
  lemma StringEncoderRoundTrip(v: Value)
    ensures StringEncoder.encode(v).Ok?
    ensures StringEncoder.decode(StringEncoder.encode(v).value) == Ok(PyStr(Str(v)))
    ensures v.PyStr? ==> Pipeline.RoundTripsAt(StringEncoder, v)
  {
    DecodeUtf8OfStr(v);
  }

  /** Decoding accepts exactly well-formed UTF-8 and raises AttributeError on anything but bytes. */
  lemma StringEncoderDecodeFails(c: Value)
    ensures StringEncoder.decode(c).Ok? <==> c.PyBytes? && Unicode.Decode(c.data).Some?
    ensures !c.PyBytes? ==> StringEncoder.decode(c) == Err(AttributeError)
    ensures c.PyBytes? && Unicode.Decode(c.data).None? ==> StringEncoder.decode(c) == Err(UnicodeDecodeError)
  {
  }

  // ---------------------------------------------------------------- lowercase_encoder

  function LowerStr(v: Value): PyResult<Value> {
    Ok(PyStr(Lower(Str(v))))
  }

  /** Built with no decoder, so the identity `decode` of the class stays in place. */
  const LowercaseEncoder: Codec := Encoder(Some(LowerStr), None)

  /** The stage is lossy: text comes back lower-cased, and unchanged exactly when it had no upper-case letter. */
  lemma LowercaseEncoderLossy(s: string, c: Value)
    ensures LowercaseEncoder.decode(c) == Ok(c)
    ensures LowercaseEncoder.encode(PyStr(s)) == Ok(PyStr(Lower(s)))
    ensures LowercaseEncoder.decode(LowercaseEncoder.encode(PyStr(s)).value) == Ok(PyStr(Lower(s)))
    ensures Pipeline.RoundTripsAt(LowercaseEncoder, PyStr(s)) <==> forall i :: 0 <= i < |s| ==> !IsUpper(s[i])
  {
    LowerFixedIff(s);
  }

  // ---------------------------------------------------------------- base16_encoder (section 8 of RFC 4648)

  /** The upper-case hexadecimal digit of a nibble, as an octet. */
  function HexOctet(d: int): (x: Byte)
    requires 0 <= d < 16
  {
    if d < 10 then 0x30 + d else 0x37 + d
  }

  predicate IsHexOctet(x: Byte) {
    0x30 <= x <= 0x39 || 0x41 <= x <= 0x46
  }

  function NibbleOf(x: Byte): (d: int)
    requires IsHexOctet(x)
    ensures 0 <= d < 16 && HexOctet(d) == x
  {
    if x <= 0x39 then x - 0x30 else x - 0x37
  }

  /** `binascii.hexlify(b).upper()`: two upper-case digits per octet, high nibble first. */
  function Hexlify(b: Bytes): (r: Bytes)
    ensures |r| == 2 * |b|
    ensures forall i :: 0 <= i < |r| ==> IsHexOctet(r[i])
  {
    if b == [] then [] else [HexOctet(b[0] / 16), HexOctet(b[0] % 16)] + Hexlify(b[1..])
  }

  predicate IsBase16(b: Bytes) {
    |b| % 2 == 0 && forall i :: 0 <= i < |b| ==> IsHexOctet(b[i])
  }

  /** `binascii.unhexlify` of digits already checked to be upper-case hexadecimal. */
  function Unhexlify(b: Bytes): (r: Bytes)
    requires IsBase16(b)
    ensures |b| == 2 * |r|
    decreases |b|
  {
    if b == [] then []
    else
      assert IsBase16(b[2..]) by {
        assert forall i :: 0 <= i < |b[2..]| ==> b[2..][i] == b[i + 2];
      }
      [NibbleOf(b[0]) * 16 + NibbleOf(b[1])] + Unhexlify(b[2..])
  }

  /** `base64.b16encode`: bytes-like input only. */
  function B16Encode(v: Value): PyResult<Value> {
    match v
    case PyBytes(b) => Ok(PyBytes(Hexlify(b)))
    case _ => Err(TypeError)
  }

  /**
    `base64.b16decode` without case folding: bytes, or a str of ASCII characters only; a
    digit outside 0-9A-F or an odd length raises `binascii.Error`, a ValueError.
  */
  function B16Decode(c: Value): PyResult<Value> {
    var data := match c
      case PyBytes(b) => Ok(b)
      case PyStr(s) => if IsAscii(s) then Ok(Unicode.Encode(s)) else Err(ValueError)
      case _ => Err(TypeError);
    match data
    case Err(e) => Err(e)
    case Ok(b) => if IsBase16(b) then Ok(PyBytes(Unhexlify(b))) else Err(ValueError)
  }

  const Base16Encoder: Codec := Encoder(Some(B16Encode), Some(B16Decode))

  lemma {:induction false} UnhexlifyHexlify(b: Bytes)
    ensures IsBase16(Hexlify(b)) && Unhexlify(Hexlify(b)) == b
  {
    if b != [] {
      var h := Hexlify(b);
      assert h[2..] == Hexlify(b[1..]);
      UnhexlifyHexlify(b[1..]);
      assert NibbleOf(h[0]) == b[0] / 16 && NibbleOf(h[1]) == b[0] % 16;
    }
  }

  lemma {:induction false} HexlifyUnhexlify(h: Bytes)
    requires IsBase16(h)
    ensures Hexlify(Unhexlify(h)) == h
    decreases |h|
  {
    if h != [] {
      assert IsBase16(h[2..]) by {
        assert forall i :: 0 <= i < |h[2..]| ==> h[2..][i] == h[i + 2];
      }
      HexlifyUnhexlify(h[2..]);
      var x := NibbleOf(h[0]) * 16 + NibbleOf(h[1]);
      assert x / 16 == NibbleOf(h[0]) && x % 16 == NibbleOf(h[1]);
      assert h == [h[0], h[1]] + h[2..];
    }
  }

  /** base16 round-trips every bytes value, and the encoding is the only one its decoder reads back. */
  lemma Base16RoundTrips(h: Bytes)
    ensures Pipeline.RoundTrips(Base16Encoder)
    ensures B16Decode(PyBytes(h)).Ok? <==> exists b :: Hexlify(b) == h
  {
    forall v | Base16Encoder.encode(v).Ok?
      ensures Base16Encoder.decode(Base16Encoder.encode(v).value) == Ok(v)
    {
      UnhexlifyHexlify(v.data);
    }
    if B16Decode(PyBytes(h)).Ok? {
      HexlifyUnhexlify(h);
    }
    if exists b :: Hexlify(b) == h {
      var b :| Hexlify(b) == h;
      UnhexlifyHexlify(b);
    }
  }

  /**
    What `b16decode` refuses: bytes that are not upper-case base 16 of even length (so
    any lower-case digit or an odd length), a str with a non-ASCII character, and any
    value that is neither bytes nor str.
  */
  lemma Base16Rejects(v: Value)
    ensures v.PyBytes? ==> (B16Decode(v) == Err(ValueError) <==> !IsBase16(v.data))
    ensures v.PyBytes? && |v.data| % 2 == 1 ==> B16Decode(v) == Err(ValueError)
    ensures v.PyBytes? && (exists i :: 0 <= i < |v.data| && 0x61 <= v.data[i] <= 0x66) ==> B16Decode(v) == Err(ValueError)
    ensures v.PyStr? && !IsAscii(v.s) ==> B16Decode(v) == Err(ValueError)
    ensures !v.PyBytes? && !v.PyStr? ==> B16Decode(v) == Err(TypeError)
  {
  }

  /** Text then base16: strings survive the two-stage queue. */
  lemma TextBase16RoundTrip(s: string)
    ensures Pipeline.RoundTripsAt(EncodeQueue([StringEncoder, Base16Encoder]), PyStr(s))
  {
    var cs := [StringEncoder, Base16Encoder];
    var w := PyBytes(Unicode.Encode(s));
    assert StringEncoder.encode(PyStr(s)) == Ok(w);
    DecodeUtf8OfStr(PyStr(s));
    assert Pipeline.RoundTripsAt(StringEncoder, PyStr(s));
    UnhexlifyHexlify(w.data);
    assert Pipeline.RoundTripsAt(Base16Encoder, w);
    assert cs[1..] == [Base16Encoder] && cs[1..][1..] == [];
    assert Pipeline.RoundTripsAlong(cs[1..], w);
    assert Pipeline.RoundTripsAlong(cs, PyStr(s));
    Pipeline.RoundTrip(cs, PyStr(s));
  }
}
