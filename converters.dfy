/**
  orewrap/conversters.py: `Converter`, which calls the two callables it was given,
  `ConvertQueue`, which threads a value through its stages with `for` loops, and the
  text and lower-casing converters.
*/
module Converters {
  import opened Wrappers
  import opened Unicode
  import opened Py
  import Pipeline

  /** The callable a converter holds; calling a missing one (None) raises TypeError. */
  function Call(f: Option<Stage>, v: Value): PyResult<Value> {
    match f
    case None => Err(TypeError)
    case Some(g) => g(v)
  }

  /** `Converter(encoder, decoder)`. Unlike `Encoder`, a missing callable is stored as None. */
  datatype Converter = Converter(encoder: Option<Stage>, decoder: Option<Stage>) {

    function Encode(value: Value): (r: PyResult<Value>)
      ensures encoder.None? ==> r == Err(TypeError)
      ensures encoder.Some? ==> r == encoder.value(value)
    {
      Call(encoder, value)
    }

    function Decode(code: Value): (r: PyResult<Value>)
      ensures decoder.None? ==> r == Err(TypeError)
      ensures decoder.Some? ==> r == decoder.value(code)
    {
      Call(decoder, code)
    }

    /** The converter seen through its `encode` and `decode` methods. */
    function AsCodec(): Codec {
      Codec(v => Encode(v), c => Decode(c))
    }
  }

  /**
    `ConvertQueue(*converters)`: the stages' encoders in the order given and their decoders
    in the reverse order, fixed at construction. Any object with `encode` and `decode`
    methods can be a stage, a queue included. The `None` filter of the source tests bound
    methods, which are never None, so it keeps every stage.
  */
  class ConvertQueue {
    const encoders: seq<Stage>
    const decoders: seq<Stage>
    ghost const stages: seq<Codec>

    ghost predicate Valid() {
      encoders == Pipeline.Encoders(stages) && decoders == Pipeline.Decoders(Pipeline.Reverse(stages))
    }

    constructor (converters: seq<Codec>)
      ensures stages == converters && Valid()
    {
      encoders := Pipeline.Encoders(converters);
      decoders := Pipeline.Decoders(Pipeline.Reverse(converters));
      stages := converters;
    }

    /** Apply the encoders front to back; the first exception ends the loop. */
    method Encode(value: Value) returns (code: PyResult<Value>)
      requires Valid()
      ensures code == Pipeline.Encode(stages, value)
    {
      code := Run(encoders, value);
    }

    /** Apply the decoders, last stage first; the first exception ends the loop. */
    method Decode(code: Value) returns (value: PyResult<Value>)
      requires Valid()
      ensures value == Pipeline.Decode(stages, code)
    {
      value := Run(decoders, code);
    }
  }

  /** The `for` loop of `ConvertQueue.encode` and `decode`: rebind the accumulator stage by stage. */
  method Run(fs: seq<Stage>, start: Value) returns (r: PyResult<Value>)
    ensures r == Pipeline.Chain(fs, start)
  {
    var current := start;
    var i := 0;
    while i < |fs|
      invariant 0 <= i <= |fs|
      invariant Pipeline.Chain(fs, start) == Pipeline.Chain(fs[i..], current)
    {
      assert fs[i..][0] == fs[i] && fs[i..][1..] == fs[i + 1..];
      var step := fs[i](current);
      if step.Err? {
        return Err(step.error);
      }
      current := step.value;
      i := i + 1;
    }
    assert fs[i..] == [];
    r := Ok(current);
  }

  function Codecs(cs: seq<Converter>): (r: seq<Codec>)
    ensures |r| == |cs| && forall i :: 0 <= i < |cs| ==> r[i] == cs[i].AsCodec()
  {
    seq(|cs|, i requires 0 <= i < |cs| => cs[i].AsCodec())
  }

  /** A queue of converters that each round-trip round-trips; the empty queue is the identity. */
  lemma QueueRoundTrips(cs: seq<Converter>, v: Value)
    requires forall i :: 0 <= i < |cs| ==> Pipeline.RoundTrips(cs[i].AsCodec())
    ensures Pipeline.RoundTrips(Pipeline.Compose(Codecs(cs)))
    ensures Pipeline.Encode([], v) == Ok(v) && Pipeline.Decode([], v) == Ok(v)
  {
    Pipeline.RoundTripAll(Codecs(cs));
  }

  /** Two converters: `a` encodes first, `b` decodes first. */
  lemma QueueOrder(a: Converter, b: Converter, v: Value, x: Value)
    ensures Pipeline.Encode(Codecs([a, b]), v) == Pipeline.Then(a.Encode(v), b.AsCodec().encode)
    ensures Pipeline.Decode(Codecs([a, b]), x) == Pipeline.Then(b.Decode(x), a.AsCodec().decode)
  {
    var cs := Codecs([a, b]);
    assert cs == [a.AsCodec()] + [b.AsCodec()];
    Pipeline.EncodeSnoc([a.AsCodec()], b.AsCodec(), v);
    assert [a.AsCodec()] == [a.AsCodec()] + [];
    Pipeline.EncodeCons(a.AsCodec(), [], v);
    Pipeline.DecodeSnoc([a.AsCodec()], b.AsCodec(), x);
    match b.Decode(x)
    case Err(_) =>
    case Ok(w) => Pipeline.DecodeCons(a.AsCodec(), [], w);
  }

  /**
    A converter built without a decoder makes every decode of a queue holding it raise:
    its None is called unconditionally, whatever the other stages do.
  */
  lemma MissingDecoderFails(cs: seq<Converter>, k: int, code: Value)
    requires 0 <= k < |cs| && cs[k].decoder.None?
    ensures Pipeline.Decode(Codecs(cs), code).Err?
  {
    var rs := Pipeline.Reverse(Codecs(cs));
    var ds := Pipeline.Decoders(rs);
    var j := |cs| - 1 - k;
    Pipeline.ReverseAt(Codecs(cs), j);
    assert ds[j] == cs[k].AsCodec().decode;
    Pipeline.ChainFailsAt(ds, j, code);
  }

  // ---------------------------------------------------------------- stringConverter

  /** `str.encode(value)`, the unbound method: it demands a str. */
  function StrEncode(value: Value): PyResult<Value> {
    match value
    case PyStr(s) => Ok(PyBytes(Unicode.Encode(s)))
    case _ => Err(TypeError)
  }

  /** `bytes.decode(code)`, the unbound method: it demands bytes, then decodes strict UTF-8. */
  function BytesDecode(code: Value): PyResult<Value> {
    match code
    case PyBytes(data) => DecodeUtf8(data)
    case _ => Err(TypeError)
  }

  const StringConverter := Converter(Some(StrEncode), Some(BytesDecode))

  /** Strings round-trip; nothing else is accepted by the encoder, so the converter round-trips outright. */
  lemma StringConverterRoundTrips(s: string)
    ensures StringConverter.Decode(StringConverter.Encode(PyStr(s)).value) == Ok(PyStr(s))
    ensures Pipeline.RoundTrips(StringConverter.AsCodec())
  {
    DecodeEncode(s);
    forall v | StringConverter.AsCodec().encode(v).Ok?
      ensures StringConverter.AsCodec().decode(StringConverter.AsCodec().encode(v).value) == Ok(v)
    {
      DecodeEncode(v.s);
    }
  }

  /** Decoding accepts exactly well-formed UTF-8 bytes. */
  lemma StringConverterDecodeFails(code: Value)
    ensures StringConverter.Decode(code).Ok? <==> code.PyBytes? && Unicode.Decode(code.data).Some?
    ensures !code.PyBytes? ==> StringConverter.Decode(code) == Err(TypeError)
    ensures code.PyBytes? && Unicode.Decode(code.data).None? ==> StringConverter.Decode(code) == Err(UnicodeDecodeError)
  {
  }

  // ---------------------------------------------------------------- lowerCaseConverter

  function LowerStr(value: Value): PyResult<Value> {
    Ok(PyStr(Lower(Str(value))))
  }

  const LowerCaseConverter := Converter(Some(LowerStr), None)

  /** Encoding lower-cases `str(value)`; decoding always raises. */
  lemma LowerCaseConverterOneWay(value: Value, code: Value)
    ensures LowerCaseConverter.Encode(value) == Ok(PyStr(Lower(Str(value))))
    ensures LowerCaseConverter.Encode(value).value.s == Lower(LowerCaseConverter.Encode(value).value.s)
    ensures LowerCaseConverter.Decode(code) == Err(TypeError)
  {
    LowerIdempotent(Str(value));
  }
}
