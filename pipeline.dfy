/**
  The idea shared by the three codec revisions: an ordered list of codecs whose
  encoders run front to back and whose decoders run back to front, each stage's
  exception ending the run.
*/
module Pipeline {
  import opened Wrappers
  import opened Py

  /** Thread a value through the callables in order; the first exception propagates. */
  function Chain(fs: seq<Stage>, v: Value): PyResult<Value> {
    if fs == [] then Ok(v)
    else match fs[0](v)
      case Err(e) => Err(e)
      case Ok(w) => Chain(fs[1..], w)
  }

  /** `reversed(s)`. */
  function Reverse<T>(s: seq<T>): (r: seq<T>)
    ensures |r| == |s|
  {
    if s == [] then [] else Reverse(s[1..]) + [s[0]]
  }

  /** `[c.encode for c in cs]` */
  function Encoders(cs: seq<Codec>): (fs: seq<Stage>)
    ensures |fs| == |cs| && forall i :: 0 <= i < |cs| ==> fs[i] == cs[i].encode
  {
    if cs == [] then [] else [cs[0].encode] + Encoders(cs[1..])
  }

  /** `[c.decode for c in cs]` */
  function Decoders(cs: seq<Codec>): (fs: seq<Stage>)
    ensures |fs| == |cs| && forall i :: 0 <= i < |cs| ==> fs[i] == cs[i].decode
  {
    if cs == [] then [] else [cs[0].decode] + Decoders(cs[1..])
  }

  function Encode(cs: seq<Codec>, v: Value): PyResult<Value> {
    Chain(Encoders(cs), v)
  }

  function Decode(cs: seq<Codec>, c: Value): PyResult<Value> {
    Chain(Decoders(Reverse(cs)), c)
  }

  /** The pipeline as a codec of its own, so that it can be a stage of another pipeline. */
  function Compose(cs: seq<Codec>): Codec {
    Codec(v => Encode(cs, v), c => Decode(cs, c))
  }

  /** Run `f` on a successful result; pass an exception through. */
  function Then(r: PyResult<Value>, f: Stage): PyResult<Value> {
    match r
    case Err(e) => Err(e)
    case Ok(w) => f(w)
  }

  lemma {:induction false} ReverseAt<T>(s: seq<T>, i: int)
    requires 0 <= i < |s|
    ensures Reverse(s)[i] == s[|s| - 1 - i]
  {
    if i < |s| - 1 {
      ReverseAt(s[1..], i);
    }
  }

  /** A stage that raises on every input makes the whole chain raise, whatever comes before it. */
  lemma {:induction false} ChainFailsAt(fs: seq<Stage>, i: int, v: Value)
    requires 0 <= i < |fs| && forall w :: fs[i](w).Err?
    ensures Chain(fs, v).Err?
  {
    match fs[0](v)
    case Err(_) =>
    case Ok(w) =>
      if i > 0 {
        ChainFailsAt(fs[1..], i - 1, w);
      }
  }

  lemma {:induction false} ChainAppend(fs: seq<Stage>, gs: seq<Stage>, v: Value)
    ensures Chain(fs + gs, v) == match Chain(fs, v) { case Err(e) => Err(e) case Ok(w) => Chain(gs, w) }
  {
    if fs == [] {
      assert fs + gs == gs;
    } else {
      assert (fs + gs)[0] == fs[0] && (fs + gs)[1..] == fs[1..] + gs;
      match fs[0](v)
      case Err(e) =>
      case Ok(w) => ChainAppend(fs[1..], gs, w);
    }
  }

  lemma {:induction false} DecodersAppend(cs: seq<Codec>, ds: seq<Codec>)
    ensures Decoders(cs + ds) == Decoders(cs) + Decoders(ds)
  {
    if cs == [] {
      assert cs + ds == ds;
    } else {
      assert (cs + ds)[1..] == cs[1..] + ds;
      DecodersAppend(cs[1..], ds);
    }
  }

  lemma {:induction false} EncodersAppend(cs: seq<Codec>, ds: seq<Codec>)
    ensures Encoders(cs + ds) == Encoders(cs) + Encoders(ds)
  {
    if cs == [] {
      assert cs + ds == ds;
    } else {
      assert (cs + ds)[1..] == cs[1..] + ds;
      EncodersAppend(cs[1..], ds);
    }
  }

  lemma {:induction false} ReverseAppend<T>(s: seq<T>, t: seq<T>)
    ensures Reverse(s + t) == Reverse(t) + Reverse(s)
  {
    if s == [] {
      assert s + t == t;
    } else {
      assert (s + t)[0] == s[0] && (s + t)[1..] == s[1..] + t;
      ReverseAppend(s[1..], t);
    }
  }

  /** Encoding runs the first stage first. */
  lemma EncodeCons(c: Codec, cs: seq<Codec>, v: Value)
    ensures Encode([c] + cs, v) == Then(c.encode(v), w => Encode(cs, w))
  {
    assert Encoders([c] + cs) == [c.encode] + Encoders(cs) by {
      assert ([c] + cs)[1..] == cs;
    }
  }

  /** Encoding runs the last stage last. */
  lemma EncodeSnoc(cs: seq<Codec>, c: Codec, v: Value)
    ensures Encode(cs + [c], v) == Then(Encode(cs, v), c.encode)
  {
    EncodersAppend(cs, [c]);
    ChainAppend(Encoders(cs), Encoders([c]), v);
  }

  /** Decoding runs the first stage's decoder last. */
  lemma DecodeCons(c: Codec, cs: seq<Codec>, x: Value)
    ensures Decode([c] + cs, x) == Then(Decode(cs, x), c.decode)
  {
    assert ([c] + cs)[1..] == cs;
    assert Reverse([c] + cs) == Reverse(cs) + [c];
    DecodersAppend(Reverse(cs), [c]);
    ChainAppend(Decoders(Reverse(cs)), Decoders([c]), x);
  }

  /** Decoding runs the last stage's decoder first. */
  lemma DecodeSnoc(cs: seq<Codec>, c: Codec, x: Value)
    ensures Decode(cs + [c], x) == Then(c.decode(x), w => Decode(cs, w))
  {
    ReverseAppend(cs, [c]);
    assert Reverse([c]) == [c];
    DecodersAppend(Reverse([c]), Reverse(cs));
    ChainAppend(Decoders([c]), Decoders(Reverse(cs)), x);
  }

  lemma EmptyIsIdentity(v: Value)
    ensures Encode([], v) == Ok(v) && Decode([], v) == Ok(v)
  {
  }

  /** `c` takes `v` to some code and back to `v`. */
  predicate RoundTripsAt(c: Codec, v: Value) {
    c.encode(v).Ok? && c.decode(c.encode(v).value) == Ok(v)
  }

  /** Every stage takes the value it receives while encoding back to itself. */
  predicate RoundTripsAlong(cs: seq<Codec>, v: Value) {
    cs == [] || (RoundTripsAt(cs[0], v) && RoundTripsAlong(cs[1..], cs[0].encode(v).value))
  }

  /** The round-trip laws of the stages, in order, give the round-trip law of the pipeline. */
  lemma {:induction false} RoundTrip(cs: seq<Codec>, v: Value)
    requires RoundTripsAlong(cs, v)
    ensures RoundTripsAt(Compose(cs), v)
  {
    if cs != [] {
      var w := cs[0].encode(v).value;
      assert [cs[0]] + cs[1..] == cs;
      EncodeCons(cs[0], cs[1..], v);
      RoundTrip(cs[1..], w);
      var code := Encode(cs[1..], w).value;
      DecodeCons(cs[0], cs[1..], code);
    }
  }

  /** `c` inverts its encoder wherever that encoder returns. */
  ghost predicate RoundTrips(c: Codec) {
    forall v :: c.encode(v).Ok? ==> c.decode(c.encode(v).value) == Ok(v)
  }

  lemma {:induction false} RoundTripsAlongAll(cs: seq<Codec>, v: Value)
    requires forall i :: 0 <= i < |cs| ==> RoundTrips(cs[i])
    requires Encode(cs, v).Ok?
    ensures RoundTripsAlong(cs, v)
  {
    if cs != [] {
      assert [cs[0]] + cs[1..] == cs;
      EncodeCons(cs[0], cs[1..], v);
      RoundTripsAlongAll(cs[1..], cs[0].encode(v).value);
    }
  }

  /** A pipeline of stages that each round-trip round-trips. */
  lemma RoundTripAll(cs: seq<Codec>)
    requires forall i :: 0 <= i < |cs| ==> RoundTrips(cs[i])
    ensures RoundTrips(Compose(cs))
  {
    forall v | Compose(cs).encode(v).Ok? ensures Compose(cs).decode(Compose(cs).encode(v).value) == Ok(v) {
      RoundTripsAlongAll(cs, v);
      RoundTrip(cs, v);
    }
  }

  /** A nested pipeline at the front behaves like its stages spliced in. */
  lemma Flatten(cs: seq<Codec>, ds: seq<Codec>, v: Value, x: Value)
    ensures Encode([Compose(cs)] + ds, v) == Encode(cs + ds, v)
    ensures Decode([Compose(cs)] + ds, x) == Decode(cs + ds, x)
  {
    EncodeCons(Compose(cs), ds, v);
    EncodersAppend(cs, ds);
    ChainAppend(Encoders(cs), Encoders(ds), v);
    DecodeCons(Compose(cs), ds, x);
    ReverseAppend(cs, ds);
    DecodersAppend(Reverse(ds), Reverse(cs));
    ChainAppend(Decoders(Reverse(ds)), Decoders(Reverse(cs)), x);
  }
}
