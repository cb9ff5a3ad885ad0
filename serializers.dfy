/**
  orewrap/serializers.py: the identity `Serializer`, the UTF-8 `StringSerializer` and
  `IgnoreCaseSerializer`, which inherits `load` from `Serializer`.
*/
module Serializers {
  import opened Wrappers
  import opened Unicode
  import opened Py

  datatype Serializer = BaseSerializer | StringSerializer | IgnoreCaseSerializer {

    /** `dump(value)`; none of the three can raise. */
    function Dump(value: Value): Value {
      match this
      case BaseSerializer => value
      case StringSerializer => PyBytes(Unicode.Encode(Str(value)))
      case IgnoreCaseSerializer => PyStr(Lower(Str(value)))
    }

    /** `load(data)`; only StringSerializer can raise, on anything but well-formed UTF-8 bytes. */
    function Load(data: Value): PyResult<Value> {
      match this
      case StringSerializer =>
        (match data
         case PyBytes(b) => DecodeUtf8(b)
         case _ => Err(AttributeError))
      case _ => Ok(data)
    }
  }

  /** The base serializer is the identity both ways. */
  lemma SerializerIsIdentity(v: Value)
    ensures BaseSerializer.Dump(v) == v && BaseSerializer.Load(v) == Ok(v)
  {
  }

  /** Every string survives a dump and a load; other values come back as their `str()`. */
  lemma StringSerializerRoundTrip(v: Value)
    ensures StringSerializer.Load(StringSerializer.Dump(v)) == Ok(PyStr(Str(v)))
    ensures v.PyStr? ==> StringSerializer.Load(StringSerializer.Dump(v)) == Ok(v)
  {
    DecodeUtf8OfStr(v);
  }

  /** `load` refuses bytes that are not well-formed UTF-8, and anything that is not bytes. */
  lemma StringSerializerLoadFails(data: Value)
    ensures StringSerializer.Load(data).Ok? <==> data.PyBytes? && Unicode.Decode(data.data).Some?
    ensures data.PyBytes? && Unicode.Decode(data.data).None? ==> StringSerializer.Load(data) == Err(UnicodeDecodeError)
    ensures !data.PyBytes? ==> StringSerializer.Load(data) == Err(AttributeError)
  {
  }

  /** Loading what was dumped gives the lower-cased text, the original exactly when it had no upper-case letter. */
  lemma IgnoreCaseLossy(s: string)
    ensures IgnoreCaseSerializer.Load(IgnoreCaseSerializer.Dump(PyStr(s))) == Ok(PyStr(Lower(s)))
    ensures IgnoreCaseSerializer.Load(IgnoreCaseSerializer.Dump(PyStr(s))) == Ok(PyStr(s))
      <==> forall i :: 0 <= i < |s| ==> !IsUpper(s[i])
  {
    LowerFixedIff(s);
  }

  /** Dumping a dump changes nothing more. */
  lemma {:induction false} IgnoreCaseIdempotent(v: Value)
    ensures IgnoreCaseSerializer.Dump(IgnoreCaseSerializer.Dump(v)) == IgnoreCaseSerializer.Dump(v)
  {
    LowerIdempotent(Str(v));
  }
}
