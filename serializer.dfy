/**
  orewrap/serializer.py, the earlier serializer module used by orewrap/field.py: the
  identity `Serializer` and `IgnoreCaseSerializer`, which lower-cases after the base dump.
*/
module Serializer {
  import opened Wrappers
  import opened Py
  import Serializers

  /** `Serializer.dump`, which `IgnoreCaseSerializer.dump` calls through `super()`. */
  function BaseDump(value: Value): Value {
    value
  }

  datatype Serializer = BaseSerializer | IgnoreCaseSerializer {

    /** `dump(value)`: IgnoreCaseSerializer lower-cases the base dump of `str(value)`. */
    function Dump(value: Value): Value {
      match this
      case BaseSerializer => BaseDump(value)
      case IgnoreCaseSerializer => PyStr(Lower(BaseDump(PyStr(Str(value))).s))
    }

    /** `load(data)`: both inherit the identity. */
    function Load(data: Value): Value {
      data
    }
  }

  /** The base serializer is the identity both ways. */
  lemma SerializerIsIdentity(v: Value)
    ensures BaseSerializer.Dump(v) == v && BaseSerializer.Load(v) == v
  {
  }

  /** Lower-casing after the identity dump gives what the later revision gives by lower-casing first. */
  lemma IgnoreCaseAgreesWithLaterRevision(v: Value)
    ensures IgnoreCaseSerializer.Dump(v) == Serializers.Serializer.IgnoreCaseSerializer.Dump(v)
    ensures IgnoreCaseSerializer.Dump(v) == PyStr(Lower(Str(v)))
  {
  }

  /** `load(dump(s))` is the lower-cased text, the original exactly when it had no upper-case letter. */
  lemma IgnoreCaseLossy(s: string)
    ensures IgnoreCaseSerializer.Load(IgnoreCaseSerializer.Dump(PyStr(s))) == PyStr(Lower(s))
    ensures IgnoreCaseSerializer.Load(IgnoreCaseSerializer.Dump(PyStr(s))) == PyStr(s)
      <==> forall i :: 0 <= i < |s| ==> !IsUpper(s[i])
  {
    LowerFixedIff(s);
  }

  /** Dumping a dump changes nothing more. */
  lemma {:induction false} IgnoreCaseIdempotent(v: Value)
    ensures IgnoreCaseSerializer.Dump(IgnoreCaseSerializer.Dump(v)) == IgnoreCaseSerializer.Dump(v)
  {
    LowerIdempotent(Str(v));
  }
}
