/**
  orewrap/fields.py: typed fields over one store key. `Field` checks the key and settles
  the value converter and the client; `StringField`, `HashField` and `SetField` encode
  every value before it is written and decode every value read back.

  Each field operation is specified by a function from the key space before the call to
  the reply and the key space after it; the field classes call the store's methods and
  are proved to agree with those functions. The converter is any object with `encode`
  and `decode` (`Py.Codec`); what it hands to the client is sent as `Redis.ArgBytes` of it.
*/
module Fields {
  import opened Wrappers
  import opened Unicode
  import opened Py
  import opened Redis
  import Converters

  /** `stringConverter`, the last fallback for the value converter and the name converter. */
  const DefaultCodec := Converters.StringConverter.AsCodec()

  const EmptyKey := Exception("Field key has zero length")
  const NoClient := Exception("Redis client not specified")
  const NotPositive := Exception("Number must be positive")

  /**
    The concrete class of a field, which `__eq__` compares; field.py's classes are distinct
    from these. ScoreStringField, whose source is not part of this model, is the field class
    of an entity's creation date.
  */
  datatype FieldType =
    | PlainField | StringFieldType | HashFieldType | SetFieldType | ScoreStringFieldType
    | LegacyPlainField | LegacyStringFieldType | LegacyHashFieldType

  /** What `Field.__init__` settles: the key, the value converter and the client. */
  datatype Settings = Settings(key: Key, codec: Codec, store: Store)

  /** `a or b` for a setting that is either given (any converter or client is truthy) or None. */
  function Or<T>(a: Option<T>, b: T): T {
    if a.Some? then a.value else b
  }

  lemma DefaultCodecIs(v: Value)
    ensures DefaultCodec.encode(v) == Converters.StrEncode(v)
    ensures DefaultCodec.decode(v) == Converters.BytesDecode(v)
  {
  }

  /**
    `Field.__init__`: the key is `str(key)` and must not be empty; the converter is the
    instance's, else the class's (`Field.Init`), else `stringConverter`; the client is the
    instance's, else the class's, and one of them must be set. The key is checked first.
  */
  function Init(key: Value, converter: Option<Codec>, classConverter: Option<Codec>,
                redis: Option<Store>, classRedis: Option<Store>): (r: PyResult<Settings>)
    ensures r.Err? <==> Str(key) == "" || (redis.None? && classRedis.None?)
    ensures Str(key) == "" ==> r == Err(EmptyKey)
    ensures Str(key) != "" && redis.None? && classRedis.None? ==> r == Err(NoClient)
    ensures r.Ok? ==> r.value.key == Str(key) && r.value.key != ""
    ensures r.Ok? && converter.Some? ==> r.value.codec == converter.value
    ensures r.Ok? && converter.None? && classConverter.Some? ==> r.value.codec == classConverter.value
    ensures r.Ok? && converter.None? && classConverter.None? ==> r.value.codec == DefaultCodec
    ensures r.Ok? && redis.Some? ==> r.value.store == redis.value
    ensures r.Ok? && redis.None? ==> classRedis.Some? && r.value.store == classRedis.value
  {
    var k := Str(key);
    if k == "" then Err(EmptyKey)
    else
      var client := if redis.Some? then redis else classRedis;
      if client.None? then Err(NoClient)
      else Ok(Settings(k, Or(converter, Or(classConverter, DefaultCodec)), client.value))
  }

  /**
    `HashField.__init__`'s name converter: the instance's, else the class attribute
    `_Name_Converter`, else `stringConverter`. The attribute exists only once
    `HashField.Init` has run (`classNames` is then `Some`); reading it before raises.
  */
  function NameCodec(nameConverter: Option<Codec>, classNames: Option<Option<Codec>>): (r: PyResult<Codec>)
    ensures nameConverter.Some? ==> r == Ok(nameConverter.value)
    ensures nameConverter.None? && classNames.None? ==> r == Err(AttributeError)
    ensures nameConverter.None? && classNames == Some(None) ==> r == Ok(DefaultCodec)
    ensures nameConverter.None? && classNames.Some? && classNames.value.Some? ==> r == Ok(classNames.value.value)
  {
    if nameConverter.Some? then Ok(nameConverter.value)
    else if classNames.None? then Err(AttributeError)
    else Ok(Or(classNames.value, DefaultCodec))
  }

  /** The `overwrite` argument: a per-call flag beats the instance's default. */
  function Resolve(instanceDefault: bool, overwrite: Option<bool>): (r: bool)
    ensures overwrite.Some? ==> r == overwrite.value
    ensures overwrite.None? ==> r == instanceDefault
  {
    if overwrite.None? then instanceDefault else overwrite.value
  }

  // ---------------------------------------------------------------- comprehensions

  /** A Python dict, as its items in insertion order; no key occurs twice. */
  type Dict = seq<(Value, Value)>

  function Keys(d: Dict): set<Value>
    decreases |d|
  {
    if d == [] then {} else {d[0].0} + Keys(d[1..])
  }

  lemma {:induction false} KeysIndex(d: Dict, k: Value)
    requires k in Keys(d)
    ensures exists j :: 0 <= j < |d| && d[j].0 == k
    decreases |d|
  {
    if d[0].0 != k {
      KeysIndex(d[1..], k);
      var j :| 0 <= j < |d[1..]| && d[1..][j].0 == k;
      assert d[j + 1].0 == k;
    }
  }

  function Lookup(d: Dict, k: Value): Option<Value>
    decreases |d|
  {
    if d == [] then None else if d[0].0 == k then Some(d[0].1) else Lookup(d[1..], k)
  }

  /** `d[k] = v`: an existing key keeps its place and takes the new value; a new key goes last. */
  function Put(d: Dict, k: Value, v: Value): (r: Dict)
    ensures Keys(r) == Keys(d) + {k}
    ensures Lookup(r, k) == Some(v)
    ensures forall j :: j != k ==> Lookup(r, j) == Lookup(d, j)
    decreases |d|
  {
    if d == [] then [(k, v)]
    else if d[0].0 == k then
      var r := [(k, v)] + d[1..];
      assert r[1..] == d[1..];
      r
    else
      var r := [d[0]] + Put(d[1..], k, v);
      assert r[1..] == Put(d[1..], k, v);
      r
  }

  /** No key occurs twice, as in a Python dict. */
  predicate UniqueKeys(d: Dict)
    decreases |d|
  {
    d == [] || (d[0].0 !in Keys(d[1..]) && UniqueKeys(d[1..]))
  }

  lemma {:induction false} IndexInKeys(d: Dict, j: int)
    requires 0 <= j < |d|
    ensures d[j].0 in Keys(d)
    decreases |d|
  {
    if j > 0 {
      IndexInKeys(d[1..], j - 1);
    }
  }

  lemma {:induction false} PutKeepsUnique(d: Dict, k: Value, v: Value)
    requires UniqueKeys(d)
    ensures UniqueKeys(Put(d, k, v))
    decreases |d|
  {
    if d != [] {
      var r := Put(d, k, v);
      if d[0].0 == k {
        assert r[1..] == d[1..];
      } else {
        assert r[1..] == Put(d[1..], k, v);
        PutKeepsUnique(d[1..], k, v);
      }
    }
  }

  lemma {:induction false} UniqueApart(d: Dict, p: int, q: int)
    requires UniqueKeys(d) && 0 <= p < q < |d|
    ensures d[p].0 != d[q].0
    decreases |d|
  {
    if p == 0 {
      IndexInKeys(d[1..], q - 1);
    } else {
      UniqueApart(d[1..], p - 1, q - 1);
    }
  }

  /** In a dict without repeated keys, each item is what its key looks up. */
  lemma {:induction false} LookupAt(d: Dict, p: int)
    requires UniqueKeys(d) && 0 <= p < |d|
    ensures Lookup(d, d[p].0) == Some(d[p].1)
    decreases |d|
  {
    if p > 0 {
      UniqueApart(d, 0, p);
      LookupAt(d[1..], p - 1);
    }
  }

  /**
    `{kf(a): vf(b) for a, b in items}`, entered into `acc`: for each item the key is
    computed before the value, and the first exception ends the comprehension.
  */
  function Comprehend(kf: Stage, vf: Stage, items: seq<(Value, Value)>, acc: Dict): (r: PyResult<Dict>)
    ensures r.Ok? <==> forall i :: 0 <= i < |items| ==> kf(items[i].0).Ok? && vf(items[i].1).Ok?
    ensures r.Ok? ==> Keys(acc) <= Keys(r.value)
    ensures r.Ok? ==> forall i :: 0 <= i < |items| ==> kf(items[i].0).value in Keys(r.value)
    ensures r.Ok? ==> forall x :: x in Keys(r.value) ==>
      x in Keys(acc) || exists i :: 0 <= i < |items| && kf(items[i].0) == Ok(x)
    decreases |items|
  {
    if items == [] then Ok(acc)
    else
      match kf(items[0].0)
      case Err(e) => Err(e)
      case Ok(k) =>
        match vf(items[0].1)
        case Err(e) => Err(e)
        case Ok(v) =>
          var r := Comprehend(kf, vf, items[1..], Put(acc, k, v));
          assert forall i :: 1 <= i < |items| ==> items[i] == items[1..][i - 1];
          if r.Ok? then
            KeysCameFrom(kf, items, acc, k, v, r.value);
            r
          else r
  }

  /** Comprehend's last postcondition, carried from the rest of the items to all of them. */
  lemma KeysCameFrom(kf: Stage, items: seq<(Value, Value)>, acc: Dict, k: Value, v: Value, d: Dict)
    requires items != [] && kf(items[0].0) == Ok(k)
    requires forall x :: x in Keys(d) ==>
      x in Keys(Put(acc, k, v)) || exists i :: 0 <= i < |items[1..]| && kf(items[1..][i].0) == Ok(x)
    ensures forall x :: x in Keys(d) ==> x in Keys(acc) || exists i :: 0 <= i < |items| && kf(items[i].0) == Ok(x)
  {
    forall x | x in Keys(d) && x !in Keys(acc)
      ensures exists i :: 0 <= i < |items| && kf(items[i].0) == Ok(x)
    {
      if x != k {
        var i :| 0 <= i < |items[1..]| && kf(items[1..][i].0) == Ok(x);
        assert kf(items[i + 1].0) == Ok(x);
      }
    }
  }

  /** A successful comprehension enters its first item, then the rest. */
  lemma ComprehendStep(kf: Stage, vf: Stage, items: seq<(Value, Value)>, acc: Dict)
    requires items != [] && Comprehend(kf, vf, items, acc).Ok?
    ensures kf(items[0].0).Ok? && vf(items[0].1).Ok?
    ensures var rest := Comprehend(kf, vf, items[1..], Put(acc, kf(items[0].0).value, vf(items[0].1).value));
      rest.Ok? && Comprehend(kf, vf, items, acc) == rest
  {
  }

  /** A key no item produces keeps the value it had in `acc`. */
  lemma {:induction false} ComprehendUntouched(kf: Stage, vf: Stage, items: seq<(Value, Value)>, acc: Dict, x: Value)
    requires Comprehend(kf, vf, items, acc).Ok?
    requires forall i :: 0 <= i < |items| ==> kf(items[i].0) != Ok(x)
    ensures Lookup(Comprehend(kf, vf, items, acc).value, x) == Lookup(acc, x)
    decreases |items|
  {
    if items != [] {
      ComprehendStep(kf, vf, items, acc);
      var k := kf(items[0].0).value;
      var v := vf(items[0].1).value;
      assert k != x;
      forall i | 0 <= i < |items[1..]| ensures kf(items[1..][i].0) != Ok(x) {
        assert items[1..][i] == items[i + 1];
      }
      ComprehendUntouched(kf, vf, items[1..], Put(acc, k, v), x);
    }
  }

  /** The last item for a key decides its value, as in a dict comprehension. */
  lemma {:induction false} ComprehendLastWins(kf: Stage, vf: Stage, items: seq<(Value, Value)>, acc: Dict, i: int)
    requires Comprehend(kf, vf, items, acc).Ok? && 0 <= i < |items|
    requires forall j :: i < j < |items| ==> kf(items[j].0) != kf(items[i].0)
    ensures Lookup(Comprehend(kf, vf, items, acc).value, kf(items[i].0).value) == Some(vf(items[i].1).value)
    decreases |items|
  {
    ComprehendStep(kf, vf, items, acc);
    var k := kf(items[0].0).value;
    var v := vf(items[0].1).value;
    var rest := items[1..];
    if i == 0 {
      forall j | 0 <= j < |rest| ensures kf(rest[j].0) != Ok(k) {
        assert rest[j] == items[j + 1];
      }
      ComprehendUntouched(kf, vf, rest, Put(acc, k, v), k);
    } else {
      forall j | i - 1 < j < |rest| ensures kf(rest[j].0) != kf(rest[i - 1].0) {
        assert rest[j] == items[j + 1];
      }
      assert rest[i - 1] == items[i];
      ComprehendLastWins(kf, vf, rest, Put(acc, k, v), i - 1);
    }
  }

  /** A comprehension into a dict without repeated keys gives one without repeated keys. */
  lemma {:induction false} ComprehendUnique(kf: Stage, vf: Stage, items: seq<(Value, Value)>, acc: Dict)
    requires UniqueKeys(acc) && Comprehend(kf, vf, items, acc).Ok?
    ensures UniqueKeys(Comprehend(kf, vf, items, acc).value)
    decreases |items|
  {
    if items != [] {
      ComprehendStep(kf, vf, items, acc);
      var k := kf(items[0].0).value;
      var v := vf(items[0].1).value;
      PutKeepsUnique(acc, k, v);
      ComprehendUnique(kf, vf, items[1..], Put(acc, k, v));
    }
  }

  /** `[f(x) for x in xs]`, or the eager `*map(f, xs)`: the first exception ends it. */
  function ListComprehend(f: Stage, xs: seq<Value>): (r: PyResult<seq<Value>>)
    ensures r.Ok? <==> forall i :: 0 <= i < |xs| ==> f(xs[i]).Ok?
    ensures r.Ok? ==> |r.value| == |xs| && forall i :: 0 <= i < |xs| ==> r.value[i] == f(xs[i]).value
    ensures r.Err? ==>
      exists i :: 0 <= i < |xs| && f(xs[i]) == Err(r.error) && forall j :: 0 <= j < i ==> f(xs[j]).Ok?
    decreases |xs|
  {
    if xs == [] then Ok([])
    else
      match f(xs[0])
      case Err(e) => Err(e)
      case Ok(y) =>
        var rest := ListComprehend(f, xs[1..]);
        assert forall i :: 1 <= i < |xs| ==> xs[i] == xs[1..][i - 1];
        match rest
        case Err(e) =>
          var i :| 0 <= i < |xs[1..]| && f(xs[1..][i]) == Err(e) && forall j :: 0 <= j < i ==> f(xs[1..][j]).Ok?;
          assert f(xs[i + 1]) == Err(e);
          Err(e)
        case Ok(ys) => Ok([y] + ys)
  }

  /** `{f(x) for x in xs}`: the first exception ends it. */
  function SetComprehend(f: Stage, xs: seq<Value>): (r: PyResult<set<Value>>)
    ensures r.Ok? <==> forall i :: 0 <= i < |xs| ==> f(xs[i]).Ok?
    ensures r.Ok? ==> r.value == set i | 0 <= i < |xs| :: f(xs[i]).value
  {
    match ListComprehend(f, xs)
    case Err(e) => Err(e)
    case Ok(ys) =>
      assert (set y | y in ys) == set i | 0 <= i < |xs| :: f(xs[i]).value by {
        forall y | y in ys ensures y in set i | 0 <= i < |xs| :: f(xs[i]).value {
          var i :| 0 <= i < |ys| && ys[i] == y;
        }
      }
      Ok(set y | y in ys)
  }

  /** `map(f, xs)` in Python 3: nothing is called until the result is iterated, so each item keeps its own outcome. */
  function LazyMap(f: Stage, xs: seq<Value>): (r: seq<PyResult<Value>>)
    ensures |r| == |xs| && forall i :: 0 <= i < |xs| ==> r[i] == f(xs[i])
  {
    seq(|xs|, i requires 0 <= i < |xs| => f(xs[i]))
  }

  /** Replies of the client, octets, as the Python `bytes` objects a converter is handed. */
  function AsValues(bs: seq<Bytes>): (r: seq<Value>)
    ensures |r| == |bs| && forall i :: 0 <= i < |bs| ==> r[i] == PyBytes(bs[i])
  {
    seq(|bs|, i requires 0 <= i < |bs| => PyBytes(bs[i]))
  }

  /** What the client sends for a list of converted values. */
  function Wire(codes: seq<Value>): (r: seq<Bytes>)
    ensures |r| == |codes| && forall i :: 0 <= i < |codes| ==> r[i] == ArgBytes(codes[i])
  {
    seq(|codes|, i requires 0 <= i < |codes| => ArgBytes(codes[i]))
  }

  /** What the client sends for a mapping: each name and value, pair by pair, in the dict's order. */
  function WirePairs(d: Dict): (r: seq<(Bytes, Bytes)>)
    ensures |r| == |d| && forall i :: 0 <= i < |d| ==> r[i] == (ArgBytes(d[i].0), ArgBytes(d[i].1))
  {
    seq(|d|, i requires 0 <= i < |d| => (ArgBytes(d[i].0), ArgBytes(d[i].1)))
  }

  /** `decode(data) if data is not None else default`, after a read that may have failed. */
  function Loaded(codec: Codec, data: PyResult<Option<Bytes>>, default: Value): (r: PyResult<Value>)
    ensures data.Err? ==> r == Err(data.error)
    ensures data == Ok(None) ==> r == Ok(default)
    ensures data.Ok? && data.value.Some? ==> r == codec.decode(PyBytes(data.value.value))
  {
    match data
    case Err(e) => Err(e)
    case Ok(None) => Ok(default)
    case Ok(Some(b)) => codec.decode(PyBytes(b))
  }

  /** `decode(reply)` for a reply that may be None, which is handed to the converter as it is. */
  function DecodeReply(codec: Codec, reply: PyResult<Option<Bytes>>): (r: PyResult<Value>)
    ensures reply.Err? ==> r == Err(reply.error)
    ensures reply == Ok(None) ==> r == codec.decode(PyNone)
    ensures reply.Ok? && reply.value.Some? ==> r == codec.decode(PyBytes(reply.value.value))
  {
    match reply
    case Err(e) => Err(e)
    case Ok(None) => codec.decode(PyNone)
    case Ok(Some(b)) => codec.decode(PyBytes(b))
  }

  // ---------------------------------------------------------------- StringField

  /** `StringField.set`: SET when the resolved flag is on, else SETNX, of the encoded value. */
  function StringSet(db: DB, key: Key, codec: Codec, overwrite: bool, value: Value): (r: Reply<bool>)
    ensures codec.encode(value).Err? ==> r == Reply(Err(codec.encode(value).error), db)
    ensures codec.encode(value).Ok? && overwrite ==>
      r.result == Ok(true) && GetCmd(r.db, key) == Ok(Some(ArgBytes(codec.encode(value).value)))
    ensures codec.encode(value).Ok? && !overwrite ==> r.result == Ok(key !in db)
    ensures codec.encode(value).Ok? && !overwrite && key in db ==> r.db == db
    ensures codec.encode(value).Ok? && !overwrite && key !in db ==>
      GetCmd(r.db, key) == Ok(Some(ArgBytes(codec.encode(value).value)))
    ensures forall j :: j != key ==> (j in r.db <==> j in db) && (j in db ==> r.db[j] == db[j])
    ensures WellFormed(db) ==> WellFormed(r.db)
  {
    match codec.encode(value)
    case Err(e) => Reply(Err(e), db)
    case Ok(code) => if overwrite then SetCmd(db, key, ArgBytes(code)) else SetNxCmd(db, key, ArgBytes(code))
  }

  /** `StringField.get`: the default, not decoded, for an absent key; else the decoded octets. */
  function StringGet(db: DB, key: Key, codec: Codec, default: Value): (r: PyResult<Value>)
    ensures key !in db ==> r == Ok(default)
    ensures WrongKind(db, key, StringKind) ==> r == Err(WrongType)
    ensures key in db && db[key].StrEntry? ==> r == codec.decode(PyBytes(db[key].data))
  {
    Loaded(codec, GetCmd(db, key), default)
  }

  /** `StringField.increment(amount)`: INCRBY with the amount as the client sends it. */
  function StringIncrement(db: DB, key: Key, amount: Value): (r: Reply<int>)
    ensures r == IncrByCmd(db, key, ArgBytes(amount))
  {
    IncrByCmd(db, key, ArgBytes(amount))
  }

  /** What a converter writes as octets and reads back from them, `get` returns after `set`. */
  lemma SetThenGet(db: DB, key: Key, codec: Codec, value: Value, code: Bytes, default: Value)
    requires codec.encode(value) == Ok(PyBytes(code)) && codec.decode(PyBytes(code)) == Ok(value)
    ensures StringGet(StringSet(db, key, codec, true, value).db, key, codec, default) == Ok(value)
  {
  }

  /** With the default converter every string survives `set` then `get`; other values are refused. */
  lemma DefaultSetThenGet(db: DB, key: Key, value: Value, default: Value)
    ensures value.PyStr? ==>
      StringGet(StringSet(db, key, DefaultCodec, true, value).db, key, DefaultCodec, default) == Ok(value)
    ensures !value.PyStr? ==> StringSet(db, key, DefaultCodec, true, value) == Reply(Err(TypeError), db)
  {
    if value.PyStr? {
      DecodeEncode(value.s);
      SetThenGet(db, key, DefaultCodec, value, Unicode.Encode(value.s), default);
    }
  }

  /** Without overwrite, a key that exists keeps its content and reads back as before. */
  lemma SetWithoutOverwriteKeeps(db: DB, key: Key, codec: Codec, value: Value, default: Value)
    requires key in db
    ensures StringSet(db, key, codec, false, value).db == db
    ensures StringGet(StringSet(db, key, codec, false, value).db, key, codec, default) == StringGet(db, key, codec, default)
    ensures codec.encode(value).Ok? ==> StringSet(db, key, codec, false, value).result == Ok(false)
  {
  }

  /** Incrementing an absent key by 1 stores "1"; a stored count grows by the amount while it fits in 64 bits. */
  lemma IncrementCounts(db: DB, key: Key, n: int, amount: int)
    requires InInt64(n) && InInt64(amount)
    ensures key !in db ==> StringIncrement(db, key, PyInt(1)).result == Ok(1)
    ensures key in db && db[key] == StrEntry(Unicode.Encode(Decimal(n))) ==>
      StringIncrement(db, key, PyInt(amount)).result == (if InInt64(n + amount) then Ok(n + amount) else Err(Overflow))
  {
    if key !in db {
      IncrementBy(db, key, 0, 1);
    }
    if key in db && db[key] == StrEntry(Unicode.Encode(Decimal(n))) {
      IncrementBy(db, key, n, amount);
    }
  }

  /** One INCRBY of a count the key holds, or of an absent key read as 0. */
  lemma IncrementBy(db: DB, key: Key, n: int, amount: int)
    requires InInt64(n) && InInt64(amount)
    requires key in db ==> db[key] == StrEntry(Unicode.Encode(Decimal(n)))
    requires key !in db ==> n == 0
    ensures StringIncrement(db, key, PyInt(amount)).result == (if InInt64(n + amount) then Ok(n + amount) else Err(Overflow))
  {
    var a := ArgBytes(PyInt(amount));
    assert a == Unicode.Encode(Decimal(amount));
    ParseInt64OfDecimal(amount);
    assert ParseInt64(a) == Some(amount);
    if key in db {
      ParseInt64OfDecimal(n);
      assert ParseInt64(db[key].data) == Some(n);
    }
    assert !WrongKind(db, key, StringKind);
  }

  // ---------------------------------------------------------------- HashField

  /** `HashField.set`: the name is encoded, then the value; HSET or HSETNX by the resolved flag. */
  function HashSet(db: DB, key: Key, names: Codec, values: Codec, overwrite: bool, name: Value, value: Value): (r: Reply<int>)
    ensures names.encode(name).Err? ==> r == Reply(Err(names.encode(name).error), db)
    ensures names.encode(name).Ok? && values.encode(value).Err? ==> r == Reply(Err(values.encode(value).error), db)
    ensures names.encode(name).Ok? && values.encode(value).Ok? ==>
      var f := ArgBytes(names.encode(name).value);
      var v := ArgBytes(values.encode(value).value);
      (r.result.Err? <==> WrongKind(db, key, HashKind)) && (r.result.Err? ==> r.db == db)
      && (r.result.Ok? ==>
            r.result.value == (if f in HashOf(db, key) then 0 else 1)
            && HashOf(r.db, key) == (if overwrite || f !in HashOf(db, key) then HashOf(db, key)[f := v] else HashOf(db, key)))
    ensures forall j :: j != key ==> (j in r.db <==> j in db) && (j in db ==> r.db[j] == db[j])
    ensures WellFormed(db) ==> WellFormed(r.db)
  {
    match names.encode(name)
    case Err(e) => Reply(Err(e), db)
    case Ok(n) =>
      match values.encode(value)
      case Err(e) => Reply(Err(e), db)
      case Ok(c) =>
        if overwrite then HSetCmd(db, key, ArgBytes(n), ArgBytes(c))
        else HSetNxCmd(db, key, ArgBytes(n), ArgBytes(c))
  }

  /**
    `HashField.set_multi`. With overwrite off it looks up the client's `hmsetnx`, which
    redis-py does not have: AttributeError before anything is converted or written. With
    it on, the encoded dict goes to HMSET, which the client refuses when it is empty.
  */
  function HashSetMulti(db: DB, key: Key, names: Codec, values: Codec, overwrite: bool, items: Dict): (r: Reply<bool>)
    ensures !overwrite ==> r == Reply(Err(AttributeError), db)
    ensures overwrite && items == [] ==> r == Reply(Err(DataError), db)
    ensures r.result.Err? ==> r.db == db
    ensures overwrite && items != [] && !WrongKind(db, key, HashKind) ==>
      (r.result.Ok? <==> forall i :: 0 <= i < |items| ==> names.encode(items[i].0).Ok? && values.encode(items[i].1).Ok?)
    ensures r.result.Ok? ==> forall i :: 0 <= i < |items| ==>
      names.encode(items[i].0).Ok? && ArgBytes(names.encode(items[i].0).value) in HashOf(r.db, key)
    ensures r.result.Ok? ==>
      Comprehend(names.encode, values.encode, items, []).Ok?
      && HashOf(r.db, key) == Assign(HashOf(db, key), WirePairs(Comprehend(names.encode, values.encode, items, []).value))
    ensures forall j :: j != key ==> (j in r.db <==> j in db) && (j in db ==> r.db[j] == db[j])
    ensures WellFormed(db) ==> WellFormed(r.db)
  {
    if !overwrite then Reply(Err(AttributeError), db)
    else
      match Comprehend(names.encode, values.encode, items, [])
      case Err(e) => Reply(Err(e), db)
      case Ok(d) =>
        assert items != [] ==> names.encode(items[0].0).value in Keys(d) && d != [];
        var pairs := WirePairs(d);
        var r := HMSetCmd(db, key, pairs);
        if r.result.Ok? then
          EveryNameWritten(db, key, d);
          r
        else r
  }

  /** Every name of the converted dict is in the hash once HMSET of it has succeeded. */
  lemma EveryNameWritten(db: DB, key: Key, d: Dict)
    requires HMSetCmd(db, key, WirePairs(d)).result.Ok?
    ensures forall k :: k in Keys(d) ==> ArgBytes(k) in HashOf(HMSetCmd(db, key, WirePairs(d)).db, key)
  {
    forall k | k in Keys(d)
      ensures ArgBytes(k) in HashOf(HMSetCmd(db, key, WirePairs(d)).db, key)
    {
      NameWritten(db, key, d, k);
    }
  }

  lemma NameWritten(db: DB, key: Key, d: Dict, k: Value)
    requires k in Keys(d) && HMSetCmd(db, key, WirePairs(d)).result.Ok?
    ensures ArgBytes(k) in HashOf(HMSetCmd(db, key, WirePairs(d)).db, key)
  {
    var pairs := WirePairs(d);
    KeysIndex(d, k);
    var j :| 0 <= j < |d| && d[j].0 == k;
    assert pairs[j].0 == ArgBytes(k);
  }

  /**
    Every item converts, and item `i` is the last whose name is sent as its octets: any
    other item sending the same octets comes earlier and converts to the same name.
  */
  predicate SentLast(kf: Stage, items: Dict, i: int) {
    0 <= i < |items| && kf(items[i].0).Ok?
    && forall j :: 0 <= j < |items| && j != i ==>
         kf(items[j].0).Ok?
         && (ArgBytes(kf(items[j].0).value) == ArgBytes(kf(items[i].0).value) ==> j < i && kf(items[j].0) == kf(items[i].0))
  }

  /** The converted dict holds no other name that is sent as the same octets as item `i`'s. */
  lemma NoOtherKeySentAs(kf: Stage, vf: Stage, items: Dict, i: int, x: Value)
    requires Comprehend(kf, vf, items, []).Ok? && SentLast(kf, items, i)
    requires x in Keys(Comprehend(kf, vf, items, []).value) && x != kf(items[i].0).value
    ensures ArgBytes(x) != ArgBytes(kf(items[i].0).value)
  {
    var j :| 0 <= j < |items| && kf(items[j].0) == Ok(x);
  }

  /** Assigning a dict's pairs: a name sent by no later pair holds its pair's value. */
  lemma WirePairsLast(h: map<Bytes, Bytes>, d: Dict, p: int)
    requires 0 <= p < |d|
    requires forall q :: p < q < |d| ==> ArgBytes(d[q].0) != ArgBytes(d[p].0)
    ensures ArgBytes(d[p].0) in Assign(h, WirePairs(d)) && Assign(h, WirePairs(d))[ArgBytes(d[p].0)] == ArgBytes(d[p].1)
  {
    AssignLastWins(h, WirePairs(d), p);
  }

  /**
    After a successful `set_multi`, the name item `i` is sent as holds item `i`'s value
    when it is the last item sending that name (the last item for a name wins, as in the
    dict comprehension).
  */
  lemma HashSetMultiValue(db: DB, key: Key, names: Codec, values: Codec, items: Dict, i: int)
    requires HashSetMulti(db, key, names, values, true, items).result.Ok? && SentLast(names.encode, items, i)
    ensures var h := HashOf(HashSetMulti(db, key, names, values, true, items).db, key);
      var f := ArgBytes(names.encode(items[i].0).value);
      f in h && h[f] == ArgBytes(values.encode(items[i].1).value)
  {
    var kf, vf := names.encode, values.encode;
    var d := Comprehend(kf, vf, items, []).value;
    var n := kf(items[i].0).value;
    forall j | i < j < |items| ensures kf(items[j].0) != kf(items[i].0) {
    }
    ComprehendLastWins(kf, vf, items, [], i);
    ComprehendUnique(kf, vf, items, []);
    KeysIndex(d, n);
    var p :| 0 <= p < |d| && d[p].0 == n;
    LookupAt(d, p);
    forall q | p < q < |d| ensures ArgBytes(d[q].0) != ArgBytes(n) {
      UniqueApart(d, p, q);
      IndexInKeys(d, q);
      NoOtherKeySentAs(kf, vf, items, i, d[q].0);
    }
    WirePairsLast(HashOf(db, key), d, p);
  }

  /** After a successful `set_multi`, a name no item is sent as keeps what it held. */
  lemma HashSetMultiKeeps(db: DB, key: Key, names: Codec, values: Codec, items: Dict, f: Bytes)
    requires HashSetMulti(db, key, names, values, true, items).result.Ok?
    requires forall j :: 0 <= j < |items| ==> ArgBytes(names.encode(items[j].0).value) != f
    ensures var h := HashOf(HashSetMulti(db, key, names, values, true, items).db, key);
      (f in h <==> f in HashOf(db, key)) && (f in HashOf(db, key) ==> h[f] == HashOf(db, key)[f])
  {
    var d := Comprehend(names.encode, values.encode, items, []).value;
    var pairs := WirePairs(d);
    forall q | 0 <= q < |pairs| ensures pairs[q].0 != f {
      IndexInKeys(d, q);
      var j :| 0 <= j < |items| && names.encode(items[j].0) == Ok(d[q].0);
    }
    AssignUntouched(HashOf(db, key), pairs, f);
  }

  /**
    `HashField.get`: the name is passed through the name converter's `decode`, not its
    `encode`, before HGET; an absent name or key gives the default, not decoded.
  */
  function HashGet(db: DB, key: Key, names: Codec, values: Codec, name: Value, default: Value): (r: PyResult<Value>)
    ensures names.decode(name).Err? ==> r == Err(names.decode(name).error)
    ensures names.decode(name).Ok? ==> r == Loaded(values, HGetCmd(db, key, ArgBytes(names.decode(name).value)), default)
  {
    match names.decode(name)
    case Err(e) => Err(e)
    case Ok(n) => Loaded(values, HGetCmd(db, key, ArgBytes(n)), default)
  }

  /**
    With the default name converter, `get` of a str name always raises TypeError, since
    `bytes.decode` is handed a str; a name given as UTF-8 bytes finds the entry `set`
    wrote for its text.
  */
  lemma HashGetTakesEncodedName(db: DB, key: Key, values: Codec, s: string, default: Value)
    ensures HashGet(db, key, DefaultCodec, values, PyStr(s), default) == Err(TypeError)
    ensures HashGet(db, key, DefaultCodec, values, PyBytes(Unicode.Encode(s)), default)
      == Loaded(values, HGetCmd(db, key, ArgBytes(DefaultCodec.encode(PyStr(s)).value)), default)
  {
    var b := Unicode.Encode(s);
    DefaultCodecIs(PyStr(s));
    DefaultCodecIs(PyBytes(b));
    assert DefaultCodec.decode(PyStr(s)) == Err(TypeError);
    DecodeEncode(s);
    assert DefaultCodec.decode(PyBytes(b)) == Ok(PyStr(s));
    assert DefaultCodec.encode(PyStr(s)) == Ok(PyBytes(b));
    assert ArgBytes(PyStr(s)) == b && ArgBytes(PyBytes(b)) == b;
  }

  /** `set` then `get` with overwrite: the stored value comes back decoded, given the name as the converter's decode expects. */
  lemma HashSetThenGet(db: DB, key: Key, names: Codec, values: Codec, name: Value, asked: Value, value: Value, code: Bytes, default: Value)
    requires names.encode(name).Ok? && names.decode(asked).Ok?
    requires ArgBytes(names.decode(asked).value) == ArgBytes(names.encode(name).value)
    requires values.encode(value) == Ok(PyBytes(code)) && values.decode(PyBytes(code)) == Ok(value)
    requires !WrongKind(db, key, HashKind)
    ensures HashGet(HashSet(db, key, names, values, true, name, value).db, key, names, values, asked, default) == Ok(value)
  {
  }

  /** `HashField.contains`: HEXISTS of the encoded name. */
  function HashContains(db: DB, key: Key, names: Codec, name: Value): (r: PyResult<bool>)
    ensures names.encode(name).Err? ==> r == Err(names.encode(name).error)
    ensures names.encode(name).Ok? ==> (r.Err? <==> WrongKind(db, key, HashKind))
    ensures names.encode(name).Ok? && r.Ok? ==> r.value == (ArgBytes(names.encode(name).value) in HashOf(db, key))
  {
    match names.encode(name)
    case Err(e) => Err(e)
    case Ok(n) => HExistsCmd(db, key, ArgBytes(n))
  }

  /** `HashField.delete`: HDEL of the encoded name. */
  function HashDelete(db: DB, key: Key, names: Codec, name: Value): (r: Reply<int>)
    ensures names.encode(name).Err? ==> r == Reply(Err(names.encode(name).error), db)
    ensures names.encode(name).Ok? ==>
      var f := ArgBytes(names.encode(name).value);
      (r.result.Err? <==> WrongKind(db, key, HashKind))
      && (r.result.Ok? ==> r.result.value == (if f in HashOf(db, key) then 1 else 0)
                           && HashOf(r.db, key) == HashOf(db, key) - {f})
    ensures r.result.Err? ==> r.db == db
    ensures forall j :: j != key ==> (j in r.db <==> j in db) && (j in db ==> r.db[j] == db[j])
    ensures WellFormed(db) ==> WellFormed(r.db)
  {
    match names.encode(name)
    case Err(e) => Reply(Err(e), db)
    case Ok(n) => HDelCmd(db, key, ArgBytes(n))
  }

  /** The items of a hash, as `bytes` objects, in the order `order` lists its names. */
  function Stored(h: map<Bytes, Bytes>, order: seq<Bytes>): (r: seq<(Value, Value)>)
    requires forall i :: 0 <= i < |order| ==> order[i] in h
    ensures |r| == |order| && forall i :: 0 <= i < |order| ==> r[i] == (PyBytes(order[i]), PyBytes(h[order[i]]))
  {
    seq(|order|, i requires 0 <= i < |order| => (PyBytes(order[i]), PyBytes(h[order[i]])))
  }

  /** Every name of the hash is decoded, and so is every value. */
  predicate AllDecode(h: map<Bytes, Bytes>, names: Codec, values: Codec) {
    forall n :: n in h ==> names.decode(PyBytes(n)).Ok? && values.decode(PyBytes(h[n])).Ok?
  }

  /**
    `members()` over any order of the names: it succeeds exactly when every name and value
    decodes, and then its keys are the decoded names, whatever that order was.
  */
  lemma MembersKeys(h: map<Bytes, Bytes>, order: seq<Bytes>, names: Codec, values: Codec)
    requires Enumerates(order, h.Keys)
    ensures var r := Comprehend(names.decode, values.decode, Stored(h, order), []);
      (r.Ok? <==> AllDecode(h, names, values))
      && (r.Ok? ==> Keys(r.value) == set n | n in h :: names.decode(PyBytes(n)).value)
  {
    MembersSucceed(h, order, names, values);
    var r := Comprehend(names.decode, values.decode, Stored(h, order), []);
    if r.Ok? {
      MembersKeysFromNames(h, order, names, values);
      NamesInMembersKeys(h, order, names, values);
    }
  }

  lemma MembersSucceed(h: map<Bytes, Bytes>, order: seq<Bytes>, names: Codec, values: Codec)
    requires Enumerates(order, h.Keys)
    ensures Comprehend(names.decode, values.decode, Stored(h, order), []).Ok? <==> AllDecode(h, names, values)
  {
    var items := Stored(h, order);
    if AllDecode(h, names, values) {
      forall i | 0 <= i < |items|
        ensures names.decode(items[i].0).Ok? && values.decode(items[i].1).Ok?
      {
        assert order[i] in h;
      }
    } else {
      var n :| n in h && !(names.decode(PyBytes(n)).Ok? && values.decode(PyBytes(h[n])).Ok?);
      var i :| 0 <= i < |order| && order[i] == n;
      assert items[i] == (PyBytes(n), PyBytes(h[n]));
    }
  }

  lemma MembersKeysFromNames(h: map<Bytes, Bytes>, order: seq<Bytes>, names: Codec, values: Codec)
    requires Enumerates(order, h.Keys) && Comprehend(names.decode, values.decode, Stored(h, order), []).Ok?
    ensures forall x :: x in Keys(Comprehend(names.decode, values.decode, Stored(h, order), []).value) ==>
      x in set n | n in h :: names.decode(PyBytes(n)).value
  {
    var items := Stored(h, order);
    var r := Comprehend(names.decode, values.decode, items, []);
    assert Keys([]) == {};
    forall x | x in Keys(r.value) ensures x in set n | n in h :: names.decode(PyBytes(n)).value {
      var i :| 0 <= i < |items| && names.decode(items[i].0) == Ok(x);
      var n := order[i];
      assert n in h && items[i].0 == PyBytes(n);
      assert x == names.decode(PyBytes(n)).value;
    }
  }

  lemma NamesInMembersKeys(h: map<Bytes, Bytes>, order: seq<Bytes>, names: Codec, values: Codec)
    requires Enumerates(order, h.Keys) && Comprehend(names.decode, values.decode, Stored(h, order), []).Ok?
    ensures forall n :: n in h ==> names.decode(PyBytes(n)).value in Keys(Comprehend(names.decode, values.decode, Stored(h, order), []).value)
  {
    var items := Stored(h, order);
    forall n | n in h ensures names.decode(PyBytes(n)).value in Keys(Comprehend(names.decode, values.decode, items, []).value) {
      var i :| 0 <= i < |order| && order[i] == n;
      assert items[i].0 == PyBytes(n);
    }
  }

  /** `names()` over any order of the names: the set of decoded names, whatever that order was. */
  lemma NamesAnyOrder(h: map<Bytes, Bytes>, order: seq<Bytes>, names: Codec)
    requires Enumerates(order, h.Keys)
    ensures var r := SetComprehend(names.decode, AsValues(order));
      (r.Ok? <==> forall n :: n in h ==> names.decode(PyBytes(n)).Ok?)
      && (r.Ok? ==> r.value == set n | n in h :: names.decode(PyBytes(n)).value)
  {
    var xs := AsValues(order);
    var r := SetComprehend(names.decode, xs);
    NamesSucceed(h, order, names);
    if r.Ok? {
      DecodedNamesAgree(h, order, names);
    }
  }

  lemma NamesSucceed(h: map<Bytes, Bytes>, order: seq<Bytes>, names: Codec)
    requires Enumerates(order, h.Keys)
    ensures (forall i :: 0 <= i < |AsValues(order)| ==> names.decode(AsValues(order)[i]).Ok?)
      <==> forall n :: n in h ==> names.decode(PyBytes(n)).Ok?
  {
    var xs := AsValues(order);
    if forall n :: n in h ==> names.decode(PyBytes(n)).Ok? {
      forall i | 0 <= i < |xs| ensures names.decode(xs[i]).Ok? {
        assert order[i] in h;
      }
    } else {
      var n :| n in h && !names.decode(PyBytes(n)).Ok?;
      var i :| 0 <= i < |order| && order[i] == n;
      assert xs[i] == PyBytes(n);
    }
  }

  lemma DecodedNamesAgree(h: map<Bytes, Bytes>, order: seq<Bytes>, names: Codec)
    requires Enumerates(order, h.Keys)
    requires forall i :: 0 <= i < |AsValues(order)| ==> names.decode(AsValues(order)[i]).Ok?
    requires forall n :: n in h ==> names.decode(PyBytes(n)).Ok?
    ensures (set i | 0 <= i < |AsValues(order)| :: names.decode(AsValues(order)[i]).value)
      == set n | n in h :: names.decode(PyBytes(n)).value
  {
    var xs := AsValues(order);
    var a := set i | 0 <= i < |xs| :: names.decode(xs[i]).value;
    var b := set n | n in h :: names.decode(PyBytes(n)).value;
    forall x | x in a ensures x in b {
      var i :| 0 <= i < |xs| && x == names.decode(xs[i]).value;
      assert order[i] in h;
    }
    forall x | x in b ensures x in a {
      var n :| n in h && x == names.decode(PyBytes(n)).value;
      var i :| 0 <= i < |order| && order[i] == n;
      assert xs[i] == PyBytes(n);
    }
  }

  // ---------------------------------------------------------------- SetField

  /** `SetField.add(*values)`: every value is encoded first, then one SADD carries them all. */
  function SetAdd(db: DB, key: Key, codec: Codec, values: seq<Value>): (r: Reply<int>)
    ensures ListComprehend(codec.encode, values).Err? ==>
      r == Reply(Err(ListComprehend(codec.encode, values).error), db)
    ensures ListComprehend(codec.encode, values).Ok? ==>
      var ms := Elements(Wire(ListComprehend(codec.encode, values).value));
      (r.result.Ok? <==> values != [] && !WrongKind(db, key, SetKind))
      && (r.result.Ok? ==> SetOf(r.db, key) == SetOf(db, key) + ms && r.result.value == |ms - SetOf(db, key)|)
    ensures values == [] ==> r == Reply(Err(WrongArity("sadd")), db)
    ensures r.result.Err? ==> r.db == db
    ensures forall j :: j != key ==> (j in r.db <==> j in db) && (j in db ==> r.db[j] == db[j])
    ensures WellFormed(db) ==> WellFormed(r.db)
  {
    match ListComprehend(codec.encode, values)
    case Err(e) => Reply(Err(e), db)
    case Ok(codes) =>
      var r := SAddCmd(db, key, Wire(codes));
      if r.result.Ok? then
        UnionCount(SetOf(db, key), Elements(Wire(codes)));
        r
      else r
  }

  /** `SetField.delete(*values)`: every value is encoded first, then one SREM carries them all. */
  function SetDelete(db: DB, key: Key, codec: Codec, values: seq<Value>): (r: Reply<int>)
    ensures ListComprehend(codec.encode, values).Err? ==>
      r == Reply(Err(ListComprehend(codec.encode, values).error), db)
    ensures ListComprehend(codec.encode, values).Ok? ==>
      var ms := Elements(Wire(ListComprehend(codec.encode, values).value));
      (r.result.Ok? <==> values != [] && !WrongKind(db, key, SetKind))
      && (r.result.Ok? ==> SetOf(r.db, key) == SetOf(db, key) - ms && r.result.value == |SetOf(db, key) * ms|)
    ensures values == [] ==> r == Reply(Err(WrongArity("srem")), db)
    ensures r.result.Err? ==> r.db == db
    ensures forall j :: j != key ==> (j in r.db <==> j in db) && (j in db ==> r.db[j] == db[j])
    ensures WellFormed(db) ==> WellFormed(r.db)
  {
    match ListComprehend(codec.encode, values)
    case Err(e) => Reply(Err(e), db)
    case Ok(codes) =>
      var r := SRemCmd(db, key, Wire(codes));
      if r.result.Ok? then
        DifferenceCount(SetOf(db, key), Elements(Wire(codes)));
        r
      else r
  }

  /** `SetField.contains`: SISMEMBER of the encoded value. */
  function SetContains(db: DB, key: Key, codec: Codec, value: Value): (r: PyResult<bool>)
    ensures codec.encode(value).Err? ==> r == Err(codec.encode(value).error)
    ensures codec.encode(value).Ok? ==> (r.Err? <==> WrongKind(db, key, SetKind))
    ensures codec.encode(value).Ok? && r.Ok? ==> r.value == (ArgBytes(codec.encode(value).value) in SetOf(db, key))
  {
    match codec.encode(value)
    case Err(e) => Err(e)
    case Ok(c) => SIsMemberCmd(db, key, ArgBytes(c))
  }

  /** What `add` put in, `contains` finds, and `delete` takes out again. */
  lemma AddContainsDelete(db: DB, key: Key, codec: Codec, value: Value)
    requires codec.encode(value).Ok? && !WrongKind(db, key, SetKind)
    ensures var added := SetAdd(db, key, codec, [value]).db;
      SetContains(added, key, codec, value) == Ok(true)
      && SetContains(SetDelete(added, key, codec, [value]).db, key, codec, value) == Ok(false)
  {
    var m := ArgBytes(codec.encode(value).value);
    var codes := ListComprehend(codec.encode, [value]).value;
    assert Elements(Wire(codes)) == {m};
    var added := SetAdd(db, key, codec, [value]);
    assert SetOf(added.db, key) == SetOf(db, key) + {m};
    assert added.db == SAddCmd(db, key, Wire(codes)).db;
    assert key in added.db && added.db[key].SetEntry?;
    var removed := SetDelete(added.db, key, codec, [value]);
    assert SetOf(removed.db, key) == SetOf(added.db, key) - {m};
  }

  /**
    The request `random` makes of the client: `number` is used as a truth value, so None
    and 0 take the single-value path (no count); a negative number raises; without
    `unique` the count is negated, which asks for draws with repetition.
  */
  function RandomRequest(number: Option<int>, unique: bool): (r: PyResult<Option<int>>)
    ensures number.None? || number == Some(0) ==> r == Ok(None)
    ensures number.Some? && number.value < 0 ==> r == Err(NotPositive)
    ensures number.Some? && number.value > 0 ==> r == Ok(Some(if unique then number.value else -number.value))
  {
    if number.None? || number.value == 0 then Ok(None)
    else if number.value < 0 then Err(NotPositive)
    else if unique then Ok(Some(number.value))
    else Ok(Some(-number.value))
  }

  /** What `random` returns: one decoded value, or a lazy `map` over the members drawn. */
  datatype Drawn = Single(value: Value) | Lazy(items: seq<PyResult<Value>>)

  /** The single path decodes the client's reply, None included. */
  function DrawOne(codec: Codec, pick: PyResult<Option<Bytes>>): (r: PyResult<Drawn>)
    ensures DecodeReply(codec, pick).Ok? <==> r.Ok?
    ensures r.Ok? ==> r.value == Single(DecodeReply(codec, pick).value)
  {
    match DecodeReply(codec, pick)
    case Err(e) => Err(e)
    case Ok(v) => Ok(Single(v))
  }

  /** The count path maps `decode` lazily over the members the client returned. */
  function DrawMany(codec: Codec, picks: PyResult<seq<Bytes>>): (r: PyResult<Drawn>)
    ensures picks.Err? ==> r == Err(picks.error)
    ensures picks.Ok? ==> r == Ok(Lazy(LazyMap(codec.decode, AsValues(picks.value))))
  {
    match picks
    case Err(e) => Err(e)
    case Ok(ms) => Ok(Lazy(LazyMap(codec.decode, AsValues(ms))))
  }

  /**
    `random(number)` with `unique`: at most `number` items, each the decoding of a distinct
    member, and all of the set's members when it has no more than `number`.
  */
  lemma RandomUniqueBounds(db: DB, key: Key, codec: Codec, number: int, picks: PyResult<seq<Bytes>>)
    requires number > 0 && RandomRequest(Some(number), true) == Ok(Some(number))
    requires SRandMembersAllows(db, key, number, picks) && picks.Ok?
    ensures var items := DrawMany(codec, picks).value.items;
      |items| <= number
      && |items| == (if number < |SetOf(db, key)| then number else |SetOf(db, key)|)
      && forall i :: 0 <= i < |items| ==> picks.value[i] in SetOf(db, key) && items[i] == codec.decode(PyBytes(picks.value[i]))
    ensures forall i, j :: 0 <= i < j < |picks.value| ==> picks.value[i] != picks.value[j]
  {
  }

  /**
    `random(number, unique=False)`: exactly `number` items from a non-empty set, each the
    decoding of a member, repetitions allowed; none from an empty one.
  */
  lemma RandomRepeatsCount(db: DB, key: Key, codec: Codec, number: int, picks: PyResult<seq<Bytes>>)
    requires number > 0 && RandomRequest(Some(number), false) == Ok(Some(-number))
    requires SRandMembersAllows(db, key, -number, picks) && picks.Ok?
    ensures var items := DrawMany(codec, picks).value.items;
      |items| == (if SetOf(db, key) == {} then 0 else number)
      && forall i :: 0 <= i < |items| ==> picks.value[i] in SetOf(db, key) && items[i] == codec.decode(PyBytes(picks.value[i]))
  {
  }

  /** With the default converter, `random()` and `pop()` of an empty or missing set raise TypeError: None is decoded. */
  lemma EmptyDrawRaises(db: DB, key: Key, pick: PyResult<Option<Bytes>>)
    requires SRandMemberAllows(db, key, pick) && !WrongKind(db, key, SetKind) && SetOf(db, key) == {}
    ensures DrawOne(DefaultCodec, pick) == Err(TypeError)
  {
  }

  // ---------------------------------------------------------------- the field classes

  /** The part every field shares: its class, key, value converter and client. */
  class Field {
    const fieldType: FieldType
    const key: Key
    const codec: Codec
    const store: Store

    constructor (t: FieldType, s: Settings)
      requires s.key != ""
      ensures fieldType == t && key == s.key && codec == s.codec && store == s.store
    {
      fieldType := t;
      key := s.key;
      codec := s.codec;
      store := s.store;
    }

    /** `exists()`: EXISTS of the key. */
    method Exists() returns (r: bool)
      ensures r == (key in store.db)
    {
      r := store.Exists(key);
    }

    /** `destroy()`: DEL of the key, whatever it held; it does not exist afterwards. */
    method Destroy() returns (r: int)
      modifies store
      ensures Reply(Ok(r), store.db) == DelCmd(old(store.db), key)
      ensures key !in store.db
    {
      r := store.Delete(key);
    }

    /** `__eq__`: the same concrete class and the same key; converters and clients play no part. */
    predicate Equals(other: Field) {
      fieldType == other.fieldType && key == other.key
    }

    /** `__ne__`. */
    predicate NotEquals(other: Field) {
      !Equals(other)
    }
  }

  /** Equality is an equivalence, `!=` its negation, and it ignores converter and client. */
  lemma FieldEquality(a: Field, b: Field, c: Field)
    ensures a.Equals(a)
    ensures a.Equals(b) <==> b.Equals(a)
    ensures a.Equals(b) && b.Equals(c) ==> a.Equals(c)
    ensures a.NotEquals(b) <==> !a.Equals(b)
    ensures a.Equals(b) <==> a.fieldType == b.fieldType && a.key == b.key
  {
  }

  /** `Field.__init__` for a field of class `t`: the checks of `Init`, then a new object. */
  method NewField(t: FieldType, key: Value, converter: Option<Codec>, classConverter: Option<Codec>,
                  redis: Option<Store>, classRedis: Option<Store>) returns (r: PyResult<Field>)
    ensures var s := Init(key, converter, classConverter, redis, classRedis);
      (r.Err? <==> s.Err?) && (r.Err? ==> r.error == s.error)
      && (r.Ok? ==> fresh(r.value) && r.value.fieldType == t
                    && Settings(r.value.key, r.value.codec, r.value.store) == s.value)
  {
    var s := Init(key, converter, classConverter, redis, classRedis);
    if s.Err? {
      return Err(s.error);
    }
    var f := new Field(t, s.value);
    r := Ok(f);
  }

  class StringField {
    const field: Field
    const overwrite: bool

    constructor (field: Field, overwrite: bool)
      ensures this.field == field && this.overwrite == overwrite
    {
      this.field := field;
      this.overwrite := overwrite;
    }

    /** `set(value, overwrite)`. */
    method Set(value: Value, overwrite: Option<bool>) returns (r: PyResult<bool>)
      modifies field.store
      ensures Reply(r, field.store.db) == StringSet(old(field.store.db), field.key, field.codec, Resolve(this.overwrite, overwrite), value)
    {
      var code := field.codec.encode(value);
      if code.Err? {
        return Err(code.error);
      }
      if Resolve(this.overwrite, overwrite) {
        r := field.store.Set(field.key, ArgBytes(code.value));
      } else {
        r := field.store.SetNx(field.key, ArgBytes(code.value));
      }
    }

    /** `get(default)`. */
    method Get(default: Value) returns (r: PyResult<Value>)
      ensures r == StringGet(field.store.db, field.key, field.codec, default)
    {
      var data := field.store.Get(field.key);
      r := Loaded(field.codec, data, default);
    }

    /** `increment(amount)`. */
    method Increment(amount: Value) returns (r: PyResult<int>)
      modifies field.store
      ensures Reply(r, field.store.db) == StringIncrement(old(field.store.db), field.key, amount)
    {
      r := field.store.IncrBy(field.key, ArgBytes(amount));
    }
  }

  /** `StringField(key, value_converter, redis, overwrite)`. */
  method NewStringField(key: Value, converter: Option<Codec>, classConverter: Option<Codec>,
                        redis: Option<Store>, classRedis: Option<Store>, overwrite: bool) returns (r: PyResult<StringField>)
    ensures var s := Init(key, converter, classConverter, redis, classRedis);
      (r.Err? <==> s.Err?) && (r.Err? ==> r.error == s.error)
      && (r.Ok? ==> fresh(r.value) && fresh(r.value.field) && r.value.overwrite == overwrite
                    && r.value.field.fieldType == StringFieldType
                    && Settings(r.value.field.key, r.value.field.codec, r.value.field.store) == s.value)
  {
    var f := NewField(StringFieldType, key, converter, classConverter, redis, classRedis);
    if f.Err? {
      return Err(f.error);
    }
    var sf := new StringField(f.value, overwrite);
    r := Ok(sf);
  }

  class HashField {
    const field: Field
    const names: Codec
    const overwrite: bool

    constructor (field: Field, names: Codec, overwrite: bool)
      ensures this.field == field && this.names == names && this.overwrite == overwrite
    {
      this.field := field;
      this.names := names;
      this.overwrite := overwrite;
    }

    /** `set(name, value, overwrite)`. */
    method Set(name: Value, value: Value, overwrite: Option<bool>) returns (r: PyResult<int>)
      modifies field.store
      ensures Reply(r, field.store.db)
        == HashSet(old(field.store.db), field.key, names, field.codec, Resolve(this.overwrite, overwrite), name, value)
    {
      var n := names.encode(name);
      if n.Err? {
        return Err(n.error);
      }
      var c := field.codec.encode(value);
      if c.Err? {
        return Err(c.error);
      }
      if Resolve(this.overwrite, overwrite) {
        r := field.store.HSet(field.key, ArgBytes(n.value), ArgBytes(c.value));
      } else {
        r := field.store.HSetNx(field.key, ArgBytes(n.value), ArgBytes(c.value));
      }
    }

    /** `set_multi(dictionary, overwrite)`. */
    method SetMulti(items: Dict, overwrite: Option<bool>) returns (r: PyResult<bool>)
      modifies field.store
      ensures Reply(r, field.store.db)
        == HashSetMulti(old(field.store.db), field.key, names, field.codec, Resolve(this.overwrite, overwrite), items)
    {
      if !Resolve(this.overwrite, overwrite) {
        return Err(AttributeError);
      }
      var d := Comprehend(names.encode, field.codec.encode, items, []);
      if d.Err? {
        return Err(d.error);
      }
      r := field.store.HMSet(field.key, WirePairs(d.value));
    }

    /** `get(name, default)`. */
    method Get(name: Value, default: Value) returns (r: PyResult<Value>)
      ensures r == HashGet(field.store.db, field.key, names, field.codec, name, default)
    {
      var n := names.decode(name);
      if n.Err? {
        return Err(n.error);
      }
      var data := field.store.HGet(field.key, ArgBytes(n.value));
      r := Loaded(field.codec, data, default);
    }

    /**
      `members()`: each stored name and value decoded into a dict, in the order the client
      lists the hash, which only decides which value wins when two names decode alike.
    */
    method Members() returns (r: PyResult<Dict>, ghost order: seq<Bytes>)
      ensures WrongKind(field.store.db, field.key, HashKind) ==> r == Err(WrongType)
      ensures !WrongKind(field.store.db, field.key, HashKind) ==>
        var h := HashOf(field.store.db, field.key);
        (r.Ok? <==> AllDecode(h, names, field.codec))
        && (r.Ok? ==> Keys(r.value) == set n | n in h :: names.decode(PyBytes(n)).value)
        && Enumerates(order, h.Keys) && r == Comprehend(names.decode, field.codec.decode, Stored(h, order), [])
    {
      var all := field.store.HGetAll(field.key);
      if all.Err? {
        return Err(all.error), [];
      }
      var h := all.value;
      var listed := Enumerate(h.Keys);
      order := listed;
      MembersKeys(h, listed, names, field.codec);
      r := Comprehend(names.decode, field.codec.decode, Stored(h, listed), []);
    }

    /** `contains(name)`. */
    method Contains(name: Value) returns (r: PyResult<bool>)
      ensures r == HashContains(field.store.db, field.key, names, name)
    {
      var n := names.encode(name);
      if n.Err? {
        return Err(n.error);
      }
      r := field.store.HExists(field.key, ArgBytes(n.value));
    }

    /** `names()`: the set of decoded names. */
    method Names() returns (r: PyResult<set<Value>>)
      ensures WrongKind(field.store.db, field.key, HashKind) ==> r == Err(WrongType)
      ensures !WrongKind(field.store.db, field.key, HashKind) ==>
        var h := HashOf(field.store.db, field.key);
        (r.Ok? <==> forall n :: n in h ==> names.decode(PyBytes(n)).Ok?)
        && (r.Ok? ==> r.value == set n | n in h :: names.decode(PyBytes(n)).value)
    {
      var listed := field.store.HKeys(field.key);
      if listed.Err? {
        return Err(listed.error);
      }
      NamesAnyOrder(HashOf(field.store.db, field.key), listed.value, names);
      r := SetComprehend(names.decode, AsValues(listed.value));
    }

    /** `values()`: the decoded values, in the order the client lists the names. */
    method Values() returns (r: PyResult<seq<Value>>, ghost order: seq<Bytes>)
      ensures WrongKind(field.store.db, field.key, HashKind) ==> r == Err(WrongType)
      ensures !WrongKind(field.store.db, field.key, HashKind) ==>
        var h := HashOf(field.store.db, field.key);
        Enumerates(order, h.Keys)
        && (r.Ok? <==> forall n :: n in h ==> field.codec.decode(PyBytes(h[n])).Ok?)
        && (r.Ok? ==> |r.value| == |order| && forall i :: 0 <= i < |order| ==> r.value[i] == field.codec.decode(PyBytes(h[order[i]])).value)
    {
      var vals, o := field.store.HVals(field.key);
      order := o;
      if vals.Err? {
        return Err(vals.error), o;
      }
      var h := HashOf(field.store.db, field.key);
      var xs := AsValues(vals.value);
      r := ListComprehend(field.codec.decode, xs);
      if !(forall n :: n in h ==> field.codec.decode(PyBytes(h[n])).Ok?) {
        ghost var n :| n in h && !field.codec.decode(PyBytes(h[n])).Ok?;
        ghost var i :| 0 <= i < |o| && o[i] == n;
        assert xs[i] == PyBytes(h[n]);
      }
    }

    /** `delete(name)`. */
    method Delete(name: Value) returns (r: PyResult<int>)
      modifies field.store
      ensures Reply(r, field.store.db) == HashDelete(old(field.store.db), field.key, names, name)
    {
      var n := names.encode(name);
      if n.Err? {
        return Err(n.error);
      }
      r := field.store.HDel(field.key, ArgBytes(n.value));
    }

    /** `count()`: HLEN. */
    method Count() returns (r: PyResult<int>)
      ensures r == HLenCmd(field.store.db, field.key)
    {
      r := field.store.HLen(field.key);
    }
  }

  /**
    `HashField(key, value_converter, name_converter, redis, overwrite)`: the base checks,
    then the name converter.
  */
  method NewHashField(key: Value, converter: Option<Codec>, nameConverter: Option<Codec>,
                      classConverter: Option<Codec>, classNames: Option<Option<Codec>>,
                      redis: Option<Store>, classRedis: Option<Store>, overwrite: bool) returns (r: PyResult<HashField>)
    ensures var s := Init(key, converter, classConverter, redis, classRedis);
      var n := NameCodec(nameConverter, classNames);
      (r.Err? <==> s.Err? || n.Err?)
      && (s.Err? ==> r == Err(s.error))
      && (s.Ok? && n.Err? ==> r == Err(n.error))
      && (r.Ok? ==> fresh(r.value) && fresh(r.value.field) && r.value.overwrite == overwrite
                    && r.value.names == n.value && r.value.field.fieldType == HashFieldType
                    && Settings(r.value.field.key, r.value.field.codec, r.value.field.store) == s.value)
  {
    var f := NewField(HashFieldType, key, converter, classConverter, redis, classRedis);
    if f.Err? {
      return Err(f.error);
    }
    var n := NameCodec(nameConverter, classNames);
    if n.Err? {
      return Err(n.error);
    }
    var hf := new HashField(f.value, n.value, overwrite);
    r := Ok(hf);
  }

  class SetField {
    const field: Field

    constructor (field: Field)
      ensures this.field == field
    {
      this.field := field;
    }

    /** `add(*values)`. */
    method Add(values: seq<Value>) returns (r: PyResult<int>)
      modifies field.store
      ensures Reply(r, field.store.db) == SetAdd(old(field.store.db), field.key, field.codec, values)
    {
      var codes := ListComprehend(field.codec.encode, values);
      if codes.Err? {
        return Err(codes.error);
      }
      r := field.store.SAdd(field.key, Wire(codes.value));
    }

    /** `delete(*values)`. */
    method Delete(values: seq<Value>) returns (r: PyResult<int>)
      modifies field.store
      ensures Reply(r, field.store.db) == SetDelete(old(field.store.db), field.key, field.codec, values)
    {
      var codes := ListComprehend(field.codec.encode, values);
      if codes.Err? {
        return Err(codes.error);
      }
      r := field.store.SRem(field.key, Wire(codes.value));
    }

    /** `members()`: a lazy map of `decode` over the members, in the client's order. */
    method Members() returns (r: PyResult<seq<PyResult<Value>>>, ghost order: seq<Bytes>)
      ensures WrongKind(field.store.db, field.key, SetKind) ==> r == Err(WrongType)
      ensures !WrongKind(field.store.db, field.key, SetKind) ==>
        Enumerates(order, SetOf(field.store.db, field.key))
        && r == Ok(LazyMap(field.codec.decode, AsValues(order)))
    {
      var all := field.store.SMembers(field.key);
      if all.Err? {
        return Err(all.error), [];
      }
      var listed := Enumerate(all.value);
      order := listed;
      r := Ok(LazyMap(field.codec.decode, AsValues(listed)));
    }

    /** `count()`: SCARD. */
    method Count() returns (r: PyResult<int>)
      ensures r == SCardCmd(field.store.db, field.key)
    {
      r := field.store.SCard(field.key);
    }

    /** `contains(value)`. */
    method Contains(value: Value) returns (r: PyResult<bool>)
      ensures r == SetContains(field.store.db, field.key, field.codec, value)
    {
      var c := field.codec.encode(value);
      if c.Err? {
        return Err(c.error);
      }
      r := field.store.SIsMember(field.key, ArgBytes(c.value));
    }

    /** `random(number, unique)`: the client's SRANDMEMBER is a random choice, which `pick`/`picks` name. */
    method Random(number: Option<int>, unique: bool) returns (r: PyResult<Drawn>, ghost pick: PyResult<Option<Bytes>>, ghost picks: PyResult<seq<Bytes>>)
      ensures RandomRequest(number, unique).Err? ==> r == Err(RandomRequest(number, unique).error)
      ensures RandomRequest(number, unique) == Ok(None) ==>
        SRandMemberAllows(field.store.db, field.key, pick) && r == DrawOne(field.codec, pick)
      ensures RandomRequest(number, unique).Ok? && RandomRequest(number, unique).value.Some? ==>
        SRandMembersAllows(field.store.db, field.key, RandomRequest(number, unique).value.value, picks)
        && r == DrawMany(field.codec, picks)
    {
      pick, picks := Ok(None), Ok([]);
      var request := RandomRequest(number, unique);
      if request.Err? {
        return Err(request.error), pick, picks;
      }
      if request.value.None? {
        var m := field.store.SRandMember(field.key);
        pick := m;
        r := DrawOne(field.codec, m);
      } else {
        var ms := field.store.SRandMembers(field.key, request.value.value);
        picks := ms;
        r := DrawMany(field.codec, ms);
      }
    }

    /** `pop()`: SPOP, whose removed member (or None) is decoded. */
    method Pop() returns (r: PyResult<Value>, ghost pick: PyResult<Option<Bytes>>)
      modifies field.store
      ensures SPopAllows(old(field.store.db), field.key, Reply(pick, field.store.db))
      ensures r == DecodeReply(field.codec, pick)
    {
      var m := field.store.SPop(field.key);
      pick := m;
      r := DecodeReply(field.codec, m);
    }
  }

  /** `SetField(key, value_converter, redis)`. */
  method NewSetField(key: Value, converter: Option<Codec>, classConverter: Option<Codec>,
                     redis: Option<Store>, classRedis: Option<Store>) returns (r: PyResult<SetField>)
    ensures var s := Init(key, converter, classConverter, redis, classRedis);
      (r.Err? <==> s.Err?) && (r.Err? ==> r.error == s.error)
      && (r.Ok? ==> fresh(r.value) && fresh(r.value.field) && r.value.field.fieldType == SetFieldType
                    && Settings(r.value.field.key, r.value.field.codec, r.value.field.store) == s.value)
  {
    var f := NewField(SetFieldType, key, converter, classConverter, redis, classRedis);
    if f.Err? {
      return Err(f.error);
    }
    var sf := new SetField(f.value);
    r := Ok(sf);
  }
}
