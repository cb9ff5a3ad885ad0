/**
  orewrap/field.py, the earlier revision of the typed fields: the same `Field`,
  `StringField` and `HashField`, with a serializer (`dump`/`load`, which cannot raise)
  where the later revision has a converter, the identity `Serializer` as the default for
  values and names, and no class-level converter. A serializer is used through the
  field classes of `Fields` as the codec `AsCodec(s)`, so the bodies both revisions share
  are modelled once; what differs is stated here.

  `set_multi` asks the client for `pipline()`, which redis-py does not have. It is
  modelled both as written and as its evidently intended pipeline of HSET/HSETNX commands.
*/
module LegacyField {
  import opened Wrappers
  import opened Unicode
  import opened Py
  import opened Redis
  import opened Serializer
  import Fields

  /** A serializer seen as a codec: `dump` encodes and `load` decodes, and neither raises. */
  function AsCodec(s: Serializer): (c: Codec)
    ensures forall v :: c.encode(v) == Ok(s.Dump(v)) && c.decode(v) == Ok(s.Load(v))
  {
    Codec(v => Ok(s.Dump(v)), c => Ok(s.Load(c)))
  }

  /** The default value and name serializer is the identity both ways. */
  lemma DefaultSerializerIsIdentity(v: Value)
    ensures AsCodec(BaseSerializer).encode(v) == Ok(v) && AsCodec(BaseSerializer).decode(v) == Ok(v)
  {
  }

  /**
    `Field.__init__`: the key must not be empty, the serializer is the instance's or the
    identity, and the client is the instance's or the class's (`Field.Init`).
  */
  function Init(key: Value, serializer: Option<Serializer>, redis: Option<Store>, classRedis: Option<Store>): (r: PyResult<Fields.Settings>)
    ensures r.Err? <==> Str(key) == "" || (redis.None? && classRedis.None?)
    ensures Str(key) == "" ==> r == Err(Fields.EmptyKey)
    ensures Str(key) != "" && redis.None? && classRedis.None? ==> r == Err(Fields.NoClient)
    ensures r.Ok? ==> r.value.key == Str(key)
    ensures r.Ok? && serializer.Some? ==> r.value.codec == AsCodec(serializer.value)
    ensures r.Ok? && serializer.None? ==> r.value.codec == AsCodec(BaseSerializer)
    ensures r.Ok? ==> r.value.store == if redis.Some? then redis.value else classRedis.value
  {
    Fields.Init(key, Some(AsCodec(Fields.Or(serializer, BaseSerializer))), None, redis, classRedis)
  }

  /** `StringField(key, value_serializer, redis, overwrite)`. */
  method NewStringField(key: Value, serializer: Option<Serializer>, redis: Option<Store>,
                        classRedis: Option<Store>, overwrite: bool) returns (r: PyResult<Fields.StringField>)
    ensures var s := Init(key, serializer, redis, classRedis);
      (r.Err? <==> s.Err?) && (r.Err? ==> r.error == s.error)
      && (r.Ok? ==> fresh(r.value) && fresh(r.value.field) && r.value.overwrite == overwrite
                    && r.value.field.fieldType == Fields.LegacyStringFieldType
                    && Fields.Settings(r.value.field.key, r.value.field.codec, r.value.field.store) == s.value)
  {
    var s := Init(key, serializer, redis, classRedis);
    if s.Err? {
      return Err(s.error);
    }
    var f := new Fields.Field(Fields.LegacyStringFieldType, s.value);
    var sf := new Fields.StringField(f, overwrite);
    r := Ok(sf);
  }

  /** `HashField(key, value_serializer, name_serializer, redis, overwrite)`: names default to the identity too. */
  method NewHashField(key: Value, serializer: Option<Serializer>, nameSerializer: Option<Serializer>,
                      redis: Option<Store>, classRedis: Option<Store>, overwrite: bool) returns (r: PyResult<Fields.HashField>)
    ensures var s := Init(key, serializer, redis, classRedis);
      (r.Err? <==> s.Err?) && (r.Err? ==> r.error == s.error)
      && (r.Ok? ==> fresh(r.value) && fresh(r.value.field) && r.value.overwrite == overwrite
                    && r.value.names == AsCodec(Fields.Or(nameSerializer, BaseSerializer))
                    && r.value.field.fieldType == Fields.LegacyHashFieldType
                    && Fields.Settings(r.value.field.key, r.value.field.codec, r.value.field.store) == s.value)
  {
    var s := Init(key, serializer, redis, classRedis);
    if s.Err? {
      return Err(s.error);
    }
    var f := new Fields.Field(Fields.LegacyHashFieldType, s.value);
    var hf := new Fields.HashField(f, AsCodec(Fields.Or(nameSerializer, BaseSerializer)), overwrite);
    r := Ok(hf);
  }

  // ---------------------------------------------------------------- StringField

  /** `set` is SET or SETNX, by the resolved flag, of `dump(value)` as the client sends it. */
  lemma StringSetStoresDump(db: DB, key: Key, s: Serializer, overwrite: bool, value: Value)
    ensures Fields.StringSet(db, key, AsCodec(s), overwrite, value)
      == if overwrite then SetCmd(db, key, ArgBytes(s.Dump(value))) else SetNxCmd(db, key, ArgBytes(s.Dump(value)))
  {
  }

  /** `get` gives the default for an absent key and `load` of the stored bytes otherwise; neither serializer changes them. */
  lemma StringGetLoads(db: DB, key: Key, s: Serializer, default: Value)
    ensures key !in db ==> Fields.StringGet(db, key, AsCodec(s), default) == Ok(default)
    ensures key in db && db[key].StrEntry? ==>
      Fields.StringGet(db, key, AsCodec(s), default) == Ok(s.Load(PyBytes(db[key].data)))
      && Fields.StringGet(db, key, AsCodec(s), default) == Ok(PyBytes(db[key].data))
    ensures WrongKind(db, key, StringKind) ==> Fields.StringGet(db, key, AsCodec(s), default) == Err(WrongType)
  {
  }

  /** With the identity serializer a string comes back from `get` as its UTF-8 bytes, not as the string. */
  lemma StringSetThenGetGivesBytes(db: DB, key: Key, text: string, default: Value)
    ensures Fields.StringGet(Fields.StringSet(db, key, AsCodec(BaseSerializer), true, PyStr(text)).db, key, AsCodec(BaseSerializer), default)
      == Ok(PyBytes(Unicode.Encode(text)))
  {
  }

  // ---------------------------------------------------------------- HashField

  /** `set` writes `(dump(name), dump(value))` with HSET or HSETNX by the resolved flag. */
  lemma HashSetStoresDumps(db: DB, key: Key, ns: Serializer, vs: Serializer, overwrite: bool, name: Value, value: Value)
    ensures Fields.HashSet(db, key, AsCodec(ns), AsCodec(vs), overwrite, name, value)
      == if overwrite then HSetCmd(db, key, ArgBytes(ns.Dump(name)), ArgBytes(vs.Dump(value)))
         else HSetNxCmd(db, key, ArgBytes(ns.Dump(name)), ArgBytes(vs.Dump(value)))
  {
  }

  /** `get` passes the name through `load`, the identity, so the name is looked up exactly as given. */
  lemma HashGetLoadsName(db: DB, key: Key, ns: Serializer, vs: Serializer, name: Value, default: Value)
    ensures Fields.HashGet(db, key, AsCodec(ns), AsCodec(vs), name, default)
      == Fields.Loaded(AsCodec(vs), HGetCmd(db, key, ArgBytes(name)), default)
  {
  }

  /**
    With the case-folding name serializer, a name with an upper-case letter is written
    under its lower-cased form but looked up as given, so `get` misses what `set` wrote.
  */
  lemma IgnoreCaseNameMissed(db: DB, key: Key, vs: Serializer, name: string, value: Value, default: Value)
    requires !WrongKind(db, key, HashKind) && Unicode.Encode(name) !in HashOf(db, key)
    requires exists i :: 0 <= i < |name| && IsUpper(name[i])
    ensures var after := Fields.HashSet(db, key, AsCodec(IgnoreCaseSerializer), AsCodec(vs), true, PyStr(name), value).db;
      Fields.HashGet(after, key, AsCodec(IgnoreCaseSerializer), AsCodec(vs), PyStr(name), default) == Ok(default)
  {
    LowerFixedIff(name);
    EncodeInjective(Lower(name), name);
    WrittenElsewhere(db, key, vs, name, value, default);
  }

  /** The step of IgnoreCaseNameMissed once the written and the looked-up names are known to differ. */
  lemma WrittenElsewhere(db: DB, key: Key, vs: Serializer, name: string, value: Value, default: Value)
    requires !WrongKind(db, key, HashKind) && Unicode.Encode(name) !in HashOf(db, key)
    requires Unicode.Encode(Lower(name)) != Unicode.Encode(name)
    ensures var after := Fields.HashSet(db, key, AsCodec(IgnoreCaseSerializer), AsCodec(vs), true, PyStr(name), value).db;
      Fields.HashGet(after, key, AsCodec(IgnoreCaseSerializer), AsCodec(vs), PyStr(name), default) == Ok(default)
  {
    var written := Unicode.Encode(Lower(name));
    HashSetStoresDumps(db, key, IgnoreCaseSerializer, vs, true, PyStr(name), value);
    assert ArgBytes(IgnoreCaseSerializer.Dump(PyStr(name))) == written;
    var after := HSetCmd(db, key, written, ArgBytes(vs.Dump(value))).db;
    HashGetLoadsName(after, key, IgnoreCaseSerializer, vs, PyStr(name), default);
    OtherNameAbsent(db, key, written, Unicode.Encode(name), ArgBytes(vs.Dump(value)));
  }

  lemma OtherNameAbsent(db: DB, key: Key, f: Bytes, g: Bytes, v: Bytes)
    requires !WrongKind(db, key, HashKind) && g !in HashOf(db, key) && f != g
    ensures HGetCmd(HSetCmd(db, key, f, v).db, key, g) == Ok(None)
  {
  }

  /**
    `members()`: every stored pair, as bytes, whatever order the client lists them in;
    the identity `load` keeps distinct names distinct.
  */
  lemma MembersAreStored(h: map<Bytes, Bytes>, order: seq<Bytes>, ns: Serializer, vs: Serializer)
    requires Enumerates(order, h.Keys)
    ensures var r := Fields.Comprehend(AsCodec(ns).decode, AsCodec(vs).decode, Fields.Stored(h, order), []);
      r.Ok? && Fields.Keys(r.value) == (set n | n in h :: PyBytes(n))
      && forall n :: n in h ==> Fields.Lookup(r.value, PyBytes(n)) == Some(PyBytes(h[n]))
  {
    IdentityMembers(h, order, AsCodec(ns), AsCodec(vs));
  }

  /** MembersAreStored for any two codecs whose decoders are the identity. */
  lemma IdentityMembers(h: map<Bytes, Bytes>, order: seq<Bytes>, names: Codec, values: Codec)
    requires Enumerates(order, h.Keys)
    requires forall x :: names.decode(x) == Ok(x)
    requires forall x :: values.decode(x) == Ok(x)
    ensures var r := Fields.Comprehend(names.decode, values.decode, Fields.Stored(h, order), []);
      r.Ok? && Fields.Keys(r.value) == (set n | n in h :: PyBytes(n))
      && forall n :: n in h ==> Fields.Lookup(r.value, PyBytes(n)) == Some(PyBytes(h[n]))
  {
    Fields.MembersKeys(h, order, names, values);
    IdentityNames(h, names);
    var r := Fields.Comprehend(names.decode, values.decode, Fields.Stored(h, order), []);
    assert forall j :: 0 <= j < |order| ==> names.decode(PyBytes(order[j])) == Ok(PyBytes(order[j]));
    forall n | n in h ensures Fields.Lookup(r.value, PyBytes(n)) == Some(PyBytes(h[n])) {
      var i :| 0 <= i < |order| && order[i] == n;
      assert values.decode(PyBytes(h[n])) == Ok(PyBytes(h[n]));
      MemberLookup(h, order, names, values, i);
    }
  }

  /** The identity decoder gives back the stored names as they are. */
  lemma IdentityNames(h: map<Bytes, Bytes>, names: Codec)
    requires forall x :: names.decode(x) == Ok(x)
    ensures (set n | n in h :: names.decode(PyBytes(n)).value) == (set n | n in h :: PyBytes(n))
  {
    var a := set n | n in h :: names.decode(PyBytes(n)).value;
    var b := set n | n in h :: PyBytes(n);
    forall x | x in a ensures x in b {
      var n :| n in h && x == names.decode(PyBytes(n)).value;
    }
    forall x | x in b ensures x in a {
      var n :| n in h && x == PyBytes(n);
      assert names.decode(PyBytes(n)).value == x;
    }
  }

  /** One name of IdentityMembers, listed at `i`: the item there is the only one with that key. */
  lemma MemberLookup(h: map<Bytes, Bytes>, order: seq<Bytes>, names: Codec, values: Codec, i: int)
    requires forall j :: 0 <= j < |order| ==> order[j] in h
    requires forall j, k :: 0 <= j < k < |order| ==> order[j] != order[k]
    requires 0 <= i < |order|
    requires forall j :: 0 <= j < |order| ==> names.decode(PyBytes(order[j])) == Ok(PyBytes(order[j]))
    requires values.decode(PyBytes(h[order[i]])) == Ok(PyBytes(h[order[i]]))
    requires Fields.Comprehend(names.decode, values.decode, Fields.Stored(h, order), []).Ok?
    ensures Fields.Lookup(Fields.Comprehend(names.decode, values.decode, Fields.Stored(h, order), []).value, PyBytes(order[i]))
      == Some(PyBytes(h[order[i]]))
  {
    var items := Fields.Stored(h, order);
    assert items[i] == (PyBytes(order[i]), PyBytes(h[order[i]]));
    assert names.decode(items[i].0) == Ok(PyBytes(order[i]));
    forall j | i < j < |items| ensures names.decode(items[j].0) != names.decode(items[i].0) {
      assert items[j].0 == PyBytes(order[j]) && order[j] != order[i];
      assert names.decode(items[j].0) == Ok(PyBytes(order[j]));
    }
    Fields.ComprehendLastWins(names.decode, values.decode, items, [], i);
  }

  /** `names()`: the stored names, as bytes. */
  lemma NamesAreStored(h: map<Bytes, Bytes>, order: seq<Bytes>, ns: Serializer)
    requires Enumerates(order, h.Keys)
    ensures Fields.SetComprehend(AsCodec(ns).decode, Fields.AsValues(order)) == Ok(set n | n in h :: PyBytes(n))
  {
    Fields.NamesAnyOrder(h, order, AsCodec(ns));
    IdentityNames(h, AsCodec(ns));
  }

  /** `values()`: the stored values, as bytes, in the order of the names. */
  lemma ValuesAreStored(h: map<Bytes, Bytes>, order: seq<Bytes>, vs: Serializer)
    requires forall i :: 0 <= i < |order| ==> order[i] in h
    ensures var xs := Fields.AsValues(seq(|order|, i requires 0 <= i < |order| => h[order[i]]));
      Fields.ListComprehend(AsCodec(vs).decode, xs) == Ok(xs)
  {
    var xs := Fields.AsValues(seq(|order|, i requires 0 <= i < |order| => h[order[i]]));
    var r := Fields.ListComprehend(AsCodec(vs).decode, xs);
    assert r.value == xs;
  }

  // ---------------------------------------------------------------- set_multi

  /** `set_multi` as written: `self._redis.pipline()` raises AttributeError before anything is queued or sent. */
  method SetMultiAsWritten(h: Fields.HashField, items: Fields.Dict, overwrite: Option<bool>) returns (r: PyResult<Value>)
    ensures r == Err(AttributeError)
  {
    r := Err(AttributeError);
  }

  /**
    The commands the `for` loop queues: one per item, in the dict's order, the name dumped
    before the value; the first conversion that raises ends the loop.
  */
  function Queued(names: Codec, values: Codec, items: Fields.Dict): PyResult<seq<(Bytes, Bytes)>>
    decreases |items|
  {
    if items == [] then Ok([])
    else
      var last := items[|items| - 1];
      match Queued(names, values, items[..|items| - 1])
      case Err(e) => Err(e)
      case Ok(q) =>
        match names.encode(last.0)
        case Err(e) => Err(e)
        case Ok(n) =>
          match values.encode(last.1)
          case Err(e) => Err(e)
          case Ok(v) => Ok(q + [(ArgBytes(n), ArgBytes(v))])
  }

  /** The name and the value of one item both convert. */
  predicate Converts(names: Codec, values: Codec, item: (Value, Value)) {
    names.encode(item.0).Ok? && values.encode(item.1).Ok?
  }

  /** The loop queues every item exactly when every name and value converts. */
  lemma {:induction false} QueuedOkIff(names: Codec, values: Codec, items: Fields.Dict)
    ensures Queued(names, values, items).Ok? <==> forall i :: 0 <= i < |items| ==> Converts(names, values, items[i])
    decreases |items|
  {
    if items != [] {
      var front := items[..|items| - 1];
      var last := items[|items| - 1];
      QueuedOkIff(names, values, front);
      assert Queued(names, values, items).Ok? <==> Queued(names, values, front).Ok? && Converts(names, values, last);
      assert items == front + [last];
      ConvertsSnoc(names, values, front, last);
    }
  }

  lemma ConvertsSnoc(names: Codec, values: Codec, front: Fields.Dict, last: (Value, Value))
    ensures (forall i :: 0 <= i < |front + [last]| ==> Converts(names, values, (front + [last])[i]))
      <==> (forall i :: 0 <= i < |front| ==> Converts(names, values, front[i])) && Converts(names, values, last)
  {
    var items := front + [last];
    assert forall i :: 0 <= i < |front| ==> items[i] == front[i];
    assert items[|front|] == last;
  }

  /** The octets queued for an item that converts: its name and its value as sent. */
  function Pair(names: Codec, values: Codec, item: (Value, Value)): (Bytes, Bytes)
    requires Converts(names, values, item)
  {
    (ArgBytes(names.encode(item.0).value), ArgBytes(values.encode(item.1).value))
  }

  /** What the loop queues when every item converts: each item as its pair of octets, in order. */
  lemma {:induction false} QueuedPairs(names: Codec, values: Codec, items: Fields.Dict)
    requires forall i :: 0 <= i < |items| ==> Converts(names, values, items[i])
    ensures Queued(names, values, items).Ok?
    ensures var q := Queued(names, values, items).value;
      |q| == |items| && forall i :: 0 <= i < |items| ==> q[i] == Pair(names, values, items[i])
    decreases |items|
  {
    if items != [] {
      var front := items[..|items| - 1];
      var last := items[|items| - 1];
      assert items == front + [last];
      ConvertsSnoc(names, values, front, last);
      QueuedPairs(names, values, front);
      var q := Queued(names, values, front).value;
      var r := q + [Pair(names, values, last)];
      assert Queued(names, values, items) == Ok(r);
      forall i | 0 <= i < |items| ensures r[i] == Pair(names, values, items[i]) {
        if i < |front| {
          assert r[i] == q[i] && front[i] == items[i];
        }
      }
    }
  }

  /** Once a prefix of the items fails to convert, the whole loop fails with that error. */
  lemma {:induction false} QueuedKeepsError(names: Codec, values: Codec, items: Fields.Dict, j: int)
    requires 0 <= j <= |items| && Queued(names, values, items[..j]).Err?
    ensures Queued(names, values, items) == Queued(names, values, items[..j])
    decreases |items|
  {
    if j == |items| {
      assert items[..j] == items;
    } else {
      var front := items[..|items| - 1];
      assert front[..j] == items[..j];
      QueuedKeepsError(names, values, front, j);
    }
  }

  /** The replies and the key space after the queue has run. */
  datatype Batch = Batch(replies: seq<PyResult<int>>, db: DB)

  /** One queued command: HSET, or HSETNX when overwrite is off. */
  function Command(db: DB, key: Key, overwrite: bool, pair: (Bytes, Bytes)): Reply<int> {
    if overwrite then HSetCmd(db, key, pair.0, pair.1) else HSetNxCmd(db, key, pair.0, pair.1)
  }

  /** What `execute()` does with the queue: each command in order, each reply kept. */
  function Executed(db: DB, key: Key, overwrite: bool, pairs: seq<(Bytes, Bytes)>): (r: Batch)
    ensures |r.replies| == |pairs|
    ensures WellFormed(db) ==> WellFormed(r.db)
    decreases |pairs|
  {
    if pairs == [] then Batch([], db)
    else
      var first := Command(db, key, overwrite, pairs[0]);
      var rest := Executed(first.db, key, overwrite, pairs[1..]);
      Batch([first.result] + rest.replies, rest.db)
  }

  /** One more command run: the reply joins those already kept and the rest of the queue is left. */
  lemma ExecutedStep(db0: DB, db: DB, key: Key, overwrite: bool, queue: seq<(Bytes, Bytes)>, i: int, replies: seq<PyResult<int>>)
    requires 0 <= i < |queue|
    requires Executed(db0, key, overwrite, queue).replies == replies + Executed(db, key, overwrite, queue[i..]).replies
    requires Executed(db0, key, overwrite, queue).db == Executed(db, key, overwrite, queue[i..]).db
    ensures var first := Command(db, key, overwrite, queue[i]);
      Executed(db0, key, overwrite, queue).replies == (replies + [first.result]) + Executed(first.db, key, overwrite, queue[i + 1..]).replies
      && Executed(db0, key, overwrite, queue).db == Executed(first.db, key, overwrite, queue[i + 1..]).db
  {
    var first := Command(db, key, overwrite, queue[i]);
    assert queue[i..][0] == queue[i] && queue[i..][1..] == queue[i + 1..];
    var rest := Executed(first.db, key, overwrite, queue[i + 1..]);
    assert Executed(db, key, overwrite, queue[i..]) == Batch([first.result] + rest.replies, rest.db);
    assert replies + ([first.result] + rest.replies) == (replies + [first.result]) + rest.replies;
  }

  /** The first error reply, which `execute()` raises once every command has run. */
  function FirstError(replies: seq<PyResult<int>>): (r: Option<Error>)
    ensures r.None? <==> forall i :: 0 <= i < |replies| ==> replies[i].Ok?
    decreases |replies|
  {
    if replies == [] then None
    else if replies[0].Err? then Some(replies[0].error)
    else
      assert forall i :: 1 <= i < |replies| ==> replies[i] == replies[1..][i - 1];
      FirstError(replies[1..])
  }

  /** With overwrite, the pipeline leaves the hash as one HMSET of the same pairs would, and every reply is a count. */
  lemma {:induction false} PipelineIsHMSet(db: DB, key: Key, pairs: seq<(Bytes, Bytes)>)
    requires !WrongKind(db, key, HashKind)
    ensures var r := Executed(db, key, true, pairs);
      HashOf(r.db, key) == Assign(HashOf(db, key), pairs) && FirstError(r.replies).None?
      && (pairs != [] ==> key in r.db)
    ensures forall j :: j != key ==> (j in Executed(db, key, true, pairs).db <==> j in db)
    decreases |pairs|
  {
    if pairs != [] {
      var first := HSetCmd(db, key, pairs[0].0, pairs[0].1);
      assert Command(db, key, true, pairs[0]) == first;
      PipelineIsHMSet(first.db, key, pairs[1..]);
      var rest := Executed(first.db, key, true, pairs[1..]);
      assert Executed(db, key, true, pairs).replies == [first.result] + rest.replies;
      if pairs[1..] == [] {
        assert rest.db == first.db;
      }
    }
  }

  /** Without overwrite, names already present keep their values, and every queued name is present afterwards. */
  lemma {:induction false} PipelineKeepsExisting(db: DB, key: Key, pairs: seq<(Bytes, Bytes)>)
    requires !WrongKind(db, key, HashKind)
    ensures var after := HashOf(Executed(db, key, false, pairs).db, key);
      (forall f :: f in HashOf(db, key) ==> f in after && after[f] == HashOf(db, key)[f])
      && (forall i :: 0 <= i < |pairs| ==> pairs[i].0 in after)
      && FirstError(Executed(db, key, false, pairs).replies).None?
    decreases |pairs|
  {
    if pairs != [] {
      var first := HSetNxCmd(db, key, pairs[0].0, pairs[0].1);
      assert Command(db, key, false, pairs[0]) == first;
      PipelineKeepsExisting(first.db, key, pairs[1..]);
      var rest := Executed(first.db, key, false, pairs[1..]);
      assert Executed(db, key, false, pairs).replies == [first.result] + rest.replies;
      forall i | 0 <= i < |pairs| ensures pairs[i].0 in HashOf(rest.db, key) {
        if i > 0 {
          assert pairs[1..][i - 1] == pairs[i];
        }
      }
    }
  }

  /**
    `set_multi` as evidently intended, with `pipeline()`: the loop converts and queues one
    HSET or HSETNX per item, nothing being sent if a conversion raises; `execute()` then
    runs the queue in order and raises the first error reply. It returns None.
  */
  method SetMulti(h: Fields.HashField, items: Fields.Dict, overwrite: Option<bool>) returns (r: PyResult<Value>)
    modifies h.field.store
    ensures var q := Queued(h.names, h.field.codec, items);
      var flag := Fields.Resolve(h.overwrite, overwrite);
      (q.Err? ==> r == Err(q.error) && h.field.store.db == old(h.field.store.db))
      && (q.Ok? ==>
            var e := Executed(old(h.field.store.db), h.field.key, flag, q.value);
            h.field.store.db == e.db
            && r == if FirstError(e.replies).Some? then Err(FirstError(e.replies).value) else Ok(PyNone))
  {
    var flag := Fields.Resolve(h.overwrite, overwrite);
    var queue: seq<(Bytes, Bytes)> := [];
    var i := 0;
    while i < |items|
      invariant 0 <= i <= |items|
      invariant Queued(h.names, h.field.codec, items[..i]) == Ok(queue)
    {
      assert items[..i + 1][..i] == items[..i] && items[..i + 1][i] == items[i];
      var n := h.names.encode(items[i].0);
      if n.Err? {
        QueuedKeepsError(h.names, h.field.codec, items, i + 1);
        return Err(n.error);
      }
      var v := h.field.codec.encode(items[i].1);
      if v.Err? {
        QueuedKeepsError(h.names, h.field.codec, items, i + 1);
        return Err(v.error);
      }
      queue := queue + [(ArgBytes(n.value), ArgBytes(v.value))];
      i := i + 1;
    }
    assert items[..i] == items;
    r := Execute(h.field.store, h.field.key, flag, queue);
  }

  /** `execute()`: the queued commands sent one after another; the first error reply is raised. */
  method Execute(store: Store, key: Key, overwrite: bool, queue: seq<(Bytes, Bytes)>) returns (r: PyResult<Value>)
    modifies store
    ensures var e := Executed(old(store.db), key, overwrite, queue);
      store.db == e.db
      && r == if FirstError(e.replies).Some? then Err(FirstError(e.replies).value) else Ok(PyNone)
  {
    var replies: seq<PyResult<int>> := [];
    var i := 0;
    while i < |queue|
      invariant 0 <= i <= |queue|
      invariant Executed(old(store.db), key, overwrite, queue).replies
        == replies + Executed(store.db, key, overwrite, queue[i..]).replies
      invariant Executed(old(store.db), key, overwrite, queue).db == Executed(store.db, key, overwrite, queue[i..]).db
    {
      ghost var before := store.db;
      var reply: PyResult<int>;
      if overwrite {
        reply := store.HSet(key, queue[i].0, queue[i].1);
      } else {
        reply := store.HSetNx(key, queue[i].0, queue[i].1);
      }
      assert Reply(reply, store.db) == Command(before, key, overwrite, queue[i]);
      ExecutedStep(old(store.db), before, key, overwrite, queue, i, replies);
      replies := replies + [reply];
      i := i + 1;
    }
    assert queue[i..] == [];
    assert replies + [] == replies;
    var first := FirstError(replies);
    r := if first.Some? then Err(first.value) else Ok(PyNone);
  }
}
