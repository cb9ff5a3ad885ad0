/**
  orewrap/object.py: an entity whose fields live under keys derived from the class's
  `_Name` and the entity's id. Ids are allocated from the class's `<Name>:last_id`
  counter, registration is membership of the `<Name>:reg` sorted set, and `delete`
  destroys every field the instance holds.

  SortedSetField and ScoreStringField are not part of this model. What object.py needs of
  them is kept to the least it relies on: the registry is a sorted set under `_K('reg')`
  whose member for an id is given by the parameter `member`; the creation date is a field
  under `_k('create_date')` whose `destroy` is that of `Field`; and what
  `create_date.set(datetime.now())` writes is the parameter `stamp`.
*/
module Objects {
  import opened Wrappers
  import opened Unicode
  import opened Py
  import opened Redis
  import Fields

  // ---------------------------------------------------------------- keys

  /** `_K(name)`: `"%s:%s" % (cls._Name, name)`. */
  function ClassKey(cls: string, name: string): Key {
    cls + ":" + name
  }

  /** `_k(name)`: `"%s:%s:%s" % (self._Name, self.object_id, name)`. */
  function InstanceKey(cls: string, id: Value, name: string): Key {
    cls + ":" + Str(id) + ":" + name
  }

  /** Two instance keys of one class with integer ids agree exactly when the ids and the names do. */
  lemma InstanceKeyInjective(cls: string, i: int, j: int, a: string, b: string)
    ensures InstanceKey(cls, PyInt(i), a) == InstanceKey(cls, PyInt(j), b) <==> i == j && a == b
  {
    if InstanceKey(cls, PyInt(i), a) == InstanceKey(cls, PyInt(j), b) {
      DecimalHasNoColon(i);
      DecimalHasNoColon(j);
      KeySplit(cls, Decimal(i), a, Decimal(j), b);
      DecimalInjective(i, j);
    }
  }

  /** Keys `cls:d:a` whose middle part has no colon determine that part and the name. */
  lemma KeySplit(cls: string, d: string, a: string, e: string, b: string)
    requires ':' !in d && ':' !in e && cls + ":" + d + ":" + a == cls + ":" + e + ":" + b
    ensures d == e && a == b
  {
    var p := cls + ":";
    var x := d + ":" + a;
    var y := e + ":" + b;
    assert cls + ":" + d + ":" + a == p + x;
    assert cls + ":" + e + ":" + b == p + y;
    assert x == (p + x)[|p|..] == (p + y)[|p|..] == y;
    ColonSplit(d, a, e, b);
  }

  /** Text before the first colon, then the rest: a split that is unique. */
  lemma ColonSplit(d: string, a: string, e: string, b: string)
    requires ':' !in d && ':' !in e && d + ":" + a == e + ":" + b
    ensures d == e && a == b
  {
    var s := d + ":" + a;
    assert s[|d|] == ':' && s[|e|] == ':';
    assert |d| == |e|;
    assert d == s[..|d|] && e == s[..|e|];
    assert a == s[|d| + 1..] && b == s[|e| + 1..];
  }

  /** A class key whose name has no colon, such as `last_id` or `reg`, is no instance key of that class. */
  lemma ClassKeysApart(cls: string, f: string, i: int, g: string)
    requires ':' !in f
    ensures ClassKey(cls, f) != InstanceKey(cls, PyInt(i), g)
  {
    var p := cls + ":";
    var x := Decimal(i) + ":" + g;
    assert x[|Decimal(i)|] == ':';
    assert ClassKey(cls, f) == p + f && InstanceKey(cls, PyInt(i), g) == p + x;
    assert (p + f)[|p|..] == f && (p + x)[|p|..] == x;
  }

  // ---------------------------------------------------------------- registry

  /**
    `cls.Exists(object_id)`: `_Register.contains(object_id)`, membership of the id's member,
    as `member` converts it, in the sorted set under `_K('reg')`.
  */
  function Registered(db: DB, registry: Key, member: Value -> PyResult<Bytes>, id: Value): (r: PyResult<bool>)
    ensures member(id).Err? ==> r == Err(member(id).error)
    ensures member(id).Ok? ==> (r.Err? <==> WrongKind(db, registry, ZSetKind))
    ensures r.Ok? ==> (r.value <==> member(id).value in ZSetOf(db, registry))
  {
    match member(id)
    case Err(e) => Err(e)
    case Ok(m) =>
      match ZScoreCmd(db, registry, m)
      case Err(e) => Err(e)
      case Ok(score) => Ok(score.Some?)
  }

  // ---------------------------------------------------------------- the class

  /**
    An `Object` subclass after `_Init_Fields`: the Python class name (which `str()` of an
    instance shows), `_Name`, the `_Last_Id` counter, the registry's conversion of ids, and
    the class-level client and converter its StringFields take.
  */
  class ObjectClass {
    const typeName: string
    const name: string
    const lastId: Fields.StringField
    const member: Value -> PyResult<Bytes>
    const classRedis: Option<Store>
    const classConverter: Option<Codec>

    constructor (typeName: string, name: string, lastId: Fields.StringField, member: Value -> PyResult<Bytes>,
                 classRedis: Option<Store>, classConverter: Option<Codec>)
      ensures this.typeName == typeName && this.name == name && this.lastId == lastId
      ensures this.member == member && this.classRedis == classRedis && this.classConverter == classConverter
    {
      this.typeName := typeName;
      this.name := name;
      this.lastId := lastId;
      this.member := member;
      this.classRedis := classRedis;
      this.classConverter := classConverter;
    }

    /** `_Last_Id` is the StringField under `_K('last_id')` on the class-level client. */
    ghost predicate Valid() {
      lastId.field.key == ClassKey(name, "last_id") && classRedis == Some(lastId.field.store)
    }

    /** The client every field of the class and of its instances talks to. */
    function Client(): Store {
      lastId.field.store
    }
  }

  /**
    `_Init_Fields`, run when the class is created: `_Last_Id = StringField(_K('last_id'))`,
    which needs the class-level client. The two SortedSetFields over `_K('reg')` are the
    registry `member` stands for.
  */
  method InitFields(typeName: string, name: string, member: Value -> PyResult<Bytes>,
                    classRedis: Option<Store>, classConverter: Option<Codec>) returns (r: PyResult<ObjectClass>)
    ensures r.Err? <==> classRedis.None?
    ensures r.Err? ==> r.error == Fields.NoClient
    ensures r.Ok? ==> fresh(r.value) && r.value.Valid() && r.value.name == name && r.value.typeName == typeName
                      && r.value.member == member && r.value.classConverter == classConverter
  {
    var lastId := Fields.NewStringField(PyStr(ClassKey(name, "last_id")), None, classConverter, None, classRedis, true);
    if lastId.Err? {
      return Err(lastId.error);
    }
    var c := new ObjectClass(typeName, name, lastId.value, member, classRedis, classConverter);
    r := Ok(c);
  }

  // ---------------------------------------------------------------- instances

  /** A value of an instance's `__dict__`: a field, which `delete` destroys, or anything else. */
  datatype Attribute = Plain(value: Value) | FieldValue(field: Fields.Field)

  /** The keys of the fields among some attributes. */
  function FieldKeys(attrs: seq<Attribute>): (r: set<Key>)
    ensures forall k :: k in r <==> exists i :: 0 <= i < |attrs| && attrs[i].FieldValue? && attrs[i].field.key == k
    decreases |attrs|
  {
    if attrs == [] then {}
    else
      var rest := FieldKeys(attrs[1..]);
      assert forall i :: 1 <= i < |attrs| ==> attrs[i] == attrs[1..][i - 1];
      if attrs[0].FieldValue? then {attrs[0].field.key} + rest else rest
  }

  /** An instance: `object_id`, then the `create_date` ScoreStringField, then the `tag` StringField. */
  class Entity {
    const cls: ObjectClass
    const objectId: Value
    const createDate: Fields.Field
    const tag: Fields.StringField

    constructor (cls: ObjectClass, objectId: Value, createDate: Fields.Field, tag: Fields.StringField)
      ensures this.cls == cls && this.objectId == objectId && this.createDate == createDate && this.tag == tag
    {
      this.cls := cls;
      this.objectId := objectId;
      this.createDate := createDate;
      this.tag := tag;
    }

    /** Both fields sit under the instance's keys on the class's client. */
    ghost predicate Valid() {
      createDate.key == InstanceKey(cls.name, objectId, "create_date")
      && tag.field.key == InstanceKey(cls.name, objectId, "tag")
      && createDate.store == cls.Client() && tag.field.store == cls.Client()
    }

    /** `self.__dict__.values()`, in the order `__init__` assigns them. */
    function Attributes(): (r: seq<Attribute>)
      ensures FieldKeys(r) == {createDate.key, tag.field.key}
    {
      var r := [Plain(objectId), FieldValue(createDate), FieldValue(tag.field)];
      assert r[1].field.key == createDate.key && r[2].field.key == tag.field.key;
      r
    }

    /**
      `delete()`: `destroy()` of every attribute that is a Field, in `__dict__` order. DEL
      cannot fail, so afterwards exactly the two field keys are gone and nothing else moved.
    */
    method Delete()
      requires Valid()
      modifies cls.Client()
      ensures cls.Client().db == old(cls.Client().db) - {createDate.key, tag.field.key}
      ensures createDate.key !in cls.Client().db && tag.field.key !in cls.Client().db
    {
      var store := cls.Client();
      var attrs := Attributes();
      ghost var gone: set<Key> := {};
      var i := 0;
      while i < |attrs|
        invariant 0 <= i <= |attrs|
        invariant OnStore(attrs, store)
        invariant gone == FieldKeys(attrs[..i])
        invariant store.db == old(store.db) - gone
      {
        var a := attrs[i];
        assert attrs[..i + 1] == attrs[..i] + [a];
        FieldKeysSnoc(attrs[..i], a);
        if a.FieldValue? {
          assert a.field.store == store;
          var _ := a.field.Destroy();
          RemoveOneMore(old(store.db), gone, a.field.key);
          gone := gone + {a.field.key};
        }
        i := i + 1;
      }
      assert attrs[..i] == attrs;
      assert gone == {createDate.key, tag.field.key};
    }
  }

  /** Every field among the attributes talks to `store`. */
  ghost predicate OnStore(attrs: seq<Attribute>, store: Store) {
    forall j :: 0 <= j < |attrs| && attrs[j].FieldValue? ==> attrs[j].field.store == store
  }

  lemma RemoveOneMore(db: DB, gone: set<Key>, k: Key)
    ensures (db - gone) - {k} == db - (gone + {k})
  {
  }

  lemma FieldKeysSnoc(attrs: seq<Attribute>, a: Attribute)
    ensures FieldKeys(attrs + [a]) == FieldKeys(attrs) + (if a.FieldValue? then {a.field.key} else {})
  {
    var s := attrs + [a];
    assert s[|attrs|] == a;
    forall k | k in FieldKeys(attrs) ensures k in FieldKeys(s) {
      var i :| 0 <= i < |attrs| && attrs[i].FieldValue? && attrs[i].field.key == k;
      assert s[i] == attrs[i];
    }
  }

  /**
    `cls(object_id)`: the id must not be None and its `str()` must not be empty
    (AssertionError); then the ScoreStringField `create_date` and the StringField `tag`
    under `_k`, both on the class-level client, which must be set.
  */
  method NewEntity(c: ObjectClass, id: Value) returns (r: PyResult<Entity>)
    ensures r.Err? <==> id.PyNone? || Str(id) == "" || c.classRedis.None?
    ensures (id.PyNone? || Str(id) == "") ==> r == Err(AssertionError)
    ensures !id.PyNone? && Str(id) != "" && c.classRedis.None? ==> r == Err(Fields.NoClient)
    ensures r.Ok? ==> fresh(r.value) && r.value.cls == c && r.value.objectId == id
    ensures r.Ok? && c.Valid() ==> r.value.Valid()
  {
    if id.PyNone? || Str(id) == "" {
      return Err(AssertionError);
    }
    var date := Fields.NewField(Fields.ScoreStringFieldType, PyStr(InstanceKey(c.name, id, "create_date")),
                                None, c.classConverter, None, c.classRedis);
    if date.Err? {
      return Err(date.error);
    }
    var tag := Fields.NewStringField(PyStr(InstanceKey(c.name, id, "tag")), None, c.classConverter, None, c.classRedis, true);
    assert tag.Ok?;
    var e := new Entity(c, id, date.value, tag.value);
    r := Ok(e);
  }

  /** `cls.Exists(object_id)`. */
  method Exists(c: ObjectClass, id: Value) returns (r: PyResult<bool>)
    ensures r == Registered(c.Client().db, ClassKey(c.name, "reg"), c.member, id)
  {
    var m := c.member(id);
    if m.Err? {
      return Err(m.error);
    }
    var score := c.Client().ZScore(ClassKey(c.name, "reg"), m.value);
    if score.Err? {
      return Err(score.error);
    }
    r := Ok(score.value.Some?);
  }

  /** `cls.Get(object_id)`: None for an id that is not registered, else a handle on that id. */
  method Get(c: ObjectClass, id: Value) returns (r: PyResult<Option<Entity>>)
    requires c.Valid()
    ensures var reg := Registered(c.Client().db, ClassKey(c.name, "reg"), c.member, id);
      (reg.Err? ==> r == Err(reg.error))
      && (reg == Ok(false) ==> r == Ok(None))
      && (reg == Ok(true) && (id.PyNone? || Str(id) == "") ==> r == Err(AssertionError))
      && (reg == Ok(true) && !id.PyNone? && Str(id) != "" ==>
            r.Ok? && r.value.Some? && fresh(r.value.value) && r.value.value.objectId == id && r.value.value.Valid())
  {
    var known := Exists(c, id);
    if known.Err? {
      return Err(known.error);
    }
    if !known.value {
      return Ok(None);
    }
    var e := NewEntity(c, id);
    if e.Err? {
      return Err(e.error);
    }
    r := Ok(Some(e.value));
  }

  // ---------------------------------------------------------------- Create

  /** `create_date.set(datetime.now())` for the field under the given key; ScoreStringField and the clock are not part of this model. */
  type Stamp = (DB, Key) -> Reply<bool>

  /** A stamp writes at most the field's own key and the registry. */
  ghost predicate Confined(stamp: Stamp, registry: Key) {
    forall db: DB, k: Key, j: Key :: j != k && j != registry ==>
      (j in stamp(db, k).db <==> j in db) && (j in db ==> stamp(db, k).db[j] == db[j])
  }

  /** The outcome of `Create`: what it returns, the id it drew, and the key space afterwards. */
  datatype Created = Created(result: PyResult<Value>, id: Option<int>, db: DB)

  /** The counter under `_K('last_id')` as INCR reads it: 0 when absent, None when not a 64-bit integer. */
  function LastId(db: DB, name: string): Option<int> {
    var k := ClassKey(name, "last_id");
    if k !in db then Some(0)
    else if db[k].StrEntry? then ParseInt64(db[k].data)
    else None
  }

  /**
    `Create()`: INCR of `_K('last_id')`, whose reply is the new id; the instance built on
    it; then its creation date is stamped. It returns None; an exception from either call
    propagates.
  */
  function Creation(db: DB, name: string, stamp: Stamp): (r: Created)
    ensures r.id.None? ==> r.db == db && r.result.Err?
    ensures r.id.Some? ==> LastId(db, name).Some? && r.id.value == LastId(db, name).value + 1
    ensures r.result.Ok? ==> r.result.value == PyNone && r.id.Some?
  {
    var inc := Fields.StringIncrement(db, ClassKey(name, "last_id"), PyInt(1));
    IncrementDraws(db, name);
    if inc.result.Err? then Created(Err(inc.result.error), None, db)
    else
      var id := inc.result.value;
      var stamped := stamp(inc.db, InstanceKey(name, PyInt(id), "create_date"));
      Created(if stamped.result.Err? then Err(stamped.result.error) else Ok(PyNone), Some(id), stamped.db)
  }

  /** INCR of the counter: the id it draws is one past the counter, and on an error nothing is written. */
  lemma IncrementDraws(db: DB, name: string)
    ensures var inc := Fields.StringIncrement(db, ClassKey(name, "last_id"), PyInt(1));
      (inc.result.Ok? ==> LastId(db, name).Some? && inc.result.value == LastId(db, name).value + 1)
      && (inc.result.Err? ==> inc.db == db)
  {
    ParseInt64OfDecimal(1);
  }

  /** After a `Create` that drew an id, the counter holds that id, so the next draw is larger. */
  lemma CreationAdvancesCounter(db: DB, name: string, stamp: Stamp)
    requires Confined(stamp, ClassKey(name, "reg"))
    ensures var r := Creation(db, name, stamp);
      r.id.Some? ==> LastId(r.db, name) == r.id
  {
    var r := Creation(db, name, stamp);
    if r.id.Some? {
      var k := ClassKey(name, "last_id");
      var id := r.id.value;
      var inc := Fields.StringIncrement(db, k, PyInt(1));
      ParseInt64OfDecimal(id);
      assert inc.db[k] == StrEntry(Unicode.Encode(Decimal(id)));
      ClassKeysApart(name, "last_id", id, "create_date");
      assert ClassKey(name, "last_id") != ClassKey(name, "reg") by {
        assert ClassKey(name, "last_id")[|name| + 1] == 'l';
        assert ClassKey(name, "reg")[|name| + 1] == 'r';
      }
      assert r.db == stamp(inc.db, InstanceKey(name, PyInt(id), "create_date")).db;
    }
  }

  /** Two `Create`s in a row that both draw an id draw strictly increasing ids. */
  lemma CreateIdsIncrease(db: DB, name: string, stamp: Stamp)
    requires Confined(stamp, ClassKey(name, "reg"))
    ensures var first := Creation(db, name, stamp);
      var second := Creation(first.db, name, stamp);
      first.id.Some? && second.id.Some? ==> first.id.value < second.id.value
  {
    CreationAdvancesCounter(db, name, stamp);
  }

  /** `Create()` on the class's client. */
  method Create(c: ObjectClass, stamp: Stamp) returns (r: PyResult<Value>)
    requires c.Valid()
    modifies c.Client()
    ensures var created := Creation(old(c.Client().db), c.name, stamp);
      r == created.result && c.Client().db == created.db
  {
    var store := c.Client();
    var id := c.lastId.Increment(PyInt(1));
    if id.Err? {
      return Err(id.error);
    }
    var handle := NewEntity(c, PyInt(id.value));
    ParseDecimalOfDecimal(id.value);
    assert handle.Ok?;
    var stamped := stamp(store.db, handle.value.createDate.key);
    store.db := stamped.db;
    r := if stamped.result.Err? then Err(stamped.result.error) else Ok(PyNone);
  }

  // ---------------------------------------------------------------- get_object_encoder

  /**
    `encode(object)`: an instance of the class (AssertionError otherwise), given as `str(object)`.
    `isinstance` accepts instances of derived classes too: `classes` holds the name of the
    class and of every class derived from it.
  */
  function EncodeObject(classes: set<string>, v: Value): (r: PyResult<Value>)
    ensures r.Ok? <==> v.PyObject? && v.typeName in classes
    ensures r.Err? ==> r.error == AssertionError
    ensures r.Ok? ==> r.value == PyStr(Str(v))
  {
    if v.PyObject? && v.typeName in classes then Ok(PyStr(Str(v))) else Err(AssertionError)
  }

  /**
    `Object` defines no `__str__`, so what `encode` gives is the instance's type and address,
    never the decimal form of an id: `decode(encode(object))` asks `Get` about text that is
    no integer id.
  */
  lemma EncodedIsNoId(classes: set<string>, v: Value, i: int)
    requires EncodeObject(classes, v).Ok?
    ensures EncodeObject(classes, v).value.s[0] == '<'
    ensures EncodeObject(classes, v).value != PyStr(Str(PyInt(i)))
  {
    var d := Decimal(i);
    ParseDecimalOfDecimal(i);
    assert d[0] == '-' || '0' <= d[0] <= '9';
  }

  /** `decode(code)`: None for None, else `Get(code)`. */
  method DecodeObject(c: ObjectClass, code: Value) returns (r: PyResult<Option<Entity>>)
    requires c.Valid()
    ensures code.PyNone? ==> r == Ok(None)
    ensures !code.PyNone? ==>
      var reg := Registered(c.Client().db, ClassKey(c.name, "reg"), c.member, code);
      (reg.Err? ==> r == Err(reg.error))
      && (reg == Ok(false) ==> r == Ok(None))
      && (reg == Ok(true) && Str(code) == "" ==> r == Err(AssertionError))
      && (reg == Ok(true) && Str(code) != "" ==>
            r.Ok? && r.value.Some? && fresh(r.value.value) && r.value.value.objectId == code)
  {
    if code.PyNone? {
      return Ok(None);
    }
    r := Get(c, code);
  }
}
