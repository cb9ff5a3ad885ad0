/**
  An in-memory model of the one Redis key space the fields talk to, seen through
  redis-py 2.x (`Redis(..., decode_responses=False)`): every command the fields issue,
  its reply as the client returns it, its error replies, and the client's own
  encoding of Python arguments into octets.

  Each command is a function from the key space before to its reply and the key space
  after; `Store` holds the key space as a mutable field and offers one atomic method per
  command. Redis deletes a hash or set the moment it becomes empty; every command keeps
  the key space `WellFormed` in that sense.
*/
module Redis {
  import opened Wrappers
  import opened Unicode
  import opened Py

  type Key = string

  datatype Entry =
    | StrEntry(data: Bytes)
    | HashEntry(fields: map<Bytes, Bytes>)
    | SetEntry(members: set<Bytes>)
    | ZSetEntry(scores: map<Bytes, real>)

  type DB = map<Key, Entry>

  /** What a command returns and the key space it leaves behind. */
  datatype Reply<T> = Reply(result: PyResult<T>, db: DB)

  datatype Kind = StringKind | HashKind | SetKind | ZSetKind

  function KindOf(e: Entry): Kind {
    match e
    case StrEntry(_) => StringKind
    case HashEntry(_) => HashKind
    case SetEntry(_) => SetKind
    case ZSetEntry(_) => ZSetKind
  }

  /** The key holds a value of another type than the command works on. */
  predicate WrongKind(db: DB, k: Key, want: Kind) {
    k in db && KindOf(db[k]) != want
  }

  /** No empty hash, set or sorted set is ever stored. */
  predicate WellFormed(db: DB) {
    forall k :: k in db ==> match db[k]
      case StrEntry(_) => true
      case HashEntry(h) => h != map[]
      case SetEntry(s) => s != {}
      case ZSetEntry(z) => z != map[]
  }

  const WrongType := ResponseError("WRONGTYPE Operation against a key holding the wrong kind of value")
  const NotInteger := ResponseError("ERR value is not an integer or out of range")
  const Overflow := ResponseError("ERR increment or decrement would overflow")

  function WrongArity(command: string): Error {
    ResponseError("ERR wrong number of arguments for '" + command + "' command")
  }

  /** How redis-py 2.x sends an argument: bytes as they are, anything else as the UTF-8 of `str()`. */
  function ArgBytes(v: Value): (b: Bytes)
    ensures v.PyStr? ==> b == Unicode.Encode(v.s)
    ensures v.PyBytes? ==> b == v.data
  {
    match v
    case PyBytes(data) => data
    case _ => Unicode.Encode(Str(v))
  }

  // ---------------------------------------------------------------- integers

  const Int64Min := -0x8000_0000_0000_0000
  const Int64Max := 0x7FFF_FFFF_FFFF_FFFF

  predicate InInt64(n: int) {
    Int64Min <= n <= Int64Max
  }

  /** Octets read as Latin-1 characters, so that digits and the minus sign can be recognised. */
  function Latin1(b: Bytes): (s: string)
    ensures |s| == |b| && forall i :: 0 <= i < |b| ==> s[i] as int == b[i]
  {
    seq(|b|, i requires 0 <= i < |b| => b[i] as char)
  }

  /** The syntax Redis's `string2ll` accepts: "0", or an optional minus sign and digits without a leading zero. */
  predicate Canonical(s: string) {
    s == "0"
    || (|s| >= 2 && s[0] == '-' && '1' <= s[1] <= '9' && IsDigits(s[1..]))
    || (|s| >= 1 && '1' <= s[0] <= '9' && IsDigits(s))
  }

  /** Redis's `string2ll`: the signed 64-bit integer the octets spell, if they spell one. */
  function ParseInt64(b: Bytes): (r: Option<int>)
    ensures r.Some? ==> InInt64(r.value)
  {
    var s := Latin1(b);
    if Canonical(s) && InInt64(ParseDecimal(s)) then Some(ParseDecimal(s)) else None
  }

  lemma DecimalIsAscii(n: int)
    ensures IsAscii(Decimal(n)) && Canonical(Decimal(n))
  {
    var d := NatDecimal(if n < 0 then -n else n);
    assert forall i :: 0 <= i < |d| ==> d[i] as int < 0x80;
    if n < 0 {
      assert Decimal(n)[1..] == d;
    }
  }

  /** A 64-bit integer written in decimal by Redis reads back as itself. */
  lemma ParseInt64OfDecimal(n: int)
    requires InInt64(n)
    ensures ParseInt64(Unicode.Encode(Decimal(n))) == Some(n)
  {
    DecimalIsAscii(n);
    EncodeAscii(Decimal(n));
    assert Latin1(Unicode.Encode(Decimal(n))) == Decimal(n);
    ParseDecimalOfDecimal(n);
  }

  // ---------------------------------------------------------------- keys and strings

  function ExistsCmd(db: DB, k: Key): bool {
    k in db
  }

  /** DEL with one key: 1 if the key held anything, and the key is gone whatever it held. */
  function DelCmd(db: DB, k: Key): (r: Reply<int>)
    ensures r.result == Ok(if k in db then 1 else 0)
    ensures k !in r.db && forall j :: j != k ==> (j in r.db <==> j in db) && (j in db ==> r.db[j] == db[j])
    ensures WellFormed(db) ==> WellFormed(r.db)
  {
    Reply(Ok(if k in db then 1 else 0), db - {k})
  }

  function GetCmd(db: DB, k: Key): (r: PyResult<Option<Bytes>>)
    ensures r == Ok(None) <==> k !in db
    ensures r.Err? <==> WrongKind(db, k, StringKind)
    ensures r.Ok? && r.value.Some? ==> db[k] == StrEntry(r.value.value)
  {
    if k !in db then Ok(None)
    else if db[k].StrEntry? then Ok(Some(db[k].data))
    else Err(WrongType)
  }

  /** SET replaces whatever the key held; the client reports True. */
  function SetCmd(db: DB, k: Key, v: Bytes): (r: Reply<bool>)
    ensures r.result == Ok(true) && GetCmd(r.db, k) == Ok(Some(v))
    ensures forall j :: j != k ==> (j in r.db <==> j in db) && (j in db ==> r.db[j] == db[j])
    ensures WellFormed(db) ==> WellFormed(r.db)
  {
    Reply(Ok(true), db[k := StrEntry(v)])
  }

  /** SETNX writes only into an absent key and says whether it did. */
  function SetNxCmd(db: DB, k: Key, v: Bytes): (r: Reply<bool>)
    ensures r.result == Ok(k !in db)
    ensures k in db ==> r.db == db
    ensures k !in db ==> r.db == SetCmd(db, k, v).db
    ensures WellFormed(db) ==> WellFormed(r.db)
  {
    if k in db then Reply(Ok(false), db) else Reply(Ok(true), db[k := StrEntry(v)])
  }

  /**
    INCRBY: the increment is parsed first, then the key must hold a string (an absent key
    counts as 0) that parses as a 64-bit integer, and the sum must stay in range.
  */
  function IncrByCmd(db: DB, k: Key, amount: Bytes): (r: Reply<int>)
    ensures r.result.Ok? <==>
      ParseInt64(amount).Some? && !WrongKind(db, k, StringKind)
      && (k in db ==> ParseInt64(db[k].data).Some?)
      && InInt64((if k in db then ParseInt64(db[k].data).value else 0) + ParseInt64(amount).value)
    ensures r.result.Ok? ==>
      r.result.value == (if k in db then ParseInt64(db[k].data).value else 0) + ParseInt64(amount).value
      && r.db == db[k := StrEntry(Unicode.Encode(Decimal(r.result.value)))]
    ensures r.result.Err? ==> r.db == db
    ensures WellFormed(db) ==> WellFormed(r.db)
  {
    match ParseInt64(amount)
    case None => Reply(Err(NotInteger), db)
    case Some(incr) =>
      if WrongKind(db, k, StringKind) then Reply(Err(WrongType), db)
      else
        var current := if k in db then ParseInt64(db[k].data) else Some(0);
        match current
        case None => Reply(Err(NotInteger), db)
        case Some(n) =>
          if !InInt64(n + incr) then Reply(Err(Overflow), db)
          else Reply(Ok(n + incr), db[k := StrEntry(Unicode.Encode(Decimal(n + incr)))])
  }

  /** After a successful INCRBY the key reads back as the decimal of the new count, which parses to it. */
  lemma IncrByThenGet(db: DB, k: Key, amount: Bytes)
    requires IncrByCmd(db, k, amount).result.Ok?
    ensures var r := IncrByCmd(db, k, amount);
      GetCmd(r.db, k).Ok? && GetCmd(r.db, k).value.Some?
      && ParseInt64(GetCmd(r.db, k).value.value) == Some(r.result.value)
  {
    ParseInt64OfDecimal(IncrByCmd(db, k, amount).result.value);
  }

  // ---------------------------------------------------------------- hashes

  function HashOf(db: DB, k: Key): map<Bytes, Bytes> {
    if k in db && db[k].HashEntry? then db[k].fields else map[]
  }

  /** HSET: 1 for a new name, 0 for a replaced one; the name holds the value afterwards. */
  function HSetCmd(db: DB, k: Key, f: Bytes, v: Bytes): (r: Reply<int>)
    ensures r.result.Err? <==> WrongKind(db, k, HashKind)
    ensures r.result.Err? ==> r.db == db
    ensures r.result.Ok? ==> (r.result.value == (if f in HashOf(db, k) then 0 else 1)
      && k in r.db && HashOf(r.db, k) == HashOf(db, k)[f := v])
    ensures forall j :: j != k ==> (j in r.db <==> j in db) && (j in db ==> r.db[j] == db[j])
    ensures WellFormed(db) ==> WellFormed(r.db)
  {
    if WrongKind(db, k, HashKind) then Reply(Err(WrongType), db)
    else
      var h := HashOf(db, k);
      Reply(Ok(if f in h then 0 else 1), db[k := HashEntry(h[f := v])])
  }

  /** HSETNX: writes only a name not yet present; 1 if it wrote, else 0 and nothing changes. */
  function HSetNxCmd(db: DB, k: Key, f: Bytes, v: Bytes): (r: Reply<int>)
    ensures r.result.Err? <==> WrongKind(db, k, HashKind)
    ensures r.result.Ok? ==> r.result.value == (if f in HashOf(db, k) then 0 else 1)
    ensures r.result.Ok? && f !in HashOf(db, k) ==> r.db == HSetCmd(db, k, f, v).db
    ensures r.result.Err? || f in HashOf(db, k) ==> r.db == db
    ensures WellFormed(db) ==> WellFormed(r.db)
  {
    if WrongKind(db, k, HashKind) then Reply(Err(WrongType), db)
    else if f in HashOf(db, k) then Reply(Ok(0), db)
    else Reply(Ok(1), db[k := HashEntry(HashOf(db, k)[f := v])])
  }

  /** Pairs written in argument order, so that a later pair for the same name wins. */
  function Assign(h: map<Bytes, Bytes>, pairs: seq<(Bytes, Bytes)>): (r: map<Bytes, Bytes>)
    ensures forall f :: f in r <==> f in h || exists i :: 0 <= i < |pairs| && pairs[i].0 == f
    decreases |pairs|
  {
    if pairs == [] then h else Assign(h[pairs[0].0 := pairs[0].1], pairs[1..])
  }

  /** A name no pair assigns keeps the value it had. */
  lemma {:induction false} AssignUntouched(h: map<Bytes, Bytes>, pairs: seq<(Bytes, Bytes)>, f: Bytes)
    requires forall i :: 0 <= i < |pairs| ==> pairs[i].0 != f
    ensures f in h ==> Assign(h, pairs)[f] == h[f]
    decreases |pairs|
  {
    if pairs != [] {
      forall i | 0 <= i < |pairs[1..]| ensures pairs[1..][i].0 != f {
        assert pairs[1..][i] == pairs[i + 1];
      }
      AssignUntouched(h[pairs[0].0 := pairs[0].1], pairs[1..], f);
    }
  }

  /** The last pair that assigns a name decides the value it holds. */
  lemma {:induction false} AssignLastWins(h: map<Bytes, Bytes>, pairs: seq<(Bytes, Bytes)>, i: int)
    requires 0 <= i < |pairs|
    requires forall j :: i < j < |pairs| ==> pairs[j].0 != pairs[i].0
    ensures pairs[i].0 in Assign(h, pairs) && Assign(h, pairs)[pairs[i].0] == pairs[i].1
    decreases |pairs|
  {
    var rest := pairs[1..];
    assert forall j :: 0 <= j < |rest| ==> rest[j] == pairs[j + 1];
    if i == 0 {
      AssignUntouched(h[pairs[0].0 := pairs[0].1], rest, pairs[0].0);
    } else {
      AssignLastWins(h[pairs[0].0 := pairs[0].1], rest, i - 1);
    }
  }

  /** HMSET: redis-py refuses an empty mapping before sending; otherwise every pair is written. */
  function HMSetCmd(db: DB, k: Key, pairs: seq<(Bytes, Bytes)>): (r: Reply<bool>)
    ensures r.result == Err(DataError) <==> pairs == []
    ensures r.result.Ok? <==> pairs != [] && !WrongKind(db, k, HashKind)
    ensures r.result.Ok? ==> r.result.value && k in r.db && HashOf(r.db, k) == Assign(HashOf(db, k), pairs)
    ensures r.result.Err? ==> r.db == db
    ensures forall j :: j != k ==> (j in r.db <==> j in db) && (j in db ==> r.db[j] == db[j])
    ensures WellFormed(db) ==> WellFormed(r.db)
  {
    if pairs == [] then Reply(Err(DataError), db)
    else if WrongKind(db, k, HashKind) then Reply(Err(WrongType), db)
    else
      assert pairs[0].0 in Assign(HashOf(db, k), pairs);
      Reply(Ok(true), db[k := HashEntry(Assign(HashOf(db, k), pairs))])
  }

  function HGetCmd(db: DB, k: Key, f: Bytes): (r: PyResult<Option<Bytes>>)
    ensures r.Err? <==> WrongKind(db, k, HashKind)
    ensures r.Ok? ==> r.value == if f in HashOf(db, k) then Some(HashOf(db, k)[f]) else None
  {
    if WrongKind(db, k, HashKind) then Err(WrongType)
    else if f in HashOf(db, k) then Ok(Some(HashOf(db, k)[f]))
    else Ok(None)
  }

  function HGetAllCmd(db: DB, k: Key): (r: PyResult<map<Bytes, Bytes>>)
    ensures r.Err? <==> WrongKind(db, k, HashKind)
    ensures r.Ok? ==> r.value == HashOf(db, k)
  {
    if WrongKind(db, k, HashKind) then Err(WrongType) else Ok(HashOf(db, k))
  }

  function HExistsCmd(db: DB, k: Key, f: Bytes): (r: PyResult<bool>)
    ensures r.Err? <==> WrongKind(db, k, HashKind)
    ensures r.Ok? ==> r.value == (f in HashOf(db, k))
  {
    if WrongKind(db, k, HashKind) then Err(WrongType) else Ok(f in HashOf(db, k))
  }

  function HLenCmd(db: DB, k: Key): (r: PyResult<int>)
    ensures r.Err? <==> WrongKind(db, k, HashKind)
    ensures r.Ok? ==> r.value == |HashOf(db, k)|
  {
    if WrongKind(db, k, HashKind) then Err(WrongType) else Ok(|HashOf(db, k)|)
  }

  /** HDEL with one name: 1 if it was there; a hash left empty disappears. */
  function HDelCmd(db: DB, k: Key, f: Bytes): (r: Reply<int>)
    ensures r.result.Err? <==> WrongKind(db, k, HashKind)
    ensures r.result.Ok? ==> (r.result.value == (if f in HashOf(db, k) then 1 else 0)
      && HashOf(r.db, k) == HashOf(db, k) - {f}
      && (WellFormed(db) ==> (k in r.db <==> HashOf(r.db, k) != map[])))
    ensures r.result.Err? ==> r.db == db
    ensures forall j :: j != k ==> (j in r.db <==> j in db) && (j in db ==> r.db[j] == db[j])
    ensures WellFormed(db) ==> WellFormed(r.db)
  {
    if WrongKind(db, k, HashKind) then Reply(Err(WrongType), db)
    else if f !in HashOf(db, k) then Reply(Ok(0), db)
    else
      var h := HashOf(db, k) - {f};
      Reply(Ok(1), if h == map[] then db - {k} else db[k := HashEntry(h)])
  }

  // ---------------------------------------------------------------- sets

  function SetOf(db: DB, k: Key): set<Bytes> {
    if k in db && db[k].SetEntry? then db[k].members else {}
  }

  function Elements(ms: seq<Bytes>): set<Bytes> {
    set m | m in ms
  }

  lemma UnionCount(s: set<Bytes>, t: set<Bytes>)
    ensures |s + t| == |s| + |t - s|
  {
    assert s + t == s + (t - s);
    assert s !! (t - s);
  }

  lemma DifferenceCount(s: set<Bytes>, t: set<Bytes>)
    ensures |s - t| == |s| - |s * t|
  {
    assert s == (s - t) + (s * t);
    assert (s - t) !! (s * t);
  }

  /** SADD: counts the members that were not there; all of them are members afterwards. */
  function SAddCmd(db: DB, k: Key, ms: seq<Bytes>): (r: Reply<int>)
    ensures ms == [] ==> r.result == Err(WrongArity("sadd")) && r.db == db
    ensures r.result.Ok? <==> ms != [] && !WrongKind(db, k, SetKind)
    ensures r.result.Ok? ==> (SetOf(r.db, k) == SetOf(db, k) + Elements(ms)
      && r.result.value == |SetOf(r.db, k)| - |SetOf(db, k)|)
    ensures r.result.Err? ==> r.db == db
    ensures forall j :: j != k ==> (j in r.db <==> j in db) && (j in db ==> r.db[j] == db[j])
    ensures WellFormed(db) ==> WellFormed(r.db)
  {
    if ms == [] then Reply(Err(WrongArity("sadd")), db)
    else if WrongKind(db, k, SetKind) then Reply(Err(WrongType), db)
    else
      var s := SetOf(db, k);
      UnionCount(s, Elements(ms));
      assert ms[0] in s + Elements(ms);
      Reply(Ok(|Elements(ms) - s|), db[k := SetEntry(s + Elements(ms))])
  }

  /** SREM: counts the members actually removed; no other member changes; an emptied set disappears. */
  function SRemCmd(db: DB, k: Key, ms: seq<Bytes>): (r: Reply<int>)
    ensures ms == [] ==> r.result == Err(WrongArity("srem")) && r.db == db
    ensures r.result.Ok? <==> ms != [] && !WrongKind(db, k, SetKind)
    ensures r.result.Ok? ==> (SetOf(r.db, k) == SetOf(db, k) - Elements(ms)
      && r.result.value == |SetOf(db, k)| - |SetOf(r.db, k)|
      && (k in r.db <==> k in db && SetOf(r.db, k) != {}))
    ensures r.result.Err? ==> r.db == db
    ensures forall j :: j != k ==> (j in r.db <==> j in db) && (j in db ==> r.db[j] == db[j])
    ensures WellFormed(db) ==> WellFormed(r.db)
  {
    if ms == [] then Reply(Err(WrongArity("srem")), db)
    else if WrongKind(db, k, SetKind) then Reply(Err(WrongType), db)
    else
      var s := SetOf(db, k);
      var left := s - Elements(ms);
      DifferenceCount(s, Elements(ms));
      Reply(Ok(|s * Elements(ms)|), if left == {} then db - {k} else db[k := SetEntry(left)])
  }

  function SMembersCmd(db: DB, k: Key): (r: PyResult<set<Bytes>>)
    ensures r.Err? <==> WrongKind(db, k, SetKind)
    ensures r.Ok? ==> r.value == SetOf(db, k)
  {
    if WrongKind(db, k, SetKind) then Err(WrongType) else Ok(SetOf(db, k))
  }

  function SCardCmd(db: DB, k: Key): (r: PyResult<int>)
    ensures r.Err? <==> WrongKind(db, k, SetKind)
    ensures r.Ok? ==> r.value == |SetOf(db, k)|
  {
    if WrongKind(db, k, SetKind) then Err(WrongType) else Ok(|SetOf(db, k)|)
  }

  function SIsMemberCmd(db: DB, k: Key, m: Bytes): (r: PyResult<bool>)
    ensures r.Err? <==> WrongKind(db, k, SetKind)
    ensures r.Ok? ==> r.value == (m in SetOf(db, k))
  {
    if WrongKind(db, k, SetKind) then Err(WrongType) else Ok(m in SetOf(db, k))
  }

  /** SRANDMEMBER without a count: None for a missing key, otherwise some member. */
  predicate SRandMemberAllows(db: DB, k: Key, r: PyResult<Option<Bytes>>) {
    if WrongKind(db, k, SetKind) then r == Err(WrongType)
    else r.Ok? && (r.value.None? <==> SetOf(db, k) == {}) && (r.value.Some? ==> r.value.value in SetOf(db, k))
  }

  /** `s` lists the members of `t`, each exactly once, in some order. */
  predicate Enumerates(s: seq<Bytes>, t: set<Bytes>) {
    (forall i, j :: 0 <= i < j < |s| ==> s[i] != s[j]) && (forall x :: x in s ==> x in t) && (forall x :: x in t ==> x in s)
  }

  /**
    SRANDMEMBER with a count: a positive count asks for that many distinct members (the
    whole set when it is smaller); a negative one for exactly that many draws with
    repetition; zero for none. A count outside 64 bits is refused.
  */
  predicate SRandMembersAllows(db: DB, k: Key, count: int, r: PyResult<seq<Bytes>>) {
    if !InInt64(count) then r == Err(NotInteger)
    else if WrongKind(db, k, SetKind) then r == Err(WrongType)
    else
      r.Ok? && (forall i :: 0 <= i < |r.value| ==> r.value[i] in SetOf(db, k))
      && (count >= 0 ==>
            (forall i, j :: 0 <= i < j < |r.value| ==> r.value[i] != r.value[j])
            && |r.value| == if count < |SetOf(db, k)| then count else |SetOf(db, k)|)
      && (count < 0 ==> |r.value| == if SetOf(db, k) == {} then 0 else -count)
  }

  /** SPOP: None for a missing key, otherwise a member, which is removed. */
  predicate SPopAllows(db: DB, k: Key, r: Reply<Option<Bytes>>) {
    if WrongKind(db, k, SetKind) then r == Reply(Err(WrongType), db)
    else if SetOf(db, k) == {} then r == Reply(Ok(None), db)
    else
      r.result.Ok? && r.result.value.Some? && r.result.value.value in SetOf(db, k)
      && r.db == SRemCmd(db, k, [r.result.value.value]).db
  }

  // ---------------------------------------------------------------- sorted sets

  function ZSetOf(db: DB, k: Key): map<Bytes, real> {
    if k in db && db[k].ZSetEntry? then db[k].scores else map[]
  }

  /** ZSCORE: the member's score, or None. */
  function ZScoreCmd(db: DB, k: Key, m: Bytes): (r: PyResult<Option<real>>)
    ensures r.Err? <==> WrongKind(db, k, ZSetKind)
    ensures r.Ok? ==> (r.value.Some? <==> m in ZSetOf(db, k))
  {
    if WrongKind(db, k, ZSetKind) then Err(WrongType)
    else if m in ZSetOf(db, k) then Ok(Some(ZSetOf(db, k)[m]))
    else Ok(None)
  }

  // ---------------------------------------------------------------- the store

  /** A list of the members of `t` in an order the caller does not choose. */
  method Enumerate(t: set<Bytes>) returns (s: seq<Bytes>)
    ensures Enumerates(s, t) && |s| == |t|
  {
    s := [];
    var rest := t;
    while rest != {}
      invariant rest <= t
      invariant forall x :: x in t ==> (x in s <==> x !in rest)
      invariant forall x :: x in s ==> x in t
      invariant forall i, j :: 0 <= i < j < |s| ==> s[i] != s[j]
      invariant |s| + |rest| == |t|
      decreases |rest|
    {
      var x :| x in rest;
      s := s + [x];
      rest := rest - {x};
    }
  }

  /** The server behind one client: one key space, changed in place by each command. */
  class Store {
    var db: DB

    constructor ()
      ensures db == map[]
    {
      db := map[];
    }

    method Exists(k: Key) returns (r: bool)
      ensures r == (k in db)
    {
      r := k in db;
    }

    method Delete(k: Key) returns (r: int)
      modifies this
      ensures Reply(Ok(r), db) == DelCmd(old(db), k)
    {
      var reply := DelCmd(db, k);
      r, db := reply.result.value, reply.db;
    }

    method Get(k: Key) returns (r: PyResult<Option<Bytes>>)
      ensures r == GetCmd(db, k)
    {
      r := GetCmd(db, k);
    }

    method Set(k: Key, v: Bytes) returns (r: PyResult<bool>)
      modifies this
      ensures Reply(r, db) == SetCmd(old(db), k, v)
    {
      var reply := SetCmd(db, k, v);
      r, db := reply.result, reply.db;
    }

    method SetNx(k: Key, v: Bytes) returns (r: PyResult<bool>)
      modifies this
      ensures Reply(r, db) == SetNxCmd(old(db), k, v)
    {
      var reply := SetNxCmd(db, k, v);
      r, db := reply.result, reply.db;
    }

    method IncrBy(k: Key, amount: Bytes) returns (r: PyResult<int>)
      modifies this
      ensures Reply(r, db) == IncrByCmd(old(db), k, amount)
    {
      var reply := IncrByCmd(db, k, amount);
      r, db := reply.result, reply.db;
    }

    method HSet(k: Key, f: Bytes, v: Bytes) returns (r: PyResult<int>)
      modifies this
      ensures Reply(r, db) == HSetCmd(old(db), k, f, v)
    {
      var reply := HSetCmd(db, k, f, v);
      r, db := reply.result, reply.db;
    }

    method HSetNx(k: Key, f: Bytes, v: Bytes) returns (r: PyResult<int>)
      modifies this
      ensures Reply(r, db) == HSetNxCmd(old(db), k, f, v)
    {
      var reply := HSetNxCmd(db, k, f, v);
      r, db := reply.result, reply.db;
    }

    method HMSet(k: Key, pairs: seq<(Bytes, Bytes)>) returns (r: PyResult<bool>)
      modifies this
      ensures Reply(r, db) == HMSetCmd(old(db), k, pairs)
    {
      var reply := HMSetCmd(db, k, pairs);
      r, db := reply.result, reply.db;
    }

    method HGet(k: Key, f: Bytes) returns (r: PyResult<Option<Bytes>>)
      ensures r == HGetCmd(db, k, f)
    {
      r := HGetCmd(db, k, f);
    }

    method HGetAll(k: Key) returns (r: PyResult<map<Bytes, Bytes>>)
      ensures r == HGetAllCmd(db, k)
    {
      r := HGetAllCmd(db, k);
    }

    /** HKEYS: every name once, in the server's order. */
    method HKeys(k: Key) returns (r: PyResult<seq<Bytes>>)
      ensures r.Err? <==> WrongKind(db, k, HashKind)
      ensures r.Err? ==> r.error == WrongType
      ensures r.Ok? ==> Enumerates(r.value, HashOf(db, k).Keys)
    {
      if WrongKind(db, k, HashKind) {
        return Err(WrongType);
      }
      var names := Enumerate(HashOf(db, k).Keys);
      r := Ok(names);
    }

    /** HVALS: the value of every name once, in the server's order of the names. */
    method HVals(k: Key) returns (r: PyResult<seq<Bytes>>, ghost order: seq<Bytes>)
      ensures r.Err? <==> WrongKind(db, k, HashKind)
      ensures r.Err? ==> r.error == WrongType
      ensures r.Ok? ==> (Enumerates(order, HashOf(db, k).Keys) && |r.value| == |order|
        && forall i :: 0 <= i < |order| ==> r.value[i] == HashOf(db, k)[order[i]])
    {
      if WrongKind(db, k, HashKind) {
        return Err(WrongType), [];
      }
      var h := HashOf(db, k);
      var names := Enumerate(h.Keys);
      order := names;
      r := Ok(seq(|names|, i requires 0 <= i < |names| => h[names[i]]));
    }

    method HExists(k: Key, f: Bytes) returns (r: PyResult<bool>)
      ensures r == HExistsCmd(db, k, f)
    {
      r := HExistsCmd(db, k, f);
    }

    method HDel(k: Key, f: Bytes) returns (r: PyResult<int>)
      modifies this
      ensures Reply(r, db) == HDelCmd(old(db), k, f)
    {
      var reply := HDelCmd(db, k, f);
      r, db := reply.result, reply.db;
    }

    method HLen(k: Key) returns (r: PyResult<int>)
      ensures r == HLenCmd(db, k)
    {
      r := HLenCmd(db, k);
    }

    method SAdd(k: Key, ms: seq<Bytes>) returns (r: PyResult<int>)
      modifies this
      ensures Reply(r, db) == SAddCmd(old(db), k, ms)
    {
      var reply := SAddCmd(db, k, ms);
      r, db := reply.result, reply.db;
    }

    method SRem(k: Key, ms: seq<Bytes>) returns (r: PyResult<int>)
      modifies this
      ensures Reply(r, db) == SRemCmd(old(db), k, ms)
    {
      var reply := SRemCmd(db, k, ms);
      r, db := reply.result, reply.db;
    }

    method SMembers(k: Key) returns (r: PyResult<set<Bytes>>)
      ensures r == SMembersCmd(db, k)
    {
      r := SMembersCmd(db, k);
    }

    method SCard(k: Key) returns (r: PyResult<int>)
      ensures r == SCardCmd(db, k)
    {
      r := SCardCmd(db, k);
    }

    method SIsMember(k: Key, m: Bytes) returns (r: PyResult<bool>)
      ensures r == SIsMemberCmd(db, k, m)
    {
      r := SIsMemberCmd(db, k, m);
    }

    method SRandMember(k: Key) returns (r: PyResult<Option<Bytes>>)
      ensures SRandMemberAllows(db, k, r)
    {
      if WrongKind(db, k, SetKind) {
        return Err(WrongType);
      }
      var s := SetOf(db, k);
      if s == {} {
        return Ok(None);
      }
      var m :| m in s;
      r := Ok(Some(m));
    }

    method SRandMembers(k: Key, count: int) returns (r: PyResult<seq<Bytes>>)
      ensures SRandMembersAllows(db, k, count, r)
    {
      if !InInt64(count) {
        return Err(NotInteger);
      }
      if WrongKind(db, k, SetKind) {
        return Err(WrongType);
      }
      var s := SetOf(db, k);
      var picked: seq<Bytes> := [];
      if count >= 0 {
        var rest := s;
        while |picked| < count && rest != {}
          invariant rest <= s
          invariant forall x :: x in picked ==> x in s && x !in rest
          invariant forall i, j :: 0 <= i < j < |picked| ==> picked[i] != picked[j]
          invariant |picked| + |rest| == |s|
          invariant |picked| <= count
          decreases |rest|
        {
          var x :| x in rest;
          picked := picked + [x];
          rest := rest - {x};
        }
      } else if s != {} {
        while |picked| < -count
          invariant forall i :: 0 <= i < |picked| ==> picked[i] in s
          invariant |picked| <= -count
          decreases -count - |picked|
        {
          var x :| x in s;
          picked := picked + [x];
        }
      }
      r := Ok(picked);
    }

    method SPop(k: Key) returns (r: PyResult<Option<Bytes>>)
      modifies this
      ensures SPopAllows(old(db), k, Reply(r, db))
    {
      if WrongKind(db, k, SetKind) {
        return Err(WrongType);
      }
      var s := SetOf(db, k);
      if s == {} {
        return Ok(None);
      }
      var m :| m in s;
      db := SRemCmd(db, k, [m]).db;
      r := Ok(Some(m));
    }

    method ZScore(k: Key, m: Bytes) returns (r: PyResult<Option<real>>)
      ensures r == ZScoreCmd(db, k, m)
    {
      r := ZScoreCmd(db, k, m);
    }
  }
}
