# orewrap in Dafny

orewrap maps Python objects onto Redis keys. A *field* names one key. Every value is
passed through a *converter* (or, in the earlier revision of the library, a
*serializer*) on its way to and from the Redis client:

- a `StringField` holds one value;
- a `HashField` holds name-value pairs;
- a `SetField` holds a set of members;
- an `Object` subclass gives each instance fields under keys derived from the class name
  and the instance's id.

This project models that core and proves what it promises:

- round trips through converters and pipelines of them;
- the order in which a pipeline applies its stages;
- what each field operation writes to the key space and what it reads back;
- what it leaves alone;
- the errors it raises.

The versions modelled:

- Python 3.8 or later. A dict comprehension computes each key before its value, which decides the error `set_multi` and `members` raise when both conversions fail.
- redis-py 2.x as the client.
- Redis 4.0 or later as the server. Integers are parsed the way `string2ll` parses them, so INCRBY refuses forms such as `+5` or `007`. Type errors are the `WRONGTYPE` reply.

The modules, one per concept:

| module | file | models |
|---|---|---|
| `Wrappers` | wrappers.dfy | `Option` and `Result` |
| `Unicode` | unicode.dfy | strict UTF-8 (RFC 3629), as `str.encode`/`bytes.decode` use it |
| `Py` | python.dfy | Python values: `str()`, decimal text, ASCII `lower()`, exceptions, the codec record `Codec(encode, decode)` |
| `Pipeline` | pipeline.dfy | a chain of codecs: encoders front to back, decoders back to front |
| `Redis` | redis.dfy | the commands the fields send (redis-py 2.x against one Redis server), as functions from the key space before the call to the reply and the key space after it, and a `Store` class whose methods update its `db` in place |
| `Encoders` | encoders.dfy | `orewrap/encoders.py` |
| `Converters` | converters.dfy | `orewrap/conversters.py` |
| `Serializers` | serializers.dfy | `orewrap/serializers.py` |
| `Serializer` | serializer.dfy | `orewrap/serializer.py` |
| `Fields` | fields.dfy | `orewrap/fields.py` |
| `LegacyField` | legacy_field.dfy | `orewrap/field.py` |
| `Objects` | objects.dfy | `orewrap/object.py` |

How the field classes are modelled:

- Field classes are Dafny classes over a shared `Store`.
- Each mutating method has a `modifies` clause and is proved equal to a function of the
  old key space.
- The properties are proved about those functions.
- The earlier revision (`field.py`) reuses the same field classes with a serializer seen
  as a never-failing codec (`LegacyField.AsCodec`).
- Its `set_multi` is modelled twice: once as written and once as evidently intended.

Three behaviours follow the code rather than what its structure suggests:

- A missing encoder or decoder acts as the identity in `Encoder` (`encoders.py:7-8`), but not in `Converter`: it stores `None`, and calling it raises TypeError (`Converters.MissingDecoderFails`).
- The `None` filter of `ConvertQueue` and `EncodeQueue` tests bound methods, which are never `None`, so it removes nothing.
- A `set_multi` without overwrite never writes pairs with HSETNX:
  - `fields.py` calls `hmsetnx`, which the redis-py client does not have, so it raises AttributeError;
  - `field.py` calls `pipline()`, which raises AttributeError before anything is sent (see Findings).

## Model

| member | source | states |
|---|---|---|
| Encoders.DefaultEncoderIsIdentity | orewrap/encoders.py:5-14 | an `Encoder()` built with neither callable encodes and decodes every value to itself, so it round-trips |
| Encoders.Encoder | orewrap/encoders.py:5-14 | definition: each given callable replaces its method, and a missing one leaves the identity |
| Encoders.EncoderUsesGiven | orewrap/encoders.py:6-8 | a given callable replaces exactly the method it is given for; the other stays the identity |
| Encoders.EmptyQueueIsIdentity | orewrap/encoders.py:17-28 | an `EncodeQueue()` of no stages is the identity both ways |
| Encoders.EncodeQueue | orewrap/encoders.py:17-28 | definition: the queue is the pipeline of its stages' bound methods; its order is QueueOrder's |
| Encoders.QueueOrder | orewrap/encoders.py:21-28 | in a two-stage queue the first stage encodes first and the second stage decodes first; an exception from the first step is returned unchanged |
| Encoders.QueueRoundTrips | orewrap/encoders.py:17-28 | a queue whose every stage round-trips round-trips itself |
| Encoders.NestedQueueFlattens | orewrap/encoders.py:21-28 | a queue used as a stage of another queue behaves as its stages spliced in, both ways |
| Encoders.StringEncoderRoundTrip | orewrap/encoders.py:31-34 | the encode never fails, and decoding what it gave yields `str(value)`; a str comes back as itself |
| Encoders.StrToUtf8 | orewrap/encoders.py:32 | definition: `str(value).encode('utf-8')`, which never raises |
| Encoders.Utf8ToStr | orewrap/encoders.py:33 | definition: `code.decode('utf-8')`, AttributeError for anything but bytes |
| Encoders.StringEncoderDecodeFails | orewrap/encoders.py:33 | decoding succeeds exactly on bytes that are well-formed UTF-8; anything else raises AttributeError; malformed bytes raise UnicodeDecodeError |
| Encoders.LowercaseEncoderLossy | orewrap/encoders.py:37-40 | decode is the identity and encode lower-cases; a str round-trips exactly when it has no upper-case letter |
| Encoders.LowerStr | orewrap/encoders.py:37-40 | definition: `str(value).lower()`, which never raises |
| Encoders.Hexlify | orewrap/encoders.py:53 | base-16 output is twice as long as the input and made of upper-case hexadecimal digits only |
| Encoders.B16Encode | orewrap/encoders.py:53 | definition: `b16encode` of bytes, TypeError for anything else |
| Encoders.B16Decode | orewrap/encoders.py:53 | definition: `b16decode` of bytes or an ASCII str; its refusals are Base16Rejects's |
| Encoders.Unhexlify | orewrap/encoders.py:53 | decoding valid base-16 text halves its length |
| Encoders.UnhexlifyHexlify | orewrap/encoders.py:53 | the output of `b16encode` is valid base-16, and `b16decode` of it gives back the bytes |
| Encoders.HexlifyUnhexlify | orewrap/encoders.py:53 | re-encoding decoded valid base-16 text gives the text back |
| Encoders.Base16RoundTrips | orewrap/encoders.py:53 | `base16_encoder` round-trips every value it can encode, and its decode accepts exactly the bytes that are the encoding of something |
| Encoders.Base16Rejects | orewrap/encoders.py:53 | bytes raise ValueError (`binascii.Error`) exactly when they are not even-length upper-case base 16, so every lower-case digit and every odd length does; a non-ASCII str raises ValueError; a value that is neither bytes nor str raises TypeError |
| Encoders.TextBase16RoundTrip | orewrap/encoders.py:24-34 | a queue of `string_encoder` then `base16_encoder` round-trips every str |
| Pipeline.Reverse | orewrap/encoders.py:22 | `reversed()` keeps the length |
| Pipeline.ReverseAt | orewrap/encoders.py:22 | element `i` of the reversal is element `n-1-i` of the original |
| Pipeline.Encoders | orewrap/conversters.py:19 | the encoder list has one entry per stage, in stage order |
| Pipeline.Decoders | orewrap/conversters.py:20 | the decoder list has one entry per stage of the sequence it is built from |
| Pipeline.ChainFailsAt | orewrap/conversters.py:33-34 | a stage that always raises makes the whole loop raise, whatever the other stages do |
| Pipeline.ChainAppend | orewrap/conversters.py:25-26 | running two lists of stages one after the other is running the first, then the second on its result, with the first exception propagating |
| Pipeline.EncodeCons | orewrap/encoders.py:24-25 | encoding with a stage put in front runs that stage first |
| Pipeline.EncodeSnoc | orewrap/encoders.py:24-25 | encoding with a stage put at the end runs that stage last |
| Pipeline.DecodeCons | orewrap/encoders.py:27-28 | decoding with a stage put in front runs that stage last |
| Pipeline.DecodeSnoc | orewrap/encoders.py:27-28 | decoding with a stage put at the end runs that stage first |
| Pipeline.EmptyIsIdentity | orewrap/conversters.py:22-36 | with no stages both loops return their input |
| Pipeline.RoundTrip | orewrap/conversters.py:22-36 | if each stage recovers the value it received while encoding, decoding the pipeline's code recovers the original value |
| Pipeline.RoundTripAll | orewrap/conversters.py:15-36 | a pipeline of round-tripping stages round-trips |
| Pipeline.Flatten | orewrap/conversters.py:15-36 | a composed pipeline used as a stage equals its stages spliced in, both ways |
| Converters.Converter.Encode | orewrap/conversters.py:8-9 | calls the stored encoder; a missing one raises TypeError |
| Converters.Converter.Decode | orewrap/conversters.py:11-12 | calls the stored decoder; a missing one raises TypeError |
| Converters.ConvertQueue.constructor | orewrap/conversters.py:16-20 | the encoders are the stages' encoders in order, and the decoders are their decoders in reverse order |
| Converters.ConvertQueue.Encode | orewrap/conversters.py:22-28 | the `for` loop equals the pipeline encode of the stages |
| Converters.ConvertQueue.Decode | orewrap/conversters.py:30-36 | the `for` loop equals the pipeline decode of the stages, last stage first |
| Converters.Run | orewrap/conversters.py:22-36 | the loop that rebinds the accumulator stage by stage equals the chain of the stages, stopping at the first exception |
| Converters.Codecs | orewrap/conversters.py:19-20 | each converter is seen through its own `encode` and `decode` methods |
| Converters.QueueRoundTrips | orewrap/conversters.py:15-36 | a queue of round-tripping converters round-trips, and the empty queue is the identity |
| Converters.QueueOrder | orewrap/conversters.py:19-36 | with two converters, the first encodes first and the second decodes first |
| Converters.MissingDecoderFails | orewrap/conversters.py:11-36 | a converter with no decoder makes every decode of any queue holding it raise |
| Converters.StringConverterRoundTrips | orewrap/conversters.py:39 | `stringConverter` round-trips every str and every value its encode accepts |
| Converters.StrEncode | orewrap/conversters.py:39 | definition: `str.encode` called on the value, TypeError for anything but a str |
| Converters.BytesDecode | orewrap/conversters.py:39 | definition: `bytes.decode` called on the code, TypeError for anything but bytes |
| Converters.StringConverterDecodeFails | orewrap/conversters.py:39 | decode accepts exactly well-formed UTF-8 bytes; non-bytes raise TypeError; malformed bytes raise UnicodeDecodeError |
| Converters.LowerCaseConverterOneWay | orewrap/conversters.py:40-43 | encode lower-cases `str(value)` and is idempotent on its output; decode always raises TypeError |
| Converters.LowerStr | orewrap/conversters.py:40-43 | definition: `str(value).lower()`, the only direction the converter has |
| Serializers.SerializerIsIdentity | orewrap/serializers.py:5-10 | `Serializer` dumps and loads every value to itself |
| Serializers.Serializer.Dump | orewrap/serializers.py:5-21 | definition: the identity, `str(value)` as UTF-8, or the lower-cased `str(value)` |
| Serializers.Serializer.Load | orewrap/serializers.py:9-17 | definition: the identity, or strict UTF-8 decoding of bytes |
| Serializers.StringSerializerRoundTrip | orewrap/serializers.py:12-17 | loading a dump gives `str(value)` back, so a str round-trips |
| Serializers.StringSerializerLoadFails | orewrap/serializers.py:16-17 | load succeeds exactly on well-formed UTF-8 bytes; malformed bytes raise UnicodeDecodeError; non-bytes raise AttributeError |
| Serializers.IgnoreCaseLossy | orewrap/serializers.py:19-21 | load of dump gives the lower-cased text, which equals the original exactly when the original has no upper-case letter |
| Serializers.IgnoreCaseIdempotent | orewrap/serializers.py:19-21 | dumping a dump changes nothing more |
| Serializer.SerializerIsIdentity | orewrap/serializer.py:5-10 | the earlier `Serializer` is the identity both ways |
| Serializer.BaseDump | orewrap/serializer.py:6-7 | definition: the base `dump`, the identity |
| Serializer.Serializer.Dump | orewrap/serializer.py:6-14 | definition: the base `dump`, or the lower case of the base `dump` of `str(value)` |
| Serializer.Serializer.Load | orewrap/serializer.py:9-10 | definition: the identity, for both serializers |
| Serializer.IgnoreCaseAgreesWithLaterRevision | orewrap/serializer.py:12-14 | lower-casing after the base dump gives what the later revision gives by lower-casing first: `str(value).lower()` |
| Serializer.IgnoreCaseLossy | orewrap/serializer.py:12-14 | load of dump is the lower-cased text, the original exactly when it has no upper-case letter |
| Serializer.IgnoreCaseIdempotent | orewrap/serializer.py:12-14 | dumping a dump changes nothing more |
| Py.DecodeUtf8 | orewrap/serializers.py:16-17 | strict decoding succeeds exactly on well-formed UTF-8, yields a str that encodes back to the input, and otherwise raises UnicodeDecodeError |
| Py.DecodeUtf8OfStr | orewrap/serializers.py:13-17 | decoding the UTF-8 of `str(v)` gives `str(v)` |
| Py.LowerChar | orewrap/encoders.py:38 | a lower-cased character is never upper-case |
| Py.Lower | orewrap/encoders.py:38 | definition: `lower()` keeps the length and lower-cases character by character |
| Py.LowerIdempotent | orewrap/conversters.py:41 | lower-casing twice is lower-casing once |
| Py.LowerFixedIff | orewrap/encoders.py:38 | a string is its own lower case exactly when it has no upper-case letter |
| Py.NatDecimal | orewrap/object.py:43 | the decimal text of a natural number is non-empty digits with no leading zero |
| Py.ParseNatDecimal | orewrap/object.py:43 | parsing the decimal text of a natural number gives the number back |
| Py.ParseDecimalOfDecimal | orewrap/object.py:43 | the decimal text of any integer parses back to it |
| Py.DecimalInjective | orewrap/object.py:43 | distinct integers have distinct decimal texts |
| Py.DecimalHasNoColon | orewrap/object.py:43 | decimal text contains no `:`, so it cannot blur the `%s:%s:%s` key |
| Unicode.EncodeChar | orewrap/encoders.py:32 | one code point takes one to four octets, and one octet exactly when it is ASCII |
| Unicode.DecodeFirst | orewrap/encoders.py:33 | a decoded first character consumes between one and four octets of the input |
| Unicode.DecodeFirstOfEncodeChar | orewrap/encoders.py:32-33 | decoding the front of an encoded character recovers the character and its length, whatever follows |
| Unicode.EncodeCharOfDecodeFirst | orewrap/encoders.py:32-33 | re-encoding a decoded first character gives exactly the octets it consumed |
| Unicode.DecodeEncode | orewrap/encoders.py:32-33 | decoding the UTF-8 of a string gives the string |
| Unicode.EncodeDecode | orewrap/encoders.py:33 | encoding what was decoded gives the bytes back |
| Unicode.DecodeSucceedsIff | orewrap/serializers.py:17 | decoding succeeds exactly on bytes that are the encoding of some string |
| Unicode.EncodeInjective | orewrap/encoders.py:32 | distinct strings have distinct UTF-8 encodings |
| Unicode.DecodeRejectsMalformed | orewrap/serializers.py:17 | for every input: a stray continuation octet or a C0, C1, F5-FF lead, an overlong three- or four-octet form, an encoded surrogate, a code point above U+10FFFF, a non-continuation second octet and a truncated sequence at the front are refused |
| Unicode.EncodeAscii | orewrap/fields.py:101 | an ASCII string encodes to one octet per character, each equal to its code point |
| Redis.ArgBytes | orewrap/fields.py:101 | the client sends bytes as they are and a str as its UTF-8 |
| Redis.Latin1 | orewrap/fields.py:116 | definition: each octet is read as the character of the same code |
| Redis.DecimalIsAscii | orewrap/fields.py:116 | decimal text is ASCII and in Redis's canonical integer form |
| Redis.ParseInt64 | orewrap/fields.py:116 | whatever parses is a signed 64-bit integer |
| Redis.ParseInt64OfDecimal | orewrap/fields.py:116 | every 64-bit integer sent as its decimal text is parsed back to itself by Redis |
| Redis.DelCmd | orewrap/fields.py:65 | DEL replies 1 exactly when the key held something; afterwards the key is gone and every other key is as it was |
| Redis.ExistsCmd | orewrap/fields.py:59 | definition: EXISTS, whether the key holds anything |
| Redis.GetCmd | orewrap/fields.py:107 | GET replies None exactly for an absent key, raises WRONGTYPE exactly on a non-string, and otherwise returns the stored octets |
| Redis.SetCmd | orewrap/fields.py:99-101 | SET stores the value, so GET then returns it; other keys are untouched |
| Redis.SetNxCmd | orewrap/fields.py:99-101 | SETNX replies whether the key was absent, writes only then, and otherwise leaves the key space as it was |
| Redis.IncrByCmd | orewrap/fields.py:111-116 | INCRBY succeeds exactly when the amount and the stored value parse as 64-bit integers (an absent key counting as 0), the key holds a string, and the sum fits in 64 bits; it then stores and returns the sum, and on failure changes nothing |
| Redis.IncrByThenGet | orewrap/fields.py:113 | after INCRBY the key reads back as text that parses to the reply |
| Redis.HSetCmd | orewrap/fields.py:170-175 | HSET replies 1 for a new name and 0 for a replaced one; the name holds the value afterwards; a wrong type raises and changes nothing; other keys are untouched |
| Redis.HSetNxCmd | orewrap/fields.py:170-175 | HSETNX writes only a name that is absent, replying 1 then and 0 otherwise |
| Redis.Assign | orewrap/fields.py:185-189 | the names after a multi-assignment are the old names plus every assigned name |
| Redis.AssignUntouched | orewrap/fields.py:185-189 | a name no pair assigns keeps the value it had |
| Redis.AssignLastWins | orewrap/fields.py:185-189 | the last pair for a name decides the value the name holds |
| Redis.HMSetCmd | orewrap/fields.py:185-189 | HMSET of an empty mapping is refused by the client with DataError; otherwise every pair is written in order, unless the key has a wrong type; other keys are untouched |
| Redis.HGetCmd | orewrap/fields.py:196-198 | HGET returns the name's value or None; a wrong type raises WRONGTYPE |
| Redis.HGetAllCmd | orewrap/fields.py:208 | HGETALL returns the whole hash (empty for an absent key) |
| Redis.HExistsCmd | orewrap/fields.py:215 | HEXISTS is membership of the name |
| Redis.HLenCmd | orewrap/fields.py:239 | HLEN is the number of names |
| Redis.HDelCmd | orewrap/fields.py:233 | HDEL replies 1 exactly when the name was present and removes it; a hash left empty disappears |
| Redis.UnionCount | orewrap/fields.py:280 | the size of a union is the size of the first set plus the new members |
| Redis.DifferenceCount | orewrap/fields.py:286 | the size of a difference is the size of the set less the members removed |
| Redis.SAddCmd | orewrap/fields.py:280 | SADD with no member is a wrong-arity error; otherwise it adds the members and replies how many were new; other keys are untouched |
| Redis.SRemCmd | orewrap/fields.py:286 | SREM with no member is a wrong-arity error; otherwise it removes the members and replies how many were there; a set left empty disappears |
| Redis.SMembersCmd | orewrap/fields.py:292 | SMEMBERS returns the stored set |
| Redis.SCardCmd | orewrap/fields.py:298 | SCARD is the set's size |
| Redis.SIsMemberCmd | orewrap/fields.py:304 | SISMEMBER is membership |
| Redis.ZScoreCmd | orewrap/object.py:61 | ZSCORE finds a score exactly for a member of the sorted set |
| Redis.Enumerate | orewrap/fields.py:208 | the client lists each member of a set exactly once, in some order |
| Redis.Store.Exists | orewrap/fields.py:59 | EXISTS is key membership |
| Redis.Store.Delete | orewrap/fields.py:65 | the store's new contents are DEL's |
| Redis.Store.Get | orewrap/fields.py:107 | GET on the current contents |
| Redis.Store.Set | orewrap/fields.py:99-101 | the store's new contents and the reply are SET's |
| Redis.Store.SetNx | orewrap/fields.py:99-101 | the store's new contents and the reply are SETNX's |
| Redis.Store.IncrBy | orewrap/fields.py:116 | the store's new contents and the reply are INCRBY's |
| Redis.Store.HSet | orewrap/fields.py:170-175 | the store's new contents and the reply are HSET's |
| Redis.Store.HSetNx | orewrap/fields.py:170-175 | the store's new contents and the reply are HSETNX's |
| Redis.Store.HMSet | orewrap/fields.py:185-189 | the store's new contents and the reply are HMSET's |
| Redis.Store.HGet | orewrap/fields.py:196-198 | HGET on the current contents |
| Redis.Store.HGetAll | orewrap/fields.py:208 | HGETALL on the current contents |
| Redis.Store.HKeys | orewrap/fields.py:221 | HKEYS lists every name of the hash exactly once; a wrong type raises WRONGTYPE |
| Redis.Store.HVals | orewrap/fields.py:227 | HVALS lists the values in the order of some enumeration of the names |
| Redis.Store.HExists | orewrap/fields.py:215 | HEXISTS on the current contents |
| Redis.Store.HDel | orewrap/fields.py:233 | the store's new contents and the reply are HDEL's |
| Redis.Store.HLen | orewrap/fields.py:239 | HLEN on the current contents |
| Redis.Store.SAdd | orewrap/fields.py:280 | the store's new contents and the reply are SADD's |
| Redis.Store.SRem | orewrap/fields.py:286 | the store's new contents and the reply are SREM's |
| Redis.Store.SMembers | orewrap/fields.py:292 | SMEMBERS on the current contents |
| Redis.Store.SCard | orewrap/fields.py:298 | SCARD on the current contents |
| Redis.Store.SIsMember | orewrap/fields.py:304 | SISMEMBER on the current contents |
| Redis.Store.SRandMember | orewrap/fields.py:325 | SRANDMEMBER without a count returns a member, or None for an empty set |
| Redis.Store.SRandMembers | orewrap/fields.py:323 | with a positive count the members are distinct and there are as many as asked, or the whole set; with a negative count there are exactly that many draws; every draw is a member |
| Redis.Store.SPop | orewrap/fields.py:331 | SPOP returns a member and removes it, or None for an empty set |
| Redis.Store.ZScore | orewrap/object.py:61 | ZSCORE on the current contents |
| Fields.DefaultCodecIs | orewrap/fields.py:3 | the fallback converter is `str.encode`/`bytes.decode` |
| Fields.Init | orewrap/fields.py:30-53 | an empty `str(key)` raises, then a missing client raises; otherwise the key is `str(key)`, the converter is the instance's, else the class's, else `stringConverter`, and the client is the instance's, else the class's |
| Fields.NameCodec | orewrap/fields.py:138-158 | the name converter is the instance's, else the class's, else `stringConverter`; a class on which `HashField.Init` never ran raises AttributeError |
| Fields.Resolve | orewrap/fields.py:98 | an explicit `overwrite` wins over the instance's default |
| Fields.Put | orewrap/fields.py:188 | a dict assignment adds the key, maps it to the new value, and leaves every other key's value as it was |
| Fields.Comprehend | orewrap/fields.py:188 | a dict comprehension succeeds exactly when every key and value converts; its keys are the converted keys (and those already present), and nothing else |
| Fields.ComprehendUntouched | orewrap/fields.py:206-209 | a key no item converts to keeps its earlier value |
| Fields.ComprehendLastWins | orewrap/fields.py:206-209 | the item that is the last to produce its key supplies that key's value |
| Fields.ComprehendUnique | orewrap/fields.py:187-189 | a dict comprehension never holds a key twice |
| Fields.ListComprehend | orewrap/fields.py:227 | a list comprehension succeeds exactly when every element converts, keeps length and order, and raises the first element's error |
| Fields.SetComprehend | orewrap/fields.py:221 | a set comprehension succeeds exactly when every element converts, and then holds exactly the converted elements |
| Fields.LazyMap | orewrap/fields.py:292 | definition: `map()` applies the converter element by element, each error raised only when that element is reached |
| Fields.Wire | orewrap/fields.py:280 | definition: each converted member is sent as the client encodes it |
| Fields.WirePairs | orewrap/fields.py:187-189 | definition: each converted pair is sent as the client encodes it, in order |
| Fields.Loaded | orewrap/fields.py:109 | an absent value gives the default, not decoded; a present one is decoded; a client error propagates |
| Fields.DecodeReply | orewrap/fields.py:325 | the reply is decoded even when it is None |
| Fields.StringSet | orewrap/fields.py:91-101 | a conversion error writes nothing; SET stores the converted value; SETNX stores it only for an absent key and replies whether it did; other keys are untouched |
| Fields.StringGet | orewrap/fields.py:103-109 | an absent key gives the default; a string is decoded; another type raises WRONGTYPE |
| Fields.SetThenGet | orewrap/fields.py:91-109 | with a converter that round-trips a value through octets, `get` after `set` returns that value |
| Fields.DefaultSetThenGet | orewrap/fields.py:91-109 | with the default converter every str survives `set` then `get`; any other value is refused with TypeError and nothing is written |
| Fields.SetWithoutOverwriteKeeps | orewrap/fields.py:98-101 | without overwrite an existing key keeps its content and reads back as before, and the reply is False |
| Fields.IncrementCounts | orewrap/fields.py:111-116 | incrementing an absent key by 1 gives 1, as the docstring says; a stored count grows by the amount, or the call raises on 64-bit overflow |
| Fields.StringIncrement | orewrap/fields.py:111-116 | definition: INCRBY of the amount as the client sends it; its arithmetic is IncrementBy's |
| Fields.IncrementBy | orewrap/fields.py:116 | one INCRBY of a stored count `n` by `amount` gives `n + amount`, or an overflow error |
| Fields.HashSet | orewrap/fields.py:162-175 | the name and then the value are converted (the first error wins, nothing is written); HSET replaces and HSETNX keeps an existing name; the reply is whether the name was new |
| Fields.HashSetMulti | orewrap/fields.py:177-189 | without overwrite the missing `hmsetnx` raises AttributeError before anything is converted; an empty dict gives DataError; otherwise it succeeds exactly when every pair converts, and then every converted name is in the hash and the hash is the old one with the converted dict's pairs assigned in order; other keys are untouched |
| Fields.HashSetMultiValue | orewrap/fields.py:177-189 | after a successful `set_multi`, the name an item is sent as holds that item's converted value when no later item sends the same name and every item sending it converts to the same name |
| Fields.HashSetMultiKeeps | orewrap/fields.py:177-189 | after a successful `set_multi`, a name no item sends is present exactly when it was before, with the same value |
| Fields.EveryNameWritten | orewrap/fields.py:185-189 | after a successful HMSET every name of the converted dict is in the hash |
| Fields.HashGet | orewrap/fields.py:191-200 | the name is passed through the name converter's `decode`, not its `encode`, then looked up; its error propagates |
| Fields.HashGetTakesEncodedName | orewrap/fields.py:196-198 | with the default name converter, `get` of a str raises TypeError; only the encoded bytes find what `set` wrote |
| Fields.HashSetThenGet | orewrap/fields.py:162-200 | when the name asked for decodes to what `set` wrote and the value converter round-trips, `get` after `set` returns the value |
| Fields.HashContains | orewrap/fields.py:211-215 | `contains` is membership of the encoded name |
| Fields.HashDelete | orewrap/fields.py:229-233 | `delete` removes the encoded name and replies whether it was present |
| Fields.Stored | orewrap/fields.py:208 | definition: the client's `hgetall().items()` pairs each listed name with its stored value |
| Fields.MembersKeys | orewrap/fields.py:202-209 | `members()` succeeds exactly when every stored name and value decodes, and its keys are then the decoded names, whatever order the client listed them in |
| Fields.NamesAnyOrder | orewrap/fields.py:217-221 | `names()` succeeds exactly when every stored name decodes, and is then the set of decoded names, whatever order they were listed in |
| Fields.SetAdd | orewrap/fields.py:276-280 | every value is encoded first (the first error wins, nothing is written); no value is a wrong-arity error; otherwise the members are added and the reply counts the new ones |
| Fields.SetDelete | orewrap/fields.py:282-286 | every value is encoded first; no value is a wrong-arity error; otherwise the members are removed and the reply counts those that were present |
| Fields.SetContains | orewrap/fields.py:300-304 | `contains` is membership of the encoded value |
| Fields.AddContainsDelete | orewrap/fields.py:276-304 | after `add(v)` the set contains `v`, and after a following `delete(v)` it does not |
| Fields.RandomRequest | orewrap/fields.py:316-321 | None and 0 take the single-value path; a negative number raises; without `unique` the count is negated |
| Fields.DrawOne | orewrap/fields.py:324-325 | the single path decodes the client's reply, None included |
| Fields.DrawMany | orewrap/fields.py:323 | the counted path is a lazy `map` of the decoder over the members drawn |
| Fields.RandomUniqueBounds | orewrap/fields.py:306-323 | with `unique` there are at most `number` results, as many as asked or the whole set, all distinct members |
| Fields.RandomRepeatsCount | orewrap/fields.py:320-323 | without `unique` there are exactly `number` results, unless the set is empty |
| Fields.EmptyDrawRaises | orewrap/fields.py:324-331 | on an empty set the single path hands None to `bytes.decode`, which raises TypeError |
| Fields.Field.constructor | orewrap/fields.py:48-50 | the field keeps the settled key, converter and client |
| Fields.Field.Exists | orewrap/fields.py:55-59 | `exists()` is key membership |
| Fields.Field.Destroy | orewrap/fields.py:61-65 | `destroy()` is DEL of the field's key, which is gone afterwards |
| Fields.FieldEquality | orewrap/fields.py:67-71 | `==` is an equivalence on the class and the key only, and `!=` is its negation |
| Fields.Field.Equals | orewrap/fields.py:67-68 | definition: the same concrete class and the same key |
| Fields.Field.NotEquals | orewrap/fields.py:70-71 | definition: the negation of Equals |
| Fields.NewField | orewrap/fields.py:30-53 | construction fails exactly as `Init` does, and otherwise yields a fresh field with the settled key, converter and client |
| Fields.StringField.constructor | orewrap/fields.py:82-89 | the field and its overwrite default are kept |
| Fields.StringField.Set | orewrap/fields.py:91-101 | the store's new contents and the reply are those of `StringSet` with the resolved flag |
| Fields.StringField.Get | orewrap/fields.py:103-109 | the reply is `StringGet` of the current contents |
| Fields.StringField.Increment | orewrap/fields.py:111-116 | the store's new contents and the reply are INCRBY's with the amount as sent |
| Fields.NewStringField | orewrap/fields.py:82-89 | construction fails exactly as `Init` does, and otherwise yields a fresh StringField with the overwrite default |
| Fields.HashField.constructor | orewrap/fields.py:148-160 | the field, name converter and overwrite default are kept |
| Fields.HashField.Set | orewrap/fields.py:162-175 | the store's new contents and the reply are those of `HashSet` with the resolved flag |
| Fields.HashField.SetMulti | orewrap/fields.py:177-189 | the store's new contents and the reply are those of `HashSetMulti` with the resolved flag |
| Fields.HashField.Get | orewrap/fields.py:191-200 | the reply is `HashGet` of the current contents |
| Fields.HashField.Members | orewrap/fields.py:202-209 | a wrong type raises; otherwise it succeeds exactly when everything decodes, and its keys are the decoded names |
| Fields.HashField.Contains | orewrap/fields.py:211-215 | the reply is `HashContains` of the current contents |
| Fields.HashField.Names | orewrap/fields.py:217-221 | a wrong type raises; otherwise it succeeds exactly when every name decodes, and is then the set of decoded names |
| Fields.HashField.Values | orewrap/fields.py:223-227 | a wrong type raises; otherwise it succeeds exactly when every value decodes, and lists the decoded values in the order of the names |
| Fields.HashField.Delete | orewrap/fields.py:229-233 | the store's new contents and the reply are those of `HashDelete` |
| Fields.HashField.Count | orewrap/fields.py:235-239 | the reply is HLEN |
| Fields.NewHashField | orewrap/fields.py:148-160 | construction fails as `Init` does, then as the name converter lookup does; otherwise it yields a fresh HashField with both converters |
| Fields.SetField.constructor | orewrap/fields.py:271-275 | the field is kept |
| Fields.SetField.Add | orewrap/fields.py:276-280 | the store's new contents and the reply are those of `SetAdd` |
| Fields.SetField.Delete | orewrap/fields.py:282-286 | the store's new contents and the reply are those of `SetDelete` |
| Fields.SetField.Members | orewrap/fields.py:288-292 | a wrong type raises; otherwise the result is a lazy map of the decoder over an enumeration of the set |
| Fields.SetField.Count | orewrap/fields.py:294-298 | the reply is SCARD |
| Fields.SetField.Contains | orewrap/fields.py:300-304 | the reply is `SetContains` of the current contents |
| Fields.SetField.Random | orewrap/fields.py:306-325 | the request is made as `RandomRequest` says, and the reply is decoded by `DrawOne` or `DrawMany` |
| Fields.SetField.Pop | orewrap/fields.py:327-331 | SPOP's member is removed and the reply is its decoding |
| Fields.NewSetField | orewrap/fields.py:30-53 | construction fails exactly as `Init` does, and otherwise yields a fresh SetField |
| LegacyField.AsCodec | orewrap/field.py:92-100 | a serializer is used as a codec whose encode is `dump` and whose decode is `load`, neither raising |
| LegacyField.DefaultSerializerIsIdentity | orewrap/field.py:43 | the default serializer is the identity both ways |
| LegacyField.Init | orewrap/field.py:24-47 | an empty key raises, then a missing client raises; the serializer defaults to the identity, and there is no class-level one |
| LegacyField.NewStringField | orewrap/field.py:73-80 | construction fails exactly as `Init` does, and otherwise yields a fresh StringField |
| LegacyField.NewHashField | orewrap/field.py:127-138 | as for StringField, and the name serializer defaults to the identity |
| LegacyField.StringSetStoresDump | orewrap/field.py:82-92 | `set` is SET or SETNX of `dump(value)` as the client sends it |
| LegacyField.StringGetLoads | orewrap/field.py:94-100 | `get` gives the default for an absent key and the stored bytes, loaded unchanged, otherwise |
| LegacyField.StringSetThenGetGivesBytes | orewrap/field.py:82-100 | with the identity serializer a str comes back from `get` as its UTF-8 bytes, not as the str |
| LegacyField.HashSetStoresDumps | orewrap/field.py:140-153 | `set` writes `(dump(name), dump(value))` with HSET or HSETNX |
| LegacyField.HashGetLoadsName | orewrap/field.py:175-184 | `get` passes the name through `load`, the identity, so it looks the name up exactly as given |
| LegacyField.IgnoreCaseNameMissed | orewrap/field.py:150-182 | with the case-folding name serializer, a name with an upper-case letter is written lower-cased but looked up as given, so `get` returns the default |
| LegacyField.MembersAreStored | orewrap/field.py:186-193 | `members()` has exactly the stored names, as bytes, each mapped to its stored value |
| LegacyField.NamesAreStored | orewrap/field.py:201-205 | `names()` is exactly the stored names, as bytes |
| LegacyField.ValuesAreStored | orewrap/field.py:207-211 | `values()` is the stored values, as bytes |
| LegacyField.SetMultiAsWritten | orewrap/field.py:162 | definition: `set_multi` as written raises AttributeError on every call, before anything is sent |
| LegacyField.QueuedOkIff | orewrap/field.py:164-171 | queuing succeeds exactly when every name and value dumps |
| LegacyField.QueuedPairs | orewrap/field.py:167-171 | one command is queued per item, in dict order, with the dumped name and value |
| LegacyField.QueuedKeepsError | orewrap/field.py:167-171 | a dump error in an item of a prefix is the error of the whole queue |
| LegacyField.Executed | orewrap/field.py:173 | `execute()` gives one reply per queued command and keeps the key space well formed |
| LegacyField.ExecutedStep | orewrap/field.py:173 | running one more command extends the replies by its reply and leaves the rest of the queue |
| LegacyField.FirstError | orewrap/field.py:173 | no error is raised exactly when every reply succeeded |
| LegacyField.PipelineIsHMSet | orewrap/field.py:165-173 | with overwrite, the pipelined HSETs leave the hash as one HMSET of the same pairs would, and every reply succeeds |
| LegacyField.PipelineKeepsExisting | orewrap/field.py:165-173 | with HSETNX, names already present keep their values, and every queued name is present afterwards |
| LegacyField.SetMulti | orewrap/field.py:155-173 | the intended `set_multi`: a dump error sends nothing; otherwise the store ends as the queue run in order, and the first error reply is raised |
| LegacyField.Execute | orewrap/field.py:173 | the loop over the queue ends in the state of `Executed`, and raises its first error |
| Objects.InstanceKeyInjective | orewrap/object.py:42-43 | two instance keys of one class with integer ids are equal exactly when the ids and the names are |
| Objects.ClassKey | orewrap/object.py:38-40 | definition: `_K(name)`, the class name, a colon and the name |
| Objects.InstanceKey | orewrap/object.py:42-43 | definition: `_k(name)`, the class name, the id's `str()` and the name, colon-separated |
| Objects.ClassKeysApart | orewrap/object.py:38-43 | a class key such as `last_id` or `reg` is never an instance key of the same class |
| Objects.Registered | orewrap/object.py:59-61 | `Exists` is membership of the id's member in the `reg` sorted set; a conversion error or a wrong type raises |
| Objects.ObjectClass.constructor | orewrap/object.py:29-36 | the class keeps its name, counter, registry conversion, client and converter |
| Objects.InitFields | orewrap/object.py:29-36 | `_Init_Fields` fails exactly when no class-level client is set; otherwise `_Last_Id` is the StringField under `<Name>:last_id` |
| Objects.FieldKeys | orewrap/object.py:73-76 | the keys of the fields among an instance's attributes are exactly those of its Field-valued attributes |
| Objects.Entity.constructor | orewrap/object.py:63-70 | the instance keeps its class, id and both fields |
| Objects.Entity.Attributes | orewrap/object.py:67-70 | the Field-valued attributes are exactly `create_date` and `tag` |
| Objects.Entity.Delete | orewrap/object.py:73-76 | `delete()` removes exactly the two field keys of the instance and nothing else |
| Objects.NewEntity | orewrap/object.py:63-70 | a None id or an id whose `str()` is empty fails the assertion; otherwise both fields sit under the instance's keys on the class's client |
| Objects.Exists | orewrap/object.py:59-61 | the implementation's reply is `Registered` |
| Objects.Get | orewrap/object.py:53-57 | an unregistered id gives None; a registered one gives a fresh handle on that id |
| Objects.IncrementDraws | orewrap/object.py:48 | the id drawn is one past the counter, and a failed INCR changes nothing |
| Objects.Creation | orewrap/object.py:46-51 | `Create` draws the next id after the counter; a failed INCR leaves the key space untouched, while a failing stamp leaves the counter advanced; success returns None |
| Objects.CreationAdvancesCounter | orewrap/object.py:46-51 | after a `Create` that drew an id the counter holds that id, even though the creation date was stamped |
| Objects.CreateIdsIncrease | orewrap/object.py:46-51 | two `Create`s in a row draw strictly increasing ids |
| Objects.Create | orewrap/object.py:46-51 | the implementation ends in the state and reply of `Creation` |
| Objects.EncodeObject | orewrap/object.py:9-11 | only an instance of the class or of a class derived from it encodes, as its `str()`; anything else fails the assertion |
| Objects.EncodedIsNoId | orewrap/object.py:9-15 | what `encode` gives starts with `<` and is never an integer id's text, so `decode(encode(x))` cannot find `x` |
| Objects.DecodeObject | orewrap/object.py:13-15 | None decodes to None; anything else is `Get` of it |

## Left out

- `base64_encoder` and `base32_encoder` (`encoders.py:51-52`): only base 16 is modelled; the other two alphabets would add nothing the base-16 round trip does not show.
- `datetime_encoder`, `DateTimeSerializer` and `datetime.now()`: floating-point timestamps and the clock are not modelled. The creation date's write is the parameter `stamp` of `Objects.Creation`.
- The network, connection errors and concurrency: the store is one in-memory key space, and each command is atomic.
- The metaclass `ObjectType` is not modelled. `Objects.InitFields` is what it runs for a class.
- Class-level settings (`Field.Init`, `HashField.Init`) are not modelled as global state: they are explicit parameters.
- Dunder aliases (`__call__`, `__bool__`, `__len__`, `__iter__`, `__contains__`, `__getitem__`, `__setitem__`, `__delitem__`, `keys`, `items`) and `__hash__` are not modelled: each only forwards to a modelled method or to Python's built-in hashing.
- `field.py`'s `HashField.contains`, `delete` and `count` are not modelled separately: they share their bodies with `fields.py` and are covered by `Fields.HashContains`, `Fields.HashDelete` and `Fields.HashField.Count` used with `LegacyField.AsCodec`.
- `str.lower` is modelled for ASCII letters only. Strings hold Unicode scalar values, so lone surrogates are not modelled.
- Python's `True == 1` key equality in dicts is not modelled: dict keys compare as values of `Py.Value`.
- Arbitrary user serializers and converters are modelled only as pure codecs. Side effects inside them are not modelled.
- Fields.HashSet: the HSETNX reply is modelled as the integer 0 or 1 that the server sends. Any conversion of it by the client is not modelled.
- Encoders.Base16Rejects: `binascii.Error` is modelled as its base class ValueError.
- Only the sorted-set operations `object.py` itself relies on are modelled. SortedSetField, ScoreStringField and RefStringField are not part of this model, and `fields.py` defines none of them, so `object.py`'s import of them (`object.py:3`) would fail. The model describes `object.py` as if those classes existed:
  - the registry member of an id is the parameter `member`;
  - `create_date`'s `destroy` is `Field.destroy`;
  - `isinstance(value, Field)` is an exact match on the Field-valued attributes.
- Objects.EncodeObject: an instance's `str()` is the default `<T object at 0x…>` text. A class that defines its own `__str__` is not modelled.
- Objects.EncodedIsNoId: proved only for classes that keep the default `__str__`. A derived class whose `__str__` prints its id would round-trip.
- Objects.Creation: `Create` builds the instance but does not return it, so the model returns None as the source does.

## Findings

| source | as written | input that shows it | evidently intended | confidence | as-written member | corrected member |
|---|---|---|---|---|---|---|
| orewrap/field.py:162 | `redis = self._redis.pipline()` | any call of `HashField.set_multi`: redis-py clients have `pipeline`, not `pipline`, so it raises AttributeError before anything is queued | `self._redis.pipeline()`, queuing one HSET or HSETNX per item and running them with `execute()` | not executed | LegacyField.SetMultiAsWritten | LegacyField.SetMulti |
