# Redis.Helper cache client, modelled in Dafny

Redis.Helper is a small C# caching layer over StackExchange.Redis. Its `RedisContext`
is a process-wide singleton over one connection multiplexer. It offers typed `Set`/`Get`.
A string is stored as a Redis string. Any other object is stored as a Redis hash with one
field per non-null property. It also offers `KeyExists` and `CleanCacheByKey`, and a
read-through call, `TryToGetAndSetData`. That call answers from the cache when it can. It
falls back to a caller-supplied computation when it cannot, and caches that
computation's successful answer as JSON. `RedisConverter` turns an object into hash
entries and back, by reflection.

The model has six files:

- `wrappers.dfy`: `Option` (C#'s null), `Result` (a value or an exception) and
  `Outcome` (nothing or an exception).
- `dotnet_convert.dfy`: the .NET conversions the marshaler relies on for `int` and
  `bool` properties: `Convert.ToString`, `Int32.Parse` and `Boolean.Parse`. It proves
  that parsing inverts printing.
- `redis_converter.dfy`: `ToHashEntries` (a function) and `ConvertFromRedis` (a
  method with the source's loop over the properties, writing into a fresh array that
  stands for the new instance). It proves them against the specification function
  `Rebuild`. Reflection is replaced by a schema: the type's properties in the order
  `GetProperties` returns them, each with its name, kind and the value a new instance holds.
- `redis_store.dfy`: the Redis commands the client issues (SET, HSET, EXPIRE, GET,
  HGETALL), as functions over a map from key to entry. HGETALL is a method that lists a
  hash's fields in an order it chooses.
- `redis_context.dfy`: the `Multiplexer` and `RedisContext` classes, and `StaticState`,
  which holds the static `_redisContext` field for `GetInstance`. The methods change the
  multiplexer's database in place. `TryToGetAndSetData` keeps the source's control flow:
  the `dbMethodIsInvoked` flag, the outer and inner `try`/`catch` (as a `thrown` flag),
  and the field-by-field copy into the envelope.
- `scenarios.dfy`: clients that chain calls over a fresh multiplexer. They state what
  the sequence promises end to end: set then get, delete then exists, miss then hit,
  self-healing of a corrupt entry, and the singleton's first multiplexer.

Inputs the model takes as parameters:

- Network failures of individual commands: a `fault` flag per call, or a set of `Step`s
  for `TryToGetAndSetData`.
- Newtonsoft JSON: the `Json` value. Serialisation is uninterpreted, and
  deserialisation may throw.
- The caller's fallback: a function from the number of earlier invocations in the
  call to what that invocation does (returns an envelope, returns null, or throws).
- The envelope that `Response<T>.DoMethod` hands to the lambda: `init`.

The method returns the fallback's invocation count (`runs`). It also returns `escaped`,
which says that the catch block itself threw.

Where the intended behaviour and the code disagree, the model follows the code:

- The intended behaviour is that a list-of-strings property survives a store and load.
  In the code it cannot: `ConvertFromRedis` calls `Convert.ChangeType` from a string to a
  `List<string>`, which always throws. `RedisConverter.ListPropertyNotRestored` proves
  that such a record never reads back. `RedisConverter.RoundTrip` proves the round trip
  for every record without list values.
- The intended behaviour is that on a miss the computed envelope is returned even
  when caching it fails. In the code, a failing `Set` jumps past the copy into the
  envelope. `dbMethodIsInvoked` is already true, so the fallback is not rerun either.
  The caller gets the initial envelope, and the computed answer is lost (see the
  `WriteStep in faults` case of `TryToGetAndSetData`).
- The intended behaviour is that a cached value that deserialises to null gets the
  decode-failure status. In the code only a throwing deserialisation sets code -3. A
  null result leaves the code as it was, but still evicts the key.
- On a hit, the code evicts the key whenever the envelope's code is non-zero. This
  happens even when the cached value decoded, because the code is `init.code`. The
  initial code comes from `DoMethod`, which is not part of this model, so
  `TryToGetAndSetData` states eviction in terms of `init`.

## Model

| member | source | states |
|---|---|---|
| DotNetConvert.ParseInt32 | Redis.Helper/RedisConverter.cs:42 | converting text to an `int` property succeeds iff the text is an optional sign and decimal digits, with only white space around them, denoting a value within Int32, and then yields that value |
| DotNetConvert.ParseBool | Redis.Helper/RedisConverter.cs:42 | converting text to a `bool` property gives true iff the text is "True" in any letter case with only white space around it, false iff it is "False" likewise, and throws on anything else |
| DotNetConvert.PaddedIffTrimmed | Redis.Helper/RedisConverter.cs:42 | a word that begins and ends with a letter is what trimming leaves iff the text is that word with only white space around it |
| DotNetConvert.DigitsRoundTrip | Redis.Helper/RedisConverter.cs:23 | the decimal digits `Convert.ToString` prints for a number are non-empty, all digits, and denote that number |
| DotNetConvert.FormatInt32 | Redis.Helper/RedisConverter.cs:23-42 | `Convert.ToString` prints an int as non-empty text starting with '-' iff it is negative, and every Int32 it prints parses back to itself |
| DotNetConvert.FormatBool | Redis.Helper/RedisConverter.cs:23-42 | both booleans printed by `Convert.ToString` parse back to themselves |
| RedisConverter.PresentIndices | Redis.Helper/RedisConverter.cs:12 | the `Where` filter keeps exactly the non-null properties, in the order `GetProperties` returns them |
| RedisConverter.FirstWithName | Redis.Helper/RedisConverter.cs:36 | the `FirstOrDefault` lookup finds the first entry whose name equals the property's exactly, or reports that none does |
| RedisConverter.ChangeType | Redis.Helper/RedisConverter.cs:42 | a successful conversion has the property's type; a string property takes the text unchanged; a list property never converts |
| RedisConverter.ConvertFromRedis | Redis.Helper/RedisConverter.cs:30-46 | a type without a public parameterless constructor fails before any property is read; otherwise the loop over the properties returns exactly `Rebuild`: defaults for unmatched properties, the first matching entry's converted text otherwise, and the first conversion failure aborts |
| RedisConverter.AssembleSucceeds | Redis.Helper/RedisConverter.cs:34-43 | the conversion succeeds iff every property's step succeeds, and then holds each step's value |
| RedisConverter.AssembleAppend | Redis.Helper/RedisConverter.cs:34-43 | converting the properties of two schemas in turn equals converting them together: the first failure wins, and otherwise the values are concatenated |
| RedisConverter.AssembleFails | Redis.Helper/RedisConverter.cs:34-43 | the first property, in the order `GetProperties` returns, whose text fails to convert is the one the conversion fails on (the model labels the failure with that property) |
| RedisConverter.HashValue | Redis.Helper/RedisConverter.cs:17-42 | `Convert.ChangeType` reads the text a string, int or bool property is stored as back to the same value |
| RedisConverter.ToHashEntries | Redis.Helper/RedisConverter.cs:9-27 | every hash entry is a non-null property's name with its encoded value, every non-null property has such an entry, and there are at most as many entries as properties |
| RedisConverter.EntriesFollowPropertyOrder | Redis.Helper/RedisConverter.cs:11-13 | of any two entries, the earlier encodes a property that `GetProperties` returns before the later one's |
| RedisConverter.EntryForProperty | Redis.Helper/RedisConverter.cs:12-36 | with distinct property names, looking a property up among its record's entries finds its encoded value iff it is non-null |
| RedisConverter.UnmatchedPropertyKeepsDefault | Redis.Helper/RedisConverter.cs:33-40 | a property no entry names keeps the value of the freshly created instance |
| RedisConverter.MatchedPropertyTakesFirstEntry | Redis.Helper/RedisConverter.cs:36-42 | a property takes the converted text of the first entry bearing its name, and a failed conversion fails the whole call |
| RedisConverter.FailedConversionAbortsAll | Redis.Helper/RedisConverter.cs:42 | one property's failed conversion leaves no partial object |
| RedisConverter.UnknownEntryIgnored | Redis.Helper/RedisConverter.cs:34-43 | an entry whose name matches no property changes nothing |
| RedisConverter.RoundTrip | Redis.Helper/RedisConverter.cs:9-46 | an object without list values converts to entries and back to itself, its null properties at their defaults |
| RedisConverter.ListPropertyNotRestored | Redis.Helper/RedisConverter.cs:17-42 | an object with a non-null list property never converts back |
| RedisStore.StringSet | Redis.Helper/RedisContext.cs:46 | SET stores the string with the given expiry so that GET reads it back, and touches no other key |
| RedisStore.StringGet | Redis.Helper/RedisContext.cs:68 | GET answers null iff the key is missing, WRONGTYPE iff it holds a hash, and otherwise the string stored there |
| RedisStore.PutFields | Redis.Helper/RedisContext.cs:50 | after HSET a hash has exactly its old fields plus the fields written |
| RedisStore.PutFieldsAt | Redis.Helper/RedisContext.cs:50 | HSET keeps the value of every field it does not write, and a written field takes the last value written to it |
| RedisStore.HashSet | Redis.Helper/RedisContext.cs:50 | HSET fails (WRONGTYPE) iff it writes entries to a key holding a string; with no entries it changes nothing; otherwise the key holds a hash of its old fields (none for a new key) updated by the entries, with its old expiry; no other key changes |
| RedisStore.KeyExpire | Redis.Helper/RedisContext.cs:55 | EXPIRE sets the expiry of an existing key and changes nothing else about it; it adds and removes no key and touches no other key |
| RedisStore.ExpiryKeepsReads | Redis.Helper/RedisContext.cs:55 | after EXPIRE, GET and HGETALL read the same from every key as before |
| RedisStore.HashGetAll | Redis.Helper/RedisContext.cs:72 | HGETALL lists every field of the hash exactly once, with its value |
| RedisStore.ListingLookups | Redis.Helper/RedisContext.cs:72 | whatever order HGETALL lists the fields in, `ConvertFromRedis` finds the same text for every property |
| RedisStore.DistinctEntriesListing | Redis.Helper/RedisContext.cs:50 | entries with distinct names, written into an empty hash, are listed exactly by that hash |
| RedisStore.EntriesNamesDistinct | Redis.Helper/RedisConverter.cs:11-27 | an object's hash entries bear pairwise distinct names |
| RedisStore.RecordSurvivesStore | Redis.Helper/RedisContext.cs:37-74 | an object stored with HSET under a fresh key is rebuilt from its hash as itself, null properties at their defaults |
| RedisStore.StaleFieldSurvives | Redis.Helper/RedisContext.cs:50 | HSET only adds fields: a null property of the new object reads back the old value stored under its name |
| RedisHelper.RedisContext.constructor | Redis.Helper/RedisContext.cs:15-20 | the context holds the multiplexer it was created with |
| RedisHelper.RedisContext.Set | Redis.Helper/RedisContext.cs:37-57 | throws while disconnected; a null object that is not a string throws before any command; a string is stored as given (null as "") with the expiry, an object by HSET then EXPIRE; only the key changes, and nothing changes when it throws |
| RedisHelper.RedisContext.Get | Redis.Helper/RedisContext.cs:59-74 | throws while disconnected; a string read is the stored string (null for a missing key, WRONGTYPE for a hash); an object read throws for a type without a parameterless constructor, and is otherwise what `ConvertFromRedis` rebuilds from the hash's fields |
| RedisHelper.RedisContext.KeyExists | Redis.Helper/RedisContext.cs:86-89 | answers whether the key is in the database, and fails when the command does |
| RedisHelper.RedisContext.CleanCacheByKey | Redis.Helper/RedisContext.cs:81-84 | removes the key and only the key, or fails changing nothing |
| RedisHelper.RedisContext.TryToGetAndSetData | Redis.Helper/RedisContext.cs:121-181 | per path: the answer, the database afterwards and the number of fallback runs (at most two, at most one when the first run answers); only the key changes; a cached answer is kept unless it fails to decode or is null, and is then deleted |
| RedisHelper.StaticState.GetInstance | Redis.Helper/RedisContext.cs:22-35 | the first call installs a context over its multiplexer; every call returns that context iff the multiplexer it is given is connected |
| CacheScenarios.TextRoundTrip | Redis.Helper/RedisContext.cs:37-74 | a string set and then got reads back as itself, and a null string as "" |
| CacheScenarios.RecordRoundTrip | Redis.Helper/RedisContext.cs:37-74 | an object without list values set under a fresh key and then got reads back as itself, null properties at their defaults |
| CacheScenarios.CleanedKeyIsGone | Redis.Helper/RedisContext.cs:81-89 | after `CleanCacheByKey` the key no longer exists |
| CacheScenarios.MissThenHit | Redis.Helper/RedisContext.cs:121-165 | a miss runs the fallback once and caches its successful answer; the next call answers the same data from the cache without running it |
| CacheScenarios.CorruptEntrySelfHeals | Redis.Helper/RedisContext.cs:150-165 | an undecodable cached value answers code -3 without running the fallback and is deleted, so the next call is answered by the fallback |
| CacheScenarios.FirstMultiplexerSticks | Redis.Helper/RedisContext.cs:22-35 | a first call with a disconnected multiplexer throws but installs the context over it, and a later call with a connected one returns that context |

## Left out

- `GetServerPattern` (Redis.Helper/RedisContext.cs:76-79): a key scan on the server. It only forwards to the transport, which is not part of this model.
- `GetConfigurationOptions` (Redis.Helper/RedisContext.cs:91-119): it builds a connection configuration from constants and has no behaviour of its own.
- Redis.Helper/RedisConstants.cs: an enum the core does not use.
- `Response<T>.DoMethod` and the models of Redis.Helper.Models are not part of this model. The envelope it creates is the parameter `init`. What it does with an exception that leaves the lambda is reported as `escaped` and not modelled further.
- Newtonsoft JSON: its serialisation and deserialisation are uninterpreted parameters, and the deserialiser may throw. `MissThenHit` states its round trip as a precondition.
- The StackExchange transport: the connection, retries and timeouts are reduced to a connected flag and per-command fault flags. The constructor's `GetEndPoints()[0]` and `GetDatabase()` are reduced to the multiplexer's database.
- RedisHelper.RedisContext.Set: the un-awaited `KeyExpireAsync` is applied at once and never fails. Its possible failure, which leaves an entry without expiry, is not modelled.
- Time: the database has no clock, so a key never expires during the model. A key that expires between EXISTS and GET would be read as null and take the code -3 path.
- Logging (`Console.WriteLine` in the catch block) and concurrency on the static singleton.
- Property types: only `string`, `int`, `bool` and `List<string>` are modelled. Other types are left out: `DateTime`, floating point, enums, `Nullable<T>`, other lists and nested objects. So are the culture-dependent conversions some of them use.
- DotNetConvert.ParseInt32: Int32.Parse trims U+0009 to U+000D and U+0020, as modelled. It also accepts trailing null characters, which are not modelled.
- DotNetConvert.ParseBool: Boolean.Parse trims every character `char.IsWhiteSpace` accepts (U+00A0 and U+2000 to U+200A among them) and '\0' at both ends. The model trims only U+0009 to U+000D and U+0020. Letter case is compared for ASCII letters only.
- RedisHelper.RedisContext.Set: a faulted command is taken to have had no effect, so the database is unchanged when it throws. A SET or HSET that Redis applied before the client timed out or lost the connection, and that still throws, is not modelled.
- RedisHelper.RedisContext.CleanCacheByKey: a faulted DEL is taken to have deleted nothing. A DEL applied by the server before the client threw is not modelled.
- RedisHelper.RedisContext.TryToGetAndSetData: a faulted write or delete step is taken to have changed nothing. A cache write or eviction that the server applied before the client threw is not modelled.
- Culture: the source converts under the current culture. The model uses the invariant culture's '-' sign and ASCII digits. A culture with another negative sign (U+2212, say) is not modelled.
- RedisConverter.DistinctNames: the model assumes no two properties share a name. A property hidden by a `new` property of the same name, which `GetProperties` also returns, is not modelled.
- RedisConverter.ConversionError: the exception `Convert.ChangeType` throws does not name the property. The model labels the failure with the property being rebuilt.
- Writable properties: every property is taken to be settable. `GetProperties` (Redis.Helper/RedisConverter.cs:11, 32) also returns get-only and computed properties. `ToHashEntries` writes an entry for such a property, and `ConvertFromRedis` then throws when `SetValue` finds no setter (Redis.Helper/RedisConverter.cs:42). An object of such a type never reads back through `Get`, and the schema cannot express it. `RoundTrip`, `RecordSurvivesStore` and `RecordRoundTrip` rest on this. Static and indexer properties are not modelled either.
- Strings: Dafny's `string` holds Unicode scalar values only. A .NET string is UTF-16 code units and may hold an unpaired surrogate. StackExchange.Redis encodes it as UTF-8 with U+FFFD in its place, so such a string does not survive `Set` then `Get`. `TextRoundTrip`, `RoundTrip`, `RecordSurvivesStore` and `RecordRoundTrip` rest on this.
- RedisStore.Millis: a TTL is a positive number of milliseconds. A zero or negative `TimeSpan` is not modelled.
