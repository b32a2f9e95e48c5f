/** Clients of RedisContext that chain its calls over a fresh multiplexer, each stating
    what the sequence promises end to end. */
module CacheScenarios {
  import opened Wrappers
  import opened RedisConverter
  import opened RedisStore
  import opened RedisHelper

  /** A string written with Set reads back with Get; a null string comes back as "". */
  method TextRoundTrip(db: Db, key: string, text: Option<string>, ttl: Option<Millis>)
    returns (read: Result<Payload, StoreError>)
    ensures read == Ok(Text(Some(if text.Some? then text.value else "")))
  {
    var mux := new Multiplexer(true, db);
    var context := new RedisContext(mux);
    var written := context.Set(key, Text(text), ttl, _ => "", false);
    read := context.Get(key, AsText, false);
  }

  /** An object written with Set under a fresh key reads back with Get as itself, its
      null properties at their defaults, when it holds no list. */
  method RecordRoundTrip(db: Db, key: string, schema: Schema, record: Record, ttl: Option<Millis>,
                         listJson: seq<string> -> string)
    returns (read: Result<Payload, StoreError>)
    requires key !in db
    requires DistinctNames(schema) && FitsSchema(schema, record)
    requires forall i :: 0 <= i < |schema| && record[i].Some? ==> schema[i].kind != StringListKind
    ensures read == Ok(Fields(schema, Normalized(schema, record)))
  {
    var mux := new Multiplexer(true, db);
    var context := new RedisContext(mux);
    var written := context.Set(key, Fields(schema, record), ttl, listJson, false);
    RecordSurvivesStore(db, key, schema, record, listJson);
    read := context.Get(key, AsRecord(schema, true), false);
  }

  /** CleanCacheByKey removes the key: KeyExists answers false afterwards. */
  method CleanedKeyIsGone(db: Db, key: string) returns (before: Result<bool, StoreError>, after: Result<bool, StoreError>)
    ensures before == Ok(key in db)
    ensures after == Ok(false)
  {
    var mux := new Multiplexer(true, db);
    var context := new RedisContext(mux);
    before := context.KeyExists(key, false);
    var cleaned := context.CleanCacheByKey(key, false);
    after := context.KeyExists(key, false);
  }

  /** A miss asks the fallback once and caches its answer; the next call for the key is
      a hit that answers the same data, with the caller's own message and code, without
      asking the fallback. */
  method MissThenHit<T>(db: Db, key: string, ttl: Millis, fallback: nat -> Invocation<T>, json: Json<T>,
                        init: Response<T>)
    returns (first: Response<T>, firstRuns: nat, second: Response<T>, secondRuns: nat)
    requires key !in db
    requires fallback(0).Returns? && fallback(0).response.code == 0 && fallback(0).response.data.Some?
    requires json.deserialize(json.serialize(fallback(0).response.data)) == Decoded(fallback(0).response.data)
    requires init.code == 0
    ensures first == fallback(0).response && firstRuns == 1
    ensures second == init.(data := first.data) && secondRuns == 0
  {
    var mux := new Multiplexer(true, db);
    var context := new RedisContext(mux);
    var escaped;
    first, escaped, firstRuns := context.TryToGetAndSetData(key, ttl, fallback, json, init, {});
    second, escaped, secondRuns := context.TryToGetAndSetData(key, ttl, fallback, json, init, {});
  }

  /** A cached string that does not deserialise answers the caller with code -3 and no
      fresh data, and is deleted, so the next call is a miss that the fallback answers. */
  method CorruptEntrySelfHeals<T>(db: Db, key: string, corrupt: string, ttl: Millis, fallback: nat -> Invocation<T>,
                                  json: Json<T>, init: Response<T>)
    returns (first: Response<T>, firstRuns: nat, second: Response<T>, secondRuns: nat)
    requires json.deserialize(corrupt).DecodeThrows?
    requires fallback(0).Returns?
    ensures first == init.(code := DecodeFailureCode) && firstRuns == 0
    ensures second == fallback(0).response && secondRuns == 1
  {
    var mux := new Multiplexer(true, db[key := StrEntry(corrupt, None)]);
    var context := new RedisContext(mux);
    var escaped;
    first, escaped, firstRuns := context.TryToGetAndSetData(key, ttl, fallback, json, init, {});
    second, escaped, secondRuns := context.TryToGetAndSetData(key, ttl, fallback, json, init, {});
  }

  /** The first GetInstance fixes the multiplexer for good: a call given a disconnected
      multiplexer throws but still installs the context over it, and a later call given a
      connected one returns that same context. */
  method FirstMultiplexerSticks(down: Multiplexer, up: Multiplexer)
    returns (first: Result<RedisContext, StoreError>, second: Result<RedisContext, StoreError>)
    requires !down.isConnected && up.isConnected
    ensures first == Err(NotConnected)
    ensures second.Ok? && second.value.mux == down
  {
    var state := new StaticState();
    first := state.GetInstance(down);
    second := state.GetInstance(up);
  }
}
