/** The cache client (Redis.Helper/RedisContext.cs): a process-wide RedisContext over one
    connection multiplexer, with typed Set/Get, KeyExists, CleanCacheByKey and the
    read-through call TryToGetAndSetData.

    The multiplexer is an object whose connection state and database the client reads
    and writes. A failure of an individual Redis command (a dropped connection, a
    timeout) is chosen by the caller through a `fault` flag, or a set of `Step`s for
    TryToGetAndSetData, since it depends on the network. The Newtonsoft JSON serialiser
    is a parameter (`Json`), and the caller's fallback is a function from the number of
    earlier invocations within the call to what that invocation does. */
module RedisHelper {
  import opened Wrappers
  import opened RedisConverter
  import opened RedisStore

  /** An IConnectionMultiplexer: whether it is connected, and the database behind it. */
  class Multiplexer {
    var isConnected: bool
    var store: Db

    constructor (connected: bool, initial: Db)
      ensures isConnected == connected && store == initial
    {
      isConnected := connected;
      store := initial;
    }
  }

  /** What Set writes and Get reads: a string (typeof(T) == typeof(string)), an object
      of a property schema, stored as a hash, or a null object of a type other than
      string. */
  datatype Payload =
    | Text(text: Option<string>)
    | Fields(schema: Schema, record: Record)
    | NullObject

  /** The T of Get<T>: a string, or an object of the given schema; `creatable` says
      whether the type has a public parameterless constructor. */
  datatype Codec = AsText | AsRecord(schema: Schema, creatable: bool)

  /** The Response<T> envelope of Redis.Helper.Models: data, a message and a status
      code, 0 meaning success. */
  datatype Response<T> = Response(data: Option<T>, message: string, code: int)

  /** The code TryToGetAndSetData puts in the envelope when a cached value cannot be
      deserialised. */
  const DecodeFailureCode: int := -3

  /** One invocation of the caller's fallback: it returns an envelope, returns null, or
      throws. */
  datatype Invocation<T> = Returns(response: Response<T>) | ReturnsNull | Throws

  /** JsonConvert.DeserializeObject<T>: a value (possibly null), or an exception. */
  datatype Decoded<T> = Decoded(data: Option<T>) | DecodeThrows

  /** JsonConvert as the client uses it: SerializeObject on a T and on a list of strings,
      and DeserializeObject<T>. */
  datatype Json<!T> = Json(
    serialize: Option<T> -> string,
    deserialize: string -> Decoded<T>,
    serializeList: seq<string> -> string)

  /** The Redis commands TryToGetAndSetData issues, each of which may fail. */
  datatype Step = ExistsStep | WriteStep | ReadStep | DeleteStep

  /** The database after Set writes `payload`, or the error Redis answers with. */
  function Written(db: Db, key: string, payload: Payload, ttl: Option<Millis>, listJson: seq<string> -> string): Result<Db, StoreError>
    requires payload.Fields? ==> |payload.record| == |payload.schema|
  {
    match payload
    case Text(text) =>
      Ok(ExpireIfGiven(StringSet(db, key, if text.Some? then text.value else "", ttl), key, ttl))
    case Fields(schema, record) =>
      (match HashSet(db, key, ToHashEntries(schema, record, listJson))
       case Ok(db') => Ok(ExpireIfGiven(db', key, ttl))
       case Err(e) => Err(e))
    case NullObject => Err(NullReference)
  }

  /** The envelope after the catch block of TryToGetAndSetData reruns the fallback: the
      rerun's envelope, or the envelope as it stood when the rerun failed. */
  function Rerun<T>(before: Response<T>, rerun: Invocation<T>): Response<T> {
    if rerun.Returns? then rerun.response else before
  }

  /** What deserialising the cached string at `key` gives; reading a hash with GET, or a
      failed read, throws like a failed deserialisation. */
  function Decoding<T>(db: Db, key: string, json: Json<T>, readFault: bool): Decoded<T> {
    if readFault || key !in db || db[key].HashEntries? then DecodeThrows
    else json.deserialize(db[key].value)
  }

  /** The envelope after a cache hit is deserialised into it. */
  function Seen<T>(init: Response<T>, decoded: Decoded<T>): Response<T> {
    if decoded.Decoded? then init.(data := decoded.data) else init.(code := DecodeFailureCode)
  }

  /** A hit is evicted when the envelope carries a non-zero code or null data. */
  predicate Evicts<T>(seen: Response<T>) {
    seen.code != 0 || seen.data.None?
  }

  class RedisContext {
    const mux: Multiplexer

    constructor (m: Multiplexer)
      ensures mux == m
    {
      mux := m;
    }

    /** Set<T>: refuses to run while disconnected; stores a string with SET (an absent
        string as ""), anything else as hash fields with HSET, then sets the expiry when
        one is given. A null object that is not a string throws in ToHashEntries before
        any command is sent. Only `key` changes, and nothing changes when the call throws. */
    method Set(key: string, payload: Payload, ttl: Option<Millis>, listJson: seq<string> -> string, fault: bool)
      returns (outcome: Outcome<StoreError>)
      requires payload.Fields? ==> |payload.record| == |payload.schema|
      modifies mux
      ensures mux.isConnected == old(mux.isConnected)
      ensures mux.store - {key} == old(mux.store) - {key}
      ensures outcome.Fail? ==> mux.store == old(mux.store)
      ensures !old(mux.isConnected) ==> outcome == Fail(NotConnected)
      ensures old(mux.isConnected) && payload.NullObject? ==> outcome == Fail(NullReference)
      ensures old(mux.isConnected) && fault && !payload.NullObject? ==> outcome == Fail(StoreFault)
      ensures old(mux.isConnected) && !fault && payload.Text? ==>
        outcome == Pass &&
        mux.store == old(mux.store)[key := StrEntry(if payload.text.Some? then payload.text.value else "", ttl)]
      ensures old(mux.isConnected) && !fault && payload.Fields? ==>
        (outcome == Pass <==> Written(old(mux.store), key, payload, ttl, listJson).Ok?) &&
        (outcome.Pass? ==> mux.store == Written(old(mux.store), key, payload, ttl, listJson).value) &&
        (outcome.Fail? ==> outcome.error == WrongType)
    {
      if !mux.isConnected {
        return Fail(NotConnected);
      }
      if payload.NullObject? {
        return Fail(NullReference);
      }
      if fault {
        return Fail(StoreFault);
      }
      var db := mux.store;
      if payload.Text? {
        db := StringSet(db, key, if payload.text.Some? then payload.text.value else "", ttl);
      } else {
        var hashed := HashSet(db, key, ToHashEntries(payload.schema, payload.record, listJson));
        if hashed.Err? {
          return Fail(hashed.error);
        }
        db := hashed.value;
      }
      if ttl.Some? {
        db := KeyExpire(db, key, ttl.value);
      }
      mux.store := db;
      outcome := Pass;
    }

    /** Get<T>: refuses to run while disconnected; reads a string with GET (null for a
        missing key), anything else by rebuilding it with ConvertFromRedis from the
        fields HGETALL lists. */
    method Get(key: string, codec: Codec, fault: bool) returns (r: Result<Payload, StoreError>)
      ensures !mux.isConnected ==> r == Err(NotConnected)
      ensures mux.isConnected && fault ==> r == Err(StoreFault)
      ensures mux.isConnected && !fault && codec.AsText? ==>
        (r.Ok? <==> !(key in mux.store && mux.store[key].HashEntries?)) &&
        (r.Ok? ==> r.value == Text(if key in mux.store then Some(mux.store[key].value) else None)) &&
        (r.Err? ==> r.error == WrongType)
      ensures mux.isConnected && !fault && codec.AsRecord? ==>
        (HashFieldsAt(mux.store, key).Err? ==> r == Err(WrongType)) &&
        (HashFieldsAt(mux.store, key).Ok? && !codec.creatable ==> r == Err(Conversion(NoParameterlessConstructor))) &&
        (HashFieldsAt(mux.store, key).Ok? && codec.creatable ==>
          var rebuilt := Assemble(codec.schema, FieldLookups(codec.schema, HashFieldsAt(mux.store, key).value));
          (rebuilt.Ok? ==> r == Ok(Fields(codec.schema, rebuilt.value))) &&
          (rebuilt.Err? ==> r == Err(Conversion(rebuilt.error))))
    {
      if !mux.isConnected {
        return Err(NotConnected);
      }
      if fault {
        return Err(StoreFault);
      }
      if codec.AsText? {
        var read := StringGet(mux.store, key);
        if read.Err? {
          return Err(read.error);
        }
        return Ok(Text(read.value));
      }
      var fields := HashFieldsAt(mux.store, key);
      if fields.Err? {
        return Err(fields.error);
      }
      var entries := HashGetAll(fields.value);
      ListingLookups(codec.schema, entries, fields.value);
      var rebuilt := ConvertFromRedis(codec.schema, codec.creatable, entries);
      if rebuilt.Err? {
        return Err(Conversion(rebuilt.error));
      }
      return Ok(Fields(codec.schema, rebuilt.value));
    }

    /** KeyExists: EXISTS, with no connection check of its own, so a disconnected
        multiplexer fails the command like any other fault. */
    method KeyExists(key: string, fault: bool) returns (r: Result<bool, StoreError>)
      ensures !mux.isConnected || fault ==> r == Err(StoreFault)
      ensures mux.isConnected && !fault ==> r == Ok(key in mux.store)
    {
      if !mux.isConnected || fault {
        return Err(StoreFault);
      }
      return Ok(key in mux.store);
    }

    /** CleanCacheByKey: DEL, removing the key and leaving every other key alone. */
    method CleanCacheByKey(key: string, fault: bool) returns (outcome: Outcome<StoreError>)
      modifies mux
      ensures mux.isConnected == old(mux.isConnected)
      ensures !old(mux.isConnected) || fault ==> outcome == Fail(StoreFault) && mux.store == old(mux.store)
      ensures old(mux.isConnected) && !fault ==> outcome == Pass && mux.store == old(mux.store) - {key}
    {
      if !mux.isConnected || fault {
        return Fail(StoreFault);
      }
      mux.store := mux.store - {key};
      outcome := Pass;
    }

    /** TryToGetAndSetData: answers from the cache when `key` holds a decodable value,
        otherwise from the fallback, caching the fallback's successful answer as JSON for
        `ttl`. A cache failure before the fallback has answered makes the catch block run
        the fallback; `escaped` says the catch block itself threw, and `runs` counts the
        fallback's invocations. */
    method TryToGetAndSetData<T>(key: string, ttl: Millis, fallback: nat -> Invocation<T>, json: Json<T>,
                                 init: Response<T>, faults: set<Step>)
      returns (resp: Response<T>, escaped: bool, runs: nat)
      modifies mux
      ensures mux.isConnected == old(mux.isConnected)
      ensures mux.store - {key} == old(mux.store) - {key}
      ensures runs <= 2 && (fallback(0).Returns? ==> runs <= 1)
      // disconnected: the fallback answers; when it fails, the catch block asks it again
      ensures !old(mux.isConnected) ==>
        mux.store == old(mux.store) &&
        if fallback(0).Returns? then resp == fallback(0).response && !escaped && runs == 1
        else resp == Rerun(init, fallback(1)) && escaped == !fallback(1).Returns? && runs == 2
      // EXISTS fails: the catch block asks the fallback
      ensures old(mux.isConnected) && ExistsStep in faults ==>
        mux.store == old(mux.store) &&
        resp == Rerun(init, fallback(0)) && escaped == !fallback(0).Returns? && runs == 1
      // miss and the fallback throws: it is asked again
      ensures old(mux.isConnected) && ExistsStep !in faults && key !in old(mux.store) && fallback(0).Throws? ==>
        mux.store == old(mux.store) &&
        resp == Rerun(init, fallback(1)) && escaped == !fallback(1).Returns? && runs == 2
      // miss and the fallback returns null: the envelope stays as it was
      ensures old(mux.isConnected) && ExistsStep !in faults && key !in old(mux.store) && fallback(0).ReturnsNull? ==>
        mux.store == old(mux.store) && resp == init && !escaped && runs == 1
      // miss and the fallback reports an error: passed on, not cached
      ensures old(mux.isConnected) && ExistsStep !in faults && key !in old(mux.store) &&
              fallback(0).Returns? && fallback(0).response.code != 0 ==>
        mux.store == old(mux.store) && resp == fallback(0).response && !escaped && runs == 1
      // miss and the fallback succeeds: cached as JSON with the ttl, and passed on
      ensures old(mux.isConnected) && ExistsStep !in faults && key !in old(mux.store) &&
              fallback(0).Returns? && fallback(0).response.code == 0 && WriteStep !in faults ==>
        mux.store == old(mux.store)[key := StrEntry(json.serialize(fallback(0).response.data), Some(ttl))] &&
        resp == fallback(0).response && !escaped && runs == 1
      // miss, the fallback succeeds but caching fails: the answer is lost, not rerun
      ensures old(mux.isConnected) && ExistsStep !in faults && key !in old(mux.store) &&
              fallback(0).Returns? && fallback(0).response.code == 0 && WriteStep in faults ==>
        mux.store == old(mux.store) && resp == init && !escaped && runs == 1
      // hit: the cached value is decoded into the envelope; a usable one is kept
      ensures old(mux.isConnected) && ExistsStep !in faults && key in old(mux.store) ==>
        var seen := Seen(init, Decoding(old(mux.store), key, json, ReadStep in faults));
        (!Evicts(seen) ==> mux.store == old(mux.store) && resp == seen && !escaped && runs == 0) &&
        (Evicts(seen) && DeleteStep !in faults ==>
          mux.store == old(mux.store) - {key} && resp == seen && !escaped && runs == 0) &&
        (Evicts(seen) && DeleteStep in faults ==>
          mux.store == old(mux.store) && resp == Rerun(seen, fallback(0)) && escaped == !fallback(0).Returns? && runs == 1)
    {
      resp, escaped, runs := init, false, 0;
      var dbMethodIsInvoked := false;
      var thrown := false;
      if !mux.isConnected {
        var result := fallback(runs);
        runs := runs + 1;
        if result.Returns? {
          resp := result.response;
        } else {
          thrown := true;
        }
      } else {
        var present := KeyExists(key, ExistsStep in faults);
        if present.Err? {
          thrown := true;
        } else if !present.value {
          var result := fallback(runs);
          runs := runs + 1;
          if result.Throws? {
            thrown := true;
          } else {
            dbMethodIsInvoked := true;
            if result.Returns? && result.response.code == 0 {
              var written := Set(key, Text(Some(json.serialize(result.response.data))), Some(ttl),
                                 json.serializeList, WriteStep in faults);
              thrown := written.Fail?;
            }
            if !thrown {
              if result.Returns? {
                resp := result.response;
              } else {
                thrown := true;
              }
            }
          }
        } else {
          var read := Get(key, AsText, ReadStep in faults);
          var decoded := if read.Ok? && read.value.Text? && read.value.text.Some?
            then json.deserialize(read.value.text.value) else DecodeThrows;
          if decoded.Decoded? {
            resp := resp.(data := decoded.data);
          } else {
            resp := resp.(code := DecodeFailureCode);
          }
          if resp.code != 0 || resp.data.None? {
            var deleted := CleanCacheByKey(key, DeleteStep in faults);
            thrown := deleted.Fail?;
          }
        }
      }
      if thrown && !dbMethodIsInvoked {
        var result := fallback(runs);
        runs := runs + 1;
        if result.Returns? {
          resp := result.response;
        } else {
          escaped := true;
        }
      }
    }
  }

  /** The static `_redisContext` field of RedisContext. */
  class StaticState {
    var redisContext: RedisContext?

    constructor ()
      ensures redisContext == null
    {
      redisContext := null;
    }

    /** GetInstance: the first call installs a context over its multiplexer, and every
        call returns that first context, whatever multiplexer it is given, but throws
        when the multiplexer it is given is disconnected. */
    method GetInstance(m: Multiplexer) returns (r: Result<RedisContext, StoreError>)
      modifies this
      ensures old(redisContext) != null ==> redisContext == old(redisContext)
      ensures old(redisContext) == null ==> redisContext != null && fresh(redisContext) && redisContext.mux == m
      ensures r.Ok? <==> m.isConnected
      ensures r.Ok? ==> r.value == redisContext
      ensures r.Err? ==> r.error == NotConnected
    {
      if redisContext == null {
        redisContext := new RedisContext(m);
      }
      if !m.isConnected {
        return Err(NotConnected);
      }
      return Ok(redisContext);
    }
  }
}
