/** The Redis database behind `_redisDB`, reduced to the commands RedisContext issues:
    SET (StringSet), HSET (HashSet), EXPIRE (KeyExpireAsync), GET (StringGet) and HGETALL
    (HashGetAll). DEL and EXISTS are map operations written inline in RedisContext. A
    key holds either a string or a hash, and optionally a time to live. */
module RedisStore {
  import opened Wrappers
  import opened RedisConverter

  /** A time to live in milliseconds; Redis refuses an expiry that is not positive. */
  type Millis = n: int | n > 0 witness 1

  datatype Entry =
    | StrEntry(value: string, ttl: Option<Millis>)
    | HashEntries(fields: map<string, string>, ttl: Option<Millis>)

  type Db = map<string, Entry>

  /** Why a store call throws: the connection is down, the key holds the other kind of
      value (WRONGTYPE), the call itself failed (a dropped connection, a timeout), a null
      object was given to be stored as a hash (NullReferenceException), or a read value
      could not be rebuilt into the requested type. */
  datatype StoreError = NotConnected | WrongType | StoreFault | NullReference | Conversion(error: ConversionError)

  /** SET key value [PX ttl]: replaces whatever the key held, and its expiry; GET then
      reads the value back. */
  function StringSet(db: Db, key: string, value: string, ttl: Option<Millis>): (r: Db)
    ensures StringGet(r, key) == Ok(Some(value))
    ensures key in r && r[key].ttl == ttl
    ensures r - {key} == db - {key}
  {
    db[key := StrEntry(value, ttl)]
  }

  /** The field names a list of entries mentions. */
  function Names(entries: seq<HashEntry>): set<string> {
    set k | 0 <= k < |entries| :: entries[k].name
  }

  /** The fields of a hash after HSET writes `entries` into it, one after the other. */
  function PutFields(fields: map<string, string>, entries: seq<HashEntry>): (r: map<string, string>)
    ensures r.Keys == fields.Keys + Names(entries)
    decreases |entries|
  {
    if entries == [] then fields
    else
      var front := entries[..|entries| - 1];
      var last := entries[|entries| - 1];
      assert Names(entries) == Names(front) + {last.name};
      PutFields(fields, front)[last.name := last.value]
  }

  /** After HSET, a field no entry names keeps its value, and a name takes the value of
      the last entry that writes it. */
  lemma {:induction false} PutFieldsAt(fields: map<string, string>, entries: seq<HashEntry>, n: string)
    ensures (forall k :: 0 <= k < |entries| ==> entries[k].name != n) && n in fields ==>
      PutFields(fields, entries)[n] == fields[n]
    ensures forall k :: 0 <= k < |entries| && entries[k].name == n && (forall j :: k < j < |entries| ==> entries[j].name != n) ==>
      PutFields(fields, entries)[n] == entries[k].value
    decreases |entries|
  {
    if entries != [] {
      var front := entries[..|entries| - 1];
      var last := entries[|entries| - 1];
      if last.name != n {
        PutFieldsAt(fields, front, n);
        assert forall k :: 0 <= k < |front| ==> front[k] == entries[k];
      }
    }
  }

  /** HSET key entries...: adds the fields to the hash at `key` (creating it), keeping its
      other fields and its expiry; no command is sent for an empty list. */
  function HashSet(db: Db, key: string, entries: seq<HashEntry>): (r: Result<Db, StoreError>)
    ensures r.Err? <==> |entries| > 0 && key in db && db[key].StrEntry?
    ensures |entries| == 0 ==> r == Ok(db)
    ensures r.Ok? && |entries| > 0 ==>
      && key in r.value
      && r.value[key] == HashEntries(PutFields(if key in db then db[key].fields else map[], entries),
                                     if key in db then db[key].ttl else None)
    ensures r.Ok? ==> r.value - {key} == db - {key}
  {
    if |entries| == 0 then Ok(db)
    else if key in db && db[key].StrEntry? then Err(WrongType)
    else
      var current := if key in db then db[key] else HashEntries(map[], None);
      Ok(db[key := HashEntries(PutFields(current.fields, entries), current.ttl)])
  }

  /** EXPIRE key ttl: sets the expiry of an existing key; a missing key is left missing. */
  function KeyExpire(db: Db, key: string, ttl: Millis): (r: Db)
    ensures r.Keys == db.Keys
    ensures r - {key} == db - {key}
    ensures key in db ==> r[key].ttl == Some(ttl)
    ensures key in db ==> r[key].(ttl := db[key].ttl) == db[key]
  {
    if key in db then db[key := db[key].(ttl := Some(ttl))] else db
  }

  /** The expiry Set issues only when a ttl is given. */
  function ExpireIfGiven(db: Db, key: string, ttl: Option<Millis>): Db {
    if ttl.Some? then KeyExpire(db, key, ttl.value) else db
  }

  /** GET key: null when the key is missing, WRONGTYPE when it holds a hash. */
  function StringGet(db: Db, key: string): (r: Result<Option<string>, StoreError>)
    ensures r == Ok(None) <==> key !in db
    ensures r.Err? <==> key in db && db[key].HashEntries?
    ensures r.Err? ==> r.error == WrongType
    ensures r.Ok? && r.value.Some? ==> key in db && db[key] == StrEntry(r.value.value, db[key].ttl)
  {
    if key !in db then Ok(None)
    else if db[key].HashEntries? then Err(WrongType)
    else Ok(Some(db[key].value))
  }

  /** EXPIRE changes no value: GET and HGETALL read the same from every key afterwards. */
  lemma {:induction false} ExpiryKeepsReads(db: Db, key: string, ttl: Millis, other: string)
    ensures StringGet(KeyExpire(db, key, ttl), other) == StringGet(db, other)
    ensures HashFieldsAt(KeyExpire(db, key, ttl), other) == HashFieldsAt(db, other)
  {
    if other != key && other in db {
      assert (KeyExpire(db, key, ttl) - {key})[other] == (db - {key})[other];
    }
  }

  /** The fields HGETALL reads: none when the key is missing, WRONGTYPE when it holds a string. */
  function HashFieldsAt(db: Db, key: string): Result<map<string, string>, StoreError> {
    if key !in db then Ok(map[])
    else if db[key].StrEntry? then Err(WrongType)
    else Ok(db[key].fields)
  }

  /** `entries` lists every field of the hash exactly once, in some order. */
  predicate IsListing(entries: seq<HashEntry>, fields: map<string, string>) {
    && (forall k :: 0 <= k < |entries| ==> entries[k].name in fields && fields[entries[k].name] == entries[k].value)
    && (forall k, l :: 0 <= k < l < |entries| ==> entries[k].name != entries[l].name)
    && (forall n :: n in fields ==> exists k :: 0 <= k < |entries| && entries[k].name == n)
  }

  /** HGETALL: the fields of a hash as a list of entries, in an order Redis chooses. */
  method HashGetAll(fields: map<string, string>) returns (entries: seq<HashEntry>)
    ensures IsListing(entries, fields)
  {
    entries := [];
    var rest := fields.Keys;
    while rest != {}
      invariant rest <= fields.Keys
      invariant forall k :: 0 <= k < |entries| ==> entries[k].name in fields && fields[entries[k].name] == entries[k].value
      invariant forall k :: 0 <= k < |entries| ==> entries[k].name !in rest
      invariant forall k, l :: 0 <= k < l < |entries| ==> entries[k].name != entries[l].name
      invariant forall n :: n in fields && n !in rest ==> exists k :: 0 <= k < |entries| && entries[k].name == n
      decreases rest
    {
      var n :| n in rest;
      ghost var before := entries;
      entries := entries + [HashEntry(n, fields[n])];
      assert forall k :: 0 <= k < |before| ==> entries[k] == before[k];
      assert entries[|before|].name == n;
      rest := rest - {n};
    }
  }

  /** What the lookup of each property finds in a hash's fields. */
  function FieldLookups(schema: Schema, fields: map<string, string>): (found: seq<Option<string>>)
    ensures |found| == |schema|
  {
    seq(|schema|, i requires 0 <= i < |schema| =>
      if schema[i].name in fields then Some(fields[schema[i].name]) else None)
  }

  /** However HGETALL orders a hash's fields, ConvertFromRedis finds each property's field. */
  lemma {:induction false} ListingLookups(schema: Schema, entries: seq<HashEntry>, fields: map<string, string>)
    requires IsListing(entries, fields)
    ensures Lookups(schema, entries) == FieldLookups(schema, fields)
  {
    forall i | 0 <= i < |schema| ensures Lookups(schema, entries)[i] == FieldLookups(schema, fields)[i] {
      var name := schema[i].name;
      var first := FirstWithName(entries, name);
      if name in fields {
        var k :| 0 <= k < |entries| && entries[k].name == name;
        assert first.Some?;
      }
    }
  }

  /** Entries with distinct names, written into an empty hash, list that hash. */
  lemma {:induction false} DistinctEntriesListing(entries: seq<HashEntry>)
    requires forall k, l :: 0 <= k < l < |entries| ==> entries[k].name != entries[l].name
    ensures IsListing(entries, PutFields(map[], entries))
  {
    var fields := PutFields(map[], entries);
    forall k | 0 <= k < |entries| ensures entries[k].name in fields && fields[entries[k].name] == entries[k].value {
      assert entries[k].name in Names(entries);
      PutFieldsAt(map[], entries, entries[k].name);
    }
  }

  /** HSET under a key that held nothing creates a hash of just the entries written. */
  lemma {:induction false} HashSetFreshKey(db: Db, key: string, entries: seq<HashEntry>)
    requires key !in db
    ensures HashSet(db, key, entries).Ok?
    ensures HashFieldsAt(HashSet(db, key, entries).value, key) == Ok(PutFields(map[], entries))
  {
  }

  /** A record written with HSET under a key that held nothing reads back, through
      HGETALL and ConvertFromRedis, as itself with its null properties at their
      defaults. */
  lemma {:induction false} RecordSurvivesStore(db: Db, key: string, schema: Schema, record: Record, listJson: seq<string> -> string)
    requires key !in db
    requires DistinctNames(schema) && FitsSchema(schema, record)
    requires forall i :: 0 <= i < |schema| && record[i].Some? ==> schema[i].kind != StringListKind
    ensures var written := HashSet(db, key, ToHashEntries(schema, record, listJson));
      && written.Ok?
      && HashFieldsAt(written.value, key).Ok?
      && Assemble(schema, FieldLookups(schema, HashFieldsAt(written.value, key).value)) == Ok(Normalized(schema, record))
  {
    var entries := ToHashEntries(schema, record, listJson);
    HashSetFreshKey(db, key, entries);
    var fields := PutFields(map[], entries);
    EntriesNamesDistinct(schema, record, listJson);
    DistinctEntriesListing(entries);
    ListingLookups(schema, entries, fields);
    RoundTrip(schema, record, listJson);
  }

  /** With distinct property names, no two entries of a record share a name. */
  lemma {:induction false} EntriesNamesDistinct(schema: Schema, record: Record, listJson: seq<string> -> string)
    requires |record| == |schema| && DistinctNames(schema)
    ensures var entries := ToHashEntries(schema, record, listJson);
      forall k, l :: 0 <= k < l < |entries| ==> entries[k].name != entries[l].name
  {
    var present := PresentIndices(record);
    var entries := ToHashEntries(schema, record, listJson);
    forall k, l | 0 <= k < l < |entries| ensures entries[k].name != entries[l].name {
      assert entries[k].name == schema[present[k]].name && entries[l].name == schema[present[l]].name;
    }
  }

  /** HSET only adds fields: a field written earlier that the new record leaves null
      keeps its old value, and reads back into the rebuilt record. */
  lemma {:induction false} StaleFieldSurvives(db: Db, key: string, schema: Schema, record: Record, listJson: seq<string> -> string, i: nat)
    requires |record| == |schema| && DistinctNames(schema) && i < |schema|
    requires key in db && db[key].HashEntries? && schema[i].name in db[key].fields
    requires record[i].None?
    ensures var written := HashSet(db, key, ToHashEntries(schema, record, listJson));
      && written.Ok?
      && HashFieldsAt(written.value, key).Ok?
      && FieldLookups(schema, HashFieldsAt(written.value, key).value)[i] == Some(db[key].fields[schema[i].name])
  {
    var entries := ToHashEntries(schema, record, listJson);
    forall k | 0 <= k < |entries| ensures entries[k].name != schema[i].name {
      assert entries[k] in entries;
    }
    PutFieldsAt(db[key].fields, entries, schema[i].name);
  }
}
