/** The record-to-hash marshaler (Redis.Helper/RedisConverter.cs).

    Reflection over a C# type is replaced by an explicit schema: the type's public
    properties in the order GetProperties returns them, each with its name, its kind and
    the value a freshly created instance holds in it. A record is one optional value per property, aligned
    with the schema; None is a null property. */
module RedisConverter {
  import opened Wrappers
  import opened DotNetConvert

  /** The property types the marshaler supports: three scalars and a list of strings
      (a List<string> is an IEnumerable<object>, so it takes the JSON branch). */
  datatype Kind = StringKind | IntKind | BoolKind | StringListKind

  datatype Value = Str(s: string) | Int(n: int) | Bool(b: bool) | StrList(items: seq<string>)

  /** A public property: its name, its type, and its value in a new instance. */
  datatype Property = Property(name: string, kind: Kind, initial: Option<Value>)

  type Schema = seq<Property>

  type Record = seq<Option<Value>>

  /** StackExchange.Redis's HashEntry: one field of a Redis hash. */
  datatype HashEntry = HashEntry(name: string, value: string)

  /** The exceptions ConvertFromRedis throws: the one Convert.ChangeType throws, and the
      MissingMethodException of Activator.CreateInstance for a type without a public
      parameterless constructor. .NET's conversion exception does not name the property;
      the model labels the failure with the property being rebuilt, so that a proof can
      say which property failed. */
  datatype ConversionError = CannotConvert(property: string) | NoParameterlessConstructor

  predicate HasKind(v: Value, k: Kind) {
    match k
    case StringKind => v.Str?
    case IntKind => v.Int? && IsInt32(v.n)
    case BoolKind => v.Bool?
    case StringListKind => v.StrList?
  }

  /** The record is an instance of the schema's type; an int or bool property, being a
      value type, is never null. */
  predicate FitsSchema(schema: Schema, record: Record) {
    && |record| == |schema|
    && (forall i :: 0 <= i < |schema| && record[i].Some? ==> HasKind(record[i].value, schema[i].kind))
    && (forall i :: 0 <= i < |schema| && (schema[i].kind == IntKind || schema[i].kind == BoolKind) ==> record[i].Some?)
  }

  /** No two properties share a name. This is an assumption of the model: a C# type may
      hide an inherited property with a `new` one of the same name, and GetProperties then
      returns both. */
  predicate DistinctNames(schema: Schema) {
    forall i, j :: 0 <= i < j < |schema| ==> schema[i].name != schema[j].name
  }

  /** The value a rebuilt record holds for a property: the stored one, or the default. */
  function Normalized(schema: Schema, record: Record): (r: Record)
    requires |record| == |schema|
    ensures |r| == |schema|
  {
    seq(|schema|, i requires 0 <= i < |schema| =>
      if record[i].Some? then record[i] else schema[i].initial)
  }

  // ---------------------------------------------------------------- ToHashEntries

  /** The hash value of a non-null property: JSON (by the `listJson` serialiser) for an
      IEnumerable<object>, Convert.ToString for everything else, which Convert.ChangeType
      reads back as the same value for every scalar kind. */
  function HashValue(v: Value, listJson: seq<string> -> string): (r: string)
    ensures forall k :: HasKind(v, k) && k != StringListKind ==> ChangeType(r, k) == Some(v)
  {
    match v
    case StrList(items) => listJson(items)
    case Str(s) => s
    case Int(n) => FormatInt32(n)
    case Bool(b) => FormatBool(b)
  }

  /** The `Where(x => x.GetValue(obj) != null)` step: the positions of the non-null
      properties, in the order GetProperties returns them. */
  function PresentIndices(record: Record): (idx: seq<nat>)
    ensures forall k :: 0 <= k < |idx| ==> idx[k] < |record| && record[idx[k]].Some?
    ensures forall k, l :: 0 <= k < l < |idx| ==> idx[k] < idx[l]
    ensures forall i :: 0 <= i < |record| && record[i].Some? ==> i in idx
    decreases |record|
  {
    if record == [] then []
    else
      var front := PresentIndices(record[..|record| - 1]);
      if record[|record| - 1].Some? then front + [|record| - 1] else front
  }

  /** RedisConverter.ToHashEntries: one entry per non-null property (the `Select` step).
      Every entry carries the name and encoded value of a non-null property, every
      non-null property has such an entry, and there are no more entries than properties. */
  function ToHashEntries(schema: Schema, record: Record, listJson: seq<string> -> string): (r: seq<HashEntry>)
    requires |record| == |schema|
    ensures |r| <= |schema|
    ensures forall e :: e in r ==> exists i :: 0 <= i < |schema| && EncodesProperty(schema, record, listJson, i, e)
    ensures forall i :: 0 <= i < |schema| && record[i].Some? ==>
      exists k :: 0 <= k < |r| && EncodesProperty(schema, record, listJson, i, r[k])
  {
    var present := PresentIndices(record);
    IncreasingBounded(present, |schema|);
    var r := seq(|present|, k requires 0 <= k < |present| =>
      HashEntry(schema[present[k]].name, HashValue(record[present[k]].value, listJson)));
    assert forall k :: 0 <= k < |r| ==> EncodesProperty(schema, record, listJson, present[k], r[k]);
    EntriesEncodeProperties(schema, record, listJson, present, r);
    r
  }

  // ---------------------------------------------------------------- ConvertFromRedis

  /** The `FirstOrDefault` lookup: the position of the first entry whose name equals
      `name` exactly, if any. */
  function FirstWithName(entries: seq<HashEntry>, name: string): (r: Option<nat>)
    ensures r.Some? ==> r.value < |entries| && entries[r.value].name == name
    ensures r.Some? ==> forall j :: 0 <= j < r.value ==> entries[j].name != name
    ensures r.None? ==> forall j :: 0 <= j < |entries| ==> entries[j].name != name
  {
    if entries == [] then None
    else if entries[0].name == name then Some(0)
    else match FirstWithName(entries[1..], name)
      case None => None
      case Some(k) => Some(k + 1)
  }

  /** The stored text for a property, if some entry bears its name. */
  function Found(entries: seq<HashEntry>, name: string): Option<string> {
    match FirstWithName(entries, name)
    case None => None
    case Some(k) => Some(entries[k].value)
  }

  /** Convert.ChangeType(text, property type); None stands for the exception it throws.
      A string cannot be changed into a List<string>, so a list property never converts. */
  function ChangeType(text: string, k: Kind): (r: Option<Value>)
    ensures r.Some? ==> HasKind(r.value, k)
    ensures k == StringKind ==> r == Some(Str(text))
    ensures k == StringListKind ==> r.None?
  {
    match k
    case StringKind => Some(Str(text))
    case IntKind => (match ParseInt32(text) case Some(n) => Some(Int(n)) case None => None)
    case BoolKind => (match ParseBool(text) case Some(b) => Some(Bool(b)) case None => None)
    case StringListKind => None
  }

  /** One iteration of the loop: the property keeps its default when nothing was found,
      and otherwise takes the converted text or throws. */
  function Rebuilt(p: Property, found: Option<string>): Result<Option<Value>, ConversionError> {
    match found
    case None => Ok(p.initial)
    case Some(text) =>
      match ChangeType(text, p.kind)
      case None => Err(CannotConvert(p.name))
      case Some(v) => Ok(Some(v))
  }

  /** The properties rebuilt in the order GetProperties returns them; the first that
      fails to convert aborts. */
  function Assemble(schema: Schema, found: seq<Option<string>>): Result<Record, ConversionError>
    requires |found| == |schema|
  {
    if schema == [] then Ok([])
    else match Rebuilt(schema[0], found[0])
      case Err(e) => Err(e)
      case Ok(v) =>
        match Assemble(schema[1..], found[1..])
        case Err(e) => Err(e)
        case Ok(rest) => Ok([v] + rest)
  }

  /** What the lookup finds for each property of the schema. */
  function Lookups(schema: Schema, entries: seq<HashEntry>): (found: seq<Option<string>>)
    ensures |found| == |schema|
  {
    seq(|schema|, i requires 0 <= i < |schema| => Found(entries, schema[i].name))
  }

  /** The value of RedisConverter.ConvertFromRedis. */
  function Rebuild(schema: Schema, entries: seq<HashEntry>): Result<Record, ConversionError> {
    Assemble(schema, Lookups(schema, entries))
  }

  /** RedisConverter.ConvertFromRedis: a new instance holding the defaults, into which each
      property that has a matching entry is set, in the order GetProperties returns.
      `creatable` says whether the type has a public parameterless constructor; without
      one, Activator.CreateInstance throws before any property is read. */
  method ConvertFromRedis(schema: Schema, creatable: bool, entries: seq<HashEntry>)
    returns (r: Result<Record, ConversionError>)
    ensures !creatable ==> r == Err(NoParameterlessConstructor)
    ensures creatable ==> r == Rebuild(schema, entries)
  {
    if !creatable {
      return Err(NoParameterlessConstructor);
    }
    var obj := new Option<Value>[|schema|](i requires 0 <= i < |schema| => schema[i].initial);
    ghost var found := Lookups(schema, entries);
    var i := 0;
    while i < |schema|
      invariant 0 <= i <= |schema|
      invariant Assemble(schema[..i], found[..i]) == Ok(obj[..i])
      invariant forall j :: i <= j < |schema| ==> obj[j] == schema[j].initial
    {
      var entry := FirstWithName(entries, schema[i].name);
      ghost var done := obj[..i];
      if entry.Some? {
        var converted := ChangeType(entries[entry.value].value, schema[i].kind);
        if converted.None? {
          assert Assemble(schema, found) == Err(CannotConvert(schema[i].name)) by {
            assert found[i] == Found(entries, schema[i].name);
            RebuiltFromFirst(schema[i], entries);
            AssembleStops(schema, found, i);
          }
          return Err(CannotConvert(schema[i].name));
        }
        obj[i] := converted;
      }
      assert Assemble(schema[..i + 1], found[..i + 1]) == Ok(obj[..i + 1]) by {
        assert found[i] == Found(entries, schema[i].name);
        RebuiltFromFirst(schema[i], entries);
        assert Rebuilt(schema[i], found[i]) == Ok(obj[i]);
        AssembleExtends(schema, found, i);
        assert obj[..i + 1] == done + [obj[i]];
      }
      i := i + 1;
    }
    assert schema[..i] == schema && found[..i] == found && obj[..i] == obj[..];
    r := Ok(obj[..]);
  }

  /** One iteration of the loop, in terms of the entry FirstOrDefault finds. */
  lemma {:induction false} RebuiltFromFirst(p: Property, entries: seq<HashEntry>)
    ensures var first := FirstWithName(entries, p.name);
      Rebuilt(p, Found(entries, p.name))
        == if first.None? then Ok(p.initial)
           else if ChangeType(entries[first.value].value, p.kind).None? then Err(CannotConvert(p.name))
           else Ok(ChangeType(entries[first.value].value, p.kind))
  {
  }

  // ---------------------------------------------------------------- Assemble

  /** Converting the properties of two schemas one after the other is converting them
      together: the first failure wins, and otherwise the values follow each other. */
  lemma {:induction false} AssembleAppend(s1: Schema, f1: seq<Option<string>>, s2: Schema, f2: seq<Option<string>>)
    requires |f1| == |s1| && |f2| == |s2|
    ensures Assemble(s1 + s2, f1 + f2)
         == match Assemble(s1, f1)
            case Err(e) => Err(e)
            case Ok(a) => (match Assemble(s2, f2) case Err(e) => Err(e) case Ok(b) => Ok(a + b))
    decreases |s1|
  {
    if s1 == [] {
      assert s1 + s2 == s2 && f1 + f2 == f2;
      if Assemble(s2, f2).Ok? {
        assert [] + Assemble(s2, f2).value == Assemble(s2, f2).value;
      }
    } else {
      assert (s1 + s2)[0] == s1[0] && (f1 + f2)[0] == f1[0];
      assert (s1 + s2)[1..] == s1[1..] + s2 && (f1 + f2)[1..] == f1[1..] + f2;
      AssembleAppend(s1[1..], f1[1..], s2, f2);
      if Rebuilt(s1[0], f1[0]).Ok? && Assemble(s1[1..], f1[1..]).Ok? && Assemble(s2, f2).Ok? {
        var v, a, b := Rebuilt(s1[0], f1[0]).value, Assemble(s1[1..], f1[1..]).value, Assemble(s2, f2).value;
        assert [v] + (a + b) == ([v] + a) + b;
      }
    }
  }

  /** Converting one more property extends the values of the ones before it. */
  lemma {:induction false} AssembleExtends(schema: Schema, found: seq<Option<string>>, i: nat)
    requires |found| == |schema| && i < |schema|
    requires Assemble(schema[..i], found[..i]).Ok? && Rebuilt(schema[i], found[i]).Ok?
    ensures Assemble(schema[..i + 1], found[..i + 1])
         == Ok(Assemble(schema[..i], found[..i]).value + [Rebuilt(schema[i], found[i]).value])
  {
    var v := Rebuilt(schema[i], found[i]).value;
    assert Assemble([schema[i]], [found[i]]) == Ok([v]) by {
      assert [schema[i]][0] == schema[i] && [found[i]][0] == found[i];
      assert [schema[i]][1..] == [] && [found[i]][1..] == [];
      assert [v] + [] == [v];
    }
    assert schema[..i + 1] == schema[..i] + [schema[i]] && found[..i + 1] == found[..i] + [found[i]];
    AssembleAppend(schema[..i], found[..i], [schema[i]], [found[i]]);
  }

  /** After properties that all convert, a property that does not fails the conversion
      of the whole schema with its own error. */
  lemma {:induction false} AssembleStops(schema: Schema, found: seq<Option<string>>, i: nat)
    requires |found| == |schema| && i < |schema|
    requires Assemble(schema[..i], found[..i]).Ok? && Rebuilt(schema[i], found[i]).Err?
    ensures Assemble(schema, found) == Err(Rebuilt(schema[i], found[i]).error)
  {
    var e := Rebuilt(schema[i], found[i]).error;
    assert Assemble(schema[i..], found[i..]) == Err(e) by {
      assert schema[i..][0] == schema[i] && found[i..][0] == found[i];
    }
    AssembleAppend(schema[..i], found[..i], schema[i..], found[i..]);
    assert schema[..i] + schema[i..] == schema && found[..i] + found[i..] == found;
  }

  /** The whole conversion succeeds exactly when every property does, and then holds
      what each property's own step produced. */
  lemma {:induction false} AssembleSucceeds(schema: Schema, found: seq<Option<string>>)
    requires |found| == |schema|
    ensures Assemble(schema, found).Ok? <==> forall i :: 0 <= i < |schema| ==> Rebuilt(schema[i], found[i]).Ok?
    ensures Assemble(schema, found).Ok? ==>
      && |Assemble(schema, found).value| == |schema|
      && forall i :: 0 <= i < |schema| ==> Assemble(schema, found).value[i] == Rebuilt(schema[i], found[i]).value
    decreases |schema|
  {
    if schema != [] {
      AssembleSucceeds(schema[1..], found[1..]);
      assert forall i :: 1 <= i < |schema| ==> schema[1..][i - 1] == schema[i] && found[1..][i - 1] == found[i];
    }
  }

  /** The first property, in the order GetProperties returns, whose text does not convert is the one
      the conversion fails on. */
  lemma {:induction false} AssembleFails(schema: Schema, found: seq<Option<string>>, i: nat)
    requires |found| == |schema| && i < |schema|
    requires forall j :: 0 <= j < i ==> Rebuilt(schema[j], found[j]).Ok?
    requires Rebuilt(schema[i], found[i]).Err?
    ensures Assemble(schema, found) == Err(CannotConvert(schema[i].name))
    decreases i
  {
    if i > 0 {
      assert forall j :: 0 <= j < i - 1 ==> schema[1..][j] == schema[j + 1] && found[1..][j] == found[j + 1];
      AssembleFails(schema[1..], found[1..], i - 1);
    }
  }

  // ---------------------------------------------------------------- properties

  /** The entry ToHashEntries writes for property i of a record, when it is non-null. */
  predicate EncodesProperty(schema: Schema, record: Record, listJson: seq<string> -> string, i: nat, e: HashEntry)
    requires |record| == |schema| && i < |schema|
  {
    record[i].Some? && e == HashEntry(schema[i].name, HashValue(record[i].value, listJson))
  }

  /** Entry k encodes the k-th non-null property: so every entry encodes a property, and
      every non-null property has one. */
  lemma {:induction false} EntriesEncodeProperties(schema: Schema, record: Record, listJson: seq<string> -> string, present: seq<nat>, r: seq<HashEntry>)
    requires |record| == |schema| && present == PresentIndices(record) && |r| == |present|
    requires forall k :: 0 <= k < |r| ==> present[k] < |schema| && EncodesProperty(schema, record, listJson, present[k], r[k])
    ensures forall e :: e in r ==> exists i :: 0 <= i < |schema| && EncodesProperty(schema, record, listJson, i, e)
    ensures forall i :: 0 <= i < |schema| && record[i].Some? ==>
      exists k :: 0 <= k < |r| && EncodesProperty(schema, record, listJson, i, r[k])
  {
    forall e | e in r
      ensures exists i :: 0 <= i < |schema| && EncodesProperty(schema, record, listJson, i, e)
    {
      var k :| 0 <= k < |r| && r[k] == e;
      assert EncodesProperty(schema, record, listJson, present[k], e);
    }
    forall i | 0 <= i < |schema| && record[i].Some?
      ensures exists k :: 0 <= k < |r| && EncodesProperty(schema, record, listJson, i, r[k])
    {
      var k :| 0 <= k < |present| && present[k] == i;
      assert EncodesProperty(schema, record, listJson, i, r[k]);
    }
  }

  /** Entries follow the order of the properties they come from. */
  lemma {:induction false} EntriesFollowPropertyOrder(schema: Schema, record: Record, listJson: seq<string> -> string, k: nat, l: nat)
    requires |record| == |schema|
    requires k < l < |ToHashEntries(schema, record, listJson)|
    ensures var entries := ToHashEntries(schema, record, listJson);
      exists i, j :: 0 <= i < j < |schema|
        && EncodesProperty(schema, record, listJson, i, entries[k])
        && EncodesProperty(schema, record, listJson, j, entries[l])
  {
    var present := PresentIndices(record);
    var entries := ToHashEntries(schema, record, listJson);
    assert EncodesProperty(schema, record, listJson, present[k], entries[k]);
    assert EncodesProperty(schema, record, listJson, present[l], entries[l]);
  }

  /** A strictly increasing sequence of positions below n is no longer than n. */
  lemma {:induction false} IncreasingBounded(idx: seq<nat>, n: nat)
    requires forall k :: 0 <= k < |idx| ==> idx[k] < n
    requires forall k, l :: 0 <= k < l < |idx| ==> idx[k] < idx[l]
    ensures |idx| <= n
    decreases n
  {
    if |idx| > 0 {
      var front := idx[..|idx| - 1];
      assert forall k :: 0 <= k < |front| ==> front[k] < idx[|idx| - 1] <= n - 1;
      IncreasingBounded(front, n - 1);
    }
  }

  /** With distinct property names, looking a property up among the entries finds its
      encoded value exactly when it is non-null. */
  lemma {:induction false} EntryForProperty(schema: Schema, record: Record, listJson: seq<string> -> string, i: nat)
    requires |record| == |schema| && DistinctNames(schema) && i < |schema|
    ensures Found(ToHashEntries(schema, record, listJson), schema[i].name)
         == if record[i].Some? then Some(HashValue(record[i].value, listJson)) else None
  {
    if record[i].Some? {
      PresentPropertyFound(schema, record, listJson, i);
    } else {
      NullPropertyNotFound(schema, record, listJson, i);
    }
  }

  lemma {:induction false} PresentPropertyFound(schema: Schema, record: Record, listJson: seq<string> -> string, i: nat)
    requires |record| == |schema| && DistinctNames(schema) && i < |schema| && record[i].Some?
    ensures Found(ToHashEntries(schema, record, listJson), schema[i].name) == Some(HashValue(record[i].value, listJson))
  {
    var entries := ToHashEntries(schema, record, listJson);
    var present := PresentIndices(record);
    var name := schema[i].name;
    var k :| 0 <= k < |present| && present[k] == i;
    assert entries[k].name == name;
    var first := FirstWithName(entries, name);
    assert first.Some?;
    var f := first.value;
    assert f <= k;
    assert present[f] == i by { assert entries[f].name == schema[present[f]].name; }
  }

  lemma {:induction false} NullPropertyNotFound(schema: Schema, record: Record, listJson: seq<string> -> string, i: nat)
    requires |record| == |schema| && DistinctNames(schema) && i < |schema| && record[i].None?
    ensures Found(ToHashEntries(schema, record, listJson), schema[i].name) == None
  {
    var entries := ToHashEntries(schema, record, listJson);
    var present := PresentIndices(record);
    forall k | 0 <= k < |entries| ensures entries[k].name != schema[i].name {
      assert entries[k].name == schema[present[k]].name;
      assert present[k] != i;
    }
  }

  /** A property no entry names keeps the value of the freshly created instance. */
  lemma {:induction false} UnmatchedPropertyKeepsDefault(schema: Schema, entries: seq<HashEntry>, i: nat)
    requires i < |schema|
    requires forall k :: 0 <= k < |entries| ==> entries[k].name != schema[i].name
    requires Rebuild(schema, entries).Ok?
    ensures |Rebuild(schema, entries).value| == |schema|
    ensures Rebuild(schema, entries).value[i] == schema[i].initial
  {
    AssembleSucceeds(schema, Lookups(schema, entries));
  }

  /** A property takes the text of the first entry whose name equals its own exactly;
      when that text does not convert, the whole conversion fails. */
  lemma {:induction false} MatchedPropertyTakesFirstEntry(schema: Schema, entries: seq<HashEntry>, i: nat, k: nat)
    requires i < |schema| && k < |entries|
    requires entries[k].name == schema[i].name
    requires forall j :: 0 <= j < k ==> entries[j].name != schema[i].name
    ensures ChangeType(entries[k].value, schema[i].kind).None? ==> Rebuild(schema, entries).Err?
    ensures Rebuild(schema, entries).Ok? ==>
      && |Rebuild(schema, entries).value| == |schema|
      && Rebuild(schema, entries).value[i] == ChangeType(entries[k].value, schema[i].kind)
  {
    var first := FirstWithName(entries, schema[i].name);
    assert first == Some(k);
    AssembleSucceeds(schema, Lookups(schema, entries));
  }

  /** A property whose entry fails to convert leaves no partial record behind. */
  lemma {:induction false} FailedConversionAbortsAll(schema: Schema, entries: seq<HashEntry>, i: nat)
    requires i < |schema|
    requires Rebuilt(schema[i], Found(entries, schema[i].name)).Err?
    ensures Rebuild(schema, entries).Err?
  {
    AssembleSucceeds(schema, Lookups(schema, entries));
  }

  /** An entry that bears no property's name does not change what is found for any name. */
  lemma {:induction false} FoundSkipsEntry(a: seq<HashEntry>, e: HashEntry, b: seq<HashEntry>, name: string)
    requires e.name != name
    ensures Found(a + [e] + b, name) == Found(a + b, name)
    decreases |a|
  {
    var x := a + [e] + b;
    var y := a + b;
    FoundFront(x, name);
    if a == [] {
      assert x[0] == e && x[1..] == b && y == b;
    } else {
      FoundFront(y, name);
      assert x[0] == a[0] == y[0];
      assert x[1..] == a[1..] + [e] + b && y[1..] == a[1..] + b;
      if a[0].name != name {
        FoundSkipsEntry(a[1..], e, b, name);
      }
    }
  }

  /** The lookup checks the first entry, then the rest. */
  lemma {:induction false} FoundFront(entries: seq<HashEntry>, name: string)
    requires entries != []
    ensures Found(entries, name)
         == if entries[0].name == name then Some(entries[0].value) else Found(entries[1..], name)
  {
  }

  /** Entries whose names match no property are ignored. */
  lemma {:induction false} UnknownEntryIgnored(schema: Schema, a: seq<HashEntry>, e: HashEntry, b: seq<HashEntry>)
    requires forall i :: 0 <= i < |schema| ==> schema[i].name != e.name
    ensures Rebuild(schema, a + [e] + b) == Rebuild(schema, a + b)
  {
    forall i | 0 <= i < |schema| ensures Lookups(schema, a + [e] + b)[i] == Lookups(schema, a + b)[i] {
      FoundSkipsEntry(a, e, b, schema[i].name);
    }
    assert Lookups(schema, a + [e] + b) == Lookups(schema, a + b);
  }

  /** Storing a record as hash entries and rebuilding it gives the record back, with its
      null properties at their defaults, for every record without list values. */
  lemma {:induction false} RoundTrip(schema: Schema, record: Record, listJson: seq<string> -> string)
    requires DistinctNames(schema) && FitsSchema(schema, record)
    requires forall i :: 0 <= i < |schema| && record[i].Some? ==> schema[i].kind != StringListKind
    ensures Rebuild(schema, ToHashEntries(schema, record, listJson)) == Ok(Normalized(schema, record))
  {
    var entries := ToHashEntries(schema, record, listJson);
    var found := Lookups(schema, entries);
    forall i | 0 <= i < |schema| ensures Rebuilt(schema[i], found[i]) == Ok(Normalized(schema, record)[i]) {
      EntryForProperty(schema, record, listJson, i);
    }
    AssembleSucceeds(schema, found);
    assert Assemble(schema, found).value == Normalized(schema, record);
  }

  /** A non-null list property is encoded as JSON but can never be converted back, so
      its record does not survive the round trip. */
  lemma {:induction false} ListPropertyNotRestored(schema: Schema, record: Record, listJson: seq<string> -> string, i: nat)
    requires DistinctNames(schema) && |record| == |schema| && i < |schema|
    requires schema[i].kind == StringListKind && record[i].Some?
    ensures Rebuild(schema, ToHashEntries(schema, record, listJson)).Err?
  {
    EntryForProperty(schema, record, listJson, i);
    FailedConversionAbortsAll(schema, ToHashEntries(schema, record, listJson), i);
  }
}
