/** The part of an NJsonSchema `JsonSchema` object the `schemas` commands touch: its title,
    its type, its properties with their required flags, its `allOf` items, the two
    additional-content switches and its definitions. `SchemaValue` is the value of an object;
    definitions hold such values, because a schema is never changed after it is added. */
module JsonSchemas {
  import opened Wrappers

  /** What an `allOf` item's `Reference` points to: a definition of the root schema, or a
      schema the generator made for a type. */
  datatype SchemaRef = ToDefinition(key: string) | ToGenerated(typeName: string)

  /** An `allOf` item: a reference to another schema, or a segment with its own properties. */
  datatype AllOfItem = AllOfItem(reference: Option<SchemaRef>, properties: map<string, bool>, allowAdditionalProperties: bool)

  datatype SchemaValue = SchemaValue(
    title: string,
    objectType: bool,
    properties: map<string, bool>,
    allOf: seq<AllOfItem>,
    allowAdditionalProperties: bool,
    allowAdditionalItems: bool,
    definitions: map<string, SchemaValue>)

  /** Every property of the map marked required. */
  function AllRequired(props: map<string, bool>): (r: map<string, bool>)
    ensures r.Keys == props.Keys
    ensures forall k :: k in r ==> r[k]
  {
    map k | k in props :: true
  }

  /** Marking is idempotent and depends only on the property names. */
  lemma AllRequiredIdempotent(props: map<string, bool>, other: map<string, bool>)
    ensures AllRequired(AllRequired(props)) == AllRequired(props)
    ensures props.Keys == other.Keys ==> AllRequired(props) == AllRequired(other)
  {
  }

  /** The exception `Dictionary.Add` throws for a key already present. */
  function DuplicateKey(key: string): Exception
  {
    ArgumentException("An item with the same key has already been added. Key: " + key)
  }

  /** A definition to add: its key and the schema. */
  datatype Definition = Definition(key: string, schema: SchemaValue)

  ghost predicate DistinctKeys(entries: seq<Definition>)
  {
    forall i, j :: 0 <= i < j < |entries| ==> entries[i].key != entries[j].key
  }

  function Keys(entries: seq<Definition>): set<string>
  {
    set i | 0 <= i < |entries| :: entries[i].key
  }

  /** `Definitions.Add` for each entry in turn: the first key already present throws. */
  function AddDefinitions(defs: map<string, SchemaValue>, entries: seq<Definition>): (r: Result<map<string, SchemaValue>>)
    ensures r.Success? <==> DistinctKeys(entries) && forall i :: 0 <= i < |entries| ==> entries[i].key !in defs
    ensures r.Success? ==> r.value.Keys == defs.Keys + Keys(entries)
    ensures r.Success? ==> forall k :: k in defs ==> r.value[k] == defs[k]
    ensures r.Success? ==> forall i :: 0 <= i < |entries| ==> r.value[entries[i].key] == entries[i].schema
    ensures r.Failure? ==> exists i :: 0 <= i < |entries| && r.error == DuplicateKey(entries[i].key)
    decreases |entries|
  {
    if entries == [] then Success(defs)
    else if entries[0].key in defs then Failure(DuplicateKey(entries[0].key))
    else
      var e := entries[0];
      var r := AddDefinitions(defs[e.key := e.schema], entries[1..]);
      AddedAfterFirst(defs, entries, r);
      r
  }

  /** Whatever adding the rest after the first entry gives, with the properties of that
      addition, is the addition of the whole sequence. */
  lemma AddedAfterFirst(defs: map<string, SchemaValue>, entries: seq<Definition>, r: Result<map<string, SchemaValue>>)
    requires entries != [] && entries[0].key !in defs
    requires var defs', rest := defs[entries[0].key := entries[0].schema], entries[1..];
      && (r.Success? <==> DistinctKeys(rest) && forall i :: 0 <= i < |rest| ==> rest[i].key !in defs')
      && (r.Success? ==> r.value.Keys == defs'.Keys + Keys(rest))
      && (r.Success? ==> forall k :: k in defs' ==> r.value[k] == defs'[k])
      && (r.Success? ==> forall i :: 0 <= i < |rest| ==> r.value[rest[i].key] == rest[i].schema)
      && (r.Failure? ==> exists i :: 0 <= i < |rest| && r.error == DuplicateKey(rest[i].key))
    ensures r.Success? <==> DistinctKeys(entries) && forall i :: 0 <= i < |entries| ==> entries[i].key !in defs
    ensures r.Success? ==> r.value.Keys == defs.Keys + Keys(entries)
    ensures r.Success? ==> forall k :: k in defs ==> r.value[k] == defs[k]
    ensures r.Success? ==> forall i :: 0 <= i < |entries| ==> r.value[entries[i].key] == entries[i].schema
    ensures r.Failure? ==> exists i :: 0 <= i < |entries| && r.error == DuplicateKey(entries[i].key)
  {
    var e, rest := entries[0], entries[1..];
    assert forall i :: 1 <= i < |entries| ==> entries[i] == rest[i - 1];
    assert Keys(entries) == {e.key} + Keys(rest);
    if r.Failure? {
      var i :| 0 <= i < |rest| && r.error == DuplicateKey(rest[i].key);
      assert entries[i + 1] == rest[i];
    }
  }

  /** Two entries under one key make the additions throw. */
  lemma RepeatedKeyThrows(defs: map<string, SchemaValue>, entries: seq<Definition>, i: int, j: int)
    requires 0 <= i < j < |entries| && entries[i].key == entries[j].key
    ensures AddDefinitions(defs, entries).Failure?
    ensures AddDefinitions(defs, entries).error.ArgumentException?
  {
  }

  /** Adding a sequence in two parts is adding it in one. */
  lemma {:induction false} AddDefinitionsAppend(defs: map<string, SchemaValue>, a: seq<Definition>, b: seq<Definition>)
    ensures AddDefinitions(defs, a + b) ==
      match AddDefinitions(defs, a)
      case Success(mid) => AddDefinitions(mid, b)
      case Failure(e) => Failure(e)
    decreases |a|
  {
    if a == [] {
      assert a + b == b;
    } else {
      assert (a + b)[0] == a[0] && (a + b)[1..] == a[1..] + b;
      if a[0].key !in defs {
        AddDefinitionsAppend(defs[a[0].key := a[0].schema], a[1..], b);
      }
    }
  }

  /** A mutable `JsonSchema`. */
  class JsonSchema {
    var title: string
    var objectType: bool
    var properties: map<string, bool>
    var allOf: seq<AllOfItem>
    var allowAdditionalProperties: bool
    var allowAdditionalItems: bool
    var definitions: map<string, SchemaValue>

    function Value(): SchemaValue
      reads this
    {
      SchemaValue(title, objectType, properties, allOf, allowAdditionalProperties, allowAdditionalItems, definitions)
    }

    /** `new JsonSchema() { Title = title }`, with `Type = JsonObjectType.Object` when
        `objectType` holds; additional properties and items are allowed by default. */
    constructor (title: string, objectType: bool)
      ensures Value() == SchemaValue(title, objectType, map[], [], true, true, map[])
    {
      this.title := title;
      this.objectType := objectType;
      properties := map[];
      allOf := [];
      allowAdditionalProperties := true;
      allowAdditionalItems := true;
      definitions := map[];
    }

    /** The new schema object `generator.Generate(type)` returns. */
    constructor Generated(v: SchemaValue)
      ensures Value() == v
    {
      title := v.title;
      objectType := v.objectType;
      properties := v.properties;
      allOf := v.allOf;
      allowAdditionalProperties := v.allowAdditionalProperties;
      allowAdditionalItems := v.allowAdditionalItems;
      definitions := v.definitions;
    }

    /** The loop setting `IsRequired` on every property. */
    method MarkAllRequired()
      modifies this
      ensures Value() == old(Value()).(properties := AllRequired(old(properties)))
    {
      var remaining := properties.Keys;
      while remaining != {}
        invariant remaining <= old(properties).Keys
        invariant properties.Keys == old(properties).Keys
        invariant forall k :: k in properties ==> properties[k] == (k !in remaining || old(properties)[k])
        invariant Value() == old(Value()).(properties := properties)
        decreases remaining
      {
        var k :| k in remaining;
        properties := properties[k := true];
        remaining := remaining - {k};
      }
      assert properties == AllRequired(old(properties));
    }

    /** `Definitions.Add(key, schema)`. */
    method AddDefinition(key: string, schema: SchemaValue) returns (outcome: Outcome)
      modifies this
      ensures AddDefinitions(old(definitions), [Definition(key, schema)]) ==
        if outcome.Pass? then Success(definitions) else Failure(outcome.error)
      ensures Value() == old(Value()).(definitions := definitions)
    {
      if key in definitions {
        return Fail(DuplicateKey(key));
      }
      definitions := definitions[key := schema];
      outcome := Pass;
    }
  }
}
