/** The `schemas` command of the metadata generator. It registers the two base attribute
    schemas with every property required. For each distinct (performance class, difficulty
    class, ruleset name) triple, in `OnlineID` order, it adds one performance and one
    difficulty definition:
    - a thin schema that only refers to the shared base, when the ruleset has no specialised
      class;
    - otherwise the specialised class's schema, with its `allOf` references redirected to the
      shared base.
    The schema generator is the parameter `generate`. */
module MetadataSchemasCommand {
  import opened Wrappers
  import opened Rulesets
  import opened AttributeTypeScan
  import opened JsonSchemas

  /** A base schema as registered: titled with the class name, additional properties
      allowed, every property required. */
  function BaseSchema(kind: AttributeKind, generate: TypeRef -> SchemaValue): SchemaValue
  {
    var g := generate(BaseType(kind));
    g.(title := BaseTypeName(kind), allowAdditionalProperties := true, properties := AllRequired(g.properties))
  }

  /** What the `allOf` loop does to one item: a reference is pointed at the shared base; any
      other segment gets additional properties allowed and every property required. */
  function RedirectItem(item: AllOfItem, baseKey: string): AllOfItem
  {
    if item.reference.Some? then item.(reference := Some(ToDefinition(baseKey)))
    else item.(allowAdditionalProperties := true, properties := AllRequired(item.properties))
  }

  /** The `allOf` loop over all items. */
  function RedirectAll(items: seq<AllOfItem>, baseKey: string): (r: seq<AllOfItem>)
    ensures |r| == |items|
    ensures forall i :: 0 <= i < |items| ==> r[i] == RedirectItem(items[i], baseKey)
    decreases |items|
  {
    if items == [] then []
    else
      assert forall i :: 1 <= i < |items| ==> items[i] == items[1..][i - 1];
      [RedirectItem(items[0], baseKey)] + RedirectAll(items[1..], baseKey)
  }

  /** The reference item `new JsonSchema() { Reference = baseSchema }`. */
  function BaseReference(kind: AttributeKind): AllOfItem
  {
    AllOfItem(Some(ToDefinition(BaseTypeName(kind))), map[], true)
  }

  /** The schema `GeneratePerformanceAttributesSchema` (kind `Performance`) or
      `GenerateDifficultyAttributesSchema` (kind `Difficulty`) returns. */
  function AttributesSchema(kind: AttributeKind, generate: TypeRef -> SchemaValue, rulesetName: string, cls: Option<ClrClass>): SchemaValue
  {
    if cls.None? then
      var g := generate(BaseType(kind));
      g.(title := DefaultTitle(rulesetName, kind), properties := map[], allowAdditionalProperties := true,
         allOf := g.allOf + [BaseReference(kind)])
    else
      var g := generate(SpecialisedType(cls.value));
      g.(title := cls.value.name,
         allowAdditionalItems := if kind == Difficulty then true else g.allowAdditionalItems,
         definitions := map[],
         allOf := RedirectAll(g.allOf, BaseTypeName(kind)))
  }

  /** The shapes the two generators promise. Without a specialised class: the default title,
      no properties, and the generated `allOf` followed by one reference to the shared base.
      With one: the class's name, no nested definitions, and the same number of `allOf`
      items, each reference redirected to the shared base and each other segment fully
      required. Only the specialised difficulty schema switches additional items on. */
  lemma AttributesSchemaShape(kind: AttributeKind, generate: TypeRef -> SchemaValue, rulesetName: string, cls: Option<ClrClass>)
    ensures var s := AttributesSchema(kind, generate, rulesetName, cls);
      && s.title == DefinitionTitle(AttributeTypes(cls, cls, rulesetName), kind)
      && (cls.None? ==>
            var g := generate(BaseType(kind));
            && s.properties == map[] && s.allowAdditionalProperties
            && |s.allOf| == |g.allOf| + 1 && s.allOf[..|g.allOf|] == g.allOf
            && s.allOf[|g.allOf|].reference == Some(ToDefinition(BaseTypeName(kind)))
            && s.allowAdditionalItems == g.allowAdditionalItems)
      && (cls.Some? ==>
            var g := generate(SpecialisedType(cls.value));
            && s.definitions == map[] && s.properties == g.properties
            && |s.allOf| == |g.allOf|
            && (forall i :: 0 <= i < |g.allOf| && g.allOf[i].reference.Some? ==>
                  s.allOf[i] == g.allOf[i].(reference := Some(ToDefinition(BaseTypeName(kind)))))
            && (forall i :: 0 <= i < |g.allOf| && g.allOf[i].reference.None? ==>
                  && s.allOf[i].reference.None? && s.allOf[i].allowAdditionalProperties
                  && s.allOf[i].properties.Keys == g.allOf[i].properties.Keys
                  && forall p :: p in s.allOf[i].properties ==> s.allOf[i].properties[p])
            && s.allowAdditionalItems == (kind == Difficulty || g.allowAdditionalItems))
  {
  }

  /** The key a generated schema is registered under is the triple's definition title. */
  lemma AttributesSchemaTitle(t: AttributeTypes, kind: AttributeKind, generate: TypeRef -> SchemaValue)
    ensures AttributesSchema(kind, generate, t.rulesetName, Picked(t, kind)).title == DefinitionTitle(t, kind)
  {
  }

  /** The imperative generator of one definition. */
  method GenerateAttributesSchema(kind: AttributeKind, generate: TypeRef -> SchemaValue, rulesetName: string, cls: Option<ClrClass>)
    returns (schema: JsonSchema)
    ensures fresh(schema)
    ensures schema.Value() == AttributesSchema(kind, generate, rulesetName, cls)
  {
    if cls.None? {
      schema := new JsonSchema.Generated(generate(BaseType(kind)));
      schema.title := DefaultTitle(rulesetName, kind);
      schema.properties := map[];
      schema.allowAdditionalProperties := true;
      schema.allOf := schema.allOf + [BaseReference(kind)];
      return;
    }
    var g := generate(SpecialisedType(cls.value));
    schema := new JsonSchema.Generated(g);
    schema.title := cls.value.name;
    if kind == Difficulty {
      schema.allowAdditionalItems := true;
    }
    schema.definitions := map[];
    RedirectReferences(schema, BaseTypeName(kind));
  }

  /** The `foreach` over the `allOf` items of a specialised schema. */
  method RedirectReferences(schema: JsonSchema, baseKey: string)
    modifies schema
    ensures schema.Value() == old(schema.Value()).(allOf := RedirectAll(old(schema.allOf), baseKey))
  {
    ghost var items := schema.allOf;
    var i := 0;
    while i < |schema.allOf|
      invariant 0 <= i <= |schema.allOf| == |items|
      invariant forall j :: 0 <= j < i ==> schema.allOf[j] == RedirectItem(items[j], baseKey)
      invariant forall j :: i <= j < |items| ==> schema.allOf[j] == items[j]
      invariant schema.Value() == old(schema.Value()).(allOf := schema.allOf)
    {
      schema.allOf := schema.allOf[i := RedirectItem(schema.allOf[i], baseKey)];
      i := i + 1;
    }
  }

  /** The definition a triple contributes for a family, keyed by its schema's title, which
      is the triple's definition title (`AttributesSchemaTitle`). */
  function TripleDefinition(t: AttributeTypes, kind: AttributeKind, generate: TypeRef -> SchemaValue): Definition
  {
    Definition(DefinitionTitle(t, kind), AttributesSchema(kind, generate, t.rulesetName, Picked(t, kind)))
  }

  /** The two definitions a triple contributes. */
  function TripleDefinitions(t: AttributeTypes, generate: TypeRef -> SchemaValue): seq<Definition>
  {
    [TripleDefinition(t, Performance, generate), TripleDefinition(t, Difficulty, generate)]
  }

  /** The definitions of the triples, two per triple, in order (`AllTripleDefinitionsAt`). */
  function AllTripleDefinitions(types: seq<AttributeTypes>, generate: TypeRef -> SchemaValue): seq<Definition>
  {
    PerKind(types, (t, kind) => TripleDefinition(t, kind, generate))
  }

  /** The definitions of a non-empty list of triples: the first triple's two, then the rest. */
  lemma AllTripleDefinitionsCons(types: seq<AttributeTypes>, generate: TypeRef -> SchemaValue)
    requires types != []
    ensures AllTripleDefinitions(types, generate) == TripleDefinitions(types[0], generate) + AllTripleDefinitions(types[1..], generate)
  {
  }

  function BaseDefinitions(generate: TypeRef -> SchemaValue): seq<Definition>
  {
    [Definition(BaseTypeName(Performance), BaseSchema(Performance, generate)),
     Definition(BaseTypeName(Difficulty), BaseSchema(Difficulty, generate))]
  }

  /** The distinct triples, in `OnlineID` order. */
  function DistinctTriples(rulesets: seq<Ruleset>, assemblyTypes: Ruleset -> seq<AssemblyType>): seq<AttributeTypes>
  {
    Distinct(Triples(OrderBy(rulesets, OnlineId), assemblyTypes))
  }

  /** The definitions of the root schema, or the exception of the first duplicate title. */
  function RootDefinitions(rulesets: seq<Ruleset>, assemblyTypes: Ruleset -> seq<AssemblyType>, generate: TypeRef -> SchemaValue): Result<map<string, SchemaValue>>
  {
    AddDefinitions(map[], BaseDefinitions(generate) + AllTripleDefinitions(DistinctTriples(rulesets, assemblyTypes), generate))
  }

  /** Generating a base schema, marking its properties required and registering it. */
  method AddBaseSchema(root: JsonSchema, kind: AttributeKind, generate: TypeRef -> SchemaValue)
    requires BaseTypeName(kind) !in root.definitions
    modifies root
    ensures root.Value() == old(root.Value()).(definitions := old(root.definitions)[BaseTypeName(kind) := BaseSchema(kind, generate)])
  {
    var baseSchema := new JsonSchema.Generated(generate(BaseType(kind)));
    baseSchema.title := BaseTypeName(kind);
    baseSchema.allowAdditionalProperties := true;
    baseSchema.MarkAllRequired();
    var added := root.AddDefinition(BaseTypeName(kind), baseSchema.Value());
  }

  /** The body of the definition loop: both schemas of a triple, added under their titles. */
  method AddTriple(root: JsonSchema, t: AttributeTypes, generate: TypeRef -> SchemaValue) returns (outcome: Outcome)
    modifies root
    ensures AddDefinitions(old(root.definitions), TripleDefinitions(t, generate)) ==
      if outcome.Pass? then Success(root.definitions) else Failure(outcome.error)
    ensures outcome.Pass? ==> root.Value() == old(root.Value()).(definitions := root.definitions)
  {
    var performanceSchema := GenerateAttributesSchema(Performance, generate, t.rulesetName, t.performanceType);
    var d1 := Definition(performanceSchema.title, performanceSchema.Value());
    var difficultySchema := GenerateAttributesSchema(Difficulty, generate, t.rulesetName, t.difficultyType);
    var d2 := Definition(difficultySchema.title, difficultySchema.Value());
    AttributesSchemaTitle(t, Performance, generate);
    AttributesSchemaTitle(t, Difficulty, generate);
    assert TripleDefinitions(t, generate) == [d1] + [d2];
    AddDefinitionsAppend(root.definitions, [d1], [d2]);
    outcome := root.AddDefinition(d1.key, d1.schema);
    if outcome.Fail? {
      return;
    }
    outcome := root.AddDefinition(d2.key, d2.schema);
  }

  /** Both base schemas, registered on the fresh root. */
  method AddBaseSchemas(root: JsonSchema, generate: TypeRef -> SchemaValue)
    requires root.definitions == map[]
    modifies root
    ensures AddDefinitions(map[], BaseDefinitions(generate)) == Success(root.definitions)
    ensures root.Value() == old(root.Value()).(definitions := root.definitions)
  {
    AddBaseSchema(root, Performance, generate);
    AddBaseSchema(root, Difficulty, generate);
    var base := BaseDefinitions(generate);
    var m1 := map[BaseTypeName(Performance) := BaseSchema(Performance, generate)];
    assert AddDefinitions(map[], base) == AddDefinitions(m1, base[1..]);
    assert AddDefinitions(m1, base[1..]) == AddDefinitions(m1[BaseTypeName(Difficulty) := BaseSchema(Difficulty, generate)], []);
  }

  /** The definition loop: the triples in turn, stopping at the first duplicate title. */
  method AddAllTriples(root: JsonSchema, types: seq<AttributeTypes>, generate: TypeRef -> SchemaValue) returns (outcome: Outcome)
    modifies root
    ensures AddDefinitions(old(root.definitions), AllTripleDefinitions(types, generate)) ==
      if outcome.Pass? then Success(root.definitions) else Failure(outcome.error)
    ensures outcome.Pass? ==> root.Value() == old(root.Value()).(definitions := root.definitions)
  {
    var i := 0;
    while i < |types|
      invariant 0 <= i <= |types|
      invariant root.Value() == old(root.Value()).(definitions := root.definitions)
      invariant AddDefinitions(root.definitions, AllTripleDefinitions(types[i..], generate)) ==
        AddDefinitions(old(root.definitions), AllTripleDefinitions(types, generate))
    {
      outcome := AddNextTriple(root, types, i, generate);
      if outcome.Fail? {
        return;
      }
      i := i + 1;
    }
    assert types[i..] == [];
    outcome := Pass;
  }

  /** One turn of the definition loop, stated against the definitions still to add. */
  method AddNextTriple(root: JsonSchema, types: seq<AttributeTypes>, i: int, generate: TypeRef -> SchemaValue) returns (outcome: Outcome)
    requires 0 <= i < |types|
    modifies root
    ensures outcome.Fail? ==>
      AddDefinitions(old(root.definitions), AllTripleDefinitions(types[i..], generate)) == Failure(outcome.error)
    ensures outcome.Pass? ==>
      && root.Value() == old(root.Value()).(definitions := root.definitions)
      && AddDefinitions(root.definitions, AllTripleDefinitions(types[i + 1..], generate)) ==
         AddDefinitions(old(root.definitions), AllTripleDefinitions(types[i..], generate))
  {
    assert types[i..][0] == types[i] && types[i..][1..] == types[i + 1..];
    AllTripleDefinitionsCons(types[i..], generate);
    AddDefinitionsAppend(root.definitions, TripleDefinitions(types[i], generate), AllTripleDefinitions(types[i + 1..], generate));
    outcome := AddTriple(root, types[i], generate);
  }

  /** `Execute` up to serialising the root schema. */
  method Execute(rulesets: seq<Ruleset>, assemblyTypes: Ruleset -> seq<AssemblyType>, generate: TypeRef -> SchemaValue)
    returns (result: Result<SchemaValue>)
    ensures result == match RootDefinitions(rulesets, assemblyTypes, generate)
      case Success(defs) => Success(SchemaValue(RootTitle, false, map[], [], true, true, defs))
      case Failure(e) => Failure(e)
  {
    var ordered := OrderBy(rulesets, OnlineId);
    var root := new JsonSchema(RootTitle, false);
    var triples := SelectAttributeTypes(ordered, assemblyTypes);
    var types := Distinct(triples);
    AddBaseSchemas(root, generate);
    AddDefinitionsAppend(map[], BaseDefinitions(generate), AllTripleDefinitions(types, generate));
    var outcome := AddAllTriples(root, types, generate);
    if outcome.Fail? {
      return Failure(outcome.error);
    }
    return Success(root.Value());
  }

  // ---------------------------------------------------------------------------------------
  // Properties of the result

  /** Registering the base schemas and then any definitions. */
  lemma AfterBase(generate: TypeRef -> SchemaValue, rest: seq<Definition>)
    ensures AddDefinitions(map[], BaseDefinitions(generate) + rest).Success? <==> DistinctKeys(BaseDefinitions(generate) + rest)
    ensures var r := AddDefinitions(map[], BaseDefinitions(generate) + rest);
      r.Success? ==>
        && r.value.Keys == {BaseTypeName(Performance), BaseTypeName(Difficulty)} + Keys(rest)
        && r.value[BaseTypeName(Performance)] == BaseSchema(Performance, generate)
        && r.value[BaseTypeName(Difficulty)] == BaseSchema(Difficulty, generate)
  {
    var base := BaseDefinitions(generate);
    KeysAppend(base, rest);
    assert Keys(base) == {BaseTypeName(Performance), BaseTypeName(Difficulty)} by {
      assert base[0].key == BaseTypeName(Performance) && base[1].key == BaseTypeName(Difficulty);
    }
    var all := base + rest;
    assert all[0] == base[0] && all[1] == base[1];
  }

  /** The base schemas are registered under their class names with every property required,
      and each distinct triple adds its two definitions under their titles; the command
      succeeds exactly when all these titles differ. */
  lemma RootDefinitionsContents(rulesets: seq<Ruleset>, assemblyTypes: Ruleset -> seq<AssemblyType>, generate: TypeRef -> SchemaValue)
    ensures var all := BaseDefinitions(generate) + AllTripleDefinitions(DistinctTriples(rulesets, assemblyTypes), generate);
      RootDefinitions(rulesets, assemblyTypes, generate).Success? <==> DistinctKeys(all)
    ensures var r := RootDefinitions(rulesets, assemblyTypes, generate);
      r.Success? ==>
        && r.value.Keys == {BaseTypeName(Performance), BaseTypeName(Difficulty)} +
             Keys(AllTripleDefinitions(DistinctTriples(rulesets, assemblyTypes), generate))
        && r.value[BaseTypeName(Performance)] == BaseSchema(Performance, generate)
        && r.value[BaseTypeName(Difficulty)] == BaseSchema(Difficulty, generate)
  {
    AfterBase(generate, AllTripleDefinitions(DistinctTriples(rulesets, assemblyTypes), generate));
  }

  lemma KeysAppend(a: seq<Definition>, b: seq<Definition>)
    ensures Keys(a + b) == Keys(a) + Keys(b)
  {
    forall k | k in Keys(b) ensures k in Keys(a + b) {
      var i :| 0 <= i < |b| && b[i].key == k;
      assert (a + b)[|a| + i] == b[i];
    }
    forall k | k in Keys(a) ensures k in Keys(a + b) {
      var i :| 0 <= i < |a| && a[i].key == k;
      assert (a + b)[i] == a[i];
    }
  }

  /** Each distinct triple's definition of either family is registered under its title and
      is the schema the family's generator returns for it. */
  lemma RootDefinitionsTriples(rulesets: seq<Ruleset>, assemblyTypes: Ruleset -> seq<AssemblyType>, generate: TypeRef -> SchemaValue,
                               i: int, kind: AttributeKind)
    requires 0 <= i < |DistinctTriples(rulesets, assemblyTypes)|
    requires RootDefinitions(rulesets, assemblyTypes, generate).Success?
    ensures var t := DistinctTriples(rulesets, assemblyTypes)[i];
      var r := RootDefinitions(rulesets, assemblyTypes, generate).value;
      && DefinitionTitle(t, kind) in r
      && r[DefinitionTitle(t, kind)] == AttributesSchema(kind, generate, t.rulesetName, Picked(t, kind))
  {
    TripleRegistered(DistinctTriples(rulesets, assemblyTypes), generate, i, kind);
  }

  /** `RootDefinitionsTriples` for any list of triples. */
  lemma TripleRegistered(types: seq<AttributeTypes>, generate: TypeRef -> SchemaValue, i: int, kind: AttributeKind)
    requires 0 <= i < |types|
    requires AddDefinitions(map[], BaseDefinitions(generate) + AllTripleDefinitions(types, generate)).Success?
    ensures var r := AddDefinitions(map[], BaseDefinitions(generate) + AllTripleDefinitions(types, generate)).value;
      && DefinitionTitle(types[i], kind) in r
      && r[DefinitionTitle(types[i], kind)] == AttributesSchema(kind, generate, types[i].rulesetName, Picked(types[i], kind))
  {
    var base := BaseDefinitions(generate);
    var rest := AllTripleDefinitions(types, generate);
    AllTripleDefinitionsAt(types, generate, i);
    var j := if kind == Performance then 2 * i else 2 * i + 1;
    assert rest[j] == TripleDefinition(types[i], kind, generate);
    assert (base + rest)[2 + j] == rest[j];
  }

  /** The definitions of the i-th triple sit at positions 2i and 2i + 1. */
  lemma AllTripleDefinitionsAt(types: seq<AttributeTypes>, generate: TypeRef -> SchemaValue, i: int)
    requires 0 <= i < |types|
    ensures AllTripleDefinitions(types, generate)[2 * i] == TripleDefinition(types[i], Performance, generate)
    ensures AllTripleDefinitions(types, generate)[2 * i + 1] == TripleDefinition(types[i], Difficulty, generate)
  {
    PerKindAt(types, (t, kind) => TripleDefinition(t, kind, generate), i);
  }

  /** The keys at positions 2i and 2i + 1 are the i-th triple's definition titles. */
  lemma AllTripleDefinitionsKeys(types: seq<AttributeTypes>, generate: TypeRef -> SchemaValue, i: int)
    requires 0 <= i < |types|
    ensures AllTripleDefinitions(types, generate)[2 * i].key == DefinitionTitle(types[i], Performance)
    ensures AllTripleDefinitions(types, generate)[2 * i + 1].key == DefinitionTitle(types[i], Difficulty)
  {
    AllTripleDefinitionsAt(types, generate, i);
  }

  /** A ruleset with an empty short name and no specialised performance class takes the
      title "PerformanceAttributes", which the base schema already holds, so the command
      throws. */
  lemma EmptyRulesetNameThrows(rulesets: seq<Ruleset>, assemblyTypes: Ruleset -> seq<AssemblyType>, generate: TypeRef -> SchemaValue, i: int)
    requires 0 <= i < |DistinctTriples(rulesets, assemblyTypes)|
    requires DistinctTriples(rulesets, assemblyTypes)[i].rulesetName == ""
    requires DistinctTriples(rulesets, assemblyTypes)[i].performanceType.None?
    ensures RootDefinitions(rulesets, assemblyTypes, generate).Failure?
  {
    EmptyNameClashesWithBase(DistinctTriples(rulesets, assemblyTypes), generate, i);
  }

  /** `EmptyRulesetNameThrows` for any list of triples. */
  lemma EmptyNameClashesWithBase(types: seq<AttributeTypes>, generate: TypeRef -> SchemaValue, i: int)
    requires 0 <= i < |types| && types[i].rulesetName == "" && types[i].performanceType.None?
    ensures AddDefinitions(map[], BaseDefinitions(generate) + AllTripleDefinitions(types, generate)).Failure?
  {
    var base := BaseDefinitions(generate);
    var rest := AllTripleDefinitions(types, generate);
    AllTripleDefinitionsKeys(types, generate, i);
    EmptyNameTakesBaseTitle(Performance);
    assert (base + rest)[2 + 2 * i] == rest[2 * i];
    assert (base + rest)[0] == base[0];
    RepeatedKeyThrows(map[], base + rest, 0, 2 + 2 * i);
  }
}
