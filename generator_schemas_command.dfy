/** The `schemas` command of the ruleset generator. It builds a root object schema and, for
    each distinct (performance class, difficulty class, ruleset name) triple in the order the
    rulesets come, adds one performance and one difficulty definition: the generator's
    schema of the specialised class, or of the base class when the ruleset has none,
    retitled with the definition's name and with additional properties allowed. Unlike the
    metadata command it registers no base schemas and does not re-sort the rulesets. The
    schema generator is the parameter `generate`. */
module GeneratorSchemasCommand {
  import opened Wrappers
  import opened Rulesets
  import opened AttributeTypeScan
  import opened JsonSchemas
  import MetadataSchemasCommand

  /** The type handed to the generator for a family: the specialised class, else the base. */
  function SchemaSource(t: AttributeTypes, kind: AttributeKind): TypeRef
  {
    if Picked(t, kind).Some? then SpecialisedType(Picked(t, kind).value) else BaseType(kind)
  }

  /** The definition a triple contributes for a family. */
  function GeneratedDefinition(t: AttributeTypes, kind: AttributeKind, generate: TypeRef -> SchemaValue): (d: Definition)
    ensures d.key == DefinitionTitle(t, kind) && d.schema.title == d.key
    ensures d.schema.allowAdditionalProperties
    ensures d.schema == generate(SchemaSource(t, kind)).(title := d.key, allowAdditionalProperties := true)
  {
    var name := DefinitionTitle(t, kind);
    Definition(name, generate(SchemaSource(t, kind)).(title := name, allowAdditionalProperties := true))
  }

  /** The two definitions of a triple. */
  function TripleDefinitions(t: AttributeTypes, generate: TypeRef -> SchemaValue): seq<Definition>
  {
    [GeneratedDefinition(t, Performance, generate), GeneratedDefinition(t, Difficulty, generate)]
  }

  /** The performance then the difficulty definition of each triple, in order
      (`AllDefinitionsAt`). */
  function AllDefinitions(types: seq<AttributeTypes>, generate: TypeRef -> SchemaValue): seq<Definition>
  {
    PerKind(types, (t, kind) => GeneratedDefinition(t, kind, generate))
  }

  /** The definitions of the i-th triple sit at positions 2i and 2i + 1. */
  lemma AllDefinitionsAt(types: seq<AttributeTypes>, generate: TypeRef -> SchemaValue, i: int)
    requires 0 <= i < |types|
    ensures AllDefinitions(types, generate)[2 * i] == GeneratedDefinition(types[i], Performance, generate)
    ensures AllDefinitions(types, generate)[2 * i + 1] == GeneratedDefinition(types[i], Difficulty, generate)
  {
    PerKindAt(types, (t, kind) => GeneratedDefinition(t, kind, generate), i);
  }

  /** The distinct triples, in the order the rulesets are listed. */
  function DistinctTriples(rulesets: seq<Ruleset>, assemblyTypes: Ruleset -> seq<AssemblyType>): seq<AttributeTypes>
  {
    Distinct(Triples(rulesets, assemblyTypes))
  }

  /** The definitions of the root schema, or the exception of the first duplicate name. */
  function RootDefinitions(rulesets: seq<Ruleset>, assemblyTypes: Ruleset -> seq<AssemblyType>, generate: TypeRef -> SchemaValue): Result<map<string, SchemaValue>>
  {
    AddDefinitions(map[], AllDefinitions(DistinctTriples(rulesets, assemblyTypes), generate))
  }

  /** One definition of the loop body: pick the type and the name, generate, retitle, allow
      additional properties and add it. */
  method AddGenerated(root: JsonSchema, t: AttributeTypes, kind: AttributeKind, generate: TypeRef -> SchemaValue)
    returns (outcome: Outcome)
    modifies root
    ensures AddDefinitions(old(root.definitions), [GeneratedDefinition(t, kind, generate)]) ==
      if outcome.Pass? then Success(root.definitions) else Failure(outcome.error)
    ensures root.Value() == old(root.Value()).(definitions := root.definitions)
  {
    var picked := Picked(t, kind);
    var source: TypeRef;
    var name: string;
    if picked.Some? {
      source := SpecialisedType(picked.value);
      name := picked.value.name;
    } else {
      source := BaseType(kind);
      name := Capitalize(t.rulesetName) + BaseTypeName(kind);
    }
    var schema := new JsonSchema.Generated(generate(source));
    schema.title := name;
    schema.allowAdditionalProperties := true;
    outcome := root.AddDefinition(name, schema.Value());
  }

  /** The body of the definition loop: the performance then the difficulty definition. */
  method AddTriple(root: JsonSchema, t: AttributeTypes, generate: TypeRef -> SchemaValue) returns (outcome: Outcome)
    modifies root
    ensures AddDefinitions(old(root.definitions), TripleDefinitions(t, generate)) ==
      if outcome.Pass? then Success(root.definitions) else Failure(outcome.error)
    ensures outcome.Pass? ==> root.Value() == old(root.Value()).(definitions := root.definitions)
  {
    var p := GeneratedDefinition(t, Performance, generate);
    var d := GeneratedDefinition(t, Difficulty, generate);
    assert TripleDefinitions(t, generate) == [p] + [d];
    AddDefinitionsAppend(root.definitions, [p], [d]);
    outcome := AddGenerated(root, t, Performance, generate);
    if outcome.Fail? {
      return;
    }
    outcome := AddGenerated(root, t, Difficulty, generate);
  }

  /** The definition loop over the distinct triples, stopping at the first duplicate name. */
  method AddAllDefinitions(root: JsonSchema, types: seq<AttributeTypes>, generate: TypeRef -> SchemaValue)
    returns (outcome: Outcome)
    modifies root
    ensures AddDefinitions(old(root.definitions), AllDefinitions(types, generate)) ==
      if outcome.Pass? then Success(root.definitions) else Failure(outcome.error)
    ensures outcome.Pass? ==> root.Value() == old(root.Value()).(definitions := root.definitions)
  {
    var i := 0;
    while i < |types|
      invariant 0 <= i <= |types|
      invariant root.Value() == old(root.Value()).(definitions := root.definitions)
      invariant AddDefinitions(root.definitions, AllDefinitions(types[i..], generate)) ==
        AddDefinitions(old(root.definitions), AllDefinitions(types, generate))
    {
      assert types[i..][0] == types[i] && types[i..][1..] == types[i + 1..];
      AddDefinitionsAppend(root.definitions, TripleDefinitions(types[i], generate), AllDefinitions(types[i + 1..], generate));
      outcome := AddTriple(root, types[i], generate);
      if outcome.Fail? {
        return;
      }
      i := i + 1;
    }
    assert types[i..] == [];
    outcome := Pass;
  }

  /** `Execute` up to serialising the root schema. */
  method Execute(rulesets: seq<Ruleset>, assemblyTypes: Ruleset -> seq<AssemblyType>, generate: TypeRef -> SchemaValue)
    returns (result: Result<SchemaValue>)
    ensures result == match RootDefinitions(rulesets, assemblyTypes, generate)
      case Success(defs) => Success(SchemaValue(RootTitle, true, map[], [], true, true, defs))
      case Failure(e) => Failure(e)
  {
    var root := new JsonSchema(RootTitle, true);
    var triples := SelectAttributeTypes(rulesets, assemblyTypes);
    var types := Distinct(triples);
    var outcome := AddAllDefinitions(root, types, generate);
    if outcome.Fail? {
      return Failure(outcome.error);
    }
    return Success(root.Value());
  }

  // ---------------------------------------------------------------------------------------
  // Properties of the result

  /** The command succeeds exactly when the names of all definitions differ; then every
      definition is titled with its own key and allows additional properties. */
  lemma RootDefinitionsContents(rulesets: seq<Ruleset>, assemblyTypes: Ruleset -> seq<AssemblyType>, generate: TypeRef -> SchemaValue)
    ensures RootDefinitions(rulesets, assemblyTypes, generate).Success? <==>
      DistinctKeys(AllDefinitions(DistinctTriples(rulesets, assemblyTypes), generate))
    ensures var r := RootDefinitions(rulesets, assemblyTypes, generate);
      r.Success? ==> forall k :: k in r.value ==> r.value[k].title == k && r.value[k].allowAdditionalProperties
  {
    DefinitionsTitled(DistinctTriples(rulesets, assemblyTypes), generate);
  }

  /** `RootDefinitionsContents` for any list of triples. */
  lemma DefinitionsTitled(types: seq<AttributeTypes>, generate: TypeRef -> SchemaValue)
    ensures AddDefinitions(map[], AllDefinitions(types, generate)).Success? <==> DistinctKeys(AllDefinitions(types, generate))
    ensures var r := AddDefinitions(map[], AllDefinitions(types, generate));
      r.Success? ==> forall k :: k in r.value ==> r.value[k].title == k && r.value[k].allowAdditionalProperties
  {
    var defs := AllDefinitions(types, generate);
    var r := AddDefinitions(map[], defs);
    if r.Success? {
      forall k | k in r.value ensures r.value[k].title == k && r.value[k].allowAdditionalProperties {
        assert k in Keys(defs);
        var j :| 0 <= j < |defs| && defs[j].key == k;
        var i := j / 2;
        AllDefinitionsAt(types, generate, i);
        assert j == 2 * i || j == 2 * i + 1;
      }
    }
  }

  /** Each distinct triple's two definitions are present under their names. */
  lemma RootDefinitionsTriples(rulesets: seq<Ruleset>, assemblyTypes: Ruleset -> seq<AssemblyType>, generate: TypeRef -> SchemaValue)
    ensures var r := RootDefinitions(rulesets, assemblyTypes, generate);
      var types := DistinctTriples(rulesets, assemblyTypes);
      r.Success? ==> forall i, kind :: 0 <= i < |types| ==>
        DefinitionTitle(types[i], kind) in r.value &&
        r.value[DefinitionTitle(types[i], kind)] == GeneratedDefinition(types[i], kind, generate).schema
  {
    DefinitionsRegistered(DistinctTriples(rulesets, assemblyTypes), generate);
  }

  /** `RootDefinitionsTriples` for any list of triples. */
  lemma DefinitionsRegistered(types: seq<AttributeTypes>, generate: TypeRef -> SchemaValue)
    ensures var r := AddDefinitions(map[], AllDefinitions(types, generate));
      r.Success? ==> forall i, kind :: 0 <= i < |types| ==>
        DefinitionTitle(types[i], kind) in r.value &&
        r.value[DefinitionTitle(types[i], kind)] == GeneratedDefinition(types[i], kind, generate).schema
  {
    var defs := AllDefinitions(types, generate);
    var r := AddDefinitions(map[], defs);
    if r.Success? {
      forall i, kind | 0 <= i < |types|
        ensures DefinitionTitle(types[i], kind) in r.value
        ensures r.value[DefinitionTitle(types[i], kind)] == GeneratedDefinition(types[i], kind, generate).schema
      {
        AllDefinitionsAt(types, generate, i);
        var j := if kind == Performance then 2 * i else 2 * i + 1;
        assert defs[j] == GeneratedDefinition(types[i], kind, generate);
      }
    }
  }

  /** Two distinct triples without specialised performance classes whose ruleset names differ
      at most in the case of their first letter get the same name, so the command throws
      `Dictionary.Add`'s exception instead of emitting one shared definition. */
  lemma DefaultNameClashThrows(types: seq<AttributeTypes>, generate: TypeRef -> SchemaValue, i: int, j: int)
    requires 0 <= i < j < |types|
    requires types[i].performanceType.None? && types[j].performanceType.None?
    requires Capitalize(types[i].rulesetName) == Capitalize(types[j].rulesetName)
    ensures AddDefinitions(map[], AllDefinitions(types, generate)).Failure?
  {
    AllDefinitionsAt(types, generate, i);
    AllDefinitionsAt(types, generate, j);
    RepeatedKeyThrows(map[], AllDefinitions(types, generate), 2 * i, 2 * j);
  }

  /** Two distinct triples that pick the same specialised performance class (two rulesets of
      one assembly, say) both name their definition after it, so the command throws rather
      than sharing one definition. */
  lemma SharedClassThrows(types: seq<AttributeTypes>, generate: TypeRef -> SchemaValue, i: int, j: int, c: ClrClass)
    requires 0 <= i < j < |types|
    requires types[i].performanceType == Some(c) && types[j].performanceType == Some(c)
    ensures AddDefinitions(map[], AllDefinitions(types, generate)).Failure?
  {
    AllDefinitionsAt(types, generate, i);
    AllDefinitionsAt(types, generate, j);
    RepeatedKeyThrows(map[], AllDefinitions(types, generate), 2 * i, 2 * j);
  }

  /** Both `schemas` commands name the definitions of a list of triples alike; the metadata
      command adds the two base schemas beside them. */
  lemma SameNamesAsMetadataCommand(types: seq<AttributeTypes>, generate: TypeRef -> SchemaValue)
    ensures Keys(AllDefinitions(types, generate)) == Keys(MetadataSchemasCommand.AllTripleDefinitions(types, generate))
  {
    var a := AllDefinitions(types, generate);
    var b := MetadataSchemasCommand.AllTripleDefinitions(types, generate);
    forall j | 0 <= j < |a| ensures a[j].key == b[j].key {
      var i := j / 2;
      AllDefinitionsAt(types, generate, i);
      MetadataSchemasCommand.AllTripleDefinitionsKeys(types, generate, i);
      assert j == 2 * i || j == 2 * i + 1;
    }
    forall k | k in Keys(a) ensures k in Keys(b) {
      var j :| 0 <= j < |a| && a[j].key == k;
      assert b[j].key == k;
    }
    forall k | k in Keys(b) ensures k in Keys(a) {
      var j :| 0 <= j < |b| && b[j].key == k;
      assert a[j].key == k;
    }
  }
}
