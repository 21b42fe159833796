/** What both `schemas` commands share: the scan of a ruleset's assembly for its specialised
    attribute classes, and `Capitalize`, which names the definitions of rulesets without
    them. Reflection is replaced by a description of each type of the assembly: its name and
    whether it is a strict subclass of `PerformanceAttributes` or `DifficultyAttributes`. */
module AttributeTypeScan {
  import opened Wrappers
  import opened Text
  import opened Rulesets

  /** A .NET class, identified by its assembly and full name; `name` is its `Type.Name`. */
  datatype ClrClass = ClrClass(assembly: string, fullName: string, name: string)

  /** One type of a ruleset's assembly, in `GetTypes()` order. */
  datatype AssemblyType = AssemblyType(cls: ClrClass, extendsPerformance: bool, extendsDifficulty: bool)

  /** The two attribute families. */
  datatype AttributeKind = Performance | Difficulty

  /** A type handed to the schema generator: one of the two base classes, or a specialised
      class found by the scan. */
  datatype TypeRef = BaseType(kind: AttributeKind) | SpecialisedType(cls: ClrClass)

  /** The title of the root schema both commands build. */
  const RootTitle := "osu! Attribute models"

  /** `nameof(PerformanceAttributes)` / `nameof(DifficultyAttributes)`. */
  function BaseTypeName(kind: AttributeKind): string
  {
    match kind
    case Performance => "PerformanceAttributes"
    case Difficulty => "DifficultyAttributes"
  }

  /** The family a type is counted in: performance is tested first, so a type can only be
      counted once. */
  function Classify(t: AssemblyType): Option<AttributeKind>
  {
    if t.extendsPerformance then Some(Performance)
    else if t.extendsDifficulty then Some(Difficulty)
    else None
  }

  /** The last type of the sequence counted in the family, if any. */
  function LastOfKind(types: seq<AssemblyType>, kind: AttributeKind): (r: Option<ClrClass>)
    ensures r.None? <==> forall i :: 0 <= i < |types| ==> Classify(types[i]) != Some(kind)
    ensures r.Some? ==> exists i :: (0 <= i < |types| && Classify(types[i]) == Some(kind) && types[i].cls == r.value &&
      forall j :: i < j < |types| ==> Classify(types[j]) != Some(kind))
    decreases |types|
  {
    if types == [] then None
    else
      var last := types[|types| - 1];
      var rest := LastOfKind(types[..|types| - 1], kind);
      assert forall i :: 0 <= i < |types| - 1 ==> types[i] == types[..|types| - 1][i];
      if Classify(last) == Some(kind) then Some(last.cls) else rest
  }

  /** The `Tuple<Type?, Type?, string>` of a ruleset. */
  datatype AttributeTypes = AttributeTypes(performanceType: Option<ClrClass>, difficultyType: Option<ClrClass>, rulesetName: string)

  function AttributeTypesOf(ruleset: Ruleset, types: seq<AssemblyType>): AttributeTypes
  {
    AttributeTypes(LastOfKind(types, Performance), LastOfKind(types, Difficulty), ruleset.shortName)
  }

  /** `GetAttributeTypesForRuleset`: one pass over the assembly's types, each performance
      subclass overwriting the performance pick and each other difficulty subclass the
      difficulty pick. */
  method GetAttributeTypesForRuleset(ruleset: Ruleset, types: seq<AssemblyType>) returns (r: AttributeTypes)
    ensures r == AttributeTypesOf(ruleset, types)
  {
    var performanceType: Option<ClrClass> := None;
    var difficultyType: Option<ClrClass> := None;
    var i := 0;
    while i < |types|
      invariant 0 <= i <= |types|
      invariant performanceType == LastOfKind(types[..i], Performance)
      invariant difficultyType == LastOfKind(types[..i], Difficulty)
    {
      assert types[..i + 1][..i] == types[..i];
      var t := types[i];
      if t.extendsPerformance {
        performanceType := Some(t.cls);
      } else if t.extendsDifficulty {
        difficultyType := Some(t.cls);
      }
      i := i + 1;
    }
    assert types[..i] == types;
    r := AttributeTypes(performanceType, difficultyType, ruleset.shortName);
  }

  /** The last subclass wins: a performance subclass after all others is the pick, and it
      does not count as a difficulty subclass even when it derives from that base too. */
  lemma LastSubclassWins(types: seq<AssemblyType>, t: AssemblyType)
    requires t.extendsPerformance
    ensures LastOfKind(types + [t], Performance) == Some(t.cls)
    ensures LastOfKind(types + [t], Difficulty) == LastOfKind(types, Difficulty)
  {
    assert (types + [t])[..|types|] == types;
  }

  /** The triple of each ruleset, in order. `assemblyTypes` gives the types of the assembly
      that declares a ruleset's class. */
  function Triples(rulesets: seq<Ruleset>, assemblyTypes: Ruleset -> seq<AssemblyType>): (ts: seq<AttributeTypes>)
    ensures |ts| == |rulesets|
    ensures forall i :: 0 <= i < |rulesets| ==>
      ts[i] == AttributeTypes(LastOfKind(assemblyTypes(rulesets[i]), Performance),
                              LastOfKind(assemblyTypes(rulesets[i]), Difficulty), rulesets[i].shortName)
  {
    seq(|rulesets|, i requires 0 <= i < |rulesets| => AttributeTypesOf(rulesets[i], assemblyTypes(rulesets[i])))
  }

  /** `rulesets.Select(GetAttributeTypesForRuleset)`. */
  method SelectAttributeTypes(rulesets: seq<Ruleset>, assemblyTypes: Ruleset -> seq<AssemblyType>)
    returns (triples: seq<AttributeTypes>)
    ensures triples == Triples(rulesets, assemblyTypes)
  {
    triples := [];
    var i := 0;
    while i < |rulesets|
      invariant 0 <= i <= |rulesets|
      invariant triples == Triples(rulesets[..i], assemblyTypes)
    {
      var t := GetAttributeTypesForRuleset(rulesets[i], assemblyTypes(rulesets[i]));
      assert rulesets[..i + 1] == rulesets[..i] + [rulesets[i]];
      triples := triples + [t];
      i := i + 1;
    }
    assert rulesets[..i] == rulesets;
  }

  /** A ruleset registered under two names (the "catch" alias) yields the same triple at both
      places, because the triple carries the ruleset's own short name; `Distinct` then keeps
      that triple at exactly one position. */
  lemma AliasContributesOnce(rulesets: seq<Ruleset>, assemblyTypes: Ruleset -> seq<AssemblyType>, i: int, j: int)
    requires 0 <= i < j < |rulesets| && rulesets[i] == rulesets[j]
    ensures Triples(rulesets, assemblyTypes)[i] == Triples(rulesets, assemblyTypes)[j]
    ensures var t, d := Triples(rulesets, assemblyTypes)[i], Distinct(Triples(rulesets, assemblyTypes));
      exists k :: 0 <= k < |d| && d[k] == t && forall l :: 0 <= l < |d| && d[l] == t ==> l == k
  {
    var ts := Triples(rulesets, assemblyTypes);
    var d := Distinct(ts);
    assert ts[i] in d;
    var k :| 0 <= k < |d| && d[k] == ts[i];
    assert forall l :: 0 <= l < |d| && d[l] == ts[i] ==> l == k;
  }

  // ---------------------------------------------------------------------------------------
  // Capitalize

  /** `Capitalize`: the empty string as it is, otherwise the first character upper-cased. */
  function Capitalize(s: string): (r: string)
    ensures |r| == |s|
    ensures s == "" ==> r == ""
    ensures s != "" ==> r[0] == ToUpperAscii(s[0]) && r[1..] == s[1..]
  {
    if s == "" then s else [ToUpperAscii(s[0])] + s[1..]
  }

  /** Capitalizing twice is capitalizing once, and only the first character can change. */
  lemma CapitalizeIdempotent(s: string)
    ensures Capitalize(Capitalize(s)) == Capitalize(s)
    ensures forall i :: 1 <= i < |s| ==> Capitalize(s)[i] == s[i]
  {
    if s != "" {
      assert Capitalize(s)[1..] == s[1..];
      assert forall i :: 1 <= i < |s| ==> Capitalize(s)[i] == Capitalize(s)[1..][i - 1];
    }
  }

  /** The default definition title of a ruleset: `Capitalize(rulesetName)` then the base
      class name. */
  function DefaultTitle(rulesetName: string, kind: AttributeKind): string
  {
    Capitalize(rulesetName) + BaseTypeName(kind)
  }

  /** The specialised class a triple holds for a family. */
  function Picked(t: AttributeTypes, kind: AttributeKind): Option<ClrClass>
  {
    match kind
    case Performance => t.performanceType
    case Difficulty => t.difficultyType
  }

  /** The title of the definition a triple contributes for a family: the specialised class's
      name, else the default title. */
  function DefinitionTitle(t: AttributeTypes, kind: AttributeKind): string
  {
    if Picked(t, kind).Some? then Picked(t, kind).value.name else DefaultTitle(t.rulesetName, kind)
  }

  /** What both `schemas` commands' definition loops produce: for each triple in order, its
      performance entry then its difficulty entry. */
  function PerKind<D>(types: seq<AttributeTypes>, entry: (AttributeTypes, AttributeKind) -> D): (r: seq<D>)
    ensures |r| == 2 * |types|
    decreases |types|
  {
    if types == [] then [] else [entry(types[0], Performance), entry(types[0], Difficulty)] + PerKind(types[1..], entry)
  }

  /** The entries of the i-th triple sit at positions 2i and 2i + 1. */
  lemma {:induction false} PerKindAt<D>(types: seq<AttributeTypes>, entry: (AttributeTypes, AttributeKind) -> D, i: int)
    requires 0 <= i < |types|
    ensures PerKind(types, entry)[2 * i] == entry(types[i], Performance)
    ensures PerKind(types, entry)[2 * i + 1] == entry(types[i], Difficulty)
    decreases |types|
  {
    if i > 0 {
      PerKindAt(types[1..], entry, i - 1);
      assert types[1..][i - 1] == types[i];
    }
  }

  /** A ruleset with an empty short name and no specialised class takes the base class name
      itself as its title. */
  lemma EmptyNameTakesBaseTitle(kind: AttributeKind)
    ensures DefaultTitle("", kind) == BaseTypeName(kind)
  {
  }

  /** Default titles of two rulesets collide exactly when the names differ at most in the
      case of their first letter. */
  lemma DefaultTitlesCollide(a: string, b: string, kind: AttributeKind)
    ensures DefaultTitle(a, kind) == DefaultTitle(b, kind) <==> Capitalize(a) == Capitalize(b)
  {
    var x, y, s := Capitalize(a), Capitalize(b), BaseTypeName(kind);
    if x + s == y + s {
      assert |x| == |y|;
      assert x == (x + s)[..|x|];
      assert y == (y + s)[..|y|];
    }
  }
}
