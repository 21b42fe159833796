/** The `mods` command: for every ruleset, in `OnlineID` order, one record per mod the ruleset
    creates, with the mod's settings typed for JSON and its incompatible mods resolved to the
    acronyms of the ruleset's own mods. Reflection is replaced by type tags: a mod carries the
    name of its runtime type, and `isInstance(t, rt)` says whether an object of runtime type
    `rt` is an instance of type `t`. */
module ModsCommand {
  import opened Wrappers
  import opened Rulesets

  // ---------------------------------------------------------------------------------------
  // Setting types

  /** The .NET types a mod setting can have, as far as `GetJsonType` distinguishes them. */
  datatype ClrType =
    | Int | Double | Float
    | NullableInt | NullableDouble | NullableFloat
    | Bool | NullableBool
    | String
    | Enum(name: string)
    | Other(name: string)

  predicate IsNumber(t: ClrType)
  {
    t in {Int, Double, Float, NullableInt, NullableDouble, NullableFloat}
  }

  predicate IsBoolean(t: ClrType)
  {
    t == Bool || t == NullableBool
  }

  /** `GetJsonType`: the JSON kind of a setting's type. A missing type or one outside the
      table throws `ArgumentOutOfRangeException`. */
  function GetJsonType(netType: Option<ClrType>): (r: Result<string>)
    ensures r == Success("number") <==> netType.Some? && IsNumber(netType.value)
    ensures r == Success("boolean") <==> netType.Some? && IsBoolean(netType.value)
    ensures r == Success("string") <==> netType.Some? && (netType.value == String || netType.value.Enum?)
    ensures r.Failure? <==> netType.None? || netType.value.Other?
    ensures r.Failure? ==> r.error == ArgumentOutOfRangeException("netType")
  {
    if netType == Some(Int) then Success("number")
    else if netType == Some(Double) then Success("number")
    else if netType == Some(Float) then Success("number")
    else if netType == Some(NullableInt) then Success("number")
    else if netType == Some(NullableDouble) then Success("number")
    else if netType == Some(NullableFloat) then Success("number")
    else if netType == Some(Bool) then Success("boolean")
    else if netType == Some(NullableBool) then Success("boolean")
    else if netType == Some(String) then Success("string")
    else if netType.Some? && netType.value.Enum? then Success("string")
    else Failure(ArgumentOutOfRangeException("netType"))
  }

  // ---------------------------------------------------------------------------------------
  // Mods and their settings

  /** A settings-source property of a mod: its name, the attribute's label and description,
      the runtime type of the bindable's current underlying value (`None` when that value
      is null), and the type argument of the bindable's `IBindable<T>` interface. */
  datatype SettingProperty = SettingProperty(
    propertyName: string,
    settingLabel: string,
    description: string,
    underlyingValueType: Option<ClrType>,
    bindableTypeArgument: Option<ClrType>)

  /** The six flags copied into each mod record. */
  datatype ModFlags = ModFlags(
    requiresConfiguration: bool,
    userPlayable: bool,
    validForMultiplayer: bool,
    validForFreestyleAsRequiredMod: bool,
    validForMultiplayerAsFreeMod: bool,
    alwaysValidForSubmission: bool)

  /** A mod created by a ruleset. `modType` is the name of its `ModType` value and
      `runtimeType` names its class. */
  datatype Mod = Mod(
    acronym: string,
    name: string,
    description: string,
    modType: string,
    runtimeType: string,
    settings: seq<SettingProperty>,
    incompatibleMods: seq<string>,
    flags: ModFlags)

  datatype SettingDefinition = SettingDefinition(name: string, jsonType: string, settingLabel: string, description: string)

  datatype ModDefinition = ModDefinition(
    acronym: string,
    name: string,
    description: string,
    modType: string,
    settings: seq<SettingDefinition>,
    incompatibleMods: seq<string>,
    flags: ModFlags)

  /** The type a setting is described by: its current value's type, else the bindable's
      type argument. */
  function SettingType(p: SettingProperty): (t: Option<ClrType>)
    ensures p.underlyingValueType.Some? ==> t == p.underlyingValueType
    ensures p.underlyingValueType.None? ==> t == p.bindableTypeArgument
  {
    if p.underlyingValueType.Some? then p.underlyingValueType else p.bindableTypeArgument
  }

  /** `GetSettingsDefinitions`: one record per settings-source property, in order. The first
      property whose type `GetJsonType` rejects ends the enumeration with its exception. */
  function GetSettingsDefinitions(props: seq<SettingProperty>, toSnakeCase: string -> string): (r: Result<seq<SettingDefinition>>)
    ensures r.Success? <==> forall i :: 0 <= i < |props| ==> GetJsonType(SettingType(props[i])).Success?
    ensures r.Failure? ==> r.error == ArgumentOutOfRangeException("netType")
    ensures r.Success? ==> |r.value| == |props| && forall i :: 0 <= i < |props| ==>
      r.value[i] == SettingDefinition(toSnakeCase(props[i].propertyName), GetJsonType(SettingType(props[i])).value,
                                      props[i].settingLabel, props[i].description)
    decreases |props|
  {
    if props == [] then Success([])
    else
      var p := props[0];
      var jsonType :- GetJsonType(SettingType(p));
      var rest :- GetSettingsDefinitions(props[1..], toSnakeCase);
      assert forall i :: 1 <= i < |props| ==> props[i] == props[1..][i - 1];
      Success([SettingDefinition(toSnakeCase(p.propertyName), jsonType, p.settingLabel, p.description)] + rest)
  }

  // ---------------------------------------------------------------------------------------
  // Incompatible mods

  /** Whether a mod is an instance of any of the given types. */
  predicate InstanceOfAny(types: seq<string>, m: Mod, isInstance: (string, string) -> bool)
  {
    exists i :: 0 <= i < |types| && isInstance(types[i], m.runtimeType)
  }

  /** `GetAllImplementations`: the acronyms of the ruleset's mods that are instances of one of
      the types, in the ruleset's mod order. */
  function GetAllImplementations(incompatibleTypes: seq<string>, mods: seq<Mod>, isInstance: (string, string) -> bool): (r: seq<string>)
    ensures |r| <= |mods|
    ensures forall i :: 0 <= i < |mods| && InstanceOfAny(incompatibleTypes, mods[i], isInstance) ==> mods[i].acronym in r
    ensures forall j :: 0 <= j < |r| ==>
      exists i :: 0 <= i < |mods| && InstanceOfAny(incompatibleTypes, mods[i], isInstance) && mods[i].acronym == r[j]
    decreases |mods|
  {
    if mods == [] then []
    else
      var rest := GetAllImplementations(incompatibleTypes, mods[1..], isInstance);
      assert forall i :: 1 <= i < |mods| ==> mods[i] == mods[1..][i - 1];
      if InstanceOfAny(incompatibleTypes, mods[0], isInstance) then [mods[0].acronym] + rest else rest
  }

  /** The scan keeps the mod order: scanning two runs of mods is scanning each in turn. */
  lemma {:induction false} GetAllImplementationsAppend(types: seq<string>, a: seq<Mod>, b: seq<Mod>, isInstance: (string, string) -> bool)
    ensures GetAllImplementations(types, a + b, isInstance) ==
      GetAllImplementations(types, a, isInstance) + GetAllImplementations(types, b, isInstance)
    decreases |a|
  {
    if a == [] {
      assert a + b == b;
    } else {
      assert (a + b)[1..] == a[1..] + b;
      GetAllImplementationsAppend(types, a[1..], b, isInstance);
    }
  }

  /** A mod that is an instance of one of its own incompatible types lists itself. */
  lemma IncompatibleWithItself(m: Mod, mods: seq<Mod>, isInstance: (string, string) -> bool)
    requires m in mods && InstanceOfAny(m.incompatibleMods, m, isInstance)
    ensures m.acronym in GetAllImplementations(m.incompatibleMods, mods, isInstance)
  {
  }

  /** No declared incompatible type, no incompatible mods. */
  lemma {:induction false} NoIncompatibleTypes(mods: seq<Mod>, isInstance: (string, string) -> bool)
    ensures GetAllImplementations([], mods, isInstance) == []
    decreases |mods|
  {
    if mods != [] {
      NoIncompatibleTypes(mods[1..], isInstance);
    }
  }

  // ---------------------------------------------------------------------------------------
  // The records

  /** The record of one mod, resolved against the ruleset's mods. */
  function ModRecord(m: Mod, allMods: seq<Mod>, isInstance: (string, string) -> bool, toSnakeCase: string -> string): (r: Result<ModDefinition>)
    ensures r.Success? <==> GetSettingsDefinitions(m.settings, toSnakeCase).Success?
    ensures r.Success? ==>
      && r.value.acronym == m.acronym && r.value.name == m.name && r.value.flags == m.flags
      && r.value.description == m.description && r.value.modType == m.modType
      && r.value.settings == GetSettingsDefinitions(m.settings, toSnakeCase).value
      && |r.value.settings| == |m.settings|
      && r.value.incompatibleMods == GetAllImplementations(m.incompatibleMods, allMods, isInstance)
  {
    var settings :- GetSettingsDefinitions(m.settings, toSnakeCase);
    Success(ModDefinition(m.acronym, m.name, m.description, m.modType, settings,
                          GetAllImplementations(m.incompatibleMods, allMods, isInstance), m.flags))
  }

  function ModRecords(mods: seq<Mod>, allMods: seq<Mod>, isInstance: (string, string) -> bool, toSnakeCase: string -> string): (r: Result<seq<ModDefinition>>)
    ensures r.Success? <==> forall i :: 0 <= i < |mods| ==> ModRecord(mods[i], allMods, isInstance, toSnakeCase).Success?
    ensures r.Success? ==> |r.value| == |mods|
    ensures r.Success? ==>
      forall i :: 0 <= i < |mods| ==> r.value[i] == ModRecord(mods[i], allMods, isInstance, toSnakeCase).value
    decreases |mods|
  {
    if mods == [] then Success([])
    else
      var first :- ModRecord(mods[0], allMods, isInstance, toSnakeCase);
      var rest :- ModRecords(mods[1..], allMods, isInstance, toSnakeCase);
      assert forall i :: 1 <= i < |mods| ==> mods[i] == mods[1..][i - 1];
      Success([first] + rest)
  }

  /** `GetDefinitionsForRuleset`: one record per mod the ruleset creates, in the same order,
      each resolving its incompatible types against all of the ruleset's mods. */
  function GetDefinitionsForRuleset(mods: seq<Mod>, isInstance: (string, string) -> bool, toSnakeCase: string -> string): (r: Result<seq<ModDefinition>>)
    ensures r.Success? ==> |r.value| == |mods| && forall i :: 0 <= i < |mods| ==>
      && r.value[i].acronym == mods[i].acronym
      && r.value[i].name == mods[i].name
      && r.value[i].flags == mods[i].flags
      && r.value[i].incompatibleMods == GetAllImplementations(mods[i].incompatibleMods, mods, isInstance)
    ensures r.Failure? <==> exists i :: 0 <= i < |mods| && GetSettingsDefinitions(mods[i].settings, toSnakeCase).Failure?
  {
    ModRecords(mods, mods, isInstance, toSnakeCase)
  }

  /** One element of the dumped array. */
  datatype RulesetEntry = RulesetEntry(name: string, rulesetId: int, mods: seq<ModDefinition>)

  function Entries(rulesets: seq<Ruleset>, createAllMods: Ruleset -> seq<Mod>, isInstance: (string, string) -> bool, toSnakeCase: string -> string): (r: Result<seq<RulesetEntry>>)
    ensures r.Success? ==> |r.value| == |rulesets| && forall i :: 0 <= i < |rulesets| ==>
      && r.value[i].name == rulesets[i].shortName
      && r.value[i].rulesetId == rulesets[i].onlineId
      && GetDefinitionsForRuleset(createAllMods(rulesets[i]), isInstance, toSnakeCase) == Success(r.value[i].mods)
    ensures r.Failure? <==> exists i :: 0 <= i < |rulesets| && GetDefinitionsForRuleset(createAllMods(rulesets[i]), isInstance, toSnakeCase).Failure?
    decreases |rulesets|
  {
    if rulesets == [] then Success([])
    else
      var r := rulesets[0];
      var mods :- GetDefinitionsForRuleset(createAllMods(r), isInstance, toSnakeCase);
      var rest :- Entries(rulesets[1..], createAllMods, isInstance, toSnakeCase);
      assert forall i :: 1 <= i < |rulesets| ==> rulesets[i] == rulesets[1..][i - 1];
      Success([RulesetEntry(r.shortName, r.onlineId, mods)] + rest)
  }

  /** `Execute`'s dump: the registry's rulesets ordered by `OnlineID`, each with its mods. */
  function Execute(rulesets: seq<Ruleset>, createAllMods: Ruleset -> seq<Mod>, isInstance: (string, string) -> bool, toSnakeCase: string -> string): Result<seq<RulesetEntry>>
  {
    Entries(OrderBy(rulesets, OnlineId), createAllMods, isInstance, toSnakeCase)
  }

  /** The dump lists one entry per listed ruleset, in ascending ruleset ID, and rulesets
      sharing an ID keep their registry order. With the officials the registry lists the
      fruits ruleset twice (under "fruits" and under the "catch" alias), so the dump holds
      two entries for it. */
  lemma ExecuteOrdered(rulesets: seq<Ruleset>, createAllMods: Ruleset -> seq<Mod>, isInstance: (string, string) -> bool, toSnakeCase: string -> string, id: int)
    requires Execute(rulesets, createAllMods, isInstance, toSnakeCase).Success?
    ensures var entries := Execute(rulesets, createAllMods, isInstance, toSnakeCase).value;
      && |entries| == |rulesets|
      && (forall i, j :: 0 <= i < j < |entries| ==> entries[i].rulesetId <= entries[j].rulesetId)
      && WithKey(OrderBy(rulesets, OnlineId), OnlineId, id) == WithKey(rulesets, OnlineId, id)
  {
    var sorted := OrderBy(rulesets, OnlineId);
    OrderBySorted(rulesets, OnlineId);
    OrderByStable(rulesets, OnlineId, id);
    var entries := Execute(rulesets, createAllMods, isInstance, toSnakeCase).value;
    assert forall i :: 0 <= i < |entries| ==> entries[i].rulesetId == OnlineId(sorted[i]);
  }
}
