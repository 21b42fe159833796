/** The ruleset registry of the generators. It holds two dictionaries, by short name and by
    legacy ID, both first-wins. The official rulesets are registered before the plugins found
    on disk, and "catch" is made an alias of "fruits". The class keeps the name dictionary's
    keys in insertion order, because that is the order in which `GetAllRulesets` enumerates
    them. `Registry` is the value of the object; `Add`, `AddAll`, `LoadOfficials` and
    `LoadFiles` specify the methods. */
module RulesetManagement {
  import opened Wrappers
  import opened Text
  import opened Rulesets

  /** The contents of the two dictionaries. `order` lists the keys of `byName` in the order
      the dictionary enumerates them. */
  datatype Registry = Registry(byName: map<string, Ruleset>, order: seq<string>, byId: map<int, Ruleset>)

  const Empty := Registry(map[], [], map[])

  /** The official rulesets, in the order `LoadOfficialRulesets` registers them. */
  const Officials: seq<Ruleset> := [
    Ruleset("osu", Some(0), 0),
    Ruleset("taiko", Some(1), 1),
    Ruleset("fruits", Some(2), 2),
    Ruleset("mania", Some(3), 3)
  ]

  const CatchAlias := "catch"
  const FruitsName := "fruits"

  /** The registry's invariant: the key order lists each name once, every ruleset in the ID
      map carries that ID and is registered under its own short name, and every name entry is
      keyed by its ruleset's short name except the "catch" alias. */
  ghost predicate Valid(g: Registry)
  {
    && (forall i, j :: 0 <= i < j < |g.order| ==> g.order[i] != g.order[j])
    && (forall i :: 0 <= i < |g.order| ==> g.order[i] in g.byName)
    && (forall k :: k in g.byName ==> k in g.order)
    && (forall id :: id in g.byId ==>
          && g.byId[id].legacyId == Some(id)
          && g.byId[id].shortName in g.byName
          && g.byName[g.byId[id].shortName] == g.byId[id])
    && (forall k :: k in g.byName ==> g.byName[k].shortName == k || k == CatchAlias)
  }

  /** `AddRuleset`: a name already present leaves both dictionaries alone; otherwise the
      ruleset is registered by name and, when it has a legacy ID not yet taken, by ID. */
  function Add(g: Registry, r: Ruleset): Registry
  {
    if r.shortName in g.byName then g
    else
      var byName := g.byName[r.shortName := r];
      var order := g.order + [r.shortName];
      match r.legacyId
      case None => Registry(byName, order, g.byId)
      case Some(id) =>
        if id in g.byId then Registry(byName, order, g.byId)
        else Registry(byName, order, g.byId[id := r])
  }

  /** `AddRuleset` on each ruleset in turn. */
  function AddAll(g: Registry, rs: seq<Ruleset>): Registry
    decreases |rs|
  {
    if rs == [] then g else AddAll(Add(g, rs[0]), rs[1..])
  }

  /** Assigning `_rulesets["catch"]`: an existing key keeps its place in the enumeration
      order, a new key goes last. */
  function SetByName(g: Registry, k: string, r: Ruleset): Registry
  {
    Registry(g.byName[k := r], if k in g.byName then g.order else g.order + [k], g.byId)
  }

  /** `LoadOfficialRulesets`: the four official rulesets, then "catch" aliased to whatever
      "fruits" maps to. */
  function LoadOfficials(g: Registry): (r: Registry)
    ensures FruitsName in AddAll(g, Officials).byName
  {
    AddAllHasNames(g, Officials);
    assert Officials[2].shortName == FruitsName;
    var loaded := AddAll(g, Officials);
    SetByName(loaded, CatchAlias, loaded.byName[FruitsName])
  }

  // ---------------------------------------------------------------------------------------
  // Registration

  /** First registration wins: a name already present changes nothing. */
  lemma AddExistingName(g: Registry, r: Ruleset)
    requires r.shortName in g.byName
    ensures Add(g, r) == g
  {
  }

  /** A ruleset without a legacy ID is added by name only. */
  lemma AddNonLegacy(g: Registry, r: Ruleset)
    requires r.shortName !in g.byName && r.legacyId.None?
    ensures Add(g, r).byName == g.byName[r.shortName := r]
    ensures Add(g, r).byId == g.byId
    ensures Add(g, r).order == g.order + [r.shortName]
  {
  }

  /** A legacy ruleset whose ID is taken is still registered by name; the ID map keeps the
      first holder of the ID. */
  lemma AddIdCollision(g: Registry, r: Ruleset)
    requires r.shortName !in g.byName && r.legacyId.Some? && r.legacyId.value in g.byId
    ensures Add(g, r).byName == g.byName[r.shortName := r]
    ensures Add(g, r).byId == g.byId
  {
  }

  /** A new name with a new legacy ID is registered in both maps. */
  lemma AddFresh(g: Registry, r: Ruleset)
    requires r.shortName !in g.byName && r.legacyId.Some? && r.legacyId.value !in g.byId
    ensures Add(g, r).byName == g.byName[r.shortName := r]
    ensures Add(g, r).byId == g.byId[r.legacyId.value := r]
  {
  }

  /** Registration keeps the invariant. */
  lemma AddValid(g: Registry, r: Ruleset)
    requires Valid(g)
    ensures Valid(Add(g, r))
  {
    if r.shortName !in g.byName {
      var g' := Add(g, r);
      assert g'.byName == g.byName[r.shortName := r];
      assert g'.order == g.order + [r.shortName];
      assert g'.byId == g.byId || (r.legacyId.Some? && g'.byId == g.byId[r.legacyId.value := r]);
      assert forall i :: 0 <= i < |g.order| ==> g'.order[i] == g.order[i];
      forall k | k in g'.byName
        ensures k in g'.order && (g'.byName[k].shortName == k || k == CatchAlias)
      {
        if k != r.shortName {
          assert k in g.order;
        }
      }
      forall id | id in g'.byId
        ensures g'.byId[id].legacyId == Some(id)
        ensures g'.byId[id].shortName in g'.byName && g'.byName[g'.byId[id].shortName] == g'.byId[id]
      {
        if id in g.byId && g'.byId[id] == g.byId[id] {
          assert g.byId[id].shortName in g.byName;
        }
      }
    }
  }

  lemma {:induction false} AddAllValid(g: Registry, rs: seq<Ruleset>)
    requires Valid(g)
    ensures Valid(AddAll(g, rs))
    decreases |rs|
  {
    if rs != [] {
      AddValid(g, rs[0]);
      AddAllValid(Add(g, rs[0]), rs[1..]);
    }
  }

  /** Registration never changes an existing entry of either map, and never removes a key. */
  lemma {:induction false} AddAllKeeps(g: Registry, rs: seq<Ruleset>)
    ensures forall k :: k in g.byName ==> k in AddAll(g, rs).byName && AddAll(g, rs).byName[k] == g.byName[k]
    ensures forall id :: id in g.byId ==> id in AddAll(g, rs).byId && AddAll(g, rs).byId[id] == g.byId[id]
    ensures g.order <= AddAll(g, rs).order
    decreases |rs|
  {
    if rs != [] {
      AddAllKeeps(Add(g, rs[0]), rs[1..]);
    }
  }

  /** After registering a sequence, every name in it is present. */
  lemma {:induction false} AddAllHasNames(g: Registry, rs: seq<Ruleset>)
    ensures forall i :: 0 <= i < |rs| ==> rs[i].shortName in AddAll(g, rs).byName
    decreases |rs|
  {
    if rs != [] {
      AddAllHasNames(Add(g, rs[0]), rs[1..]);
      AddAllKeeps(Add(g, rs[0]), rs[1..]);
      assert forall i :: 1 <= i < |rs| ==> rs[i] == rs[1..][i - 1];
    }
  }

  /** Every ruleset in the ID map is also a value of the name map. */
  lemma IdMapInNameMap(g: Registry, id: int)
    requires Valid(g) && id in g.byId
    ensures g.byId[id] in g.byName.Values
  {
    assert g.byName[g.byId[id].shortName] == g.byId[id];
  }

  // ---------------------------------------------------------------------------------------
  // The official rulesets

  /** The catch alias keeps the invariant when "catch" was not a name before. */
  lemma LoadOfficialsValid(g: Registry)
    requires Valid(g) && CatchAlias !in AddAll(g, Officials).byName
    ensures Valid(LoadOfficials(g))
  {
    AddAllValid(g, Officials);
    AliasValid(AddAll(g, Officials));
  }

  /** Adding "catch" as a new key aliasing "fruits" keeps the invariant. */
  lemma AliasValid(g: Registry)
    requires Valid(g) && CatchAlias !in g.byName && FruitsName in g.byName
    ensures Valid(SetByName(g, CatchAlias, g.byName[FruitsName]))
  {
    var r := SetByName(g, CatchAlias, g.byName[FruitsName]);
    assert r.order == g.order + [CatchAlias];
    assert forall i :: 0 <= i < |g.order| ==> r.order[i] == g.order[i];
    forall id | id in r.byId
      ensures r.byId[id].shortName in r.byName && r.byName[r.byId[id].shortName] == r.byId[id]
    {
      assert g.byId[id].shortName in g.byName;
    }
  }

  /** The registry `LoadOfficialRulesets` builds in a new manager. */
  const OfficialRegistry := Registry(
    map["osu" := Officials[0], "taiko" := Officials[1], "fruits" := Officials[2], "mania" := Officials[3],
        "catch" := Officials[2]],
    ["osu", "taiko", "fruits", "mania", "catch"],
    map[0 := Officials[0], 1 := Officials[1], 2 := Officials[2], 3 := Officials[3]])

  lemma AddAllOfficialsFromEmpty()
    ensures AddAll(Empty, Officials) == Registry(
      map["osu" := Officials[0], "taiko" := Officials[1], "fruits" := Officials[2], "mania" := Officials[3]],
      ["osu", "taiko", "fruits", "mania"],
      map[0 := Officials[0], 1 := Officials[1], 2 := Officials[2], 3 := Officials[3]])
  {
    var g1 := Add(Empty, Officials[0]);
    var g2 := Add(g1, Officials[1]);
    var g3 := Add(g2, Officials[2]);
    var g4 := Add(g3, Officials[3]);
    assert AddAll(Empty, Officials) == AddAll(g1, Officials[1..]);
    assert AddAll(g1, Officials[1..]) == AddAll(g2, Officials[2..]);
    assert AddAll(g2, Officials[2..]) == AddAll(g3, Officials[3..]);
    assert AddAll(g3, Officials[3..]) == AddAll(g4, []);
  }

  lemma OfficialRegistryValid()
    ensures Valid(OfficialRegistry)
  {
    var g := OfficialRegistry;
    assert g.order[0][0] == 'o' && g.order[1][0] == 't' && g.order[2][0] == 'f' && g.order[3][0] == 'm' && g.order[4][0] == 'c';
    forall i, j | 0 <= i < j < |g.order|
      ensures g.order[i] != g.order[j]
    {
      assert g.order[i][0] != g.order[j][0];
    }
    forall id | id in g.byId
      ensures g.byId[id].legacyId == Some(id) && g.byId[id].shortName in g.byName && g.byName[g.byId[id].shortName] == g.byId[id]
    {
      assert id == 0 || id == 1 || id == 2 || id == 3;
    }
    forall k | k in g.byName
      ensures k in g.order && (g.byName[k].shortName == k || k == CatchAlias)
    {
      var i :| 0 <= i < 5 && k == g.order[i];
    }
  }

  /** Loaded into an empty registry, the officials give five names in this order, "catch"
      mapping to the same ruleset as "fruits", and the four legacy IDs. */
  lemma OfficialsFromEmpty()
    ensures LoadOfficials(Empty) == OfficialRegistry
    ensures LoadOfficials(Empty).byName[CatchAlias] == LoadOfficials(Empty).byName[FruitsName]
    ensures Valid(LoadOfficials(Empty))
  {
    AddAllOfficialsFromEmpty();
    var loaded := AddAll(Empty, Officials);
    assert loaded.byName[FruitsName] == Officials[2];
    assert CatchAlias !in loaded.byName;
    assert LoadOfficials(Empty) == SetByName(loaded, CatchAlias, Officials[2]);
    assert SetByName(loaded, CatchAlias, Officials[2]) == OfficialRegistry;
    OfficialRegistryValid();
  }

  /** With the officials registered first, a plugin that reuses an official short name, or
      the "catch" alias, is rejected and changes nothing. */
  lemma OfficialNamesRejected(r: Ruleset)
    requires r.shortName in {"osu", "taiko", "fruits", "mania", "catch"}
    ensures Add(LoadOfficials(Empty), r) == LoadOfficials(Empty)
  {
    OfficialsFromEmpty();
    assert r.shortName in LoadOfficials(Empty).order;
  }

  // ---------------------------------------------------------------------------------------
  // Loading from disk

  /** What loading one assembly file yields: the first concrete `Ruleset` subclass,
      instantiated; no such type; or an exception, which the loop catches. */
  datatype LoadResult = Loaded(ruleset: Ruleset) | NoRulesetType | LoadFailed

  const TestsMarker := "Tests"

  /** The `LoadFromDisk` loop on values: files whose path contains "Tests" are skipped, as
      are files that yield no ruleset or fail to load; the others are registered. */
  function LoadFiles(g: Registry, files: seq<string>, loader: string -> LoadResult): Registry
    decreases |files|
  {
    if files == [] then g
    else
      var next :=
        if Contains(files[0], TestsMarker) then g
        else match loader(files[0])
          case Loaded(r) => Add(g, r)
          case NoRulesetType => g
          case LoadFailed => g;
      LoadFiles(next, files[1..], loader)
  }

  /** The rulesets the files yield, in file order, leaving out the skipped files. */
  function Candidates(files: seq<string>, loader: string -> LoadResult): (rs: seq<Ruleset>)
    ensures forall j :: 0 <= j < |rs| ==>
      exists i :: 0 <= i < |files| && !Contains(files[i], TestsMarker) && loader(files[i]) == Loaded(rs[j])
    ensures forall i :: 0 <= i < |files| && !Contains(files[i], TestsMarker) && loader(files[i]).Loaded? ==>
      loader(files[i]).ruleset in rs
    decreases |files|
  {
    if files == [] then []
    else
      var rest := Candidates(files[1..], loader);
      assert forall i :: 1 <= i < |files| ==> files[i] == files[1..][i - 1];
      if !Contains(files[0], TestsMarker) && loader(files[0]).Loaded? then [loader(files[0]).ruleset] + rest
      else rest
  }

  /** Loading from disk is registering the candidates in file order. */
  lemma {:induction false} LoadFilesIsAddAll(g: Registry, files: seq<string>, loader: string -> LoadResult)
    ensures LoadFiles(g, files, loader) == AddAll(g, Candidates(files, loader))
    decreases |files|
  {
    if files != [] {
      if !Contains(files[0], TestsMarker) && loader(files[0]).Loaded? {
        LoadFilesIsAddAll(Add(g, loader(files[0]).ruleset), files[1..], loader);
      } else {
        LoadFilesIsAddAll(g, files[1..], loader);
      }
    }
  }

  /** `LoadFromDisk`: nothing for a missing directory (`None`), else the files found in it. */
  function LoadDisk(g: Registry, directory: Option<seq<string>>, loader: string -> LoadResult): Registry
  {
    match directory
    case None => g
    case Some(files) => LoadFiles(g, files, loader)
  }

  /** The registry a constructor builds. */
  function Construct(includeOfficial: bool, directory: Option<seq<string>>, loader: string -> LoadResult): Registry
  {
    LoadDisk(if includeOfficial then LoadOfficials(Empty) else Empty, directory, loader)
  }

  /** Plugins never displace an official ruleset: the five official names and the four
      legacy IDs keep their official rulesets, and the registry stays valid. */
  lemma ConstructKeepsOfficials(directory: Option<seq<string>>, loader: string -> LoadResult)
    ensures var g := Construct(true, directory, loader);
      && Valid(g)
      && (forall i :: 0 <= i < |Officials| ==>
            && Officials[i].shortName in g.byName && g.byName[Officials[i].shortName] == Officials[i]
            && i in g.byId && g.byId[i] == Officials[i])
      && CatchAlias in g.byName && g.byName[CatchAlias] == Officials[2]
  {
    ConstructWithOfficials(directory, loader);
    OfficialRegistryValid();
    OfficialEntries();
    LoadDiskKeeps(OfficialRegistry, directory, loader);
  }

  /** With the officials included, "fruits" and the "catch" alias both name the official
      "fruits" ruleset after construction. */
  lemma ConstructAlias(directory: Option<seq<string>>, loader: string -> LoadResult)
    ensures var g := Construct(true, directory, loader);
      && Valid(g)
      && FruitsName in g.byName && g.byName[FruitsName] == Officials[2]
      && CatchAlias in g.byName && g.byName[CatchAlias] == Officials[2]
  {
    ConstructKeepsOfficials(directory, loader);
    assert Officials[2].shortName == FruitsName;
  }

  /** With the officials included, construction is loading from disk into the official
      registry. */
  lemma ConstructWithOfficials(directory: Option<seq<string>>, loader: string -> LoadResult)
    ensures Construct(true, directory, loader) == LoadDisk(OfficialRegistry, directory, loader)
  {
    OfficialsFromEmpty();
  }

  /** The official registry maps each official name and legacy ID to its ruleset, and the
      alias to "fruits". */
  lemma OfficialEntries()
    ensures forall i :: 0 <= i < |Officials| ==>
      && Officials[i].shortName in OfficialRegistry.byName && OfficialRegistry.byName[Officials[i].shortName] == Officials[i]
      && i in OfficialRegistry.byId && OfficialRegistry.byId[i] == Officials[i]
    ensures CatchAlias in OfficialRegistry.byName && OfficialRegistry.byName[CatchAlias] == Officials[2]
  {
    var g := OfficialRegistry;
    forall i | 0 <= i < |Officials|
      ensures Officials[i].shortName in g.byName && g.byName[Officials[i].shortName] == Officials[i]
      ensures i in g.byId && g.byId[i] == Officials[i]
    {
      if i == 0 {
        assert Officials[0].shortName == "osu";
      } else if i == 1 {
        assert Officials[1].shortName == "taiko";
      } else if i == 2 {
        assert Officials[2].shortName == "fruits";
      } else {
        assert Officials[3].shortName == "mania";
      }
    }
  }

  /** Loading from disk keeps every entry of either map and keeps the invariant. */
  lemma LoadDiskKeeps(g: Registry, directory: Option<seq<string>>, loader: string -> LoadResult)
    requires Valid(g)
    ensures var g' := LoadDisk(g, directory, loader);
      && Valid(g')
      && (forall k :: k in g.byName ==> k in g'.byName && g'.byName[k] == g.byName[k])
      && (forall id :: id in g.byId ==> id in g'.byId && g'.byId[id] == g.byId[id])
  {
    if directory.Some? {
      LoadFilesIsAddAll(g, directory.value, loader);
      AddAllKeeps(g, Candidates(directory.value, loader));
      AddAllValid(g, Candidates(directory.value, loader));
    }
  }

  /** Without the officials, a missing directory gives an empty registry. */
  lemma MissingDirectory(loader: string -> LoadResult)
    ensures Construct(false, None, loader) == Empty
  {
  }

  // ---------------------------------------------------------------------------------------
  // The object

  class RulesetManager {
    var byName: map<string, Ruleset>
    var order: seq<string>
    var byId: map<int, Ruleset>

    function Value(): Registry
      reads this
    {
      Registry(byName, order, byId)
    }

    /** `new RulesetManager(rulesetPath, includeOfficial)`. The directory listing (`None`
        when the directory does not exist) and the assembly loader are parameters. */
    constructor (includeOfficial: bool, directory: Option<seq<string>>, loader: string -> LoadResult)
      ensures Value() == Construct(includeOfficial, directory, loader)
      ensures Valid(Value())
    {
      byName, order, byId := map[], [], map[];
      new;
      if includeOfficial {
        LoadOfficialRulesets();
        OfficialsFromEmpty();
      }
      LoadFromDisk(directory, loader);
      if directory.Some? {
        LoadFilesIsAddAll(if includeOfficial then LoadOfficials(Empty) else Empty, directory.value, loader);
        AddAllValid(if includeOfficial then LoadOfficials(Empty) else Empty, Candidates(directory.value, loader));
      }
    }

    method AddRuleset(r: Ruleset)
      modifies this
      ensures Value() == Add(old(Value()), r)
    {
      if r.shortName in byName {
        return;
      }
      byName := byName[r.shortName := r];
      order := order + [r.shortName];
      if r.legacyId.None? {
        return;
      }
      if r.legacyId.value !in byId {
        byId := byId[r.legacyId.value := r];
      }
    }

    method LoadOfficialRulesets()
      modifies this
      ensures Value() == LoadOfficials(old(Value()))
    {
      var i := 0;
      while i < |Officials|
        invariant 0 <= i <= |Officials|
        invariant AddAll(Value(), Officials[i..]) == AddAll(old(Value()), Officials)
      {
        assert Officials[i..][1..] == Officials[i + 1..];
        AddRuleset(Officials[i]);
        i := i + 1;
      }
      assert AddAll(Value(), []) == Value();
      AddAllHasNames(old(Value()), Officials);
      var fruits := byName[FruitsName];
      if CatchAlias !in byName {
        order := order + [CatchAlias];
      }
      byName := byName[CatchAlias := fruits];
    }

    method LoadFromDisk(directory: Option<seq<string>>, loader: string -> LoadResult)
      modifies this
      ensures Value() == LoadDisk(old(Value()), directory, loader)
    {
      if directory.None? {
        return;
      }
      var files := directory.value;
      var i := 0;
      while i < |files|
        invariant 0 <= i <= |files|
        invariant LoadFiles(Value(), files[i..], loader) == LoadFiles(old(Value()), files, loader)
      {
        assert files[i..][1..] == files[i + 1..];
        var file := files[i];
        i := i + 1;
        if Contains(file, TestsMarker) {
          continue;
        }
        match loader(file)
        case NoRulesetType =>
          continue;
        case LoadFailed =>
          continue;
        case Loaded(r) =>
          AddRuleset(r);
      }
    }

    /** `GetRuleset(int)`: the ruleset registered under a legacy ID. */
    function GetRuleset(rulesetId: int): (r: Result<Ruleset>)
      reads this
      ensures r.Success? <==> rulesetId in byId
      ensures r.Success? ==> r.value == byId[rulesetId]
      ensures r.Failure? ==> r.error == ArgumentException("Invalid ruleset ID provided.")
    {
      if rulesetId in byId then Success(byId[rulesetId])
      else Failure(ArgumentException("Invalid ruleset ID provided."))
    }

    /** `GetRuleset(string)`: the ruleset registered under a short name or the alias. */
    function GetRulesetByName(shortName: string): (r: Result<Ruleset>)
      reads this
      ensures r.Success? <==> shortName in byName
      ensures r.Success? ==> r.value == byName[shortName]
      ensures r.Failure? ==> r.error == ArgumentException("Invalid ruleset name provided.")
    {
      if shortName in byName then Success(byName[shortName])
      else Failure(ArgumentException("Invalid ruleset name provided."))
    }

    /** `GetAllRulesets`: the name map's values, in key order. */
    function GetAllRulesets(): (rs: seq<Ruleset>)
      reads this
      requires forall i :: 0 <= i < |order| ==> order[i] in byName
      ensures |rs| == |order|
      ensures forall i :: 0 <= i < |rs| ==> rs[i] == byName[order[i]]
    {
      var keys, values := order, byName;
      seq(|keys|, i requires 0 <= i < |keys| => values[keys[i]])
    }
  }

  /** In a valid registry a legacy lookup finds a ruleset carrying that ID, registered under
      its own short name. */
  lemma GetRulesetConsistent(m: RulesetManager, id: int)
    requires Valid(m.Value())
    requires m.GetRuleset(id).Success?
    ensures m.GetRuleset(id).value.legacyId == Some(id)
    ensures m.GetRulesetByName(m.GetRuleset(id).value.shortName) == m.GetRuleset(id)
  {
  }

  /** With the officials included, "catch" and "fruits" look up the same ruleset, and
      `GetAllRulesets` lists that ruleset twice. */
  lemma CatchListedTwice(m: RulesetManager, directory: Option<seq<string>>, loader: string -> LoadResult)
    requires m.Value() == Construct(true, directory, loader) && Valid(m.Value())
    ensures m.GetRulesetByName(CatchAlias) == m.GetRulesetByName(FruitsName) == Success(Officials[2])
    ensures exists i, j ::
      0 <= i < j < |m.GetAllRulesets()| && m.GetAllRulesets()[i] == m.GetAllRulesets()[j] == Officials[2]
  {
    ConstructAlias(directory, loader);
    var g := m.Value();
    var i, j := AliasListedTwice(g);
    assert m.GetAllRulesets()[i] == g.byName[g.order[i]];
    assert m.GetAllRulesets()[j] == g.byName[g.order[j]];
  }

  /** In a valid registry holding both "fruits" and "catch", the key order lists the two
      names at two distinct places, so enumerating the values meets the ruleset twice. */
  lemma AliasListedTwice(g: Registry) returns (i: int, j: int)
    requires Valid(g) && FruitsName in g.byName && CatchAlias in g.byName
    ensures 0 <= i < j < |g.order|
    ensures || (g.order[i] == FruitsName && g.order[j] == CatchAlias)
            || (g.order[i] == CatchAlias && g.order[j] == FruitsName)
  {
    var f :| 0 <= f < |g.order| && g.order[f] == FruitsName;
    var c :| 0 <= c < |g.order| && g.order[c] == CatchAlias;
    if f < c {
      i, j := f, c;
    } else {
      i, j := c, f;
    }
  }

  /** Every name entry is keyed by its ruleset's own short name: there is no alias. */
  ghost predicate OwnNames(g: Registry)
  {
    forall k :: k in g.byName ==> g.byName[k].shortName == k
  }

  /** Registration keys each new ruleset by its own short name. */
  lemma {:induction false} AddAllOwnNames(g: Registry, rs: seq<Ruleset>)
    requires OwnNames(g)
    ensures OwnNames(AddAll(g, rs))
    decreases |rs|
  {
    if rs != [] {
      assert OwnNames(Add(g, rs[0]));
      AddAllOwnNames(Add(g, rs[0]), rs[1..]);
    }
  }

  /** Without the officials nothing sets the "catch" alias, so every entry is keyed by its own
      short name. */
  lemma ConstructWithoutOfficials(directory: Option<seq<string>>, loader: string -> LoadResult)
    ensures Valid(Construct(false, directory, loader))
    ensures OwnNames(Construct(false, directory, loader))
  {
    LoadDiskKeeps(Empty, directory, loader);
    if directory.Some? {
      LoadFilesIsAddAll(Empty, directory.value, loader);
      AddAllOwnNames(Empty, Candidates(directory.value, loader));
    }
  }

  /** Without the officials, `GetAllRulesets` lists rulesets with pairwise distinct short
      names: registration is first-wins by name and there is no alias. */
  lemma PluginNamesDistinct(m: RulesetManager, directory: Option<seq<string>>, loader: string -> LoadResult)
    requires m.Value() == Construct(false, directory, loader) && Valid(m.Value())
    ensures forall i, j :: 0 <= i < j < |m.GetAllRulesets()| ==>
      m.GetAllRulesets()[i].shortName != m.GetAllRulesets()[j].shortName
  {
    ConstructWithoutOfficials(directory, loader);
    var rs := m.GetAllRulesets();
    assert forall i :: 0 <= i < |rs| ==> rs[i].shortName == m.order[i];
  }
}

