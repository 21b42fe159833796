# custom-rulesets generators, modelled in Dafny

This project models the core of the GooGuTeam custom-rulesets tools. These command-line
generators load osu! rulesets (the four official ones plus plugin assemblies found on disk)
and emit three documents: a JSON schema of each ruleset's performance and difficulty
attribute classes, a dump of each ruleset's mods, and a manifest of ruleset versions and
assembly hashes. Covered are:

- the ruleset registry (`RulesetManager`): first-wins registration by short name and by legacy
  ID, the official rulesets with the "catch" alias of "fruits", and loading from disk;
- both version comparators: the metadata generator's `YYYY.MMDD[.P]` labels and the older
  generator's `yyyy.M.d` / `yyyy.MM.dd` labels;
- the `ruleset-version` command: the in-place update of each `VersionEntry`, the merge loop
  over the rulesets in `OnlineID` order, and the lower-case hex rendering of the MD5 digest;
- the `mods` command: setting types, settings, and the resolution of incompatible mods to
  acronyms;
- both `schemas` commands: the scan of an assembly for specialised attribute classes,
  `Capitalize`, the definition names, the base schemas with every property required, and
  the thin and specialised definitions with their `allOf` rewritten.

Files, one module each:

| file | module |
|---|---|
| wrappers.dfy | `Wrappers`: `Option`, `Result`, `Outcome`, and the .NET exceptions as values |
| text.dfy | `Text`: digits, `Split` with and without `RemoveEmptyEntries`, `Int32.TryParse`, ASCII upper case |
| dates.dfy | `Dates`: proleptic Gregorian dates and `DateTime.Compare` |
| metadata_version_helper.dfy | `MetadataVersionHelper` |
| generator_version_helper.dfy | `GeneratorVersionHelper` |
| rulesets.dfy | `Rulesets`: the ruleset record, LINQ's stable `OrderBy` and `Distinct` |
| ruleset_manager.dfy | `RulesetManagement`: the `RulesetManager` class and its value-level specification |
| version_command.dfy | `VersionCommand` |
| mods_command.dfy | `ModsCommand` |
| attribute_types.dfy | `AttributeTypeScan`: what both `schemas` commands share |
| json_schema.dfy | `JsonSchemas`: the part of NJsonSchema's `JsonSchema` the commands touch |
| metadata_schemas_command.dfy | `MetadataSchemasCommand` |
| generator_schemas_command.dfy | `GeneratorSchemasCommand` |

Code that mutates state is modelled as classes and methods. This covers `RulesetManager`,
`VersionEntry`, `JsonSchema`, and the loops of `Execute`, `GetAttributeTypesForRuleset`
and the schema generators. Each method is proved against a specification function:
`Registry` with `Add` / `AddAll` / `LoadOfficials`, `Entry` with `Merge` / `MergeRun`, and
`AddDefinitions` over a sequence of definitions. Lemmas about those functions state what
the tools promise.

Behaviour of the code worth knowing:

- Two rulesets whose definitions get the same name make `Definitions.Add` throw
  `ArgumentException`; no shared definition is emitted. This happens with two rulesets of
  one assembly sharing a specialised class, or two default names that differ only in the
  case of the first letter.
- A ruleset with the empty short name and no specialised performance class is named
  "PerformanceAttributes". In the metadata command that is the base schema's key, so the
  command throws.
- A missing ruleset directory is not an error: `LoadFromDisk` returns without loading
  anything.
- Merging a version into a fresh entry stores the label without parsing it. Re-running with
  the same malformed label then throws, so idempotence holds only for well-formed labels.
- The `ruleset-version` command builds its registry without the officials, and registration
  is first-wins by short name, so the rulesets it merges have pairwise distinct short names
  (`RulesetManagement.PluginNamesDistinct`, `VersionCommand.RegistryRunDistinct`): each
  manifest entry is merged exactly once per run.
- With the officials (the default of the `mods` and `schemas` commands) the registry lists
  the fruits ruleset twice, under "fruits" and under the "catch" alias.

## Model

| member | source | states |
|---|---|---|
| Text.JoinSplit | CustomRulesetMetadataGenerator/VersionHelper.cs:33 | the pieces `Split` returns, joined with the separator, give back the label |
| Text.SplitAppend | CustomRulesetMetadataGenerator/VersionHelper.cs:33 | splitting at a separator splits the two sides independently |
| Text.RemoveEmptyAppend | CustomRulesetMetadataGenerator/VersionHelper.cs:33 | dropping empty pieces distributes over concatenation, keeping order |
| Text.ParseInt32 | CustomRulesetMetadataGenerator/VersionHelper.cs:47 | `Int32.TryParse` succeeds only with a value in the 32-bit range |
| Text.ParseInt32Decimal | CustomRulesetMetadataGenerator/VersionHelper.cs:47 | every decimal rendering of 0..Int32.MaxValue parses back to its value |
| Text.ToUpperAscii | CustomRulesetMetadataGenerator/SubCommands/GenerateSchemasCommand.cs:168 | lower-case ASCII letters map to the matching upper-case letter; other characters are unchanged |
| Dates.DaysInMonth | CustomRulesetMetadataGenerator/VersionHelper.cs:37-39 | every month has 28 to 31 days, as the exact date parse checks |
| Dates.CompareDates | CustomRulesetMetadataGenerator/VersionHelper.cs:26 | `DateTime.Compare` yields -1, 0 or 1, and 0 exactly for equal dates |
| Dates.CompareDatesMeansBefore | CustomRulesetMetadataGenerator/VersionHelper.cs:26 | a negative (positive) comparison means earlier (later) by year, then month, then day |
| Dates.CompareDatesAntisymmetric | CustomRulesetMetadataGenerator/VersionHelper.cs:26 | swapping the dates negates the comparison |
| Dates.CompareDatesTransitive | CustomRulesetMetadataGenerator/VersionHelper.cs:26 | "earlier" is transitive |
| MetadataVersionHelper.ParseCompactDate | CustomRulesetMetadataGenerator/VersionHelper.cs:37-39 | `yyyyMMdd` parses only eight ASCII digits forming a valid date |
| MetadataVersionHelper.ParseVersion | CustomRulesetMetadataGenerator/VersionHelper.cs:30-49 | a label parses exactly when it has at least two non-empty dot pieces, the first two form a valid date and a third piece is an Int32; the patch defaults to 0; every failure is a `FormatException` |
| MetadataVersionHelper.CompareKeys | CustomRulesetMetadataGenerator/VersionHelper.cs:26-27 | dates are compared first; patches decide only between equal dates |
| MetadataVersionHelper.CompareVersionDates | CustomRulesetMetadataGenerator/VersionHelper.cs:11-28 | an empty first label gives 0 against an empty second and -1 otherwise, and an empty second label after a non-empty first gives 1; for two non-empty labels the comparison succeeds exactly when both parse, and its value is then `CompareKeys` of the two parsed keys (date first, patch only on equal dates); a failure is always a `FormatException` |
| MetadataVersionHelper.CompareKeysAntisymmetric | CustomRulesetMetadataGenerator/VersionHelper.cs:26-27 | swapping keys negates the comparison |
| MetadataVersionHelper.CompareKeysTransitive | CustomRulesetMetadataGenerator/VersionHelper.cs:26-27 | "at most" is transitive on keys, and strictness carries over |
| MetadataVersionHelper.CompareAntisymmetric | CustomRulesetMetadataGenerator/VersionHelper.cs:11-28 | swapping labels keeps success and negates the result |
| MetadataVersionHelper.CompareReflexive | CustomRulesetMetadataGenerator/VersionHelper.cs:11-28 | a label compares with itself exactly when it is well formed, and then equals itself |
| MetadataVersionHelper.CompareTransitive | CustomRulesetMetadataGenerator/VersionHelper.cs:11-28 | label order is transitive, strictness included |
| MetadataVersionHelper.ParseRenderedCompactDate | CustomRulesetMetadataGenerator/VersionHelper.cs:37-39 | the zero-padded eight digits of a valid date parse back to it |
| MetadataVersionHelper.ParseRenderDate | CustomRulesetMetadataGenerator/VersionHelper.cs:30-49 | `YYYY.MMDD` parses to its date with patch 0 |
| MetadataVersionHelper.ParseRenderVersion | CustomRulesetMetadataGenerator/VersionHelper.cs:30-49 | `YYYY.MMDD.P` parses back to its date and patch |
| MetadataVersionHelper.CompareRendered | CustomRulesetMetadataGenerator/VersionHelper.cs:11-28 | on canonical labels the comparator is the (date, patch) order |
| MetadataVersionHelper.MissingPatchIsZero | CustomRulesetMetadataGenerator/VersionHelper.cs:41-45 | a two-piece label equals the same label with ".0" appended |
| MetadataVersionHelper.TailIgnored | CustomRulesetMetadataGenerator/VersionHelper.cs:41-48 | pieces after the third take no part in the comparison |
| MetadataVersionHelper.TooFewPieces | CustomRulesetMetadataGenerator/VersionHelper.cs:23-35 | a first label with fewer than two non-empty pieces raises "Invalid version format: " + label, whatever the non-empty second label is, because the first label is parsed first |
| MetadataVersionHelper.Examples | CustomRulesetMetadataGenerator/VersionHelper.cs:11-32 | worked comparisons, including the labels of the source comment |
| MetadataVersionHelper.DottedDateRejected | CustomRulesetMetadataGenerator/VersionHelper.cs:37-39 | `YYYY.MM.DD` is read as date "YYYYMM" plus patch, and raises "Failed to parse date: " + label |
| GeneratorVersionHelper.ParseExact | CustomRulesetGenerator/VersionHelper.cs:28-29 | an exact-format parse yields only valid dates |
| GeneratorVersionHelper.ParseAny | CustomRulesetGenerator/VersionHelper.cs:28-32 | the format list succeeds exactly when one of the formats does |
| GeneratorVersionHelper.ParseVersionDate | CustomRulesetGenerator/VersionHelper.cs:26-33 | a valid date, or `FormatException("Failed to parse version to date: " + label)` |
| GeneratorVersionHelper.CompareVersionDates | CustomRulesetGenerator/VersionHelper.cs:10-24 | an empty first label gives 0 against an empty second and -1 otherwise, and an empty second label after a non-empty first gives 1; for two non-empty labels the comparison succeeds exactly when both parse, and its value is then `CompareDates` of the two parsed dates; a failure is always a `FormatException` |
| GeneratorVersionHelper.PaddedIsUnpadded | CustomRulesetGenerator/VersionHelper.cs:28 | every `yyyy.MM.dd` label is also a `yyyy.M.d` label of the same date |
| GeneratorVersionHelper.ParseVersionDateIsUnpadded | CustomRulesetGenerator/VersionHelper.cs:26-33 | the two-format parse is the `yyyy.M.d` parse |
| GeneratorVersionHelper.CompareAntisymmetric | CustomRulesetGenerator/VersionHelper.cs:10-24 | swapping labels keeps success and negates the result |
| GeneratorVersionHelper.CompareReflexive | CustomRulesetGenerator/VersionHelper.cs:10-24 | a label compares with itself exactly when it is well formed, and then equals itself |
| GeneratorVersionHelper.CompareTransitive | CustomRulesetGenerator/VersionHelper.cs:10-24 | label order is transitive, strictness included |
| GeneratorVersionHelper.ParseRenderUnpadded | CustomRulesetGenerator/VersionHelper.cs:26-33 | `yyyy.M.d` renderings parse back to their date |
| GeneratorVersionHelper.ParseRenderPadded | CustomRulesetGenerator/VersionHelper.cs:26-33 | `yyyy.MM.dd` renderings parse back to their date |
| GeneratorVersionHelper.CompareRendered | CustomRulesetGenerator/VersionHelper.cs:10-24 | zero padding does not matter, and rendered labels compare as their dates |
| GeneratorVersionHelper.Examples | CustomRulesetGenerator/VersionHelper.cs:10-24 | worked comparisons of padded, unpadded and empty labels |
| GeneratorVersionHelper.CompactLabelRejected | CustomRulesetGenerator/VersionHelper.cs:26-33 | the metadata generator's `YYYY.MMDD` labels raise a `FormatException` here |
| Rulesets.OrderBy | CustomRulesetMetadataGenerator/SubCommands/GenerateModsCommand.cs:38 | `OrderBy` is a permutation of its input |
| Rulesets.OrderBySorted | CustomRulesetMetadataGenerator/SubCommands/GenerateModsCommand.cs:38 | `OrderBy` sorts by the key |
| Rulesets.OrderByStable | CustomRulesetMetadataGenerator/SubCommands/GenerateModsCommand.cs:38 | elements with equal keys keep their relative order |
| Rulesets.Distinct | CustomRulesetMetadataGenerator/SubCommands/GenerateSchemasCommand.cs:45 | `Distinct` keeps exactly the input's elements, each once |
| Rulesets.DistinctOfDistinct | CustomRulesetMetadataGenerator/SubCommands/GenerateSchemasCommand.cs:45 | a sequence without repeats passes through unchanged, order included |
| Rulesets.DistinctSnoc | CustomRulesetMetadataGenerator/SubCommands/GenerateSchemasCommand.cs:45 | one more input element is appended to the result exactly when it is new, so the result follows the order of first occurrences |
| VersionCommand.LowerHex | CustomRulesetMetadataGenerator/SubCommands/GenerateVersionCommand.cs:100 | the reference rendering: two characters per byte |
| VersionCommand.ByteRendering | CustomRulesetMetadataGenerator/SubCommands/GenerateVersionCommand.cs:100 | a byte's upper-case pair has no dash and lower-cases to the lower-case pair |
| VersionCommand.Md5HexIsLowerHex | CustomRulesetMetadataGenerator/SubCommands/GenerateVersionCommand.cs:100 | `BitConverter.ToString` with dashes removed and lower-cased is plain lower-case hex |
| VersionCommand.LowerHexRoundTrip | CustomRulesetMetadataGenerator/SubCommands/GenerateVersionCommand.cs:100 | lower-case hex reads back to the bytes |
| VersionCommand.ParseLowerHexRoundTrip | CustomRulesetMetadataGenerator/SubCommands/GenerateVersionCommand.cs:95-101 | the hash string is 2n lower-case hex digits and determines the digest |
| VersionCommand.Merge | CustomRulesetMetadataGenerator/SubCommands/GenerateVersionCommand.cs:85-93 | the hash is stored under the label and other labels are kept; the latest moves to the label exactly when it orders strictly after; a comparator `FormatException` fails the update |
| VersionCommand.MergeIdempotent | CustomRulesetMetadataGenerator/SubCommands/GenerateVersionCommand.cs:85-93 | merging the same well-formed label and hash again changes nothing |
| VersionCommand.FreshEntryTakesAnyLabel | CustomRulesetMetadataGenerator/SubCommands/GenerateVersionCommand.cs:85-93 | a fresh entry takes any non-empty label as latest; a malformed one makes the next merge fail |
| VersionCommand.MergeConsistent | CustomRulesetMetadataGenerator/SubCommands/GenerateVersionCommand.cs:85-93 | a well-formed merge keeps the latest label the greatest label of the entry |
| VersionCommand.MergeRunKeepsOthers | CustomRulesetMetadataGenerator/SubCommands/GenerateVersionCommand.cs:60-70 | the manifest gains one entry per ruleset name; entries of other names are untouched |
| VersionCommand.MergeRunPerName | CustomRulesetMetadataGenerator/SubCommands/GenerateVersionCommand.cs:60-70 | with distinct names, each entry is its prior value (or a new entry) merged once, and the run fails exactly when one merge fails |
| VersionCommand.RunSucceedsPerName | CustomRulesetMetadataGenerator/SubCommands/GenerateVersionCommand.cs:60-70 | with distinct names, the run succeeds exactly when each merge from the prior entry succeeds |
| VersionCommand.RunValuesPerName | CustomRulesetMetadataGenerator/SubCommands/GenerateVersionCommand.cs:60-70 | with distinct names, a successful run holds each name's merge from its prior entry |
| VersionCommand.TailUnaffected | CustomRulesetMetadataGenerator/SubCommands/GenerateVersionCommand.cs:60-70 | with distinct names, merging the first ruleset does not change what the rest of the run starts from |
| VersionCommand.MergeRunFixed | CustomRulesetMetadataGenerator/SubCommands/GenerateVersionCommand.cs:60-70 | a manifest that every single merge leaves alone is a fixed point of the run |
| VersionCommand.MergeRunIdempotent | CustomRulesetMetadataGenerator/SubCommands/GenerateVersionCommand.cs:60-70 | running the command twice with the same well-formed label and assemblies gives the manifest of one run |
| VersionCommand.MergeRunConsistent | CustomRulesetMetadataGenerator/SubCommands/GenerateVersionCommand.cs:60-70 | a well-formed run keeps every entry's latest label its greatest |
| VersionCommand.VersionEntry.constructor | CustomRulesetMetadataGenerator/SubCommands/GenerateVersionCommand.cs:24-29 | a new entry has latest "" and no versions |
| VersionCommand.UpdateVersionEntry | CustomRulesetMetadataGenerator/SubCommands/GenerateVersionCommand.cs:85-93 | writes the hash first, then moves the latest as `Merge` does; on a comparator failure the hash is already written |
| VersionCommand.MergeOne | CustomRulesetMetadataGenerator/SubCommands/GenerateVersionCommand.cs:62-69 | finds or creates the ruleset's entry object and updates it; the manifest's value is one `Merge` step, and no two names share an object |
| VersionCommand.FindOrAdd | CustomRulesetMetadataGenerator/SubCommands/GenerateVersionCommand.cs:62-67 | finds the ruleset's entry object, or creates and stores a new one; no two names share an object afterwards |
| VersionCommand.UpdateNamed | CustomRulesetMetadataGenerator/SubCommands/GenerateVersionCommand.cs:69 | updates the named entry object as `Merge` does and leaves every other entry alone |
| VersionCommand.MergeNext | CustomRulesetMetadataGenerator/SubCommands/GenerateVersionCommand.cs:60-70 | one turn of the loop: a failure is the failure of the remaining run; a pass leaves the rest of the run to do |
| VersionCommand.MergeVersions | CustomRulesetMetadataGenerator/SubCommands/GenerateVersionCommand.cs:60-70 | the loop's resulting manifest is `MergeRun` of the prior one |
| VersionCommand.Execute | CustomRulesetMetadataGenerator/SubCommands/GenerateVersionCommand.cs:46-70 | merges the rulesets in `OnlineID` order into the loaded manifest, or into an empty one without a current file |
| VersionCommand.DistinctNamesPermuted | CustomRulesetMetadataGenerator/SubCommands/GenerateVersionCommand.cs:45 | reordering a run keeps its short names distinct |
| VersionCommand.RegistryRunDistinct | CustomRulesetMetadataGenerator/SubCommands/GenerateVersionCommand.cs:37-45 | the command's registry, built without the officials and ordered by `OnlineID`, gives a run with pairwise distinct short names |
| RulesetManagement.LoadOfficials | CustomRulesetGenerator/RulesetManager.cs:46-55 | after the four officials, "fruits" is present for the alias to copy |
| RulesetManagement.AddExistingName | CustomRulesetGenerator/RulesetManager.cs:29-33 | a name already present changes neither dictionary |
| RulesetManagement.AddNonLegacy | CustomRulesetGenerator/RulesetManager.cs:35-38 | a ruleset without a legacy ID is added by name only, at the end of the order |
| RulesetManagement.AddIdCollision | CustomRulesetGenerator/RulesetManager.cs:40-43 | a taken legacy ID keeps its first ruleset; the new one is still registered by name |
| RulesetManagement.AddFresh | CustomRulesetGenerator/RulesetManager.cs:27-44 | a new name with a new legacy ID is registered in both dictionaries |
| RulesetManagement.AddValid | CustomRulesetGenerator/RulesetManager.cs:27-44 | registration keeps the invariant: ID entries carry their ID and are reachable by name, and names are unique |
| RulesetManagement.AddAllValid | CustomRulesetGenerator/RulesetManager.cs:48-52 | registering a sequence keeps the invariant |
| RulesetManagement.AddAllKeeps | CustomRulesetGenerator/RulesetManager.cs:27-44 | registration never changes or removes an existing entry, and only appends to the order |
| RulesetManagement.AddAllHasNames | CustomRulesetGenerator/RulesetManager.cs:48-52 | every registered name is present afterwards |
| RulesetManagement.IdMapInNameMap | CustomRulesetGenerator/RulesetManager.cs:27-44 | every ruleset reachable by ID is reachable by name |
| RulesetManagement.LoadOfficialsValid | CustomRulesetGenerator/RulesetManager.cs:46-55 | the catch alias keeps the invariant |
| RulesetManagement.AliasValid | CustomRulesetGenerator/RulesetManager.cs:55 | adding "catch" as a new key aliasing "fruits" keeps the invariant |
| RulesetManagement.AddAllOfficialsFromEmpty | CustomRulesetGenerator/RulesetManager.cs:48-52 | the four officials fill both dictionaries, in order |
| RulesetManagement.OfficialRegistryValid | CustomRulesetGenerator/RulesetManager.cs:46-55 | the official registry satisfies the invariant |
| RulesetManagement.OfficialsFromEmpty | CustomRulesetGenerator/RulesetManager.cs:46-55 | a new manager holds osu, taiko, fruits, mania, catch, with "catch" the fruits ruleset |
| RulesetManagement.OfficialNamesRejected | CustomRulesetGenerator/RulesetManager.cs:29-33 | a plugin reusing an official name or "catch" is not registered |
| RulesetManagement.Candidates | CustomRulesetGenerator/RulesetManager.cs:64-77 | the rulesets come from files whose path lacks "Tests" and that loaded, in file order |
| RulesetManagement.LoadFilesIsAddAll | CustomRulesetGenerator/RulesetManager.cs:57-88 | loading from disk registers the candidates in file order; failed files are skipped |
| RulesetManagement.ConstructKeepsOfficials | CustomRulesetGenerator/RulesetManager.cs:20-25 | with officials, plugins never displace an official name, ID or the alias |
| RulesetManagement.ConstructAlias | CustomRulesetGenerator/RulesetManager.cs:20-25 | with officials, "fruits" and "catch" both name the official fruits ruleset after construction |
| RulesetManagement.ConstructWithOfficials | CustomRulesetGenerator/RulesetManager.cs:20-25 | with officials, construction is loading from disk into the official registry |
| RulesetManagement.OfficialEntries | CustomRulesetGenerator/RulesetManager.cs:46-55 | the official registry maps each official name and legacy ID to its ruleset, and "catch" to fruits |
| RulesetManagement.LoadDiskKeeps | CustomRulesetGenerator/RulesetManager.cs:57-88 | loading from disk keeps the invariant and every existing entry of either map |
| RulesetManagement.MissingDirectory | CustomRulesetGenerator/RulesetManager.cs:59-62 | without officials, a missing directory leaves the registry empty |
| RulesetManagement.RulesetManager.constructor | CustomRulesetGenerator/RulesetManager.cs:20-25 | officials first when asked, then disk; the result is valid |
| RulesetManagement.RulesetManager.AddRuleset | CustomRulesetGenerator/RulesetManager.cs:27-44 | the dictionaries become `Add` of their prior contents |
| RulesetManagement.RulesetManager.LoadOfficialRulesets | CustomRulesetGenerator/RulesetManager.cs:46-55 | the dictionaries become `LoadOfficials` of their prior contents |
| RulesetManagement.RulesetManager.LoadFromDisk | CustomRulesetGenerator/RulesetManager.cs:57-88 | the dictionaries become `LoadDisk` of their prior contents |
| RulesetManagement.RulesetManager.GetRuleset | CustomRulesetGenerator/RulesetManager.cs:90-95 | the ruleset under a legacy ID, else `ArgumentException("Invalid ruleset ID provided.")` |
| RulesetManagement.RulesetManager.GetRulesetByName | CustomRulesetGenerator/RulesetManager.cs:97-102 | the ruleset under a name, else `ArgumentException("Invalid ruleset name provided.")` |
| RulesetManagement.RulesetManager.GetAllRulesets | CustomRulesetGenerator/RulesetManager.cs:104-107 | the name dictionary's values, one per key, in key order |
| RulesetManagement.GetRulesetConsistent | CustomRulesetGenerator/RulesetManager.cs:90-102 | a lookup by ID finds a ruleset with that ID, and looking up its name finds it again |
| RulesetManagement.CatchListedTwice | CustomRulesetGenerator/RulesetManager.cs:104-107 | with officials, "catch" and "fruits" find the same ruleset, which `GetAllRulesets` lists twice |
| RulesetManagement.AliasListedTwice | CustomRulesetGenerator/RulesetManager.cs:104-107 | in a valid registry holding both "fruits" and "catch", the key order lists them at two distinct places |
| RulesetManagement.AddAllOwnNames | CustomRulesetGenerator/RulesetManager.cs:27-44 | registration keys every new ruleset by its own short name |
| RulesetManagement.ConstructWithoutOfficials | CustomRulesetGenerator/RulesetManager.cs:20-25 | without the officials the registry is valid and has no alias: every entry is keyed by its ruleset's short name |
| RulesetManagement.PluginNamesDistinct | CustomRulesetGenerator/RulesetManager.cs:20-44 | without the officials, `GetAllRulesets` lists rulesets with pairwise distinct short names |
| ModsCommand.GetJsonType | CustomRulesetMetadataGenerator/SubCommands/GenerateModsCommand.cs:114-138 | "number" exactly for the numeric types, "boolean" for the boolean ones, "string" for string and enums; otherwise `ArgumentOutOfRangeException("netType")` |
| ModsCommand.SettingType | CustomRulesetMetadataGenerator/SubCommands/GenerateModsCommand.cs:99-101 | the current value's type, else the bindable's type argument |
| ModsCommand.GetSettingsDefinitions | CustomRulesetMetadataGenerator/SubCommands/GenerateModsCommand.cs:88-111 | one record per setting, in order, with snake-case name, JSON type, label and description; fails exactly when a setting's type is unsupported |
| ModsCommand.GetAllImplementations | CustomRulesetMetadataGenerator/SubCommands/GenerateModsCommand.cs:79-86 | the acronyms of exactly the ruleset's mods that are instances of an incompatible type |
| ModsCommand.GetAllImplementationsAppend | CustomRulesetMetadataGenerator/SubCommands/GenerateModsCommand.cs:79-86 | the scan keeps the mods' order |
| ModsCommand.IncompatibleWithItself | CustomRulesetMetadataGenerator/SubCommands/GenerateModsCommand.cs:81-84 | a mod that is an instance of its own incompatible type lists itself |
| ModsCommand.NoIncompatibleTypes | CustomRulesetMetadataGenerator/SubCommands/GenerateModsCommand.cs:83 | no incompatible types, no incompatible mods |
| ModsCommand.ModRecord | CustomRulesetMetadataGenerator/SubCommands/GenerateModsCommand.cs:63-77 | a mod's record copies its fields and flags, its settings are the setting definitions of its properties, and its incompatible mods are the acronyms of the matching mods |
| ModsCommand.ModRecords | CustomRulesetMetadataGenerator/SubCommands/GenerateModsCommand.cs:63-77 | one record per mod, in order; fails exactly when a record fails |
| ModsCommand.GetDefinitionsForRuleset | CustomRulesetMetadataGenerator/SubCommands/GenerateModsCommand.cs:58-77 | one record per mod the ruleset creates, resolved against all of them |
| ModsCommand.Entries | CustomRulesetMetadataGenerator/SubCommands/GenerateModsCommand.cs:39-45 | one entry per ruleset with its short name, online ID and mods; the dump fails exactly when some ruleset's mod definitions fail |
| ModsCommand.ExecuteOrdered | CustomRulesetMetadataGenerator/SubCommands/GenerateModsCommand.cs:38 | the dump has one entry per listed ruleset (the aliased fruits ruleset twice when the officials are included), in ascending ID, and equal IDs keep registry order |
| AttributeTypeScan.LastOfKind | CustomRulesetMetadataGenerator/SubCommands/GenerateSchemasCommand.cs:171-185 | the last type classified in the family, or none when there is none |
| AttributeTypeScan.GetAttributeTypesForRuleset | CustomRulesetMetadataGenerator/SubCommands/GenerateSchemasCommand.cs:171-185 | the loop yields the last performance subclass, the last other difficulty subclass and the short name |
| AttributeTypeScan.LastSubclassWins | CustomRulesetMetadataGenerator/SubCommands/GenerateSchemasCommand.cs:178-181 | a trailing performance subclass is the pick and does not count as a difficulty subclass |
| AttributeTypeScan.Triples | CustomRulesetMetadataGenerator/SubCommands/GenerateSchemasCommand.cs:45 | one triple per ruleset, in order |
| AttributeTypeScan.SelectAttributeTypes | CustomRulesetMetadataGenerator/SubCommands/GenerateSchemasCommand.cs:45 | the `Select` loop yields `Triples` |
| AttributeTypeScan.AliasContributesOnce | CustomRulesetMetadataGenerator/SubCommands/GenerateSchemasCommand.cs:45 | a ruleset listed twice (the catch alias) yields the same triple at both places, and `Distinct` keeps that triple at exactly one position |
| AttributeTypeScan.Capitalize | CustomRulesetMetadataGenerator/SubCommands/GenerateSchemasCommand.cs:163-169 | "" stays ""; otherwise the first character is upper-cased and the rest kept |
| AttributeTypeScan.CapitalizeIdempotent | CustomRulesetMetadataGenerator/SubCommands/GenerateSchemasCommand.cs:163-169 | capitalizing twice is capitalizing once, and only the first character changes |
| AttributeTypeScan.EmptyNameTakesBaseTitle | CustomRulesetMetadataGenerator/SubCommands/GenerateSchemasCommand.cs:98 | the default title of the empty name is the base class name |
| AttributeTypeScan.DefaultTitlesCollide | CustomRulesetGenerator/SubCommands/GenerateSchemasCommand.cs:57 | two default titles are equal exactly when the capitalized names are |
| AttributeTypeScan.PerKind | CustomRulesetMetadataGenerator/SubCommands/GenerateSchemasCommand.cs:67-76 | two entries per triple, performance then difficulty |
| AttributeTypeScan.PerKindAt | CustomRulesetMetadataGenerator/SubCommands/GenerateSchemasCommand.cs:67-76 | the i-th triple's performance entry sits at 2i and its difficulty entry at 2i + 1 |
| JsonSchemas.AllRequired | CustomRulesetMetadataGenerator/SubCommands/GenerateSchemasCommand.cs:50-53 | same property names, every one required |
| JsonSchemas.AllRequiredIdempotent | CustomRulesetMetadataGenerator/SubCommands/GenerateSchemasCommand.cs:50-53 | marking is idempotent and depends only on the names |
| JsonSchemas.AddDefinitions | CustomRulesetMetadataGenerator/SubCommands/GenerateSchemasCommand.cs:67-76 | succeeds exactly when the keys are new and pairwise distinct, then holds the old and the new entries; otherwise the duplicate-key `ArgumentException` |
| JsonSchemas.AddedAfterFirst | CustomRulesetMetadataGenerator/SubCommands/GenerateSchemasCommand.cs:67-76 | adding the first entry and then the rest has the properties of adding the whole sequence: same success condition, keys, kept and new entries, and duplicate-key failure |
| JsonSchemas.RepeatedKeyThrows | CustomRulesetGenerator/SubCommands/GenerateSchemasCommand.cs:63 | a repeated key makes the additions throw `ArgumentException` |
| JsonSchemas.AddDefinitionsAppend | CustomRulesetMetadataGenerator/SubCommands/GenerateSchemasCommand.cs:67-76 | adding in two parts is adding in one |
| JsonSchemas.JsonSchema.constructor | CustomRulesetGenerator/SubCommands/GenerateSchemasCommand.cs:41 | the root schema: its title, object type, additional properties and items allowed, nothing else |
| JsonSchemas.JsonSchema.Generated | CustomRulesetGenerator/SubCommands/GenerateSchemasCommand.cs:60 | a new schema object holding the generator's schema |
| JsonSchemas.JsonSchema.MarkAllRequired | CustomRulesetMetadataGenerator/SubCommands/GenerateSchemasCommand.cs:50-53 | the loop marks every property required and changes nothing else |
| JsonSchemas.JsonSchema.AddDefinition | CustomRulesetGenerator/SubCommands/GenerateSchemasCommand.cs:63 | adds the definition, or throws when the key exists |
| MetadataSchemasCommand.AttributesSchemaShape | CustomRulesetMetadataGenerator/SubCommands/GenerateSchemasCommand.cs:92-161 | thin schema: default title, no properties, generated `allOf` plus the base reference; specialised: class name, no definitions, references redirected, own segments open and fully required, additional items only for difficulty |
| MetadataSchemasCommand.AttributesSchemaTitle | CustomRulesetMetadataGenerator/SubCommands/GenerateSchemasCommand.cs:71 | a definition is keyed by the triple's title |
| MetadataSchemasCommand.GenerateAttributesSchema | CustomRulesetMetadataGenerator/SubCommands/GenerateSchemasCommand.cs:92-125 | the imperative generator, with its `allOf` loop, builds a new schema object equal to `AttributesSchema` |
| MetadataSchemasCommand.RedirectReferences | CustomRulesetMetadataGenerator/SubCommands/GenerateSchemasCommand.cs:107-120 | the `allOf` loop replaces each item by its redirected form and changes nothing else |
| MetadataSchemasCommand.AllTripleDefinitionsAt | CustomRulesetMetadataGenerator/SubCommands/GenerateSchemasCommand.cs:67-76 | the i-th triple's performance and difficulty definitions sit at 2i and 2i + 1 |
| MetadataSchemasCommand.AllTripleDefinitionsKeys | CustomRulesetMetadataGenerator/SubCommands/GenerateSchemasCommand.cs:67-76 | the keys at 2i and 2i + 1 are the i-th triple's performance and difficulty titles |
| MetadataSchemasCommand.AllTripleDefinitionsCons | CustomRulesetMetadataGenerator/SubCommands/GenerateSchemasCommand.cs:67-76 | the definitions of a list of triples are the first triple's two followed by the rest's |
| MetadataSchemasCommand.AddBaseSchema | CustomRulesetMetadataGenerator/SubCommands/GenerateSchemasCommand.cs:47-55 | registers the base schema under the class name, fully required |
| MetadataSchemasCommand.AddBaseSchemas | CustomRulesetMetadataGenerator/SubCommands/GenerateSchemasCommand.cs:47-65 | both base schemas are the first definitions |
| MetadataSchemasCommand.AddTriple | CustomRulesetMetadataGenerator/SubCommands/GenerateSchemasCommand.cs:69-75 | the loop body adds the triple's two definitions, or fails on a duplicate |
| MetadataSchemasCommand.AddNextTriple | CustomRulesetMetadataGenerator/SubCommands/GenerateSchemasCommand.cs:67-76 | one turn of the definition loop: a failure is the failure of the remaining additions; a pass leaves the rest to add |
| MetadataSchemasCommand.AddAllTriples | CustomRulesetMetadataGenerator/SubCommands/GenerateSchemasCommand.cs:67-76 | the loop adds all triples' definitions, stopping at the first duplicate |
| MetadataSchemasCommand.Execute | CustomRulesetMetadataGenerator/SubCommands/GenerateSchemasCommand.cs:37-78 | the root schema holds the base and triple definitions, or the command throws the first duplicate |
| MetadataSchemasCommand.AfterBase | CustomRulesetMetadataGenerator/SubCommands/GenerateSchemasCommand.cs:47-76 | after the bases, success means distinct keys; then the bases sit under their class names |
| MetadataSchemasCommand.RootDefinitionsContents | CustomRulesetMetadataGenerator/SubCommands/GenerateSchemasCommand.cs:47-76 | succeeds exactly when all titles differ; keys are the two base names plus the triple titles, and the bases are fully required |
| MetadataSchemasCommand.RootDefinitionsTriples | CustomRulesetMetadataGenerator/SubCommands/GenerateSchemasCommand.cs:67-76 | for either family, each distinct triple's schema is present under its title |
| MetadataSchemasCommand.TripleRegistered | CustomRulesetMetadataGenerator/SubCommands/GenerateSchemasCommand.cs:47-76 | after the bases, any list of triples' schemas is present under their titles when the additions succeed |
| MetadataSchemasCommand.EmptyRulesetNameThrows | CustomRulesetMetadataGenerator/SubCommands/GenerateSchemasCommand.cs:98 | an empty ruleset name without a performance class collides with the base schema |
| MetadataSchemasCommand.EmptyNameClashesWithBase | CustomRulesetMetadataGenerator/SubCommands/GenerateSchemasCommand.cs:47-76 | in any list of triples, one with an empty name and no performance class makes the additions fail |
| GeneratorSchemasCommand.GeneratedDefinition | CustomRulesetGenerator/SubCommands/GenerateSchemasCommand.cs:47-79 | a definition titled with its key, additional properties allowed, generated from the specialised class or the base |
| GeneratorSchemasCommand.AllDefinitionsAt | CustomRulesetGenerator/SubCommands/GenerateSchemasCommand.cs:45-80 | the i-th triple's performance and difficulty definitions sit at 2i and 2i + 1 |
| GeneratorSchemasCommand.AddGenerated | CustomRulesetGenerator/SubCommands/GenerateSchemasCommand.cs:47-63 | picks type and name, generates, retitles and adds one definition |
| GeneratorSchemasCommand.AddTriple | CustomRulesetGenerator/SubCommands/GenerateSchemasCommand.cs:45-80 | the loop body adds a triple's two definitions, or fails on a duplicate |
| GeneratorSchemasCommand.AddAllDefinitions | CustomRulesetGenerator/SubCommands/GenerateSchemasCommand.cs:45-80 | the loop adds all definitions, stopping at the first duplicate |
| GeneratorSchemasCommand.Execute | CustomRulesetGenerator/SubCommands/GenerateSchemasCommand.cs:37-80 | the object-typed root holds the definitions of the distinct triples, in unsorted ruleset order, or the command throws |
| GeneratorSchemasCommand.RootDefinitionsContents | CustomRulesetGenerator/SubCommands/GenerateSchemasCommand.cs:45-80 | succeeds exactly when the names of all definitions differ; then each definition is titled with its key and allows additional properties |
| GeneratorSchemasCommand.DefinitionsTitled | CustomRulesetGenerator/SubCommands/GenerateSchemasCommand.cs:45-80 | the same for the definitions of any list of triples |
| GeneratorSchemasCommand.RootDefinitionsTriples | CustomRulesetGenerator/SubCommands/GenerateSchemasCommand.cs:45-80 | on success, each distinct triple's two generated schemas are present under their names |
| GeneratorSchemasCommand.DefinitionsRegistered | CustomRulesetGenerator/SubCommands/GenerateSchemasCommand.cs:45-80 | the same for the definitions of any list of triples |
| GeneratorSchemasCommand.DefaultNameClashThrows | CustomRulesetGenerator/SubCommands/GenerateSchemasCommand.cs:57 | two names differing only in the first letter's case, without performance classes, make the command throw |
| GeneratorSchemasCommand.SharedClassThrows | CustomRulesetGenerator/SubCommands/GenerateSchemasCommand.cs:49-63 | two triples sharing a performance class make the command throw |
| GeneratorSchemasCommand.SameNamesAsMetadataCommand | CustomRulesetGenerator/SubCommands/GenerateSchemasCommand.cs:49-74 | both commands name a list of triples' definitions alike |

## Left out

- File and console I/O (`File.ReadAllText` / `WriteAllText`, `Console`) and JSON (de)serialization (`JsonConvert`, `ToJson`): each command's model ends with the value it would serialise.
- `Directory.Exists` / `GetFiles` with the `osu.Game.Rulesets.*.dll` pattern: the directory listing is an input (`None` for a missing directory).
- Assembly loading and reflection (`Assembly.LoadFrom`, `GetTypes`, `Activator.CreateInstance`, `IsSubclassOf`, `IsInstanceOfType`, `GetSettingsSourceProperties`, bindable unwrapping): these are parameters describing each assembly's types, the loader's result, the mods and the instance test.
- The MD5 digest (section 3 of RFC 1321) and stream hashing: the digest bytes are an input; only their rendering is modelled.
- NJsonSchema's `generator.Generate`: it is the parameter `generate`. A `JsonSchemaProperty` is reduced to its required flag.
- Dictionary enumeration order of `Definitions` and of the version manifest: both are maps, so the order of the emitted JSON objects is not modelled.
- Object sharing: `allOf` items and registered definitions are values, and the base reference is a key (`ToDefinition`). This is sound because no schema is changed after it is added.
- Culture-sensitive `char.ToUpper` / `ToLowerInvariant`: ASCII only.
- .NET `DateTime` parsing: only ASCII digits and the proleptic Gregorian calendar are modelled.
- `Int32.TryParse`: trailing NUL characters, which .NET accepts, are not modelled, and the sign symbols are the invariant culture's '+' and '-' rather than those of the current culture's number format.
- JsonSchemas.DuplicateKey: the message text is that of .NET's `Dictionary.Add`; NJsonSchema's own `Definitions` dictionary is not part of this model, so the exact message is an assumption (the exception type, `ArgumentException`, is what the lemmas rely on).
- `null` strings, and the `Debug.Assert` on a null bindable: strings are never null.
- `ToSnakeCase` and `LocalisableString.ToString`: `ToSnakeCase` is a parameter, and labels and descriptions are plain strings.
- The osu.Game ruleset classes: the official rulesets are taken as osu/0, taiko/1, fruits/2 and mania/3, each with legacy ID equal to online ID.
- Diagnostics written to `Console.Error` by `AddRuleset` and `LoadFromDisk` are left out. The exception a failing file raises is `LoadFailed`.
- Each command's construction of a `RulesetManager` inside a try/catch (exit code 1) is left out. The commands take the loaded rulesets as input, and for the version command, the rulesets with their digests.
- Program.cs (verb dispatch) and JsonPropertyContractResolver.cs (a Newtonsoft override) are not part of this model.
- LINQ's lazy evaluation: each sequence is enumerated once, so it is modelled as a computed sequence.
- VersionCommand.MergeIdempotent: requires a well-formed label, because a fresh entry stores a malformed label unparsed and the next merge then fails (`FreshEntryTakesAnyLabel`).
- VersionCommand.MergeRunIdempotent: requires a well-formed label and distinct ruleset names, for the same reason; distinct names hold for the command's own registry (`VersionCommand.RegistryRunDistinct`).
- VersionCommand.Execute: requires the loaded manifest's entries to be distinct objects, as deserialization produces them.
- RulesetManagement.RulesetManager.GetAllRulesets: requires every listed name to be a key, which `Valid` guarantees for every constructed manager.
