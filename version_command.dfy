/** The `ruleset-version` command: for every ruleset loaded from disk it records the MD5 of the
    ruleset's assembly under the new version label, and moves the entry's latest-version
    label forward when the new label orders after it. Entries are objects updated in place;
    `Entry` is their value and `Merge` / `MergeRun` specify the updates. */
module VersionCommand {
  import opened Wrappers
  import opened Rulesets
  import MV = MetadataVersionHelper
  import RM = RulesetManagement

  newtype Byte = b: int | 0 <= b < 256

  // ---------------------------------------------------------------------------------------
  // Hex rendering of the digest

  function UpperHexDigit(n: int): (c: char)
    requires 0 <= n < 16
    ensures c != '-'
    ensures n < 10 ==> c == LowerHexDigit(n) && !('A' <= c <= 'Z')
    ensures n >= 10 ==> 'A' <= c <= 'Z' && (c as int - 'A' as int + 'a' as int) as char == LowerHexDigit(n)
  {
    if n < 10 then ('0' as int + n) as char else ('A' as int + n - 10) as char
  }

  function LowerHexDigit(n: int): (c: char)
    requires 0 <= n < 16
  {
    if n < 10 then ('0' as int + n) as char else ('a' as int + n - 10) as char
  }

  /** `BitConverter.ToString(bytes)`: two upper-case hex digits per byte, joined by '-'. */
  function BitConverterToString(bytes: seq<Byte>): string
  {
    if bytes == [] then ""
    else
      var pair := [UpperHexDigit(bytes[0] as int / 16), UpperHexDigit(bytes[0] as int % 16)];
      if |bytes| == 1 then pair else pair + "-" + BitConverterToString(bytes[1..])
  }

  /** `s.Replace("-", "")`. */
  function RemoveDashes(s: string): string
  {
    if s == [] then "" else (if s[0] == '-' then "" else [s[0]]) + RemoveDashes(s[1..])
  }

  /** `s.ToLowerInvariant()` on ASCII letters. */
  function ToLowerInvariant(s: string): (r: string)
    ensures |r| == |s|
  {
    if s == [] then ""
    else
      var c := if 'A' <= s[0] <= 'Z' then (s[0] as int - 'A' as int + 'a' as int) as char else s[0];
      [c] + ToLowerInvariant(s[1..])
  }

  /** The hash string of `GetFileMd5`, from the digest bytes. */
  function Md5Hex(digest: seq<Byte>): string
  {
    ToLowerInvariant(RemoveDashes(BitConverterToString(digest)))
  }

  /** Plain lower-case hex, two characters per byte, most significant nibble first. */
  function LowerHex(bytes: seq<Byte>): (s: string)
    ensures |s| == 2 * |bytes|
  {
    if bytes == [] then ""
    else [LowerHexDigit(bytes[0] as int / 16), LowerHexDigit(bytes[0] as int % 16)] + LowerHex(bytes[1..])
  }

  predicate IsLowerHexDigit(c: char) { '0' <= c <= '9' || 'a' <= c <= 'f' }

  function LowerHexValue(c: char): (n: int)
    requires IsLowerHexDigit(c)
    ensures 0 <= n < 16
  {
    if c <= '9' then c as int - '0' as int else c as int - 'a' as int + 10
  }

  /** Reads lower-case hex back into bytes. */
  function ParseLowerHex(s: string): seq<Byte>
    requires |s| % 2 == 0 && forall i :: 0 <= i < |s| ==> IsLowerHexDigit(s[i])
  {
    if s == [] then []
    else [(LowerHexValue(s[0]) * 16 + LowerHexValue(s[1])) as Byte] + ParseLowerHex(s[2..])
  }

  lemma {:induction false} RemoveDashesAppend(a: string, b: string)
    ensures RemoveDashes(a + b) == RemoveDashes(a) + RemoveDashes(b)
  {
    if a == [] {
      assert a + b == b;
    } else {
      assert (a + b)[1..] == a[1..] + b;
      RemoveDashesAppend(a[1..], b);
    }
  }

  lemma {:induction false} ToLowerAppend(a: string, b: string)
    ensures ToLowerInvariant(a + b) == ToLowerInvariant(a) + ToLowerInvariant(b)
  {
    if a == [] {
      assert a + b == b;
    } else {
      assert (a + b)[1..] == a[1..] + b;
      ToLowerAppend(a[1..], b);
    }
  }

  /** One byte's pair of upper-case digits has no dash and lower-cases to the lower-case pair. */
  lemma ByteRendering(b: int)
    requires 0 <= b < 256
    ensures RemoveDashes([UpperHexDigit(b / 16), UpperHexDigit(b % 16)]) == [UpperHexDigit(b / 16), UpperHexDigit(b % 16)]
    ensures ToLowerInvariant([UpperHexDigit(b / 16), UpperHexDigit(b % 16)]) == [LowerHexDigit(b / 16), LowerHexDigit(b % 16)]
  {
    var hi, lo := UpperHexDigit(b / 16), UpperHexDigit(b % 16);
    assert [hi, lo] == [hi] + [lo];
    RemoveDashesAppend([hi], [lo]);
    ToLowerAppend([hi], [lo]);
  }

  /** Removing the dashes and lower-casing leaves exactly two lower-case hex digits per byte. */
  lemma {:induction false} Md5HexIsLowerHex(digest: seq<Byte>)
    ensures Md5Hex(digest) == LowerHex(digest)
  {
    if digest != [] {
      var b := digest[0] as int;
      var pair := [UpperHexDigit(b / 16), UpperHexDigit(b % 16)];
      ByteRendering(b);
      if |digest| == 1 {
        assert digest[1..] == [];
        assert BitConverterToString(digest) == pair;
      } else {
        var rest := BitConverterToString(digest[1..]);
        assert BitConverterToString(digest) == pair + ("-" + rest);
        RemoveDashesAppend(pair, "-" + rest);
        RemoveDashesAppend("-", rest);
        assert RemoveDashes("-") == "";
        assert RemoveDashes(BitConverterToString(digest)) == pair + RemoveDashes(rest);
        ToLowerAppend(pair, RemoveDashes(rest));
        Md5HexIsLowerHex(digest[1..]);
      }
    }
  }

  lemma {:induction false} LowerHexDigits(bytes: seq<Byte>)
    ensures forall i :: 0 <= i < |LowerHex(bytes)| ==> IsLowerHexDigit(LowerHex(bytes)[i])
  {
    if bytes != [] {
      LowerHexDigits(bytes[1..]);
    }
  }

  /** The hash string determines the digest: reading it back gives the bytes. */
  lemma {:induction false} ParseLowerHexRoundTrip(digest: seq<Byte>)
    ensures |Md5Hex(digest)| == 2 * |digest|
    ensures forall i :: 0 <= i < |Md5Hex(digest)| ==> IsLowerHexDigit(Md5Hex(digest)[i])
    ensures ParseLowerHex(Md5Hex(digest)) == digest
  {
    Md5HexIsLowerHex(digest);
    LowerHexRoundTrip(digest);
  }

  lemma {:induction false} LowerHexRoundTrip(bytes: seq<Byte>)
    ensures forall i :: 0 <= i < |LowerHex(bytes)| ==> IsLowerHexDigit(LowerHex(bytes)[i])
    ensures ParseLowerHex(LowerHex(bytes)) == bytes
  {
    LowerHexDigits(bytes);
    if bytes != [] {
      LowerHexRoundTrip(bytes[1..]);
      assert LowerHex(bytes)[2..] == LowerHex(bytes[1..]);
    }
  }

  // ---------------------------------------------------------------------------------------
  // One entry

  /** The value of a `VersionEntry`: the latest label and the label -> hash map. */
  datatype Entry = Entry(latestVersion: string, versions: map<string, string>)

  /** A `new VersionEntry()`. */
  const NewEntry := Entry("", map[])

  /** What `UpdateVersionEntry` does to an entry: record the hash under the label, and make
      the label the latest one if it orders strictly after the current latest. The
      comparator's `FormatException` aborts the update. */
  function Merge(e: Entry, newVersion: string, md5: string): (r: Result<Entry>)
    ensures r.Success? <==> MV.CompareVersionDates(newVersion, e.latestVersion).Success?
    ensures r.Failure? ==> r.error.FormatException?
    ensures r.Success? ==> newVersion in r.value.versions && r.value.versions[newVersion] == md5
    ensures r.Success? ==> r.value.versions.Keys == e.versions.Keys + {newVersion}
    ensures r.Success? ==> forall k :: k in e.versions && k != newVersion ==> r.value.versions[k] == e.versions[k]
    ensures r.Success? ==>
      (r.value.latestVersion == newVersion <==> MV.CompareVersionDates(newVersion, e.latestVersion).value > 0 || e.latestVersion == newVersion)
    ensures r.Success? ==> r.value.latestVersion in {newVersion, e.latestVersion}
  {
    var c :- MV.CompareVersionDates(newVersion, e.latestVersion);
    Success(Entry(if c > 0 then newVersion else e.latestVersion, e.versions[newVersion := md5]))
  }

  /** Merging the same well-formed label and hash a second time changes nothing. */
  lemma MergeIdempotent(e: Entry, newVersion: string, md5: string)
    requires MV.WellFormed(newVersion)
    requires Merge(e, newVersion, md5).Success?
    ensures Merge(Merge(e, newVersion, md5).value, newVersion, md5) == Merge(e, newVersion, md5)
  {
    var e' := Merge(e, newVersion, md5).value;
    MV.CompareReflexive(newVersion);
    if e'.latestVersion != e.latestVersion {
      assert e'.versions[newVersion := md5] == e'.versions;
    } else {
      assert e'.versions[newVersion := md5] == e'.versions;
    }
  }

  /** A fresh entry takes the first non-empty label as its latest without parsing it, so
      even a label the comparator rejects is stored; the next merge of a non-empty label
      then fails. */
  lemma FreshEntryTakesAnyLabel(newVersion: string, md5: string, next: string, md5': string)
    requires newVersion != "" && next != ""
    ensures Merge(NewEntry, newVersion, md5) == Success(Entry(newVersion, map[newVersion := md5]))
    ensures !MV.WellFormed(newVersion) ==>
      Merge(Merge(NewEntry, newVersion, md5).value, next, md5').Failure?
  {
  }

  /** The latest label is the greatest label of the entry. */
  ghost predicate Consistent(e: Entry)
  {
    && (e.latestVersion == "" || e.latestVersion in e.versions)
    && forall k :: k in e.versions ==>
         MV.CompareVersionDates(e.latestVersion, k).Success? && MV.CompareVersionDates(e.latestVersion, k).value >= 0
  }

  /** Merging a well-formed label keeps the latest label at the greatest label. */
  lemma MergeConsistent(e: Entry, newVersion: string, md5: string)
    requires Consistent(e) && MV.WellFormed(newVersion)
    requires Merge(e, newVersion, md5).Success?
    ensures Consistent(Merge(e, newVersion, md5).value)
  {
    var r := Merge(e, newVersion, md5).value;
    var c := MV.CompareVersionDates(newVersion, e.latestVersion).value;
    MV.CompareReflexive(newVersion);
    MV.CompareAntisymmetric(newVersion, e.latestVersion);
    if c > 0 {
      forall k | k in r.versions
        ensures MV.CompareVersionDates(newVersion, k).Success? && MV.CompareVersionDates(newVersion, k).value >= 0
      {
        if k != newVersion {
          MV.CompareAntisymmetric(e.latestVersion, k);
          MV.CompareTransitive(k, e.latestVersion, newVersion);
          MV.CompareAntisymmetric(k, newVersion);
        }
      }
    }
  }

  // ---------------------------------------------------------------------------------------
  // The whole manifest

  /** A ruleset loaded for the command, with the MD5 digest of its assembly file. */
  datatype BuiltRuleset = BuiltRuleset(ruleset: Ruleset, digest: seq<Byte>)

  function EntryOrNew(m: map<string, Entry>, name: string): Entry
  {
    if name in m then m[name] else NewEntry
  }

  function Names(run: seq<BuiltRuleset>): set<string>
  {
    set i | 0 <= i < |run| :: run[i].ruleset.shortName
  }

  /** The `Execute` loop on values: merge every ruleset of the run, in order, into the
      manifest, creating missing entries. */
  function MergeRun(m: map<string, Entry>, run: seq<BuiltRuleset>, newVersion: string): Result<map<string, Entry>>
    decreases |run|
  {
    if run == [] then Success(m)
    else
      var name := run[0].ruleset.shortName;
      var e :- Merge(EntryOrNew(m, name), newVersion, Md5Hex(run[0].digest));
      MergeRun(m[name := e], run[1..], newVersion)
  }

  lemma NamesTail(run: seq<BuiltRuleset>)
    requires run != []
    ensures Names(run) == {run[0].ruleset.shortName} + Names(run[1..])
  {
    assert forall i :: 1 <= i < |run| ==> run[i] == run[1..][i - 1];
  }

  /** A merge keeps every entry, adds one per ruleset name, and carries the entries of the
      rulesets not in the run over unchanged. */
  lemma {:induction false} MergeRunKeepsOthers(m: map<string, Entry>, run: seq<BuiltRuleset>, newVersion: string)
    requires MergeRun(m, run, newVersion).Success?
    ensures MergeRun(m, run, newVersion).value.Keys == m.Keys + Names(run)
    ensures forall k :: k in m && k !in Names(run) ==> MergeRun(m, run, newVersion).value[k] == m[k]
    decreases |run|
  {
    if run != [] {
      NamesTail(run);
      var name := run[0].ruleset.shortName;
      var e := Merge(EntryOrNew(m, name), newVersion, Md5Hex(run[0].digest)).value;
      MergeRunKeepsOthers(m[name := e], run[1..], newVersion);
    }
  }

  ghost predicate DistinctNames(run: seq<BuiltRuleset>)
  {
    forall i, j :: 0 <= i < j < |run| ==> run[i].ruleset.shortName != run[j].ruleset.shortName
  }

  /** With one ruleset per name, each entry is merged exactly once, from its prior value. */
  lemma {:induction false} MergeRunPerName(m: map<string, Entry>, run: seq<BuiltRuleset>, newVersion: string)
    requires DistinctNames(run)
    ensures MergeRun(m, run, newVersion).Success? <==>
      forall i :: 0 <= i < |run| ==>
        Merge(EntryOrNew(m, run[i].ruleset.shortName), newVersion, Md5Hex(run[i].digest)).Success?
    ensures MergeRun(m, run, newVersion).Success? ==>
      forall i :: 0 <= i < |run| ==>
        && run[i].ruleset.shortName in MergeRun(m, run, newVersion).value
        && MergeRun(m, run, newVersion).value[run[i].ruleset.shortName] ==
        Merge(EntryOrNew(m, run[i].ruleset.shortName), newVersion, Md5Hex(run[i].digest)).value
  {
    RunSucceedsPerName(m, run, newVersion);
    if MergeRun(m, run, newVersion).Success? {
      RunValuesPerName(m, run, newVersion);
    }
  }

  /** With one ruleset per name, the run succeeds exactly when each merge from the prior
      entry does. */
  lemma {:induction false} RunSucceedsPerName(m: map<string, Entry>, run: seq<BuiltRuleset>, newVersion: string)
    requires DistinctNames(run)
    ensures MergeRun(m, run, newVersion).Success? <==>
      forall i :: 0 <= i < |run| ==>
        Merge(EntryOrNew(m, run[i].ruleset.shortName), newVersion, Md5Hex(run[i].digest)).Success?
    decreases |run|
  {
    if run != [] {
      var name := run[0].ruleset.shortName;
      var first := Merge(EntryOrNew(m, name), newVersion, Md5Hex(run[0].digest));
      if first.Success? {
        var m' := m[name := first.value];
        TailUnaffected(m, first.value, run);
        RunSucceedsPerName(m', run[1..], newVersion);
        assert MergeRun(m, run, newVersion) == MergeRun(m', run[1..], newVersion);
      } else {
        assert MergeRun(m, run, newVersion).Failure?;
      }
    }
  }

  /** With one ruleset per name, a successful run holds each name's merge from its prior
      entry. */
  lemma {:induction false} RunValuesPerName(m: map<string, Entry>, run: seq<BuiltRuleset>, newVersion: string)
    requires DistinctNames(run) && MergeRun(m, run, newVersion).Success?
    ensures forall i :: 0 <= i < |run| ==>
      && run[i].ruleset.shortName in MergeRun(m, run, newVersion).value
      && Merge(EntryOrNew(m, run[i].ruleset.shortName), newVersion, Md5Hex(run[i].digest)).Success?
      && MergeRun(m, run, newVersion).value[run[i].ruleset.shortName] ==
      Merge(EntryOrNew(m, run[i].ruleset.shortName), newVersion, Md5Hex(run[i].digest)).value
    decreases |run|
  {
    if run != [] {
      var name := run[0].ruleset.shortName;
      var first := Merge(EntryOrNew(m, name), newVersion, Md5Hex(run[0].digest));
      assert first.Success?;
      var m' := m[name := first.value];
      TailUnaffected(m, first.value, run);
      assert MergeRun(m, run, newVersion) == MergeRun(m', run[1..], newVersion);
      RunValuesPerName(m', run[1..], newVersion);
      MergeRunKeepsOthers(m', run[1..], newVersion);
    }
  }

  /** Updating the first ruleset's entry leaves the entries the rest of a run with distinct
      names starts from as they were. */
  lemma TailUnaffected(m: map<string, Entry>, e: Entry, run: seq<BuiltRuleset>)
    requires DistinctNames(run) && run != []
    ensures DistinctNames(run[1..])
    ensures run[0].ruleset.shortName !in Names(run[1..])
    ensures forall i :: 1 <= i < |run| ==> run[1..][i - 1] == run[i]
    ensures forall i :: 1 <= i < |run| ==>
      EntryOrNew(m[run[0].ruleset.shortName := e], run[i].ruleset.shortName) == EntryOrNew(m, run[i].ruleset.shortName)
  {
    NamesTail(run);
  }

  /** One step of the run: the first ruleset's merge, then the rest. */
  lemma MergeRunStep(m: map<string, Entry>, run: seq<BuiltRuleset>, newVersion: string)
    requires run != []
    ensures var name := run[0].ruleset.shortName;
      var first := Merge(EntryOrNew(m, name), newVersion, Md5Hex(run[0].digest));
      MergeRun(m, run, newVersion) ==
        if first.Success? then MergeRun(m[name := first.value], run[1..], newVersion) else Failure(first.error)
  {
  }

  /** A manifest that every merge of the run leaves as it is is a fixed point of the run. */
  lemma {:induction false} MergeRunFixed(m: map<string, Entry>, run: seq<BuiltRuleset>, newVersion: string)
    requires forall i :: 0 <= i < |run| ==>
      && run[i].ruleset.shortName in m
      && Merge(m[run[i].ruleset.shortName], newVersion, Md5Hex(run[i].digest)) == Success(m[run[i].ruleset.shortName])
    ensures MergeRun(m, run, newVersion) == Success(m)
    decreases |run|
  {
    if run != [] {
      var name := run[0].ruleset.shortName;
      assert m[name := m[name]] == m;
      assert forall i :: 1 <= i < |run| ==> run[i] == run[1..][i - 1];
      MergeRunFixed(m, run[1..], newVersion);
    }
  }

  /** Running the command twice with the same well-formed label and the same assemblies
      gives the manifest of running it once. */
  lemma MergeRunIdempotent(m: map<string, Entry>, run: seq<BuiltRuleset>, newVersion: string)
    requires DistinctNames(run) && MV.WellFormed(newVersion)
    requires MergeRun(m, run, newVersion).Success?
    ensures MergeRun(MergeRun(m, run, newVersion).value, run, newVersion) == MergeRun(m, run, newVersion)
  {
    var r := MergeRun(m, run, newVersion).value;
    MergeRunPerName(m, run, newVersion);
    forall i | 0 <= i < |run|
      ensures run[i].ruleset.shortName in r
      ensures Merge(r[run[i].ruleset.shortName], newVersion, Md5Hex(run[i].digest)) == Success(r[run[i].ruleset.shortName])
    {
      MergeIdempotent(EntryOrNew(m, run[i].ruleset.shortName), newVersion, Md5Hex(run[i].digest));
    }
    MergeRunFixed(r, run, newVersion);
  }

  /** If every entry's latest label is its greatest and the new label is well formed, that
      stays true after the run. */
  lemma {:induction false} MergeRunConsistent(m: map<string, Entry>, run: seq<BuiltRuleset>, newVersion: string)
    requires forall k :: k in m ==> Consistent(m[k])
    requires MV.WellFormed(newVersion)
    requires MergeRun(m, run, newVersion).Success?
    ensures forall k :: k in MergeRun(m, run, newVersion).value ==> Consistent(MergeRun(m, run, newVersion).value[k])
    decreases |run|
  {
    if run != [] {
      var name := run[0].ruleset.shortName;
      var e := EntryOrNew(m, name);
      MergeConsistent(e, newVersion, Md5Hex(run[0].digest));
      MergeRunConsistent(m[name := Merge(e, newVersion, Md5Hex(run[0].digest)).value], run[1..], newVersion);
    }
  }

  // ---------------------------------------------------------------------------------------
  // The objects

  class VersionEntry {
    var latestVersion: string
    var versions: map<string, string>

    constructor ()
      ensures latestVersion == "" && versions == map[]
    {
      latestVersion := "";
      versions := map[];
    }

    function Value(): Entry
      reads this
    {
      Entry(latestVersion, versions)
    }
  }

  /** `UpdateVersionEntry`: writes the hash into the entry's map, then compares the labels;
      the comparison may throw after the map was written. */
  method UpdateVersionEntry(entry: VersionEntry, digest: seq<Byte>, newVersion: string) returns (r: Outcome)
    modifies entry
    ensures entry.versions == old(entry.versions)[newVersion := Md5Hex(digest)]
    ensures r.Pass? ==> Merge(old(entry.Value()), newVersion, Md5Hex(digest)) == Success(entry.Value())
    ensures r.Fail? ==>
      && Merge(old(entry.Value()), newVersion, Md5Hex(digest)) == Failure(r.error)
      && entry.latestVersion == old(entry.latestVersion)
  {
    var md5 := Md5Hex(digest);
    entry.versions := entry.versions[newVersion := md5];
    var c := MV.CompareVersionDates(newVersion, entry.latestVersion);
    if c.Failure? {
      return Fail(c.error);
    }
    if c.value > 0 {
      entry.latestVersion := newVersion;
    }
    r := Pass;
  }

  function Snapshot(entries: map<string, VersionEntry>): map<string, Entry>
    reads entries.Values
  {
    map k | k in entries :: entries[k].Value()
  }

  /** No two names share one entry object. */
  ghost predicate DistinctEntries(entries: map<string, VersionEntry>)
  {
    forall a, b :: a in entries && b in entries && a != b ==> entries[a] != entries[b]
  }

  /** The dictionary lookup of the merge loop: the ruleset's entry, or a new one added under
      its name. */
  method FindOrAdd(current: map<string, VersionEntry>, name: string) returns (next: map<string, VersionEntry>, entry: VersionEntry)
    requires DistinctEntries(current)
    ensures next == current[name := entry]
    ensures DistinctEntries(next)
    ensures name in current ==> entry == current[name]
    ensures name !in current ==> fresh(entry) && entry.Value() == NewEntry
    ensures Snapshot(next) == old(Snapshot(current))[name := EntryOrNew(old(Snapshot(current)), name)]
  {
    if name in current {
      entry := current[name];
      next := current;
      assert current[name := entry] == current;
    } else {
      entry := new VersionEntry();
      next := current[name := entry];
    }
  }

  /** One iteration of the merge loop: find the ruleset's entry, or add a new one, and
      update it in place. */
  method MergeOne(current: map<string, VersionEntry>, b: BuiltRuleset, newVersion: string)
    returns (next: map<string, VersionEntry>, outcome: Outcome)
    requires DistinctEntries(current)
    modifies current.Values
    ensures DistinctEntries(next)
    ensures forall k :: k in next ==> (k in current && next[k] == current[k]) || fresh(next[k])
    ensures var name := b.ruleset.shortName;
      var merged := Merge(EntryOrNew(old(Snapshot(current)), name), newVersion, Md5Hex(b.digest));
      && (outcome.Fail? ==> merged == Failure(outcome.error))
      && (outcome.Pass? ==> merged.Success? && Snapshot(next) == old(Snapshot(current))[name := merged.value])
  {
    var name := b.ruleset.shortName;
    ghost var before := old(Snapshot(current));
    var entry;
    next, entry := FindOrAdd(current, name);
    outcome := UpdateNamed(next, name, b.digest, newVersion);
    if outcome.Pass? {
      UpdateTwice(before, name, EntryOrNew(before, name), Merge(EntryOrNew(before, name), newVersion, Md5Hex(b.digest)).value);
    }
  }

  lemma UpdateTwice(m: map<string, Entry>, k: string, a: Entry, b: Entry)
    ensures m[k := a][k := b] == m[k := b]
  {
  }

  /** `UpdateVersionEntry` on the entry stored under a name, seen on the whole dictionary. */
  method UpdateNamed(entries: map<string, VersionEntry>, name: string, digest: seq<Byte>, newVersion: string) returns (outcome: Outcome)
    requires name in entries && DistinctEntries(entries)
    modifies entries[name]
    ensures var merged := Merge(old(Snapshot(entries))[name], newVersion, Md5Hex(digest));
      && (outcome.Fail? ==> merged == Failure(outcome.error))
      && (outcome.Pass? ==> merged.Success? && Snapshot(entries) == old(Snapshot(entries))[name := merged.value])
  {
    var entry := entries[name];
    outcome := UpdateVersionEntry(entry, digest, newVersion);
    forall k | k in entries
      ensures Snapshot(entries)[k] == old(Snapshot(entries))[name := entry.Value()][k]
    {
      if k != name {
        assert entries[k] != entry;
      }
    }
  }

  /** The i-th iteration of the merge loop, stated against the rest of the run. */
  method MergeNext(current: map<string, VersionEntry>, rulesets: seq<BuiltRuleset>, i: int, newVersion: string)
    returns (next: map<string, VersionEntry>, outcome: Outcome)
    requires 0 <= i < |rulesets|
    requires DistinctEntries(current)
    modifies current.Values
    ensures DistinctEntries(next)
    ensures forall k :: k in next ==> (k in current && next[k] == current[k]) || fresh(next[k])
    ensures outcome.Fail? ==> MergeRun(old(Snapshot(current)), rulesets[i..], newVersion) == Failure(outcome.error)
    ensures outcome.Pass? ==>
      MergeRun(Snapshot(next), rulesets[i + 1..], newVersion) == MergeRun(old(Snapshot(current)), rulesets[i..], newVersion)
  {
    MergeRunStep(Snapshot(current), rulesets[i..], newVersion);
    assert rulesets[i..][0] == rulesets[i] && rulesets[i..][1..] == rulesets[i + 1..];
    next, outcome := MergeOne(current, rulesets[i], newVersion);
  }

  /** The merge loop of `Execute`: find or create each ruleset's entry in the dictionary and
      update it in place. A `FormatException` ends the run. */
  method MergeVersions(entries: map<string, VersionEntry>, rulesets: seq<BuiltRuleset>, newVersion: string)
    returns (result: Result<map<string, VersionEntry>>)
    requires DistinctEntries(entries)
    modifies entries.Values
    ensures result.Success? ==> DistinctEntries(result.value)
    ensures MergeRun(old(Snapshot(entries)), rulesets, newVersion) ==
      (if result.Success? then Success(Snapshot(result.value)) else Failure(result.error))
  {
    var current: map<string, VersionEntry> := entries;
    var i := 0;
    while i < |rulesets|
      invariant 0 <= i <= |rulesets|
      invariant DistinctEntries(current)
      invariant forall o :: o in current.Values ==> o in entries.Values || fresh(o)
      invariant MergeRun(Snapshot(current), rulesets[i..], newVersion) ==
        MergeRun(old(Snapshot(entries)), rulesets, newVersion)
    {
      var outcome;
      current, outcome := MergeNext(current, rulesets, i, newVersion);
      if outcome.Fail? {
        return Failure(outcome.error);
      }
      i := i + 1;
    }
    assert rulesets[i..] == [];
    return Success(current);
  }

  /** `Execute` after loading: start from the existing manifest, or an empty one when no
      current file is given, and merge the rulesets in `OnlineID` order. */
  method Execute(current: Option<map<string, VersionEntry>>, loaded: seq<BuiltRuleset>, newVersion: string)
    returns (result: Result<map<string, VersionEntry>>)
    requires current.Some? ==> DistinctEntries(current.value)
    modifies if current.Some? then current.value.Values else {}
    ensures current.None? ==>
      MergeRun(map[], OrderBy(loaded, (b: BuiltRuleset) => b.ruleset.onlineId), newVersion) ==
      (if result.Success? then Success(Snapshot(result.value)) else Failure(result.error))
    ensures current.Some? ==>
      MergeRun(old(Snapshot(current.value)), OrderBy(loaded, (b: BuiltRuleset) => b.ruleset.onlineId), newVersion) ==
      (if result.Success? then Success(Snapshot(result.value)) else Failure(result.error))
  {
    var rulesets := OrderBy(loaded, (b: BuiltRuleset) => b.ruleset.onlineId);
    var versionEntries: map<string, VersionEntry> := if current.Some? then current.value else map[];
    result := MergeVersions(versionEntries, rulesets, newVersion);
  }

  /** Reordering keeps the names distinct. */
  lemma DistinctNamesPermuted(a: seq<BuiltRuleset>, b: seq<BuiltRuleset>)
    requires multiset(a) == multiset(b) && DistinctNames(a)
    ensures DistinctNames(b)
  {
    forall i, j | 0 <= i < j < |b|
      ensures b[i].ruleset.shortName != b[j].ruleset.shortName
    {
      var p, q;
      if b[i] == b[j] {
        CountedTwice(b, i, j);
        p, q := TwoPositions(a, b[i]);
      } else {
        assert b[i] in multiset(a) && b[j] in multiset(a);
        p :| 0 <= p < |a| && a[p] == b[i];
        q :| 0 <= q < |a| && a[q] == b[j];
      }
      assert p < q || q < p;
    }
  }

  /** The version command's registry is built without the officials, so the run it merges,
      ordered by `OnlineID`, has pairwise distinct short names: the requirement of
      `MergeRunPerName` and `MergeRunIdempotent` holds for the command's own input. */
  lemma RegistryRunDistinct(m: RM.RulesetManager, directory: Option<seq<string>>, loader: string -> RM.LoadResult,
                            loaded: seq<BuiltRuleset>)
    requires m.Value() == RM.Construct(false, directory, loader) && RM.Valid(m.Value())
    requires |loaded| == |m.GetAllRulesets()|
    requires forall i :: 0 <= i < |loaded| ==> loaded[i].ruleset == m.GetAllRulesets()[i]
    ensures DistinctNames(OrderBy(loaded, (b: BuiltRuleset) => b.ruleset.onlineId))
  {
    RM.PluginNamesDistinct(m, directory, loader);
    DistinctNamesPermuted(loaded, OrderBy(loaded, (b: BuiltRuleset) => b.ruleset.onlineId));
  }
}

