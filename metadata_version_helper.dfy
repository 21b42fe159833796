/** The version comparator of the metadata generator. A version label is `YYYY.MMDD[.P]`:
    the first two dot-separated pieces, concatenated, are a `yyyyMMdd` date and the optional
    third piece is an integer patch. Labels order by date, then by patch; the empty label
    comes first; any other label that does not parse raises `FormatException`. */
module MetadataVersionHelper {
  import opened Wrappers
  import opened Text
  import opened Dates

  /** What a well-formed label denotes. */
  datatype VersionKey = VersionKey(date: Date, patch: int)

  /** `DateTime.TryParseExact(s, "yyyyMMdd", InvariantCulture, DateTimeStyles.None)`:
      exactly eight ASCII digits forming a valid calendar date. */
  function ParseCompactDate(s: string): (r: Option<Date>)
    ensures r.Some? ==> ValidDate(r.value)
    ensures r.Some? ==> |s| == 8 && AllDigits(s)
  {
    if |s| != 8 || !AllDigits(s) then None
    else
      var d := Date(DigitsValue(s[..4]), DigitsValue(s[4..6]), DigitsValue(s[6..]));
      if ValidDate(d) then Some(d) else None
  }

  /** `ParseVersion`: the (date, patch) a non-empty label denotes, or the `FormatException`
      it raises. */
  function ParseVersion(version: string): (r: Result<VersionKey>)
    ensures r.Success? ==> ValidDate(r.value.date) && Int32Min <= r.value.patch <= Int32Max
    ensures r.Failure? ==> r.error.FormatException?
    ensures r.Success? <==>
      var parts := SplitNonEmpty(version, '.');
      && |parts| >= 2
      && ParseCompactDate(parts[0] + parts[1]).Some?
      && (|parts| >= 3 ==> ParseInt32(parts[2]).Some?)
  {
    var parts := SplitNonEmpty(version, '.');
    if |parts| <= 1 then Failure(FormatException("Invalid version format: " + version))
    else
      match ParseCompactDate(parts[0] + parts[1])
      case None => Failure(FormatException("Failed to parse date: " + version))
      case Some(date) =>
        if |parts| <= 2 then Success(VersionKey(date, 0))
        else
          match ParseInt32(parts[2])
          case None => Failure(FormatException("Failed to parse patch: " + version))
          case Some(patch) => Success(VersionKey(date, patch))
  }

  /** Date first; the patch decides only between equal dates. */
  function CompareKeys(k1: VersionKey, k2: VersionKey): (c: int)
    ensures c == -1 || c == 0 || c == 1
    ensures c == 0 <==> k1 == k2
    ensures k1.date != k2.date ==> c == CompareDates(k1.date, k2.date)
    ensures k1.date == k2.date ==> c == CompareInts(k1.patch, k2.patch)
  {
    var dateCompare := CompareDates(k1.date, k2.date);
    if dateCompare != 0 then dateCompare else CompareInts(k1.patch, k2.patch)
  }

  /** `CompareVersionDates(v1, v2)`: the sign of v1 - v2 in version order, or the
      `FormatException` of the first non-empty label that does not parse. An empty `v1` is
      decided without looking at `v2`'s format, and so is an empty `v2`. */
  function CompareVersionDates(v1: string, v2: string): (r: Result<int>)
    ensures r.Success? ==> r.value == -1 || r.value == 0 || r.value == 1
    ensures v1 == "" ==> r == Success(if v2 == "" then 0 else -1)
    ensures v1 != "" && v2 == "" ==> r == Success(1)
    ensures v1 != "" && v2 != "" ==>
      (r.Success? <==> ParseVersion(v1).Success? && ParseVersion(v2).Success?)
    ensures v1 != "" && v2 != "" && r.Success? ==>
      r.value == CompareKeys(ParseVersion(v1).value, ParseVersion(v2).value)
    ensures r.Failure? ==> r.error.FormatException?
  {
    if v1 == "" then Success(if v2 == "" then 0 else -1)
    else if v2 == "" then Success(1)
    else
      var k1 :- ParseVersion(v1);
      var k2 :- ParseVersion(v2);
      Success(CompareKeys(k1, k2))
  }

  /** A label the comparator accepts. */
  predicate WellFormed(v: string)
  {
    v == "" || ParseVersion(v).Success?
  }

  // ---------------------------------------------------------------------------------------
  // Order properties

  lemma CompareKeysAntisymmetric(k1: VersionKey, k2: VersionKey)
    ensures CompareKeys(k1, k2) == -CompareKeys(k2, k1)
  {
    CompareDatesAntisymmetric(k1.date, k2.date);
  }

  lemma CompareKeysTransitive(k1: VersionKey, k2: VersionKey, k3: VersionKey)
    requires CompareKeys(k1, k2) <= 0 && CompareKeys(k2, k3) <= 0
    ensures CompareKeys(k1, k3) <= 0
    ensures CompareKeys(k1, k2) < 0 || CompareKeys(k2, k3) < 0 ==> CompareKeys(k1, k3) < 0
  {
    if k1.date != k2.date && k2.date != k3.date {
      CompareDatesTransitive(k1.date, k2.date, k3.date);
    }
  }

  /** Swapping the arguments negates the result and never turns a success into a failure. */
  lemma CompareAntisymmetric(v1: string, v2: string)
    ensures CompareVersionDates(v1, v2).Success? == CompareVersionDates(v2, v1).Success?
    ensures CompareVersionDates(v1, v2).Success? ==>
      CompareVersionDates(v1, v2).value == -CompareVersionDates(v2, v1).value
  {
    if v1 != "" && v2 != "" && ParseVersion(v1).Success? && ParseVersion(v2).Success? {
      CompareKeysAntisymmetric(ParseVersion(v1).value, ParseVersion(v2).value);
    }
  }

  /** Every accepted label is equal to itself, and only accepted labels compare at all. */
  lemma CompareReflexive(v: string)
    ensures CompareVersionDates(v, v).Success? <==> WellFormed(v)
    ensures WellFormed(v) ==> CompareVersionDates(v, v) == Success(0)
  {
  }

  /** "At most" is transitive on labels, and strictness carries over. */
  lemma CompareTransitive(v1: string, v2: string, v3: string)
    requires CompareVersionDates(v1, v2).Success? && CompareVersionDates(v1, v2).value <= 0
    requires CompareVersionDates(v2, v3).Success? && CompareVersionDates(v2, v3).value <= 0
    ensures CompareVersionDates(v1, v3).Success?
    ensures CompareVersionDates(v1, v3).value <= 0
    ensures CompareVersionDates(v1, v2).value < 0 || CompareVersionDates(v2, v3).value < 0 ==>
      CompareVersionDates(v1, v3).value < 0
  {
    if v1 != "" && v2 != "" && v3 != "" {
      CompareKeysTransitive(ParseVersion(v1).value, ParseVersion(v2).value, ParseVersion(v3).value);
    }
  }

  // ---------------------------------------------------------------------------------------
  // Canonical labels: rendering then parsing gives back the date and patch

  /** `YYYY.MMDD`, the label of a release without a patch number. */
  function RenderDate(d: Date): (s: string)
    requires ValidDate(d)
  {
    FixedDigits(d.year, 4) + "." + FixedDigits(d.month, 2) + FixedDigits(d.day, 2)
  }

  /** `YYYY.MMDD.P`. */
  function RenderVersion(k: VersionKey): (s: string)
    requires ValidDate(k.date) && 0 <= k.patch
  {
    RenderDate(k.date) + "." + Decimal(k.patch)
  }

  lemma {:induction false} SplitRenderDate(d: Date)
    requires ValidDate(d)
    ensures SplitNonEmpty(RenderDate(d), '.') ==
      [FixedDigits(d.year, 4), FixedDigits(d.month, 2) + FixedDigits(d.day, 2)]
  {
    var y, md := FixedDigits(d.year, 4), FixedDigits(d.month, 2) + FixedDigits(d.day, 2);
    DigitsHaveNoSeparator(y, '.');
    DigitsHaveNoSeparator(md, '.');
    assert RenderDate(d) == y + ['.'] + md;
    SplitNonEmptyAppend(y, md, '.');
    SplitNonEmptyPiece(y, '.');
    SplitNonEmptyPiece(md, '.');
  }

  lemma {:induction false} ParseRenderedCompactDate(d: Date)
    requires ValidDate(d)
    ensures ParseCompactDate(FixedDigits(d.year, 4) + FixedDigits(d.month, 2) + FixedDigits(d.day, 2))
      == Some(d)
  {
    var y, m, dd := FixedDigits(d.year, 4), FixedDigits(d.month, 2), FixedDigits(d.day, 2);
    var s := y + m + dd;
    assert s[..4] == y && s[4..6] == m && s[6..] == dd;
    FixedDigitsValue(d.year, 4);
    FixedDigitsValue(d.month, 2);
    FixedDigitsValue(d.day, 2);
  }

  lemma {:induction false} ParseRenderDate(d: Date)
    requires ValidDate(d)
    ensures ParseVersion(RenderDate(d)) == Success(VersionKey(d, 0))
  {
    SplitRenderDate(d);
    ParseRenderedCompactDate(d);
    assert FixedDigits(d.year, 4) + (FixedDigits(d.month, 2) + FixedDigits(d.day, 2))
      == FixedDigits(d.year, 4) + FixedDigits(d.month, 2) + FixedDigits(d.day, 2);
  }

  lemma {:induction false} ParseRenderVersion(k: VersionKey)
    requires ValidDate(k.date) && 0 <= k.patch <= Int32Max
    ensures ParseVersion(RenderVersion(k)) == Success(k)
  {
    var p := Decimal(k.patch);
    SplitRenderDate(k.date);
    ParseRenderedCompactDate(k.date);
    DigitsHaveNoSeparator(p, '.');
    SplitNonEmptyAppend(RenderDate(k.date), p, '.');
    SplitNonEmptyPiece(p, '.');
    ParseInt32Decimal(k.patch);
    assert FixedDigits(k.date.year, 4) + (FixedDigits(k.date.month, 2) + FixedDigits(k.date.day, 2))
      == FixedDigits(k.date.year, 4) + FixedDigits(k.date.month, 2) + FixedDigits(k.date.day, 2);
  }

  /** On canonical labels the comparator is exactly the (date, patch) order. */
  lemma CompareRendered(k1: VersionKey, k2: VersionKey)
    requires ValidDate(k1.date) && 0 <= k1.patch <= Int32Max
    requires ValidDate(k2.date) && 0 <= k2.patch <= Int32Max
    ensures CompareVersionDates(RenderVersion(k1), RenderVersion(k2)) == Success(CompareKeys(k1, k2))
  {
    ParseRenderVersion(k1);
    ParseRenderVersion(k2);
  }

  // ---------------------------------------------------------------------------------------
  // The missing patch and the ignored tail

  /** A label without a patch compares equal to the same label with patch 0. */
  lemma {:induction false} MissingPatchIsZero(v: string)
    requires ParseVersion(v).Success? && |SplitNonEmpty(v, '.')| == 2
    ensures CompareVersionDates(v, v + ".0") == Success(0)
  {
    var v' := v + ".0";
    assert v' == v + ['.'] + "0";
    SplitNonEmptyAppend(v, "0", '.');
    SplitNonEmptyPiece("0", '.');
    var parts, parts' := SplitNonEmpty(v, '.'), SplitNonEmpty(v', '.');
    assert parts' == parts + ["0"];
    assert parts'[0] == parts[0] && parts'[1] == parts[1] && parts'[2] == "0" && |parts'| == 3;
    assert ParseInt32("0") == Some(0) by { ParseInt32Decimal(0); }
    assert ParseVersion(v') == Success(VersionKey(ParseVersion(v).value.date, 0));
  }

  /** Pieces after the third do not take part in the comparison. */
  lemma {:induction false} TailIgnored(v: string, tail: string)
    requires ParseVersion(v).Success? && |SplitNonEmpty(v, '.')| >= 3
    ensures CompareVersionDates(v, v + "." + tail) == Success(0)
  {
    SplitNonEmptyAppend(v, tail, '.');
    assert v + "." + tail == v + ['.'] + tail;
    var parts, parts' := SplitNonEmpty(v, '.'), SplitNonEmpty(v + "." + tail, '.');
    assert parts'[0] == parts[0] && parts'[1] == parts[1] && parts'[2] == parts[2];
  }

  /** Two pieces are needed after empty pieces are dropped. The first label is parsed first,
      so its failure is the one raised, whatever the (non-empty) second label is. */
  lemma TooFewPieces(v: string, other: string)
    requires v != "" && other != "" && |SplitNonEmpty(v, '.')| <= 1
    ensures CompareVersionDates(v, other) == Failure(FormatException("Invalid version format: " + v))
  {
  }

  // ---------------------------------------------------------------------------------------
  // Worked examples

  lemma Examples()
    ensures CompareVersionDates("2025.1019.2", "2025.1019.1") == Success(1)
    ensures CompareVersionDates("2025.1020", "2025.1019.5") == Success(1)
    ensures CompareVersionDates("", "2025.0101") == Success(-1)
    ensures CompareVersionDates("", "") == Success(0)
    ensures CompareVersionDates("", "not a version") == Success(-1)
  {
    var oct19, oct20 := Date(2025, 10, 19), Date(2025, 10, 20);
    assert RenderVersion(VersionKey(oct19, 2)) == "2025.1019.2";
    assert RenderVersion(VersionKey(oct19, 1)) == "2025.1019.1";
    assert RenderVersion(VersionKey(oct19, 5)) == "2025.1019.5";
    assert RenderDate(oct20) == "2025.1020";
    CompareRendered(VersionKey(oct19, 2), VersionKey(oct19, 1));
    ParseRenderDate(oct20);
    ParseRenderVersion(VersionKey(oct19, 5));
  }

  /** A month and day written as two pieces do not form the eight-digit date, so the
      `yyyy.MM.dd` shape the other comparator accepts (`2025.10.19`) is rejected here. */
  lemma DottedDateRejected(y: string, m: string, d: string)
    requires |y| == 4 && |m| == 2 && |d| == 2
    requires AllDigits(y) && AllDigits(m) && AllDigits(d)
    ensures ParseVersion(y + "." + m + "." + d) == Failure(FormatException("Failed to parse date: " + y + "." + m + "." + d))
  {
    DigitsHaveNoSeparator(y, '.');
    DigitsHaveNoSeparator(m, '.');
    DigitsHaveNoSeparator(d, '.');
    assert y + "." + m + "." + d == y + ['.'] + (m + ['.'] + d);
    SplitNonEmptyAppend(m, d, '.');
    SplitNonEmptyPiece(m, '.');
    SplitNonEmptyPiece(d, '.');
    SplitNonEmptyAppend(y, m + ['.'] + d, '.');
    SplitNonEmptyPiece(y, '.');
    assert SplitNonEmpty(y + "." + m + "." + d, '.') == [y, m, d];
  }
}
