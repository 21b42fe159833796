/** The version comparator of the older ruleset generator. A version label is a calendar date
    written `yyyy.M.d` or `yyyy.MM.dd`; there is no patch number. The empty label comes first;
    any other label that is not such a date raises `FormatException`. */
module GeneratorVersionHelper {
  import opened Wrappers
  import opened Text
  import opened Dates

  /** The two accepted `DateTime` exact formats, in the order they are tried. */
  datatype DateFormat =
    | Unpadded  // "yyyy.M.d": one or two digits for month and day
    | Padded    // "yyyy.MM.dd": exactly two digits for month and day

  const Formats: seq<DateFormat> := [Unpadded, Padded]

  /** The digit counts a month or day field of the format accepts. */
  predicate FieldWidthOk(fmt: DateFormat, field: string)
  {
    match fmt
    case Unpadded => 1 <= |field| <= 2
    case Padded => |field| == 2
  }

  /** `DateTime.TryParseExact(s, fmt, InvariantCulture, DateTimeStyles.None)`: four year digits,
      a dot, the month digits, a dot, the day digits and nothing else, forming a valid date. */
  function ParseExact(s: string, fmt: DateFormat): (r: Option<Date>)
    ensures r.Some? ==> ValidDate(r.value)
  {
    var fields := Split(s, '.');
    if |fields| != 3 then None
    else if !(|fields[0]| == 4 && AllDigits(fields[0])) then None
    else if !(FieldWidthOk(fmt, fields[1]) && AllDigits(fields[1])) then None
    else if !(FieldWidthOk(fmt, fields[2]) && AllDigits(fields[2])) then None
    else
      var d := Date(DigitsValue(fields[0]), DigitsValue(fields[1]), DigitsValue(fields[2]));
      if ValidDate(d) then Some(d) else None
  }

  /** `DateTime.TryParseExact(s, formats, ...)`: the first format that matches. */
  function ParseAny(s: string, formats: seq<DateFormat>): (r: Option<Date>)
    ensures r.Some? ==> ValidDate(r.value)
    ensures r.Some? <==> exists i :: 0 <= i < |formats| && ParseExact(s, formats[i]).Some?
  {
    if formats == [] then None
    else if ParseExact(s, formats[0]).Some? then ParseExact(s, formats[0])
    else
      var r := ParseAny(s, formats[1..]);
      assert forall i :: 1 <= i < |formats| ==> formats[i] == formats[1..][i - 1];
      r
  }

  /** `ParseVersionDate`: the date a label denotes, or the `FormatException` it raises. */
  function ParseVersionDate(version: string): (r: Result<Date>)
    ensures r.Success? ==> ValidDate(r.value)
    ensures r.Failure? ==> r.error == FormatException("Failed to parse version to date: " + version)
  {
    match ParseAny(version, Formats)
    case Some(date) => Success(date)
    case None => Failure(FormatException("Failed to parse version to date: " + version))
  }

  /** `CompareVersionDates(v1, v2)`: the sign of v1 - v2 as dates, or the `FormatException`
      of the first non-empty label that is not a date. An empty label on either side is
      decided without parsing the other. */
  function CompareVersionDates(v1: string, v2: string): (r: Result<int>)
    ensures r.Success? ==> r.value == -1 || r.value == 0 || r.value == 1
    ensures v1 == "" ==> r == Success(if v2 == "" then 0 else -1)
    ensures v1 != "" && v2 == "" ==> r == Success(1)
    ensures v1 != "" && v2 != "" ==>
      (r.Success? <==> ParseVersionDate(v1).Success? && ParseVersionDate(v2).Success?)
    ensures v1 != "" && v2 != "" && r.Success? ==>
      r.value == CompareDates(ParseVersionDate(v1).value, ParseVersionDate(v2).value)
    ensures r.Failure? ==> r.error.FormatException?
  {
    if v1 == "" then Success(if v2 == "" then 0 else -1)
    else if v2 == "" then Success(1)
    else
      var d1 :- ParseVersionDate(v1);
      var d2 :- ParseVersionDate(v2);
      Success(CompareDates(d1, d2))
  }

  predicate WellFormed(v: string)
  {
    v == "" || ParseVersionDate(v).Success?
  }

  // ---------------------------------------------------------------------------------------
  // The two formats

  /** Every `yyyy.MM.dd` label is also a `yyyy.M.d` label of the same date, so the padded
      format never decides anything on its own. */
  lemma PaddedIsUnpadded(s: string)
    requires ParseExact(s, Padded).Some?
    ensures ParseExact(s, Unpadded) == ParseExact(s, Padded)
  {
  }

  lemma ParseVersionDateIsUnpadded(s: string)
    ensures ParseVersionDate(s).Success? <==> ParseExact(s, Unpadded).Some?
    ensures ParseVersionDate(s).Success? ==> ParseVersionDate(s).value == ParseExact(s, Unpadded).value
  {
    if ParseExact(s, Padded).Some? {
      PaddedIsUnpadded(s);
    }
  }

  // ---------------------------------------------------------------------------------------
  // Order properties

  lemma CompareAntisymmetric(v1: string, v2: string)
    ensures CompareVersionDates(v1, v2).Success? == CompareVersionDates(v2, v1).Success?
    ensures CompareVersionDates(v1, v2).Success? ==>
      CompareVersionDates(v1, v2).value == -CompareVersionDates(v2, v1).value
  {
    if v1 != "" && v2 != "" && ParseVersionDate(v1).Success? && ParseVersionDate(v2).Success? {
      CompareDatesAntisymmetric(ParseVersionDate(v1).value, ParseVersionDate(v2).value);
    }
  }

  lemma CompareReflexive(v: string)
    ensures CompareVersionDates(v, v).Success? <==> WellFormed(v)
    ensures WellFormed(v) ==> CompareVersionDates(v, v) == Success(0)
  {
  }

  lemma CompareTransitive(v1: string, v2: string, v3: string)
    requires CompareVersionDates(v1, v2).Success? && CompareVersionDates(v1, v2).value <= 0
    requires CompareVersionDates(v2, v3).Success? && CompareVersionDates(v2, v3).value <= 0
    ensures CompareVersionDates(v1, v3).Success?
    ensures CompareVersionDates(v1, v3).value <= 0
    ensures CompareVersionDates(v1, v2).value < 0 || CompareVersionDates(v2, v3).value < 0 ==>
      CompareVersionDates(v1, v3).value < 0
  {
    if v1 != "" && v2 != "" && v3 != "" {
      var d1, d2, d3 := ParseVersionDate(v1).value, ParseVersionDate(v2).value, ParseVersionDate(v3).value;
      if d1 != d2 && d2 != d3 {
        CompareDatesTransitive(d1, d2, d3);
      }
    }
  }

  // ---------------------------------------------------------------------------------------
  // Rendering a date either way parses back to it

  function RenderPadded(d: Date): string
    requires ValidDate(d)
  {
    FixedDigits(d.year, 4) + "." + FixedDigits(d.month, 2) + "." + FixedDigits(d.day, 2)
  }

  function RenderUnpadded(d: Date): string
    requires ValidDate(d)
  {
    FixedDigits(d.year, 4) + "." + Decimal(d.month) + "." + Decimal(d.day)
  }

  lemma {:induction false} DecimalShort(n: nat)
    requires n < 100
    ensures |Decimal(n)| <= 2
  {
  }

  lemma {:induction false} SplitThree(a: string, b: string, c: string)
    requires '.' !in a && '.' !in b && '.' !in c
    ensures Split(a + "." + b + "." + c, '.') == [a, b, c]
  {
    assert a + "." + b + "." + c == a + ['.'] + (b + ['.'] + c);
    SplitAppend(b, c, '.');
    SplitAppend(a, b + ['.'] + c, '.');
    SplitNoSep(a, '.');
    SplitNoSep(b, '.');
    SplitNoSep(c, '.');
  }

  lemma {:induction false} ParseRenderUnpadded(d: Date)
    requires ValidDate(d)
    ensures ParseVersionDate(RenderUnpadded(d)) == Success(d)
  {
    var y, m, dd := FixedDigits(d.year, 4), Decimal(d.month), Decimal(d.day);
    DigitsHaveNoSeparator(y, '.');
    DigitsHaveNoSeparator(m, '.');
    DigitsHaveNoSeparator(dd, '.');
    SplitThree(y, m, dd);
    DecimalShort(d.month);
    DecimalShort(d.day);
    FixedDigitsValue(d.year, 4);
    DecimalValue(d.month);
    DecimalValue(d.day);
  }

  lemma {:induction false} ParseRenderPadded(d: Date)
    requires ValidDate(d)
    ensures ParseVersionDate(RenderPadded(d)) == Success(d)
  {
    var y, m, dd := FixedDigits(d.year, 4), FixedDigits(d.month, 2), FixedDigits(d.day, 2);
    DigitsHaveNoSeparator(y, '.');
    DigitsHaveNoSeparator(m, '.');
    DigitsHaveNoSeparator(dd, '.');
    SplitThree(y, m, dd);
    FixedDigitsValue(d.year, 4);
    FixedDigitsValue(d.month, 2);
    FixedDigitsValue(d.day, 2);
  }

  /** Zero padding does not matter: both spellings of a date compare equal, and on rendered
      labels the comparator is the calendar order. */
  lemma CompareRendered(d1: Date, d2: Date)
    requires ValidDate(d1) && ValidDate(d2)
    ensures CompareVersionDates(RenderPadded(d1), RenderUnpadded(d2)) == Success(CompareDates(d1, d2))
    ensures CompareVersionDates(RenderUnpadded(d1), RenderPadded(d1)) == Success(0)
  {
    ParseRenderPadded(d1);
    ParseRenderUnpadded(d2);
    ParseRenderUnpadded(d1);
  }

  lemma Examples()
    ensures CompareVersionDates("2025.1.5", "2025.01.05") == Success(0)
    ensures CompareVersionDates("2025.10.20", "2025.9.30") == Success(1)
    ensures CompareVersionDates("", "2025.1.5") == Success(-1)
    ensures CompareVersionDates("2025.1.5", "") == Success(1)
  {
    var jan5, sep30, oct20 := Date(2025, 1, 5), Date(2025, 9, 30), Date(2025, 10, 20);
    assert RenderUnpadded(jan5) == "2025.1.5";
    assert RenderPadded(jan5) == "2025.01.05";
    assert RenderPadded(oct20) == "2025.10.20";
    assert RenderUnpadded(sep30) == "2025.9.30";
    CompareRendered(jan5, jan5);
    CompareRendered(oct20, sep30);
  }

  /** The metadata generator's compact `YYYY.MMDD` labels are not dates here. */
  lemma CompactLabelRejected(y: string, md: string)
    requires |y| == 4 && |md| == 4 && AllDigits(y) && AllDigits(md)
    ensures ParseVersionDate(y + "." + md).Failure?
  {
    DigitsHaveNoSeparator(y, '.');
    DigitsHaveNoSeparator(md, '.');
    assert y + "." + md == y + ['.'] + md;
    SplitAppend(y, md, '.');
    SplitNoSep(y, '.');
    SplitNoSep(md, '.');
  }
}
