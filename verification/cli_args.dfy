/**
  The command line's date options (`getAlignmentFromArgs` and `parseYear` in node/src/cli/args.ts):
  `--hijri YYYY-MM-DD` or `--date YYYY-MM-DD`, either with a two-digit year standing for 14YY or 20YY.
  A Hijri date wins over a Gregorian one; with neither, the calendar is aligned to today.

  Numbers are read with JavaScript's `parseInt` without a radix: leading white space, an optional
  sign, an optional "0x" prefix for hexadecimal, then as many digits as there are. A Gregorian date is
  checked by building a local `Date` from it, which rolls impossible days over into the next month,
  reads years 0 to 99 as 1900 to 1999, and is invalid more than 10^8 days from 1970-01-01. A year
  field's length is JavaScript's, in UTF-16 code units.
 */
module CliArgs {
  import opened Wrappers
  import opened Text
  import Civil
  import IslamicAlignment

  /** Where the alignment comes from: an explicit Hijri date, a Gregorian date, or the clock. */
  datatype DateSource =
    | HijriInput(date: IslamicAlignment.HijriDate)
    | GregorianInput(year: int, month: int, day: int)
    | Today

  /** JavaScript's white space and line terminators, which `parseInt` skips, by code point:
      tab, line feed, vertical tab, form feed, carriage return, space, no-break space, the Unicode
      space separators, the line and paragraph separators, and the byte order mark. */
  predicate IsJsWhiteSpace(c: char) {
    var n := c as int;
    || 0x09 <= n <= 0x0D || n == 0x20 || n == 0xA0 || n == 0x1680 || 0x2000 <= n <= 0x200A
    || n == 0x2028 || n == 0x2029 || n == 0x202F || n == 0x205F || n == 0x3000 || n == 0xFEFF
  }

  /** The text after the leading white space. */
  function SkipWhiteSpace(s: string): (t: string)
    ensures |t| <= |s| && t == s[|s| - |t|..]
  {
    if 0 < |s| && IsJsWhiteSpace(s[0]) then SkipWhiteSpace(s[1..]) else s
  }

  /** What `SkipWhiteSpace` drops is all white space, and what it keeps does not start with any. */
  lemma {:induction false} SkipWhiteSpaceStopsAtText(s: string)
    ensures forall i :: 0 <= i < |s| - |SkipWhiteSpace(s)| ==> IsJsWhiteSpace(s[i])
    ensures 0 < |SkipWhiteSpace(s)| ==> !IsJsWhiteSpace(SkipWhiteSpace(s)[0])
  {
    if 0 < |s| && IsJsWhiteSpace(s[0]) {
      SkipWhiteSpaceStopsAtText(s[1..]);
      forall i | 0 < i < |s| - |SkipWhiteSpace(s)|
        ensures IsJsWhiteSpace(s[i])
      {
        assert s[i] == s[1..][i - 1];
      }
    }
  }

  predicate IsHexDigit(c: char) {
    IsDigit(c) || ('a' <= c <= 'f') || ('A' <= c <= 'F')
  }

  function HexDigitValue(c: char): (v: nat)
    requires IsHexDigit(c)
    ensures v < 16
  {
    if IsDigit(c) then DigitValue(c)
    else if 'a' <= c <= 'f' then (c as int) - ('a' as int) + 10
    else (c as int) - ('A' as int) + 10
  }

  function LeadingHexDigits(s: string): (r: string)
    ensures |r| <= |s| && r == s[..|r|]
    ensures forall i :: 0 <= i < |r| ==> IsHexDigit(r[i])
    ensures |r| < |s| ==> !IsHexDigit(s[|r|])
  {
    if |s| == 0 || !IsHexDigit(s[0]) then [] else [s[0]] + LeadingHexDigits(s[1..])
  }

  function HexDigitsValue(s: string): nat
    requires forall i :: 0 <= i < |s| ==> IsHexDigit(s[i])
  {
    if |s| == 0 then 0 else HexDigitsValue(s[..|s| - 1]) * 16 + HexDigitValue(s[|s| - 1])
  }

  /** Whether the text after the sign carries JavaScript's hexadecimal prefix. */
  predicate HasHexPrefix(u: string) {
    2 <= |u| && u[0] == '0' && (u[1] == 'x' || u[1] == 'X')
  }

  /** Whether `parseInt` reads a minus sign after the white space. */
  predicate IsNegated(t: string) {
    0 < |t| && t[0] == '-'
  }

  function AfterSign(t: string): (u: string)
    ensures |u| <= |t|
  {
    if 0 < |t| && (t[0] == '-' || t[0] == '+') then t[1..] else t
  }

  /** The magnitude `parseInt` reads after the sign: hexadecimal after "0x" or "0X", decimal otherwise. */
  function ParseMagnitude(u: string): Option<nat> {
    if HasHexPrefix(u) then
      var h := LeadingHexDigits(u[2..]);
      if |h| == 0 then None else Some(HexDigitsValue(h))
    else
      var d := LeadingDigits(u);
      if |d| == 0 then None else Some(DigitsValue(d))
  }

  /** `parseInt(s)` with no radix; `None` is NaN. */
  function ParseInt(s: string): (n: Option<int>) {
    ParseSigned(SkipWhiteSpace(s))
  }

  /** What `parseInt` reads once the white space is gone: an optional sign and a magnitude. */
  function ParseSigned(t: string): (n: Option<int>) {
    match ParseMagnitude(AfterSign(t))
    case None => None
    case Some(v) => if IsNegated(t) then Some(-(v as int)) else Some(v)
  }

  /** After the sign, a string of decimal digits is read as its value. */
  lemma ParseMagnitudeOfDigits(d: string)
    requires 0 < |d| && AllDigits(d)
    ensures ParseMagnitude(d) == Some(DigitsValue(d))
  {
    assert !HasHexPrefix(d) by {
      if 2 <= |d| {
        assert IsDigit(d[1]);
      }
    }
    assert d + "" == d;
    LeadingDigitsOfConcat(d, "");
  }

  /** A string of decimal digits is read as its value. */
  lemma ParseIntOfDigits(d: string)
    requires 0 < |d| && AllDigits(d)
    ensures ParseInt(d) == Some(DigitsValue(d))
  {
    assert IsDigit(d[0]);
    assert SkipWhiteSpace(d) == d;
    assert AfterSign(d) == d && !IsNegated(d);
    ParseMagnitudeOfDigits(d);
  }

  /** A text that starts with a digit has no white space or sign to skip. */
  lemma ParseIntOfDigitFirst(t: string)
    requires 0 < |t| && IsDigit(t[0])
    ensures ParseInt(t) == ParseMagnitude(t)
  {
    assert SkipWhiteSpace(t) == t;
    assert AfterSign(t) == t && !IsNegated(t);
  }

  /** Digits followed by anything but a digit or a hexadecimal marker are read up to the first non-digit. */
  lemma ParseIntOfDigitsThen(d: string, u: string)
    requires 0 < |d| && AllDigits(d)
    requires |u| == 0 || (!IsDigit(u[0]) && u[0] != 'x' && u[0] != 'X')
    ensures ParseInt(d + u) == Some(DigitsValue(d))
  {
    var t := d + u;
    assert !HasHexPrefix(t) by {
      if 2 <= |d| {
        assert t[1] == d[1] && IsDigit(d[1]);
      } else if 2 <= |t| {
        assert t[1] == u[0];
      }
    }
    assert LeadingDigits(t) == d by {
      LeadingDigitsOfConcat(d, u);
    }
    assert t[0] == d[0] && IsDigit(t[0]);
    ParseIntOfDigitFirst(t);
  }

  /** Leading white space is skipped. */
  lemma ParseIntSkipsWhiteSpace(c: char, s: string)
    requires IsJsWhiteSpace(c)
    ensures ParseInt([c] + s) == ParseInt(s)
  {
    assert SkipWhiteSpace([c] + s) == SkipWhiteSpace(s) by {
      assert ([c] + s)[0] == c && ([c] + s)[1..] == s;
    }
  }

  /** A minus sign negates whatever magnitude follows it. */
  lemma MinusNegates(u: string, n: nat)
    requires ParseMagnitude(u) == Some(n)
    ensures ParseInt("-" + u) == Some(-(n as int))
  {
    var t := "-" + u;
    assert SkipWhiteSpace(t) == t;
    assert AfterSign(t) == u && IsNegated(t) by {
      assert t[1..] == u;
    }
  }

  /** A plus sign leaves whatever magnitude follows it unchanged. */
  lemma PlusKeeps(u: string, n: nat)
    requires ParseMagnitude(u) == Some(n)
    ensures ParseInt("+" + u) == Some(n)
  {
    var t := "+" + u;
    assert SkipWhiteSpace(t) == t;
    assert AfterSign(t) == u && !IsNegated(t) by {
      assert t[1..] == u;
    }
  }

  /** Two digits, with a leading zero below ten. */
  function TwoDigits(n: nat): (s: string)
    requires n < 100
    ensures |s| == 2 && AllDigits(s) && DigitsValue(s) == n
  {
    var s := [DigitChar(n / 10), DigitChar(n % 10)];
    assert s[..1] == [DigitChar(n / 10)] && s[..1][..0] == [];
    assert DigitsValue(s[..1]) == n / 10;
    s
  }

  /** Four digits, with leading zeros. */
  function FourDigits(n: nat): (s: string)
    requires n < 10000
    ensures |s| == 4 && AllDigits(s) && DigitsValue(s) == n
  {
    var s := TwoDigits(n / 100) + TwoDigits(n % 100);
    assert s[..3][..2] == TwoDigits(n / 100);
    assert s[..3] == TwoDigits(n / 100) + [s[2]];
    assert s[..3][..2] == s[..2];
    s
  }

  /**
    The year of a date option: a negative or unreadable year fails; a field at most two UTF-16 code
    units long (JavaScript's string length) means a year of the given century.
   */
  function ParseYear(yearStr: string, century: int): (r: Result<int, string>)
    ensures r.Err? <==> ParseInt(yearStr).None? || ParseInt(yearStr).value < 0
    ensures r.Err? ==> r.error == "Invalid year: " + yearStr
    ensures r.Ok? ==> r.value - (if Utf16Length(yearStr) <= 2 then century else 0) == ParseInt(yearStr).value
  {
    var year := ParseInt(yearStr);
    if year.None? || year.value < 0 then Err("Invalid year: " + yearStr)
    else if Utf16Length(yearStr) <= 2 then Ok(century + year.value)
    else Ok(year.value)
  }

  /** A year written with one or two digits is that many years into the century. */
  lemma ParseYearTwoDigits(t: string, century: int)
    requires 0 < |t| <= 2 && AllDigits(t)
    ensures ParseYear(t, century).Ok? && ParseYear(t, century).value == century + DigitsValue(t)
  {
    ParseIntOfDigits(t);
    Utf16LengthOfDigits(t);
  }

  /** A year written with three digits or more is itself, whatever the century. */
  lemma ParseYearFourDigits(t: string, century: int)
    requires 2 < |t| && AllDigits(t)
    ensures ParseYear(t, century).Ok? && ParseYear(t, century).value == DigitsValue(t)
  {
    ParseIntOfDigits(t);
    Utf16LengthOfDigits(t);
  }

  /**
    Digits followed by a character outside the Basic Multilingual Plane are at least three UTF-16 code
    units long, so `parseInt` reads the digits and the year is taken as written, not as a year of the century.
   */
  lemma ParseYearCountsCodeUnits(d: string, c: char, century: int)
    requires 0 < |d| && AllDigits(d) && 0x1_0000 <= c as int
    ensures ParseYear(d + [c], century) == Ok(DigitsValue(d))
  {
    var t := d + [c];
    ParseIntOfDigitsThen(d, [c]);
    assert Utf16Length(t) == |d| + 2 by {
      Utf16LengthOfConcat(d, [c]);
      Utf16LengthOfDigits(d);
      assert [c][1..] == [];
    }
  }

  /** The year a JavaScript `Date` built from year, month and day lands in: years 0 to 99 are read as 1900 to 1999. */
  function JsDateYear(year: int): int {
    if 0 <= year <= 99 then 1900 + year else year
  }

  /** 1 January 1970, where JavaScript time values start, as a civil day number. */
  const UnixEpochDay: int := 719162

  /** A JavaScript time value lies at most 8.64e15 milliseconds, that is 10^8 days, either side of the epoch (ECMAScript's TimeClip). */
  const MaxDateDays: int := 100000000

  /** Midnight UTC of civil day `n` is a time value a JavaScript `Date` can hold. */
  predicate InDateRange(n: int) {
    -MaxDateDays <= n - UnixEpochDay <= MaxDateDays
  }

  /** The epoch constant is the civil day number of 1970-01-01. */
  lemma UnixEpochDayIsNewYear1970()
    ensures Civil.DayNumber(1970, 1, 1) == UnixEpochDay
    ensures Civil.Jan1(1970) == UnixEpochDay
  {
  }

  /** The last day a `Date` can hold is 13 September 275760; the first is 20 April of year -271821. */
  lemma DateRangeEnds()
    ensures InDateRange(Civil.DayNumber(275760, 9, 13)) && !InDateRange(Civil.DayNumber(275760, 9, 14))
    ensures InDateRange(Civil.DayNumber(-271821, 4, 20)) && !InDateRange(Civil.DayNumber(-271821, 4, 19))
  {
  }

  /** Every day of a year up to 9999, as a `Date` reads it, is in range. */
  lemma FourDigitYearsInDateRange(year: int, month: int, day: int)
    requires 0 <= year <= 9999 && 1 <= month <= 12 && 1 <= day <= Civil.DaysInMonth(JsDateYear(year), month)
    ensures InDateRange(Civil.DayNumber(JsDateYear(year), month, day))
  {
    var y := JsDateYear(year);
    Civil.Jan1Increasing(1, y);
    Civil.Jan1Increasing(y + 1, 10000);
    Civil.Jan1Step(y);
    Civil.DaysBeforeMonthBound(y, month);
  }

  /** Every day of year 275761 or later is out of range. */
  lemma FarYearsOutOfDateRange(y: int, month: int, day: int)
    requires 275761 <= y && 1 <= month <= 12 && 1 <= day
    ensures !InDateRange(Civil.DayNumber(y, month, day))
  {
    Civil.Jan1Increasing(275761, y);
  }

  /** A command-line option or query parameter counts only when present and non-empty, as in a JavaScript condition. */
  predicate IsGiven(opt: Option<string>) {
    opt.Some? && opt.value != ""
  }

  const HijriFormatError: string := "Hijri date must be in YYYY-MM-DD or YY-MM-DD format"
  const DateFormatError: string := "Date must be in YYYY-MM-DD or YY-MM-DD format"

  /** `ParseInt` gave a number in `lo..hi`. */
  predicate InRange(n: Option<int>, lo: int, hi: int) {
    n.Some? && lo <= n.value <= hi
  }

  /** The `--hijri` branch: three parts, month 1 to 12, day 1 to 30, then the year (two digits mean 14YY). */
  function HijriFromArg(arg: string): (r: Result<DateSource, string>)
    ensures |Split(arg, '-')| != 3 ==> r == Err(HijriFormatError)
    ensures r.Ok? ==>
      && r.value.HijriInput?
      && 1 <= r.value.date.hijriMonth <= 12 && 1 <= r.value.date.hijriDay <= 30
      && ParseInt(Split(arg, '-')[1]) == Some(r.value.date.hijriMonth)
      && ParseInt(Split(arg, '-')[2]) == Some(r.value.date.hijriDay)
      && ParseYear(Split(arg, '-')[0], 1400) == Ok(r.value.date.hijriYear)
  {
    var parts := Split(arg, '-');
    if |parts| != 3 then Err(HijriFormatError)
    else
      var hijriMonth := ParseInt(parts[1]);
      var hijriDay := ParseInt(parts[2]);
      if !InRange(hijriMonth, 1, 12) then Err("Invalid Hijri month: " + parts[1] + ". Must be 1-12.")
      else if !InRange(hijriDay, 1, 30) then Err("Invalid Hijri day: " + parts[2] + ". Must be 1-30.")
      else
        match ParseYear(parts[0], 1400)
        case Err(e) => Err(e)
        case Ok(year) => Ok(HijriInput(IslamicAlignment.HijriDate(year, hijriMonth.value, hijriDay.value)))
  }

  /**
    The `--date` branch: three parts, the year (two digits mean 20YY), month 1 to 12, day 1 to 31,
    and the day must exist in that month of the year the `Date` lands in, within the range a `Date`
    can hold; otherwise the `Date` is invalid and its month is NaN, which fails the same check.
   */
  function GregorianFromArg(arg: string): (r: Result<DateSource, string>)
    ensures |Split(arg, '-')| != 3 ==> r == Err(DateFormatError)
    ensures r.Ok? ==>
      && r.value.GregorianInput?
      && 1 <= r.value.month <= 12
      && 1 <= r.value.day <= Civil.DaysInMonth(r.value.year, r.value.month)
      && InDateRange(Civil.DayNumber(r.value.year, r.value.month, r.value.day))
      && ParseInt(Split(arg, '-')[1]) == Some(r.value.month)
      && ParseInt(Split(arg, '-')[2]) == Some(r.value.day)
      && ParseYear(Split(arg, '-')[0], 2000).Ok?
      && r.value.year == JsDateYear(ParseYear(Split(arg, '-')[0], 2000).value)
  {
    var parts := Split(arg, '-');
    if |parts| != 3 then Err(DateFormatError)
    else
      match ParseYear(parts[0], 2000)
      case Err(e) => Err(e)
      case Ok(year) =>
        var month := ParseInt(parts[1]);
        var day := ParseInt(parts[2]);
        if !InRange(month, 1, 12) then Err("Invalid month: " + parts[1] + ". Must be 1-12.")
        else if !InRange(day, 1, 31) then Err("Invalid day: " + parts[2] + ". Must be 1-31.")
        else if day.value > Civil.DaysInMonth(JsDateYear(year), month.value)
             || !InDateRange(Civil.DayNumber(JsDateYear(year), month.value, day.value)) then
          Err("Invalid date: " + arg + ". Day " + NatToString(day.value) + " is not valid for month " + NatToString(month.value) + ".")
        else Ok(GregorianInput(JsDateYear(year), month.value, day.value))
  }

  /** `getAlignmentFromArgs`, up to the alignment itself (see `Alignment`). */
  function AlignmentFromArgs(date: Option<string>, hijri: Option<string>): (r: Result<DateSource, string>)
    ensures r == Ok(Today) <==> !IsGiven(hijri) && !IsGiven(date)
    ensures r.Ok? && r.value.HijriInput? ==> IsGiven(hijri)
    ensures r.Ok? && r.value.GregorianInput? ==> IsGiven(date) && !IsGiven(hijri)
  {
    if IsGiven(hijri) then HijriFromArg(hijri.value)
    else if IsGiven(date) then GregorianFromArg(date.value)
    else Ok(Today)
  }

  /** A `--hijri` option makes any `--date` option irrelevant. */
  lemma HijriTakesPrecedence(date1: Option<string>, date2: Option<string>, hijri: Option<string>)
    requires IsGiven(hijri)
    ensures AlignmentFromArgs(date1, hijri) == AlignmentFromArgs(date2, hijri)
  {
  }

  /** Calendar dates the sources can describe: a month in 1..12. */
  predicate WellFormed(src: DateSource) {
    src.GregorianInput? ==> 1 <= src.month <= 12
  }

  /** The alignment for a date source, `today` being the current instant (in days). */
  function Alignment(src: DateSource, today: real): (p: IslamicAlignment.AlignmentParams)
    requires WellFormed(src)
    ensures src.GregorianInput? ==> p == IslamicAlignment.AlignmentAt(Civil.DayNumber(src.year, src.month, src.day) as real)
    ensures src.HijriInput? ==> p.instant == IslamicAlignment.HijriInstant(src.date)
    ensures src.Today? ==> p == IslamicAlignment.AlignmentAt(today)
  {
    match src
    case HijriInput(h) => IslamicAlignment.GetAlignmentHeuristic(None, Some(h), today)
    case GregorianInput(y, m, d) => IslamicAlignment.GetAlignmentHeuristic(Some(Civil.DayNumber(y, m, d) as real), None, today)
    case Today => IslamicAlignment.GetAlignmentHeuristic(None, None, today)
  }

  // ---------------------------------------------------------------------------------------------
  // Round trips

  function DateText(y: string, m: string, d: string): string {
    y + "-" + m + "-" + d
  }

  /** A date written as digits and dashes splits back into its three fields. */
  lemma SplitDateText(y: string, m: string, d: string)
    requires AllDigits(y) && AllDigits(m) && AllDigits(d)
    ensures Split(DateText(y, m, d), '-') == [y, m, d]
  {
    var parts := [y, m, d];
    assert JoinWith(parts[2..], '-') == d;
    assert JoinWith(parts[1..], '-') == m + ['-'] + d;
    assert JoinWith(parts, '-') == DateText(y, m, d);
    forall k | 0 <= k < 3 ensures FreeOf(parts[k], '-') {
      assert AllDigits(parts[k]);
    }
    SplitJoinRoundTrip(parts, '-');
  }

  /** The `--hijri` branch on three readable fields. */
  lemma HijriFromFields(arg: string, y: string, m: string, d: string, year: int, month: int, day: int)
    requires Split(arg, '-') == [y, m, d]
    requires ParseInt(m) == Some(month) && ParseInt(d) == Some(day)
    requires 1 <= month <= 12 && 1 <= day <= 30
    requires ParseYear(y, 1400).Ok? && ParseYear(y, 1400).value == year
    ensures HijriFromArg(arg) == Ok(HijriInput(IslamicAlignment.HijriDate(year, month, day)))
  {
  }

  /** The `--hijri` branch on three readable fields, for a month or day out of range. */
  lemma HijriFromFieldsOutOfRange(arg: string, y: string, m: string, d: string, month: int, day: int)
    requires Split(arg, '-') == [y, m, d]
    requires ParseInt(m) == Some(month) && ParseInt(d) == Some(day)
    requires !(1 <= month <= 12 && 1 <= day <= 30)
    ensures HijriFromArg(arg).Err?
  {
  }

  /** The `--date` branch on three readable fields, for a day the month has in the year the `Date` lands in. */
  lemma GregorianFromFields(arg: string, y: string, m: string, d: string, year: int, month: int, day: int)
    requires Split(arg, '-') == [y, m, d]
    requires ParseInt(m) == Some(month) && ParseInt(d) == Some(day)
    requires 1 <= month <= 12 && 1 <= day <= Civil.DaysInMonth(JsDateYear(year), month)
    requires InDateRange(Civil.DayNumber(JsDateYear(year), month, day))
    requires ParseYear(y, 2000).Ok? && ParseYear(y, 2000).value == year
    ensures GregorianFromArg(arg) == Ok(GregorianInput(JsDateYear(year), month, day))
  {
  }

  /** The `--date` branch on three readable fields, for a day that exists but lies beyond what a `Date` can hold. */
  lemma GregorianFromFieldsOutOfRange(arg: string, y: string, m: string, d: string, year: int, month: int, day: int)
    requires Split(arg, '-') == [y, m, d]
    requires ParseInt(m) == Some(month) && ParseInt(d) == Some(day)
    requires 1 <= month <= 12 && 1 <= day <= Civil.DaysInMonth(JsDateYear(year), month)
    requires !InDateRange(Civil.DayNumber(JsDateYear(year), month, day))
    requires ParseYear(y, 2000).Ok? && ParseYear(y, 2000).value == year
    ensures GregorianFromArg(arg)
         == Err("Invalid date: " + arg + ". Day " + NatToString(day) + " is not valid for month " + NatToString(month) + ".")
  {
  }

  /** The `--date` branch on three readable fields, for a day up to 31 the month does not have. */
  lemma GregorianFromFieldsMissingDay(arg: string, y: string, m: string, d: string, year: int, month: int, day: int)
    requires Split(arg, '-') == [y, m, d]
    requires ParseInt(m) == Some(month) && ParseInt(d) == Some(day)
    requires 1 <= month <= 12 && Civil.DaysInMonth(JsDateYear(year), month) < day <= 31
    requires ParseYear(y, 2000).Ok? && ParseYear(y, 2000).value == year
    ensures GregorianFromArg(arg)
         == Err("Invalid date: " + arg + ". Day " + NatToString(day) + " is not valid for month " + NatToString(month) + ".")
  {
  }

  /** The digits of a valid Hijri date, given to `--hijri` with a four-digit year, are read back as that date. */
  lemma HijriArgRoundTrip(year: nat, month: nat, day: nat)
    requires year < 10000 && 1 <= month <= 12 && 1 <= day <= 30
    ensures HijriFromArg(DateText(FourDigits(year), TwoDigits(month), TwoDigits(day)))
         == Ok(HijriInput(IslamicAlignment.HijriDate(year, month, day)))
  {
    var arg := DateText(FourDigits(year), TwoDigits(month), TwoDigits(day));
    SplitDateText(FourDigits(year), TwoDigits(month), TwoDigits(day));
    ParseIntOfDigits(TwoDigits(month));
    ParseIntOfDigits(TwoDigits(day));
    ParseYearFourDigits(FourDigits(year), 1400);
    HijriFromFields(arg, FourDigits(year), TwoDigits(month), TwoDigits(day), year, month, day);
  }

  /** A two-digit year `YY` given to `--hijri` means 14YY. */
  lemma HijriArgShortYear(yy: nat, month: nat, day: nat)
    requires yy < 100 && 1 <= month <= 12 && 1 <= day <= 30
    ensures HijriFromArg(DateText(TwoDigits(yy), TwoDigits(month), TwoDigits(day)))
         == Ok(HijriInput(IslamicAlignment.HijriDate(1400 + yy, month, day)))
  {
    var y, m, d := TwoDigits(yy), TwoDigits(month), TwoDigits(day);
    var arg := DateText(y, m, d);
    assert Split(arg, '-') == [y, m, d] by {
      SplitDateText(y, m, d);
    }
    assert ParseInt(m) == Some(month) && ParseInt(d) == Some(day) by {
      ParseIntOfDigits(m);
      ParseIntOfDigits(d);
    }
    assert ParseYear(y, 1400).Ok? && ParseYear(y, 1400).value == 1400 + yy by {
      ParseYearTwoDigits(y, 1400);
    }
    HijriFromFields(arg, y, m, d, 1400 + yy, month, day);
  }

  /**
    The digits of a Gregorian date, given to `--date` with a four-digit year, are accepted exactly when
    the day exists in the year the `Date` lands in (years 0 to 99 being read as 1900 to 1999), and then
    read back as that date; otherwise the error names the day and the month.
   */
  lemma DateArgRoundTrip(year: nat, month: nat, day: nat)
    requires year < 10000 && 1 <= month <= 12 && 1 <= day <= 31
    ensures day <= Civil.DaysInMonth(JsDateYear(year), month) ==>
      GregorianFromArg(DateText(FourDigits(year), TwoDigits(month), TwoDigits(day)))
        == Ok(GregorianInput(JsDateYear(year), month, day))
    ensures Civil.DaysInMonth(JsDateYear(year), month) < day ==>
      GregorianFromArg(DateText(FourDigits(year), TwoDigits(month), TwoDigits(day)))
        == Err("Invalid date: " + DateText(FourDigits(year), TwoDigits(month), TwoDigits(day))
               + ". Day " + NatToString(day) + " is not valid for month " + NatToString(month) + ".")
  {
    var arg := DateText(FourDigits(year), TwoDigits(month), TwoDigits(day));
    SplitDateText(FourDigits(year), TwoDigits(month), TwoDigits(day));
    ParseIntOfDigits(TwoDigits(month));
    ParseIntOfDigits(TwoDigits(day));
    ParseYearFourDigits(FourDigits(year), 2000);
    if day <= Civil.DaysInMonth(JsDateYear(year), month) {
      FourDigitYearsInDateRange(year, month, day);
      GregorianFromFields(arg, FourDigits(year), TwoDigits(month), TwoDigits(day), year, month, day);
    } else {
      GregorianFromFieldsMissingDay(arg, FourDigits(year), TwoDigits(month), TwoDigits(day), year, month, day);
    }
  }

  /** A year of 275761 or later given to `--date` is refused as an invalid date, whatever the day. */
  lemma DateArgFarYear(year: nat, month: nat, day: nat)
    requires 275761 <= year && 1 <= month <= 12 && 1 <= day <= Civil.DaysInMonth(year, month)
    ensures GregorianFromArg(DateText(NatToString(year), TwoDigits(month), TwoDigits(day)))
         == Err("Invalid date: " + DateText(NatToString(year), TwoDigits(month), TwoDigits(day))
                + ". Day " + NatToString(day) + " is not valid for month " + NatToString(month) + ".")
  {
    var y, m, d := NatToString(year), TwoDigits(month), TwoDigits(day);
    var arg := DateText(y, m, d);
    assert Split(arg, '-') == [y, m, d] by {
      SplitDateText(y, m, d);
    }
    assert ParseInt(m) == Some(month) && ParseInt(d) == Some(day) by {
      ParseIntOfDigits(m);
      ParseIntOfDigits(d);
    }
    assert ParseYear(y, 2000) == Ok(year) by {
      assert y == NatToString(year / 10) + [DigitChar(year % 10)];
      assert 1 < |NatToString(year / 10)|;
      ParseYearFourDigits(y, 2000);
      NatToStringRoundTrip(year);
    }
    assert !InDateRange(Civil.DayNumber(JsDateYear(year), month, day)) by {
      FarYearsOutOfDateRange(year, month, day);
    }
    GregorianFromFieldsOutOfRange(arg, y, m, d, year, month, day);
  }

  /** A two-digit year `YY` given to `--date` means 20YY. */
  lemma DateArgShortYear(yy: nat, month: nat, day: nat)
    requires yy < 100 && 1 <= month <= 12 && 1 <= day <= Civil.DaysInMonth(2000 + yy, month)
    ensures GregorianFromArg(DateText(TwoDigits(yy), TwoDigits(month), TwoDigits(day)))
         == Ok(GregorianInput(2000 + yy, month, day))
  {
    var year := 2000 + yy;
    assert JsDateYear(year) == year;
    assert InDateRange(Civil.DayNumber(year, month, day)) by {
      FourDigitYearsInDateRange(year, month, day);
    }
    var y, m, d := TwoDigits(yy), TwoDigits(month), TwoDigits(day);
    var arg := DateText(y, m, d);
    assert Split(arg, '-') == [y, m, d] by {
      SplitDateText(y, m, d);
    }
    assert ParseInt(m) == Some(month) && ParseInt(d) == Some(day) by {
      ParseIntOfDigits(m);
      ParseIntOfDigits(d);
    }
    assert ParseYear(y, 2000).Ok? && ParseYear(y, 2000).value == year by {
      ParseYearTwoDigits(y, 2000);
    }
    GregorianFromFields(arg, y, m, d, year, month, day);
  }

  /** A date without three dash-separated parts is refused with the format message. */
  lemma MissingDayIsAFormatError(y: string, m: string)
    requires AllDigits(y) && AllDigits(m)
    ensures AlignmentFromArgs(Some(y + "-" + m), None) == Err(DateFormatError)
    ensures AlignmentFromArgs(None, Some(y + "-" + m)) == Err(HijriFormatError)
  {
    forall k | 0 <= k < 2 ensures FreeOf([y, m][k], '-') {
      assert AllDigits([y, m][k]);
    }
    assert JoinWith([y, m], '-') == y + "-" + m;
    SplitJoinRoundTrip([y, m], '-');
  }

  // ---------------------------------------------------------------------------------------------
  // Examples

  /** `--date 2026-02-05` is the fifth of February 2026, which falls in the eighth month of the wheel. */
  lemma DateOptionExample(arg: string)
    requires arg == "2026-02-05"
    ensures AlignmentFromArgs(Some(arg), None) == Ok(GregorianInput(2026, 2, 5))
  {
    assert GregorianFromArg(arg) == Ok(GregorianInput(2026, 2, 5)) by {
      assert arg == DateText(FourDigits(2026), TwoDigits(2), TwoDigits(5)) by {
        assert FourDigits(2026) == "2026" && TwoDigits(2) == "02" && TwoDigits(5) == "05";
      }
      assert Civil.DaysInMonth(JsDateYear(2026), 2) == 28;
      DateArgRoundTrip(2026, 2, 5);
    }
    assert IsGiven(Some(arg));
  }

  /** `--date 300000-01-01` names a day that exists, but one no `Date` can hold, so it is refused as an invalid date. */
  lemma FarDateExample(arg: string)
    requires arg == "300000-01-01"
    ensures AlignmentFromArgs(Some(arg), None) == Err("Invalid date: " + arg + ". Day 1 is not valid for month 1.")
  {
    assert arg == DateText(NatToString(300000), TwoDigits(1), TwoDigits(1)) by {
      assert NatToString(300000) == "300000";
      assert TwoDigits(1) == "01";
    }
    var message := "Invalid date: " + arg + ". Day " + NatToString(1) + " is not valid for month " + NatToString(1) + ".";
    assert GregorianFromArg(arg) == Err(message) by {
      DateArgFarYear(300000, 1, 1);
    }
    FirstOfJanuaryMessage(arg);
    assert IsGiven(Some(arg));
  }

  lemma FirstOfJanuaryMessage(arg: string)
    ensures "Invalid date: " + arg + ". Day " + NatToString(1) + " is not valid for month " + NatToString(1) + "."
         == "Invalid date: " + arg + ". Day 1 is not valid for month 1."
  {
    assert NatToString(1) == "1";
  }

  /** The alignment for that date does not depend on the clock. */
  lemma DateOptionAlignment(today: real)
    ensures Alignment(GregorianInput(2026, 2, 5), today).currentMonthIndex == 7
  {
    IslamicAlignment.FebruaryCases(Civil.DayNumber(2026, 2, 5) as real, Civil.DayNumber(2026, 2, 25) as real);
  }

  /** `--hijri 1447-08-17` is the seventeenth of Sha'ban 1447, whatever `--date` says. */
  lemma HijriOptionExample(arg: string, date: Option<string>)
    requires arg == "1447-08-17"
    ensures AlignmentFromArgs(date, Some(arg)) == Ok(HijriInput(IslamicAlignment.HijriDate(1447, 8, 17)))
  {
    assert HijriFromArg(arg) == Ok(HijriInput(IslamicAlignment.HijriDate(1447, 8, 17))) by {
      assert arg == DateText(FourDigits(1447), TwoDigits(8), TwoDigits(17)) by {
        assert FourDigits(1447) == "1447" && TwoDigits(8) == "08" && TwoDigits(17) == "17";
      }
      HijriArgRoundTrip(1447, 8, 17);
    }
    assert IsGiven(Some(arg));
  }

  /** The alignment for that date puts the wheel in Sha'ban 1447. */
  lemma HijriOptionAlignment()
    ensures Alignment(HijriInput(IslamicAlignment.HijriDate(1447, 8, 17)), 0.0).hijriMonth == 8
    ensures Alignment(HijriInput(IslamicAlignment.HijriDate(1447, 8, 17)), 0.0).hijriYear == 1447
  {
    IslamicAlignment.HijriInputCase();
  }

  /** `--date 2026-02` and `--hijri 1447-08` lack a day and are refused before any number is read. */
  lemma MonthOnlyExample(a: string, b: string)
    requires a == "2026-02" && b == "1447-08"
    ensures AlignmentFromArgs(Some(a), None) == Err(DateFormatError)
    ensures AlignmentFromArgs(None, Some(b)) == Err(HijriFormatError)
  {
    MissingDayIsAFormatError("2026", "02");
    MissingDayIsAFormatError("1447", "08");
    assert a == "2026" + "-" + "02" && b == "1447" + "-" + "08";
  }
}
