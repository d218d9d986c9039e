/**
  The web application's PDF endpoint (`GET /api/generate` in app/src/app/api/generate/route.ts), up to
  the choice of date source: the `gregorian` and `hijri` query parameters, each `YYYY-MM-DD`.

  A date string must have exactly four digits, a dash, two digits, a dash and two digits; the month
  must be 1 to 12 and the day 1 to 31, and the day must exist in that month of the year a UTC `Date`
  lands in (`Date.UTC` reads years 0 to 99 as 1900 to 1999). Either parameter longer than twenty
  UTF-16 code units is refused before it is parsed; a Hijri date wins over a Gregorian one; with
  neither, the calendar is aligned to today.

  As written, the Hijri parameter goes through the same Gregorian check, so Hijri dates are held to
  Gregorian month lengths. `RouteSource` takes the Hijri parser as a parameter so that both the route
  as written and the corrected route (month 1 to 12, day 1 to 30, as the command line has it) are
  the same function.
 */
module GenerateRoute {
  import opened Wrappers
  import opened Text
  import Civil
  import IslamicAlignment
  import CliArgs

  /** The longest query parameter the route parses. */
  const MaxParamLength: nat := 20

  const GregorianFormatError: string := "Invalid gregorian date format. Use YYYY-MM-DD."
  const HijriFormatError: string := "Invalid hijri date format. Use YYYY-MM-DD."

  /** The three numbers of a parsed date string, in no particular calendar. */
  datatype YearMonthDay = YearMonthDay(year: int, month: int, day: int)

  /** `/^(\d{4})-(\d{2})-(\d{2})$/`: the year, month and day fields in fixed positions. */
  predicate IsDateShape(s: string) {
    && |s| == 10
    && AllDigits(s[..4]) && s[4] == '-'
    && AllDigits(s[5..7]) && s[7] == '-'
    && AllDigits(s[8..])
  }

  /** The fields of a string of date shape, read as decimal numbers (`parseInt(field, 10)`). */
  function Fields(s: string): (f: YearMonthDay)
    requires IsDateShape(s)
    ensures 0 <= f.year < 10000 && 0 <= f.month < 100 && 0 <= f.day < 100
  {
    FieldBound(s[..4]);
    FieldBound(s[5..7]);
    FieldBound(s[8..]);
    YearMonthDay(DigitsValue(s[..4]), DigitsValue(s[5..7]), DigitsValue(s[8..]))
  }

  /** A string of `n` digits is worth less than ten to the `n`. */
  lemma {:induction false} FieldBound(t: string)
    requires AllDigits(t)
    ensures |t| == 2 ==> DigitsValue(t) < 100
    ensures |t| == 4 ==> DigitsValue(t) < 10000
    ensures DigitsValue(t) < Pow10(|t|)
  {
    if 0 < |t| {
      assert AllDigits(t[..|t| - 1]);
      FieldBound(t[..|t| - 1]);
    }
  }

  function Pow10(n: nat): (p: nat)
    ensures 0 < p
  {
    if n == 0 then 1 else 10 * Pow10(n - 1)
  }

  /**
    `parseDateString`: a string of date shape whose month is 1 to 12 and whose day is 1 to 31 and
    exists in that month. A UTC `Date` built from such fields keeps its month and day exactly when
    the day is no later than the month's last, since a later day rolls over into the next month.
   */
  function ParseDateString(s: string): (r: Option<YearMonthDay>)
    ensures r.Some? <==>
      && IsDateShape(s)
      && 1 <= Fields(s).month <= 12
      && 1 <= Fields(s).day <= Civil.DaysInMonth(CliArgs.JsDateYear(Fields(s).year), Fields(s).month)
    ensures r.Some? ==> r.value == Fields(s)
  {
    if !IsDateShape(s) then None
    else
      var f := Fields(s);
      if f.month < 1 || f.month > 12 then None
      else if f.day < 1 || f.day > 31 then None
      else if f.day > Civil.DaysInMonth(CliArgs.JsDateYear(f.year), f.month) then None
      else Some(f)
  }

  /** The corrected Hijri parser: a string of date shape, month 1 to 12, day 1 to 30. */
  function ParseHijriDateString(s: string): (r: Option<YearMonthDay>)
    ensures r.Some? <==> IsDateShape(s) && 1 <= Fields(s).month <= 12 && 1 <= Fields(s).day <= 30
    ensures r.Some? ==> r.value == Fields(s)
  {
    if !IsDateShape(s) then None
    else
      var f := Fields(s);
      if f.month < 1 || f.month > 12 || f.day < 1 || f.day > 30 then None
      else Some(f)
  }

  /** The date source of the request, with the Hijri parameter read by `parseHijri`. */
  function RouteSource(
    gregorian: Option<string>, hijri: Option<string>, parseHijri: string -> Option<YearMonthDay>)
    : (r: Result<CliArgs.DateSource, string>)
    ensures CliArgs.IsGiven(gregorian) && Utf16Length(gregorian.value) > MaxParamLength ==>
      r == Err(GregorianFormatError)
    ensures (&& !(CliArgs.IsGiven(gregorian) && Utf16Length(gregorian.value) > MaxParamLength)
             && CliArgs.IsGiven(hijri) && Utf16Length(hijri.value) > MaxParamLength) ==>
      r == Err(HijriFormatError)
    ensures r.Ok? ==>
      && (CliArgs.IsGiven(gregorian) ==> Utf16Length(gregorian.value) <= MaxParamLength)
      && (CliArgs.IsGiven(hijri) ==> Utf16Length(hijri.value) <= MaxParamLength)
    ensures r.Err? ==> r.error == GregorianFormatError || r.error == HijriFormatError
    ensures r == Ok(CliArgs.Today) <==> !CliArgs.IsGiven(gregorian) && !CliArgs.IsGiven(hijri)
    ensures r.Ok? && r.value.HijriInput? ==> CliArgs.IsGiven(hijri)
    ensures r.Ok? && r.value.GregorianInput? ==> CliArgs.IsGiven(gregorian) && !CliArgs.IsGiven(hijri)
  {
    if CliArgs.IsGiven(gregorian) && Utf16Length(gregorian.value) > MaxParamLength then
      Err(GregorianFormatError)
    else if CliArgs.IsGiven(hijri) && Utf16Length(hijri.value) > MaxParamLength then
      Err(HijriFormatError)
    else if CliArgs.IsGiven(hijri) then
      match parseHijri(hijri.value)
      case None => Err(HijriFormatError)
      case Some(p) => Ok(CliArgs.HijriInput(IslamicAlignment.HijriDate(p.year, p.month, p.day)))
    else if CliArgs.IsGiven(gregorian) then
      match ParseDateString(gregorian.value)
      case None => Err(GregorianFormatError)
      case Some(p) => Ok(CliArgs.GregorianInput(CliArgs.JsDateYear(p.year), p.month, p.day))
    else Ok(CliArgs.Today)
  }

  /** The route as written: the Hijri parameter goes through `ParseDateString`. */
  function RouteSourceAsWritten(gregorian: Option<string>, hijri: Option<string>): (r: Result<CliArgs.DateSource, string>)
    ensures r.Ok? && r.value.HijriInput? ==>
      var d := r.value.date;
      1 <= d.hijriMonth <= 12 && 1 <= d.hijriDay <= Civil.DaysInMonth(CliArgs.JsDateYear(d.hijriYear), d.hijriMonth)
  {
    RouteSource(gregorian, hijri, ParseDateString)
  }

  /** The corrected route: the Hijri parameter goes through `ParseHijriDateString`. */
  function GenerateSource(gregorian: Option<string>, hijri: Option<string>): (r: Result<CliArgs.DateSource, string>)
    ensures r.Ok? && r.value.HijriInput? ==> 1 <= r.value.date.hijriMonth <= 12 && 1 <= r.value.date.hijriDay <= 30
  {
    RouteSource(gregorian, hijri, ParseHijriDateString)
  }

  // ---------------------------------------------------------------------------------------------
  // The shape of a date string

  /** A digit's character is the digit itself. */
  lemma DigitCharOfValue(c: char)
    requires IsDigit(c)
    ensures DigitChar(DigitValue(c)) == c
  {
  }

  /** Two digits are the two-digit spelling of their value. */
  lemma TwoDigitsOfValue(t: string)
    requires |t| == 2 && AllDigits(t)
    ensures DigitsValue(t) < 100 && CliArgs.TwoDigits(DigitsValue(t)) == t
  {
    assert t[..1] == [t[0]];
    assert DigitsValue(t[..1]) == DigitValue(t[0]) by {
      assert t[..1][..0] == [];
    }
    assert DigitsValue(t) == DigitValue(t[0]) * 10 + DigitValue(t[1]);
    DigitCharOfValue(t[0]);
    DigitCharOfValue(t[1]);
  }

  /** Four digits are the four-digit spelling of their value. */
  lemma FourDigitsOfValue(t: string)
    requires |t| == 4 && AllDigits(t)
    ensures DigitsValue(t) < 10000 && CliArgs.FourDigits(DigitsValue(t)) == t
  {
    var hi, lo := t[..2], t[2..];
    assert t == hi + lo;
    assert AllDigits(hi) && AllDigits(lo);
    DigitsValueOfConcat(hi, lo);
    FieldBound(lo);
    assert DigitsValue(t) / 100 == DigitsValue(hi) && DigitsValue(t) % 100 == DigitsValue(lo);
    TwoDigitsOfValue(hi);
    TwoDigitsOfValue(lo);
  }

  /** Two digits appended to a digit string shift its value by two places. */
  lemma DigitsValueOfConcat(hi: string, lo: string)
    requires AllDigits(hi) && |lo| == 2 && AllDigits(lo)
    ensures AllDigits(hi + lo) && DigitsValue(hi + lo) == DigitsValue(hi) * 100 + DigitsValue(lo)
  {
    var t := hi + lo;
    var u := hi + [lo[0]];
    assert t[..|t| - 1] == u && t[|t| - 1] == lo[1];
    assert u[..|u| - 1] == hi && u[|u| - 1] == lo[0];
    assert DigitsValue(u) == DigitsValue(hi) * 10 + DigitValue(lo[0]);
    assert lo[..1] == [lo[0]];
    assert DigitsValue(lo[..1]) == DigitValue(lo[0]) by {
      assert lo[..1][..0] == [];
    }
    assert DigitsValue(lo) == DigitValue(lo[0]) * 10 + DigitValue(lo[1]);
    assert DigitsValue(t) == DigitsValue(u) * 10 + DigitValue(lo[1]);
  }

  /** Three fields of four, two and two digits make a string of date shape, and back. */
  lemma ShapeOfDateText(y: string, m: string, d: string)
    requires |y| == 4 && |m| == 2 && |d| == 2
    requires AllDigits(y) && AllDigits(m) && AllDigits(d)
    ensures IsDateShape(CliArgs.DateText(y, m, d))
    ensures Fields(CliArgs.DateText(y, m, d)) == YearMonthDay(DigitsValue(y), DigitsValue(m), DigitsValue(d))
  {
    var s := CliArgs.DateText(y, m, d);
    assert s[..4] == y && s[5..7] == m && s[8..] == d;
  }

  /** A string of date shape is its three fields joined by dashes. */
  lemma DateTextOfShape(s: string)
    requires IsDateShape(s)
    ensures s == CliArgs.DateText(s[..4], s[5..7], s[8..])
  {
    var t := CliArgs.DateText(s[..4], s[5..7], s[8..]);
    assert |t| == |s|;
    forall i | 0 <= i < |s| ensures t[i] == s[i] {
      if i < 4 {
      } else if i == 4 {
      } else if i < 7 {
      } else if i == 7 {
      } else {
      }
    }
  }

  // ---------------------------------------------------------------------------------------------
  // parseDateString

  /**
    The four-digit year, two-digit month and two-digit day of a date are accepted exactly when the
    month is 1 to 12 and the day exists in that month of the year the UTC `Date` lands in, and are
    then read back as that date.
   */
  lemma ParseDateStringRoundTrip(year: nat, month: nat, day: nat)
    requires year < 10000 && month < 100 && day < 100
    ensures ParseDateString(CliArgs.DateText(CliArgs.FourDigits(year), CliArgs.TwoDigits(month), CliArgs.TwoDigits(day)))
         == if 1 <= month <= 12 && 1 <= day <= Civil.DaysInMonth(CliArgs.JsDateYear(year), month)
            then Some(YearMonthDay(year, month, day)) else None
  {
    ShapeOfDateText(CliArgs.FourDigits(year), CliArgs.TwoDigits(month), CliArgs.TwoDigits(day));
  }

  /** An accepted date string is the one canonical spelling of the date it is read as. */
  lemma ParseDateStringCanonical(s: string)
    requires ParseDateString(s).Some?
    ensures var v := ParseDateString(s).value;
      s == CliArgs.DateText(CliArgs.FourDigits(v.year), CliArgs.TwoDigits(v.month), CliArgs.TwoDigits(v.day))
  {
    DateTextOfShape(s);
    FourDigitsOfValue(s[..4]);
    TwoDigitsOfValue(s[5..7]);
    TwoDigitsOfValue(s[8..]);
  }

  /**
    Year 0 is a leap year of the proleptic Gregorian calendar, but `Date.UTC` reads it as 1900, so
    the twenty-ninth of February of year 0 is refused.
   */
  lemma YearZeroIsReadAs1900(s: string)
    requires s == "0000-02-29"
    ensures Civil.IsLeap(0) && ParseDateString(s) == None
  {
    assert IsDateShape(s) && Fields(s) == YearMonthDay(0, 2, 29) by {
      assert s == CliArgs.DateText(CliArgs.FourDigits(0), CliArgs.TwoDigits(2), CliArgs.TwoDigits(29)) by {
        assert CliArgs.FourDigits(0) == "0000" && CliArgs.TwoDigits(2) == "02" && CliArgs.TwoDigits(29) == "29";
      }
      ShapeOfDateText(CliArgs.FourDigits(0), CliArgs.TwoDigits(2), CliArgs.TwoDigits(29));
    }
    assert Civil.DaysInMonth(CliArgs.JsDateYear(0), 2) == 28;
  }

  /** The twenty-ninth of February 2000, a leap year, is accepted. */
  lemma LeapDay2000Accepted(s: string)
    requires s == "2000-02-29"
    ensures ParseDateString(s) == Some(YearMonthDay(2000, 2, 29))
  {
    assert IsDateShape(s) && Fields(s) == YearMonthDay(2000, 2, 29) by {
      assert s == CliArgs.DateText(CliArgs.FourDigits(2000), CliArgs.TwoDigits(2), CliArgs.TwoDigits(29)) by {
        assert CliArgs.FourDigits(2000) == "2000" && CliArgs.TwoDigits(2) == "02" && CliArgs.TwoDigits(29) == "29";
      }
      ShapeOfDateText(CliArgs.FourDigits(2000), CliArgs.TwoDigits(2), CliArgs.TwoDigits(29));
    }
    assert Civil.DaysInMonth(CliArgs.JsDateYear(2000), 2) == 29;
  }

  // ---------------------------------------------------------------------------------------------
  // The route against the command line

  /** What the command line's parser reads from a string of date shape: the same three fields. */
  lemma CliFieldsOfShape(s: string, century: int)
    requires IsDateShape(s)
    ensures Split(s, '-') == [s[..4], s[5..7], s[8..]]
    ensures CliArgs.ParseInt(s[5..7]) == Some(Fields(s).month)
    ensures CliArgs.ParseInt(s[8..]) == Some(Fields(s).day)
    ensures CliArgs.ParseYear(s[..4], century).Ok? && CliArgs.ParseYear(s[..4], century).value == Fields(s).year
  {
    DateTextOfShape(s);
    CliArgs.SplitDateText(s[..4], s[5..7], s[8..]);
    CliArgs.ParseIntOfDigits(s[5..7]);
    CliArgs.ParseIntOfDigits(s[8..]);
    CliArgs.ParseYearFourDigits(s[..4], century);
  }

  /** A parameter of date shape is short enough and counts as given. */
  lemma ShapeIsGivenAndShort(s: string)
    requires IsDateShape(s)
    ensures CliArgs.IsGiven(Some(s)) && Utf16Length(s) <= MaxParamLength
  {
  }

  /** The command line's `--date` on a string of date shape: accepted exactly when `parseDateString` accepts it. */
  lemma CliDateOfShape(s: string)
    requires IsDateShape(s)
    ensures CliArgs.GregorianFromArg(s).Ok? <==> ParseDateString(s).Some?
    ensures CliArgs.GregorianFromArg(s).Ok? ==>
      CliArgs.GregorianFromArg(s).value == CliArgs.GregorianInput(CliArgs.JsDateYear(Fields(s).year), Fields(s).month, Fields(s).day)
  {
    var f := Fields(s);
    CliFieldsOfShape(s, 2000);
    if !(1 <= f.month <= 12 && 1 <= f.day <= 31) {
      assert CliArgs.GregorianFromArg(s).Err?;
    } else if f.day <= Civil.DaysInMonth(CliArgs.JsDateYear(f.year), f.month) {
      CliArgs.FourDigitYearsInDateRange(f.year, f.month, f.day);
      CliArgs.GregorianFromFields(s, s[..4], s[5..7], s[8..], f.year, f.month, f.day);
    } else {
      CliArgs.GregorianFromFieldsMissingDay(s, s[..4], s[5..7], s[8..], f.year, f.month, f.day);
    }
  }

  /** The command line's `--hijri` on a string of date shape: accepted exactly when the corrected parser accepts it. */
  lemma CliHijriOfShape(s: string)
    requires IsDateShape(s)
    ensures CliArgs.HijriFromArg(s).Ok? <==> ParseHijriDateString(s).Some?
    ensures CliArgs.HijriFromArg(s).Ok? ==>
      CliArgs.HijriFromArg(s).value == CliArgs.HijriInput(IslamicAlignment.HijriDate(Fields(s).year, Fields(s).month, Fields(s).day))
  {
    var f := Fields(s);
    CliFieldsOfShape(s, 1400);
    if 1 <= f.month <= 12 && 1 <= f.day <= 30 {
      CliArgs.HijriFromFields(s, s[..4], s[5..7], s[8..], f.year, f.month, f.day);
    } else {
      CliArgs.HijriFromFieldsOutOfRange(s, s[..4], s[5..7], s[8..], f.month, f.day);
    }
  }

  /**
    On a string of date shape the route's Gregorian parameter and the command line's `--date`
    accept the same strings and read them as the same date.
   */
  lemma GregorianRouteAgreesWithCli(s: string)
    requires IsDateShape(s)
    ensures RouteSourceAsWritten(Some(s), None).Ok? <==> CliArgs.AlignmentFromArgs(Some(s), None).Ok?
    ensures RouteSourceAsWritten(Some(s), None).Ok? ==>
      RouteSourceAsWritten(Some(s), None).value == CliArgs.AlignmentFromArgs(Some(s), None).value
  {
    ShapeIsGivenAndShort(s);
    CliDateOfShape(s);
    assert CliArgs.AlignmentFromArgs(Some(s), None) == CliArgs.GregorianFromArg(s);
  }

  /**
    On a string of date shape the corrected route's Hijri parameter and the command line's `--hijri`
    accept the same strings and read them as the same date.
   */
  lemma HijriRouteAgreesWithCli(s: string)
    requires IsDateShape(s)
    ensures GenerateSource(None, Some(s)).Ok? <==> CliArgs.AlignmentFromArgs(None, Some(s)).Ok?
    ensures GenerateSource(None, Some(s)).Ok? ==>
      GenerateSource(None, Some(s)).value == CliArgs.AlignmentFromArgs(None, Some(s)).value
  {
    ShapeIsGivenAndShort(s);
    CliHijriOfShape(s);
    assert CliArgs.AlignmentFromArgs(None, Some(s)) == CliArgs.HijriFromArg(s);
  }

  /** Once a Hijri parameter is given and both parameters are short enough, the Gregorian one is ignored. */
  lemma RouteHijriTakesPrecedence(
    g1: Option<string>, g2: Option<string>, hijri: Option<string>, parseHijri: string -> Option<YearMonthDay>)
    requires CliArgs.IsGiven(hijri)
    requires CliArgs.IsGiven(g1) ==> Utf16Length(g1.value) <= MaxParamLength
    requires CliArgs.IsGiven(g2) ==> Utf16Length(g2.value) <= MaxParamLength
    ensures RouteSource(g1, hijri, parseHijri) == RouteSource(g2, hijri, parseHijri)
  {
  }

  // ---------------------------------------------------------------------------------------------
  // Hijri dates held to Gregorian month lengths

  /** A Hijri parameter of date shape in the route as written: accepted exactly when `parseDateString` accepts it. */
  lemma RouteHijriAsWrittenOfShape(s: string)
    requires IsDateShape(s)
    ensures ParseDateString(s).None? ==> RouteSourceAsWritten(None, Some(s)) == Err(HijriFormatError)
    ensures ParseDateString(s).Some? ==>
      RouteSourceAsWritten(None, Some(s)) == Ok(CliArgs.HijriInput(IslamicAlignment.HijriDate(Fields(s).year, Fields(s).month, Fields(s).day)))
  {
    ShapeIsGivenAndShort(s);
  }

  /** The corrected route on a Hijri parameter of date shape. */
  lemma RouteHijriOfShape(s: string)
    requires IsDateShape(s)
    ensures ParseHijriDateString(s).None? ==> GenerateSource(None, Some(s)) == Err(HijriFormatError)
    ensures ParseHijriDateString(s).Some? ==>
      GenerateSource(None, Some(s)) == Ok(CliArgs.HijriInput(IslamicAlignment.HijriDate(Fields(s).year, Fields(s).month, Fields(s).day)))
  {
    ShapeIsGivenAndShort(s);
  }

  /** The fields of "1447-02-30". */
  lemma FieldsOfSafar30(s: string)
    requires s == "1447-02-30"
    ensures IsDateShape(s) && Fields(s) == YearMonthDay(1447, 2, 30)
  {
    assert s == CliArgs.DateText(CliArgs.FourDigits(1447), CliArgs.TwoDigits(2), CliArgs.TwoDigits(30)) by {
      assert CliArgs.FourDigits(1447) == "1447" by {
        assert CliArgs.TwoDigits(14) == "14" && CliArgs.TwoDigits(47) == "47";
      }
      assert CliArgs.TwoDigits(2) == "02" && CliArgs.TwoDigits(30) == "30";
    }
    ShapeOfDateText(CliArgs.FourDigits(1447), CliArgs.TwoDigits(2), CliArgs.TwoDigits(30));
  }

  /** The fields of "1447-01-31". */
  lemma FieldsOfMuharram31(s: string)
    requires s == "1447-01-31"
    ensures IsDateShape(s) && Fields(s) == YearMonthDay(1447, 1, 31)
  {
    assert s == CliArgs.DateText(CliArgs.FourDigits(1447), CliArgs.TwoDigits(1), CliArgs.TwoDigits(31)) by {
      assert CliArgs.FourDigits(1447) == "1447" by {
        assert CliArgs.TwoDigits(14) == "14" && CliArgs.TwoDigits(47) == "47";
      }
      assert CliArgs.TwoDigits(1) == "01" && CliArgs.TwoDigits(31) == "31";
    }
    ShapeOfDateText(CliArgs.FourDigits(1447), CliArgs.TwoDigits(1), CliArgs.TwoDigits(31));
  }

  /**
    The thirtieth of Safar 1447 is refused by the route as written, because February of the
    Gregorian year 1447 has 28 days.
   */
  lemma HijriThirtiethOfSafarRefused(s: string)
    requires s == "1447-02-30"
    ensures RouteSourceAsWritten(None, Some(s)) == Err(HijriFormatError)
  {
    FieldsOfSafar30(s);
    assert Civil.DaysInMonth(CliArgs.JsDateYear(1447), 2) == 28;
    RouteHijriAsWrittenOfShape(s);
  }

  /** The command line and the corrected route accept the thirtieth of Safar 1447. */
  lemma HijriThirtiethOfSafarAccepted(s: string)
    requires s == "1447-02-30"
    ensures CliArgs.AlignmentFromArgs(None, Some(s)) == Ok(CliArgs.HijriInput(IslamicAlignment.HijriDate(1447, 2, 30)))
    ensures GenerateSource(None, Some(s)) == Ok(CliArgs.HijriInput(IslamicAlignment.HijriDate(1447, 2, 30)))
  {
    FieldsOfSafar30(s);
    RouteHijriOfShape(s);
    HijriRouteAgreesWithCli(s);
  }

  /**
    The thirty-first of Muharram 1447, a day no Hijri month has, is accepted by the route as written,
    because January has 31 days.
   */
  lemma HijriThirtyFirstAccepted(s: string)
    requires s == "1447-01-31"
    ensures RouteSourceAsWritten(None, Some(s)) == Ok(CliArgs.HijriInput(IslamicAlignment.HijriDate(1447, 1, 31)))
  {
    FieldsOfMuharram31(s);
    assert Civil.DaysInMonth(CliArgs.JsDateYear(1447), 1) == 31;
    RouteHijriAsWrittenOfShape(s);
  }

  /** The command line and the corrected route refuse the thirty-first of Muharram 1447. */
  lemma HijriThirtyFirstRefused(s: string)
    requires s == "1447-01-31"
    ensures CliArgs.AlignmentFromArgs(None, Some(s)).Err?
    ensures GenerateSource(None, Some(s)) == Err(HijriFormatError)
  {
    FieldsOfMuharram31(s);
    RouteHijriOfShape(s);
    HijriRouteAgreesWithCli(s);
  }
}
