/**
  The calendar's fixed data (node/src/lib/calendar-data.ts): the Gregorian and Hijri month tables,
  the two colour palettes they use, and the per-month rendering settings (`MonthInstance`).
 */
module CalendarData {
  import Civil

  /**
    A month of a year table. Each entry of `numDays` is drawn as a separate month with that many
    days; every shipped table has exactly one entry per month.
   */
  datatype Month = Month(number: int, name: string, numDays: seq<nat>, color: string)

  /** The rendering settings a month instance adds to a month. */
  datatype MonthSettings = MonthSettings(
    nameUpsideDown: bool, dateOnTop: bool, dateBoxHeight: real,
    innerRadius: real, outerRadius: real, dateAngleOffset: real)

  /** One month ready to be drawn. */
  datatype MonthInstance = MonthInstance(
    name: string, numDays: nat, color: string,
    nameUpsideDown: bool, dateOnTop: bool, dateBoxHeight: real,
    innerRadius: real, outerRadius: real, dateAngleOffset: real)

  /** The palette of the Gregorian ring, January first. */
  const ColorWheelClassic: seq<string> := [
    "#aebbff", "#9ce3ff", "#a1fec5", "#caff8b", "#fdff92", "#fef087",
    "#ffdb8d", "#ffc08d", "#ffa290", "#ff90c0", "#feabf1", "#caa8fe"]

  /** The palette of the Hijri ring, Muharram first. */
  const ColorHarmony: seq<string> := [
    "#FF9CB1", "#FFB99C", "#FFEA9C", "#E3FF9C", "#B1FF9C", "#9CFFB8",
    "#9CFFEA", "#9CE3FF", "#9CB2FF", "#B89CFF", "#EA9CFF", "#FF9CE3"]

  const SolarColors: seq<string> := ColorWheelClassic
  const IslamicColors: seq<string> := ColorHarmony

  const SolarMonthNames: seq<string> := [
    "January", "February", "March", "April", "May", "June",
    "July", "August", "September", "October", "November", "December"]

  /** Days per Gregorian month; February has 29, as in a leap year. */
  const SolarMonthDays: seq<nat> := [31, 29, 31, 30, 31, 30, 31, 31, 30, 31, 30, 31]

  const IslamicMonthNames: seq<string> := [
    "Muharram", "Safar", "Rabi al-Awwal", "Rabi ath-Thani", "Jumada al-Awwal", "Jumada ath-Thani",
    "Rajab", "Sha'baan", "Ramadan", "Shawwal", "Dhu al-Qa'dah", "Dhu al-Hijja"]

  function SumNat(s: seq<nat>): nat {
    if |s| == 0 then 0 else s[0] + SumNat(s[1..])
  }

  /** The total of two lists put together is the sum of their totals. */
  lemma {:induction false} SumNatAppend(a: seq<nat>, b: seq<nat>)
    ensures SumNat(a + b) == SumNat(a) + SumNat(b)
  {
    if |a| == 0 {
      assert a + b == b;
    } else {
      assert (a + b)[1..] == a[1..] + b;
      SumNatAppend(a[1..], b);
    }
  }

  /** A constant sequence sums to its length times the constant. */
  lemma {:induction false} SumNatConstant(s: seq<nat>, d: nat)
    requires forall i :: 0 <= i < |s| ==> s[i] == d
    ensures SumNat(s) == |s| * d
  {
    if |s| > 0 {
      SumNatConstant(s[1..], d);
    }
  }

  lemma SolarMonthDaysTotal()
    ensures SumNat(SolarMonthDays) == 366
  {
    var s := SolarMonthDays;
    SumNatAppend(s[..6], s[6..]);
    assert s[..6] == [31, 29, 31] + [30, 31, 30];
    assert s[6..] == [31, 31, 30] + [31, 30, 31];
    SumNatAppend([31, 29, 31], [30, 31, 30]);
    SumNatAppend([31, 31, 30], [31, 30, 31]);
  }

  /** Days drawn for a list of months: every entry of every month's `numDays`. */
  function TotalDays(ms: seq<Month>): nat {
    if |ms| == 0 then 0 else SumNat(ms[0].numDays) + TotalDays(ms[1..])
  }

  /** A table with one entry per month totals the sum of those entries. */
  lemma {:induction false} TotalDaysOfSingles(ms: seq<Month>, days: seq<nat>)
    requires |ms| == |days|
    requires forall i :: 0 <= i < |ms| ==> ms[i].numDays == [days[i]]
    ensures TotalDays(ms) == SumNat(days)
  {
    if |ms| > 0 {
      assert SumNat(ms[0].numDays) == days[0] by {
        assert ms[0].numDays[1..] == [];
      }
      TotalDaysOfSingles(ms[1..], days[1..]);
    }
  }

  /** The Gregorian year of a leap year: twelve months numbered 1..12, coloured from the classic wheel, 366 days. */
  function SolarYear(): (ms: seq<Month>)
    ensures |ms| == 12
    ensures forall i :: 0 <= i < 12 ==>
      ms[i].number == i + 1 && ms[i].name == SolarMonthNames[i]
      && ms[i].numDays == [SolarMonthDays[i]] && ms[i].color == SolarColors[i]
    ensures TotalDays(ms) == 366
  {
    var ms := seq(12, i requires 0 <= i < 12 =>
      Month(i + 1, SolarMonthNames[i], [SolarMonthDays[i]], SolarColors[i]));
    TotalDaysOfSingles(ms, SolarMonthDays);
    SolarMonthDaysTotal();
    ms
  }

  /** The Gregorian table's day counts are those of a leap year's months. */
  lemma SolarDaysAreLeapYearDays(i: int)
    requires 0 <= i < 12
    ensures SolarMonthDays[i] == Civil.DaysInMonth(2024, i + 1)
  {
    assert Civil.IsLeap(2024);
  }

  /** The Hijri year in canonical order: twelve months numbered 1..12, Muharram first, 30 days each, 360 days. */
  function IslamicYearCanonical(): (ms: seq<Month>)
    ensures |ms| == 12
    ensures forall i :: 0 <= i < 12 ==>
      ms[i].number == i + 1 && ms[i].name == IslamicMonthNames[i]
      && ms[i].numDays == [30] && ms[i].color == IslamicColors[i]
    ensures TotalDays(ms) == 360
  {
    var ms := seq(12, i requires 0 <= i < 12 =>
      Month(i + 1, IslamicMonthNames[i], [30], IslamicColors[i]));
    var days := seq(12, _ => 30);
    TotalDaysOfSingles(ms, days);
    SumNatConstant(days, 30);
    ms
  }

  /** The settings part of a month instance. */
  function SettingsOf(mi: MonthInstance): MonthSettings {
    MonthSettings(mi.nameUpsideDown, mi.dateOnTop, mi.dateBoxHeight, mi.innerRadius, mi.outerRadius, mi.dateAngleOffset)
  }

  /** A month instance: the month's name, first day count and colour, with the settings copied verbatim. */
  function CreateMonthInstance(m: Month, s: MonthSettings): (mi: MonthInstance)
    requires 0 < |m.numDays|
    ensures SettingsOf(mi) == s
    ensures mi.name == m.name && mi.numDays == m.numDays[0] && mi.color == m.color
  {
    MonthInstance(m.name, m.numDays[0], m.color,
      s.nameUpsideDown, s.dateOnTop, s.dateBoxHeight, s.innerRadius, s.outerRadius, s.dateAngleOffset)
  }
}
