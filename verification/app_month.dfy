/**
  The alternate month renderer of the web app (app/src/lib/month.ts): its own Gregorian table, whose
  months carry a single day count, and its `getMonth`, which centres each numeral at the polar centre
  of its date box.
 */
module AppMonth {
  import opened Geometry
  import opened Primitives
  import opened CalendarData
  import MonthRenderer

  /** A month of the app's table: one day count instead of a list. */
  datatype AppMonthEntry = AppMonthEntry(number: int, name: string, numDays: nat, color: string)

  /** The app's Gregorian table: the same months as the shared table, each with its single day count. */
  function SolarYear(): (ms: seq<AppMonthEntry>)
    ensures |ms| == 12
    ensures forall i :: 0 <= i < 12 ==>
      var shared := CalendarData.SolarYear()[i];
      ms[i].number == shared.number && ms[i].name == shared.name
      && [ms[i].numDays] == shared.numDays && ms[i].color == shared.color
  {
    seq(12, i requires 0 <= i < 12 => AppMonthEntry(i + 1, SolarMonthNames[i], SolarMonthDays[i], ColorWheelClassic[i]))
  }

  function SumDays(ms: seq<AppMonthEntry>): nat {
    if |ms| == 0 then 0 else ms[0].numDays + SumDays(ms[1..])
  }

  lemma {:induction false} SumDaysIsTotalDays(ms: seq<AppMonthEntry>, shared: seq<Month>)
    requires |ms| == |shared|
    requires forall i :: 0 <= i < |ms| ==> shared[i].numDays == [ms[i].numDays]
    ensures SumDays(ms) == TotalDays(shared)
  {
    if |ms| > 0 {
      assert SumNat(shared[0].numDays) == ms[0].numDays by {
        assert shared[0].numDays[1..] == [];
      }
      SumDaysIsTotalDays(ms[1..], shared[1..]);
    }
  }

  /** The app's table covers a leap year of 366 days. */
  lemma SolarYearTotal()
    ensures SumDays(SolarYear()) == 366
  {
    SumDaysIsTotalDays(SolarYear(), CalendarData.SolarYear());
  }

  /** The app's month drawing: the shared renderer with numerals at the polar centre of each box. */
  function GetMonth(t: Trig, m: MonthInstance, daysInYear: real, origin: Point): (parts: seq<Drawable>)
    requires daysInYear != 0.0
    ensures |parts| == 2 + 2 * m.numDays
  {
    MonthRenderer.GetMonth(t, MonthRenderer.PolarMidpoint, m, daysInYear, origin)
  }

  /** A 31-day month draws 64 parts and a 29-day month 60, whatever the length of the year. */
  lemma ElementCounts(t: Trig, m: MonthInstance, daysInYear: real, origin: Point)
    requires daysInYear != 0.0
    ensures m.numDays == 31 ==> |GetMonth(t, m, daysInYear, origin)| == 64
    ensures m.numDays == 29 ==> |GetMonth(t, m, daysInYear, origin)| == 60
  {
  }

  /** Day `i`'s numeral is at the box's middle radius and middle angle. */
  lemma NumeralAtBoxCentre(t: Trig, m: MonthInstance, daysInYear: real, origin: Point, i: nat)
    requires daysInYear != 0.0 && i < m.numDays
    ensures GetMonth(t, m, daysInYear, origin)[3 + 2 * i].Numeral?
    ensures GetMonth(t, m, daysInYear, origin)[3 + 2 * i].numeral.point
      == GetCoordinatePoint(t, origin, MonthRenderer.DateBandMiddle(m), MonthRenderer.DayMiddleAngle(m, daysInYear, i))
  {
    var parts := GetMonth(t, m, daysInYear, origin);
    var w := MonthRenderer.MonthWidth(m.numDays, daysInYear);
    var start := MonthRenderer.MonthSpan(w).0;
    var dw := MonthRenderer.DateWidth(w, m.numDays);
    var band := MonthRenderer.DateBand(m);
    var s, e := MonthRenderer.AngleAt(start, dw, i), MonthRenderer.AngleAt(start, dw, i + 1);
    var pair := MonthRenderer.Pair(parts[2..], i);
    assert pair == MonthRenderer.DayPair(t, MonthRenderer.PolarMidpoint, m, origin, band, i, s, e);
    assert parts[3 + 2 * i] == pair[1];
    MonthRenderer.DayMiddleAngleIsBoxMiddle(m, daysInYear, i);
  }
}
