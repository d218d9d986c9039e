/**
  Alignment of the Hijri ring (node/src/islamic-alignment.ts and the heuristic of
  python/islamic_alignment.py): which Hijri month is current at a Gregorian date, how many days after
  1 January it began, and the rotation of the Hijri month list so that the current month comes first.

  The heuristic counts whole days from a fixed reference, 1 Sha'ban 1447 AH = 20 January 2026, and
  divides by the mean lunar month of 29.530588853 days. Dates are day numbers of the `Civil` module;
  an instant is a real number of days, because a Hijri input is turned into a Gregorian instant that
  can fall part-way through a day.
 */
module IslamicAlignment {
  import opened Wrappers
  import Civil
  import opened CalendarData

  /** The mean lunar month, 29.530588853 days, as an exact ratio. */
  const LunarMonthDays: real := 29530588853.0 / 1000000000.0

  /** 20 January 2026, which is 1 Sha'ban 1447 AH. */
  const ReferenceDay: int := 739635
  const ReferenceHijriYear: int := 1447
  const ReferenceHijriMonth: int := 8

  lemma ReferenceDayIsJanuary20()
    ensures Civil.DayNumber(2026, 1, 20) == ReferenceDay
    ensures Civil.Jan1(2026) + 19 == ReferenceDay
  {
  }

  datatype HijriDate = HijriDate(hijriYear: int, hijriMonth: int, hijriDay: int)

  /**
    The alignment result. `instant` is the Gregorian date used, in days since day 0; `daysElapsed`
    is the start of the current Hijri month counted from 1 January, plus half a day.
   */
  datatype AlignmentParams = AlignmentParams(
    currentMonthIndex: int, daysElapsed: real, rotationOffset: int,
    instant: real, hijriMonth: int, hijriYear: int)

  /** Months from 1 Muharram of year 1 to the start of month `m` of year `y`. */
  function MonthCount(y: int, m: int): int {
    12 * (y - 1) + (m - 1)
  }

  function Floor(x: real): (f: int)
    ensures f as real <= x < f as real + 1.0
  {
    x.Floor
  }

  function Ceil(x: real): (c: int)
    ensures x <= c as real < x + 1.0
  {
    -Floor(-x)
  }

  /** JavaScript's `%` on integers: the remainder takes the sign of the dividend. */
  function JsRem(a: int, b: int): (r: int)
    requires 0 < b
    ensures 0 <= a ==> r == a % b
    ensures a < 0 ==> -b < r <= 0 && (r + b) % b == a % b
  {
    if 0 <= a then a % b
    else
      var q, m := (-a) / b, (-a) % b;
      if m == 0 then
        DivModUnique(a, b, -q, 0);
        DivModUnique(b, b, 1, 0);
        0
      else
        DivModUnique(a, b, -q - 1, b - m);
        DivModUnique(b - m, b, 0, b - m);
        -m
  }

  /** Euclidean division is unique: a quotient and remainder in range are Dafny's `/` and `%`. */
  lemma DivModUnique(x: int, b: int, q: int, r: int)
    requires 0 < b && 0 <= r < b && x == q * b + r
    ensures x / b == q && x % b == r
  {
    var q0, r0 := x / b, x % b;
    assert (q0 - q) * b == r - r0;
    if q0 - q >= 1 {
      MulAtLeast(q0 - q, b);
    } else if q - q0 >= 1 {
      MulAtLeast(q - q0, b);
    }
  }

  lemma MulAtLeast(k: int, b: int)
    requires 1 <= k && 0 < b
    ensures k * b >= b
  {
  }

  /**
    Whole lunar months from the reference to a day `daysDiff` days after it. The source's two
    branches for negative values compute the same floor.
   */
  function MonthOffset(daysDiff: int): (k: int)
    ensures k as real * LunarMonthDays <= daysDiff as real < (k + 1) as real * LunarMonthDays
  {
    var monthsElapsed := daysDiff as real / LunarMonthDays;
    if monthsElapsed >= 0.0 then Floor(monthsElapsed)
    else if monthsElapsed == Floor(monthsElapsed) as real then Floor(monthsElapsed)
    else Floor(monthsElapsed)
  }

  /** A day lies in exactly one lunar month: the offset is the only `k` whose month holds the day. */
  lemma MonthOffsetUnique(daysDiff: int, k: int)
    requires k as real * LunarMonthDays <= daysDiff as real < (k + 1) as real * LunarMonthDays
    ensures MonthOffset(daysDiff) == k
  {
  }

  /** The 1-based Hijri month `k` months after Sha'ban; the outer `+ 12` repairs a negative `%`. */
  function HijriMonthAfter(k: int): (m: int)
    ensures 1 <= m <= 12
    ensures m == (ReferenceHijriMonth - 1 + k) % 12 + 1
  {
    JsRem(JsRem(ReferenceHijriMonth - 1 + k, 12) + 12, 12) + 1
  }

  /** The Hijri month and year `k` months after the reference, as one month count. */
  lemma HijriMonthAndYearEncodeCount(k: int)
    ensures MonthCount(ReferenceHijriYear + (ReferenceHijriMonth - 1 + k) / 12, HijriMonthAfter(k))
         == MonthCount(ReferenceHijriYear, ReferenceHijriMonth) + k
  {
  }

  /** Whole days are unaffected by moving the instant a whole number of days. */
  lemma FloorMinusInt(x: real, n: int)
    ensures Floor(x - n as real) == Floor(x) - n
  {
    var f := Floor(x);
    assert (f - n) as real <= x - n as real < (f - n) as real + 1.0;
  }

  /** The day of an instant: its whole-day part. */
  function DayOf(instant: real): int {
    Floor(instant)
  }

  /** 1 January of the year that contains an instant. */
  function Jan1Of(instant: real): int {
    Civil.Jan1(Civil.YearOfDay(DayOf(instant)))
  }

  /** The heuristic's answer for the Gregorian instant `instant`. */
  function AlignmentAt(instant: real): (p: AlignmentParams)
    ensures 0 <= p.currentMonthIndex < 12 && p.hijriMonth == p.currentMonthIndex + 1
    ensures MonthCount(p.hijriYear, p.hijriMonth)
         == MonthCount(ReferenceHijriYear, ReferenceHijriMonth) + MonthOffset(DayOf(instant) - ReferenceDay)
    ensures p.daysElapsed == (-p.rotationOffset) as real + 0.5
    ensures p.instant == instant
  {
    var daysDiff := Floor(instant - ReferenceDay as real);
    var monthOffset := MonthOffset(daysDiff);
    var currentHijriMonth := HijriMonthAfter(monthOffset);
    var totalMonthsFromMuharramRef := ReferenceHijriMonth - 1 + monthOffset;
    // `/` on int with a positive divisor is the floor, as `Math.floor(total / 12)`
    var yearOffset := totalMonthsFromMuharramRef / 12;
    var firstOfCurrentMonth := ReferenceDay as real + monthOffset as real * LunarMonthDays;
    var daysElapsed := Floor(firstOfCurrentMonth - Jan1Of(instant) as real);
    FloorMinusInt(instant, ReferenceDay);
    HijriMonthAndYearEncodeCount(monthOffset);
    // `Math.round` of the whole number `daysElapsed` is itself
    AlignmentParams(
      currentHijriMonth - 1, daysElapsed as real + 0.5, -daysElapsed,
      instant, currentHijriMonth, ReferenceHijriYear + yearOffset)
  }

  /**
    The estimated start of the current Hijri month is not after the date and at most a lunar month
    and a day before it.
   */
  lemma MonthStartBracketsDate(instant: real)
    ensures var p := AlignmentAt(instant);
      && p.daysElapsed - 0.5 <= (DayOf(instant) - Jan1Of(instant)) as real
      && (DayOf(instant) - Jan1Of(instant)) as real < p.daysElapsed - 0.5 + LunarMonthDays + 1.0
  {
    var k := MonthOffset(DayOf(instant) - ReferenceDay);
    assert Floor(instant - ReferenceDay as real) == DayOf(instant) - ReferenceDay;
    var f := Floor(k as real * LunarMonthDays);
    assert Floor(ReferenceDay as real + k as real * LunarMonthDays - Jan1Of(instant) as real)
        == ReferenceDay - Jan1Of(instant) + f;
  }

  /** The Gregorian instant a Hijri date is taken to fall on, as the source computes it. */
  function HijriInstantAsWritten(h: HijriDate): real {
    var monthsDiff := MonthCount(h.hijriYear, h.hijriMonth) - MonthCount(ReferenceHijriYear, ReferenceHijriMonth);
    ReferenceDay as real + (monthsDiff as real * LunarMonthDays + (h.hijriDay - 1) as real)
  }

  /**
    The Gregorian day a Hijri date is taken to fall on, with each month starting on the first whole
    day not before its lunar start — the convention by which the heuristic assigns days to months.
   */
  function HijriInstant(h: HijriDate): (instant: real)
    ensures instant == DayOf(instant) as real
    ensures var monthsDiff := MonthCount(h.hijriYear, h.hijriMonth) - MonthCount(ReferenceHijriYear, ReferenceHijriMonth);
      monthsDiff as real * LunarMonthDays + (h.hijriDay - 1) as real <= instant - ReferenceDay as real
  {
    var monthsDiff := MonthCount(h.hijriYear, h.hijriMonth) - MonthCount(ReferenceHijriYear, ReferenceHijriMonth);
    (ReferenceDay + Ceil(monthsDiff as real * LunarMonthDays) + (h.hijriDay - 1)) as real
  }

  /** The length of the `k`-th lunar month after the reference, in whole days. */
  function LunarMonthLength(k: int): int {
    Ceil((k + 1) as real * LunarMonthDays) - Ceil(k as real * LunarMonthDays)
  }

  /** Every month of the heuristic has 29 or 30 days. */
  lemma LunarMonthLengthBounds(k: int)
    ensures 29 <= LunarMonthLength(k) <= 30
  {
    assert (k + 1) as real * LunarMonthDays == k as real * LunarMonthDays + LunarMonthDays;
  }

  /** Month and year recovered from a month count. */
  lemma MonthCountInjective(y1: int, m1: int, y2: int, m2: int)
    requires 1 <= m1 <= 12 && 1 <= m2 <= 12
    requires MonthCount(y1, m1) == MonthCount(y2, m2)
    ensures y1 == y2 && m1 == m2
  {
  }

  /** A Hijri date given as input comes back as the current Hijri month and year, for every day of its month. */
  lemma HijriInputRoundTrip(h: HijriDate)
    requires 1 <= h.hijriMonth <= 12
    requires var monthsDiff := MonthCount(h.hijriYear, h.hijriMonth) - MonthCount(ReferenceHijriYear, ReferenceHijriMonth);
      1 <= h.hijriDay <= LunarMonthLength(monthsDiff)
    ensures AlignmentAt(HijriInstant(h)).hijriMonth == h.hijriMonth
    ensures AlignmentAt(HijriInstant(h)).hijriYear == h.hijriYear
  {
    var monthsDiff := MonthCount(h.hijriYear, h.hijriMonth) - MonthCount(ReferenceHijriYear, ReferenceHijriMonth);
    var instant := HijriInstant(h);
    var c := Ceil(monthsDiff as real * LunarMonthDays);
    var daysDiff := c + h.hijriDay - 1;
    assert DayOf(instant) - ReferenceDay == daysDiff;
    assert daysDiff < Ceil((monthsDiff + 1) as real * LunarMonthDays);
    MonthOffsetUnique(daysDiff, monthsDiff);
    var p := AlignmentAt(instant);
    MonthCountInjective(p.hijriYear, p.hijriMonth, h.hijriYear, h.hijriMonth);
  }

  /** The first 29 days of every Hijri month round-trip. */
  lemma HijriInputRoundTripFirst29Days(h: HijriDate)
    requires 1 <= h.hijriMonth <= 12 && 1 <= h.hijriDay <= 29
    ensures AlignmentAt(HijriInstant(h)).hijriMonth == h.hijriMonth
    ensures AlignmentAt(HijriInstant(h)).hijriYear == h.hijriYear
  {
    LunarMonthLengthBounds(MonthCount(h.hijriYear, h.hijriMonth) - MonthCount(ReferenceHijriYear, ReferenceHijriMonth));
    HijriInputRoundTrip(h);
  }

  /** As written, the first day of Ramadan 1447 is reported as Sha'ban: it lands one month early. */
  lemma HijriDayOneLandsEarly()
    ensures AlignmentAt(HijriInstantAsWritten(HijriDate(1447, 9, 1))).hijriMonth == 8
  {
    var instant := HijriInstantAsWritten(HijriDate(1447, 9, 1));
    assert instant == ReferenceDay as real + LunarMonthDays;
    assert DayOf(instant) - ReferenceDay == 29;
    MonthOffsetUnique(29, 0);
  }

  /** As written, days 2 to 30 of every month do round-trip; only day 1 of a month is misplaced. */
  lemma HijriInstantAsWrittenLaterDays(h: HijriDate)
    requires 1 <= h.hijriMonth <= 12 && 2 <= h.hijriDay <= 30
    ensures AlignmentAt(HijriInstantAsWritten(h)).hijriMonth == h.hijriMonth
    ensures AlignmentAt(HijriInstantAsWritten(h)).hijriYear == h.hijriYear
  {
    var monthsDiff := MonthCount(h.hijriYear, h.hijriMonth) - MonthCount(ReferenceHijriYear, ReferenceHijriMonth);
    var instant := HijriInstantAsWritten(h);
    var f := Floor(monthsDiff as real * LunarMonthDays);
    var daysDiff := f + h.hijriDay - 1;
    assert Floor(instant) == ReferenceDay + daysDiff;
    MonthOffsetUnique(daysDiff, monthsDiff);
    var p := AlignmentAt(instant);
    MonthCountInjective(p.hijriYear, p.hijriMonth, h.hijriYear, h.hijriMonth);
  }

  /**
    `getAlignmentHeuristic`: a Hijri input wins over a Gregorian one, and with neither the current
    time `today` is used.
   */
  function GetAlignmentHeuristic(gregorianDate: Option<real>, hijriDate: Option<HijriDate>, today: real): (p: AlignmentParams)
    ensures hijriDate.Some? ==> p.instant == HijriInstant(hijriDate.value)
    ensures hijriDate.None? && gregorianDate.Some? ==> p.instant == gregorianDate.value
    ensures hijriDate.None? && gregorianDate.None? ==> p.instant == today
    ensures 0 <= p.currentMonthIndex < 12 && p.hijriMonth == p.currentMonthIndex + 1
    ensures p.daysElapsed == (-p.rotationOffset) as real + 0.5
  {
    var instant :=
      if hijriDate.Some? then HijriInstant(hijriDate.value)
      else if gregorianDate.Some? then gregorianDate.value
      else today;
    AlignmentAt(instant)
  }

  /** On 20 January 2026 it is Sha'ban 1447, which began 19 days after New Year. */
  lemma ReferenceDateCase()
    ensures AlignmentAt(ReferenceDay as real).daysElapsed == 19.5
    ensures AlignmentAt(ReferenceDay as real).currentMonthIndex == 7
    ensures AlignmentAt(ReferenceDay as real).hijriYear == 1447
  {
    ReferenceDayIsJanuary20();
    Civil.YearOfDayNumber(2026, 1, 20);
    assert DayOf(ReferenceDay as real) == ReferenceDay;
    assert Jan1Of(ReferenceDay as real) == ReferenceDay - 19;
    MonthOffsetUnique(0, 0);
    assert Floor(ReferenceDay as real - ReferenceDay as real) == 0;
    assert Floor(ReferenceDay as real + 0 as real * LunarMonthDays - (ReferenceDay - 19) as real) == 19;
  }

  /** 5 February 2026 is still in Sha'ban; 25 February 2026 is in Ramadan. */
  lemma FebruaryCases(fifth: real, twentyFifth: real)
    requires fifth == Civil.DayNumber(2026, 2, 5) as real
    requires twentyFifth == Civil.DayNumber(2026, 2, 25) as real
    ensures AlignmentAt(fifth).currentMonthIndex == 7
    ensures AlignmentAt(twentyFifth).currentMonthIndex == 8
  {
    IndexOnFebruaryDay(5, 0, fifth);
    IndexOnFebruaryDay(25, 1, twentyFifth);
  }

  /** On day `d` of February 2026, `k` whole lunar months after the reference day. */
  lemma IndexOnFebruaryDay(d: int, k: int, instant: real)
    requires instant == Civil.DayNumber(2026, 2, d) as real
    requires 0 <= k < 5 && k as real * LunarMonthDays <= (11 + d) as real < (k + 1) as real * LunarMonthDays
    ensures AlignmentAt(instant).currentMonthIndex == 7 + k
  {
    assert HijriMonthAfter(k) == 8 + k;
    FebruaryDay(d);
    MonthOffsetUnique(11 + d, k);
    MonthIndexAt(instant, 11 + d, k);
  }

  /** Day `d` of February 2026 is `11 + d` days after the reference day. */
  lemma FebruaryDay(d: int)
    ensures Civil.DayNumber(2026, 2, d) == ReferenceDay + 11 + d
  {
    ReferenceDayIsJanuary20();
    assert Civil.DaysBeforeMonth(2026, 2) == 31;
  }

  /** The month index at an instant `daysDiff` days after the reference day, `k` lunar months on. */
  lemma MonthIndexAt(instant: real, daysDiff: int, k: int)
    requires instant == (ReferenceDay + daysDiff) as real && MonthOffset(daysDiff) == k
    ensures AlignmentAt(instant).currentMonthIndex == HijriMonthAfter(k) - 1
  {
    assert DayOf(instant) - ReferenceDay == daysDiff;
    FloorMinusInt(instant, ReferenceDay);
  }

  /** The Hijri input 17 Sha'ban 1447 gives Sha'ban 1447. */
  lemma HijriInputCase()
    ensures GetAlignmentHeuristic(None, Some(HijriDate(1447, 8, 17)), 0.0).hijriMonth == 8
    ensures GetAlignmentHeuristic(None, Some(HijriDate(1447, 8, 17)), 0.0).hijriYear == 1447
  {
    HijriInputRoundTripFirst29Days(HijriDate(1447, 8, 17));
  }

  /** Python's `int()`: truncation toward zero. */
  function PyInt(x: real): (n: int)
    ensures 0.0 <= x ==> n == Floor(x)
    ensures x < 0.0 ==> n == -Floor(-x)
  {
    if 0.0 <= x then Floor(x) else -Floor(-x)
  }

  /** The Python month offset: truncation, then one less for a negative non-integer. */
  function PyMonthOffset(daysDiff: int): int {
    var monthsElapsed := daysDiff as real / LunarMonthDays;
    var monthOffset := PyInt(monthsElapsed);
    if monthsElapsed < 0.0 then
      (if monthsElapsed != PyInt(monthsElapsed) as real then PyInt(monthsElapsed) - 1 else PyInt(monthsElapsed))
    else monthOffset
  }

  /** The Python correction turns truncation into the floor. */
  lemma PyMonthOffsetIsFloor(daysDiff: int)
    ensures PyMonthOffset(daysDiff) == MonthOffset(daysDiff)
  {
    var me := daysDiff as real / LunarMonthDays;
    var k := PyMonthOffset(daysDiff);
    assert k as real <= me < (k + 1) as real;
    assert k as real * LunarMonthDays <= daysDiff as real < (k + 1) as real * LunarMonthDays;
    MonthOffsetUnique(daysDiff, k);
  }

  /**
    `_get_alignment_heuristic` on the Gregorian day `day`. Python's `%` and `//` are the floor
    operations, as Dafny's on a positive divisor; adding `timedelta(days=x)` to a date moves it by
    the whole days of `x`, rounded down.
   */
  function PyAlignmentHeuristic(day: int): AlignmentParams {
    var daysDiff := day - ReferenceDay;
    var monthOffset := PyMonthOffset(daysDiff);
    var currentHijriMonth := (ReferenceHijriMonth - 1 + monthOffset) % 12 + 1;
    var yearOffset := (ReferenceHijriMonth - 1 + monthOffset) / 12;
    var firstOfCurrentMonth := ReferenceDay + Floor(monthOffset as real * LunarMonthDays);
    var daysElapsed := firstOfCurrentMonth - Civil.Jan1(Civil.YearOfDay(day));
    AlignmentParams(
      currentHijriMonth - 1, daysElapsed as real + 0.5, -daysElapsed,
      day as real, currentHijriMonth, ReferenceHijriYear + yearOffset)
  }

  /** The Python heuristic and the TypeScript one agree on every Gregorian date. */
  lemma PythonHeuristicAgrees(day: int)
    ensures PyAlignmentHeuristic(day) == AlignmentAt(day as real)
  {
    var d := day - ReferenceDay;
    PyMonthOffsetIsFloor(d);
    var k := MonthOffset(d);
    assert Floor(day as real - ReferenceDay as real) == d by {
      FloorMinusInt(day as real, ReferenceDay);
    }
    var f := Floor(k as real * LunarMonthDays);
    var j := Jan1Of(day as real);
    assert j == Civil.Jan1(Civil.YearOfDay(day)) by {
      assert DayOf(day as real) == day;
    }
    assert Floor(ReferenceDay as real + k as real * LunarMonthDays - j as real) == ReferenceDay + f - j by {
      assert ReferenceDay as real + k as real * LunarMonthDays - j as real
          == k as real * LunarMonthDays - (j - ReferenceDay) as real;
      FloorMinusInt(k as real * LunarMonthDays, j - ReferenceDay);
    }
    AlignmentAtParts(day as real, d, k, j);
    PyAlignmentParts(day, k, j);
  }

  /** The parts of the TypeScript heuristic's answer, named. */
  lemma AlignmentAtParts(instant: real, d: int, k: int, j: int)
    requires d == Floor(instant - ReferenceDay as real) && k == MonthOffset(d) && j == Jan1Of(instant)
    ensures var e := Floor(ReferenceDay as real + k as real * LunarMonthDays - j as real);
      AlignmentAt(instant) == AlignmentParams(
        (ReferenceHijriMonth - 1 + k) % 12, e as real + 0.5, -e,
        instant, (ReferenceHijriMonth - 1 + k) % 12 + 1, ReferenceHijriYear + (ReferenceHijriMonth - 1 + k) / 12)
  {
  }

  /** The parts of the Python heuristic's answer, named. */
  lemma PyAlignmentParts(day: int, k: int, j: int)
    requires k == PyMonthOffset(day - ReferenceDay) && j == Civil.Jan1(Civil.YearOfDay(day))
    ensures var e := ReferenceDay + Floor(k as real * LunarMonthDays) - j;
      PyAlignmentHeuristic(day) == AlignmentParams(
        (ReferenceHijriMonth - 1 + k) % 12, e as real + 0.5, -e,
        day as real, (ReferenceHijriMonth - 1 + k) % 12 + 1, ReferenceHijriYear + (ReferenceHijriMonth - 1 + k) / 12)
  {
  }

  /**
    `rotateMonths`: position `i` holds month `(startMonthIndex + i) mod n` of the input, renumbered
    `i + 1` so that numbers 4 to 9 fall on the lower half of the circle. The modulus is the floor
    one, as in Python; the TypeScript version agrees for the non-negative indices it is given.
   */
  function RotateMonths(months: seq<Month>, startMonthIndex: int): (rotated: seq<Month>)
    ensures |rotated| == |months|
    ensures forall i :: 0 <= i < |rotated| ==> rotated[i].number == i + 1
    ensures forall i :: 0 <= i < |rotated| ==>
      rotated[i].(number := 0) == months[(startMonthIndex + i) % |months|].(number := 0)
  {
    var n := |months|;
    seq(n, i requires 0 <= i < n => months[(startMonthIndex + i) % n].(number := i + 1))
  }

  /** The TypeScript loop's index uses JavaScript's `%`. */
  function RotateMonthsJs(months: seq<Month>, startMonthIndex: nat): (rotated: seq<Month>)
    ensures rotated == RotateMonths(months, startMonthIndex)
  {
    var n := |months|;
    seq(n, i requires 0 <= i < n => months[JsRem(startMonthIndex + i, n)].(number := i + 1))
  }

  /** Every input month appears in the rotation, at position `(j − startMonthIndex) mod n`. */
  lemma RotationKeepsEveryMonth(months: seq<Month>, startMonthIndex: int, j: int)
    requires 0 <= j < |months|
    ensures var i := (j - startMonthIndex) % |months|;
      RotateMonths(months, startMonthIndex)[i] == months[j].(number := i + 1)
  {
    var n := |months|;
    var i := (j - startMonthIndex) % n;
    assert (startMonthIndex + i) % n == j by {
      ModShift(j - startMonthIndex, startMonthIndex, n);
      assert j % n == j;
    }
    var rotated := RotateMonths(months, startMonthIndex);
    assert rotated[i].number == i + 1;
    assert rotated[i].(number := 0) == months[j].(number := 0);
  }

  lemma ModShift(a: int, b: int, n: int)
    requires 0 < n
    ensures (b + a % n) % n == (a + b) % n
  {
    var q := a / n;
    assert a == q * n + a % n;
    ModMultiple(b + a % n, q, n);
  }

  lemma ModMultiple(x: int, q: int, n: int)
    requires 0 < n
    ensures (x + q * n) % n == x % n
  {
    var r := x % n;
    var d := x / n;
    assert x + q * n == (d + q) * n + r;
    DivModUnique(x + q * n, n, d + q, r);
  }

  /** Rotating twice is rotating once by the sum, and rotating by the length changes nothing but numbers. */
  lemma RotationsCompose(months: seq<Month>, a: int, b: int)
    ensures RotateMonths(RotateMonths(months, a), b) == RotateMonths(months, a + b)
    ensures RotateMonths(months, |months|) == RotateMonths(months, 0)
  {
    var n := |months|;
    var r1 := RotateMonths(RotateMonths(months, a), b);
    var r2 := RotateMonths(months, a + b);
    forall i | 0 <= i < n
      ensures r1[i] == r2[i]
    {
      ModShift(b + i, a, n);
    }
    var r3 := RotateMonths(months, n);
    forall i | 0 <= i < n
      ensures r3[i] == RotateMonths(months, 0)[i]
    {
      ModMultiple(i, 1, n);
    }
  }

  /** The canonical Hijri year rotated by `k`: position `i` is the canonical month `(k + i) mod 12`. */
  lemma RotatedCanonicalYear(k: int, i: int)
    requires 0 <= i < 12
    ensures var m := RotateMonths(IslamicYearCanonical(), k)[i];
      && m.number == i + 1 && m.name == IslamicMonthNames[(k + i) % 12]
      && m.numDays == [30] && m.color == IslamicColors[(k + i) % 12]
  {
    var m := RotateMonths(IslamicYearCanonical(), k)[i];
    assert m.(number := 0) == IslamicYearCanonical()[(k + i) % 12].(number := 0);
  }

  /** `getMonthName`: the name at a 0-based index, or nothing (`undefined`) outside 0..11. */
  function GetMonthName(index: int): (name: Option<string>)
    ensures name.Some? <==> 0 <= index < 12
    ensures name.Some? ==> name.value == IslamicMonthNames[index]
  {
    if 0 <= index < |IslamicMonthNames| then Some(IslamicMonthNames[index]) else None
  }

  /** `get_month_name`: Python's indexing also accepts −12..−1, counting from the end. */
  function PyGetMonthName(index: int): (name: Option<string>)
    ensures name.Some? <==> -12 <= index < 12
    ensures name.Some? ==> name.value == IslamicMonthNames[index % 12]
  {
    if 0 <= index < 12 then Some(IslamicMonthNames[index])
    else if -12 <= index < 0 then Some(IslamicMonthNames[12 + index])
    else None
  }

  /** The two agree on every valid index, and the named months are where the calendar puts them. */
  lemma MonthNames(index: int)
    requires 0 <= index < 12
    ensures PyGetMonthName(index) == GetMonthName(index)
    ensures GetMonthName(0) == Some("Muharram") && GetMonthName(7) == Some("Sha'baan")
    ensures GetMonthName(8) == Some("Ramadan") && GetMonthName(11) == Some("Dhu al-Hijja")
  {
  }

  /** The current month index names the month the alignment reports. */
  lemma CurrentMonthIsNamed(instant: real)
    ensures GetMonthName(AlignmentAt(instant).currentMonthIndex) == Some(IslamicMonthNames[AlignmentAt(instant).hijriMonth - 1])
  {
  }
}
