/**
  The calendar builder (node/src/lib/calendar-builder.ts, and the month-instance builders and
  rotation helpers of python/layout.py): the month instances of both rings, the strip page that
  stacks each Gregorian month over its Hijri partner, and the circular cover on which each month is
  turned to its place in the year.
 */
module CalendarBuilder {
  import opened Wrappers
  import opened Text
  import opened Geometry
  import opened Primitives
  import opened CalendarData
  import opened Config
  import IslamicAlignment
  import MonthRenderer

  /** `dateRotation`: each month's numerals are turned back 30° more than the previous month's. */
  function DateRotation(number: int): (r: real)
    ensures number == 1 ==> r == 0.0
    ensures 1 <= number <= 12 ==> -330.0 <= r <= 0.0
  {
    -1.0 * (number - 1) as real * (360.0 / 12.0)
  }

  /** Consecutive months differ by 30°, so no two months share a numeral rotation. */
  lemma DateRotationDifferences(a: int, b: int)
    ensures DateRotation(a) - DateRotation(b) == 30.0 * (b - a) as real
    ensures DateRotation(a) == DateRotation(b) <==> a == b
  {
  }

  /** Days drawn by a list of month instances. */
  function SumInstanceDays(ms: seq<MonthInstance>): nat {
    if |ms| == 0 then 0 else ms[0].numDays + SumInstanceDays(ms[1..])
  }

  lemma {:induction false} SumInstanceDaysAppend(a: seq<MonthInstance>, b: seq<MonthInstance>)
    ensures SumInstanceDays(a + b) == SumInstanceDays(a) + SumInstanceDays(b)
  {
    if |a| == 0 {
      assert a + b == b;
    } else {
      assert (a + b)[1..] == a[1..] + b;
      SumInstanceDaysAppend(a[1..], b);
    }
  }

  /** Instances whose day counts are the entries of `days` draw the sum of `days`. */
  lemma {:induction false} SumInstanceDaysOf(ms: seq<MonthInstance>, days: seq<nat>)
    requires |ms| == |days|
    requires forall i :: 0 <= i < |ms| ==> ms[i].numDays == days[i]
    ensures SumInstanceDays(ms) == SumNat(days)
  {
    if |ms| > 0 {
      SumInstanceDaysOf(ms[1..], days[1..]);
    }
  }

  /**
    `createSolarMonthInstances`: the Gregorian months in order, on the outer ring with the date boxes
    against its inner edge; April to September (positions 3 to 8) have their names upside down, and
    month `i` turns its numerals by −30·i degrees.
   */
  function CreateSolarMonthInstances(layout: ComputedLayout): (ms: seq<MonthInstance>)
    ensures |ms| == 12
    ensures forall i :: 0 <= i < 12 ==>
      ms[i] == CreateMonthInstance(SolarYear()[i], MonthSettings(
        3 <= i < 9, false, layout.dateBoxHeight, layout.innerRadius, layout.outermostRadius, -30.0 * i as real))
  {
    var year := SolarYear();
    seq(12, index requires 0 <= index < 12 =>
      var month := year[index];
      MonthInstance(month.name, month.numDays[0], month.color, index >= 3 && index < 9, false,
        layout.dateBoxHeight, layout.innerRadius, layout.outermostRadius, DateRotation(month.number)))
  }

  /** The Gregorian ring draws the 366 days of a leap year. */
  lemma SolarInstancesDrawLeapYear(layout: ComputedLayout)
    ensures SumInstanceDays(CreateSolarMonthInstances(layout)) == 366
  {
    var ms := CreateSolarMonthInstances(layout);
    forall i | 0 <= i < 12
      ensures ms[i].numDays == SolarMonthDays[i]
    {
      assert SolarYear()[i].numDays == [SolarMonthDays[i]];
    }
    SumInstanceDaysOf(ms, SolarMonthDays);
    SolarMonthDaysTotal();
  }

  /**
    The Gregorian ring names exactly April to September (months 4 to 9) upside down, and gives every
    month a different numeral rotation.
   */
  lemma SolarInstancesOrientation(layout: ComputedLayout, i: int, j: int)
    requires 0 <= i < 12 && 0 <= j < 12
    ensures CreateSolarMonthInstances(layout)[i].nameUpsideDown <==> 4 <= SolarYear()[i].number <= 9
    ensures CreateSolarMonthInstances(layout)[i].name == SolarYear()[i].name
    ensures i != j ==>
      CreateSolarMonthInstances(layout)[i].dateAngleOffset != CreateSolarMonthInstances(layout)[j].dateAngleOffset
  {
  }

  /** The Hijri settings of a month at position `i`: inner ring, date boxes against its outer edge. */
  function IslamicSettings(layout: ComputedLayout, i: int, rotationOffset: int): MonthSettings {
    MonthSettings(3 <= i < 9, true, layout.dateBoxHeight, layout.innerRadius - layout.monthThickness,
      layout.outermostRadius - layout.monthThickness, -30.0 * i as real + rotationOffset as real)
  }

  /** The body of the Hijri loop: one (already renumbered) month on the inner ring. */
  function IslamicInstance(layout: ComputedLayout, month: Month, rotationOffset: int): MonthInstance
    requires 0 < |month.numDays|
  {
    var nameUpsideDown := month.number > 3 && month.number <= 9;
    MonthInstance(month.name, month.numDays[0], month.color, nameUpsideDown, true, layout.dateBoxHeight,
      layout.innerRadius - layout.monthThickness, layout.outermostRadius - layout.monthThickness,
      DateRotation(month.number) + rotationOffset as real)
  }

  /** The Hijri loop over already rotated months. */
  function IslamicRing(layout: ComputedLayout, rotated: seq<Month>, rotationOffset: int): (ms: seq<MonthInstance>)
    requires |rotated| == 12 && forall i :: 0 <= i < 12 ==> 0 < |rotated[i].numDays|
    ensures |ms| == 12
    ensures forall i :: 0 <= i < 12 ==> ms[i] == IslamicInstance(layout, rotated[i], rotationOffset)
  {
    seq(12, i requires 0 <= i < 12 => IslamicInstance(layout, rotated[i], rotationOffset))
  }

  lemma IslamicInstanceOfRotated(layout: ComputedLayout, k: int, rotationOffset: int, i: int)
    requires 0 <= i < 12
    ensures var rotated := IslamicAlignment.RotateMonths(IslamicYearCanonical(), k);
      && 0 < |rotated[i].numDays|
      && IslamicInstance(layout, rotated[i], rotationOffset)
         == CreateMonthInstance(IslamicYearCanonical()[(k + i) % 12], IslamicSettings(layout, i, rotationOffset))
  {
    IslamicAlignment.RotatedCanonicalYear(k, i);
  }

  lemma IslamicInstancesOfRotated(layout: ComputedLayout, k: int, rotationOffset: int)
    ensures var rotated := IslamicAlignment.RotateMonths(IslamicYearCanonical(), k);
      && |rotated| == 12
      && forall i :: 0 <= i < 12 ==>
        && 0 < |rotated[i].numDays|
        && IslamicInstance(layout, rotated[i], rotationOffset)
           == CreateMonthInstance(IslamicYearCanonical()[(k + i) % 12], IslamicSettings(layout, i, rotationOffset))
  {
    forall i | 0 <= i < 12
      ensures var rotated := IslamicAlignment.RotateMonths(IslamicYearCanonical(), k);
        && 0 < |rotated[i].numDays|
        && IslamicInstance(layout, rotated[i], rotationOffset)
           == CreateMonthInstance(IslamicYearCanonical()[(k + i) % 12], IslamicSettings(layout, i, rotationOffset))
    {
      IslamicInstanceOfRotated(layout, k, rotationOffset, i);
    }
  }

  lemma IslamicInstancesOfRotatedJs(layout: ComputedLayout, k: nat, rotationOffset: int)
    ensures var rotated := IslamicAlignment.RotateMonthsJs(IslamicYearCanonical(), k);
      && |rotated| == 12
      && (forall i :: 0 <= i < 12 ==> 0 < |rotated[i].numDays|)
      && forall i :: 0 <= i < 12 ==>
        IslamicInstance(layout, rotated[i], rotationOffset)
        == CreateMonthInstance(IslamicYearCanonical()[(k + i) % 12], IslamicSettings(layout, i, rotationOffset))
  {
    IslamicInstancesOfRotated(layout, k, rotationOffset);
  }

  /** The ring of Hijri months that starts at canonical month `k`, turned by `off` degrees. */
  predicate IsIslamicRing(layout: ComputedLayout, k: nat, off: int, ms: seq<MonthInstance>) {
    && |ms| == 12
    && forall i :: 0 <= i < 12 ==>
      ms[i] == CreateMonthInstance(IslamicYearCanonical()[(k + i) % 12], IslamicSettings(layout, i, off))
  }

  function IslamicYearRing(layout: ComputedLayout, k: nat, off: int): (ms: seq<MonthInstance>)
    ensures IsIslamicRing(layout, k, off, ms)
  {
    var rotated := IslamicAlignment.RotateMonthsJs(IslamicYearCanonical(), k);
    IslamicInstancesOfRotatedJs(layout, k, off);
    IslamicRing(layout, rotated, off)
  }

  /**
    `createIslamicMonthInstances`: the canonical Hijri months rotated so that the current month
    comes first. Each is drawn one ring thickness further in, with the date boxes against the ring's
    outer edge; the upside-down rule on the renumbered months (numbers 4 to 9) is the Gregorian rule
    on positions 3 to 8, and position `i` turns its numerals by −30·i degrees plus the alignment's offset.
   */
  function CreateIslamicMonthInstances(layout: ComputedLayout, alignment: IslamicAlignment.AlignmentParams)
    : (ms: seq<MonthInstance>)
    requires 0 <= alignment.currentMonthIndex
    ensures IsIslamicRing(layout, alignment.currentMonthIndex, alignment.rotationOffset, ms)
  {
    IslamicYearRing(layout, alignment.currentMonthIndex, alignment.rotationOffset)
  }

  /**
    With the layout of any configuration, the Hijri ring sits directly inside the Gregorian ring: its
    outer circle is the Gregorian inner circle, and the two rings' date boxes meet on that circle.
   */
  lemma RingsAreAdjacent(c: LayoutConfig, alignment: IslamicAlignment.AlignmentParams, i: int, j: int)
    requires 0 <= alignment.currentMonthIndex && 0 <= i < 12 && 0 <= j < 12
    ensures var layout := ComputeLayout(c);
      var solar := CreateSolarMonthInstances(layout)[i];
      var islamic := CreateIslamicMonthInstances(layout, alignment)[j];
      && islamic.outerRadius == solar.innerRadius
      && MonthRenderer.DateBand(islamic).outer == MonthRenderer.DateBand(solar).inner
      && islamic.outerRadius - islamic.innerRadius == solar.outerRadius - solar.innerRadius
  {
  }

  /** One instance per day count of a month, all with the month's name, colour and the given settings. */
  function ExpandMonth(m: Month, s: MonthSettings): (ms: seq<MonthInstance>)
    ensures |ms| == |m.numDays|
    ensures forall j :: 0 <= j < |ms| ==> SettingsOf(ms[j]) == s && ms[j].name == m.name && ms[j].color == m.color
    ensures SumInstanceDays(ms) == SumNat(m.numDays)
  {
    var ms := seq(|m.numDays|, j requires 0 <= j < |m.numDays| =>
      MonthInstance(m.name, m.numDays[j], m.color,
        s.nameUpsideDown, s.dateOnTop, s.dateBoxHeight, s.innerRadius, s.outerRadius, s.dateAngleOffset));
    SumInstanceDaysOf(ms, m.numDays);
    ms
  }

  /** A month with a single day count expands to its one instance. */
  lemma ExpandSingle(m: Month, s: MonthSettings)
    requires |m.numDays| == 1
    ensures ExpandMonth(m, s) == [CreateMonthInstance(m, s)]
  {
    var e := ExpandMonth(m, s);
    assert e[0].numDays == m.numDays[0];
  }

  lemma TotalDaysFrom(year: seq<Month>, index: nat)
    requires index < |year|
    ensures TotalDays(year[index..]) == SumNat(year[index].numDays) + TotalDays(year[index + 1..])
  {
    assert year[index..][1..] == year[index + 1..];
  }

  /** The Python Gregorian settings of the month at table position `index`. */
  function PySolarSettings(index: int, month: Month, dateBoxHeight: real, innerRadius: real, outermostRadius: real)
    : MonthSettings
  {
    MonthSettings(index >= 3 && index < 9, false, dateBoxHeight, innerRadius, outermostRadius, DateRotation(month.number))
  }

  /** The Python Gregorian loop from month `index` on: one instance per entry of each month's `num_days`. */
  function BuildSolarFrom(year: seq<Month>, index: nat, dateBoxHeight: real, innerRadius: real, outermostRadius: real)
    : (ms: seq<MonthInstance>)
    requires index <= |year|
    ensures SumInstanceDays(ms) == TotalDays(year[index..])
    ensures forall j :: 0 <= j < |ms| ==> !ms[j].dateOnTop
    decreases |year| - index
  {
    if index == |year| then []
    else
      var first := ExpandMonth(year[index], PySolarSettings(index, year[index], dateBoxHeight, innerRadius, outermostRadius));
      var rest := BuildSolarFrom(year, index + 1, dateBoxHeight, innerRadius, outermostRadius);
      SumInstanceDaysAppend(first, rest);
      TotalDaysFrom(year, index);
      first + rest
  }

  /** `build_solar_month_instances`: every day of the table is drawn, on the outer ring. */
  function BuildSolarMonthInstances(year: seq<Month>, dateBoxHeight: real, innerRadius: real, outermostRadius: real)
    : (ms: seq<MonthInstance>)
    ensures SumInstanceDays(ms) == TotalDays(year)
    ensures forall j :: 0 <= j < |ms| ==> !ms[j].dateOnTop
  {
    assert year[0..] == year;
    BuildSolarFrom(year, 0, dateBoxHeight, innerRadius, outermostRadius)
  }

  /** On a table of single day counts, the Python loop makes exactly one instance per month. */
  lemma {:induction false} BuildSolarFromSingles(
    year: seq<Month>, index: nat, dateBoxHeight: real, innerRadius: real, outermostRadius: real, ms: seq<MonthInstance>)
    requires index <= |year| == |ms|
    requires forall i :: index <= i < |year| ==>
      [ms[i]] == ExpandMonth(year[i], PySolarSettings(i, year[i], dateBoxHeight, innerRadius, outermostRadius))
    ensures BuildSolarFrom(year, index, dateBoxHeight, innerRadius, outermostRadius) == ms[index..]
    decreases |year| - index
  {
    if index < |year| {
      var first := ExpandMonth(year[index], PySolarSettings(index, year[index], dateBoxHeight, innerRadius, outermostRadius));
      var rest := BuildSolarFrom(year, index + 1, dateBoxHeight, innerRadius, outermostRadius);
      assert BuildSolarFrom(year, index, dateBoxHeight, innerRadius, outermostRadius) == first + rest;
      assert first == [ms[index]];
      BuildSolarFromSingles(year, index + 1, dateBoxHeight, innerRadius, outermostRadius, ms);
      assert ms[index..] == [ms[index]] + ms[index + 1..];
    }
  }

  lemma PythonSolarAt(layout: ComputedLayout, i: int)
    requires 0 <= i < 12
    ensures [CreateSolarMonthInstances(layout)[i]]
      == ExpandMonth(SolarYear()[i], PySolarSettings(i, SolarYear()[i], layout.dateBoxHeight, layout.innerRadius, layout.outermostRadius))
  {
    var month := SolarYear()[i];
    ExpandSingle(month, PySolarSettings(i, month, layout.dateBoxHeight, layout.innerRadius, layout.outermostRadius));
  }

  /** The Python and TypeScript Gregorian instances are the same for the shipped table. */
  lemma PythonSolarAgrees(layout: ComputedLayout)
    ensures BuildSolarMonthInstances(SolarYear(), layout.dateBoxHeight, layout.innerRadius, layout.outermostRadius)
         == CreateSolarMonthInstances(layout)
  {
    var ms := CreateSolarMonthInstances(layout);
    forall i | 0 <= i < 12
      ensures [ms[i]] == ExpandMonth(SolarYear()[i],
        PySolarSettings(i, SolarYear()[i], layout.dateBoxHeight, layout.innerRadius, layout.outermostRadius))
    {
      PythonSolarAt(layout, i);
    }
    BuildSolarFromSingles(SolarYear(), 0, layout.dateBoxHeight, layout.innerRadius, layout.outermostRadius, ms);
    assert ms[0..] == ms;
  }

  /** The Python Hijri settings of a month: upside down by its (renumbered) month number, one ring further in. */
  function PyIslamicSettings(month: Month, dateBoxHeight: real, innerRadius: real, outermostRadius: real,
    monthThickness: real, rotationOffset: real): MonthSettings
  {
    MonthSettings(month.number > 3 && month.number <= 9, true, dateBoxHeight,
      innerRadius - monthThickness, outermostRadius - monthThickness, DateRotation(month.number) + rotationOffset)
  }

  /** The Python Hijri loop from month `index` on. */
  function BuildIslamicFrom(
    year: seq<Month>, index: nat, dateBoxHeight: real, innerRadius: real, outermostRadius: real,
    monthThickness: real, rotationOffset: real): (ms: seq<MonthInstance>)
    requires index <= |year|
    ensures SumInstanceDays(ms) == TotalDays(year[index..])
    ensures forall j :: 0 <= j < |ms| ==>
      ms[j].dateOnTop && ms[j].innerRadius == innerRadius - monthThickness
      && ms[j].outerRadius == outermostRadius - monthThickness
    decreases |year| - index
  {
    if index == |year| then []
    else
      var settings := PyIslamicSettings(year[index], dateBoxHeight, innerRadius, outermostRadius, monthThickness, rotationOffset);
      var first := ExpandMonth(year[index], settings);
      var rest := BuildIslamicFrom(year, index + 1, dateBoxHeight, innerRadius, outermostRadius, monthThickness, rotationOffset);
      SumInstanceDaysAppend(first, rest);
      TotalDaysFrom(year, index);
      first + rest
  }

  /** `build_islamic_month_instances`: every day of the given (already rotated) table, one ring further in. */
  function BuildIslamicMonthInstances(
    year: seq<Month>, dateBoxHeight: real, innerRadius: real, outermostRadius: real,
    monthThickness: real, rotationOffset: real): (ms: seq<MonthInstance>)
    ensures SumInstanceDays(ms) == TotalDays(year)
    ensures forall j :: 0 <= j < |ms| ==>
      ms[j].dateOnTop && ms[j].innerRadius == innerRadius - monthThickness
      && ms[j].outerRadius == outermostRadius - monthThickness
  {
    assert year[0..] == year;
    BuildIslamicFrom(year, 0, dateBoxHeight, innerRadius, outermostRadius, monthThickness, rotationOffset)
  }

  /** On a table of single day counts, the Python Hijri loop makes exactly one instance per month. */
  lemma {:induction false} BuildIslamicFromSingles(
    year: seq<Month>, index: nat, dateBoxHeight: real, innerRadius: real, outermostRadius: real,
    monthThickness: real, rotationOffset: real, ms: seq<MonthInstance>)
    requires index <= |year| == |ms|
    requires forall i :: index <= i < |year| ==>
      [ms[i]] == ExpandMonth(year[i],
        PyIslamicSettings(year[i], dateBoxHeight, innerRadius, outermostRadius, monthThickness, rotationOffset))
    ensures BuildIslamicFrom(year, index, dateBoxHeight, innerRadius, outermostRadius, monthThickness, rotationOffset)
      == ms[index..]
    decreases |year| - index
  {
    if index < |year| {
      var first := ExpandMonth(year[index],
        PyIslamicSettings(year[index], dateBoxHeight, innerRadius, outermostRadius, monthThickness, rotationOffset));
      var rest := BuildIslamicFrom(year, index + 1, dateBoxHeight, innerRadius, outermostRadius, monthThickness, rotationOffset);
      assert BuildIslamicFrom(year, index, dateBoxHeight, innerRadius, outermostRadius, monthThickness, rotationOffset)
        == first + rest;
      assert first == [ms[index]];
      BuildIslamicFromSingles(year, index + 1, dateBoxHeight, innerRadius, outermostRadius, monthThickness, rotationOffset, ms);
      assert ms[index..] == [ms[index]] + ms[index + 1..];
    }
  }

  lemma PythonIslamicAt(layout: ComputedLayout, alignment: IslamicAlignment.AlignmentParams, i: int)
    requires 0 <= alignment.currentMonthIndex && 0 <= i < 12
    ensures var year := IslamicAlignment.RotateMonths(IslamicYearCanonical(), alignment.currentMonthIndex);
      [CreateIslamicMonthInstances(layout, alignment)[i]]
      == ExpandMonth(year[i], PyIslamicSettings(year[i], layout.dateBoxHeight, layout.innerRadius,
           layout.outermostRadius, layout.monthThickness, alignment.rotationOffset as real))
  {
    var year := IslamicAlignment.RotateMonths(IslamicYearCanonical(), alignment.currentMonthIndex);
    IslamicAlignment.RotatedCanonicalYear(alignment.currentMonthIndex, i);
    var settings := PyIslamicSettings(year[i], layout.dateBoxHeight, layout.innerRadius,
      layout.outermostRadius, layout.monthThickness, alignment.rotationOffset as real);
    ExpandSingle(year[i], settings);
    assert settings == IslamicSettings(layout, i, alignment.rotationOffset);
  }

  /** The Python Hijri instances of the rotated year are the TypeScript ones. */
  lemma PythonIslamicAgrees(layout: ComputedLayout, alignment: IslamicAlignment.AlignmentParams)
    requires 0 <= alignment.currentMonthIndex
    ensures BuildIslamicMonthInstances(
      IslamicAlignment.RotateMonths(IslamicYearCanonical(), alignment.currentMonthIndex),
      layout.dateBoxHeight, layout.innerRadius, layout.outermostRadius, layout.monthThickness,
      alignment.rotationOffset as real)
      == CreateIslamicMonthInstances(layout, alignment)
  {
    var year := IslamicAlignment.RotateMonths(IslamicYearCanonical(), alignment.currentMonthIndex);
    var ms := CreateIslamicMonthInstances(layout, alignment);
    forall i | 0 <= i < 12
      ensures [ms[i]] == ExpandMonth(year[i], PyIslamicSettings(year[i], layout.dateBoxHeight, layout.innerRadius,
        layout.outermostRadius, layout.monthThickness, alignment.rotationOffset as real))
    {
      PythonIslamicAt(layout, alignment, i);
    }
    BuildIslamicFromSingles(year, 0, layout.dateBoxHeight, layout.innerRadius, layout.outermostRadius,
      layout.monthThickness, alignment.rotationOffset as real, ms);
    assert ms[0..] == ms;
  }

  /** Changing the rotation offset by `c` turns every Hijri numeral by `c` and changes nothing else. */
  lemma {:induction false} IslamicOffsetShifts(
    year: seq<Month>, index: nat, dateBoxHeight: real, innerRadius: real, outermostRadius: real,
    monthThickness: real, offset: real, c: real)
    requires index <= |year|
    ensures var a := BuildIslamicFrom(year, index, dateBoxHeight, innerRadius, outermostRadius, monthThickness, offset);
      var b := BuildIslamicFrom(year, index, dateBoxHeight, innerRadius, outermostRadius, monthThickness, offset + c);
      && |a| == |b|
      && forall j :: 0 <= j < |a| ==> b[j] == a[j].(dateAngleOffset := a[j].dateAngleOffset + c)
    decreases |year| - index
  {
    if index < |year| {
      var m := year[index];
      var s1 := PyIslamicSettings(m, dateBoxHeight, innerRadius, outermostRadius, monthThickness, offset);
      var s2 := PyIslamicSettings(m, dateBoxHeight, innerRadius, outermostRadius, monthThickness, offset + c);
      assert s2 == s1.(dateAngleOffset := s1.dateAngleOffset + c);
      ExpandMonthShifted(m, s1, c);
      var rest1 := BuildIslamicFrom(year, index + 1, dateBoxHeight, innerRadius, outermostRadius, monthThickness, offset);
      var rest2 := BuildIslamicFrom(year, index + 1, dateBoxHeight, innerRadius, outermostRadius, monthThickness, offset + c);
      assert BuildIslamicFrom(year, index, dateBoxHeight, innerRadius, outermostRadius, monthThickness, offset)
        == ExpandMonth(m, s1) + rest1;
      assert BuildIslamicFrom(year, index, dateBoxHeight, innerRadius, outermostRadius, monthThickness, offset + c)
        == ExpandMonth(m, s2) + rest2;
      IslamicOffsetShifts(year, index + 1, dateBoxHeight, innerRadius, outermostRadius, monthThickness, offset, c);
      ShiftedConcat(ExpandMonth(m, s1), rest1, ExpandMonth(m, s2), rest2, c);
    }
  }

  /** The instances of a month whose settings turn the numerals `c` further. */
  lemma ExpandMonthShifted(m: Month, s: MonthSettings, c: real)
    ensures var a := ExpandMonth(m, s);
      var b := ExpandMonth(m, s.(dateAngleOffset := s.dateAngleOffset + c));
      && |a| == |b|
      && forall j :: 0 <= j < |a| ==> b[j] == a[j].(dateAngleOffset := a[j].dateAngleOffset + c)
  {
  }

  /** Shifting two lists shifts their concatenation. */
  lemma ShiftedConcat(a1: seq<MonthInstance>, r1: seq<MonthInstance>, a2: seq<MonthInstance>, r2: seq<MonthInstance>, c: real)
    requires |a1| == |a2| && forall j :: 0 <= j < |a1| ==> a2[j] == a1[j].(dateAngleOffset := a1[j].dateAngleOffset + c)
    requires |r1| == |r2| && forall j :: 0 <= j < |r1| ==> r2[j] == r1[j].(dateAngleOffset := r1[j].dateAngleOffset + c)
    ensures |a1 + r1| == |a2 + r2|
    ensures forall j :: 0 <= j < |a1 + r1| ==>
      (a2 + r2)[j] == (a1 + r1)[j].(dateAngleOffset := (a1 + r1)[j].dateAngleOffset + c)
  {
    forall j | 0 <= j < |a1 + r1|
      ensures (a2 + r2)[j] == (a1 + r1)[j].(dateAngleOffset := (a1 + r1)[j].dateAngleOffset + c)
    {
      if j < |a1| {
        assert (a1 + r1)[j] == a1[j] && (a2 + r2)[j] == a2[j];
      } else {
        assert (a1 + r1)[j] == r1[j - |a1|] && (a2 + r2)[j] == r2[j - |a1|];
      }
    }
  }

  /** The interleaving the strip and cover loops produce: month `i` of `a`, then month `i` of `b` if there is one. */
  function Interleave<T>(a: seq<T>, b: seq<T>, i: nat): seq<T>
    requires i <= |a|
    decreases |a| - i
  {
    if i == |a| then []
    else [a[i]] + (if i < |b| then [b[i]] else []) + Interleave(a, b, i + 1)
  }

  function Min(x: int, y: int): int {
    if x < y then x else y
  }

  /**
    Where each month lands in the interleaving from `i`: month `j` of `a` after the `j − i` earlier
    months of `a` and the `Min(j, |b|) − Min(i, |b|)` earlier months of `b`, and month `j` of `b` right after it.
   */
  lemma {:induction false} InterleaveIndex<T>(a: seq<T>, b: seq<T>, i: nat)
    requires i <= |a|
    ensures |Interleave(a, b, i)| == (|a| - i) + (Min(|a|, |b|) - Min(i, |b|))
    ensures forall j :: i <= j < |a| ==>
      Interleave(a, b, i)[(j - i) + (Min(j, |b|) - Min(i, |b|))] == a[j]
    ensures forall j :: i <= j < |a| && j < |b| ==>
      Interleave(a, b, i)[(j - i) + (Min(j, |b|) - Min(i, |b|)) + 1] == b[j]
    decreases |a| - i
  {
    if i < |a| {
      InterleaveIndex(a, b, i + 1);
      var head := [a[i]] + (if i < |b| then [b[i]] else []);
      var rest := Interleave(a, b, i + 1);
      var r := Interleave(a, b, i);
      assert r == head + rest;
      assert |head| == 1 + (Min(i + 1, |b|) - Min(i, |b|));
      forall j | i < j < |a|
        ensures r[(j - i) + (Min(j, |b|) - Min(i, |b|))] == a[j]
      {
        assert r[(j - i) + (Min(j, |b|) - Min(i, |b|))] == rest[(j - (i + 1)) + (Min(j, |b|) - Min(i + 1, |b|))];
      }
      forall j | i < j < |a| && j < |b|
        ensures r[(j - i) + (Min(j, |b|) - Min(i, |b|)) + 1] == b[j]
      {
        assert r[(j - i) + (Min(j, |b|) - Min(i, |b|)) + 1] == rest[(j - (i + 1)) + (Min(j, |b|) - Min(i + 1, |b|)) + 1];
      }
    }
  }

  /** From the start: Gregorian month `j` at index `j + Min(j, |b|)`, Hijri month `j` at `2j + 1`. */
  lemma InterleavePositions<T>(a: seq<T>, b: seq<T>)
    ensures |Interleave(a, b, 0)| == |a| + Min(|a|, |b|)
    ensures forall j :: 0 <= j < |a| ==> Interleave(a, b, 0)[j + Min(j, |b|)] == a[j]
    ensures forall j :: 0 <= j < |a| && j < |b| ==> Interleave(a, b, 0)[2 * j + 1] == b[j]
  {
    InterleaveIndex(a, b, 0);
    forall j | 0 <= j < |a| && j < |b|
      ensures Interleave(a, b, 0)[2 * j + 1] == b[j]
    {
      assert j + Min(j, |b|) + 1 == 2 * j + 1;
    }
  }

  /** A month and where its drawing is anchored. */
  datatype Placement = Placement(month: MonthInstance, origin: Point)

  /**
    The strip loop of `generateCalendarSvg` from month `i`: the Gregorian month at `origin`, its Hijri
    partner (if any) `monthOffset` lower, then the next pair 2.3 (thickness + offset) below that.
   */
  function StripLoop(solar: seq<MonthInstance>, islamic: seq<MonthInstance>, i: nat, origin: Point,
    monthOffset: real, monthThickness: real): seq<Placement>
    requires i <= |solar|
    decreases |solar| - i
  {
    if i == |solar| then []
    else
      var solarPart := [Placement(solar[i], origin)];
      var below := Point(origin.x, origin.y + monthOffset);
      var islamicPart := if i < |islamic| then [Placement(islamic[i], below)] else [];
      var next := Point(below.x, below.y + (monthThickness + monthOffset) * 2.3);
      solarPart + islamicPart + StripLoop(solar, islamic, i + 1, next, monthOffset, monthThickness)
  }

  /** The vertical distance between consecutive Gregorian strips. */
  function StripPitch(monthOffset: real, monthThickness: real): real {
    monthOffset + (monthThickness + monthOffset) * 2.3
  }

  /** `j` pitches: the offset of strip `j` from the first, built by repeated addition as the loop does. */
  function Rows(j: nat, pitch: real): real {
    if j == 0 then 0.0 else Rows(j - 1, pitch) + pitch
  }

  lemma {:induction false} RowsIsProduct(j: nat, pitch: real)
    ensures Rows(j, pitch) == j as real * pitch
  {
    if j > 0 {
      RowsIsProduct(j - 1, pitch);
      assert j as real * pitch == (j - 1) as real * pitch + pitch;
    }
  }

  function SolarPlacements(solar: seq<MonthInstance>, x0: real, y0: real, pitch: real): (ps: seq<Placement>)
    ensures |ps| == |solar|
    ensures forall j :: 0 <= j < |ps| ==> ps[j] == Placement(solar[j], Point(x0, y0 + Rows(j, pitch)))
  {
    seq(|solar|, j requires 0 <= j < |solar| => Placement(solar[j], Point(x0, y0 + Rows(j, pitch))))
  }

  function IslamicPlacements(islamic: seq<MonthInstance>, x0: real, y0: real, pitch: real, monthOffset: real)
    : (ps: seq<Placement>)
    ensures |ps| == |islamic|
    ensures forall j :: 0 <= j < |ps| ==>
      ps[j] == Placement(islamic[j], Point(x0, y0 + Rows(j, pitch) + monthOffset))
  {
    seq(|islamic|, j requires 0 <= j < |islamic| =>
      Placement(islamic[j], Point(x0, y0 + Rows(j, pitch) + monthOffset)))
  }

  /** The loop's running origin is the closed form: strip `j` at `y0` plus `j` pitches. */
  lemma {:induction false} StripLoopClosedForm(
    solar: seq<MonthInstance>, islamic: seq<MonthInstance>, i: nat, x0: real, y0: real,
    monthOffset: real, monthThickness: real, pitch: real)
    requires i <= |solar| && pitch == StripPitch(monthOffset, monthThickness)
    ensures StripLoop(solar, islamic, i, Point(x0, y0 + Rows(i, pitch)), monthOffset, monthThickness)
      == Interleave(SolarPlacements(solar, x0, y0, pitch), IslamicPlacements(islamic, x0, y0, pitch, monthOffset), i)
    decreases |solar| - i
  {
    if i < |solar| {
      var y := y0 + Rows(i, pitch);
      assert Rows(i + 1, pitch) == Rows(i, pitch) + pitch;
      StripLoopClosedForm(solar, islamic, i + 1, x0, y0, monthOffset, monthThickness, pitch);
      var sp := SolarPlacements(solar, x0, y0, pitch);
      var ip := IslamicPlacements(islamic, x0, y0, pitch, monthOffset);
      assert sp[i] == Placement(solar[i], Point(x0, y));
      assert i < |islamic| ==> ip[i] == Placement(islamic[i], Point(x0, y + monthOffset));
    }
  }

  /**
    The strip page arrangement: Gregorian month `j` at `y0` plus `j` pitches, its Hijri partner
    `monthOffset` below it and only when there is one; `x` never changes.
   */
  predicate IsStripLayout(ps: seq<Placement>, solar: seq<MonthInstance>, islamic: seq<MonthInstance>, origin: Point,
    pitch: real, monthOffset: real)
  {
    && |ps| == |solar| + Min(|solar|, |islamic|)
    && (forall j :: 0 <= j < |solar| ==>
          ps[j + Min(j, |islamic|)] == Placement(solar[j], Point(origin.x, origin.y + Rows(j, pitch))))
    && (forall j :: 0 <= j < |solar| && j < |islamic| ==>
          ps[2 * j + 1] == Placement(islamic[j], Point(origin.x, origin.y + Rows(j, pitch) + monthOffset)))
  }

  /** The strip loop produces the strip page arrangement. */
  lemma StripPositions(solar: seq<MonthInstance>, islamic: seq<MonthInstance>, origin: Point,
    monthOffset: real, monthThickness: real)
    ensures IsStripLayout(StripLoop(solar, islamic, 0, origin, monthOffset, monthThickness), solar, islamic, origin,
      StripPitch(monthOffset, monthThickness), monthOffset)
  {
    var pitch := StripPitch(monthOffset, monthThickness);
    var sp := SolarPlacements(solar, origin.x, origin.y, pitch);
    var ip := IslamicPlacements(islamic, origin.x, origin.y, pitch, monthOffset);
    assert Point(origin.x, origin.y + Rows(0, pitch)) == origin;
    StripLoopClosedForm(solar, islamic, 0, origin.x, origin.y, monthOffset, monthThickness, pitch);
    InterleavePositions(sp, ip);
  }

  /** The node renderer's drawing of a month: numerals placed between the box's arc endpoints. */
  function MonthDrawing(t: Trig, daysInYear: real, m: MonthInstance, origin: Point): (parts: seq<Drawable>)
    requires daysInYear != 0.0
    ensures LabelCount(parts) == 1
  {
    MonthRenderer.OneLabelPerMonth(t, MonthRenderer.ArcEndpointAverage, m, daysInYear, origin);
    MonthRenderer.GetMonth(t, MonthRenderer.ArcEndpointAverage, m, daysInYear, origin)
  }

  /** The drawings of the placed months, each at its own origin. */
  function StripDrawings(t: Trig, daysInYear: real, ps: seq<Placement>): (ds: seq<seq<Drawable>>)
    requires daysInYear != 0.0
    ensures |ds| == |ps|
    ensures forall k :: 0 <= k < |ds| ==> LabelCount(ds[k]) == 1
  {
    seq(|ps|, k requires 0 <= k < |ps| => MonthDrawing(t, daysInYear, ps[k].month, ps[k].origin))
  }

  /** A step that turns a month's parts into markup, taking text-path ids from a counter. */
  type MarkupStep = (TextPathIds, seq<Drawable>) -> (string, TextPathIds)

  /** A step advances the counter by one id per curved label, as the shared drawing routine does. */
  ghost predicate CountsLabels(draw: MarkupStep) {
    forall ids: TextPathIds, parts: seq<Drawable> :: draw(ids, parts).1 == TextPathIds(ids.next + LabelCount(parts))
  }

  /** The shared drawing routine of the month parts, as a step. */
  function Markup(fmt: real -> string): (draw: MarkupStep)
    ensures CountsLabels(draw)
  {
    (ids: TextPathIds, parts: seq<Drawable>) => DrawMonthParts(fmt, ids, parts)
  }

  /**
    The markup of month drawings in order, the counter threaded through: each drawing has one curved
    label, so the counter ends `|ds|` further on.
   */
  function RenderAll(draw: MarkupStep, ds: seq<seq<Drawable>>, ids: TextPathIds): (r: (seq<string>, TextPathIds))
    requires CountsLabels(draw)
    requires forall k :: 0 <= k < |ds| ==> LabelCount(ds[k]) == 1
    ensures |r.0| == |ds|
    ensures r.1 == TextPathIds(ids.next + |ds|)
    decreases |ds|
  {
    if |ds| == 0 then ([], ids)
    else
      var first := draw(ids, ds[0]);
      var rest := RenderAll(draw, ds[1..], first.1);
      ([first.0] + rest.0, rest.1)
  }

  /** The `k`-th drawing's label takes text-path id `ids.next + k`. */
  lemma {:induction false} RenderAllAt(draw: MarkupStep, ds: seq<seq<Drawable>>, ids: TextPathIds, k: nat)
    requires CountsLabels(draw)
    requires forall k :: 0 <= k < |ds| ==> LabelCount(ds[k]) == 1
    requires k < |ds|
    ensures RenderAll(draw, ds, ids).0[k] == draw(TextPathIds(ids.next + k), ds[k]).0
    decreases k
  {
    if k == 0 {
      assert ids == TextPathIds(ids.next + 0);
    } else {
      var first := draw(ids, ds[0]);
      RenderAllAt(draw, ds[1..], first.1, k - 1);
      assert ds[1..][k - 1] == ds[k];
    }
  }

  /** On a page drawn from a fresh counter, the `k`-th month's label takes text-path id `k`. */
  lemma PageMonthMarkup(fmt: real -> string, ds: seq<seq<Drawable>>, k: nat)
    requires forall k :: 0 <= k < |ds| ==> LabelCount(ds[k]) == 1
    requires k < |ds|
    ensures RenderAll(Markup(fmt), ds, FreshTextPathIds).0[k] == DrawMonthParts(fmt, TextPathIds(k), ds[k]).0
  {
    var draw := Markup(fmt);
    FreshPageAt(draw, ds, k);
    MarkupApplies(fmt, draw, TextPathIds(k), ds[k]);
  }

  /** From a fresh counter, the `k`-th drawing's label takes id `k`, whatever the drawing step. */
  lemma FreshPageAt(draw: MarkupStep, ds: seq<seq<Drawable>>, k: nat)
    requires CountsLabels(draw)
    requires forall k :: 0 <= k < |ds| ==> LabelCount(ds[k]) == 1
    requires k < |ds|
    ensures RenderAll(draw, ds, FreshTextPathIds).0[k] == draw(TextPathIds(k), ds[k]).0
  {
    RenderAllAt(draw, ds, FreshTextPathIds, k);
    assert TextPathIds(FreshTextPathIds.next + k) == TextPathIds(k);
  }

  /** The markup of a page of drawings, the `k`-th drawn with text-path id `k`. */
  function FreshPage(fmt: real -> string, ds: seq<seq<Drawable>>): (bodies: seq<string>)
    ensures |bodies| == |ds|
  {
    seq(|ds|, k requires 0 <= k < |ds| => DrawMonthParts(fmt, TextPathIds(k), ds[k]).0)
  }

  /** Drawing a page from a fresh counter gives each drawing the id of its position. */
  lemma FreshPageIsRenderAll(fmt: real -> string, ds: seq<seq<Drawable>>)
    requires forall k :: 0 <= k < |ds| ==> LabelCount(ds[k]) == 1
    ensures RenderAll(Markup(fmt), ds, FreshTextPathIds).0 == FreshPage(fmt, ds)
  {
    var r := RenderAll(Markup(fmt), ds, FreshTextPathIds).0;
    var f := FreshPage(fmt, ds);
    forall k | 0 <= k < |ds|
      ensures r[k] == f[k]
    {
      PageMonthMarkup(fmt, ds, k);
      assert f[k] == DrawMonthParts(fmt, TextPathIds(k), ds[k]).0;
    }
    assert |r| == |f|;
  }

  lemma MarkupApplies(fmt: real -> string, draw: MarkupStep, ids: TextPathIds, parts: seq<Drawable>)
    requires draw == Markup(fmt)
    ensures draw(ids, parts) == DrawMonthParts(fmt, ids, parts)
  {
  }

  /** The strip page's first Gregorian origin: horizontally centred, one outer radius plus the offset down. */
  function FirstOrigin(layout: ComputedLayout): Point {
    Point(layout.widthCenter, layout.outermostRadius + layout.verticalOffsetScaled)
  }

  /**
    `generateCalendarSvg`: the portrait page header, each placed month's markup, and the closing tag,
    one per line. The counter is reset first, so `ids`, the counter left by earlier drawing, is unused.
   */
  function GenerateCalendarSvg(
    t: Trig, fmt: real -> string, config: LayoutConfig, layout: ComputedLayout,
    solarMonths: seq<MonthInstance>, islamicMonths: seq<MonthInstance>, ids: TextPathIds): (svg: string)
    requires config.daysInYear != 0.0
    ensures var header := CanvasHeader(fmt, VerticalPageCanvas());
      |header| <= |svg| && svg[..|header|] == header
    ensures |svg| >= 6 && svg[|svg| - 6..] == "</svg>"
  {
    var resetIds := FreshTextPathIds;
    var placements := StripLoop(solarMonths, islamicMonths, 0, FirstOrigin(layout), layout.monthOffset, layout.monthThickness);
    var bodies := RenderAll(Markup(fmt), StripDrawings(t, config.daysInYear, placements), resetIds).0;
    var lines := [CanvasHeader(fmt, VerticalPageCanvas())] + bodies + ["</svg>"];
    JoinWithEnds(lines, '\n');
    JoinWith(lines, '\n')
  }

  /** A joined list starts with its first part and ends with its last. */
  lemma {:induction false} JoinWithEnds(parts: seq<string>, sep: char)
    requires 0 < |parts|
    ensures |parts[0]| <= |JoinWith(parts, sep)| && JoinWith(parts, sep)[..|parts[0]|] == parts[0]
    ensures var last := parts[|parts| - 1];
      |last| <= |JoinWith(parts, sep)| && JoinWith(parts, sep)[|JoinWith(parts, sep)| - |last|..] == last
  {
    if |parts| > 1 {
      JoinWithEnds(parts[1..], sep);
      var rest := JoinWith(parts[1..], sep);
      assert JoinWith(parts, sep) == parts[0] + ([sep] + rest);
      assert parts[1..][|parts[1..]| - 1] == parts[|parts| - 1];
    }
  }

  /**
    The strip page, line by line: the header, then the markup of each placed month in loop order with
    text-path id `k` for the `k`-th, then the closing tag.
   */
  lemma CalendarPageLines(
    t: Trig, fmt: real -> string, config: LayoutConfig, layout: ComputedLayout,
    solarMonths: seq<MonthInstance>, islamicMonths: seq<MonthInstance>, ids: TextPathIds)
    requires config.daysInYear != 0.0
    ensures GenerateCalendarSvg(t, fmt, config, layout, solarMonths, islamicMonths, ids)
         == JoinWith([CanvasHeader(fmt, VerticalPageCanvas())]
                     + FreshPage(fmt, StripDrawings(t, config.daysInYear,
                         StripLoop(solarMonths, islamicMonths, 0, FirstOrigin(layout), layout.monthOffset, layout.monthThickness)))
                     + ["</svg>"], '\n')
  {
    var placements := StripLoop(solarMonths, islamicMonths, 0, FirstOrigin(layout), layout.monthOffset, layout.monthThickness);
    FreshPageIsRenderAll(fmt, StripDrawings(t, config.daysInYear, placements));
  }

  /**
    The cover page, line by line: the header, then one turned group per scheduled month around the
    markup of that month drawn with text-path id `k` for the `k`-th, then the closing tag.
   */
  lemma CoverPageLines(
    t: Trig, fmt: real -> string, config: LayoutConfig, layout: ComputedLayout,
    solarMonths: seq<MonthInstance>, islamicMonths: seq<MonthInstance>, daysElapsedIslamicBase: real,
    ids: TextPathIds)
    requires config.daysInYear != 0.0 && 0 < |solarMonths| && 0 < |islamicMonths|
    ensures var items := CoverItems(solarMonths, islamicMonths, daysElapsedIslamicBase);
      GenerateCircleCoverSvg(t, fmt, config, layout, solarMonths, islamicMonths, daysElapsedIslamicBase, ids)
      == JoinWith([CanvasHeader(fmt, VerticalPageCanvas())]
                  + CoverGroups(fmt, config.daysInYear, items,
                      FreshPage(fmt, CoverDrawings(t, config.daysInYear, items, FirstOrigin(layout))), FirstOrigin(layout))
                  + ["</svg>"], '\n')
  {
    var items := CoverItems(solarMonths, islamicMonths, daysElapsedIslamicBase);
    FreshPageIsRenderAll(fmt, CoverDrawings(t, config.daysInYear, items, FirstOrigin(layout)));
  }

  /** Both page generators reset the counter, so their output does not depend on earlier drawing. */
  lemma PagesIgnoreEarlierIds(
    t: Trig, fmt: real -> string, config: LayoutConfig, layout: ComputedLayout,
    solarMonths: seq<MonthInstance>, islamicMonths: seq<MonthInstance>, base: real, a: TextPathIds, b: TextPathIds)
    requires config.daysInYear != 0.0
    ensures GenerateCalendarSvg(t, fmt, config, layout, solarMonths, islamicMonths, a)
         == GenerateCalendarSvg(t, fmt, config, layout, solarMonths, islamicMonths, b)
    ensures 0 < |solarMonths| && 0 < |islamicMonths| ==>
      GenerateCircleCoverSvg(t, fmt, config, layout, solarMonths, islamicMonths, base, a)
      == GenerateCircleCoverSvg(t, fmt, config, layout, solarMonths, islamicMonths, base, b)
  {
  }

  /** `calculate_circle_rotation` and the cover's rotation: the angle of a month's middle day. */
  function CircleRotation(daysElapsed: real, numDays: real, daysInYear: real): (r: real)
    requires daysInYear != 0.0
    ensures r * daysInYear == 360.0 * (daysElapsed + numDays / 2.0)
  {
    360.0 * (daysElapsed + numDays / 2.0) / daysInYear
  }

  /** The sum of the months' angular widths. */
  function SumWidths(days: seq<nat>, daysInYear: real): real
    requires daysInYear != 0.0
  {
    if |days| == 0 then 0.0 else MonthRenderer.MonthWidth(days[0], daysInYear) + SumWidths(days[1..], daysInYear)
  }

  lemma {:induction false} SumWidthsIsShareOfYear(days: seq<nat>, daysInYear: real)
    requires daysInYear != 0.0
    ensures SumWidths(days, daysInYear) * daysInYear == 360.0 * SumNat(days) as real
  {
    if |days| > 0 {
      SumWidthsIsShareOfYear(days[1..], daysInYear);
      var w := MonthRenderer.MonthWidth(days[0], daysInYear);
      var rest := SumWidths(days[1..], daysInYear);
      assert (w + rest) * daysInYear == w * daysInYear + rest * daysInYear;
    }
  }

  /** The leap-year months exactly fill the circle in a 366-day year. */
  lemma LeapYearWidthsFillCircle()
    ensures SumWidths(SolarMonthDays, 366.0) == 360.0
  {
    SumWidthsIsShareOfYear(SolarMonthDays, 366.0);
    SolarMonthDaysTotal();
  }

  /** A month on the cover and its running day count (`daysElapsed`). */
  datatype CoverItem = CoverItem(month: MonthInstance, daysElapsed: real)

  /**
    The loop of `generateCircleCoverSvg` from month `i`: each Gregorian month with the Gregorian
    accumulator, then its Hijri partner (if any) with the Hijri accumulator; each accumulator then
    advances by its month's days.
   */
  function CoverLoop(solar: seq<MonthInstance>, islamic: seq<MonthInstance>, i: nat, daysElapsed: real,
    daysElapsedIslamic: real): seq<CoverItem>
    requires i <= |solar|
    decreases |solar| - i
  {
    if i == |solar| then []
    else
      var solarPart := [CoverItem(solar[i], daysElapsed)];
      var islamicPart := if i < |islamic| then [CoverItem(islamic[i], daysElapsedIslamic)] else [];
      var nextIslamic := if i < |islamic| then daysElapsedIslamic + islamic[i].numDays as real else daysElapsedIslamic;
      solarPart + islamicPart + CoverLoop(solar, islamic, i + 1, daysElapsed + solar[i].numDays as real, nextIslamic)
  }

  /** Each month with the days of the months before it added to a starting count. */
  function Accumulated(ms: seq<MonthInstance>, start: real): (items: seq<CoverItem>)
    ensures |items| == |ms|
    ensures forall j :: 0 <= j < |ms| ==> items[j] == CoverItem(ms[j], start + SumInstanceDays(ms[..j]) as real)
  {
    seq(|ms|, j requires 0 <= j < |ms| => CoverItem(ms[j], start + SumInstanceDays(ms[..j]) as real))
  }

  lemma SumPrefixStep(ms: seq<MonthInstance>, i: nat)
    requires i < |ms|
    ensures SumInstanceDays(ms[..i + 1]) == SumInstanceDays(ms[..i]) + ms[i].numDays
  {
    assert ms[..i + 1] == ms[..i] + [ms[i]];
    SumInstanceDaysAppend(ms[..i], [ms[i]]);
    assert [ms[i]][1..] == [];
  }

  /** The running day counts are the sums of the earlier months' days. */
  lemma {:induction false} CoverLoopClosedForm(
    solar: seq<MonthInstance>, islamic: seq<MonthInstance>, i: nat, start: real, startIslamic: real,
    d: real, dI: real)
    requires i <= |solar|
    requires d == start + SumInstanceDays(solar[..i]) as real
    requires dI == startIslamic + SumInstanceDays(islamic[..Min(i, |islamic|)]) as real
    ensures CoverLoop(solar, islamic, i, d, dI)
      == Interleave(Accumulated(solar, start), Accumulated(islamic, startIslamic), i)
    decreases |solar| - i
  {
    if i < |solar| {
      var a, b := Accumulated(solar, start), Accumulated(islamic, startIslamic);
      var nextIslamic := if i < |islamic| then dI + islamic[i].numDays as real else dI;
      CoverLoopStep(solar, islamic, i, start, startIslamic, d, dI, a, b);
      CoverLoopClosedForm(solar, islamic, i + 1, start, startIslamic, d + solar[i].numDays as real, nextIslamic);
      assert Interleave(a, b, i) == [a[i]] + (if i < |b| then [b[i]] else []) + Interleave(a, b, i + 1);
    }
  }

  /** One round of the cover loop emits the accumulated solar month `i` and, while one is left, Hijri month `i`. */
  lemma CoverLoopStep(
    solar: seq<MonthInstance>, islamic: seq<MonthInstance>, i: nat, start: real, startIslamic: real,
    d: real, dI: real, a: seq<CoverItem>, b: seq<CoverItem>)
    requires i < |solar|
    requires d == start + SumInstanceDays(solar[..i]) as real
    requires dI == startIslamic + SumInstanceDays(islamic[..Min(i, |islamic|)]) as real
    requires a == Accumulated(solar, start) && b == Accumulated(islamic, startIslamic)
    ensures var nextIslamic := if i < |islamic| then dI + islamic[i].numDays as real else dI;
      CoverLoop(solar, islamic, i, d, dI)
        == [a[i]] + (if i < |b| then [b[i]] else []) + CoverLoop(solar, islamic, i + 1, d + solar[i].numDays as real, nextIslamic)
    ensures d + solar[i].numDays as real == start + SumInstanceDays(solar[..i + 1]) as real
    ensures (if i < |islamic| then dI + islamic[i].numDays as real else dI)
      == startIslamic + SumInstanceDays(islamic[..Min(i + 1, |islamic|)]) as real
  {
    SumPrefixStep(solar, i);
    if i < |islamic| {
      SumPrefixStep(islamic, i);
      assert b[i] == CoverItem(islamic[i], dI);
    }
    assert a[i] == CoverItem(solar[i], d);
  }

  /** The cover group's transform: shrink, turn about the month's origin, then shift by `translateY`. */
  function CoverTransform(fmt: real -> string, rotation: real, origin: Point, translateY: real): string {
    "translate(75, 50) scale(0.3) rotate(" + fmt(rotation) + ", " + fmt(origin.x) + ", " + fmt(origin.y)
    + ") translate(0, " + fmt(translateY) + ")"
  }

  /** `circleFormFactor`: a group turned so that the month's middle day lies at its place in the year. */
  function CircleFormFactor(fmt: real -> string, svgContent: string, month: MonthInstance, daysElapsed: real,
    origin: Point, originFirst: Point, daysInYear: real): (g: string)
    requires daysInYear != 0.0
    ensures g == Group(svgContent, Some(CoverTransform(fmt,
      CircleRotation(daysElapsed, month.numDays as real, daysInYear), origin, originFirst.y - origin.y)))
  {
    var rotation := 360.0 * (daysElapsed + month.numDays as real / 2.0) / daysInYear;
    var translateY := originFirst.y - origin.y;
    var transform := "translate(75, 50) scale(0.3) rotate(" + fmt(rotation) + ", " + fmt(origin.x) + ", "
      + fmt(origin.y) + ") translate(0, " + fmt(translateY) + ")";
    assert |transform| > 0;
    "<g transform=\"" + transform + "\">\n" + svgContent + "\n</g>"
  }

  /** Every cover month is drawn at the same origin. */
  function CoverDrawings(t: Trig, daysInYear: real, items: seq<CoverItem>, origin: Point): (ds: seq<seq<Drawable>>)
    requires daysInYear != 0.0
    ensures |ds| == |items|
    ensures forall k :: 0 <= k < |ds| ==> LabelCount(ds[k]) == 1
  {
    seq(|items|, k requires 0 <= k < |items| => MonthDrawing(t, daysInYear, items[k].month, origin))
  }

  /**
    The cover groups in order: each month's markup turned to its place, with no final shift because
    every month is anchored at the first origin.
   */
  function CoverGroups(fmt: real -> string, daysInYear: real, items: seq<CoverItem>, bodies: seq<string>, origin: Point)
    : (gs: seq<string>)
    requires daysInYear != 0.0 && |bodies| == |items|
    ensures |gs| == |items|
    ensures forall k :: 0 <= k < |items| ==>
      gs[k] == Group(bodies[k], Some(CoverTransform(fmt,
        CircleRotation(items[k].daysElapsed, items[k].month.numDays as real, daysInYear), origin, 0.0)))
  {
    seq(|items|, k requires 0 <= k < |items| =>
      CircleFormFactor(fmt, bodies[k], items[k].month, items[k].daysElapsed, origin, origin, daysInYear))
  }

  /** The cover's starting counts: the first months are centred on 0 and on `daysElapsedIslamicBase`. */
  function CoverItems(solarMonths: seq<MonthInstance>, islamicMonths: seq<MonthInstance>, daysElapsedIslamicBase: real)
    : seq<CoverItem>
    requires 0 < |solarMonths| && 0 < |islamicMonths|
  {
    var daysElapsed := -(solarMonths[0].numDays as real) / 2.0;
    var daysElapsedIslamic := daysElapsedIslamicBase - islamicMonths[0].numDays as real / 2.0;
    CoverLoop(solarMonths, islamicMonths, 0, daysElapsed, daysElapsedIslamic)
  }

  /**
    The cover order and running counts: Gregorian month `j` with `start` plus the days of the
    Gregorian months before it, followed (when there is one) by Hijri month `j` with `startIslamic`
    plus the days of the Hijri months before it.
   */
  predicate IsCoverSchedule(items: seq<CoverItem>, solar: seq<MonthInstance>, islamic: seq<MonthInstance>,
    start: real, startIslamic: real)
  {
    && |items| == |solar| + Min(|solar|, |islamic|)
    && (forall j :: 0 <= j < |solar| ==>
          items[j + Min(j, |islamic|)] == CoverItem(solar[j], start + SumInstanceDays(solar[..j]) as real))
    && (forall j :: 0 <= j < |solar| && j < |islamic| ==>
          items[2 * j + 1] == CoverItem(islamic[j], startIslamic + SumInstanceDays(islamic[..j]) as real))
  }

  /** The cover loop follows the cover schedule, the first months centred on 0 and on the base. */
  lemma CoverSchedule(solar: seq<MonthInstance>, islamic: seq<MonthInstance>, base: real)
    requires 0 < |solar| && 0 < |islamic|
    ensures IsCoverSchedule(CoverItems(solar, islamic, base), solar, islamic,
      -(solar[0].numDays as real) / 2.0, base - islamic[0].numDays as real / 2.0)
  {
    var start := -(solar[0].numDays as real) / 2.0;
    var startIslamic := base - islamic[0].numDays as real / 2.0;
    assert solar[..0] == [] && islamic[..Min(0, |islamic|)] == [];
    assert start + SumInstanceDays(solar[..0]) as real == start;
    assert startIslamic + SumInstanceDays(islamic[..Min(0, |islamic|)]) as real == startIslamic;
    CoverLoopClosedForm(solar, islamic, 0, start, startIslamic, start, startIslamic);
    InterleavePositions(Accumulated(solar, start), Accumulated(islamic, startIslamic));
  }

  /**
    Cover rotations of the Gregorian ring: month `j` is turned by 360·(Σ_{k<j} n_k + (n_j − n_0)/2)/D
    degrees, so the first is not turned at all.
   */
  lemma CoverSolarRotation(solar: seq<MonthInstance>, islamic: seq<MonthInstance>, base: real, daysInYear: real, j: nat)
    requires 0 < |solar| && 0 < |islamic| && daysInYear != 0.0 && j < |solar|
    ensures |CoverItems(solar, islamic, base)| == |solar| + Min(|solar|, |islamic|)
    ensures CoverItems(solar, islamic, base)[j + Min(j, |islamic|)].month == solar[j]
    ensures CircleRotation(CoverItems(solar, islamic, base)[j + Min(j, |islamic|)].daysElapsed,
        solar[j].numDays as real, daysInYear) * daysInYear
      == 360.0 * (SumInstanceDays(solar[..j]) as real + (solar[j].numDays as real - solar[0].numDays as real) / 2.0)
  {
    var items := CoverItems(solar, islamic, base);
    var start := -(solar[0].numDays as real) / 2.0;
    CoverSchedule(solar, islamic, base);
    assert items[j + Min(j, |islamic|)] == CoverItem(solar[j], start + SumInstanceDays(solar[..j]) as real);
    ScheduledRotation(items[j + Min(j, |islamic|)], solar[j], start, SumInstanceDays(solar[..j]), daysInYear);
  }

  /** The first Gregorian month is not turned; the first Hijri month, drawn second, is turned by 360·base/D. */
  lemma CoverFirstRotations(solar: seq<MonthInstance>, islamic: seq<MonthInstance>, base: real, daysInYear: real)
    requires 0 < |solar| && 0 < |islamic| && daysInYear != 0.0
    ensures |CoverItems(solar, islamic, base)| == |solar| + Min(|solar|, |islamic|)
    ensures CoverItems(solar, islamic, base)[0].month == solar[0]
    ensures CircleRotation(CoverItems(solar, islamic, base)[0].daysElapsed, solar[0].numDays as real, daysInYear) == 0.0
    ensures CoverItems(solar, islamic, base)[1].month == islamic[0]
    ensures CircleRotation(CoverItems(solar, islamic, base)[1].daysElapsed, islamic[0].numDays as real, daysInYear)
      * daysInYear == 360.0 * base
  {
    var items := CoverItems(solar, islamic, base);
    var start := -(solar[0].numDays as real) / 2.0;
    var startIslamic := base - islamic[0].numDays as real / 2.0;
    CoverSchedule(solar, islamic, base);
    assert items[0] == CoverItem(solar[0], start + SumInstanceDays(solar[..0]) as real) by {
      assert items[0 + Min(0, |islamic|)] == items[0];
    }
    assert solar[..0] == [];
    ScheduledRotation(items[0], solar[0], start, 0, daysInYear);
    assert items[1] == CoverItem(islamic[0], startIslamic + SumInstanceDays(islamic[..0]) as real) by {
      assert items[2 * 0 + 1] == items[1];
    }
    assert islamic[..0] == [];
    ScheduledRotation(items[1], islamic[0], startIslamic, 0, daysInYear);
  }

  /**
    Cover rotations of the Hijri ring: month `j` is turned by
    360·(base + Σ_{k<j} h_k + (h_j − h_0)/2)/D degrees.
   */
  lemma CoverIslamicRotation(solar: seq<MonthInstance>, islamic: seq<MonthInstance>, base: real, daysInYear: real, j: nat)
    requires daysInYear != 0.0 && j < |solar| && j < |islamic|
    ensures |CoverItems(solar, islamic, base)| == |solar| + Min(|solar|, |islamic|)
    ensures CoverItems(solar, islamic, base)[2 * j + 1].month == islamic[j]
    ensures CircleRotation(CoverItems(solar, islamic, base)[2 * j + 1].daysElapsed, islamic[j].numDays as real, daysInYear)
         * daysInYear
         == 360.0 * (base + SumInstanceDays(islamic[..j]) as real
                     + (islamic[j].numDays as real - islamic[0].numDays as real) / 2.0)
  {
    var items := CoverItems(solar, islamic, base);
    var startIslamic := base - islamic[0].numDays as real / 2.0;
    CoverSchedule(solar, islamic, base);
    assert items[2 * j + 1] == CoverItem(islamic[j], startIslamic + SumInstanceDays(islamic[..j]) as real);
    ScheduledRotation(items[2 * j + 1], islamic[j], startIslamic, SumInstanceDays(islamic[..j]), daysInYear);
  }

  /** The rotation of a scheduled month, in terms of its running count. */
  lemma ScheduledRotation(item: CoverItem, month: MonthInstance, start: real, before: nat, daysInYear: real)
    requires daysInYear != 0.0 && item == CoverItem(month, start + before as real)
    ensures CircleRotation(item.daysElapsed, month.numDays as real, daysInYear) * daysInYear
      == 360.0 * (start + before as real + month.numDays as real / 2.0)
  {
  }

  /**
    `generateCircleCoverSvg`: the portrait page header, one turned group per drawn month, the closing
    tag. The counter is reset first; the origin never moves, so every group's final shift is zero.
   */
  function GenerateCircleCoverSvg(
    t: Trig, fmt: real -> string, config: LayoutConfig, layout: ComputedLayout,
    solarMonths: seq<MonthInstance>, islamicMonths: seq<MonthInstance>, daysElapsedIslamicBase: real,
    ids: TextPathIds): (svg: string)
    requires config.daysInYear != 0.0 && 0 < |solarMonths| && 0 < |islamicMonths|
    ensures var header := CanvasHeader(fmt, VerticalPageCanvas());
      |header| <= |svg| && svg[..|header|] == header
    ensures |svg| >= 6 && svg[|svg| - 6..] == "</svg>"
  {
    var resetIds := FreshTextPathIds;
    var items := CoverItems(solarMonths, islamicMonths, daysElapsedIslamicBase);
    var origin := FirstOrigin(layout);
    var bodies := RenderAll(Markup(fmt), CoverDrawings(t, config.daysInYear, items, origin), resetIds).0;
    var groups := CoverGroups(fmt, config.daysInYear, items, bodies, origin);
    var lines := [CanvasHeader(fmt, VerticalPageCanvas())] + groups + ["</svg>"];
    JoinWithEnds(lines, '\n');
    JoinWith(lines, '\n')
  }
}
