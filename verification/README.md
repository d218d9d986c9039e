# Circular calendar: a Dafny model

This project models the core of a generator for a two-ring wall calendar. The outer ring holds the
twelve Gregorian months of a leap year, each a wedge whose width is its share of 366 days, with one
date box and numeral per day. The inner ring holds the twelve Hijri months, rotated so that the
current Hijri month is first and turned so that its first day sits beside the Gregorian date it
falls on. The generator lays the months out either as strips on printable pages or as a closed
circle for the cover, and a companion script packs the ring's arcs onto sticker sheets for a
cutting machine.

The model covers:

- `Geometry` and `Primitives`: polar points, arcs and ring wedges with their SVG elliptical-arc
  flags, the path strings built from them, the centred and curved text elements, and the
  text-path id counter as explicit state (`TextPathIds`) with its reset.
- `MonthRenderer` and `AppMonth`: turning one month into its drawables (background wedge, curved
  name label, then a date box and a numeral per day), in the two ports, which differ only in where
  a numeral is centred.
- `CalendarData` and `Config`: the month tables and palettes, month instances, the layout derived
  from the scale factor (25 mm to the inch and π taken as 3.14), and pagination.
- `CalendarBuilder`: the Gregorian and Hijri month instances, the strip page's placements and the
  circular cover's running day counts and rotations, for both the TypeScript builder and the
  Python layout.
- `IslamicAlignment`: the heuristic that finds the current Hijri month from a fixed reference day
  (1 Sha'ban 1447 = 20 January 2026) and a mean lunar month of 29.530588853 days, its Hijri-input
  path, month rotation and month names, in both the TypeScript and the Python versions.
- `CricutLayout`: the sticker script's radius and scale conversions, the printable-area test and
  the two greedy sheet-packing loops.
- `SizeParser`, `CliArgs`, `GenerateRoute`: the SVG size-to-points parser, the command line's
  date options and the web route's date parameters.
- `Civil`, `Text`, `Wrappers`: proleptic Gregorian day numbers (day 0 is 1 January of year 1, all
  UTC), digit strings, `split`, and the `Option`/`Result` types.

Things the program gets from its platform are parameters. Sine and cosine are a `Trig` value in
degrees. Facts about them (sin² + cos² = 1, the values at quarter turns) are assumed only by the
members that need them, as `requires`. JavaScript's formatting of a number as text is a function
`fmt`. "Today" is a day number handed in by the caller. Lengths and angles are exact `real`s.

## Model

| member | source | states |
|---|---|---|
| Geometry.InchToMillimeter | node/src/lib/geometry.ts:13-18 | dividing the result by 25 gives the inches back, and every positive length comes out shorter than at the true 25.4 mm per inch |
| Geometry.PageSizesInMillimeters | node/src/lib/geometry.ts:16-18 | 1, 8.5 and 11 inches are 25, 212.5 and 275 mm |
| Geometry.GetCoordinatePoint | node/src/lib/geometry.ts:35-44 | a zero radius gives the origin back |
| Geometry.PolarPointOnCircle | node/src/lib/geometry.ts:35-44 | when sin² + cos² = 1, every polar point lies at distance `radius` from the origin |
| Geometry.ClockPositions | node/src/lib/geometry.ts:27-44 | −90°, 0°, 90° and 180° land at 12, 3, 6 and 9 o'clock, with y growing downward |
| Geometry.GetArc | node/src/lib/geometry.ts:49-69 | the arc keeps the radius; its ends are the polar points of the start and stop angles; x-axis-rotation is 0; the large-arc flag is 0 exactly when the angles are at most 180° apart; the sweep flag is 1 exactly when start < stop |
| Geometry.HalfTurnIsSmallArc | node/src/lib/geometry.ts:62 | an arc of exactly 180°, in either direction, gets large-arc flag 0 |
| Geometry.GetDimensionalArc | node/src/lib/geometry.ts:74-88 | the outer arc runs start→stop on the outer circle and the inner arc stop→start on the inner circle; stroke and fill are kept; the two large-arc flags agree; for distinct angles the sweep flags differ |
| Geometry.PageCanvas | node/src/lib/geometry.ts:93-97 | the landscape page is 275 × 212.5 mm |
| Geometry.VerticalPageCanvas | node/src/lib/geometry.ts:102-106 | the portrait page is the landscape page with width and height swapped |
| Primitives.PointTextSplits | node/src/lib/primitives.ts:31-33 | when numbers never render with a comma, splitting a point's text on ',' gives back its two coordinates |
| Primitives.ParamsTextRoundTrip | node/src/lib/geometry.ts:66 | the "rotation large-arc sweep" text splits on spaces into three digit strings worth the three flags |
| Primitives.ArcPath | node/src/lib/primitives.ts:58-64 | an arc's path begins with its mode letter, a space and its start point |
| Primitives.ArcPathModesDiffer | node/src/lib/primitives.ts:58-64 | the NEW path starts with 'm', the LINE_TO path with 'L', and they agree after the first character |
| Primitives.DimensionalArcPath | node/src/lib/primitives.ts:95-101 | a ring segment's path opens with "m" at the outer arc's start and ends with "L" back at that same point, so the outline closes |
| Primitives.ArcElement | node/src/lib/primitives.ts:9-78 | an arc's element has no id, a black stroke, no fill and the default stroke width 0.07 |
| Primitives.TextPathIdInjective | node/src/lib/primitives.ts:165 | different counter values give different "textpath-N" ids |
| Primitives.Draw | node/src/lib/primitives.ts:107-179 | a wedge draws one path of its closed outline at the default width; a numeral draws one text shifted down by fontSize/10 but rotated about the unshifted point; a curved text draws a path with id "textpath-N" for the current N followed by a text path whose href names that id; only curved text advances the counter, by one |
| Primitives.DrawParts | node/src/lib/geometry.ts:111-125 | all parts' elements in order: one per part plus one per curved label; the counter advances by the number of labels; the path ids are the consecutive counter values; every text path directly follows the path it names |
| Primitives.DrawPathIds | node/src/lib/primitives.ts:164-179 | one part's path ids are the ids it consumes, its references resolve, and it never starts with a text path |
| Primitives.TextPathIdsDistinct | node/src/lib/primitives.ts:140-165 | all ids drawn from one counter state are pairwise distinct |
| Primitives.IdRangeDistinct | node/src/lib/primitives.ts:165 | consecutive counter values give pairwise distinct ids |
| Primitives.DrawMonthParts | node/src/lib/geometry.ts:111-125 | the month's markup consumes one id per curved label |
| Primitives.DrawMonthPartsLines | node/src/lib/geometry.ts:111-125 | when no element contains a line break, splitting the markup on '\n' gives back the elements in order |
| Primitives.Group | node/src/lib/geometry.ts:130-139 | the group carries `transform=` exactly when a non-empty transform is given |
| Primitives.GroupWithMonthParts | node/src/lib/geometry.ts:130-139 | grouping consumes the same ids as drawing the parts |
| MonthRenderer.MonthWidth | node/src/lib/month-renderer.ts:31 | the month's width times the year's length is 360 times its days: its share of the full turn |
| MonthRenderer.MonthSpan | node/src/lib/month-renderer.ts:33-37 | the stop angle is the width past the start angle, and the two are centred on −90° |
| MonthRenderer.DateWidth | node/src/lib/month-renderer.ts:83 | for a month with days, the days' widths add up to the month's width |
| MonthRenderer.DateBand | node/src/lib/month-renderer.ts:58-66 | the date band is `dateBoxHeight` thick and lies against the outer edge when `dateOnTop`, against the inner edge otherwise |
| MonthRenderer.NameBand | node/src/lib/month-renderer.ts:58-66 | the name band is the rest of the ring on the other side of the date band, its thickness the ring's less the date box height |
| MonthRenderer.LabelRadius | node/src/lib/month-renderer.ts:61-65 | the label radius is equally far from both edges of the name band |
| MonthRenderer.LabelFontSize | node/src/lib/month-renderer.ts:77-78 | twice the label's font size is the name band's thickness |
| MonthRenderer.DayPair | node/src/lib/month-renderer.ts:91-122 | one day draws its box over the date band and its angles, filled #fbebb3, then its numeral reading `i + 1`, sized 0.6 of the band, turned by `dateAngleOffset`; the node rule centres it midway along the box's diagonal, the app rule at the box's polar centre |
| MonthRenderer.DateBandMiddle | app/src/lib/month.ts:143-148 | the numeral radius is equally far from both edges of the date band |
| MonthRenderer.DayMiddleAngleIsBoxMiddle | app/src/lib/month.ts:143 | day `i`'s middle angle is halfway between its box's two boundary angles |
| MonthRenderer.DayParts | node/src/lib/month-renderer.ts:84-123 | the loop from day `i` draws two parts per remaining day, and day `i + j`'s box spans `[curr + j·w, curr + (j+1)·w]` of the running angle |
| MonthRenderer.GetMonth | node/src/lib/month-renderer.ts:26-126 | 2 + 2·numDays parts: the background wedge over the whole ring and span, filled with the month's colour; the curved name on the label radius, running start→stop, or stop→start when `nameUpsideDown`, at the label font size; then each day's pair at its place in the month |
| MonthRenderer.LabelReadsUpright | node/src/lib/month-renderer.ts:68-74 | the name's arc has sweep flag 1 exactly when the name is not upside down |
| MonthRenderer.DateBoxesTileMonth | node/src/lib/month-renderer.ts:83-89 | with exact reals the last date box ends exactly at the month's stop angle |
| MonthRenderer.DayElements | node/src/lib/month-renderer.ts:58-122 | day `i`'s box, at index 2 + 2i, is filled #fbebb3 and lies in the band chosen by `dateOnTop`; its numeral, at 3 + 2i, reads `i + 1`, is 0.6·dateBoxHeight in size and is turned by `dateAngleOffset` |
| MonthRenderer.RulesDifferOnlyInNumeralCentres | app/src/lib/month.ts:72-161 | the two ports draw the same parts except for the points numerals are centred on |
| MonthRenderer.NoLabels | node/src/lib/primitives.ts:164-165 | parts without curved text consume no text-path ids |
| MonthRenderer.OneLabelPerMonth | node/src/lib/month-renderer.ts:79-123 | a month holds exactly one curved text, so drawing it consumes exactly one text-path id |
| AppMonth.SolarYear | app/src/lib/month.ts:54-69 | the app's table has twelve months with the same numbers, names, day counts and colours as the shared table |
| AppMonth.SumDaysIsTotalDays | app/src/lib/month.ts:54-69 | a table of single day counts totals what the shared table's day lists total |
| AppMonth.SolarYearTotal | app/src/lib/month.ts:54-69 | the app's twelve months total 366 days |
| AppMonth.GetMonth | app/src/lib/month.ts:72-161 | the app's month has 2 + 2·numDays parts |
| AppMonth.ElementCounts | app/src/lib/month.ts:72-161 | a 31-day month has 64 parts and a 29-day month 60, whatever the year's length |
| AppMonth.NumeralAtBoxCentre | app/src/lib/month.ts:141-148 | day `i`'s numeral is the polar point at the date band's middle radius and the box's middle angle |
| CalendarData.SumNatAppend | node/src/lib/calendar-data.ts:38 | the day total of two lists put together is the sum of their totals |
| CalendarData.SumNatConstant | node/src/lib/calendar-data.ts:222-237 | a list of equal day counts totals its length times the count |
| CalendarData.SolarMonthDaysTotal | node/src/lib/calendar-data.ts:194-209 | the Gregorian day counts 31, 29, 31, 30, 31, 30, 31, 31, 30, 31, 30, 31 add up to 366 |
| CalendarData.TotalDaysOfSingles | node/src/lib/calendar-data.ts:35-40 | a table with one day count per month draws the sum of those counts |
| CalendarData.SolarYear | node/src/lib/calendar-data.ts:192-209 | twelve months numbered 1..12, January to December, with the leap-year day counts and colour `solarColors[i]`, drawing 366 days |
| CalendarData.SolarDaysAreLeapYearDays | node/src/lib/calendar-data.ts:194-209 | each Gregorian month's day count is that month's length in the leap year 2024 |
| CalendarData.IslamicYearCanonical | node/src/lib/calendar-data.ts:215-237 | twelve months numbered 1..12, Muharram first, each [30] days with colour `islamicColors[i]`, drawing 360 days |
| CalendarData.CreateMonthInstance | node/src/lib/calendar-data.ts:242-259 | the instance copies the month's name, first day count and colour and the six settings verbatim, and nothing else |
| Config.Pagination | node/src/lib/config.ts:81-93 | (5, 2) exactly when the scale factor is at most 0.5, (4, 1) exactly when it is above 0.5 and below 0.75, (2, 1) exactly from 0.75 on |
| Config.OutermostRadius | node/src/lib/config.ts:72-73 | twelve 8-inch months, at 25 mm per inch, go once round the circle when π is taken as 3.14 |
| Config.ComputeLayout | node/src/lib/config.ts:67-110 | the outer radius as above; inner radius 0.92 of it; thickness the difference; date box a fifth of the thickness; for a positive scale both are positive and inner < outer; the centre half the scaled canvas width in millimetres past the extra offset; the scaled vertical offset; the pagination of the scale; stroke 0.1 and gap 4 times the scale |
| Config.LayoutIgnoresDaysInYear | node/src/lib/config.ts:67-69 | the year's length in the configuration does not change the layout |
| Config.RadiiGrowWithScale | node/src/lib/config.ts:71-76 | a larger scale factor gives strictly larger radii, thickness and date box height |
| Config.WidthCentreOfLetterCanvas | node/src/lib/config.ts:78 | at scale 1 on an 11-inch canvas the centre is at 137.5 mm without the extra offset and 147.5 mm with 10 mm |
| Config.DefaultLayout | node/src/lib/config.ts:56-95 | the default configuration gives the shared default stroke width 0.07, 4 × 1 pages, a centre at 106.25 mm and a 21 mm vertical offset |
| Config.CalculateLayoutParams | python/layout.py:33-65 | the Python record keeps the scale factor and places the first origin at the centre, one outer radius plus the vertical offset down |
| Config.PythonLayoutAgrees | python/layout.py:33-65 | the Python layout is the TypeScript layout of an 11-inch canvas with 10 mm extra and 30 mm vertical offset: same radii, thickness, date box, centre, offset, gap and pagination |
| Config.OffsetPointBy | python/layout.py:83-85 | the translated point differs from the original by exactly the two offsets |
| Config.OffsetsCompose | python/layout.py:83-85 | two translations are one by the summed offsets, and the zero translation changes nothing |
| CalendarBuilder.DateRotation | node/src/lib/calendar-builder.ts:23-25 | month 1's numerals are not turned, and months 1..12 are turned by between −330° and 0° |
| CalendarBuilder.DateRotationDifferences | python/layout.py:78-80 | two months' rotations differ by 30° per month between them, so they are equal exactly when the months are |
| CalendarBuilder.SumInstanceDaysOf | node/src/lib/calendar-builder.ts:75 | instances whose day counts are a list's entries draw the sum of the list |
| CalendarBuilder.CreateSolarMonthInstances | node/src/lib/calendar-builder.ts:66-87 | twelve instances, instance `i` being month `i` of the table with: name upside down exactly for 3 ≤ i < 9, dates not on top, the layout's date box height, inner and outer radius, and numerals turned by −30·i |
| CalendarBuilder.SolarInstancesDrawLeapYear | node/src/lib/calendar-builder.ts:66-87 | the Gregorian instances total 366 days |
| CalendarBuilder.SolarInstancesOrientation | node/src/lib/calendar-builder.ts:69-82 | the name is upside down exactly for months numbered 4..9 (April to September), names follow the table, and no two months share a numeral rotation |
| CalendarBuilder.IslamicRing | node/src/lib/calendar-builder.ts:104-118 | the loop makes one instance per rotated month, in order |
| CalendarBuilder.IslamicInstanceOfRotated | node/src/lib/calendar-builder.ts:96-117 | position `i` of the ring rotated by `k` is canonical month `(k + i) mod 12`, upside down exactly for 3 ≤ i < 9 (the rule on the renumbered months), dates on top, both radii one thickness in, numerals turned by −30·i plus the offset |
| CalendarBuilder.IslamicInstancesOfRotated | node/src/lib/calendar-builder.ts:92-121 | the same for all twelve positions at once |
| CalendarBuilder.IslamicInstancesOfRotatedJs | node/src/lib/calendar-builder.ts:92-121 | the same for the rotation computed with JavaScript's `%` |
| CalendarBuilder.IslamicYearRing | node/src/lib/calendar-builder.ts:92-121 | the rotated Hijri ring is the ring of canonical months starting at `k` |
| CalendarBuilder.CreateIslamicMonthInstances | node/src/lib/calendar-builder.ts:92-121 | the Hijri instances are the ring starting at the current month index with the alignment's rotation offset |
| CalendarBuilder.RingsAreAdjacent | node/src/lib/calendar-builder.ts:78-115 | under any configuration the Hijri ring's outer circle is the Gregorian inner circle, both rings have the same thickness, and the two date bands meet on that circle |
| CalendarBuilder.ExpandMonth | python/layout.py:103-116 | one instance per entry of `num_days`, each with the month's name and colour and the given settings, drawing the entries' total |
| CalendarBuilder.ExpandSingle | python/layout.py:103-116 | a month with one day count gives exactly the instance `createMonthInstance` gives |
| CalendarBuilder.BuildSolarFrom | python/layout.py:100-117 | the loop from month `index` draws every day of the remaining months, none with dates on top |
| CalendarBuilder.BuildSolarMonthInstances | python/layout.py:93-117 | every day of the table is drawn, none with dates on top |
| CalendarBuilder.BuildSolarFromSingles | python/layout.py:101-116 | on a table of single day counts the loop makes exactly one instance per month, in order |
| CalendarBuilder.PythonSolarAt | python/layout.py:101-116 | the Python loop's instance for month `i` is the TypeScript instance `i` |
| CalendarBuilder.PythonSolarAgrees | python/layout.py:93-117 | the Python Gregorian instances of the shipped table are exactly the TypeScript ones |
| CalendarBuilder.BuildIslamicFrom | python/layout.py:129-146 | the loop from month `index` draws every remaining day, all with dates on top and both radii one thickness in |
| CalendarBuilder.BuildIslamicMonthInstances | python/layout.py:120-146 | every day of the rotated table is drawn, with dates on top and both radii one thickness in |
| CalendarBuilder.BuildIslamicFromSingles | python/layout.py:130-145 | on a table of single day counts the loop makes exactly one instance per month, in order |
| CalendarBuilder.PythonIslamicAt | python/layout.py:130-145 | the Python loop's instance for rotated month `i` is the TypeScript instance `i` |
| CalendarBuilder.PythonIslamicAgrees | python/layout.py:120-146 | the Python Hijri instances of the rotated year are exactly the TypeScript ones |
| CalendarBuilder.IslamicOffsetShifts | python/layout.py:143 | changing the rotation offset by `c` turns every Hijri instance's numerals by `c` and changes nothing else |
| CalendarBuilder.ExpandMonthShifted | python/layout.py:143 | turning a month's settings by `c` turns each of its instances by `c` and changes nothing else |
| CalendarBuilder.InterleaveIndex | node/src/lib/calendar-builder.ts:148-169 | in the drawing order from month `i`, Gregorian month `j` comes after the earlier Gregorian months and the earlier Hijri partners, and Hijri month `j` right after it; the length counts both |
| CalendarBuilder.InterleavePositions | node/src/lib/calendar-builder.ts:148-169 | from the start, Gregorian month `j` is drawn at position `j + min(j, #Hijri)` and Hijri month `j` at `2j + 1` |
| CalendarBuilder.StripLoop | node/src/lib/calendar-builder.ts:146-169 | the strip loop; characterized by `StripLoopClosedForm` and `StripPositions`: Gregorian month `j` at the first origin plus `j` pitches, its Hijri partner one offset below and only when it exists |
| CalendarBuilder.StripLoopClosedForm | node/src/lib/calendar-builder.ts:146-169 | the loop's running origin from month `i` is the closed form: strip `j` at the first origin plus `j` pitches |
| CalendarBuilder.StripPositions | node/src/lib/calendar-builder.ts:146-169 | Gregorian month `j` is drawn at y0 + j·(offset + 2.3·(thickness + offset)), its Hijri partner `offset` below it and only when it exists, and x never changes |
| CalendarBuilder.MonthDrawing | node/src/lib/calendar-builder.ts:150-161 | each month drawn on a page consumes exactly one text-path id |
| CalendarBuilder.StripDrawings | node/src/lib/calendar-builder.ts:148-163 | one drawing per placed month, each with one curved label |
| CalendarBuilder.Markup | node/src/lib/geometry.ts:111-125 | the drawing step advances the counter by one per curved label |
| CalendarBuilder.RenderAll | node/src/lib/calendar-builder.ts:148-163 | one markup per drawing, and the counter ends one further on per drawing |
| CalendarBuilder.RenderAllAt | node/src/lib/primitives.ts:165 | the `k`-th drawing is drawn with the counter `k` past where the page started |
| CalendarBuilder.PageMonthMarkup | node/src/lib/calendar-builder.ts:130-163 | on a page the `k`-th month's markup is drawn with text-path id `k` |
| CalendarBuilder.FreshPage | node/src/lib/calendar-builder.ts:130-163 | the page body has one markup line per drawing; characterized by `FreshPageIsRenderAll` |
| CalendarBuilder.FreshPageIsRenderAll | node/src/lib/calendar-builder.ts:130-163 | drawing a list of months from a reset counter gives the `k`-th month its markup with text-path id `k` |
| CalendarBuilder.FreshPageAt | node/src/lib/primitives.ts:146-148 | from a reset counter the `k`-th drawing gets id `k`, whatever the drawing step |
| CalendarBuilder.GenerateCalendarSvg | node/src/lib/calendar-builder.ts:126-173 | the strip page starts with the portrait header and ends with `</svg>` |
| CalendarBuilder.CalendarPageLines | node/src/lib/calendar-builder.ts:126-173 | the strip page is, line by line, the header, the markup of every placed month in loop order with id `k` for the `k`-th, and the closing tag |
| CalendarBuilder.JoinWithEnds | node/src/lib/calendar-builder.ts:172 | a joined list starts with its first line and ends with its last |
| CalendarBuilder.PagesIgnoreEarlierIds | node/src/lib/calendar-builder.ts:130-202 | both page generators give the same output whatever the counter was before, because they reset it |
| CalendarBuilder.CircleRotation | python/layout.py:88-90 | the rotation times the year's length is 360 times the month's middle day count |
| CalendarBuilder.SumWidthsIsShareOfYear | node/src/lib/month-renderer.ts:31 | the months' widths together are 360° times their share of the year |
| CalendarBuilder.LeapYearWidthsFillCircle | python/test_layout.py:154-175 | the leap-year months exactly fill 360° in a 366-day year |
| CalendarBuilder.CoverLoop | node/src/lib/calendar-builder.ts:223-251 | the cover loop; characterized by `CoverLoopClosedForm` and `CoverSchedule`: each Gregorian month and its Hijri partner carry the starting count plus the days of the earlier months of their ring |
| CalendarBuilder.CoverLoopClosedForm | node/src/lib/calendar-builder.ts:217-251 | the cover loop's running counts are the starting counts plus the days of the months already drawn on each ring |
| CalendarBuilder.CoverLoopStep | node/src/lib/calendar-builder.ts:223-250 | one round draws Gregorian month `i` and, while one is left, Hijri month `i`, and each accumulator moves on by its own month's days |
| CalendarBuilder.CoverTransform | node/src/lib/calendar-builder.ts:189 | the group transform text; characterized by `CircleFormFactor`: shrink, turn by the rotation about the month's origin, then shift |
| CalendarBuilder.CircleFormFactor | node/src/lib/calendar-builder.ts:178-192 | the month's markup is grouped with the transform that turns it by its cover rotation about the origin and shifts it by the origin's distance from the first origin |
| CalendarBuilder.CoverDrawings | node/src/lib/calendar-builder.ts:221-238 | one drawing per cover month, each with one curved label |
| CalendarBuilder.CoverGroups | node/src/lib/calendar-builder.ts:221-248 | each cover group is turned by its month's rotation, and its final shift is 0 because the origin never moves |
| CalendarBuilder.CoverItems | node/src/lib/calendar-builder.ts:217-251 | the cover's schedule; characterized by `CoverSchedule` and the rotation lemmas: the rings start at −n₀/2 and at base − h₀/2 |
| CalendarBuilder.CoverSchedule | node/src/lib/calendar-builder.ts:217-251 | Gregorian month `j` comes with −n₀/2 plus the earlier Gregorian days, followed by Hijri month `j` with base − h₀/2 plus the earlier Hijri days |
| CalendarBuilder.CoverSolarRotation | node/src/lib/calendar-builder.ts:185-230 | Gregorian month `j` is turned by 360·(Σ_{k<j} n_k + (n_j − n₀)/2)/D |
| CalendarBuilder.CoverFirstRotations | node/src/lib/calendar-builder.ts:185-219 | the first Gregorian month is not turned, and the first Hijri month, drawn second, is turned by 360·base/D |
| CalendarBuilder.CoverIslamicRotation | node/src/lib/calendar-builder.ts:185-250 | Hijri month `j` is turned by 360·(base + Σ_{k<j} h_k + (h_j − h₀)/2)/D |
| CalendarBuilder.ScheduledRotation | node/src/lib/calendar-builder.ts:185-186 | a month scheduled at a running count is turned to the middle of its own days |
| CalendarBuilder.GenerateCircleCoverSvg | node/src/lib/calendar-builder.ts:197-255 | the cover page starts with the portrait header and ends with `</svg>` |
| CalendarBuilder.CoverPageLines | node/src/lib/calendar-builder.ts:197-255 | the cover page is, line by line, the header, one turned group per scheduled month around its markup with id `k` for the `k`-th, and the closing tag |
| IslamicAlignment.ReferenceDayIsJanuary20 | node/src/islamic-alignment.ts:104-105 | the reference day number is 20 January 2026, nineteen days after New Year |
| IslamicAlignment.JsRem | node/src/islamic-alignment.ts:130 | JavaScript's `%` agrees with the Euclidean remainder on non-negative dividends and is a non-positive representative of the same class on negative ones |
| IslamicAlignment.MonthOffset | node/src/islamic-alignment.ts:110-126 | the month offset `k` is the lunar month holding the day: `k·29.530588853 ≤ daysDiff < (k+1)·29.530588853` |
| IslamicAlignment.MonthOffsetUnique | node/src/islamic-alignment.ts:115-126 | that `k` is the only one whose lunar month holds the day |
| IslamicAlignment.HijriMonthAfter | node/src/islamic-alignment.ts:129-130 | the month `k` months after Sha'ban is in 1..12 and congruent to 8 + k, for negative `k` too |
| IslamicAlignment.HijriMonthAndYearEncodeCount | node/src/islamic-alignment.ts:129-135 | the reported month and year are exactly `k` months after Sha'ban 1447 |
| IslamicAlignment.AlignmentAt | node/src/islamic-alignment.ts:100-160 | the index is in 0..11 and one less than the reported month, month and year are the reference plus the month offset of the date's day, `daysElapsed` is −rotationOffset + 0.5, and the date is kept |
| IslamicAlignment.MonthStartBracketsDate | node/src/islamic-alignment.ts:137-150 | the estimated start of the current month is not after the date and less than a lunar month and a day before it |
| IslamicAlignment.HijriInstant | node/src/islamic-alignment.ts:82-98 | a Hijri date lands on a whole day, that many days into its month counted from the first whole day of the month's lunar start |
| IslamicAlignment.LunarMonthLengthBounds | node/src/islamic-alignment.ts:70 | every month of the heuristic has 29 or 30 whole days |
| IslamicAlignment.MonthCountInjective | node/src/islamic-alignment.ts:89-93 | month counts determine month and year |
| IslamicAlignment.HijriInputRoundTrip | node/src/islamic-alignment.ts:82-135 | with the corrected conversion, every day of a Hijri month comes back as that month and year |
| IslamicAlignment.HijriInputRoundTripFirst29Days | node/src/islamic-alignment.ts:82-135 | in particular days 1 to 29 of every month come back |
| IslamicAlignment.HijriInstantAsWritten | node/src/islamic-alignment.ts:89-97 | the Hijri-to-Gregorian instant as written; characterized by `HijriDayOneLandsEarly` and `HijriInstantAsWrittenLaterDays`: day 1 of a month can land before that month starts |
| IslamicAlignment.HijriDayOneLandsEarly | node/src/islamic-alignment.ts:96 | as written, 1 Ramadan 1447 is reported as Sha'ban |
| IslamicAlignment.HijriInstantAsWrittenLaterDays | node/src/islamic-alignment.ts:89-97 | as written, days 2 to 30 of every month do come back as their month and year |
| IslamicAlignment.GetAlignmentHeuristic | node/src/islamic-alignment.ts:77-102 | a Hijri date takes precedence over a Gregorian one, which takes precedence over today; the answer keeps the index, month and offset relations |
| IslamicAlignment.ReferenceDateCase | node/src/islamic-alignment.ts:104-107 | on 20 January 2026 it is Sha'ban 1447, with 19.5 days elapsed |
| IslamicAlignment.FebruaryCases | node/src/islamic-alignment.ts:110-130 | 5 February 2026 is still Sha'ban and 25 February 2026 is Ramadan |
| IslamicAlignment.MonthIndexAt | node/src/islamic-alignment.ts:110-149 | the index at a day `daysDiff` after the reference is the month `MonthOffset(daysDiff)` months after Sha'ban, less one |
| IslamicAlignment.HijriInputCase | node/src/islamic-alignment.ts:82-98 | the Hijri input 17 Sha'ban 1447 gives Sha'ban 1447 |
| IslamicAlignment.PyInt | python/islamic_alignment.py:140 | Python's `int()` truncates toward zero |
| IslamicAlignment.PyMonthOffset | python/islamic_alignment.py:137-142 | the Python month offset; characterized by `PyMonthOffsetIsFloor`: it is the floor of the months elapsed |
| IslamicAlignment.PyMonthOffsetIsFloor | python/islamic_alignment.py:137-142 | the Python correction of `int()` for negative months is the floor |
| IslamicAlignment.PyAlignmentHeuristic | python/islamic_alignment.py:115-171 | the Python heuristic; characterized by `PythonHeuristicAgrees`: the same answer as the TypeScript heuristic on every day |
| IslamicAlignment.PythonHeuristicAgrees | python/islamic_alignment.py:115-171 | the Python heuristic gives the same answer as the TypeScript one on every day |
| IslamicAlignment.RotateMonths | node/src/islamic-alignment.ts:169-189 | same length, position `i` renumbered `i + 1`, otherwise the month at `(start + i) mod n` |
| IslamicAlignment.RotateMonthsJs | node/src/islamic-alignment.ts:173-175 | with a non-negative start, JavaScript's `%` gives the same rotation |
| IslamicAlignment.RotationKeepsEveryMonth | python/islamic_alignment.py:174-200 | every input month appears, renumbered, at position `(j − start) mod n` |
| IslamicAlignment.RotationsCompose | python/islamic_alignment.py:188-189 | rotating by `a` then `b` is rotating by `a + b`, and rotating by the length is rotating by 0 |
| IslamicAlignment.RotatedCanonicalYear | node/src/islamic-alignment.ts:169-189 | position `i` of the rotated Hijri year is the canonical month `(k + i) mod 12`, numbered `i + 1`, 30 days long |
| IslamicAlignment.GetMonthName | node/src/islamic-alignment.ts:194-196 | a name exactly for indices 0..11, the table's entry |
| IslamicAlignment.PyGetMonthName | python/islamic_alignment.py:203-205 | Python also answers for −12..−1, counting from the end |
| IslamicAlignment.MonthNames | node/src/islamic-alignment.ts:16-29 | the two agree on valid indices; Muharram is 0, Sha'baan 7, Ramadan 8, Dhu al-Hijja 11 |
| IslamicAlignment.CurrentMonthIsNamed | node/src/islamic-alignment.ts:149-196 | the current index names the reported Hijri month |
| CricutLayout.SolarTableMatchesCalendar | python/cricut_layout.py:25-32 | the sticker script's Gregorian table has the calendar's names and day counts, 366 days in all |
| CricutLayout.IslamicTableMatchesCalendar | python/cricut_layout.py:34-39 | the sticker script's Hijri table has the calendar's names, every month 30 days, 360 in all |
| CricutLayout.ComputeRadii | python/cricut_layout.py:42-48 | the outer radius times 2·3.14/12 is eight inches at the scale, the inner radius is 0.92 of the outer, and inner plus thickness is the outer |
| CricutLayout.RadiiMatchPageLayout | python/cricut_layout.py:42-48 | the three values equal the page layout's outermost radius, inner radius and month thickness |
| CricutLayout.ScaleForDiameter | python/cricut_layout.py:70-78 | at the returned scale the outer circle's diameter is the target in inches |
| CricutLayout.ScaleForDiameterInverts | python/cricut_layout.py:70-78 | solving for the scale of a scale's own diameter gives the scale back |
| CricutLayout.FitsCricutPtc | python/cricut_layout.py:81-83 | the printable-area test; characterized by `FitsCricutPtcIsTheArea`: exactly the sizes no wider than 6.75 and no taller than 9.25 inches |
| CricutLayout.FitsCricutPtcIsTheArea | python/cricut_layout.py:81-83 | the 6.75 × 9.25 inch area fits, anything no larger than something that fits fits, and anything wider or taller does not |
| CricutLayout.OpeningFlags | python/cricut_layout.py:92-101 | within one sheet only the first element opens it |
| CricutLayout.FlattenSnoc | python/cricut_layout.py:98-104 | closing one more sheet appends its elements and their opening flags |
| CricutLayout.FirstElementOpens | python/cricut_layout.py:98-104 | sheets are non-empty, so there are none exactly when there are no elements, and the first element opens a sheet |
| CricutLayout.LayoutArcsSimple | python/cricut_layout.py:86-105 | the sheets, flattened, place every arc in order by the stacking rule (a new sheet at y = 0 exactly when the arc would end below the available height, otherwise at the running y), no sheet is empty, and there are no sheets exactly when there are no arcs |
| CricutLayout.StackedStep | python/cricut_layout.py:95-101 | one loop step extends the stacking by the next arc and moves y on by its height and the margin |
| CricutLayout.StackingIsDetermined | python/cricut_layout.py:86-105 | the stacking rule leaves no choice: two stackings of the same arcs are equal |
| CricutLayout.StackedArcsFit | python/cricut_layout.py:96-101 | every arc that does not open a sheet ends within the available height |
| CricutLayout.EffectiveHeight | python/cricut_layout.py:122-123 | the height an arc takes up plus what it saves is its full height |
| CricutLayout.LayoutArcsNested | python/cricut_layout.py:108-139 | the same for the nested layout: each arc after the first of a sheet is flipped when its predecessor was not, and a flipped arc's height is reduced by 0.7 of its sagitta |
| CricutLayout.NestedStep | python/cricut_layout.py:119-135 | one loop step extends the nesting and moves y on by the arc's effective height and the margin |
| CricutLayout.NestedOrientationAlternates | python/cricut_layout.py:120-135 | within a sheet, counting from its first arc, the odd arcs are flipped and the even ones are not |
| CricutLayout.SavingsOnlyWhenFlipped | python/cricut_layout.py:122-123 | a normal arc, in particular one opening a sheet, takes up its full height |
| CricutLayout.NestedWithoutSagittaIsPlain | python/cricut_layout.py:86-139 | with no sagitta the nested layout is the simple layout |
| CliArgs.SkipWhiteSpaceStopsAtText | node/src/cli/args.ts:43 | `parseInt` drops exactly the leading white space: everything dropped is white space and what is kept does not start with any |
| CliArgs.LeadingHexDigits | node/src/cli/args.ts:43 | the longest prefix of hexadecimal digits, stopping at the first character that is not one |
| CliArgs.ParseIntOfDigits | node/src/cli/args.ts:43-85 | `parseInt` of a non-empty string of decimal digits is their value |
| CliArgs.ParseInt | node/src/cli/args.ts:43 | `parseInt` without a radix; characterized by `ParseIntOfDigits`, `ParseIntOfDigitsThen`, `ParseIntSkipsWhiteSpace`, `MinusNegates` and `PlusKeeps`: white space skipped, a sign, then the digits up to the first non-digit |
| CliArgs.ParseIntOfDigitFirst | node/src/cli/args.ts:43 | a text starting with a digit is read as its magnitude, with nothing skipped and no sign |
| CliArgs.ParseIntOfDigitsThen | node/src/cli/args.ts:43 | digits followed by a non-digit other than a hexadecimal marker are read up to the non-digit |
| CliArgs.ParseIntSkipsWhiteSpace | node/src/cli/args.ts:43 | a leading white-space character does not change what `parseInt` reads |
| CliArgs.MinusNegates | node/src/cli/args.ts:43-44 | a minus sign negates the magnitude that follows |
| CliArgs.PlusKeeps | node/src/cli/args.ts:43 | a plus sign keeps the magnitude that follows |
| CliArgs.ParseYear | node/src/cli/args.ts:42-51 | an error with the "Invalid year" message exactly when `parseInt` fails or is negative; otherwise the value read, plus the century when the field is at most two UTF-16 code units long (JavaScript's `length`) |
| CliArgs.ParseYearTwoDigits | node/src/cli/args.ts:47-49 | one or two digits mean that many years into the century |
| CliArgs.ParseYearFourDigits | node/src/cli/args.ts:50 | three digits or more mean the year itself, whatever the century |
| CliArgs.ParseYearCountsCodeUnits | node/src/cli/args.ts:42-51 | digits followed by a character outside the Basic Multilingual Plane are read as the year itself, since the field is more than two UTF-16 code units long |
| CliArgs.JsDateYear | node/src/cli/args.ts:92 | the year a `Date(year, month, day)` lands in; characterized by `FourDigitYearsInDateRange` and `DateArgRoundTrip`: years 0 to 99 become 1900 to 1999, any other year stays |
| CliArgs.UnixEpochDayIsNewYear1970 | node/src/cli/args.ts:92 | the JavaScript epoch is the civil day number of 1 January 1970 |
| CliArgs.DateRangeEnds | node/src/cli/args.ts:92-95 | the last day a `Date` holds is 275760-09-13 and the first is -271821-04-20; the days just outside are refused |
| CliArgs.FourDigitYearsInDateRange | node/src/cli/args.ts:92-95 | every existing day of a year up to 9999, as the `Date` reads the year, lies in the `Date` range |
| CliArgs.FarYearsOutOfDateRange | node/src/cli/args.ts:92-95 | no day of year 275761 or later lies in the `Date` range |
| CliArgs.HijriFromArg | node/src/cli/args.ts:60-77 | not three dash-separated parts is the Hijri format error; an accepted date has month 1..12, day 1..30, and the year `parseYear` reads from the first field with century 1400 |
| CliArgs.GregorianFromArg | node/src/cli/args.ts:78-97 | not three parts is the date format error; an accepted date has month 1..12, the year `parseYear` reads with century 2000 as a `Date` lands it, a day the month has in that year, and a day within 10^8 days of 1970-01-01, the range of a `Date` |
| CliArgs.AlignmentFromArgs | node/src/cli/args.ts:59-100 | today exactly when neither option is given; a Hijri source only from `--hijri`; a Gregorian one only from `--date` without `--hijri` |
| CliArgs.HijriTakesPrecedence | node/src/cli/args.ts:60-78 | once `--hijri` is given, `--date` does not matter |
| CliArgs.Alignment | node/src/cli/args.ts:73-99 | a Gregorian date aligns on its day number, a Hijri date on its converted instant, and no date on today |
| CliArgs.SplitDateText | node/src/cli/args.ts:61-79 | digits joined by dashes split back into the three fields |
| CliArgs.HijriFromFields | node/src/cli/args.ts:60-77 | three readable fields in range give that Hijri date |
| CliArgs.HijriFromFieldsOutOfRange | node/src/cli/args.ts:67-72 | a month outside 1..12 or a day outside 1..30 is refused |
| CliArgs.GregorianFromFields | node/src/cli/args.ts:78-97 | three readable fields naming a day the month has give that date |
| CliArgs.GregorianFromFieldsMissingDay | node/src/cli/args.ts:92-96 | a day up to 31 that the month does not have is refused with the invalid-date message |
| CliArgs.GregorianFromFieldsOutOfRange | node/src/cli/args.ts:92-96 | a day that exists but lies outside the `Date` range is refused with the invalid-date message |
| CliArgs.HijriArgRoundTrip | node/src/cli/args.ts:60-77 | a valid Hijri date written with a four-digit year is read back as that date |
| CliArgs.HijriArgShortYear | node/src/cli/args.ts:47-74 | a two-digit Hijri year `YY` means 14YY |
| CliArgs.DateArgRoundTrip | node/src/cli/args.ts:78-97 | a Gregorian date written with a four-digit year is read back when the month has the day and refused when it does not |
| CliArgs.DateArgShortYear | node/src/cli/args.ts:47-83 | a two-digit year `YY` means 20YY |
| CliArgs.DateArgFarYear | node/src/cli/args.ts:78-97 | any existing day of year 275761 or later given to `--date` is refused with the invalid-date message |
| CliArgs.FarDateExample | node/src/cli/args.ts:92-96 | `--date 300000-01-01` is refused: "Invalid date: 300000-01-01. Day 1 is not valid for month 1." |
| CliArgs.MissingDayIsAFormatError | node/src/cli/args.ts:62-81 | a date of two parts is refused with the format message of its option |
| CliArgs.DateOptionExample | node/src/cli/args.ts:78-97 | `--date 2026-02-05` is 5 February 2026 |
| CliArgs.DateOptionAlignment | node/src/cli/args.ts:97 | that date aligns on Sha'ban, index 7, whatever the clock says |
| CliArgs.HijriOptionExample | node/src/cli/args.ts:60-77 | `--hijri 1447-08-17` is 17 Sha'ban 1447, whatever `--date` says |
| CliArgs.HijriOptionAlignment | node/src/cli/args.ts:73-77 | that date aligns on Sha'ban 1447 |
| CliArgs.MonthOnlyExample | node/src/cli/args.ts:62-81 | `--date 2026-02` and `--hijri 1447-08` are refused before any number is read |
| SizeParser.LeadingRun | node/src/renderers/resvg-renderer.ts:57 | the longest prefix of digits and dots |
| SizeParser.FirstMatch | node/src/renderers/resvg-renderer.ts:57-60 | no match exactly when the string has no digit or dot; a match is a non-empty run of them |
| SizeParser.FractionValue | node/src/renderers/resvg-renderer.ts:62 | the digits after a dot are worth at least 0 and less than 1 |
| SizeParser.ParseDecimalRun | node/src/renderers/resvg-renderer.ts:62 | `parseFloat` of a run is NaN exactly when the run has no digit before its second dot; otherwise it is non-negative |
| SizeParser.NoDigitsRead | node/src/renderers/resvg-renderer.ts:62 | without a whole part a run reads as a number exactly when a digit follows its first dot |
| SizeParser.ParseSizeToPoints | node/src/renderers/resvg-renderer.ts:52-79 | a missing or empty string, or one without digits and dots, is 612; the result is NaN exactly when the matched run is unreadable; otherwise it is non-negative |
| SizeParser.ParseWholeNumber | node/src/renderers/resvg-renderer.ts:62 | a whole number is read as its digits' value |
| SizeParser.ParseDecimalNumber | node/src/renderers/resvg-renderer.ts:62 | a decimal is its whole part plus its fraction, and anything from a second dot on is ignored |
| SizeParser.ParseNatRoundTrip | node/src/renderers/resvg-renderer.ts:62 | reading the decimal rendering of a natural number gives it back |
| SizeParser.SizeOfRun | node/src/renderers/resvg-renderer.ts:57-78 | the result is the run's number times the factor of the first unit the string contains |
| SizeParser.UnitFound | node/src/renderers/resvg-renderer.ts:64-78 | after a run of digits and dots, the unit written is the unit found |
| SizeParser.SizeInUnit | node/src/renderers/resvg-renderer.ts:52-79 | a number followed by mm, in, pt, px or nothing is the number times that unit's points |
| SizeParser.UnitsAgree | node/src/renderers/resvg-renderer.ts:64-78 | an inch is 25.4 mm and 96 px, and a bare number is points |
| SizeParser.LetterInchSizes | node/src/renderers/resvg-renderer.ts:54-68 | 8.5in is 612 points, the Letter default |
| SizeParser.MillimetreSizes | node/src/renderers/resvg-renderer.ts:64-65 | 25.4mm is 72 points |
| SizeParser.PixelSizes | node/src/renderers/resvg-renderer.ts:73-74 | 96px is 72 points |
| SizeParser.BareNumberSizes | node/src/renderers/resvg-renderer.ts:77-78 | a number without a unit is taken as points |
| SizeParser.LayoutPageWidth | node/src/lib/geometry.ts:102-106 | the page the layout writes, 212.5 mm wide, is read as 212.5·72/25.4 points |
| SizeParser.LayoutPageHeight | node/src/lib/geometry.ts:102-106 | its height, 275 mm, is read as 275·72/25.4 points |
| SizeParser.DecimalSize | node/src/renderers/resvg-renderer.ts:57-78 | digits, a dot, digits and a unit are read as the decimal times the unit's points |
| Text.Utf16Length | app/src/app/api/generate/route.ts:44-50 | the JavaScript length is between the number of characters and twice it |
| Text.Utf16LengthOfBmp | app/src/app/api/generate/route.ts:44-50 | a string within the Basic Multilingual Plane has one code unit per character |
| Text.Utf16LengthOfConcat | node/src/cli/args.ts:47 | the JavaScript length of two strings put together is the sum of their lengths |
| Text.Utf16LengthOfDigits | node/src/cli/args.ts:47 | a string of decimal digits has one code unit per digit, so its JavaScript length is its number of characters |
| GenerateRoute.IsDateShape | app/src/app/api/generate/route.ts:17-18 | the route's date pattern; characterized by `ShapeOfDateText` and `DateTextOfShape`: exactly four, two and two digits joined by dashes |
| GenerateRoute.ShapeOfDateText | app/src/app/api/generate/route.ts:17-22 | four, two and two digits joined by dashes match the pattern and give back their values as the fields |
| GenerateRoute.DateTextOfShape | app/src/app/api/generate/route.ts:17-22 | a string matching the pattern is its three fields joined by dashes |
| GenerateRoute.Fields | app/src/app/api/generate/route.ts:20-22 | the fields of a date-shaped string are below 10000, 100 and 100 |
| GenerateRoute.ParseDateString | app/src/app/api/generate/route.ts:16-35 | accepted exactly when of date shape with month 1..12 and a day the month has in the year (years 0 to 99 counting as 1900 to 1999, as `Date.UTC` reads them); the result is the fields |
| GenerateRoute.ParseHijriDateString | node/src/cli/args.ts:61-72 | the Hijri reading the command line applies: accepted exactly when of date shape with month 1..12 and day 1..30; the result is the fields |
| GenerateRoute.RouteSource | app/src/app/api/generate/route.ts:37-83 | an over-long Gregorian parameter is its format error; an accepted source agrees with the parameters; today exactly when neither is given; a Hijri source only from the Hijri parameter |
| GenerateRoute.RouteSourceAsWritten | app/src/app/api/generate/route.ts:59-71 | a Hijri source has the fields `parseDateString` accepted |
| GenerateRoute.GenerateSource | app/src/app/api/generate/route.ts:59-71 | with the corrected parser, a Hijri source has month 1..12 and day 1..30 |
| GenerateRoute.ParseDateStringRoundTrip | app/src/app/api/generate/route.ts:16-35 | a date spelt with four, two and two digits is read back when the month has the day |
| GenerateRoute.ParseDateStringCanonical | app/src/app/api/generate/route.ts:17-22 | an accepted string is the one canonical spelling of the date read |
| GenerateRoute.YearZeroIsReadAs1900 | app/src/app/api/generate/route.ts:29-31 | 0000-02-29 is refused although year 0 is a leap year, because `Date.UTC` reads year 0 as 1900 |
| GenerateRoute.LeapDay2000Accepted | app/src/app/api/generate/route.ts:29-34 | 2000-02-29 is accepted |
| GenerateRoute.CliDateOfShape | app/src/app/api/generate/route.ts:16-35 | on a date-shaped string, the command line's `--date` accepts exactly what `parseDateString` accepts, and reads the same date |
| GenerateRoute.CliHijriOfShape | node/src/cli/args.ts:60-77 | on a date-shaped string, the command line's `--hijri` accepts exactly what the corrected parser accepts |
| GenerateRoute.GregorianRouteAgreesWithCli | app/src/app/api/generate/route.ts:72-80 | on a date-shaped Gregorian parameter, the route and the command line accept the same dates and read them alike |
| GenerateRoute.HijriRouteAgreesWithCli | app/src/app/api/generate/route.ts:59-71 | the corrected route and the command line accept the same Hijri dates and read them alike |
| GenerateRoute.RouteHijriTakesPrecedence | app/src/app/api/generate/route.ts:59-72 | once a Hijri parameter is given, the Gregorian one does not matter |
| GenerateRoute.RouteHijriAsWrittenOfShape | app/src/app/api/generate/route.ts:59-71 | as written, a date-shaped Hijri parameter is accepted exactly when it is a Gregorian calendar date |
| GenerateRoute.RouteHijriOfShape | app/src/app/api/generate/route.ts:59-71 | corrected, it is accepted exactly when month 1..12 and day 1..30 |
| GenerateRoute.HijriThirtiethOfSafarRefused | app/src/app/api/generate/route.ts:60 | as written, 1447-02-30 is refused as a Hijri date |
| GenerateRoute.HijriThirtiethOfSafarAccepted | node/src/cli/args.ts:67-77 | the command line and the corrected route accept 30 Safar 1447 |
| GenerateRoute.HijriThirtyFirstAccepted | app/src/app/api/generate/route.ts:60 | as written, the route accepts 1447-01-31 |
| GenerateRoute.HijriThirtyFirstRefused | node/src/cli/args.ts:70-72 | the command line and the corrected route refuse 31 Muharram 1447 |
| SizeParser.InchSizes | node/src/renderers/resvg-renderer.ts:67-68 | 1in is 72 points |
| SizeParser.PointSizes | node/src/renderers/resvg-renderer.ts:70-71 | 72pt is 72 points |
| Civil.DaysInMonth | node/src/cli/args.ts:92-96 | a month has 28 to 31 days, and 29 exactly for February of a leap year, which is what a `Date` keeps without rolling over |
| Civil.Jan1Step | node/src/islamic-alignment.ts:144 | consecutive New Year's days are 366 days apart after a leap year and 365 otherwise |
| Civil.Jan1Cycle | node/src/islamic-alignment.ts:144 | the calendar repeats every 400 years, 146097 days |
| Civil.YearOfDay | node/src/islamic-alignment.ts:144 | `getFullYear`: the year whose New Year's day is not after the day and whose next one is after it |
| Civil.YearOfDayNumber | node/src/islamic-alignment.ts:144 | the year of a date is the year it was written in |
| Civil.YearUnique | node/src/islamic-alignment.ts:144 | exactly one year holds a given day |
| Civil.DaysBeforeMonthBound | node/src/islamic-alignment.ts:144-147 | the days before a month and the month's own days fit in the year |
| Text.LeadingDigits | node/src/cli/args.ts:43 | the longest prefix of decimal digits, stopping at the first non-digit |
| Text.NatToString | node/src/lib/primitives.ts:146-148 | the decimal rendering of an integer: non-empty digits, no leading zero, one digit exactly below ten |
| Text.NatToStringRoundTrip | node/src/lib/primitives.ts:146-148 | reading a rendering back gives the number |
| Text.NatToStringInjective | node/src/lib/primitives.ts:146-148 | distinct numbers are rendered differently, so distinct counters give distinct ids |
| Text.Split | node/src/cli/args.ts:61 | `split` on one character: pieces free of the separator that join back into the string |
| Text.SplitJoinRoundTrip | node/src/cli/args.ts:61-62 | splitting a join of separator-free pieces gives the pieces back |

## Left out

- Rasterisation, PDF assembly, instruction sheets and QR codes: they are done by foreign libraries
  (resvg, pdf-lib, pypdf).
- File and console I/O, the CLI and serverless pipelines, font search, and building the HTTP
  response in the route. The route is modelled up to the date source it hands to the alignment.
- The commander-based `parseArgs` of the command line and the `main` of the sticker script. The
  options they produce are the model's inputs.
- `arc_bounding_box` of the sticker script: it needs real sine and cosine. The packing loops take
  the arcs' sizes as input.
- The library-backed Hijri conversion of the Python version (`_get_alignment_with_library`) and
  the `hijridate` library behind it. Only the heuristic is modelled.
- The clock: "today" is a parameter, not the current instant.
- Floating point: the model computes in exact reals, so accumulated date-box angles tile a month
  exactly. IEEE rounding is not modelled. Neither is the formatting of numbers as text, beyond
  `fmt` being a function.
- Time zones: `new Date(y, m, d)` and `getFullYear` use local time in JavaScript. The model puts
  every date at UTC midnight, so the range of a `Date` (10^8 days either side of 1970-01-01) is
  taken at UTC; a local offset moves its two ends by a few hours.
- Snapshot comparisons of SVG and PNG output, the web UI, the demo and debug scripts, and the
  duplicate ports (`make-cal.ts`, the root-level Python files, the second `parseSizeToPoints`).
  Their logic is modelled once, from the files cited above.
- The `Circle` primitive of `primitives.ts`: no modelled operation draws one.
- CalendarData.CreateMonthInstance: requires a non-empty day-count list. The source reads
  `numDays[0]`, and every table it is given has one.
- CalendarBuilder.GenerateCircleCoverSvg: requires both month lists to be non-empty and a non-zero
  year length. The source reads the first month of each list and divides by the year length. An
  empty list would make it read `undefined`.
- CalendarBuilder.CreateIslamicMonthInstances: requires a non-negative current month index. The
  alignment always gives one. A negative index would make the source read `undefined`.
- MonthRenderer.GetMonth and AppMonth.GetMonth: require a non-zero year length. The source would
  divide by zero.
- IslamicAlignment.GetAlignmentHeuristic: uses the corrected Hijri-input conversion (see
  Findings). The conversion as written is kept as `HijriInstantAsWritten` for the finding.
- CliArgs.Alignment: does not model the invalid `Date` that a `--hijri` year some 282 000 years
  from 1447 produces. There the source's converted instant leaves the range of a `Date` and every
  number it reports is NaN; the model reports ordinary month and year numbers.
- GenerateRoute.GenerateSource: reads the Hijri parameter with the command line's ranges (see
  Findings). The route as written is kept as `RouteSourceAsWritten`.

Where the code and its documentation disagree, the model follows the code:

- A numeral's centre in the TypeScript renderer is the average of its date box's
  `innerArc.start` and `outerArc.start`. The inner arc runs from the stop angle back to the
  start angle, so this is the midpoint of the box's diagonal, not a point on the start ray. The
  app port's polar midpoint is modelled separately.
- The rotation offset is minus the whole number of days elapsed. It is exact, not an
  approximation, because `Math.round` of a whole number changes nothing.
- `inchToMillimeter` multiplies by 25, not 25.4. Every length derived from it is modelled with 25.

## Findings

| source | as written | input that shows it | evidently intended | confidence | as-written member | corrected member |
|---|---|---|---|---|---|---|
| node/src/islamic-alignment.ts:96 | A Hijri date is put `⌊(months from 1 Sha'ban 1447) · 29.530588853⌋ + (day − 1)` days after the reference day. But the forward path starts each month at the first whole day at or after `months · 29.530588853`. Day 1 of a month therefore lands on the last day of the month before. | `hijriDate` 1447-09-01 (1 Ramadan) is reported as Sha'ban 1447 | Every day of a Hijri month is reported as that month: round the month start up, `⌈months · 29.530588853⌉ + (day − 1)` | not executed | IslamicAlignment.HijriDayOneLandsEarly | IslamicAlignment.HijriInputRoundTrip |
| app/src/app/api/generate/route.ts:60 | The Hijri parameter is checked by `parseDateString`, which requires a day that exists in the Gregorian month of the same number. The command line instead allows any Hijri day from 1 to 30. | `hijri=1447-02-30` (30 Safar) is refused, because February has no 30th. `hijri=1447-01-31` is accepted, although no Hijri month has 31 days. | The route validates a Hijri date as the command line does: month 1 to 12, day 1 to 30 | not executed | GenerateRoute.HijriThirtiethOfSafarRefused | GenerateRoute.HijriThirtiethOfSafarAccepted |
