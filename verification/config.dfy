/**
  Layout of the printed calendar (node/src/lib/config.ts, and its Python twin `calculate_layout_params`
  in python/layout.py): ring radii derived from the scale factor, the horizontal centre of the page,
  pagination, stroke width and the gap between strips.

  The ring is sized so that twelve months, each 8 inches wide at 25 mm per inch, go once round a
  circle whose circumference is computed with π taken as 3.14.
 */
module Config {
  import opened Geometry
  import Primitives

  /** The injectable configuration. */
  datatype LayoutConfig = LayoutConfig(
    scaleFactor: real, canvasWidthInches: real, daysInYear: real,
    extraWidthOffset: real, verticalOffset: real)

  const DefaultLayoutConfig := LayoutConfig(0.7, 11.0, 366.0, 10.0, 30.0)

  /** The values derived from a configuration. */
  datatype ComputedLayout = ComputedLayout(
    outermostRadius: real, innerRadius: real, monthThickness: real, dateBoxHeight: real,
    widthCenter: real, verticalOffsetScaled: real, numRows: nat, numColumns: nat,
    strokeWidth: real, monthOffset: real)

  /** Rows and columns of strips per page, by scale factor. */
  function Pagination(scaleFactor: real): (p: (nat, nat))
    ensures p == (5, 2) <==> scaleFactor <= 0.5
    ensures p == (4, 1) <==> 0.5 < scaleFactor < 0.75
    ensures p == (2, 1) <==> 0.75 <= scaleFactor
  {
    if scaleFactor <= 0.5 then (5, 2)
    else if scaleFactor < 0.75 then (4, 1)
    else (2, 1)
  }

  /** The outer radius of the Gregorian ring at a scale factor. */
  function OutermostRadius(scaleFactor: real): (r: real)
    ensures 2.0 * 3.14 * r == 12.0 * InchToMillimeter(8.0 * scaleFactor)
  {
    InchToMillimeter(8.0 * scaleFactor) / ((2.0 * 3.14) / 12.0)
  }

  function ComputeLayout(c: LayoutConfig): (l: ComputedLayout)
    ensures 2.0 * 3.14 * l.outermostRadius == 12.0 * InchToMillimeter(8.0 * c.scaleFactor)
    ensures l.innerRadius == 0.92 * l.outermostRadius
    ensures l.monthThickness + l.innerRadius == l.outermostRadius
    ensures l.dateBoxHeight * 5.0 == l.monthThickness
    ensures 0.0 < c.scaleFactor ==>
      0.0 < l.dateBoxHeight < l.monthThickness && 0.0 < l.innerRadius < l.outermostRadius
    ensures 2.0 * (l.widthCenter - c.extraWidthOffset) == InchToMillimeter(c.canvasWidthInches * c.scaleFactor)
    ensures l.verticalOffsetScaled == c.verticalOffset * c.scaleFactor
    ensures (l.numRows, l.numColumns) == Pagination(c.scaleFactor)
    ensures l.strokeWidth == 0.1 * c.scaleFactor && l.monthOffset == 4.0 * c.scaleFactor
  {
    var canvasWidth := c.canvasWidthInches * c.scaleFactor;
    var outermostRadius := OutermostRadius(c.scaleFactor);
    var innerRadius := (outermostRadius * 9.2) / 10.0;
    var monthThickness := outermostRadius - innerRadius;
    var dateBoxHeight := monthThickness * 0.2;
    var widthCenter := InchToMillimeter(canvasWidth) / 2.0 + c.extraWidthOffset;
    var (numRows, numColumns) := Pagination(c.scaleFactor);
    ComputedLayout(
      outermostRadius, innerRadius, monthThickness, dateBoxHeight,
      widthCenter, c.verticalOffset * c.scaleFactor, numRows, numColumns,
      0.1 * c.scaleFactor, 4.0 * c.scaleFactor)
  }

  /** The length of the year is carried in the configuration but does not affect the layout. */
  lemma LayoutIgnoresDaysInYear(c: LayoutConfig, d: real)
    ensures ComputeLayout(c.(daysInYear := d)) == ComputeLayout(c)
  {
  }

  /** A larger scale factor gives strictly larger radii, thickness and date boxes. */
  lemma RadiiGrowWithScale(c: LayoutConfig, d: LayoutConfig)
    requires c.scaleFactor < d.scaleFactor
    ensures ComputeLayout(c).outermostRadius < ComputeLayout(d).outermostRadius
    ensures ComputeLayout(c).innerRadius < ComputeLayout(d).innerRadius
    ensures ComputeLayout(c).monthThickness < ComputeLayout(d).monthThickness
    ensures ComputeLayout(c).dateBoxHeight < ComputeLayout(d).dateBoxHeight
  {
  }

  /** Centring on an 11-inch canvas at scale 1: 137.5 mm without the extra offset, 147.5 mm with it. */
  lemma WidthCentreOfLetterCanvas(c: LayoutConfig)
    requires c.scaleFactor == 1.0 && c.canvasWidthInches == 11.0
    ensures c.extraWidthOffset == 0.0 ==> ComputeLayout(c).widthCenter == 137.5
    ensures c.extraWidthOffset == 10.0 ==> ComputeLayout(c).widthCenter == 147.5
  {
  }

  /** The default configuration: the shared default stroke width, 4-row pages, centred at 106.25 mm. */
  lemma DefaultLayout()
    ensures ComputeLayout(DefaultLayoutConfig).strokeWidth == Primitives.DefaultStrokeWidth
    ensures (ComputeLayout(DefaultLayoutConfig).numRows, ComputeLayout(DefaultLayoutConfig).numColumns) == (4, 1)
    ensures ComputeLayout(DefaultLayoutConfig).widthCenter == 106.25
    ensures ComputeLayout(DefaultLayoutConfig).verticalOffsetScaled == 21.0
  {
  }

  /** The Python layout record: the same quantities, plus the canvas width, the ring width and the first origin. */
  datatype LayoutParams = LayoutParams(
    scaleFactor: real, canvasWidth: real, width: real,
    outermostRadius: real, innerRadius: real, monthThickness: real, dateBoxHeight: real,
    widthCenter: real, verticalOffset: real, origin: Point, monthOffset: real,
    numRows: nat, numColumns: nat)

  /** `calculate_layout_params`: an 11-inch canvas, 10 mm extra offset and 30 mm vertical offset, fixed. */
  function CalculateLayoutParams(scaleFactor: real): (p: LayoutParams)
    ensures p.scaleFactor == scaleFactor
    ensures p.origin == Point(p.widthCenter, p.outermostRadius + p.verticalOffset)
  {
    var canvasWidth := 11.0 * scaleFactor;
    var width := InchToMillimeter(8.0 * scaleFactor);
    var outermostRadius := width / (2.0 * 3.14 / 12.0);
    var innerRadius := outermostRadius * 9.2 / 10.0;
    var monthThickness := outermostRadius - innerRadius;
    var dateBoxHeight := monthThickness * 0.2;
    var extraWidthOffset := 10.0;
    var widthCenter := InchToMillimeter(canvasWidth) / 2.0 + extraWidthOffset;
    var verticalOffset := 30.0 * scaleFactor;
    var origin := Point(widthCenter, outermostRadius + verticalOffset);
    var monthOffset := 4.0 * scaleFactor;
    var (numRows, numColumns) := Pagination(scaleFactor);
    LayoutParams(
      scaleFactor, canvasWidth, width, outermostRadius, innerRadius, monthThickness, dateBoxHeight,
      widthCenter, verticalOffset, origin, monthOffset, numRows, numColumns)
  }

  /** The Python layout is the TypeScript layout of the default canvas, whatever the length of the year. */
  lemma PythonLayoutAgrees(scaleFactor: real, daysInYear: real)
    ensures var p := CalculateLayoutParams(scaleFactor);
      var l := ComputeLayout(LayoutConfig(scaleFactor, 11.0, daysInYear, 10.0, 30.0));
      && p.outermostRadius == l.outermostRadius && p.innerRadius == l.innerRadius
      && p.monthThickness == l.monthThickness && p.dateBoxHeight == l.dateBoxHeight
      && p.widthCenter == l.widthCenter && p.verticalOffset == l.verticalOffsetScaled
      && p.monthOffset == l.monthOffset && p.numRows == l.numRows && p.numColumns == l.numColumns
      && p.origin == Point(l.widthCenter, l.outermostRadius + l.verticalOffsetScaled)
  {
  }

  /** `offset_point_by`: translation by a vector. */
  function OffsetPointBy(p: Point, dx: real, dy: real): (q: Point)
    ensures q.x - p.x == dx && q.y - p.y == dy
  {
    Point(p.x + dx, p.y + dy)
  }

  /** Translations compose by adding their vectors, and the zero translation is the identity. */
  lemma OffsetsCompose(p: Point, dx1: real, dy1: real, dx2: real, dy2: real)
    ensures OffsetPointBy(OffsetPointBy(p, dx1, dy1), dx2, dy2) == OffsetPointBy(p, dx1 + dx2, dy1 + dy2)
    ensures OffsetPointBy(p, 0.0, 0.0) == p
  {
  }
}
