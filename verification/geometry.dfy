/**
  Polar geometry of the calendar rings (node/src/lib/geometry.ts): points, the polar-to-Cartesian
  conversion, circular arcs with their SVG elliptical-arc flags (section 8.3.8 of the W3C SVG 1.1
  recommendation: large-arc-flag and sweep-flag), ring wedges ("dimensional arcs") and the page canvas.

  Trigonometry is not computed here: the caller supplies the sine and cosine of an angle given in
  degrees as a `Trig` value, standing for `Math.sin`/`Math.cos` after `toRadian`. Facts about them are
  assumed only where a property needs them, as the predicates `Pythagorean` and `QuarterTurns`.
 */
module Geometry {

  /** A point in millimetres; y grows downward, as on an SVG page. */
  datatype Point = Point(x: real, y: real)

  /** Sine and cosine of an angle in degrees. */
  datatype Trig = Trig(sinDeg: real -> real, cosDeg: real -> real)

  /** sin² + cos² = 1 at every angle. */
  ghost predicate Pythagorean(t: Trig) {
    forall a: real :: t.sinDeg(a) * t.sinDeg(a) + t.cosDeg(a) * t.cosDeg(a) == 1.0
  }

  /** The exact values of sine and cosine at −90°, 0°, 90° and 180°. */
  ghost predicate QuarterTurns(t: Trig) {
    && t.sinDeg(-90.0) == -1.0 && t.cosDeg(-90.0) == 0.0
    && t.sinDeg(0.0) == 0.0 && t.cosDeg(0.0) == 1.0
    && t.sinDeg(90.0) == 1.0 && t.cosDeg(90.0) == 0.0
    && t.sinDeg(180.0) == 0.0 && t.cosDeg(180.0) == -1.0
  }

  function Abs(x: real): real {
    if x < 0.0 then -x else x
  }

  /** Inches to millimetres at the layout's deliberate 25 mm per inch (not 25.4). */
  function InchToMillimeter(inches: real): (mm: real)
    ensures mm / 25.0 == inches
    ensures 0.0 < inches ==> mm < inches * 25.4
  {
    inches * 25.0
  }

  lemma PageSizesInMillimeters()
    ensures InchToMillimeter(1.0) == 25.0
    ensures InchToMillimeter(8.5) == 212.5
    ensures InchToMillimeter(11.0) == 275.0
  {
  }

  /** The point at `radius` from `origin` in direction `angle` degrees (0° is 3 o'clock, 90° is 6 o'clock). */
  function GetCoordinatePoint(t: Trig, origin: Point, radius: real, angle: real): (p: Point)
    ensures radius == 0.0 ==> p == origin
  {
    Point(origin.x + radius * t.cosDeg(angle), origin.y + radius * t.sinDeg(angle))
  }

  function SquaredDistance(p: Point, q: Point): real {
    (p.x - q.x) * (p.x - q.x) + (p.y - q.y) * (p.y - q.y)
  }

  /** Every polar point lies on the circle of its radius around the origin. */
  lemma PolarPointOnCircle(t: Trig, origin: Point, radius: real, angle: real)
    requires Pythagorean(t)
    ensures SquaredDistance(GetCoordinatePoint(t, origin, radius, angle), origin) == radius * radius
  {
    var s, c := t.sinDeg(angle), t.cosDeg(angle);
    assert s * s + c * c == 1.0;
    calc {
      (radius * c) * (radius * c) + (radius * s) * (radius * s);
      radius * radius * (c * c + s * s);
      radius * radius;
    }
  }

  /** The screen convention: −90° is 12 o'clock, 0° is 3 o'clock, 90° is 6 o'clock, 180° is 9 o'clock. */
  lemma ClockPositions(t: Trig, o: Point, r: real)
    requires QuarterTurns(t)
    ensures GetCoordinatePoint(t, o, r, -90.0) == Point(o.x, o.y - r)
    ensures GetCoordinatePoint(t, o, r, 0.0) == Point(o.x + r, o.y)
    ensures GetCoordinatePoint(t, o, r, 90.0) == Point(o.x, o.y + r)
    ensures GetCoordinatePoint(t, o, r, 180.0) == Point(o.x - r, o.y)
  {
  }

  function Midpoint(p: Point, q: Point): Point {
    Point((p.x + q.x) / 2.0, (p.y + q.y) / 2.0)
  }

  /** The "x-axis-rotation large-arc-flag sweep-flag" triple of an SVG elliptical arc command. */
  datatype ArcParams = ArcParams(xAxisRotation: nat, largeArc: nat, sweep: nat)

  /** A circular arc from `start` to `stop`. */
  datatype Arc = Arc(start: Point, stop: Point, radius: real, params: ArcParams)

  /** An arc of the circle of `radius` around `origin`, from angle `startAngle` to angle `stopAngle`. */
  function GetArc(t: Trig, origin: Point, radius: real, startAngle: real, stopAngle: real): (a: Arc)
    ensures a.radius == radius
    ensures a.start == GetCoordinatePoint(t, origin, radius, startAngle)
    ensures a.stop == GetCoordinatePoint(t, origin, radius, stopAngle)
    ensures a.params.xAxisRotation == 0
    ensures a.params.largeArc <= 1 && (a.params.largeArc == 0 <==> Abs(startAngle - stopAngle) <= 180.0)
    ensures a.params.sweep <= 1 && (a.params.sweep == 1 <==> startAngle < stopAngle)
  {
    var start := GetCoordinatePoint(t, origin, radius, startAngle);
    var stop := GetCoordinatePoint(t, origin, radius, stopAngle);
    var largeArcFlag := if Abs(startAngle - stopAngle) <= 180.0 then 0 else 1;
    var sweepFlag := if startAngle < stopAngle then 1 else 0;
    Arc(start, stop, radius, ArcParams(0, largeArcFlag, sweepFlag))
  }

  /** A half-turn arc is drawn as the small arc, however it is oriented. */
  lemma HalfTurnIsSmallArc(t: Trig, origin: Point, radius: real, a: real)
    ensures GetArc(t, origin, radius, a, a + 180.0).params.largeArc == 0
    ensures GetArc(t, origin, radius, a + 180.0, a).params.largeArc == 0
  {
  }

  /** A ring segment: an outer arc and an inner arc traversed in the opposite direction. */
  datatype DimensionalArc = DimensionalArc(outerArc: Arc, innerArc: Arc, stroke: string, fill: string)

  /**
    `d` is the ring segment between radii `inner` and `outer` and angles `start` and `stop`: the
    outer arc runs along the outer circle from the start ray to the stop ray, the inner arc along the
    inner circle from the stop ray back to the start ray.
   */
  predicate SpansRing(d: DimensionalArc, t: Trig, o: Point, inner: real, outer: real, start: real, stop: real) {
    && d.outerArc.radius == outer
    && d.innerArc.radius == inner
    && d.outerArc.start == GetCoordinatePoint(t, o, outer, start)
    && d.outerArc.stop == GetCoordinatePoint(t, o, outer, stop)
    && d.innerArc.start == GetCoordinatePoint(t, o, inner, stop)
    && d.innerArc.stop == GetCoordinatePoint(t, o, inner, start)
  }

  /** The ring segment between two radii and two angles. */
  function GetDimensionalArc(
    t: Trig, origin: Point, innerRadius: real, outerRadius: real,
    startAngle: real, stopAngle: real, stroke: string, fill: string): (d: DimensionalArc)
    ensures SpansRing(d, t, origin, innerRadius, outerRadius, startAngle, stopAngle)
    ensures d.stroke == stroke && d.fill == fill
    ensures d.outerArc.params.largeArc == d.innerArc.params.largeArc
    ensures startAngle != stopAngle ==> d.outerArc.params.sweep != d.innerArc.params.sweep
    ensures d.outerArc.params.xAxisRotation == d.innerArc.params.xAxisRotation == 0
  {
    var outerArc := GetArc(t, origin, outerRadius, startAngle, stopAngle);
    // the inner arc is reversed so that the outline closes
    var innerArc := GetArc(t, origin, innerRadius, stopAngle, startAngle);
    DimensionalArc(outerArc, innerArc, stroke, fill)
  }

  /** A page size in millimetres. */
  datatype Canvas = Canvas(widthMm: real, heightMm: real)

  /** The landscape page (11 × 8.5 inches). */
  function PageCanvas(): (c: Canvas)
    ensures c == Canvas(275.0, 212.5)
  {
    Canvas(InchToMillimeter(11.0), InchToMillimeter(8.5))
  }

  /** The portrait page (8.5 × 11 inches): the landscape page turned a quarter. */
  function VerticalPageCanvas(): (c: Canvas)
    ensures c == Canvas(PageCanvas().heightMm, PageCanvas().widthMm)
  {
    Canvas(InchToMillimeter(8.5), InchToMillimeter(11.0))
  }

  /** The opening `<svg>` tag of a page, with width and height in millimetres and a matching viewBox. */
  function CanvasHeader(fmt: real -> string, c: Canvas): string {
    "<svg xmlns=\"http://www.w3.org/2000/svg\" width=\"" + fmt(c.widthMm) + "mm\" height=\""
    + fmt(c.heightMm) + "mm\" viewBox=\"0 0 " + fmt(c.widthMm) + " " + fmt(c.heightMm) + "\">"
  }
}
