/**
  The month renderer (node/src/lib/month-renderer.ts and its alternate port app/src/lib/month.ts).

  A month becomes an ordered list of drawables: the background wedge, the curved month name, then a
  date box and a numeral for each day. The month is centred on −90° (12 o'clock); its days split its
  angle evenly. The two ports differ only in where a numeral is centred, so one `GetMonth` takes the
  rule as a parameter.
 */
module MonthRenderer {
  import opened Text
  import opened Geometry
  import opened Primitives
  import opened CalendarData

  const DateFillColor: string := "#fbebb3"

  /** Where a day's numeral is centred in its date box. */
  datatype NumeralCentre =
    | ArcEndpointAverage  // node renderer: the mean of the box's inner-arc start and outer-arc start
    | PolarMidpoint       // app renderer: the polar point at the box's middle radius and middle angle

  /** A month's share of the full turn, in degrees. */
  function MonthWidth(numDays: nat, daysInYear: real): (w: real)
    requires daysInYear != 0.0
    ensures w * daysInYear == 360.0 * numDays as real
  {
    360.0 * (numDays as real) / daysInYear
  }

  /** The start and stop angles of a month of width `w`: `w` apart and centred on −90°. */
  function MonthSpan(w: real): (span: (real, real))
    ensures span.1 - span.0 == w
    ensures (span.0 + span.1) / 2.0 == -90.0
  {
    var angleOffset := w / 2.0;
    var centerAngle := -90.0;
    (centerAngle - angleOffset, centerAngle + angleOffset)
  }

  /** The angular width of one day. With no days the source divides by zero, but then no box is drawn. */
  function DateWidth(w: real, numDays: nat): (dw: real)
    ensures numDays > 0 ==> dw * numDays as real == w
  {
    if numDays == 0 then 0.0 else w / numDays as real
  }

  /** A range of radii. */
  datatype Band = Band(inner: real, outer: real)

  /** The radii of the date boxes: `dateBoxHeight` thick, against the outer edge when `dateOnTop`, else the inner. */
  function DateBand(m: MonthInstance): (b: Band)
    ensures b.outer - b.inner == m.dateBoxHeight
    ensures if m.dateOnTop then b.outer == m.outerRadius else b.inner == m.innerRadius
  {
    if m.dateOnTop then Band(m.outerRadius - m.dateBoxHeight, m.outerRadius)
    else Band(m.innerRadius, m.innerRadius + m.dateBoxHeight)
  }

  /** The rest of the ring, left for the month's name: it and the date band divide the ring between them. */
  function NameBand(m: MonthInstance): (b: Band)
    ensures if m.dateOnTop then b == Band(m.innerRadius, DateBand(m).inner) else b == Band(DateBand(m).outer, m.outerRadius)
    ensures b.outer - b.inner == m.outerRadius - m.innerRadius - m.dateBoxHeight
  {
    if m.dateOnTop then Band(m.innerRadius, m.outerRadius - m.dateBoxHeight)
    else Band(m.innerRadius + m.dateBoxHeight, m.outerRadius)
  }

  /** The radius of the month name's arc: halfway across the name band. */
  function LabelRadius(m: MonthInstance): (r: real)
    ensures r - NameBand(m).inner == NameBand(m).outer - r
  {
    var band := DateBand(m);
    if m.dateOnTop then (band.inner + m.innerRadius) / 2.0 else (band.outer + m.outerRadius) / 2.0
  }

  /** The month name's font size: half the name band's thickness. */
  function LabelFontSize(m: MonthInstance): (size: real)
    ensures 2.0 * size == NameBand(m).outer - NameBand(m).inner
  {
    (m.outerRadius - m.innerRadius - m.dateBoxHeight) / 2.0
  }

  /** The centre of a numeral in the box `box` spanning `band` × [s, e]. */
  function NumeralCentrePoint(t: Trig, rule: NumeralCentre, origin: Point, band: Band, box: DimensionalArc, s: real, e: real): Point {
    match rule
    case ArcEndpointAverage =>
      Point((box.innerArc.start.x + box.outerArc.start.x) / 2.0,
            (box.innerArc.start.y + box.outerArc.start.y) / 2.0
              + (box.innerArc.start.y - box.outerArc.start.y) * 0.0)
    case PolarMidpoint =>
      GetCoordinatePoint(t, origin, (band.inner + band.outer) / 2.0, (s + e) / 2.0)
  }

  /**
    Day `i`'s box over `band` × [s, e] and its numeral. Under the node rule the numeral sits at the
    midpoint of the box's diagonal from its outer corner on the start ray to its inner corner on the
    stop ray; under the app rule it sits at the polar centre of the box.
   */
  function DayPair(t: Trig, rule: NumeralCentre, m: MonthInstance, origin: Point, band: Band, i: nat, s: real, e: real)
    : (r: seq<Drawable>)
    ensures |r| == 2
    ensures r[0].Wedge? && SpansRing(r[0].ring, t, origin, band.inner, band.outer, s, e)
    ensures r[0].ring.stroke == "black" && r[0].ring.fill == DateFillColor
    ensures r[1].Numeral?
    ensures r[1].numeral.text == NatToString(i + 1)
    ensures r[1].numeral.fontSize == 0.6 * (band.outer - band.inner)
    ensures r[1].numeral.rotation == m.dateAngleOffset
    ensures rule == ArcEndpointAverage ==>
      r[1].numeral.point == Midpoint(GetCoordinatePoint(t, origin, band.outer, s), GetCoordinatePoint(t, origin, band.inner, e))
    ensures rule == PolarMidpoint ==>
      r[1].numeral.point == GetCoordinatePoint(t, origin, (band.inner + band.outer) / 2.0, (s + e) / 2.0)
  {
    var box := GetDimensionalArc(t, origin, band.inner, band.outer, s, e, "black", DateFillColor);
    var centre := NumeralCentrePoint(t, rule, origin, band, box, s, e);
    var size := (band.outer - band.inner) * 0.6;
    [Wedge(box), Numeral(CenteredText(centre, NatToString(i + 1), size, m.dateAngleOffset))]
  }

  /** The `j`-th pair of a sequence of (box, numeral) pairs. */
  function Pair(r: seq<Drawable>, j: nat): seq<Drawable>
    requires 2 * j + 2 <= |r|
  {
    r[2 * j..2 * j + 2]
  }

  /** The angle `j` day widths after `curr`. */
  function AngleAt(curr: real, w: real, j: int): real {
    curr + (j as real) * w
  }

  /** Advancing the running angle by one day shifts the day count by one. */
  lemma AngleAtStep(curr: real, w: real, j: int)
    ensures AngleAt(curr + w, w, j - 1) == AngleAt(curr, w, j)
    ensures AngleAt(curr + w, w, j) == AngleAt(curr, w, j + 1)
    ensures AngleAt(curr, w, 0) == curr && AngleAt(curr, w, 1) == curr + w
  {
  }

  /** Past a leading pair, the pairs of a sequence are those of its tail. */
  lemma PairAfterFirst(first: seq<Drawable>, rest: seq<Drawable>, j: nat)
    requires |first| == 2 && 0 < j && 2 * j + 2 <= |first + rest|
    ensures Pair(first + rest, j) == Pair(rest, j - 1)
    ensures Pair(first + rest, 0) == first
  {
  }

  /** Halfway between consecutive day boundaries is half a day past the earlier one. */
  lemma AngleAtMidpoint(curr: real, w: real, j: int)
    ensures (AngleAt(curr, w, j) + AngleAt(curr, w, j + 1)) / 2.0 == curr + ((j as real) + 0.5) * w
  {
    assert ((j + 1) as real) * w == (j as real) * w + w;
  }

  /** The middle radius of the date band. */
  function DateBandMiddle(m: MonthInstance): (r: real)
    ensures r - DateBand(m).inner == DateBand(m).outer - r
  {
    (DateBand(m).inner + DateBand(m).outer) / 2.0
  }

  /** The angle half a day past the start of day `i`. */
  function DayMiddleAngle(m: MonthInstance, daysInYear: real, i: nat): real
    requires daysInYear != 0.0
  {
    var w := MonthWidth(m.numDays, daysInYear);
    MonthSpan(w).0 + ((i as real) + 0.5) * DateWidth(w, m.numDays)
  }

  /** Day `i`'s middle angle is halfway between its box's boundaries. */
  lemma DayMiddleAngleIsBoxMiddle(m: MonthInstance, daysInYear: real, i: nat)
    requires daysInYear != 0.0
    ensures var w := MonthWidth(m.numDays, daysInYear);
      var start := MonthSpan(w).0;
      var dw := DateWidth(w, m.numDays);
      DayMiddleAngle(m, daysInYear, i) == (AngleAt(start, dw, i) + AngleAt(start, dw, i + 1)) / 2.0
  {
    var w := MonthWidth(m.numDays, daysInYear);
    AngleAtMidpoint(MonthSpan(w).0, DateWidth(w, m.numDays), i);
  }

  /**
    The boxes and numerals of days `i` .. `numDays − 1`, the running angle `curr` advancing by `w` per
    day as in the source's loop. The contract gives the closed form: day `i + j` spans
    [curr + j·w, curr + (j + 1)·w].
   */
  function DayParts(t: Trig, rule: NumeralCentre, m: MonthInstance, origin: Point, band: Band, w: real, i: nat, curr: real)
    : (r: seq<Drawable>)
    requires i <= m.numDays
    ensures |r| == 2 * (m.numDays - i)
    ensures forall j {:trigger Pair(r, j)} :: 0 <= j < m.numDays - i ==>
      Pair(r, j) == DayPair(t, rule, m, origin, band, i + j, AngleAt(curr, w, j), AngleAt(curr, w, j + 1))
    decreases m.numDays - i
  {
    if i == m.numDays then []
    else
      var first := DayPair(t, rule, m, origin, band, i, curr, curr + w);
      var rest := DayParts(t, rule, m, origin, band, w, i + 1, curr + w);
      var r := first + rest;
      forall j | 0 <= j < m.numDays - i
        ensures Pair(r, j) == DayPair(t, rule, m, origin, band, i + j, AngleAt(curr, w, j), AngleAt(curr, w, j + 1))
      {
        AngleAtStep(curr, w, j);
        if j > 0 {
          PairAfterFirst(first, rest, j);
        } else {
          assert Pair(r, 0) == first;
        }
      }
      r
  }

  /**
    The drawables of one month: the background wedge over the whole ring and span, the month name
    along an arc through the name band (reversed when the name is upside down), then for each day its
    box in the date band and its numeral.
   */
  function GetMonth(t: Trig, rule: NumeralCentre, m: MonthInstance, daysInYear: real, origin: Point): (parts: seq<Drawable>)
    requires daysInYear != 0.0
    ensures |parts| == 2 + 2 * m.numDays
    ensures var span := MonthSpan(MonthWidth(m.numDays, daysInYear));
      && parts[0].Wedge?
      && SpansRing(parts[0].ring, t, origin, m.innerRadius, m.outerRadius, span.0, span.1)
      && parts[0].ring.stroke == "black" && parts[0].ring.fill == m.color
    ensures var span := MonthSpan(MonthWidth(m.numDays, daysInYear));
      && parts[1].CurvedLabel?
      && parts[1].curved.text == m.name
      && parts[1].curved.fontSize == LabelFontSize(m)
      && parts[1].curved.arc == GetArc(t, origin, LabelRadius(m),
           if m.nameUpsideDown then span.1 else span.0, if m.nameUpsideDown then span.0 else span.1)
    ensures var w := MonthWidth(m.numDays, daysInYear);
      var start := MonthSpan(w).0;
      var dw := DateWidth(w, m.numDays);
      forall i {:trigger Pair(parts[2..], i)} :: 0 <= i < m.numDays ==>
        Pair(parts[2..], i) == DayPair(t, rule, m, origin, DateBand(m), i, AngleAt(start, dw, i), AngleAt(start, dw, i + 1))
  {
    var w := MonthWidth(m.numDays, daysInYear);
    var span := MonthSpan(w);
    var background := GetDimensionalArc(t, origin, m.innerRadius, m.outerRadius, span.0, span.1, "black", m.color);
    var labelArc := GetArc(t, origin, LabelRadius(m),
      if m.nameUpsideDown then span.1 else span.0, if m.nameUpsideDown then span.0 else span.1);
    var name := CurvedText(labelArc, m.name, LabelFontSize(m));
    var days := DayParts(t, rule, m, origin, DateBand(m), DateWidth(w, m.numDays), 0, span.0);
    var parts := [Wedge(background), CurvedLabel(name)] + days;
    assert parts[2..] == days;
    parts
  }

  /** The month name's arc runs clockwise exactly when the name is upright. */
  lemma LabelReadsUpright(t: Trig, rule: NumeralCentre, m: MonthInstance, daysInYear: real, origin: Point)
    requires 0.0 < daysInYear && 0 < m.numDays
    ensures GetMonth(t, rule, m, daysInYear, origin)[1].curved.arc.params.sweep == 1 <==> !m.nameUpsideDown
  {
    var w := MonthWidth(m.numDays, daysInYear);
    assert w * daysInYear > 0.0;
    assert w > 0.0;
  }

  /** The date boxes tile the month: the first starts at the month's start and the last ends at its stop. */
  lemma DateBoxesTileMonth(numDays: nat, daysInYear: real)
    requires daysInYear != 0.0 && 0 < numDays
    ensures var w := MonthWidth(numDays, daysInYear);
      var span := MonthSpan(w);
      AngleAt(span.0, DateWidth(w, numDays), numDays) == span.1
  {
    var w := MonthWidth(numDays, daysInYear);
    assert DateWidth(w, numDays) * numDays as real == w;
  }

  /** Day `i`'s box lies in the date band chosen by `dateOnTop`, and its numeral reads `i + 1`. */
  lemma DayElements(t: Trig, rule: NumeralCentre, m: MonthInstance, daysInYear: real, origin: Point, i: nat)
    requires daysInYear != 0.0 && i < m.numDays
    ensures var parts := GetMonth(t, rule, m, daysInYear, origin);
      && parts[2 + 2 * i].Wedge?
      && parts[2 + 2 * i].ring.fill == DateFillColor
      && parts[2 + 2 * i].ring.outerArc.radius == (if m.dateOnTop then m.outerRadius else m.innerRadius + m.dateBoxHeight)
      && parts[2 + 2 * i].ring.innerArc.radius == (if m.dateOnTop then m.outerRadius - m.dateBoxHeight else m.innerRadius)
      && parts[3 + 2 * i].Numeral?
      && parts[3 + 2 * i].numeral.text == NatToString(i + 1)
      && parts[3 + 2 * i].numeral.fontSize == 0.6 * m.dateBoxHeight
      && parts[3 + 2 * i].numeral.rotation == m.dateAngleOffset
  {
    var parts := GetMonth(t, rule, m, daysInYear, origin);
    var w := MonthWidth(m.numDays, daysInYear);
    var start := MonthSpan(w).0;
    var dw := DateWidth(w, m.numDays);
    var pair := Pair(parts[2..], i);
    assert pair == DayPair(t, rule, m, origin, DateBand(m), i, AngleAt(start, dw, i), AngleAt(start, dw, i + 1));
    assert parts[2 + 2 * i] == pair[0] && parts[3 + 2 * i] == pair[1];
  }

  /** The two ports draw the same month except for where the numerals are centred. */
  lemma RulesDifferOnlyInNumeralCentres(t: Trig, m: MonthInstance, daysInYear: real, origin: Point, i: nat)
    requires daysInYear != 0.0 && i < m.numDays
    ensures var a := GetMonth(t, ArcEndpointAverage, m, daysInYear, origin);
      var b := GetMonth(t, PolarMidpoint, m, daysInYear, origin);
      && |a| == |b|
      && a[..2] == b[..2]
      && a[2 + 2 * i] == b[2 + 2 * i]
      && a[3 + 2 * i].Numeral? && b[3 + 2 * i].Numeral?
      && a[3 + 2 * i].numeral.(point := origin) == b[3 + 2 * i].numeral.(point := origin)
  {
    var a := GetMonth(t, ArcEndpointAverage, m, daysInYear, origin);
    var b := GetMonth(t, PolarMidpoint, m, daysInYear, origin);
    var w := MonthWidth(m.numDays, daysInYear);
    var start := MonthSpan(w).0;
    var dw := DateWidth(w, m.numDays);
    var s, e := AngleAt(start, dw, i), AngleAt(start, dw, i + 1);
    var pa := Pair(a[2..], i);
    var pb := Pair(b[2..], i);
    assert pa == DayPair(t, ArcEndpointAverage, m, origin, DateBand(m), i, s, e);
    assert pb == DayPair(t, PolarMidpoint, m, origin, DateBand(m), i, s, e);
    assert a[2 + 2 * i] == pa[0] && a[3 + 2 * i] == pa[1];
    assert b[2 + 2 * i] == pb[0] && b[3 + 2 * i] == pb[1];
  }

  /** Parts without curved labels consume no text-path ids. */
  lemma {:induction false} NoLabels(r: seq<Drawable>)
    requires forall k :: 0 <= k < |r| ==> !r[k].CurvedLabel?
    ensures LabelCount(r) == 0
  {
    if |r| > 0 {
      NoLabels(r[1..]);
    }
  }

  /** A month has exactly one curved text, its name, and so takes exactly one text-path id. */
  lemma OneLabelPerMonth(t: Trig, rule: NumeralCentre, m: MonthInstance, daysInYear: real, origin: Point)
    requires daysInYear != 0.0
    ensures LabelCount(GetMonth(t, rule, m, daysInYear, origin)) == 1
  {
    var parts := GetMonth(t, rule, m, daysInYear, origin);
    var w := MonthWidth(m.numDays, daysInYear);
    var start := MonthSpan(w).0;
    var dw := DateWidth(w, m.numDays);
    var days := parts[2..];
    forall k | 0 <= k < |days|
      ensures !days[k].CurvedLabel?
    {
      var j := k / 2;
      var pair := Pair(days, j);
      assert pair == DayPair(t, rule, m, origin, DateBand(m), j, AngleAt(start, dw, j), AngleAt(start, dw, j + 1));
      assert days[k] == pair[k - 2 * j];
    }
    NoLabels(days);
    assert parts[1..][0] == parts[1];
    assert parts[1..][1..] == days;
  }
}
