/**
  The SVG drawing primitives (node/src/lib/primitives.ts) and the month-part serializer
  (drawMonthParts and groupWithMonthParts of node/src/lib/geometry.ts).

  Each drawable renders to one or two SVG elements. An element is kept as a datatype and turned into
  markup by `Serialize`; `fmt` stands for JavaScript's rendering of a number inside a template literal.
  The module-level `textPathIdCounter` of the source is the explicit state `TextPathIds`, threaded
  through every call that draws curved text.
 */
module Primitives {
  import opened Wrappers
  import opened Text
  import opened Geometry

  /** The legacy scale factor and the default stroke width derived from it (0.07 mm). */
  const ScaleFactor: real := 0.7
  const DefaultStrokeWidth: real := 0.1 * ScaleFactor

  /** `fmt` never produces the character `c`. */
  ghost predicate FmtFreeOf(fmt: real -> string, c: char) {
    forall v: real :: FreeOf(fmt(v), c)
  }

  /** "x,y" as it appears inside path data. */
  function PointText(fmt: real -> string, p: Point): string {
    fmt(p.x) + "," + fmt(p.y)
  }

  /** The two coordinates can be read back from a point's text when numbers never render with a comma. */
  lemma PointTextSplits(fmt: real -> string, p: Point)
    requires FmtFreeOf(fmt, ',')
    ensures Split(PointText(fmt, p), ',') == [fmt(p.x), fmt(p.y)]
  {
    assert FreeOf(fmt(p.x), ',') && FreeOf(fmt(p.y), ',');
    assert JoinWith([fmt(p.x), fmt(p.y)], ',') == PointText(fmt, p) by {
      assert [fmt(p.x), fmt(p.y)][1..] == [fmt(p.y)];
    }
    SplitJoinRoundTrip([fmt(p.x), fmt(p.y)], ',');
  }

  /** "rotation large-arc sweep" as written in an arc command. */
  function ParamsText(p: ArcParams): string {
    NatToString(p.xAxisRotation) + " " + NatToString(p.largeArc) + " " + NatToString(p.sweep)
  }

  /** The three arc parameters can be read back from their text. */
  lemma ParamsTextRoundTrip(p: ArcParams)
    ensures var parts := Split(ParamsText(p), ' ');
      && |parts| == 3
      && AllDigits(parts[0]) && AllDigits(parts[1]) && AllDigits(parts[2])
      && DigitsValue(parts[0]) == p.xAxisRotation
      && DigitsValue(parts[1]) == p.largeArc
      && DigitsValue(parts[2]) == p.sweep
  {
    var a, b, c := NatToString(p.xAxisRotation), NatToString(p.largeArc), NatToString(p.sweep);
    DigitsAreSpaceFree(a);
    DigitsAreSpaceFree(b);
    DigitsAreSpaceFree(c);
    assert JoinWith([a, b, c], ' ') == ParamsText(p) by {
      assert [b, c][1..] == [c];
      assert JoinWith([b, c], ' ') == b + " " + c;
      assert [a, b, c][1..] == [b, c];
    }
    SplitJoinRoundTrip([a, b, c], ' ');
    NatToStringRoundTrip(p.xAxisRotation);
    NatToStringRoundTrip(p.largeArc);
    NatToStringRoundTrip(p.sweep);
  }

  lemma DigitsAreSpaceFree(s: string)
    requires AllDigits(s)
    ensures FreeOf(s, ' ')
  {
    forall i | 0 <= i < |s|
      ensures s[i] != ' '
    {
      assert IsDigit(s[i]);
    }
  }

  /** Whether an arc's path starts a new subpath ("m") or continues the current one with a line ("L"). */
  datatype ArcDrawMode = New | LineTo

  function ModeCommand(mode: ArcDrawMode): string {
    if mode == New then "m" else "L"
  }

  /** The elliptical-arc command "A r,r params x,y " that draws an arc to its stop point. */
  function ArcCommand(fmt: real -> string, a: Arc): string {
    "A " + fmt(a.radius) + "," + fmt(a.radius) + " " + ParamsText(a.params) + " " + PointText(fmt, a.stop) + " "
  }

  /** The path data of one arc: reach its start point, then an elliptical-arc command to its stop point. */
  function ArcPath(fmt: real -> string, a: Arc, mode: ArcDrawMode): (s: string)
    ensures var reach := ModeCommand(mode) + " " + PointText(fmt, a.start) + " ";
      |reach| <= |s| && s[..|reach|] == reach
  {
    ModeCommand(mode) + " " + PointText(fmt, a.start) + " " + ArcCommand(fmt, a)
  }

  /** The two drawing modes differ only in the first command letter. */
  lemma ArcPathModesDiffer(fmt: real -> string, a: Arc)
    ensures ArcPath(fmt, a, New)[0] == 'm' && ArcPath(fmt, a, LineTo)[0] == 'L'
    ensures ArcPath(fmt, a, New)[1..] == ArcPath(fmt, a, LineTo)[1..]
  {
    var rest := " " + PointText(fmt, a.start) + " " + ArcCommand(fmt, a);
    assert ArcPath(fmt, a, New) == "m" + rest;
    assert ArcPath(fmt, a, LineTo) == "L" + rest;
  }

  /**
    The path data of a ring segment: the outer arc, a line to the inner arc's start and the inner arc,
    and a final line back to the outer arc's start, closing the outline.
   */
  function DimensionalArcPath(fmt: real -> string, d: DimensionalArc): (s: string)
    ensures var open := "m " + PointText(fmt, d.outerArc.start) + " ";
      |open| <= |s| && s[..|open|] == open
    ensures var close := "L " + PointText(fmt, d.outerArc.start) + " ";
      |close| <= |s| && s[|s| - |close|..] == close
  {
    var outer := ArcPath(fmt, d.outerArc, New);
    var open := "m " + PointText(fmt, d.outerArc.start) + " ";
    var close := "L " + PointText(fmt, d.outerArc.start) + " ";
    assert open == ModeCommand(New) + " " + PointText(fmt, d.outerArc.start) + " " by {
      assert ModeCommand(New) + " " == "m ";
    }
    EndsOfConcat(outer, ArcPath(fmt, d.innerArc, LineTo), close, |open|);
    outer + ArcPath(fmt, d.innerArc, LineTo) + close
  }

  /** One SVG element as the renderer emits it. */
  datatype Element =
    | PathElement(id: Option<string>, d: string, stroke: string, strokeWidth: Option<real>, fill: string)
    | TextElement(x: real, y: real, fontSize: real, rotation: real, pivot: Point, content: string)
    | TextPathElement(fontSize: real, href: string, content: string)

  /** The markup of one element; a text path refers to the path whose id it names. */
  function Serialize(fmt: real -> string, e: Element): string {
    match e
    case PathElement(id, d, stroke, strokeWidth, fill) =>
      "<path "
      + (if id.Some? then "id=\"" + id.value + "\" " else "")
      + "d=\"" + d + "\" stroke=\"" + stroke + "\""
      + (if strokeWidth.Some? then " stroke-width=\"" + fmt(strokeWidth.value) + "\"" else "")
      + " fill=\"" + fill + "\"/>"
    case TextElement(x, y, fontSize, rotation, pivot, content) =>
      "<text x=\"" + fmt(x) + "\" y=\"" + fmt(y) + "\" "
      + "font-size=\"" + fmt(fontSize) + "\" "
      + "text-anchor=\"middle\" "
      + "dominant-baseline=\"middle\" "
      + "transform=\"rotate(" + fmt(rotation) + ", " + fmt(pivot.x) + ", " + fmt(pivot.y) + ")\""
      + ">" + content + "</text>"
    case TextPathElement(fontSize, href, content) =>
      "<text font-size=\"" + fmt(fontSize) + "\" font-family=\"Arimo, Arial, Helvetica, sans-serif\">"
      + "<textPath href=\"#" + href + "\" startOffset=\"50%\" method=\"align\" text-anchor=\"middle\" dominant-baseline=\"middle\">"
      + content
      + "</textPath>"
      + "</text>"
  }

  /** A stroked arc with the source's defaults: black stroke, no fill, the default stroke width. */
  function ArcElement(fmt: real -> string, a: Arc): (e: Element)
    ensures e.PathElement? && e.id == None
    ensures e.stroke == "black" && e.fill == "none" && e.strokeWidth == Some(0.07)
  {
    PathElement(None, ArcPath(fmt, a, New), "black", Some(DefaultStrokeWidth), "none")
  }

  /** Text centred on a point and rotated about it. */
  datatype CenteredText = CenteredText(point: Point, text: string, fontSize: real, rotation: real)

  /** Text laid along an arc. */
  datatype CurvedText = CurvedText(arc: Arc, text: string, fontSize: real)

  /** The parts a month is drawn from. */
  datatype Drawable =
    | Wedge(ring: DimensionalArc)
    | CurvedLabel(curved: CurvedText)
    | Numeral(numeral: CenteredText)

  /** The state of the text-path id counter: the number the next curved text will use. */
  datatype TextPathIds = TextPathIds(next: nat)

  /** The counter after a reset. */
  const FreshTextPathIds: TextPathIds := TextPathIds(0)

  function TextPathId(n: nat): string {
    "textpath-" + NatToString(n)
  }

  /** Different counter values name different paths. */
  lemma TextPathIdInjective(a: nat, b: nat)
    requires TextPathId(a) == TextPathId(b)
    ensures a == b
  {
    var p := "textpath-";
    assert NatToString(a) == TextPathId(a)[|p|..];
    assert NatToString(b) == TextPathId(b)[|p|..];
    NatToStringInjective(a, b);
  }

  /** How many elements a part draws into and how many text-path ids it consumes. */
  function ElementCount(p: Drawable): nat {
    if p.CurvedLabel? then 2 else 1
  }

  function IdsUsed(p: Drawable): nat {
    if p.CurvedLabel? then 1 else 0
  }

  /**
    The elements of one part. A wedge is its closed outline at the default stroke width; a centred
    text is shifted down by a tenth of its font size and rotated about its anchor point; a curved text
    is an invisible path carrying a fresh id followed by a text path that refers to that id.
   */
  function Draw(fmt: real -> string, ids: TextPathIds, p: Drawable): (r: (seq<Element>, TextPathIds))
    ensures |r.0| == ElementCount(p)
    ensures r.1.next == ids.next + IdsUsed(p)
    ensures p.Wedge? ==>
      && r.0[0].PathElement? && r.0[0].id.None?
      && r.0[0].d == DimensionalArcPath(fmt, p.ring)
      && r.0[0].stroke == p.ring.stroke && r.0[0].fill == p.ring.fill
      && r.0[0].strokeWidth == Some(DefaultStrokeWidth)
    ensures p.Numeral? ==>
      && r.0[0].TextElement?
      && r.0[0].pivot == p.numeral.point
      && r.0[0].x == p.numeral.point.x
      && r.0[0].y - p.numeral.point.y == p.numeral.fontSize / 10.0
      && r.0[0].rotation == p.numeral.rotation
      && r.0[0].fontSize == p.numeral.fontSize
      && r.0[0].content == p.numeral.text
    ensures p.CurvedLabel? ==>
      && r.0[0].PathElement?
      && r.0[0].id == Some(TextPathId(ids.next))
      && r.0[0].d == ArcPath(fmt, p.curved.arc, New)
      && r.0[0].stroke == "none" && r.0[0].fill == "none" && r.0[0].strokeWidth.None?
      && r.0[1].TextPathElement?
      && Some(r.0[1].href) == r.0[0].id
      && r.0[1].content == p.curved.text
      && r.0[1].fontSize == p.curved.fontSize
  {
    match p
    case Wedge(ring) =>
      ([PathElement(None, DimensionalArcPath(fmt, ring), ring.stroke, Some(DefaultStrokeWidth), ring.fill)], ids)
    case Numeral(c) =>
      var y := c.point.y + c.fontSize * 0.1;
      ([TextElement(c.point.x, y, c.fontSize, c.rotation, c.point, c.text)], ids)
    case CurvedLabel(c) =>
      var pathId := TextPathId(ids.next);
      var path := PathElement(Some(pathId), ArcPath(fmt, c.arc, New), "none", None, "none");
      var text := TextPathElement(c.fontSize, pathId, c.text);
      ([path, text], TextPathIds(ids.next + 1))
  }

  function LabelCount(parts: seq<Drawable>): nat {
    if |parts| == 0 then 0 else IdsUsed(parts[0]) + LabelCount(parts[1..])
  }

  /** The ids carried by the path elements of `els`, in order. */
  function PathIds(els: seq<Element>): seq<string> {
    if |els| == 0 then []
    else (if els[0].PathElement? && els[0].id.Some? then [els[0].id.value] else []) + PathIds(els[1..])
  }

  lemma {:induction false} PathIdsAppend(a: seq<Element>, b: seq<Element>)
    ensures PathIds(a + b) == PathIds(a) + PathIds(b)
  {
    if |a| == 0 {
      assert a + b == b;
    } else {
      assert (a + b)[0] == a[0];
      assert (a + b)[1..] == a[1..] + b;
      PathIdsAppend(a[1..], b);
    }
  }

  /** The ids `start`, `start + 1`, … of `count` consecutive curved texts. */
  function IdRange(start: nat, count: nat): (r: seq<string>)
    ensures |r| == count
    ensures forall k :: 0 <= k < count ==> r[k] == TextPathId(start + k)
    decreases count
  {
    if count == 0 then [] else [TextPathId(start)] + IdRange(start + 1, count - 1)
  }

  /** Every text path immediately follows the path it refers to. */
  predicate ReferencesResolve(els: seq<Element>) {
    forall i :: 0 <= i < |els| && els[i].TextPathElement? ==>
      0 < i && els[i - 1].PathElement? && els[i - 1].id == Some(els[i].href)
  }

  /** The elements of all parts in order, and the counter after the last curved text. */
  function DrawParts(fmt: real -> string, ids: TextPathIds, parts: seq<Drawable>): (r: (seq<Element>, TextPathIds))
    ensures |r.0| == |parts| + LabelCount(parts)
    ensures r.1.next == ids.next + LabelCount(parts)
    ensures PathIds(r.0) == IdRange(ids.next, LabelCount(parts))
    ensures ReferencesResolve(r.0)
    decreases |parts|
  {
    if |parts| == 0 then ([], ids)
    else
      var first := Draw(fmt, ids, parts[0]);
      var rest := DrawParts(fmt, first.1, parts[1..]);
      PathIdsAppend(first.0, rest.0);
      DrawPathIds(fmt, ids, parts[0]);
      RangeConcat(ids.next, IdsUsed(parts[0]), LabelCount(parts[1..]));
      ResolveConcat(first.0, rest.0);
      (first.0 + rest.0, rest.1)
  }

  /** One part's own ids and references. */
  lemma DrawPathIds(fmt: real -> string, ids: TextPathIds, p: Drawable)
    ensures PathIds(Draw(fmt, ids, p).0) == IdRange(ids.next, IdsUsed(p))
    ensures ReferencesResolve(Draw(fmt, ids, p).0)
    ensures !Draw(fmt, ids, p).0[0].TextPathElement?
  {
    var els := Draw(fmt, ids, p).0;
    if p.CurvedLabel? {
      assert |els| == 2 && els[1].TextPathElement?;
      assert els[1..][1..] == [];
      assert PathIds(els[1..]) == [] by {
        assert PathIds(els[1..][1..]) == [];
      }
      assert PathIds(els) == [TextPathId(ids.next)];
      assert IdRange(ids.next, 1) == [TextPathId(ids.next)];
    } else {
      assert els[1..] == [];
      assert PathIds(els) == [];
    }
  }

  lemma {:induction false} RangeConcat(start: nat, a: nat, b: nat)
    ensures IdRange(start, a) + IdRange(start + a, b) == IdRange(start, a + b)
  {
  }

  lemma ResolveConcat(a: seq<Element>, b: seq<Element>)
    requires ReferencesResolve(a) && ReferencesResolve(b)
    requires |b| > 0 ==> !b[0].TextPathElement?
    ensures ReferencesResolve(a + b)
  {
    var c := a + b;
    forall i | 0 <= i < |c| && c[i].TextPathElement?
      ensures 0 < i && c[i - 1].PathElement? && c[i - 1].id == Some(c[i].href)
    {
      if i >= |a| {
        assert c[i] == b[i - |a|];
        assert c[i - 1] == b[i - |a| - 1];
      }
    }
  }

  /** All text-path ids drawn in one pass are distinct, so every reference is unambiguous. */
  lemma TextPathIdsDistinct(fmt: real -> string, ids: TextPathIds, parts: seq<Drawable>)
    ensures var ps := PathIds(DrawParts(fmt, ids, parts).0);
      forall i, j :: 0 <= i < j < |ps| ==> ps[i] != ps[j]
  {
    IdRangeDistinct(ids.next, LabelCount(parts));
  }

  lemma IdRangeDistinct(start: nat, count: nat)
    ensures forall i, j :: 0 <= i < j < count ==> IdRange(start, count)[i] != IdRange(start, count)[j]
  {
    var r := IdRange(start, count);
    forall i, j | 0 <= i < j < count
      ensures r[i] != r[j]
    {
      if r[i] == r[j] {
        TextPathIdInjective(start + i, start + j);
      }
    }
  }

  function SerializeAll(fmt: real -> string, els: seq<Element>): (r: seq<string>)
    ensures |r| == |els|
    ensures forall i :: 0 <= i < |els| ==> r[i] == Serialize(fmt, els[i])
  {
    if |els| == 0 then [] else [Serialize(fmt, els[0])] + SerializeAll(fmt, els[1..])
  }

  /** The markup of all parts, one element per line. */
  function DrawMonthParts(fmt: real -> string, ids: TextPathIds, parts: seq<Drawable>): (r: (string, TextPathIds))
    ensures r.1.next == ids.next + LabelCount(parts)
  {
    var drawn := DrawParts(fmt, ids, parts);
    (JoinWith(SerializeAll(fmt, drawn.0), '\n'), drawn.1)
  }

  /** When no element's markup contains a line break, the lines of the month's markup are its elements. */
  lemma DrawMonthPartsLines(fmt: real -> string, ids: TextPathIds, parts: seq<Drawable>)
    requires 0 < |parts|
    requires forall e :: e in DrawParts(fmt, ids, parts).0 ==> FreeOf(Serialize(fmt, e), '\n')
    ensures Split(DrawMonthParts(fmt, ids, parts).0, '\n') == SerializeAll(fmt, DrawParts(fmt, ids, parts).0)
  {
    var els := DrawParts(fmt, ids, parts).0;
    var lines := SerializeAll(fmt, els);
    forall k | 0 <= k < |lines|
      ensures FreeOf(lines[k], '\n')
    {
      assert els[k] in els;
    }
    SplitJoinRoundTrip(lines, '\n');
  }

  /** JavaScript truthiness of an optional string: present and non-empty. */
  predicate Truthy(s: Option<string>) {
    s.Some? && |s.value| > 0
  }

  /** A group element around some content, carrying the transform only when one is given. */
  function Group(content: string, transform: Option<string>): (g: string)
    ensures Truthy(transform) <==> (|g| >= 14 && g[..14] == "<g transform=\"")
  {
    if Truthy(transform) then
      var open := "<g transform=\"";
      var g := open + transform.value + "\">\n" + content + "\n</g>";
      assert g[..14] == open;
      g
    else
      var g := "<g>\n" + content + "\n</g>";
      assert g[2] == '>';
      g
  }

  /** The parts' markup wrapped in a `<g>` group. */
  function GroupWithMonthParts(fmt: real -> string, ids: TextPathIds, parts: seq<Drawable>, transform: Option<string>)
    : (r: (string, TextPathIds))
    ensures r.1.next == ids.next + LabelCount(parts)
  {
    var drawn := DrawMonthParts(fmt, ids, parts);
    (Group(drawn.0, transform), drawn.1)
  }
}
