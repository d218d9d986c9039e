/**
  Sticker sheets for a Cricut "Print Then Cut" printer (python/cricut_layout.py): the ring radii at a
  scale factor, the scale factor that gives a wanted circle diameter, the printable-area test, and the
  two greedy ways of stacking month arcs onto sheets — plain stacking, and nested stacking in which
  every second arc is flipped so that it sinks into the curve of the one above it.

  A layout is described twice: as the sheets the loop produces, and as the flat sequence of all
  placements in order together with a flag per placement that says whether it opens a sheet. The
  properties of the packing are stated on the flat view, one placement at a time.
 */
module CricutLayout {
  import Config
  import CalendarData

  /** The Print Then Cut area, in inches. */
  const CricutPtcWidth: real := 6.75
  const CricutPtcHeight: real := 9.25
  /** The gap left between stickers for the cut path, in inches. */
  const CutMargin: real := 0.05
  const MmPerInch: real := 25.0
  const DaysInYear: nat := 366

  const SolarMonths: seq<(string, nat)> := [
    ("January", 31), ("February", 29), ("March", 31),
    ("April", 30), ("May", 31), ("June", 30),
    ("July", 31), ("August", 31), ("September", 30),
    ("October", 31), ("November", 30), ("December", 31)]

  const IslamicMonths: seq<(string, nat)> := [
    ("Muharram", 30), ("Safar", 30), ("Rabi al-Awwal", 30),
    ("Rabi ath-Thani", 30), ("Jumada al-Awwal", 30), ("Jumada ath-Thani", 30),
    ("Rajab", 30), ("Sha'baan", 30), ("Ramadan", 30),
    ("Shawwal", 30), ("Dhu al-Qa'dah", 30), ("Dhu al-Hijja", 30)]

  function Days(table: seq<(string, nat)>): (ds: seq<nat>)
    ensures |ds| == |table|
    ensures forall i :: 0 <= i < |table| ==> ds[i] == table[i].1
  {
    seq(|table|, i requires 0 <= i < |table| => table[i].1)
  }

  function Names(table: seq<(string, nat)>): (ns: seq<string>)
    ensures |ns| == |table|
    ensures forall i :: 0 <= i < |table| ==> ns[i] == table[i].0
  {
    seq(|table|, i requires 0 <= i < |table| => table[i].0)
  }

  /** The sticker script's Gregorian table is the calendar's leap year of 366 days. */
  lemma SolarTableMatchesCalendar()
    ensures Names(SolarMonths) == CalendarData.SolarMonthNames
    ensures Days(SolarMonths) == CalendarData.SolarMonthDays
    ensures CalendarData.SumNat(Days(SolarMonths)) == DaysInYear
  {
    assert Names(SolarMonths) == CalendarData.SolarMonthNames by {
      var ns := Names(SolarMonths);
      forall i | 0 <= i < 12 ensures ns[i] == CalendarData.SolarMonthNames[i] {
        assert ns[i] == SolarMonths[i].0;
      }
    }
    assert Days(SolarMonths) == CalendarData.SolarMonthDays by {
      var ds := Days(SolarMonths);
      forall i | 0 <= i < 12 ensures ds[i] == CalendarData.SolarMonthDays[i] {
        assert ds[i] == SolarMonths[i].1;
      }
    }
    CalendarData.SolarMonthDaysTotal();
  }

  /** The sticker script's Hijri table is the calendar's twelve 30-day months. */
  lemma IslamicTableMatchesCalendar()
    ensures Names(IslamicMonths) == CalendarData.IslamicMonthNames
    ensures forall i :: 0 <= i < |IslamicMonths| ==> IslamicMonths[i].1 == 30
    ensures CalendarData.SumNat(Days(IslamicMonths)) == 360
  {
    CalendarData.SumNatConstant(Days(IslamicMonths), 30);
  }

  /** `compute_radii`: outer radius, inner radius and thickness of the ring at a scale factor. */
  function ComputeRadii(scaleFactor: real): (r: (real, real, real))
    ensures r.0 * (2.0 * 3.14 / 12.0) == 8.0 * scaleFactor * MmPerInch
    ensures r.1 == 0.92 * r.0
    ensures r.1 + r.2 == r.0
  {
    var widthMm := 8.0 * scaleFactor * MmPerInch;
    var outermostRadius := widthMm / (2.0 * 3.14 / 12.0);
    var innerRadius := outermostRadius * 9.2 / 10.0;
    (outermostRadius, innerRadius, outermostRadius - innerRadius)
  }

  /** The sticker script sizes the ring exactly as the page layout does. */
  lemma RadiiMatchPageLayout(scaleFactor: real)
    ensures ComputeRadii(scaleFactor).0 == Config.CalculateLayoutParams(scaleFactor).outermostRadius
    ensures ComputeRadii(scaleFactor).1 == Config.CalculateLayoutParams(scaleFactor).innerRadius
    ensures ComputeRadii(scaleFactor).2 == Config.CalculateLayoutParams(scaleFactor).monthThickness
  {
  }

  /** `scale_for_diameter`: the scale factor at which the outer circle is the wanted diameter, in inches. */
  function ScaleForDiameter(targetDiameterInches: real): (s: real)
    ensures 2.0 * ComputeRadii(s).0 == targetDiameterInches * MmPerInch
  {
    var targetRadiusMm := targetDiameterInches / 2.0 * MmPerInch;
    targetRadiusMm * (2.0 * 3.14 / 12.0) / (8.0 * MmPerInch)
  }

  /** Reading the diameter off a scale factor and solving for the scale gives the scale factor back. */
  lemma ScaleForDiameterInverts(scaleFactor: real)
    ensures ScaleForDiameter(2.0 * ComputeRadii(scaleFactor).0 / MmPerInch) == scaleFactor
  {
  }

  /** `fits_cricut_ptc`: the sticker lies within the printable area. */
  predicate FitsCricutPtc(widthInches: real, heightInches: real) {
    widthInches <= CricutPtcWidth && heightInches <= CricutPtcHeight
  }

  /** The printable area is closed downwards, includes its corner and nothing wider or taller. */
  lemma FitsCricutPtcIsTheArea(w: real, h: real, w2: real, h2: real)
    ensures FitsCricutPtc(CricutPtcWidth, CricutPtcHeight)
    ensures FitsCricutPtc(w, h) && w2 <= w && h2 <= h ==> FitsCricutPtc(w2, h2)
    ensures CricutPtcWidth < w ==> !FitsCricutPtc(w, h)
    ensures CricutPtcHeight < h ==> !FitsCricutPtc(w, h)
  {
  }

  // ---------------------------------------------------------------------------------------------
  // Sheets as a flat sequence with sheet-opening flags

  function Flatten<T>(ss: seq<seq<T>>): seq<T> {
    if |ss| == 0 then [] else ss[0] + Flatten(ss[1..])
  }

  /** One flag per element of a sheet of `n`: only the first opens the sheet. */
  function OpeningFlags(n: nat): (fs: seq<bool>)
    ensures |fs| == n
    ensures forall j :: 0 <= j < n ==> (fs[j] <==> j == 0)
  {
    seq(n, j => j == 0)
  }

  /** For each element of the flattened sheets, whether it is the first of its sheet. */
  function SheetOpenings<T>(ss: seq<seq<T>>): (fs: seq<bool>)
    ensures |fs| == |Flatten(ss)|
  {
    if |ss| == 0 then [] else OpeningFlags(|ss[0]|) + SheetOpenings(ss[1..])
  }

  /** Closing one more sheet appends its elements and its flags. */
  lemma {:induction false} FlattenSnoc<T>(ss: seq<seq<T>>, s: seq<T>)
    ensures Flatten(ss + [s]) == Flatten(ss) + s
    ensures SheetOpenings(ss + [s]) == SheetOpenings(ss) + OpeningFlags(|s|)
  {
    if |ss| == 0 {
      assert ss + [s] == [s];
      assert [s][1..] == [];
    } else {
      assert (ss + [s])[1..] == ss[1..] + [s];
      FlattenSnoc(ss[1..], s);
    }
  }

  /** Growing the open sheet by one element adds a flag that is set only for its first element. */
  lemma OpeningFlagsSnoc(n: nat)
    ensures OpeningFlags(n + 1) == OpeningFlags(n) + [n == 0]
  {
  }

  /** Closing the current sheet leaves the flattened elements and their flags as they were. */
  lemma CloseSheet<T>(ss: seq<seq<T>>, current: seq<T>, flat: seq<T>, opens: seq<bool>)
    requires flat == Flatten(ss) + current && opens == SheetOpenings(ss) + OpeningFlags(|current|)
    ensures flat == Flatten(ss + [current]) + [] && opens == SheetOpenings(ss + [current]) + OpeningFlags(0)
  {
    FlattenSnoc(ss, current);
  }

  /** Adding an element to the current sheet appends it, flagged when it is the sheet's first. */
  lemma AddToSheet<T>(ss: seq<seq<T>>, current: seq<T>, flat: seq<T>, opens: seq<bool>, p: T)
    requires flat == Flatten(ss) + current && opens == SheetOpenings(ss) + OpeningFlags(|current|)
    ensures flat + [p] == Flatten(ss) + (current + [p])
    ensures opens + [|current| == 0] == SheetOpenings(ss) + OpeningFlags(|current + [p]|)
  {
    OpeningFlagsSnoc(|current|);
  }

  /** Every flattened element of non-empty sheets has a flag, and the first one opens a sheet. */
  lemma FirstElementOpens<T>(ss: seq<seq<T>>)
    requires forall k :: 0 <= k < |ss| ==> |ss[k]| > 0
    ensures |ss| == 0 <==> |Flatten(ss)| == 0
    ensures 0 < |ss| ==> SheetOpenings(ss)[0]
  {
    if 0 < |ss| {
      assert |ss[0]| > 0;
    }
  }

  // ---------------------------------------------------------------------------------------------
  // Plain stacking

  datatype Arc = Arc(name: string, width: real, height: real)

  /** A placed sticker: name, offset from the top of its sheet, and size, all in inches. */
  datatype Placement = Placement(name: string, y: real, width: real, height: real)

  /** Where the next sticker would go after placement `i - 1`. */
  function NextY(flat: seq<Placement>, i: nat, margin: real): real
    requires 0 < i <= |flat|
  {
    flat[i - 1].y + flat[i - 1].height + margin
  }

  /**
    Placement `i` of the plain stacking: the arc's own name and size; a sheet is opensSheet for the first
    arc and for exactly those later arcs that would overrun the sheet below their predecessor; an
    opensSheet sheet starts at the top and otherwise the arc sits one margin below its predecessor.
   */
  predicate StackedAt(flat: seq<Placement>, opens: seq<bool>, arcs: seq<Arc>, i: nat, availableHeight: real, margin: real)
    requires i < |flat| && i < |opens| && i < |arcs|
  {
    && flat[i].name == arcs[i].name && flat[i].width == arcs[i].width && flat[i].height == arcs[i].height
    && (opens[i] ==> flat[i].y == 0.0)
    && (i == 0 ==> opens[i])
    && (0 < i ==>
          && (opens[i] <==> NextY(flat, i, margin) + arcs[i].height > availableHeight)
          && (!opens[i] ==> flat[i].y == NextY(flat, i, margin)))
  }

  /** The first `n` arcs are stacked. */
  predicate Stacked(flat: seq<Placement>, opens: seq<bool>, arcs: seq<Arc>, n: nat, availableHeight: real, margin: real) {
    && |flat| == n && |opens| == n && n <= |arcs|
    && forall i :: 0 <= i < n ==> StackedAt(flat, opens, arcs, i, availableHeight, margin)
  }

  lemma StackedSnoc(flat: seq<Placement>, opens: seq<bool>, arcs: seq<Arc>, n: nat, p: Placement, o: bool, availableHeight: real, margin: real)
    requires Stacked(flat, opens, arcs, n, availableHeight, margin)
    requires n < |arcs|
    requires StackedAt(flat + [p], opens + [o], arcs, n, availableHeight, margin)
    ensures Stacked(flat + [p], opens + [o], arcs, n + 1, availableHeight, margin)
  {
    forall i | 0 <= i < n
      ensures StackedAt(flat + [p], opens + [o], arcs, i, availableHeight, margin)
    {
      assert (flat + [p])[i] == flat[i] && (opens + [o])[i] == opens[i];
      if 0 < i {
        assert (flat + [p])[i - 1] == flat[i - 1];
        assert StackedAt(flat, opens, arcs, i, availableHeight, margin);
      }
    }
  }

  /**
    `layout_arcs_simple`: stack the arcs top to bottom, opening a new sheet whenever the next arc
    would overrun the available height of a sheet that already holds something.
   */
  method LayoutArcsSimple(arcs: seq<Arc>, availableHeight: real, margin: real) returns (sheets: seq<seq<Placement>>)
    ensures Stacked(Flatten(sheets), SheetOpenings(sheets), arcs, |arcs|, availableHeight, margin)
    ensures forall k :: 0 <= k < |sheets| ==> |sheets[k]| > 0
    ensures |sheets| == 0 <==> |arcs| == 0
  {
    sheets := [];
    var current: seq<Placement> := [];
    var y: real := 0.0;
    var i := 0;
    ghost var flat: seq<Placement> := [];
    ghost var opens: seq<bool> := [];
    while i < |arcs|
      invariant 0 <= i <= |arcs|
      invariant forall k :: 0 <= k < |sheets| ==> |sheets[k]| > 0
      invariant (i == 0) == (|current| == 0) && (i == 0 ==> sheets == [])
      invariant flat == Flatten(sheets) + current && opens == SheetOpenings(sheets) + OpeningFlags(|current|)
      invariant Stacked(flat, opens, arcs, i, availableHeight, margin)
      invariant i == 0 ==> y == 0.0
      invariant 0 < i ==> y == NextY(flat, i, margin)
    {
      var a := arcs[i];
      ghost var y0 := y;
      ghost var opensSheet := i == 0 || (y + a.height > availableHeight && |current| > 0);
      if y + a.height > availableHeight && |current| > 0 {
        CloseSheet(sheets, current, flat, opens);
        sheets := sheets + [current];
        current := [];
        y := 0.0;
      }
      var p := Placement(a.name, y, a.width, a.height);
      StackedStep(flat, opens, arcs, i, y0, p, opensSheet, availableHeight, margin);
      AddToSheet(sheets, current, flat, opens, p);
      current := current + [p];
      flat, opens := flat + [p], opens + [opensSheet];
      y := y + a.height + margin;
      i := i + 1;
    }
    if |current| > 0 {
      FlattenSnoc(sheets, current);
      sheets := sheets + [current];
    }
    FirstElementOpens(sheets);
  }

  /**
    One step of the plain stacking: the arc opens a sheet when it is the first or would overrun, and
    then lies at the top; otherwise it lies one margin below its predecessor.
   */
  lemma StackedStep(flat: seq<Placement>, opens: seq<bool>, arcs: seq<Arc>, i: nat,
    y: real, p: Placement, opensSheet: bool, availableHeight: real, margin: real)
    requires Stacked(flat, opens, arcs, i, availableHeight, margin) && i < |arcs|
    requires i == 0 ==> y == 0.0 && opensSheet
    requires 0 < i ==> y == NextY(flat, i, margin) && (opensSheet <==> y + arcs[i].height > availableHeight)
    requires p == Placement(arcs[i].name, if opensSheet then 0.0 else y, arcs[i].width, arcs[i].height)
    ensures Stacked(flat + [p], opens + [opensSheet], arcs, i + 1, availableHeight, margin)
    ensures NextY(flat + [p], i + 1, margin) == p.y + arcs[i].height + margin
  {
    assert (flat + [p])[i] == p;
    if 0 < i {
      assert (flat + [p])[i - 1] == flat[i - 1];
    }
    assert StackedAt(flat + [p], opens + [opensSheet], arcs, i, availableHeight, margin);
    StackedSnoc(flat, opens, arcs, i, p, opensSheet, availableHeight, margin);
  }

  /** The stacking rule leaves no choice: two stackings of the same arcs are the same. */
  lemma {:induction false} StackingIsDetermined(
    flat1: seq<Placement>, opens1: seq<bool>, flat2: seq<Placement>, opens2: seq<bool>,
    arcs: seq<Arc>, n: nat, availableHeight: real, margin: real)
    requires Stacked(flat1, opens1, arcs, n, availableHeight, margin)
    requires Stacked(flat2, opens2, arcs, n, availableHeight, margin)
    ensures flat1 == flat2 && opens1 == opens2
  {
    if n > 0 {
      var m := n - 1;
      assert Stacked(flat1[..m], opens1[..m], arcs, m, availableHeight, margin) by {
        forall i | 0 <= i < m ensures StackedAt(flat1[..m], opens1[..m], arcs, i, availableHeight, margin) {
          assert StackedAt(flat1, opens1, arcs, i, availableHeight, margin);
        }
      }
      assert Stacked(flat2[..m], opens2[..m], arcs, m, availableHeight, margin) by {
        forall i | 0 <= i < m ensures StackedAt(flat2[..m], opens2[..m], arcs, i, availableHeight, margin) {
          assert StackedAt(flat2, opens2, arcs, i, availableHeight, margin);
        }
      }
      StackingIsDetermined(flat1[..m], opens1[..m], flat2[..m], opens2[..m], arcs, m, availableHeight, margin);
      assert StackedAt(flat1, opens1, arcs, m, availableHeight, margin);
      assert StackedAt(flat2, opens2, arcs, m, availableHeight, margin);
      if 0 < m {
        assert flat1[m - 1] == flat1[..m][m - 1] == flat2[..m][m - 1] == flat2[m - 1];
      }
      assert flat1 == flat1[..m] + [flat1[m]];
      assert opens1 == opens1[..m] + [opens1[m]];
      assert flat2 == flat2[..m] + [flat2[m]];
      assert opens2 == opens2[..m] + [opens2[m]];
    }
  }

  /** Every arc after the first of its sheet ends within the available height. */
  lemma StackedArcsFit(flat: seq<Placement>, opens: seq<bool>, arcs: seq<Arc>, n: nat, availableHeight: real, margin: real, i: nat)
    requires Stacked(flat, opens, arcs, n, availableHeight, margin)
    requires i < n && !opens[i]
    ensures flat[i].y + flat[i].height <= availableHeight
  {
    assert StackedAt(flat, opens, arcs, i, availableHeight, margin);
  }

  // ---------------------------------------------------------------------------------------------
  // Nested stacking

  datatype NestedArc = NestedArc(name: string, width: real, height: real, sagitta: real)

  datatype Orientation = Normal | Flipped

  function Flip(o: Orientation): Orientation {
    if o == Normal then Flipped else Normal
  }

  datatype NestedPlacement = NestedPlacement(name: string, y: real, width: real, height: real, orientation: Orientation)

  /** A flipped arc sinks into the one above it by seven tenths of its sagitta. */
  function Savings(a: NestedArc, o: Orientation): real {
    if o == Flipped then a.sagitta * 0.7 else 0.0
  }

  /** The height an arc takes up in the stack in the given orientation. */
  function EffectiveHeight(a: NestedArc, o: Orientation): (h: real)
    ensures h + Savings(a, o) == a.height
  {
    a.height - Savings(a, o)
  }

  /** Where the next arc would go after placement `i - 1`. */
  function NestedNextY(flat: seq<NestedPlacement>, arcs: seq<NestedArc>, i: nat, margin: real): real
    requires 0 < i <= |flat| && i <= |arcs|
  {
    flat[i - 1].y + EffectiveHeight(arcs[i - 1], flat[i - 1].orientation) + margin
  }

  /**
    Placement `i` of the nested stacking: the arc's own name and size; a sheet is opensSheet for the first
    arc and for exactly those later arcs that, turned the other way from their predecessor, would
    overrun the sheet; an opensSheet sheet starts at the top with a normal arc, and otherwise the arc is
    turned the other way from its predecessor and sits one margin below the predecessor's effective height.
   */
  predicate NestedAt(flat: seq<NestedPlacement>, opens: seq<bool>, arcs: seq<NestedArc>, i: nat, availableHeight: real, margin: real)
    requires i < |flat| && i < |opens| && i < |arcs|
  {
    && flat[i].name == arcs[i].name && flat[i].width == arcs[i].width && flat[i].height == arcs[i].height
    && (opens[i] ==> flat[i].y == 0.0 && flat[i].orientation == Normal)
    && (i == 0 ==> opens[i])
    && (0 < i ==>
          && (opens[i] <==>
                NestedNextY(flat, arcs, i, margin) + EffectiveHeight(arcs[i], Flip(flat[i - 1].orientation)) > availableHeight)
          && (!opens[i] ==>
                flat[i].y == NestedNextY(flat, arcs, i, margin) && flat[i].orientation == Flip(flat[i - 1].orientation)))
  }

  predicate Nested(flat: seq<NestedPlacement>, opens: seq<bool>, arcs: seq<NestedArc>, n: nat, availableHeight: real, margin: real) {
    && |flat| == n && |opens| == n && n <= |arcs|
    && forall i :: 0 <= i < n ==> NestedAt(flat, opens, arcs, i, availableHeight, margin)
  }

  lemma NestedSnoc(flat: seq<NestedPlacement>, opens: seq<bool>, arcs: seq<NestedArc>, n: nat, p: NestedPlacement, o: bool, availableHeight: real, margin: real)
    requires Nested(flat, opens, arcs, n, availableHeight, margin)
    requires n < |arcs|
    requires NestedAt(flat + [p], opens + [o], arcs, n, availableHeight, margin)
    ensures Nested(flat + [p], opens + [o], arcs, n + 1, availableHeight, margin)
  {
    forall i | 0 <= i < n
      ensures NestedAt(flat + [p], opens + [o], arcs, i, availableHeight, margin)
    {
      assert (flat + [p])[i] == flat[i] && (opens + [o])[i] == opens[i];
      if 0 < i {
        assert (flat + [p])[i - 1] == flat[i - 1];
        assert NestedAt(flat, opens, arcs, i, availableHeight, margin);
      }
    }
  }

  /**
    `layout_arcs_nested`: stack the arcs as in the plain layout, but turn every second arc of a sheet
    upside down so that it takes up its height less seven tenths of its sagitta.
   */
  method LayoutArcsNested(arcs: seq<NestedArc>, availableHeight: real, margin: real) returns (sheets: seq<seq<NestedPlacement>>)
    ensures Nested(Flatten(sheets), SheetOpenings(sheets), arcs, |arcs|, availableHeight, margin)
    ensures forall k :: 0 <= k < |sheets| ==> |sheets[k]| > 0
    ensures |sheets| == 0 <==> |arcs| == 0
  {
    sheets := [];
    var current: seq<NestedPlacement> := [];
    var y: real := 0.0;
    var flip := false;
    var i := 0;
    ghost var flat: seq<NestedPlacement> := [];
    ghost var opens: seq<bool> := [];
    while i < |arcs|
      invariant 0 <= i <= |arcs|
      invariant forall k :: 0 <= k < |sheets| ==> |sheets[k]| > 0
      invariant (i == 0) == (|current| == 0) && (i == 0 ==> sheets == [])
      invariant flat == Flatten(sheets) + current && opens == SheetOpenings(sheets) + OpeningFlags(|current|)
      invariant Nested(flat, opens, arcs, i, availableHeight, margin)
      invariant i == 0 ==> y == 0.0 && !flip
      invariant 0 < i ==> y == NestedNextY(flat, arcs, i, margin)
      invariant 0 < i ==> (flip <==> flat[i - 1].orientation == Normal)
    {
      var a := arcs[i];
      ghost var y0, flip0 := y, flip;
      var savings := if flip && |current| > 0 then a.sagitta * 0.7 else 0.0;
      var effectiveHeight := a.height - savings;
      ghost var opensSheet := i == 0 || (y + effectiveHeight > availableHeight && |current| > 0);
      if y + effectiveHeight > availableHeight && |current| > 0 {
        CloseSheet(sheets, current, flat, opens);
        sheets := sheets + [current];
        current := [];
        y := 0.0;
        flip := false;
        savings := 0.0;
        effectiveHeight := a.height;
      }
      var p := NestedPlacement(a.name, y, a.width, a.height, if flip then Flipped else Normal);
      NestedStep(flat, opens, arcs, i, y0, flip0, p, opensSheet, availableHeight, margin);
      AddToSheet(sheets, current, flat, opens, p);
      current := current + [p];
      flat, opens := flat + [p], opens + [opensSheet];
      y := y + effectiveHeight + margin;
      flip := !flip;
      i := i + 1;
    }
    if |current| > 0 {
      FlattenSnoc(sheets, current);
      sheets := sheets + [current];
    }
    FirstElementOpens(sheets);
  }

  /**
    One step of the nested stacking: the arc opens a sheet when it is the first or, turned the other
    way from its predecessor, would overrun; it then lies normal at the top, and otherwise turned
    below its predecessor.
   */
  lemma NestedStep(flat: seq<NestedPlacement>, opens: seq<bool>, arcs: seq<NestedArc>, i: nat,
    y: real, flip: bool, p: NestedPlacement, opensSheet: bool, availableHeight: real, margin: real)
    requires Nested(flat, opens, arcs, i, availableHeight, margin) && i < |arcs|
    requires i == 0 ==> y == 0.0 && !flip && opensSheet
    requires 0 < i ==> y == NestedNextY(flat, arcs, i, margin) && (flip <==> flat[i - 1].orientation == Normal)
    requires 0 < i ==> (opensSheet <==> y + arcs[i].height - (if flip then arcs[i].sagitta * 0.7 else 0.0) > availableHeight)
    requires p == NestedPlacement(arcs[i].name, if opensSheet then 0.0 else y, arcs[i].width, arcs[i].height,
      if !opensSheet && flip then Flipped else Normal)
    ensures Nested(flat + [p], opens + [opensSheet], arcs, i + 1, availableHeight, margin)
    ensures NestedNextY(flat + [p], arcs, i + 1, margin) == p.y + EffectiveHeight(arcs[i], p.orientation) + margin
    ensures (!opensSheet && flip) <==> p.orientation == Flipped
  {
    assert (flat + [p])[i] == p;
    if 0 < i {
      assert (flat + [p])[i - 1] == flat[i - 1];
      assert EffectiveHeight(arcs[i], Flip(flat[i - 1].orientation))
        == arcs[i].height - (if flip then arcs[i].sagitta * 0.7 else 0.0);
    }
    assert NestedAt(flat + [p], opens + [opensSheet], arcs, i, availableHeight, margin);
    NestedSnoc(flat, opens, arcs, i, p, opensSheet, availableHeight, margin);
  }

  /** Within a sheet the arcs alternate: counting from the sheet's first arc, the odd ones are flipped. */
  lemma {:induction false} NestedOrientationAlternates(
    flat: seq<NestedPlacement>, opens: seq<bool>, arcs: seq<NestedArc>, n: nat, availableHeight: real, margin: real,
    start: nat, j: nat)
    requires Nested(flat, opens, arcs, n, availableHeight, margin)
    requires start + j < n && opens[start]
    requires forall t :: start < t <= start + j ==> !opens[t]
    ensures flat[start + j].orientation == (if j % 2 == 0 then Normal else Flipped)
  {
    assert NestedAt(flat, opens, arcs, start + j, availableHeight, margin);
    if j > 0 {
      NestedOrientationAlternates(flat, opens, arcs, n, availableHeight, margin, start, j - 1);
    }
  }

  /** Only flipped arcs save height: a normal arc takes up its full height. */
  lemma SavingsOnlyWhenFlipped(flat: seq<NestedPlacement>, opens: seq<bool>, arcs: seq<NestedArc>, n: nat, availableHeight: real, margin: real, i: nat)
    requires Nested(flat, opens, arcs, n, availableHeight, margin)
    requires i < n
    ensures flat[i].orientation == Normal ==> EffectiveHeight(arcs[i], flat[i].orientation) == arcs[i].height
    ensures opens[i] ==> EffectiveHeight(arcs[i], flat[i].orientation) == arcs[i].height
  {
    assert NestedAt(flat, opens, arcs, i, availableHeight, margin);
  }

  function Unoriented(p: NestedPlacement): Placement {
    Placement(p.name, p.y, p.width, p.height)
  }

  function Unnested(a: NestedArc): Arc {
    Arc(a.name, a.width, a.height)
  }

  /** With no sagitta to nest into, the nested layout is the plain layout with orientations added. */
  lemma NestedWithoutSagittaIsPlain(flat: seq<NestedPlacement>, opens: seq<bool>, arcs: seq<NestedArc>, n: nat, availableHeight: real, margin: real)
    requires Nested(flat, opens, arcs, n, availableHeight, margin)
    requires forall i :: 0 <= i < |arcs| ==> arcs[i].sagitta == 0.0
    ensures Stacked(seq(n, i requires 0 <= i < n => Unoriented(flat[i])), opens,
                    seq(|arcs|, i requires 0 <= i < |arcs| => Unnested(arcs[i])), n, availableHeight, margin)
  {
    var plain := seq(n, i requires 0 <= i < n => Unoriented(flat[i]));
    var plainArcs := seq(|arcs|, i requires 0 <= i < |arcs| => Unnested(arcs[i]));
    forall i | 0 <= i < n ensures StackedAt(plain, opens, plainArcs, i, availableHeight, margin) {
      assert NestedAt(flat, opens, arcs, i, availableHeight, margin);
      assert plain[i] == Unoriented(flat[i]) && plainArcs[i] == Unnested(arcs[i]);
      if 0 < i {
        assert plain[i - 1] == Unoriented(flat[i - 1]) && plainArcs[i - 1] == Unnested(arcs[i - 1]);
        assert NestedAt(flat, opens, arcs, i - 1, availableHeight, margin);
        assert Savings(arcs[i - 1], flat[i - 1].orientation) == 0.0;
        assert NextY(plain, i, margin) == NestedNextY(flat, arcs, i, margin);
        assert EffectiveHeight(arcs[i - 1], flat[i - 1].orientation) == arcs[i - 1].height;
        assert EffectiveHeight(arcs[i], Flip(flat[i - 1].orientation)) == arcs[i].height;
      }
    }
  }
}
