/**
  Reading an SVG width or height attribute as PostScript points, 72 to the inch
  (`parseSizeToPoints` in node/src/renderers/resvg-renderer.ts). The first run of digits and dots in
  the attribute is read as a decimal number, and the unit is recognised by searching the whole
  attribute for "mm", then "in", then "pt", then "px"; a number without a unit is taken as points.
  A missing or empty attribute, or one without any digit or dot, stands for the width of a US Letter
  page, 612 points.

  JavaScript's `parseFloat` is modelled on the strings it is given here, runs of digits and dots: it
  reads the longest prefix of the form digits, optionally followed by a dot and more digits, and gives
  NaN when that prefix holds no digit (".", "..5").
 */
module SizeParser {
  import opened Wrappers
  import opened Text

  /** A JavaScript number as far as this parser can produce one: a finite value or NaN. */
  datatype JsNumber = Finite(value: real) | NaN

  const LetterWidthPoints: real := 612.0

  /** A character of the regular expression class `[\d.]`. */
  predicate IsNumberChar(c: char) {
    IsDigit(c) || c == '.'
  }

  /** The longest prefix of `s` made of digits and dots. */
  function LeadingRun(s: string): (r: string)
    ensures |r| <= |s| && r == s[..|r|]
    ensures forall i :: 0 <= i < |r| ==> IsNumberChar(r[i])
    ensures |r| < |s| ==> !IsNumberChar(s[|r|])
  {
    if |s| == 0 || !IsNumberChar(s[0]) then [] else [s[0]] + LeadingRun(s[1..])
  }

  /** The position of the first character of the class `[\d.]`, or the length when there is none. */
  function FirstMatchAt(s: string): (k: nat)
    ensures k <= |s|
    ensures forall i :: 0 <= i < k ==> !IsNumberChar(s[i])
    ensures k < |s| ==> IsNumberChar(s[k])
  {
    if |s| == 0 then 0 else if IsNumberChar(s[0]) then 0 else 1 + FirstMatchAt(s[1..])
  }

  /** `s.match(/[\d.]+/)`: the leftmost longest run of digits and dots, if any. */
  function FirstMatch(s: string): (m: Option<string>)
    ensures m.None? <==> forall i :: 0 <= i < |s| ==> !IsNumberChar(s[i])
    ensures m.Some? ==> 0 < |m.value| && forall i :: 0 <= i < |m.value| ==> IsNumberChar(m.value[i])
  {
    var k := FirstMatchAt(s);
    if k == |s| then None else Some(LeadingRun(s[k..]))
  }

  /** The value of a string of decimal digits written after a dot: "25" is 0.25. */
  function FractionValue(f: string): (v: real)
    requires AllDigits(f)
    ensures 0.0 <= v < 1.0
  {
    if |f| == 0 then 0.0 else (DigitValue(f[0]) as real + FractionValue(f[1..])) / 10.0
  }

  /** The digits before the dot, as `parseFloat` reads them. */
  function WholePart(run: string): string {
    LeadingDigits(run)
  }

  /** The digits after the dot that follows the whole part, if there is such a dot. */
  function FractionPart(run: string): (f: string)
    ensures AllDigits(f)
  {
    var rest := run[|WholePart(run)|..];
    if 0 < |rest| && rest[0] == '.' then LeadingDigits(rest[1..]) else ""
  }

  /** `parseFloat` applied to a run of digits and dots. */
  function ParseDecimalRun(run: string): (n: JsNumber)
    requires forall i :: 0 <= i < |run| ==> IsNumberChar(run[i])
    ensures n.NaN? <==> |run| == 0 || (run[0] == '.' && (|run| == 1 || run[1] == '.'))
    ensures n.Finite? ==> 0.0 <= n.value
  {
    NoDigitsRead(run);
    if |WholePart(run)| == 0 && |FractionPart(run)| == 0 then NaN
    else Finite(DigitsValue(WholePart(run)) as real + FractionValue(FractionPart(run)))
  }

  /** Without a leading digit, a run reads as a number exactly when a digit follows its first dot. */
  lemma NoDigitsRead(run: string)
    requires forall i :: 0 <= i < |run| ==> IsNumberChar(run[i])
    ensures |WholePart(run)| == 0 ==>
      (|FractionPart(run)| == 0 <==> |run| == 0 || (run[0] == '.' && (|run| == 1 || run[1] == '.')))
    ensures 0 < |WholePart(run)| ==> 0 < |run| && run[0] != '.'
  {
    if 0 < |run| && |WholePart(run)| == 0 {
      assert !IsDigit(run[0]) && IsNumberChar(run[0]);
      assert run[0..] == run;
      if 1 < |run| {
        assert run[1..][0] == run[1];
        assert IsNumberChar(run[1]);
      }
    }
  }

  /** Multiplication by a unit's size in points; NaN stays NaN. */
  function Times(n: JsNumber, factor: real): (r: JsNumber)
    ensures r.NaN? <==> n.NaN?
  {
    match n
    case NaN => NaN
    case Finite(v) => Finite(v * factor)
  }

  /** Points per unit, for the units the parser recognises; a bare number is in points. */
  function PointsPerUnit(unit: string): real {
    if unit == "mm" then 72.0 / 25.4
    else if unit == "in" then 72.0
    else if unit == "px" then 72.0 / 96.0
    else 1.0
  }

  /** `parseSizeToPoints`. A `None` argument is JavaScript's `null` or `undefined`. */
  function ParseSizeToPoints(sizeStr: Option<string>): (r: JsNumber)
    ensures sizeStr == None || sizeStr == Some("") ==> r == Finite(LetterWidthPoints)
    ensures sizeStr.Some? && (forall i :: 0 <= i < |sizeStr.value| ==> !IsNumberChar(sizeStr.value[i])) ==>
      r == Finite(LetterWidthPoints)
    ensures r.NaN? <==>
      sizeStr.Some? && FirstMatch(sizeStr.value).Some? && ParseDecimalRun(FirstMatch(sizeStr.value).value).NaN?
    ensures r.Finite? ==> 0.0 <= r.value
  {
    if sizeStr.None? || |sizeStr.value| == 0 then Finite(LetterWidthPoints)
    else
      var s := sizeStr.value;
      match FirstMatch(s)
      case None => Finite(LetterWidthPoints)
      case Some(run) =>
        var num := ParseDecimalRun(run);
        if Contains(s, "mm") then Times(num, 72.0 / 25.4)
        else if Contains(s, "in") then Times(num, 72.0)
        else if Contains(s, "pt") then num
        else if Contains(s, "px") then Times(num, 72.0 / 96.0)
        else num
  }

  // ---------------------------------------------------------------------------------------------
  // Reading numbers

  /** A run of digits and dots followed by another character is matched up to that point. */
  lemma {:induction false} LeadingRunOfConcat(x: string, u: string)
    requires forall i :: 0 <= i < |x| ==> IsNumberChar(x[i])
    requires |u| == 0 || !IsNumberChar(u[0])
    ensures LeadingRun(x + u) == x
  {
    if |x| == 0 {
      assert x + u == u;
    } else {
      assert (x + u)[1..] == x[1..] + u;
      LeadingRunOfConcat(x[1..], u);
    }
  }

  /** A whole number is read as its digits' value. */
  lemma ParseWholeNumber(a: string)
    requires 0 < |a| && AllDigits(a)
    ensures ParseDecimalRun(a) == Finite(DigitsValue(a) as real)
  {
    assert WholePart(a) == a by {
      assert a + "" == a;
      LeadingDigitsOfConcat(a, "");
    }
    assert FractionPart(a) == "" by {
      assert a[|a|..] == [];
    }
    assert FractionValue("") == 0.0;
  }

  /** A decimal number with a dot is read as its whole part plus its fraction; text after a second dot is ignored. */
  lemma ParseDecimalNumber(a: string, f: string, rest: string)
    requires AllDigits(a) && AllDigits(f) && 0 < |a| + |f|
    requires forall i :: 0 <= i < |rest| ==> IsNumberChar(rest[i])
    requires |rest| == 0 || rest[0] == '.'
    ensures ParseDecimalRun(a + "." + f + rest) == Finite(DigitsValue(a) as real + FractionValue(f))
  {
    var run := a + "." + f + rest;
    forall i | 0 <= i < |run| ensures IsNumberChar(run[i]) {
      if i < |a| {
        assert run[i] == a[i];
      } else if |a| < i < |a| + 1 + |f| {
        assert run[i] == f[i - |a| - 1];
      } else if |a| + 1 + |f| <= i {
        assert run[i] == rest[i - |a| - 1 - |f|];
      }
    }
    DecimalParts(a, f, rest);
    ReadParts(run, a, f);
  }

  /** A run whose whole and fraction parts are known, not both empty, reads as their value. */
  lemma ReadParts(run: string, a: string, f: string)
    requires forall i :: 0 <= i < |run| ==> IsNumberChar(run[i])
    requires WholePart(run) == a && FractionPart(run) == f && 0 < |a| + |f|
    ensures AllDigits(a) && ParseDecimalRun(run) == Finite(DigitsValue(a) as real + FractionValue(f))
  {
  }

  lemma DecimalParts(a: string, f: string, rest: string)
    requires AllDigits(a) && AllDigits(f)
    requires |rest| == 0 || rest[0] == '.'
    ensures WholePart(a + "." + f + rest) == a && FractionPart(a + "." + f + rest) == f
  {
    var run := a + "." + f + rest;
    var tail := ['.'] + (f + rest);
    assert run == a + tail;
    LeadingDigitsOfConcat(a, tail);
    assert run[|a|..] == tail;
    assert tail[1..] == f + rest;
    LeadingDigitsOfConcat(f, rest);
  }

  /** Reading the decimal rendering of a natural number gives the number back. */
  lemma ParseNatRoundTrip(n: nat)
    ensures ParseDecimalRun(NatToString(n)) == Finite(n as real)
  {
    ParseWholeNumber(NatToString(n));
    NatToStringRoundTrip(n);
  }

  // ---------------------------------------------------------------------------------------------
  // Units

  lemma {:induction false} ContainsAtEnd(s: string, t: string)
    ensures Contains(s + t, t)
    decreases |s|
  {
    if |s| == 0 {
      assert s + t == t && t[..|t|] == t;
    } else {
      assert (s + t)[1..] == s[1..] + t;
      ContainsAtEnd(s[1..], t);
    }
  }

  /** A pattern longer than the string does not occur in it. */
  lemma {:induction false} ShortNotContains(s: string, t: string)
    requires |s| < |t|
    ensures !Contains(s, t)
    decreases |s|
  {
    if 0 < |s| {
      ShortNotContains(s[1..], t);
    }
  }

  /**
    A pattern does not occur in a string of other characters followed by a different suffix no
    longer than the pattern: "96px" does not contain "pt".
   */
  lemma {:induction false} NotContainsOtherUnit(x: string, u: string, t: string)
    requires 0 < |t|
    requires forall i :: 0 <= i < |x| ==> x[i] != t[0]
    requires |u| <= |t| && u != t
    ensures !Contains(x + u, t)
    decreases |x|
  {
    if |x| == 0 {
      assert x + u == u;
      if 0 < |u| {
        ShortNotContains(u[1..], t);
      }
    } else {
      assert (x + u)[1..] == x[1..] + u;
      assert (x + u)[0] == x[0];
      NotContainsOtherUnit(x[1..], u, t);
    }
  }

  /** The factor the unit search settles on for the attribute `s`. */
  function FoundUnitFactor(s: string): real {
    if Contains(s, "mm") then 72.0 / 25.4
    else if Contains(s, "in") then 72.0
    else if Contains(s, "px") && !Contains(s, "pt") then 72.0 / 96.0
    else 1.0
  }

  /** An attribute whose first run is `x` is that run's number times the unit factor found in it. */
  lemma SizeOfRun(s: string, x: string)
    requires 0 < |s| && FirstMatch(s) == Some(x)
    ensures ParseSizeToPoints(Some(s)) == Times(ParseDecimalRun(x), FoundUnitFactor(s))
  {
    var num := ParseDecimalRun(x);
    assert Times(num, 1.0) == num;
  }

  /** A number followed by a unit is matched up to the unit. */
  lemma RunBeforeUnit(x: string, unit: string)
    requires 0 < |x| && forall i :: 0 <= i < |x| ==> IsNumberChar(x[i])
    requires unit in ["mm", "in", "pt", "px", ""]
    ensures FirstMatch(x + unit) == Some(x)
  {
    var s := x + unit;
    assert FirstMatchAt(s) == 0 by {
      assert IsNumberChar(s[0]);
    }
    assert s[0..] == s;
    LeadingRunOfConcat(x, unit);
  }

  /** The unit search finds the unit written after a run of digits and dots. */
  lemma UnitFound(x: string, unit: string)
    requires forall i :: 0 <= i < |x| ==> IsNumberChar(x[i])
    requires unit in ["mm", "in", "pt", "px", ""]
    ensures FoundUnitFactor(x + unit) == PointsPerUnit(unit)
  {
    if unit == "mm" {
      ContainsAtEnd(x, "mm");
    } else {
      NotContainsOtherUnit(x, unit, "mm");
      if unit == "in" {
        ContainsAtEnd(x, "in");
      } else {
        NotContainsOtherUnit(x, unit, "in");
        if unit == "pt" {
          ContainsAtEnd(x, "pt");
        } else {
          NotContainsOtherUnit(x, unit, "pt");
          if unit == "px" {
            ContainsAtEnd(x, "px");
          } else {
            NotContainsOtherUnit(x, unit, "px");
          }
        }
      }
    }
  }

  /**
    A number followed by one of the recognised units, or by nothing, is that number of the unit,
    expressed in points: 72 per inch, 72 per 25.4 millimetres, 72 per 96 pixels.
   */
  lemma SizeInUnit(x: string, unit: string)
    requires 0 < |x| && forall i :: 0 <= i < |x| ==> IsNumberChar(x[i])
    requires unit in ["mm", "in", "pt", "px", ""]
    ensures ParseSizeToPoints(Some(x + unit)) == Times(ParseDecimalRun(x), PointsPerUnit(unit))
  {
    RunBeforeUnit(x, unit);
    SizeOfRun(x + unit, x);
    UnitFound(x, unit);
  }

  /** An inch is 72 points and 25.4 millimetres; a CSS pixel is a 96th of an inch. */
  lemma UnitsAgree()
    ensures PointsPerUnit("in") == 25.4 * PointsPerUnit("mm")
    ensures PointsPerUnit("in") == 96.0 * PointsPerUnit("px")
    ensures PointsPerUnit("pt") == PointsPerUnit("")
  {
  }

  /** An inch is 72 points. */
  lemma InchSizes(s: string)
    requires s == "1in"
    ensures ParseSizeToPoints(Some(s)) == Finite(72.0)
  {
    var a, unit := "1", "in";
    assert s == a + unit;
    assert AllDigits(a) && DigitsValue(a) == 1 by { assert a[..0] == ""; }
    assert unit in ["mm", "in", "pt", "px", ""];
    assert PointsPerUnit(unit) == 72.0;
    WholeSize(s, a, unit, 1, 72.0);
  }

  /** A US Letter page given in inches is 612 points wide. */
  lemma LetterInchSizes(s: string)
    requires s == "8.5in"
    ensures ParseSizeToPoints(Some(s)) == Finite(612.0)
  {
    var a, f, unit := "8", "5", "in";
    assert s == a + "." + f + unit;
    assert AllDigits(a) && DigitsValue(a) == 8 by { assert a[..0] == ""; }
    assert AllDigits(f) && FractionValue(f) == 0.5 by { assert f[1..] == ""; }
    assert unit in ["mm", "in", "pt", "px", ""];
    assert PointsPerUnit(unit) == 72.0;
    DecimalSize(s, a, f, unit, 8, 0.5, 612.0);
  }

  /** Points are taken as they are. */
  lemma PointSizes(s: string)
    requires s == "72pt"
    ensures ParseSizeToPoints(Some(s)) == Finite(72.0)
  {
    var a, unit := "72", "pt";
    assert s == a + unit;
    assert AllDigits(a) && DigitsValue(a) == 72 by { assert a[..1] == "7" && a[..1][..0] == ""; }
    assert unit in ["mm", "in", "pt", "px", ""];
    assert PointsPerUnit(unit) == 1.0;
    WholeSize(s, a, unit, 72, 72.0);
  }

  /** A number without a unit is taken as points. */
  lemma BareNumberSizes(s: string)
    requires s == "100"
    ensures ParseSizeToPoints(Some(s)) == Finite(100.0)
  {
    var a, unit := "100", "";
    assert s == a + unit;
    assert AllDigits(a) && DigitsValue(a) == 100 by {
      assert DigitsValue(a[..1]) == 1 by { assert a[..1][..0] == ""; }
      assert a[..2][..1] == a[..1];
      assert DigitsValue(a[..2]) == 10;
    }
    assert unit in ["mm", "in", "pt", "px", ""];
    assert PointsPerUnit(unit) == 1.0;
    WholeSize(s, a, unit, 100, 100.0);
  }

  /** 96 CSS pixels make an inch. */
  lemma PixelSizes(s: string)
    requires s == "96px"
    ensures ParseSizeToPoints(Some(s)) == Finite(72.0)
  {
    var a, unit := "96", "px";
    assert s == a + unit;
    assert AllDigits(a) && DigitsValue(a) == 96 by { assert a[..1] == "9" && a[..1][..0] == ""; }
    assert unit in ["mm", "in", "pt", "px", ""];
    assert PointsPerUnit(unit) == 72.0 / 96.0;
    WholeSize(s, a, unit, 96, 72.0);
  }

  /** 25.4 mm is an inch. */
  lemma MillimetreSizes(s: string)
    requires s == "25.4mm"
    ensures ParseSizeToPoints(Some(s)) == Finite(72.0)
  {
    var a, f, unit := "25", "4", "mm";
    assert s == a + "." + f + unit;
    assert AllDigits(a) && DigitsValue(a) == 25 by { assert a[..1] == "2" && a[..1][..0] == ""; }
    assert AllDigits(f) && FractionValue(f) == 0.4 by { assert f[1..] == ""; }
    assert unit in ["mm", "in", "pt", "px", ""];
    assert PointsPerUnit(unit) == 72.0 / 25.4;
    DecimalSize(s, a, f, unit, 25, 0.4, 72.0);
  }

  /** The width of the Letter page the layout writes, 212.5 mm, is read at 25.4 mm to the inch. */
  lemma LayoutPageWidth(s: string)
    requires s == "212.5mm"
    ensures ParseSizeToPoints(Some(s)) == Finite(212.5 * 72.0 / 25.4)
  {
    var a, f, unit := "212", "5", "mm";
    assert s == a + "." + f + unit;
    assert AllDigits(a) && DigitsValue(a) == 212 by {
      assert DigitsValue(a[..1]) == 2 by { assert a[..1][..0] == ""; }
      assert a[..2][..1] == a[..1];
      assert DigitsValue(a[..2]) == 21;
    }
    assert AllDigits(f) && FractionValue(f) == 0.5 by { assert f[1..] == ""; }
    assert unit in ["mm", "in", "pt", "px", ""];
    assert PointsPerUnit(unit) == 72.0 / 25.4;
    DecimalSize(s, a, f, unit, 212, 0.5, 212.5 * 72.0 / 25.4);
  }

  /** The height of the Letter page the layout writes, 275 mm, is read at 25.4 mm to the inch. */
  lemma LayoutPageHeight(s: string)
    requires s == "275mm"
    ensures ParseSizeToPoints(Some(s)) == Finite(275.0 * 72.0 / 25.4)
  {
    var a, unit := "275", "mm";
    assert s == a + unit;
    assert AllDigits(a) && DigitsValue(a) == 275 by {
      assert DigitsValue(a[..1]) == 2 by { assert a[..1][..0] == ""; }
      assert a[..2][..1] == a[..1];
      assert DigitsValue(a[..2]) == 27;
    }
    assert unit in ["mm", "in", "pt", "px", ""];
    assert PointsPerUnit(unit) == 72.0 / 25.4;
    WholeSize(s, a, unit, 275, 275.0 * 72.0 / 25.4);
  }

  lemma WholeSize(s: string, a: string, unit: string, n: nat, points: real)
    requires s == a + unit
    requires 0 < |a| && AllDigits(a) && DigitsValue(a) == n
    requires unit in ["mm", "in", "pt", "px", ""]
    requires points == n as real * PointsPerUnit(unit)
    ensures ParseSizeToPoints(Some(s)) == Finite(points)
  {
    ParseWholeNumber(a);
    assert Times(Finite(n as real), PointsPerUnit(unit)) == Finite(points);
    RunSize(s, a, unit, n as real, points);
  }

  lemma DecimalSize(s: string, a: string, f: string, unit: string, n: nat, frac: real, points: real)
    requires s == a + "." + f + unit
    requires 0 < |a| && AllDigits(a) && DigitsValue(a) == n
    requires AllDigits(f) && FractionValue(f) == frac
    requires unit in ["mm", "in", "pt", "px", ""]
    requires points == (n as real + frac) * PointsPerUnit(unit)
    ensures ParseSizeToPoints(Some(s)) == Finite(points)
  {
    DecimalRun(a, f, n, frac);
    assert Times(Finite(n as real + frac), PointsPerUnit(unit)) == Finite(points);
    RunSize(s, a + "." + f, unit, n as real + frac, points);
  }

  /** Digits, a dot and digits make a run of digits and dots read as the whole part plus the fraction. */
  lemma DecimalRun(a: string, f: string, n: nat, frac: real)
    requires 0 < |a| && AllDigits(a) && DigitsValue(a) == n
    requires AllDigits(f) && FractionValue(f) == frac
    ensures 0 < |a + "." + f| && forall i :: 0 <= i < |a + "." + f| ==> IsNumberChar((a + "." + f)[i])
    ensures ParseDecimalRun(a + "." + f) == Finite(n as real + frac)
  {
    NumberCharsOfConcat(a, ".");
    NumberCharsOfConcat(a + ".", f);
    assert a + "." + f + "" == a + "." + f;
    ParseDecimalNumber(a, f, "");
  }

  lemma RunSize(s: string, x: string, unit: string, v: real, points: real)
    requires s == x + unit
    requires 0 < |x| && forall i :: 0 <= i < |x| ==> IsNumberChar(x[i])
    requires ParseDecimalRun(x) == Finite(v)
    requires unit in ["mm", "in", "pt", "px", ""]
    requires Times(Finite(v), PointsPerUnit(unit)) == Finite(points)
    ensures ParseSizeToPoints(Some(s)) == Finite(points)
  {
    SizeInUnit(x, unit);
  }

  /** Runs of digits and dots put together make a run of digits and dots. */
  lemma NumberCharsOfConcat(x: string, y: string)
    requires forall i :: 0 <= i < |x| ==> IsNumberChar(x[i])
    requires forall i :: 0 <= i < |y| ==> IsNumberChar(y[i])
    ensures forall i :: 0 <= i < |x + y| ==> IsNumberChar((x + y)[i])
  {
    forall i | 0 <= i < |x + y| ensures IsNumberChar((x + y)[i]) {
      if i < |x| {
        assert (x + y)[i] == x[i];
      } else {
        assert (x + y)[i] == y[i - |x|];
      }
    }
  }
}
