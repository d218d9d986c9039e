/**
  Character-level text helpers shared by the path serializers and the input validators:
  decimal rendering of naturals (JavaScript's `${n}` for an integer), digit parsing,
  substring search (`String.prototype.includes`), split/join on a single character, and a string's
  JavaScript `length` in UTF-16 code units.
 */
module Text {

  predicate IsDigit(c: char) {
    '0' <= c <= '9'
  }

  predicate AllDigits(s: string) {
    forall i :: 0 <= i < |s| ==> IsDigit(s[i])
  }

  function DigitValue(c: char): (v: nat)
    requires IsDigit(c)
    ensures v < 10
  {
    (c as int) - ('0' as int)
  }

  function DigitChar(d: nat): (c: char)
    requires d < 10
    ensures IsDigit(c) && DigitValue(c) == d
  {
    ((d + ('0' as int)) as char)
  }

  /** JavaScript's `length`: characters beyond the Basic Multilingual Plane count twice. */
  function Utf16Length(s: string): (n: nat)
    ensures |s| <= n <= 2 * |s|
  {
    if |s| == 0 then 0
    else (if (s[0] as int) < 0x1_0000 then 1 else 2) + Utf16Length(s[1..])
  }

  /** A string within the Basic Multilingual Plane has one code unit per character. */
  lemma {:induction false} Utf16LengthOfBmp(s: string)
    requires forall i :: 0 <= i < |s| ==> (s[i] as int) < 0x1_0000
    ensures Utf16Length(s) == |s|
  {
    if 0 < |s| {
      assert forall i :: 0 <= i < |s[1..]| ==> s[1..][i] == s[i + 1];
      Utf16LengthOfBmp(s[1..]);
    }
  }

  /** The JavaScript length of two strings put together is the sum of their lengths. */
  lemma {:induction false} Utf16LengthOfConcat(a: string, b: string)
    ensures Utf16Length(a + b) == Utf16Length(a) + Utf16Length(b)
  {
    if |a| > 0 {
      assert (a + b)[0] == a[0] && (a + b)[1..] == a[1..] + b;
      Utf16LengthOfConcat(a[1..], b);
    } else {
      assert a + b == b;
    }
  }

  /** Digits lie within the Basic Multilingual Plane, so a digit string has one code unit per digit. */
  lemma Utf16LengthOfDigits(s: string)
    requires AllDigits(s)
    ensures Utf16Length(s) == |s|
  {
    Utf16LengthOfBmp(s);
  }

  /** The value of a string of decimal digits, most significant first (the empty string is 0). */
  function DigitsValue(s: string): nat
    requires AllDigits(s)
  {
    if |s| == 0 then 0 else DigitsValue(s[..|s| - 1]) * 10 + DigitValue(s[|s| - 1])
  }

  /** The longest prefix of `s` made of decimal digits. */
  function LeadingDigits(s: string): (r: string)
    ensures |r| <= |s| && r == s[..|r|]
    ensures AllDigits(r)
    ensures |r| < |s| ==> !IsDigit(s[|r|])
  {
    if |s| == 0 || !IsDigit(s[0]) then [] else [s[0]] + LeadingDigits(s[1..])
  }

  /** A run of digits followed by a non-digit is read up to that point. */
  lemma {:induction false} LeadingDigitsOfConcat(x: string, u: string)
    requires AllDigits(x)
    requires |u| == 0 || !IsDigit(u[0])
    ensures LeadingDigits(x + u) == x
  {
    if |x| == 0 {
      assert x + u == u;
    } else {
      assert (x + u)[1..] == x[1..] + u;
      LeadingDigitsOfConcat(x[1..], u);
    }
  }

  /** Decimal rendering of a natural number, as JavaScript's template literal renders an integer. */
  function NatToString(n: nat): (s: string)
    ensures 0 < |s|
    ensures AllDigits(s)
    ensures 1 < |s| ==> s[0] != '0'
    ensures n < 10 <==> |s| == 1
  {
    if n < 10 then [DigitChar(n)] else NatToString(n / 10) + [DigitChar(n % 10)]
  }

  /** Parsing the rendering of `n` gives back `n`. */
  lemma {:induction false} NatToStringRoundTrip(n: nat)
    ensures DigitsValue(NatToString(n)) == n
  {
    if n >= 10 {
      var s := NatToString(n);
      assert s[..|s| - 1] == NatToString(n / 10);
      NatToStringRoundTrip(n / 10);
    }
  }

  /** Distinct naturals have distinct renderings. */
  lemma NatToStringInjective(a: nat, b: nat)
    requires NatToString(a) == NatToString(b)
    ensures a == b
  {
    NatToStringRoundTrip(a);
    NatToStringRoundTrip(b);
  }

  /** `t` occurs somewhere in `s`. */
  predicate Contains(s: string, t: string)
    decreases |s|
  {
    (|t| <= |s| && s[..|t|] == t) || (0 < |s| && Contains(s[1..], t))
  }

  /** A non-empty pattern whose first character does not occur in `s` does not occur in `s`. */
  lemma {:induction false} NotContainsWithoutFirstChar(s: string, t: string)
    requires 0 < |t|
    requires forall i :: 0 <= i < |s| ==> s[i] != t[0]
    ensures !Contains(s, t)
  {
    if 0 < |s| {
      assert s[0] != t[0];
      NotContainsWithoutFirstChar(s[1..], t);
    }
  }

  /** A pattern occurring in a prefix occurs in the whole string. */
  lemma {:induction false} ContainsPrefix(s: string, u: string, t: string)
    requires Contains(s, t)
    ensures Contains(s + u, t)
  {
    if |t| <= |s| && s[..|t|] == t {
      assert (s + u)[..|t|] == t;
    } else {
      assert (s + u)[1..] == s[1..] + u;
      ContainsPrefix(s[1..], u, t);
    }
  }

  /** A string begins with the beginning of its first part and ends with its last part. */
  lemma EndsOfConcat(a: string, b: string, c: string, k: nat)
    requires k <= |a|
    ensures (a + b + c)[..k] == a[..k]
    ensures (a + b + c)[|a + b + c| - |c|..] == c
  {
  }

  /** Joins the parts with the separator between consecutive parts (`Array.prototype.join`). */
  function JoinWith(parts: seq<string>, sep: char): string
  {
    if |parts| == 0 then ""
    else if |parts| == 1 then parts[0]
    else parts[0] + [sep] + JoinWith(parts[1..], sep)
  }

  /** Splits on every occurrence of the separator (`String.prototype.split` with a one-character separator). */
  function Split(s: string, sep: char): (parts: seq<string>)
    ensures 0 < |parts|
    ensures forall k, i :: 0 <= k < |parts| && 0 <= i < |parts[k]| ==> parts[k][i] != sep
    ensures JoinWith(parts, sep) == s
    decreases |s|
  {
    if |s| == 0 then [""]
    else if s[0] == sep then
      var rest := Split(s[1..], sep);
      assert s == [sep] + s[1..];
      [""] + rest
    else
      var rest := Split(s[1..], sep);
      var r := [[s[0]] + rest[0]] + rest[1..];
      assert r[1..] == rest[1..];
      assert s == [s[0]] + s[1..];
      r
  }

  predicate FreeOf(part: string, sep: char) {
    forall i :: 0 <= i < |part| ==> part[i] != sep
  }

  /** Splitting a join of separator-free parts recovers the parts. */
  lemma {:induction false} SplitJoinRoundTrip(parts: seq<string>, sep: char)
    requires 0 < |parts|
    requires forall k :: 0 <= k < |parts| ==> FreeOf(parts[k], sep)
    ensures Split(JoinWith(parts, sep), sep) == parts
  {
    if |parts| == 1 {
      SplitFreeOf(parts[0], sep);
    } else {
      SplitJoinRoundTrip(parts[1..], sep);
      SplitPrefixed(parts[0], JoinWith(parts[1..], sep), sep);
    }
  }

  /** A separator-free string splits into itself. */
  lemma {:induction false} SplitFreeOf(s: string, sep: char)
    requires FreeOf(s, sep)
    ensures Split(s, sep) == [s]
    decreases |s|
  {
    if 0 < |s| {
      SplitFreeOf(s[1..], sep);
    }
  }

  /** Splitting `p + sep + rest` for separator-free `p` gives `p` followed by the split of `rest`. */
  lemma {:induction false} SplitPrefixed(p: string, rest: string, sep: char)
    requires FreeOf(p, sep)
    ensures Split(p + [sep] + rest, sep) == [p] + Split(rest, sep)
    decreases |p|
  {
    var s := p + [sep] + rest;
    if |p| == 0 {
      assert s[1..] == rest;
    } else {
      assert s[1..] == p[1..] + [sep] + rest;
      SplitPrefixed(p[1..], rest, sep);
      assert [p[0]] + p[1..] == p;
    }
  }
}
