/** JavaScript's `parseFloat`, the `|| 0` fallback applied to its result, and the
    dashboard's coolant-level parse built from them (Dashboard.jsx): keep only the
    characters matched by neither `[^\d.]`, parse, fall back to 0, cap at 100. */
module JsParse {
  import opened Numerals

  /** A JavaScript number as `parseFloat` can produce it: NaN or a finite value. */
  datatype Parsed = NaN | Num(value: real)

  /** A numeric prefix: its magnitude and how many characters it took. */
  datatype Prefix = NoNumber | Prefix(value: real, length: nat)

  /** The white space and line terminators that `parseFloat` skips before the number. */
  predicate IsJsWhitespace(c: char) {
    c == '\t' || c == '\n' || c == '\U{0B}' || c == '\U{0C}' || c == '\r' || c == ' '
    || c == '\U{A0}' || c == '\U{1680}' || ('\U{2000}' <= c <= '\U{200A}')
    || c == '\U{2028}' || c == '\U{2029}' || c == '\U{202F}' || c == '\U{205F}'
    || c == '\U{3000}' || c == '\U{FEFF}'
  }

  function WhitespaceRun(s: string): (n: nat)
    ensures n <= |s|
    ensures forall i :: 0 <= i < n ==> IsJsWhitespace(s[i])
    ensures n < |s| ==> !IsJsWhitespace(s[n])
  {
    if s == [] || !IsJsWhitespace(s[0]) then 0 else 1 + WhitespaceRun(s[1..])
  }

  function Pow10(n: nat): (r: real)
    ensures r >= 1.0
  {
    if n == 0 then 1.0 else 10.0 * Pow10(n - 1)
  }

  /** The longest prefix of the form `digits [. digits]` or `. digits`, with at least one digit. */
  function Mantissa(u: string): (p: Prefix)
    ensures p.Prefix? ==> 0 < p.length <= |u| && p.value >= 0.0
  {
    var i := DigitRun(u);
    if i < |u| && u[i] == '.' then
      var f := u[i + 1..];
      var j := DigitRun(f);
      if i == 0 && j == 0 then NoNumber
      else Prefix(NatValue(u[..i]) as real + FracValue(f[..j]), i + 1 + j)
    else if i == 0 then NoNumber
    else Prefix(NatValue(u[..i]) as real, i)
  }

  /** The exponent of an `e`/`E` suffix with optional sign and at least one digit; 0 when there is none. */
  function Exponent(r: string): int
  {
    if |r| >= 2 && (r[0] == 'e' || r[0] == 'E') then
      var signed := r[1] == '+' || r[1] == '-';
      var ds := if signed then r[2..] else r[1..];
      var k := DigitRun(ds);
      if k == 0 then 0
      else
        var e: int := NatValue(ds[..k]);
        if r[1] == '-' then -e else e
    else 0
  }

  function Scale(m: real, e: int): (r: real)
    ensures m >= 0.0 ==> r >= 0.0
  {
    if e >= 0 then m * Pow10(e) else m / Pow10(-e)
  }

  /** The number read from an unsigned literal: its mantissa scaled by its exponent. */
  function ParseUnsigned(u: string): (p: Parsed)
    ensures p.Num? ==> p.value >= 0.0
  {
    match Mantissa(u)
    case NoNumber => NaN
    case Prefix(m, len) => Num(Scale(m, Exponent(u[len..])))
  }

  function Negate(p: Parsed): Parsed {
    match p
    case NaN => NaN
    case Num(x) => Num(-x)
  }

  /** `parseFloat(s)`: skip leading white space, read an optional sign and the longest
      decimal literal after it; NaN when there is none. */
  function ParseFloat(s: string): Parsed
  {
    var t := s[WhitespaceRun(s)..];
    if |t| > 0 && t[0] == '-' then Negate(ParseUnsigned(t[1..]))
    else if |t| > 0 && t[0] == '+' then ParseUnsigned(t[1..])
    else ParseUnsigned(t)
  }

  /** White space before the text adds exactly its own length to the skipped run. */
  lemma {:induction false} WhitespaceRunAppend(w: string, s: string)
    requires forall i :: 0 <= i < |w| ==> IsJsWhitespace(w[i])
    ensures WhitespaceRun(w + s) == |w| + WhitespaceRun(s)
  {
    if w != [] {
      assert (w + s)[0] == w[0];
      assert (w + s)[1..] == w[1..] + s;
      WhitespaceRunAppend(w[1..], s);
    } else {
      assert w + s == s;
    }
  }

  /** Leading white space does not change what `parseFloat` reads. */
  lemma ParseFloatSkipsWhitespace(w: string, s: string)
    requires forall i :: 0 <= i < |w| ==> IsJsWhitespace(w[i])
    ensures ParseFloat(w + s) == ParseFloat(s)
  {
    WhitespaceRunAppend(w, s);
    var k := WhitespaceRun(s);
    assert (w + s)[WhitespaceRun(w + s)..] == s[k..];
  }

  /** A leading '-' negates the literal after it, and a leading '+' is dropped. */
  lemma ParseFloatSigned(u: string)
    ensures ParseFloat("-" + u) == Negate(ParseUnsigned(u))
    ensures ParseFloat("+" + u) == ParseUnsigned(u)
  {
    var m, p := "-" + u, "+" + u;
    assert WhitespaceRun(m) == 0 && m[0..] == m && m[0] == '-' && m[1..] == u;
    assert WhitespaceRun(p) == 0 && p[0..] == p && p[0] == '+' && p[1..] == u;
  }

  /** A string that starts with a digit or a dot has no white space or sign to skip. */
  lemma ParseFloatUnsigned(s: string)
    requires |s| > 0 ==> IsKept(s[0])
    ensures ParseFloat(s) == ParseUnsigned(s)
  {
    if |s| > 0 {
      assert WhitespaceRun(s) == 0;
    }
    assert s[WhitespaceRun(s)..] == s;
  }

  /** `x || 0` on a number: NaN and zero are falsy and become 0. */
  function OrZero(p: Parsed): real
  {
    match p
    case NaN => 0.0
    case Num(x) => x
  }

  /** `|| 0` yields 0 exactly for the falsy results NaN and 0, and keeps every other
      number. */
  lemma OrZeroFalsy(p: Parsed)
    ensures OrZero(p) == 0.0 <==> p.NaN? || p == Num(0.0)
    ensures p.Num? ==> OrZero(p) == p.value
  {
  }

  /** The characters that `replace(/[^\d.]/g, "")` keeps. */
  predicate IsKept(c: char) {
    IsDigit(c) || c == '.'
  }

  /** `s.replace(/[^\d.]/g, "")`: the digits and dots of `s`, in their order. */
  function Strip(s: string): (r: string)
    ensures |r| <= |s|
    ensures forall i :: 0 <= i < |r| ==> IsKept(r[i])
  {
    if s == [] then ""
    else if IsKept(s[0]) then [s[0]] + Strip(s[1..])
    else Strip(s[1..])
  }

  function Min(x: real, y: real): real {
    if x <= y then x else y
  }

  /** `Math.min(parseFloat(raw.replace(/[^\d.]/g, "")) || 0, 100)`. */
  function ParseLevel(raw: string): (r: real)
    ensures 0.0 <= r <= 100.0
  {
    StrippedNonNegative(raw);
    Min(OrZero(ParseFloat(Strip(raw))), 100.0)
  }

  /** What `parseFloat` reads from a string of digits and dots is never negative:
      stripping removed every sign. */
  lemma StrippedNonNegative(raw: string)
    ensures ParseFloat(Strip(raw)).Num? ==> ParseFloat(Strip(raw)).value >= 0.0
  {
    var s := Strip(raw);
    if |s| > 0 {
      assert IsKept(s[0]);
    }
    ParseFloatUnsigned(s);
  }

  lemma {:induction false} StripAppend(a: string, b: string)
    ensures Strip(a + b) == Strip(a) + Strip(b)
  {
    if a == [] {
      assert a + b == b;
    } else {
      assert (a + b)[0] == a[0];
      assert (a + b)[1..] == a[1..] + b;
      StripAppend(a[1..], b);
    }
  }

  lemma {:induction false} StripKept(s: string)
    requires forall i :: 0 <= i < |s| ==> IsKept(s[i])
    ensures Strip(s) == s
  {
    if s != [] {
      StripKept(s[1..]);
    }
  }

  /** Stripping a text without digits leaves only dots. */
  lemma {:induction false} StripNoDigits(s: string)
    requires forall i :: 0 <= i < |s| ==> !IsDigit(s[i])
    ensures forall i :: 0 <= i < |Strip(s)| ==> Strip(s)[i] == '.'
  {
    if s != [] {
      StripNoDigits(s[1..]);
    }
  }

  lemma {:induction false} StripNoneKept(s: string)
    requires forall i :: 0 <= i < |s| ==> !IsKept(s[i])
    ensures Strip(s) == ""
  {
    if s != [] {
      StripNoneKept(s[1..]);
    }
  }

  lemma MantissaDigits(d: string)
    requires |d| >= 1 && AllDigits(d)
    ensures Mantissa(d) == Prefix(NatValue(d) as real, |d|)
  {
    DigitRunAll(d);
    assert d[..|d|] == d;
  }

  /** `parseFloat` of a non-empty digit string is its decimal value. */
  lemma ParseDigits(d: string)
    requires |d| >= 1 && AllDigits(d)
    ensures ParseFloat(d) == Num(NatValue(d) as real)
  {
    ParseFloatUnsigned(d);
    MantissaDigits(d);
    assert d[|d|..] == "";
    assert Exponent("") == 0;
  }

  /** Characters other than digits and dots, wherever they stand, do not change the
      parsed level: a minus sign cannot make it negative and letters around the
      number are ignored. */
  lemma ParseLevelIgnoresNoise(a: string, noise: string, b: string)
    requires forall i :: 0 <= i < |noise| ==> !IsKept(noise[i])
    ensures ParseLevel(a + noise + b) == ParseLevel(a + b)
  {
    StripAppend(a + noise, b);
    StripAppend(a, noise);
    StripAppend(a, b);
    StripNoneKept(noise);
    assert Strip(a + noise + b) == Strip(a + b);
    ParseLevelOfStrip(a + noise + b, a + b);
  }

  /** The level depends on the raw text only through what stripping keeps. */
  lemma ParseLevelOfStrip(x: string, y: string)
    requires Strip(x) == Strip(y)
    ensures ParseLevel(x) == ParseLevel(y)
  {
  }

  /** A label without digits or dots followed by the decimal form of `n` parses to `n`, capped at 100. */
  lemma ParseLevelLabelled(tag: string, n: nat)
    requires forall i :: 0 <= i < |tag| ==> !IsKept(tag[i])
    ensures ParseLevel(tag + NatToString(n)) == Min(n as real, 100.0)
  {
    var d := NatToString(n);
    StripAppend(tag, d);
    StripNoneKept(tag);
    StripKept(d);
    assert Strip(tag + d) == d;
    ParseDigits(d);
    NatToStringValue(n);
  }

  /** A string without digits parses to level 0: what is left after stripping is dots
      only, and `parseFloat` finds no number in it. */
  lemma ParseLevelNoDigits(raw: string)
    requires forall i :: 0 <= i < |raw| ==> !IsDigit(raw[i])
    ensures ParseLevel(raw) == 0.0
  {
    var s := Strip(raw);
    StripNoDigits(raw);
    if |s| > 0 {
      assert IsKept(s[0]);
    }
    ParseFloatUnsigned(s);
    if |s| > 0 {
      assert DigitRun(s) == 0;
      if |s| > 1 {
        assert DigitRun(s[1..]) == 0;
      }
    }
    assert ParseFloat(s) == NaN;
  }

  /** The mantissa of an integer part followed by a dot. */
  lemma MantissaAtDot(u: string, i: nat, f: string, j: nat)
    requires i == DigitRun(u) && 0 < i < |u| && u[i] == '.'
    requires f == u[i + 1..] && j == DigitRun(f)
    ensures Mantissa(u) == Prefix(NatValue(u[..i]) as real + FracValue(f[..j]), i + 1 + j)
  {
  }

  /** `s` is the integer digits `d`, a dot, and the fraction digits `f`. */
  predicate SplitsAtDot(s: string, d: string, f: string) {
    |s| == |d| + 1 + |f| && s[..|d|] == d && s[|d|] == '.' && s[|d| + 1..] == f
  }

  lemma DotSplit(d: string, f: string)
    ensures SplitsAtDot(d + "." + f, d, f)
  {
    var s := d + "." + f;
    assert s[..|d|] == d && s[|d| + 1..] == f;
  }

  lemma MantissaFraction(s: string, d: string, f: string)
    requires |d| >= 1 && AllDigits(d) && AllDigits(f) && SplitsAtDot(s, d, f)
    ensures Mantissa(s) == Prefix(NatValue(d) as real + FracValue(f), |s|)
  {
    assert DigitRun(s) == |d| by {
      assert s == d + s[|d|..];
      DigitRunStops(d, s[|d|..]);
    }
    assert DigitRun(f) == |f| && f[..|f|] == f by {
      DigitRunAll(f);
    }
    MantissaAtDot(s, |d|, f, |f|);
  }

  /** `parseFloat` of `digits.digits` is the integer part plus the fraction. */
  lemma ParseFraction(s: string, d: string, f: string)
    requires |d| >= 1 && AllDigits(d) && AllDigits(f) && SplitsAtDot(s, d, f)
    ensures ParseFloat(s) == Num(NatValue(d) as real + FracValue(f))
  {
    assert s[0] == d[0];
    ParseFloatUnsigned(s);
    MantissaFraction(s, d, f);
    assert s[|s|..] == "";
    assert Exponent("") == 0;
  }

  /** The level parse on the device's label: "value_68" is 68. */
  lemma ParseLevelDeviceExample()
    ensures ParseLevel("value_68") == 68.0
  {
    assert NatToString(68) == "68";
    ParseLevelLabelled("value_", 68);
    assert "value_" + "68" == "value_68";
  }

  lemma StripFraction(s: string, d: string, f: string)
    requires AllDigits(d) && AllDigits(f) && SplitsAtDot(s, d, f)
    ensures Strip(s) == s
  {
    forall i | 0 <= i < |s|
      ensures IsKept(s[i])
    {
      if i < |d| {
        assert s[i] == s[..|d|][i];
      } else if i > |d| {
        assert s[i] == s[|d| + 1..][i - |d| - 1];
      }
    }
    StripKept(s);
  }

  /** A label followed by `digits.digits` parses to that decimal, capped at 100:
      the dot is kept, so the fraction survives the stripping. */
  lemma ParseLevelLabelledFraction(tag: string, d: string, f: string)
    requires forall i :: 0 <= i < |tag| ==> !IsKept(tag[i])
    requires |d| >= 1 && AllDigits(d) && AllDigits(f)
    ensures ParseLevel(tag + d + "." + f) == Min(NatValue(d) as real + FracValue(f), 100.0)
  {
    var x := d + "." + f;
    assert tag + d + "." + f == tag + x;
    DotSplit(d, f);
    assert Strip(tag + x) == x by {
      StripAppend(tag, x);
      StripNoneKept(tag);
      StripFraction(x, d, f);
    }
    ParseFraction(x, d, f);
  }

  /** A label glued to a fraction keeps the fraction: "value68.5" is 68.5. */
  lemma ParseLevelFractionExample()
    ensures ParseLevel("value68.5") == 68.5
  {
    var t, d, f := "value", "68", "5";
    assert NatToString(68) == d;
    NatToStringValue(68);
    assert FracValue(f) == 0.5;
    ParseLevelLabelledFraction(t, d, f);
    assert t + d + "." + f == "value68.5";
    assert ParseLevel("value68.5") == Min(NatValue(d) as real + FracValue(f), 100.0);
    assert NatValue(d) as real + FracValue(f) == 68.5;
  }

  /** A label without a number gives level 0. */
  lemma ParseLevelNoValueExample()
    ensures ParseLevel("novalue") == 0.0
  {
    var v := ['n', 'o', 'v', 'a', 'l', 'u', 'e'];
    ParseLevelNoDigits(v);
    assert v == "novalue";
  }

  /** A missing field, read as "" or as "0", gives level 0. */
  lemma ParseLevelMissingExample()
    ensures ParseLevel("") == 0.0
    ensures ParseLevel("0") == 0.0
  {
    ParseLevelNoDigits("");
    assert NatToString(0) == "0";
    ParseLevelLabelled("", 0);
    assert "" + "0" == "0";
  }

  /** An over-full reading is capped at 100, and a minus sign is dropped: "150" is 100, "-20" is 20. */
  lemma ParseLevelCapAndSignExamples()
    ensures ParseLevel("150") == 100.0
    ensures ParseLevel("-20") == 20.0
  {
    assert NatToString(150) == "150";
    ParseLevelLabelled("", 150);
    assert "" + "150" == "150";
    assert NatToString(20) == "20";
    ParseLevelLabelled("-", 20);
    assert "-" + "20" == "-20";
  }
}
