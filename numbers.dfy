/**
 * The price token of a buy command: `float(parts[3].replace(",", ""))`
 * (app.py:140). Python's `float` is modelled on ASCII decimal text with an
 * optional sign, an optional fraction and an optional exponent; the value is
 * an exact `real`, so binary floating-point rounding is abstracted away.
 */
module Numbers {
  import opened Wrappers
  import Text

  predicate IsDigit(c: char) { '0' <= c <= '9' }

  predicate AllDigits(s: string) {
    forall i :: 0 <= i < |s| ==> IsDigit(s[i])
  }

  function Pow10(n: nat): (r: nat)
    ensures r >= 1
  {
    if n == 0 then 1 else 10 * Pow10(n - 1)
  }

  /** The value of a run of decimal digits; an empty run is 0. */
  function DigitsValue(ds: string): (n: nat)
    requires AllDigits(ds)
    ensures n < Pow10(|ds|)
  {
    if ds == [] then 0
    else
      var v := DigitsValue(ds[..|ds| - 1]);
      assert v + 1 <= Pow10(|ds| - 1);
      v * 10 + (ds[|ds| - 1] as int - '0' as int)
  }

  /** Index of the first `c` in `s`, or `|s|` if there is none. */
  function IndexOf(s: string, c: char): (i: nat)
    ensures i <= |s|
    ensures i < |s| ==> s[i] == c
    ensures forall k :: 0 <= k < i ==> s[k] != c
  {
    if s == [] || s[0] == c then 0 else 1 + IndexOf(s[1..], c)
  }

  predicate IsExponentMark(c: char) { c == 'e' || c == 'E' }

  /** Index of the first `e` or `E` in `s`, or `|s|` if there is none. */
  function ExponentMark(s: string): (i: nat)
    ensures i <= |s|
    ensures i < |s| ==> IsExponentMark(s[i])
    ensures forall k :: 0 <= k < i ==> !IsExponentMark(s[k])
  {
    if s == [] || IsExponentMark(s[0]) then 0 else 1 + ExponentMark(s[1..])
  }

  predicate IsNumberChar(c: char) {
    IsDigit(c) || c == '.' || c == '+' || c == '-' || IsExponentMark(c)
  }

  predicate AllNumberChars(s: string) {
    forall i :: 0 <= i < |s| ==> IsNumberChar(s[i])
  }

  /** `whole.frac`: the whole part plus the fraction over ten to the number of its digits. */
  function DecimalValue(whole: string, frac: string): (v: real)
    requires AllDigits(whole) && AllDigits(frac)
    ensures v >= 0.0
  {
    DigitsValue(whole) as real + DigitsValue(frac) as real / Pow10(|frac|) as real
  }

  /** `digits[.digits]` or `.digits`, with at least one digit. */
  function ParseMantissa(m: string): (r: Option<real>)
    ensures r.Some? ==> r.value >= 0.0 && m != [] && AllNumberChars(m)
  {
    var dot := IndexOf(m, '.');
    var whole := m[..dot];
    var frac := if dot < |m| then m[dot + 1..] else [];
    if AllDigits(whole) && AllDigits(frac) && |whole| + |frac| > 0 then
      assert forall i :: 0 <= i < dot ==> m[i] == whole[i];
      assert forall i :: dot < i < |m| ==> m[i] == frac[i - dot - 1];
      Some(DecimalValue(whole, frac))
    else None
  }

  /** `[+|-]digits` */
  function ParseExponent(x: string): (r: Option<int>)
    ensures r.Some? ==> AllNumberChars(x)
  {
    var signed := |x| > 0 && (x[0] == '+' || x[0] == '-');
    var digits := if signed then x[1..] else x;
    if digits != [] && AllDigits(digits) then
      assert signed ==> forall i :: 1 <= i < |x| ==> x[i] == digits[i - 1];
      Some(if signed && x[0] == '-' then -(DigitsValue(digits) as int) else DigitsValue(digits))
    else None
  }

  /** `m` times ten to the power `e`: the point moved `e` places, right for a positive `e` and left for a negative one. */
  function Scale(m: real, e: int): (r: real)
    requires m >= 0.0
    ensures r >= 0.0
    decreases if e >= 0 then e else -e
  {
    if e == 0 then m
    else if e > 0 then 10.0 * Scale(m, e - 1)
    else Scale(m, e + 1) / 10.0
  }

  /** A string made of number characters around one more number character is made of number characters. */
  lemma AllNumberCharsAround(u: string, e: nat)
    requires e < |u| && AllNumberChars(u[..e]) && IsNumberChar(u[e]) && AllNumberChars(u[e + 1..])
    ensures AllNumberChars(u)
  {
    forall i | 0 <= i < |u| ensures IsNumberChar(u[i]) {
      if i < e {
        assert u[i] == u[..e][i];
      } else if i > e {
        assert u[i] == u[e + 1..][i - e - 1];
      }
    }
  }

  /** An unsigned number: a mantissa, then optionally `e` or `E` and an exponent. */
  function ParseUnsigned(u: string): (r: Option<real>)
    ensures r.Some? ==> r.value >= 0.0 && u != [] && AllNumberChars(u)
  {
    var e := ExponentMark(u);
    match ParseMantissa(u[..e])
    case None => None
    case Some(m) =>
      if e == |u| then
        assert u[..e] == u;
        Some(m)
      else
        match ParseExponent(u[e + 1..])
        case None => None
        case Some(x) =>
          AllNumberCharsAround(u, e);
          Some(Scale(m, x))
  }

  /** Python's `float(s)` on decimal text; `None` where Python raises `ValueError`. */
  function ParseFloat(s: string): (r: Option<real>)
    ensures r.Some? ==> s != [] && AllNumberChars(s)
  {
    var signed := |s| > 0 && (s[0] == '+' || s[0] == '-');
    var rest := if signed then s[1..] else s;
    match ParseUnsigned(rest)
    case None => None
    case Some(v) =>
      assert signed ==> forall i :: 1 <= i < |s| ==> s[i] == rest[i - 1];
      Some(if signed && s[0] == '-' then -v else v)
  }

  /** The price token of the buy command: thousands separators are dropped before parsing. */
  function ParsePrice(token: string): Option<real> {
    ParseFloat(Text.RemoveCommas(token))
  }

  /** The decimal digits of `n` with no leading zero. */
  function NatDigits(n: nat): (ds: string)
    ensures ds != [] && AllDigits(ds)
    ensures |ds| > 1 ==> ds[0] != '0'
  {
    if n < 10 then [('0' as int + n) as char]
    else NatDigits(n / 10) + [('0' as int + n % 10) as char]
  }

  lemma {:induction false} NatDigitsValue(n: nat)
    ensures DigitsValue(NatDigits(n)) == n
  {
    if n >= 10 {
      var ds := NatDigits(n);
      assert ds[..|ds| - 1] == NatDigits(n / 10);
      NatDigitsValue(n / 10);
    }
  }

  /** A run of digits has no dot and no exponent mark: it is read as a whole number. */
  lemma {:induction false} ParseDigits(ds: string)
    requires ds != [] && AllDigits(ds)
    ensures ParseUnsigned(ds) == Some(DigitsValue(ds) as real)
  {
    assert forall i :: 0 <= i < |ds| ==> !IsExponentMark(ds[i]) && ds[i] != '.' by {
      forall i | 0 <= i < |ds| ensures IsDigit(ds[i]) {
      }
    }
    assert ExponentMark(ds) == |ds|;
    assert IndexOf(ds, '.') == |ds|;
    assert ds[..|ds|] == ds;
    assert ParseMantissa(ds) == Some(DigitsValue(ds) as real);
  }

  /** The decimal text of any natural number parses back to that number. */
  lemma ParseNatDigits(n: nat)
    ensures ParseFloat(NatDigits(n)) == Some(n as real)
  {
    var ds := NatDigits(n);
    NatDigitsValue(n);
    ParseDigits(ds);
    assert IsDigit(ds[0]);
    assert !(ds[0] == '+' || ds[0] == '-');
  }

  /** The price word of a whole number of units, written without separators, is read as that number. */
  lemma ParsePriceNatDigits(n: nat)
    ensures ParsePrice(NatDigits(n)) == Some(n as real)
  {
    var ds := NatDigits(n);
    assert ',' !in ds by {
      forall i | 0 <= i < |ds| ensures IsDigit(ds[i]) {
      }
    }
    Text.RemoveCommasNoComma(ds);
    ParseNatDigits(n);
  }

  /** A leading minus sign negates: `float` accepts negative prices. */
  lemma ParseNegatedNatDigits(n: nat)
    ensures ParseFloat("-" + NatDigits(n)) == Some(-(n as real))
  {
    var ds := NatDigits(n);
    assert ("-" + ds)[1..] == ds;
    NatDigitsValue(n);
    ParseDigits(ds);
  }

  /** The first point of `s` is at `i` when none comes before it and `s[i]` is one. */
  lemma IndexOfAt(s: string, i: nat)
    requires i < |s| && s[i] == '.' && forall k :: 0 <= k < i ==> s[k] != '.'
    ensures IndexOf(s, '.') == i
  {
  }

  /** The first exponent mark of `s` is at `i` when none comes before it and `s[i]` is one or `i` is the end. */
  lemma ExponentMarkAt(s: string, i: nat)
    requires i <= |s| && (i < |s| ==> IsExponentMark(s[i]))
    requires forall k :: 0 <= k < i ==> !IsExponentMark(s[k])
    ensures ExponentMark(s) == i
  {
  }

  /** Without a leading sign, `float` reads the text as an unsigned number. */
  lemma ParseFloatUnsigned(s: string)
    requires s != [] && s[0] != '+' && s[0] != '-'
    ensures ParseFloat(s) == ParseUnsigned(s)
  {
  }

  /** A mantissa alone is read as its value. */
  lemma ParseUnsignedMantissa(u: string)
    requires ExponentMark(u) == |u| && ParseMantissa(u).Some?
    ensures ParseUnsigned(u) == ParseMantissa(u)
  {
    assert u[..|u|] == u;
  }

  /** A mantissa, an exponent mark and an exponent are read as the mantissa scaled by that power of ten. */
  lemma ParseUnsignedScaled(u: string, e: nat)
    requires ExponentMark(u) == e < |u|
    requires ParseMantissa(u[..e]).Some? && ParseExponent(u[e + 1..]).Some?
    ensures ParseUnsigned(u) == Some(Scale(ParseMantissa(u[..e]).value, ParseExponent(u[e + 1..]).value))
  {
  }

  /** Digits, a point and digits have no exponent mark and exactly one point, before the fraction. */
  lemma {:induction false} ParseMantissaPoint(w: string, f: string)
    requires AllDigits(w) && AllDigits(f) && |w| + |f| > 0
    ensures ParseMantissa(w + "." + f) == Some(DecimalValue(w, f))
    ensures ExponentMark(w + "." + f) == |w| + 1 + |f|
    ensures (w + "." + f)[0] != '+' && (w + "." + f)[0] != '-'
  {
    var m := w + "." + f;
    assert forall k :: 0 <= k < |w| ==> m[k] == w[k] && IsDigit(m[k]);
    assert forall k :: |w| < k < |m| ==> m[k] == f[k - |w| - 1] && IsDigit(m[k]);
    IndexOfAt(m, |w|);
    ExponentMarkAt(m, |m|);
    assert m[..|w|] == w;
    assert m[|w| + 1..] == f;
  }

  /** A price with a fraction, such as `182.5`, is read as its exact decimal value. */
  lemma ParseDecimalPoint(w: string, f: string)
    requires AllDigits(w) && AllDigits(f) && |w| + |f| > 0
    ensures ParseFloat(w + "." + f) == Some(DecimalValue(w, f))
  {
    ParseMantissaPoint(w, f);
    ParseFloatUnsigned(w + "." + f);
    ParseUnsignedMantissa(w + "." + f);
  }

  /** An exponent of digits is read as that whole number. */
  lemma ParseExponentDigits(x: string)
    requires x != [] && AllDigits(x)
    ensures ParseExponent(x) == Some(DigitsValue(x) as int)
  {
    assert IsDigit(x[0]);
  }

  /** A minus sign before the exponent's digits negates it. */
  lemma ParseExponentNegative(x: string)
    requires x != [] && AllDigits(x)
    ensures ParseExponent("-" + x) == Some(-(DigitsValue(x) as int))
  {
    assert ("-" + x)[1..] == x;
  }

  /** `w.f` followed by `e` and an exponent text is the decimal scaled by that power of ten. */
  lemma {:induction false} ParseExponentForm(u: string, w: string, f: string, xs: string, e: int)
    requires AllDigits(w) && AllDigits(f) && |w| + |f| > 0 && ParseExponent(xs) == Some(e)
    requires u == w + "." + f + "e" + xs
    ensures ParseFloat(u) == Some(Scale(DecimalValue(w, f), e))
  {
    var m := w + "." + f;
    ParseMantissaPoint(w, f);
    assert forall k :: 0 <= k < |m| ==> u[k] == m[k];
    ExponentMarkAt(u, |m|);
    assert u[..|m|] == m;
    assert u[|m| + 1..] == xs;
    ParseUnsignedScaled(u, |m|);
    ParseFloatUnsigned(u);
  }

  /** `Scale` by a non-negative exponent multiplies by that power of ten. */
  lemma {:induction false} ScaleUp(v: real, x: nat)
    requires v >= 0.0
    ensures Scale(v, x) == v * Pow10(x) as real
  {
    if x > 0 {
      ScaleUp(v, x - 1);
      var p := Pow10(x - 1) as real;
      assert Scale(v, x) == 10.0 * (v * p);
      assert 10.0 * (v * p) == v * (10.0 * p);
    }
  }

  /** Proof helper for `ScaleDown`: dividing twice is dividing by the product. */
  lemma DivDiv(a: real, b: real, c: real)
    requires b > 0.0 && c > 0.0
    ensures (a / b) / c == a / (b * c)
  {
  }

  /** `Scale` by a negative exponent divides by that power of ten. */
  lemma {:induction false} ScaleDown(v: real, x: nat)
    requires v >= 0.0
    ensures Scale(v, -(x as int)) == v / Pow10(x) as real
  {
    if x > 0 {
      ScaleDown(v, x - 1);
      var p := Pow10(x - 1) as real;
      assert Scale(v, -(x as int)) == (v / p) / 10.0;
      DivDiv(v, p, 10.0);
      assert Pow10(x) as real == p * 10.0;
    }
  }

  /** Scientific notation: `w.fe<x>` is the decimal scaled up by ten to the power `x` (see `ScaleUp`). */
  lemma ParseScientific(w: string, f: string, x: string)
    requires AllDigits(w) && AllDigits(f) && |w| + |f| > 0
    requires x != [] && AllDigits(x)
    ensures ParseFloat(w + "." + f + "e" + x) == Some(Scale(DecimalValue(w, f), DigitsValue(x)))
  {
    ParseExponentDigits(x);
    ParseExponentForm(w + "." + f + "e" + x, w, f, x, DigitsValue(x));
  }

  /** A negative exponent: `w.fe-<x>` is the decimal scaled down by ten to the power `x` (see `ScaleDown`). */
  lemma ParseScientificNegative(w: string, f: string, x: string)
    requires AllDigits(w) && AllDigits(f) && |w| + |f| > 0
    requires x != [] && AllDigits(x)
    ensures ParseFloat(w + "." + f + "e-" + x) == Some(Scale(DecimalValue(w, f), -(DigitsValue(x) as int)))
  {
    var u := w + "." + f + "e-" + x;
    ParseExponentNegative(x);
    MinusAfterMark(w + "." + f, x);
    ParseExponentForm(u, w, f, "-" + x, -(DigitsValue(x) as int));
  }

  /** Proof helper: `e-` before the digits is the mark followed by a negative exponent text. */
  lemma MinusAfterMark(m: string, x: string)
    ensures m + "e-" + x == m + "e" + ("-" + x)
  {
    assert "e-" == "e" + "-";
  }

  /** A second point, as in `1.2.3`, makes `float` raise `ValueError`. */
  lemma {:induction false} ParseTwoPoints(w: string, f: string, g: string)
    requires AllDigits(w) && AllDigits(f) && AllDigits(g)
    ensures ParseFloat(w + "." + f + "." + g) == None
  {
    var m := w + "." + f;
    var s := m + "." + g;
    assert forall k :: 0 <= k < |w| ==> s[k] == w[k] && IsDigit(s[k]);
    IndexOfAt(s, |w|);
    forall k | 0 <= k < |s| ensures !IsExponentMark(s[k]) {
      if k < |w| {
        assert s[k] == w[k];
      } else if |w| < k < |m| {
        assert s[k] == f[k - |w| - 1];
      } else if k > |m| {
        assert s[k] == g[k - |m| - 1];
      }
    }
    ExponentMarkAt(s, |s|);
    var frac := s[|w| + 1..];
    assert frac[|f|] == '.';
    assert !AllDigits(frac);
    assert s[..|s|] == s;
    assert ParseMantissa(s) == None;
    assert s[0] != '+' && s[0] != '-' by {
      if w != [] { assert s[0] == w[0]; }
    }
    ParseFloatUnsigned(s);
  }

  /** A comma anywhere in the price token is ignored. */
  lemma ParsePriceIgnoresComma(a: string, b: string)
    ensures ParsePrice(a + "," + b) == ParsePrice(a + b)
  {
    var t := Text.RemoveCommas(a + "," + b);
    calc {
      t;
      { Text.RemoveCommasConcat(a + ",", b); }
      Text.RemoveCommas(a + ",") + Text.RemoveCommas(b);
      { Text.RemoveCommasConcat(a, ","); assert Text.RemoveCommas(",") == []; }
      Text.RemoveCommas(a) + Text.RemoveCommas(b);
      { Text.RemoveCommasConcat(a, b); }
      Text.RemoveCommas(a + b);
    }
  }
}
