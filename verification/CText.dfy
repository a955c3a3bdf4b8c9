/** The C library conversions the text decoder relies on, on NUL-terminated strings. */
module CText {
  import opened Bytes

  const LONG_MAX: int := 0x7fff_ffff_ffff_ffff
  const LONG_MIN: int := -0x8000_0000_0000_0000

  /** The C string that starts at the head of `s`. */
  function UpToNul(s: seq<byte>): (r: seq<byte>)
    ensures |r| <= |s|
  {
    if s == [] || s[0] == 0 then [] else [s[0]] + UpToNul(s[1..])
  }

  /** A terminator written behind a text confines every C string that starts in the text to it. */
  lemma {:induction false} UpToNulCut(m: seq<byte>, from: nat, to: nat)
    requires from <= to < |m| && m[to] == 0
    ensures UpToNul(m[from..]) == UpToNul(m[from..to])
    decreases |m| - from
  {
    if from < to && m[from] != 0 {
      UpToNulCut(m, from + 1, to);
      assert m[from..][1..] == m[from + 1..];
      assert m[from..to][1..] == m[from + 1..to];
    }
  }

  lemma {:induction false} UpToNulWhole(s: seq<byte>)
    requires 0 !in s
    ensures UpToNul(s) == s
  {
    if s != [] { UpToNulWhole(s[1..]); }
  }

  predicate IsSpace(b: byte) { b == 32 || 9 <= b <= 13 }

  predicate IsDigit(b: byte) { 48 <= b <= 57 }

  function Spaces(s: seq<byte>): (n: nat)
    ensures n <= |s|
  {
    if s == [] || !IsSpace(s[0]) then 0 else 1 + Spaces(s[1..])
  }

  function Digits(s: seq<byte>): (n: nat)
    ensures n <= |s|
  {
    if s == [] || !IsDigit(s[0]) then 0 else 1 + Digits(s[1..])
  }

  function DigitsValue(s: seq<byte>): int
  {
    if s == [] then 0 else 10 * DigitsValue(s[..|s| - 1]) + (s[|s| - 1] as int - 48)
  }

  /** Length of an optional sign. */
  function Sign(s: seq<byte>): (n: nat)
    ensures n <= |s|
  {
    if s != [] && (s[0] == 45 || s[0] == 43) then 1 else 0
  }

  predicate Minus(s: seq<byte>)
  {
    s != [] && s[0] == 45
  }

  function Clamp(v: int): int
  {
    if v > LONG_MAX then LONG_MAX else if v < LONG_MIN then LONG_MIN else v
  }

  /** `strtol` and `strtoll` in base 10 with a 64-bit `long`: the value, and how far the end pointer moved. */
  function StrTol(s: seq<byte>): (r: (int, nat))
    ensures r.1 <= |s|
  {
    var w := Spaces(s);
    var (v, n) := SignedDigits(s[w..]);
    if n == 0 then (0, 0) else (Clamp(v), w + n)
  }

  /** An optionally signed run of digits, and its length with the sign; length 0 when there is no digit. */
  function SignedDigits(s: seq<byte>): (r: (int, nat))
    ensures r.1 <= |s|
  {
    var g := Sign(s);
    var d := Digits(s[g..]);
    var v := DigitsValue(s[g..g + d]);
    if d == 0 then (0, 0) else (if Minus(s) then -v else v, g + d)
  }

  /** The conversion of a 64-bit `long` to a 32-bit `int`. */
  function Int32(v: int): int
  {
    var m := v % TWO32;
    if m < 0x8000_0000 then m else m - TWO32
  }

  function Pow10(e: int): real
    decreases if e < 0 then -e else e
  {
    if e == 0 then 1.0 else if e > 0 then 10.0 * Pow10(e - 1) else Pow10(e + 1) / 10.0
  }

  /** `strtof` and `strtod` on decimal notation, over the reals: no rounding, no hexadecimal, infinite or NaN text. */
  function StrTod(s: seq<byte>): (r: (real, nat))
    ensures r.1 <= |s|
  {
    var g := Spaces(s) + Sign(s[Spaces(s)..]);
    var t := s[g..];
    var (m, f, n) := Fraction(t[..Digits(t)], t[Digits(t)..]);
    if n == 0 then (0.0, 0)
    else
      var (e, k) := Exponent(t[n..]);
      (Scaled(Minus(s[Spaces(s)..]), m, e - f), g + n + k)
  }

  function Scaled(minus: bool, m: int, e: int): real
  {
    var v := m as real * Pow10(e);
    if minus then -v else v
  }

  /** The digits `a`, and those behind a point that follows: their number, how many are behind the point, and the length; 0
      without digits. */
  function Fraction(a: seq<byte>, rest: seq<byte>): (r: (int, nat, nat))
    ensures r.2 <= |a| + |rest|
  {
    if rest != [] && rest[0] == 46 then
      var f := Digits(rest[1..]);
      (DigitsValue(a + rest[1..1 + f]), f, if a == [] && f == 0 then 0 else |a| + 1 + f)
    else (DigitsValue(a), 0, |a|)
  }

  function Exponent(s: seq<byte>): (r: (int, nat))
    ensures r.1 <= |s|
  {
    if s == [] || (s[0] != 101 && s[0] != 69) then (0, 0)
    else
      var (v, n) := SignedDigits(s[1..]);
      if n == 0 then (0, 0) else (v, 1 + n)
  }

  /** The decimal digits of `v`, at least `width` of them. */
  function Padded(v: nat, width: nat): (s: seq<byte>)
    ensures forall b :: b in s ==> IsDigit(b)
    ensures |s| >= width && (v > 0 ==> |s| > 0)
    decreases v, width
  {
    if v == 0 && width == 0 then []
    else Padded(v / 10, if width == 0 then 0 else width - 1) + [48 + v % 10]
  }

  lemma {:induction false} PaddedValue(v: nat, width: nat)
    ensures DigitsValue(Padded(v, width)) == v
    decreases v, width
  {
    if v != 0 || width != 0 {
      var w := if width == 0 then 0 else width - 1;
      PaddedValue(v / 10, w);
      assert Padded(v, width)[..|Padded(v, width)| - 1] == Padded(v / 10, w);
    }
  }

  lemma {:induction false} AllDigits(s: seq<byte>)
    requires forall b :: b in s ==> IsDigit(b)
    ensures Digits(s) == |s|
  {
    if s != [] {
      assert s[0] in s;
      forall b | b in s[1..] ensures IsDigit(b) { assert b in s; }
      AllDigits(s[1..]);
    }
  }

  /** The text MySQL sends for an integer. */
  function IntText(v: int): seq<byte>
  {
    if v < 0 then [45] + Padded(-v, 1) else Padded(v, 1)
  }

  /** The decimal text of an integer converts back to it, or to the nearest `long`, and to the end, and has no NUL in it. */
  lemma StrTolIntText(v: int)
    ensures StrTol(IntText(v)) == (Clamp(v), |IntText(v)|)
    ensures LONG_MIN <= v <= LONG_MAX <==> Clamp(v) == v
    ensures UpToNul(IntText(v)) == IntText(v)
  {
    var a := if v < 0 then -v else v;
    hide StrTol, UpToNul, DigitsValue, Padded;
    PaddedValue(a, 1);
    StrTolDigits(v < 0, Padded(a, 1));
  }

  /** One optional minus sign and digits are converted to the end. */
  lemma StrTolDigits(neg: bool, d: seq<byte>)
    requires d != [] && forall b :: b in d ==> IsDigit(b)
    ensures var s := if neg then [45] + d else d;
            StrTol(s) == (Clamp(if neg then -DigitsValue(d) else DigitsValue(d)), |s|) && UpToNul(s) == s
  {
    hide DigitsValue, Clamp, UpToNul, SignedDigits;
    var s := if neg then [45] + d else d;
    assert d[0] in d && s[0] == (if neg then 45 else d[0]);
    SignedParts(neg, d);
    assert s[0..] == s;
    UpToNulWhole(s);
  }

  /** The same for a zero-padded field of a date. */
  lemma StrTolPadded(v: nat, width: nat)
    requires v <= LONG_MAX && width > 0
    ensures StrTol(Padded(v, width)) == (v, |Padded(v, width)|)
    ensures UpToNul(Padded(v, width)) == Padded(v, width)
  {
    PaddedValue(v, width);
    StrTolDigits(false, Padded(v, width));
  }

  lemma {:induction false} PaddedWidth(v: nat, width: nat)
    requires v < Pow(width)
    ensures |Padded(v, width)| == width
    decreases width
  {
    if width > 0 { PaddedWidth(v / 10, width - 1); }
  }

  function Pow(n: nat): (r: nat)
    ensures r > 0
  {
    if n == 0 then 1 else 10 * Pow(n - 1)
  }

  /* Decimal fractions. */

  const DOT: byte := 46
  const EXPONENT: byte := 101

  /** The text MySQL sends for a FLOAT or DOUBLE, or for a DECIMAL: the whole part, `places` digits behind the point, and a
      power of ten if there is one. */
  function FloatText(minus: bool, whole: nat, part: nat, places: nat, exponent: int): seq<byte>
  {
    var e := if exponent != 0 then [EXPONENT] + IntText(exponent) else [];
    (if minus then [45] else []) + (Padded(whole, 1) + (if places > 0 then [DOT] + (Padded(part, places) + e) else e))
  }

  /** The number it stands for. */
  function FloatValue(minus: bool, whole: nat, part: nat, places: nat, exponent: int): real
  {
    Scaled(minus, whole * Pow(places) + part, exponent - places)
  }

  /** That is, the whole part and so many parts of a power of ten, times a power of ten. */
  lemma FloatMeans(whole: nat, part: nat, places: nat, exponent: int)
    ensures FloatValue(false, whole, part, places, 0) == whole as real + part as real / Pow(places) as real
    ensures FloatValue(true, whole, part, places, exponent) == -FloatValue(false, whole, part, places, exponent)
    ensures FloatValue(false, whole, part, places, exponent + 1) == 10.0 * FloatValue(false, whole, part, places, exponent)
  {
    hide Pow, Pow10;
    Pow10Next(exponent - places);
    Tenfold((whole * Pow(places) + part) as real, Pow10(exponent - places));
    Pow10Inverse(places);
    var p, q := Pow(places) as real, Pow10(-(places as int));
    Spread(whole as real, part as real, p, q);
    assert (whole * Pow(places) + part) as real == whole as real * p + part as real;
  }

  lemma Spread(w: real, r: real, p: real, q: real)
    requires p > 0.0 && q * p == 1.0
    ensures (w * p + r) * q == w + r / p
  {
    assert q == 1.0 / p;
    assert (w * p + r) * q == w * (p * q) + r * q;
  }

  lemma Tenfold(v: real, p: real)
    ensures v * (10.0 * p) == 10.0 * (v * p)
  {}

  lemma {:induction false} Pow10Inverse(n: nat)
    ensures Pow10(-(n as int)) * Pow(n) as real == 1.0
  {
    if n > 0 {
      Pow10Inverse(n - 1);
      var p, q := Pow(n - 1) as real, Pow10(1 - n as int);
      assert Pow(n) as real == 10.0 * p && Pow10(-(n as int)) == q / 10.0;
      assert (q / 10.0) * (10.0 * p) == q * p;
    }
  }

  /** One more power of ten. */
  lemma Pow10Next(e: int)
    ensures Pow10(e + 1) == 10.0 * Pow10(e) && Pow10(0) == 1.0
  {}

  predicate AllDigit(s: seq<byte>)
  {
    forall b :: b in s ==> IsDigit(b)
  }

  /** A run of digits ends before anything else. */
  lemma {:induction false} DigitsStop(d: seq<byte>, rest: seq<byte>)
    requires AllDigit(d) && (rest != [] ==> !IsDigit(rest[0]))
    ensures Digits(d + rest) == |d|
  {
    if d == [] {
      assert d + rest == rest;
    } else {
      assert d[0] in d && (d + rest)[1..] == d[1..] + rest;
      forall b | b in d[1..] ensures IsDigit(b) { assert b in d; }
      DigitsStop(d[1..], rest);
    }
  }

  /** Digits before and behind a point make one number. */
  lemma {:induction false} DigitsJoin(a: nat, b: nat, width: nat)
    requires b < Pow(width)
    ensures DigitsValue(Padded(a, 1) + Padded(b, width)) == a * Pow(width) + b
    decreases width
  {
    hide DigitsValue;
    if width == 0 {
      assert Padded(a, 1) + Padded(b, 0) == Padded(a, 1);
      PaddedValue(a, 1);
    } else {
      var s, t := Padded(a, 1) + Padded(b / 10, width - 1), 48 + b % 10;
      assert Padded(a, 1) + Padded(b, width) == s + [t];
      DigitsJoin(a, b / 10, width - 1);
      DigitsMore(s, t);
    }
  }

  lemma DigitsMore(s: seq<byte>, t: byte)
    ensures DigitsValue(s + [t]) == 10 * DigitsValue(s) + (t as int - 48)
  {
    assert (s + [t])[..|s + [t]| - 1] == s;
  }

  lemma SignedRead(v: int)
    ensures SignedDigits(IntText(v)) == (v, |IntText(v)|)
  {
    hide SignedDigits, DigitsValue, Padded;
    var a := if v < 0 then -v else v;
    PaddedValue(a, 1);
    SignedParts(v < 0, Padded(a, 1));
  }

  lemma SignedParts(minus: bool, d: seq<byte>)
    requires d != [] && forall b :: b in d ==> IsDigit(b)
    ensures var s := if minus then [45] + d else d;
            SignedDigits(s) == (if minus then -DigitsValue(d) else DigitsValue(d), |s|)
  {
    hide DigitsValue;
    var s, g := if minus then [45] + d else d, if minus then 1 else 0;
    assert d[0] in d;
    assert Sign(s) == g && Minus(s) == minus;
    assert s[g..] == d && s[g..g + |d|] == d;
    AllDigits(d);
  }

  /** What stands behind the whole part. */
  function Rest(point: bool, b: seq<byte>, e: seq<byte>): seq<byte>
  {
    if point then [DOT] + (b + e) else e
  }

  lemma FractionRead(a: seq<byte>, point: bool, b: seq<byte>, e: seq<byte>)
    requires (!point ==> b == []) && (e != [] ==> e[0] == EXPONENT) && a != [] && AllDigit(b)
    ensures Fraction(a, Rest(point, b, e)) == (DigitsValue(a + b), |b|, |a| + (if point then 1 else 0) + |b|)
  {
    hide DigitsValue, Digits, AllDigit;
    if point {
      DigitsStop(b, e);
      var rest := [DOT] + (b + e);
      assert rest[1..] == b + e;
      assert rest[1..1 + |b|] == rest[1..][..|b|] == b;
    } else {
      assert a + b == a;
    }
  }

  lemma FractionEnds(a: seq<byte>, point: bool, b: seq<byte>, e: seq<byte>)
    requires !point ==> b == []
    ensures var t, n := a + Rest(point, b, e), |a| + (if point then 1 else 0) + |b|; n <= |t| && t[n..] == e
  {
    assert point ==> a + Rest(point, b, e) == (a + [DOT] + b) + e;
  }

  /** Sign, digits, point, digits and exponent, read one behind the other. */
  lemma StrTodParts(sign: seq<byte>, a: seq<byte>, point: bool, b: seq<byte>, e: seq<byte>)
    requires (sign == [] || sign == [45]) && (!point ==> b == []) && a != [] && AllDigit(a) && AllDigit(b)
    requires e != [] ==> e[0] == EXPONENT
    ensures var (x, n) := Exponent(e);
            var r := StrTod(sign + (a + Rest(point, b, e)));
            r.0 == Scaled(sign != [], DigitsValue(a + b), x - |b|) && r.1 == |sign| + |a| + (if point then 1 else 0) + |b| + n
  {
    hide StrTod, Scaled, DigitsValue, Digits, Exponent, Fraction, Spaces, Sign, Minus, AllDigit, Rest;
    FirstOf(sign, a, Rest(point, b, e));
    FractionOf(a, point, b, e);
    StrTodUnsigned(sign, a + Rest(point, b, e));
  }

  lemma FractionOf(a: seq<byte>, point: bool, b: seq<byte>, e: seq<byte>)
    requires (!point ==> b == []) && (e != [] ==> e[0] == EXPONENT) && a != [] && AllDigit(a) && AllDigit(b)
    ensures var t, n := a + Rest(point, b, e), |a| + (if point then 1 else 0) + |b|;
            && Fraction(t[..Digits(t)], t[Digits(t)..]) == (DigitsValue(a + b), |b|, n)
            && n <= |t| && t[n..] == e
  {
    hide DigitsValue, Digits, Fraction, AllDigit, Rest;
    var rest := Rest(point, b, e);
    FractionRead(a, point, b, e);
    FractionEnds(a, point, b, e);
    RestStops(point, b, e);
    DigitsStop(a, rest);
    assert (a + rest)[..|a|] == a && (a + rest)[|a|..] == rest;
  }

  lemma StrTodUnsigned(sign: seq<byte>, t: seq<byte>)
    requires var s := sign + t; Spaces(s) == 0 && Sign(s) == |sign| && (Minus(s) <==> sign != [])
    ensures var (m, f, n) := Fraction(t[..Digits(t)], t[Digits(t)..]);
            var r := StrTod(sign + t);
            n > 0 ==>
              var (x, k) := Exponent(t[n..]);
              r.0 == Scaled(sign != [], m, x - f) && r.1 == |sign| + n + k
  {
    hide Scaled, DigitsValue, Digits, Exponent, Fraction, Spaces, Sign, Minus;
    var s := sign + t;
    assert s[0..] == s && s[|sign|..] == t;
  }

  lemma RestStops(point: bool, b: seq<byte>, e: seq<byte>)
    requires e != [] ==> e[0] == EXPONENT
    ensures var r := Rest(point, b, e); r != [] ==> !IsDigit(r[0])
  {}

  lemma FirstOf(sign: seq<byte>, a: seq<byte>, rest: seq<byte>)
    requires (sign == [] || sign == [45]) && a != [] && AllDigit(a)
    ensures var s := sign + (a + rest);
            Spaces(s) == 0 && Sign(s) == |sign| && (Minus(s) <==> sign != [])
  {
    assert a[0] in a;
    var s := sign + (a + rest);
    assert s[0] == if sign == [] then a[0] else 45;
  }

  /** The text is converted to the number it stands for, and to its end. */
  lemma StrTodFloat(minus: bool, whole: nat, part: nat, places: nat, exponent: int)
    requires part < Pow(places)
    ensures var s := FloatText(minus, whole, part, places, exponent);
            StrTod(s).0 == FloatValue(minus, whole, part, places, exponent) && StrTod(s).1 == |s|
  {
    hide DigitsValue, Padded, IntText, Scaled, Pow, StrTod, Exponent;
    var a, sign: seq<byte> := Padded(whole, 1), if minus then [45] else [];
    var b: seq<byte>, e: seq<byte> := if places > 0 then Padded(part, places) else [],
                                      if exponent != 0 then [EXPONENT] + IntText(exponent) else [];
    StrTodParts(sign, a, places > 0, b, e);
    FloatDigits(whole, part, places);
    ExponentRead(exponent);
  }

  lemma FloatDigits(whole: nat, part: nat, places: nat)
    requires part < Pow(places)
    ensures var b: seq<byte> := if places > 0 then Padded(part, places) else [];
            |b| == places && DigitsValue(Padded(whole, 1) + b) == whole * Pow(places) + part
  {
    hide DigitsValue;
    DigitsJoin(whole, part, places);
    PaddedWidth(part, places);
  }

  lemma ExponentRead(exponent: int)
    ensures var e: seq<byte> := if exponent != 0 then [EXPONENT] + IntText(exponent) else [];
            Exponent(e) == (exponent, |e|)
  {
    hide SignedDigits, IntText;
    SignedRead(exponent);
    if exponent != 0 { assert ([EXPONENT] + IntText(exponent))[1..] == IntText(exponent); }
    assert |IntText(exponent)| > 0 by { IntTextSize(exponent); }
  }

  lemma IntTextSize(v: int)
    ensures |IntText(v)| > 0
  {}

  lemma FloatPlain(minus: bool, whole: nat, part: nat, places: nat, exponent: int)
    ensures UpToNul(FloatText(minus, whole, part, places, exponent)) == FloatText(minus, whole, part, places, exponent)
  {
    hide Padded;
    UpToNulWhole(FloatText(minus, whole, part, places, exponent));
  }

  /** A whole number stops at the point of a fraction. */
  lemma StrTolFraction(minus: bool, whole: nat, part: nat, places: nat)
    requires places > 0
    ensures var s := FloatText(minus, whole, part, places, 0); StrTol(s).1 < |s|
  {
    hide DigitsValue, Padded, Digits;
    var sign: seq<byte>, a := if minus then [45] else [], Padded(whole, 1);
    var rest := [DOT] + (Padded(part, places) + []);
    var s := FloatText(minus, whole, part, places, 0);
    FirstOf(sign, a, rest);
    assert s == sign + (a + rest) && s[0..] == s && s[|sign|..] == a + rest;
    DigitsStop(a, rest);
  }
}
