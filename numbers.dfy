/** Decimal numbers as the core reads and writes them: Python's `float()` on
    a string, the numeric-literal scan of a path's `d` attribute, and the
    `:.4f` and `str(int(...))` formatting used when a crop is written. */
module Numbers {
  import opened Wrappers
  import opened Text

  predicate IsDigit(c: char) {
    '0' <= c <= '9'
  }

  predicate IsSign(c: char) {
    c == '+' || c == '-'
  }

  predicate IsExponentMark(c: char) {
    c == 'e' || c == 'E'
  }

  predicate AllDigits(s: string) {
    forall k :: 0 <= k < |s| ==> IsDigit(s[k])
  }

  /** Index just past the run of ASCII digits that starts at `i`. */
  function DigitsEnd(s: string, i: nat): (j: nat)
    requires i <= |s|
    ensures i <= j <= |s|
    ensures forall k :: i <= k < j ==> IsDigit(s[k])
    ensures j == |s| || !IsDigit(s[j])
    decreases |s| - i
  {
    if i < |s| && IsDigit(s[i]) then DigitsEnd(s, i + 1) else i
  }

  /** The digit run is determined by where the digits stop. */
  lemma DigitsEndAt(s: string, i: nat, j: nat)
    requires i <= j <= |s|
    requires forall k :: i <= k < j ==> IsDigit(s[k])
    requires j == |s| || !IsDigit(s[j])
    ensures DigitsEnd(s, i) == j
  {
  }

  /** Inside a slice `s[lo..hi]` a digit run ends where it ends in `s`, or at
      the end of the slice. */
  lemma {:induction false} DigitsEndSlice(s: string, lo: nat, hi: nat, i: nat)
    requires lo <= i <= hi <= |s|
    ensures DigitsEnd(s[lo..hi], i - lo) + lo == if DigitsEnd(s, i) < hi then DigitsEnd(s, i) else hi
    decreases hi - i
  {
    if i < hi {
      assert s[lo..hi][i - lo] == s[i];
      if IsDigit(s[i]) {
        DigitsEndSlice(s, lo, hi, i + 1);
      }
    }
  }

  function DigitValue(c: char): nat {
    if IsDigit(c) then c as int - '0' as int else 0
  }

  function DigitChar(n: nat): (c: char)
    requires n < 10
    ensures IsDigit(c) && DigitValue(c) == n
  {
    ('0' as int + n) as char
  }

  /** The natural number a string of decimal digits denotes. */
  function DigitsValue(ds: string): nat {
    if ds == [] then 0 else 10 * DigitsValue(ds[..|ds| - 1]) + DigitValue(ds[|ds| - 1])
  }

  function Pow10(n: nat): (p: nat)
    ensures p >= 1
  {
    if n == 0 then 1 else 10 * Pow10(n - 1)
  }

  /** Where the parts of a decimal literal end: the sign (`q`), the integer
      digits (`j`), the point and fraction (`k`, equal to `j` when there is
      no point), and the exponent digits, which run from `m` to `n`
      (`m == n == k` when there is no exponent). */
  datatype Shape = Shape(q: nat, j: nat, k: nat, m: nat, n: nat)

  function SignEnd(t: string): (q: nat)
    ensures q <= |t|
  {
    if 0 < |t| && IsSign(t[0]) then 1 else 0
  }

  function FractionEnd(t: string, j: nat): (k: nat)
    requires j <= |t|
    ensures j <= k <= |t|
  {
    if j < |t| && t[j] == '.' then DigitsEnd(t, j + 1) else j
  }

  function ExponentDigitsStart(t: string, k: nat): (m: nat)
    requires k < |t|
    ensures k < m <= |t|
  {
    if k + 1 < |t| && IsSign(t[k + 1]) then k + 2 else k + 1
  }

  /** The layout of `t` when all of `t` is one decimal literal as Python's
      `float()` reads it once the surrounding whitespace is gone: an
      optional sign, digits with an optional fraction (at least one digit in
      all), an optional exponent, and nothing else. */
  function LiteralShape(t: string): (r: Option<Shape>)
    ensures r.Some? ==> r.value.q <= r.value.j <= r.value.k <= r.value.m <= r.value.n == |t|
  {
    var q := SignEnd(t);
    var j := DigitsEnd(t, q);
    var k := FractionEnd(t, j);
    if j == q && k <= j + 1 then None
    else if k < |t| && IsExponentMark(t[k]) then
      var m := ExponentDigitsStart(t, k);
      var n := DigitsEnd(t, m);
      if n == m || n < |t| then None else Some(Shape(q, j, k, m, n))
    else if k < |t| then None
    else Some(Shape(q, j, k, k, k))
  }

  /** The value of the digits `ds` read after a decimal point, by Horner's
      rule from the last digit back: `.d0 d1 ...` is `(d0 + .d1 ...) / 10`. */
  function Fraction(ds: string): real
    decreases |ds|
  {
    if ds == [] then 0.0 else (DigitValue(ds[0]) as real + Fraction(ds[1..])) / 10.0
  }

  /** `x` times ten to the power `e`, one factor of ten at a time. */
  function Scaled(x: real, e: int): real
    decreases if e < 0 then -e else e
  {
    if e == 0 then x
    else if e > 0 then 10.0 * Scaled(x, e - 1)
    else Scaled(x, e + 1) / 10.0
  }

  /** The number a literal of that layout denotes. */
  function LiteralValue(t: string, sh: Shape): real
    requires sh.q <= sh.j <= sh.k <= sh.m <= sh.n <= |t|
  {
    var whole := DigitsValue(t[sh.q..sh.j]) as real;
    var fraction := if sh.k > sh.j then Fraction(t[sh.j + 1..sh.k]) else 0.0;
    var e: int := DigitsValue(t[sh.m..sh.n]);
    var exponent := if sh.m == sh.k + 2 && t[sh.k + 1] == '-' then -e else e;
    var magnitude := Scaled(whole + fraction, exponent);
    if sh.q == 1 && t[0] == '-' then -magnitude else magnitude
  }

  /** Python's `float()` on a string already stripped of whitespace. */
  function ParseLiteral(t: string): Option<real> {
    match LiteralShape(t)
    case None => None
    case Some(sh) => Some(LiteralValue(t, sh))
  }

  /** Python's `float(s)` on a decimal literal: `None` where Python raises
      `ValueError`. Whitespace around the literal is ignored, one character
      at a time from either end. */
  function ParseFloat(s: string): Option<real>
    decreases |s|
  {
    if s != [] && IsSpace(s[0]) then ParseFloat(s[1..])
    else if s != [] && IsSpace(s[|s| - 1]) then ParseFloat(s[..|s| - 1])
    else ParseLiteral(s)
  }

  /** `float(s)` reads the literal `s.strip()`. */
  lemma {:induction false} ParseFloatStrips(s: string)
    ensures ParseFloat(s) == ParseLiteral(Strip(s))
    decreases |s|
  {
    if s != [] && IsSpace(s[0]) {
      ParseFloatStrips(s[1..]);
    } else if s != [] && IsSpace(s[|s| - 1]) {
      var u := s[..|s| - 1];
      ParseFloatStrips(u);
      assert StripLeft(s) == s;
      assert u != [] ==> u[0] == s[0];
      assert StripLeft(u) == u;
    }
  }

  /** A literal with no whitespace at either end is read as it is. */
  lemma ParseFloatTrimmed(t: string)
    requires t == [] || (!IsSpace(t[0]) && !IsSpace(t[|t| - 1]))
    ensures ParseFloat(t) == ParseLiteral(t)
  {
  }

  /** Every character of a literal is a sign, a digit, a point or an
      exponent mark; none is whitespace. */
  lemma LiteralHasNoSpace(t: string)
    requires LiteralShape(t).Some?
    ensures forall k :: 0 <= k < |t| ==> !IsSpace(t[k])
  {
    var sh := LiteralShape(t).value;
    forall k | 0 <= k < |t|
      ensures !IsSpace(t[k])
    {
      if k < sh.j || sh.m <= k {
        assert IsSign(t[k]) || IsDigit(t[k]);
      } else if k < sh.k {
        assert t[k] == '.' || IsDigit(t[k]);
      } else {
        assert IsExponentMark(t[k]) || IsSign(t[k]);
      }
    }
  }

  /** `float()` raises on a string with whitespace between its first and
      last non-space characters, such as two numbers separated by a tab. */
  lemma InnerSpaceRejected(t: string, i: nat)
    requires t != [] && !IsSpace(t[0]) && !IsSpace(t[|t| - 1])
    requires i < |t| && IsSpace(t[i])
    ensures ParseFloat(t) == None
  {
    ParseFloatTrimmed(t);
    if LiteralShape(t).Some? {
      LiteralHasNoSpace(t);
    }
  }

  /* ---- the scan `re.findall(r'[-+]?[0-9]*\.?[0-9]+(?:[eE][-+]?[0-9]+)?', d)` ---- */

  /** Where an exponent `[eE][-+]?[0-9]+` that may start at `k` ends (`k` when
      there is none). */
  function ExponentEnd(s: string, k: nat): (e: nat)
    requires k <= |s|
    ensures k <= e <= |s|
  {
    if k < |s| && IsExponentMark(s[k]) then
      var m := ExponentDigitsStart(s, k);
      if m < |s| && IsDigit(s[m]) then DigitsEnd(s, m) else k
    else k
  }

  /** Where the sign `[-+]?` that may start at `p` ends. */
  function ScanSignEnd(s: string, p: nat): (q: nat)
    requires p <= |s|
    ensures p <= q <= |s|
  {
    if p < |s| && IsSign(s[p]) then p + 1 else p
  }

  /** Where `[0-9]*\.?[0-9]+` starting at `q` ends, or `q` when it does not
      match there. The greedy `[0-9]*` gives back its last digit when no
      `.digit` follows, so the mantissa is the digit run, extended by a
      fraction only when a digit follows the point. */
  function MantissaEnd(s: string, q: nat): (k: nat)
    requires q <= |s|
    ensures q <= k <= |s|
  {
    var j := DigitsEnd(s, q);
    if j + 1 < |s| && s[j] == '.' && IsDigit(s[j + 1]) then DigitsEnd(s, j + 1) else j
  }

  /** End of the regular expression's match at `p`, or `p` itself when it
      does not match there. */
  function MatchEnd(s: string, p: nat): (e: nat)
    requires p <= |s|
    ensures p <= e <= |s|
  {
    var q := ScanSignEnd(s, p);
    var k := MantissaEnd(s, q);
    if k == q then p else ExponentEnd(s, k)
  }

  /** The layout of a literal is read off its parts' ends. */
  lemma ShapeWithExponent(t: string, q: nat, j: nat, k: nat, m: nat)
    requires SignEnd(t) == q && q <= |t| && DigitsEnd(t, q) == j && FractionEnd(t, j) == k
    requires !(j == q && k <= j + 1)
    requires k < |t| && IsExponentMark(t[k]) && ExponentDigitsStart(t, k) == m
    requires m < |t| && DigitsEnd(t, m) == |t|
    ensures LiteralShape(t) == Some(Shape(q, j, k, m, |t|))
  {
  }

  lemma ShapeWithoutExponent(t: string, q: nat, j: nat, k: nat)
    requires SignEnd(t) == q && q <= |t| && DigitsEnd(t, q) == j && FractionEnd(t, j) == k
    requires !(j == q && k <= j + 1)
    requires k == |t|
    ensures LiteralShape(t) == Some(Shape(q, j, k, k, k))
  {
  }

  /** The exponent the scan takes is read alike by `float()`. */
  lemma ExponentInSlice(s: string, p: nat, k: nat, e: nat)
    requires p <= k < e <= |s| && e == ExponentEnd(s, k)
    ensures var t := s[p..e];
      k - p < |t| && IsExponentMark(t[k - p])
      && ExponentDigitsStart(t, k - p) + p == ExponentDigitsStart(s, k)
      && DigitsEnd(t, ExponentDigitsStart(t, k - p)) == |t|
      && ExponentDigitsStart(s, k) < e
  {
    var t := s[p..e];
    var m := ExponentDigitsStart(s, k);
    assert m < |s| && IsDigit(s[m]) && e == DigitsEnd(s, m);
    assert t[k - p] == s[k];
    if k + 1 < e {
      assert t[k + 1 - p] == s[k + 1];
    }
    assert ExponentDigitsStart(t, k - p) + p == m;
    DigitsEndSlice(s, p, e, m);
  }

  /** The sign the scan takes is read alike by `float()`. */
  lemma SignInSlice(s: string, p: nat, e: nat, t: string)
    requires p < e <= |s| && t == s[p..e]
    ensures SignEnd(t) + p == ScanSignEnd(s, p)
  {
    assert t[0] == s[p];
  }

  /** So is the fraction that follows the integer digits ending at `j`. */
  lemma FractionInSlice(s: string, p: nat, j: nat, k: nat, e: nat, t: string)
    requires p <= j <= k <= |s|
    requires k == if j + 1 < |s| && s[j] == '.' && IsDigit(s[j + 1]) then DigitsEnd(s, j + 1) else j
    requires e == ExponentEnd(s, k) && t == s[p..e]
    ensures FractionEnd(t, j - p) + p == k
  {
    if j + 1 < |s| && s[j] == '.' && IsDigit(s[j + 1]) {
      assert t[j - p] == s[j];
      DigitsEndSlice(s, p, e, j + 1);
    } else if j < e {
      assert t[j - p] == s[j];
      assert IsExponentMark(s[j]);
    }
  }

  /** The sign and mantissa the scan takes are read alike by `float()`. */
  lemma MantissaInSlice(s: string, p: nat, q: nat, j: nat, k: nat, e: nat, t: string)
    requires p <= |s| && q == ScanSignEnd(s, p) && j == DigitsEnd(s, q) && k == MantissaEnd(s, q)
    requires e == MatchEnd(s, p) > p && t == s[p..e]
    ensures SignEnd(t) + p == q && DigitsEnd(t, q - p) + p == j && FractionEnd(t, j - p) + p == k
    ensures q <= j <= k <= e && !(j == q && k <= j + 1) && e == ExponentEnd(s, k)
  {
    SignInSlice(s, p, e, t);
    DigitsEndSlice(s, p, e, q);
    FractionInSlice(s, p, j, k, e, t);
  }

  /** What the scan matches starts with a sign, a digit or a point and ends
      with a digit. */
  lemma MatchEndsOf(s: string, p: nat, e: nat, t: string)
    requires p <= |s| && e == MatchEnd(s, p) > p && t == s[p..e]
    ensures (IsSign(t[0]) || IsDigit(t[0]) || t[0] == '.') && IsDigit(t[|t| - 1])
  {
    MatchEnds(s, p);
    assert t[|t| - 1] == s[e - 1];
    assert t[0] == s[p];
  }

  /** What the scan matches is a complete literal. */
  lemma MatchShapeOf(s: string, p: nat, e: nat, t: string)
    requires p <= |s| && e == MatchEnd(s, p) > p && t == s[p..e]
    ensures LiteralShape(t).Some?
  {
    var q := ScanSignEnd(s, p);
    var j := DigitsEnd(s, q);
    var k := MantissaEnd(s, q);
    MantissaInSlice(s, p, q, j, k, e, t);
    ScannedShape(s, p, q, j, k, e, t);
  }

  lemma ScannedShape(s: string, p: nat, q: nat, j: nat, k: nat, e: nat, t: string)
    requires p <= q <= j <= k <= e <= |s| && t == s[p..e]
    requires SignEnd(t) + p == q && DigitsEnd(t, q - p) + p == j && FractionEnd(t, j - p) + p == k
    requires !(j == q && k <= j + 1) && e == ExponentEnd(s, k)
    ensures LiteralShape(t).Some?
  {
    MantissaShape(t, q - p, j - p, k - p, e - p, s, p);
  }

  lemma MantissaShape(t: string, q: nat, j: nat, k: nat, e: nat, s: string, p: nat)
    requires SignEnd(t) == q && q <= j <= k <= e == |t| && DigitsEnd(t, q) == j && FractionEnd(t, j) == k
    requires !(j == q && k <= j + 1)
    requires p + e <= |s| && t == s[p..p + e] && p + e == ExponentEnd(s, p + k)
    ensures LiteralShape(t).Some?
  {
    if e > k {
      ExponentInSlice(s, p, p + k, p + e);
      ShapeWithExponent(t, q, j, k, ExponentDigitsStart(s, p + k) - p);
    } else {
      ShapeWithoutExponent(t, q, j, k);
    }
  }

  /** A match starts with a sign, a digit or a point and ends with a digit. */
  lemma MatchEnds(s: string, p: nat)
    requires p <= |s| && MatchEnd(s, p) > p
    ensures IsSign(s[p]) || IsDigit(s[p]) || s[p] == '.'
    ensures IsDigit(s[MatchEnd(s, p) - 1])
  {
    var q := ScanSignEnd(s, p);
    var j := DigitsEnd(s, q);
    var k := MantissaEnd(s, q);
    var e := MatchEnd(s, p);
    if e > k {
      var m := ExponentDigitsStart(s, k);
      assert m < |s| && IsDigit(s[m]) && e == DigitsEnd(s, m);
    } else if j + 1 < |s| && s[j] == '.' && IsDigit(s[j + 1]) {
      assert e == DigitsEnd(s, j + 1);
    }
  }

  /** Every literal the scan finds is one that `float()` accepts, so the
      conversions in the path scan never raise. */
  lemma MatchParses(s: string, p: nat)
    requires p <= |s| && MatchEnd(s, p) > p
    ensures ParseFloat(s[p..MatchEnd(s, p)]).Some?
  {
    var e := MatchEnd(s, p);
    MatchedLiteral(s, p, e, s[p..e]);
  }

  lemma MatchedLiteral(s: string, p: nat, e: nat, t: string)
    requires p <= |s| && e == MatchEnd(s, p) > p && t == s[p..e]
    ensures ParseFloat(t).Some?
  {
    MatchShapeOf(s, p, e, t);
    MatchEndsOf(s, p, e, t);
    NotSpace(t[0]);
    NotSpace(t[|t| - 1]);
    ParseFloatTrimmed(t);
  }

  /** The literals `re.findall` returns, scanning from `p`. */
  function ScanFrom(s: string, p: nat): (toks: seq<string>)
    requires p <= |s|
    ensures forall t :: t in toks ==> ParseFloat(t).Some?
    decreases |s| - p
  {
    if p == |s| then []
    else
      var e := MatchEnd(s, p);
      if e == p then ScanFrom(s, p + 1)
      else
        MatchParses(s, p);
        assert ParseFloat(s[p..e]).Some?;
        [s[p..e]] + ScanFrom(s, e)
  }

  function ScanNumbers(s: string): (toks: seq<string>)
    ensures forall t :: t in toks ==> ParseFloat(t).Some?
  {
    ScanFrom(s, 0)
  }

  /** A string without a digit holds no numeric literal. */
  lemma {:induction false} NoDigitsNoNumbers(s: string, p: nat)
    requires p <= |s|
    requires forall i :: p <= i < |s| ==> !IsDigit(s[i])
    ensures ScanFrom(s, p) == []
    decreases |s| - p
  {
    if p < |s| {
      var q := if IsSign(s[p]) then p + 1 else p;
      assert DigitsEnd(s, q) == q;
      assert MatchEnd(s, p) == p;
      NoDigitsNoNumbers(s, p + 1);
    }
  }

  /** The values of scanned literals, in order. */
  function Values(toks: seq<string>): (vs: seq<real>)
    requires forall t :: t in toks ==> ParseFloat(t).Some?
    ensures |vs| == |toks|
    ensures forall i :: 0 <= i < |toks| ==> vs[i] == ParseFloat(toks[i]).value
  {
    if toks == [] then []
    else
      var vs := [ParseFloat(toks[0]).value] + Values(toks[1..]);
      assert forall i :: 1 <= i < |toks| ==> toks[i] == toks[1..][i - 1];
      vs
  }

  /* ---- formatting ---- */

  function NatToString(n: nat): (s: string)
    ensures s != [] && AllDigits(s) && DigitsValue(s) == n
  {
    if n < 10 then [DigitChar(n)]
    else
      var s := NatToString(n / 10) + [DigitChar(n % 10)];
      assert s[..|s| - 1] == NatToString(n / 10);
      s
  }

  /** `str(i)` for a Python int. */
  function IntToString(i: int): (s: string)
    ensures s != []
  {
    if i < 0 then "-" + NatToString(-i) else NatToString(i)
  }

  /** `math.ceil` */
  function Ceil(x: real): (n: int)
    ensures x <= n as real < x + 1.0
  {
    -((-x).Floor)
  }

  function Abs(x: real): real {
    if x < 0.0 then -x else x
  }

  /** Rounding to the nearest integer, ties to the even one (the rule of
      Python's fixed-point formatting). */
  function RoundHalfEven(x: real): (n: int)
    ensures x - 0.5 <= n as real <= x + 0.5
    ensures (n as real == x - 0.5 || n as real == x + 0.5) ==> n % 2 == 0
  {
    var f := x.Floor;
    var frac := x - f as real;
    if frac < 0.5 then f
    else if frac > 0.5 then f + 1
    else if f % 2 == 0 then f
    else f + 1
  }

  /** The last `width` decimal digits of `b`, with leading zeros. */
  function PadDigits(b: nat, width: nat): (s: string)
    requires b < Pow10(width)
    ensures |s| == width && AllDigits(s) && DigitsValue(s) == b
  {
    if width == 0 then []
    else
      var s := PadDigits(b / 10, width - 1) + [DigitChar(b % 10)];
      assert s[..|s| - 1] == PadDigits(b / 10, width - 1);
      s
  }

  /** `n` ten-thousandths written with four decimals, after a minus sign
      when `neg`. */
  function TenThousandths(neg: bool, n: nat): string {
    (if neg then "-" else "") + NatToString(n / 10000) + "." + PadDigits(n % 10000, 4)
  }

  /** The number `TenThousandths(neg, n)` denotes. */
  function SignedTenThousandths(neg: bool, n: nat): real {
    if neg then -(n as real / 10000.0) else n as real / 10000.0
  }

  /** `|v|` in ten-thousandths, rounded half to even. */
  function Magnitude4(v: real): (n: nat)
    ensures Abs(v) * 10000.0 - 0.5 <= n as real <= Abs(v) * 10000.0 + 0.5
  {
    RoundHalfEven(Abs(v) * 10000.0)
  }

  /** `f"{v:.4f}"` */
  function FixedPoint4(v: real): string {
    TenThousandths(v < 0.0, Magnitude4(v))
  }

  /** The number `FixedPoint4(v)` writes: `v` rounded to four decimals. */
  function Rounded4(v: real): (r: real)
    ensures Abs(r - v) <= 0.00005
  {
    SignedTenThousandths(v < 0.0, Magnitude4(v))
  }

  lemma TenThousandthsParse(neg: bool, n: nat)
    ensures ParseFloat(TenThousandths(neg, n)) == Some(SignedTenThousandths(neg, n))
  {
    TenThousandthsDigits(neg, n, NatToString(n / 10000), PadDigits(n % 10000, 4), TenThousandths(neg, n));
  }

  lemma TenThousandthsDigits(neg: bool, n: nat, a: string, b: string, t: string)
    requires a == NatToString(n / 10000) && b == PadDigits(n % 10000, 4)
    requires t == (if neg then "-" else "") + a + "." + b
    ensures ParseFloat(t) == Some(SignedTenThousandths(neg, n))
  {
    TenThousandthsValue(n, a, b);
    ParsePointed(neg, a, b, t, SignedTenThousandths(neg, n));
  }

  /** A string made of digits, points and minus signs that starts with a
      minus sign or a digit and ends with a digit, as `:.4f` writes them. */
  predicate Numeral(t: string) {
    t != [] && (t[0] == '-' || IsDigit(t[0])) && IsDigit(t[|t| - 1])
    && forall k :: 0 <= k < |t| ==> IsDigit(t[k]) || t[k] == '-' || t[k] == '.'
  }

  /** What `TenThousandths` writes is a numeral. */
  lemma TenThousandthsChars(neg: bool, n: nat)
    ensures Numeral(TenThousandths(neg, n))
  {
    LiteralChars(neg, NatToString(n / 10000), PadDigits(n % 10000, 4));
  }

  lemma LiteralChars(neg: bool, a: string, b: string)
    requires a != [] && AllDigits(a) && b != [] && AllDigits(b)
    ensures Numeral((if neg then "-" else "") + a + "." + b)
  {
    var sgn := if neg then "-" else "";
    var t := sgn + a + "." + b;
    assert forall k :: 0 <= k < |t| ==> t[k] == if k < |sgn| then '-' else if k < |sgn| + |a| then a[k - |sgn|]
      else if k == |sgn| + |a| then '.' else b[k - |sgn| - |a| - 1];
  }

  /** The whole and fractional digits together denote `n / 10000`. */
  lemma TenThousandthsValue(n: nat, a: string, b: string)
    requires a == NatToString(n / 10000) && b == PadDigits(n % 10000, 4)
    ensures DigitsValue(a) as real + Fraction(b) == n as real / 10000.0
  {
    assert Pow10(4) == 10000;
    FourDigitFraction(b);
    DecimalSplit(n);
  }

  /** Four digits after the point count ten-thousandths. */
  lemma FourDigitFraction(b: string)
    requires |b| == 4
    ensures Fraction(b) == DigitsValue(b) as real / 10000.0
  {
    var d0, d1, d2, d3 := DigitValue(b[0]), DigitValue(b[1]), DigitValue(b[2]), DigitValue(b[3]);
    assert b[1..][0] == b[1] && b[1..][1..] == b[2..];
    assert b[2..][0] == b[2] && b[2..][1..] == b[3..];
    assert b[3..][0] == b[3] && b[3..][1..] == [];
    assert Fraction(b[3..]) == d3 as real / 10.0;
    assert Fraction(b[2..]) == (d2 as real + d3 as real / 10.0) / 10.0;
    assert Fraction(b[1..]) == (d1 as real + Fraction(b[2..])) / 10.0;
    assert b[..3][..2] == b[..2] && b[..2][..1] == b[..1] && b[..1][..0] == [];
    assert DigitsValue(b[..1]) == d0;
    assert DigitsValue(b[..2]) == 10 * d0 + d1;
    assert DigitsValue(b[..3]) == 100 * d0 + 10 * d1 + d2;
  }

  /** The layout of a plain `[-]digits.digits` literal. */
  lemma PointedLiteralShape(neg: bool, a: string, b: string, t: string)
    requires a != [] && AllDigits(a) && b != [] && AllDigits(b)
    requires t == (if neg then "-" else "") + a + "." + b
    ensures LiteralShape(t) == Some(PointedShape(neg, a, b))
    ensures (t[0] == '-' || IsDigit(t[0])) && IsDigit(t[|t| - 1])
  {
    var q := if neg then 1 else 0;
    var j := q + |a|;
    assert t[q..j] == a && t[j] == '.' && t[j + 1..] == b;
    assert SignEnd(t) == q;
    DigitsEndAt(t, q, j);
    DigitsEndAt(t, j + 1, |t|);
    assert FractionEnd(t, j) == |t|;
    ShapeWithoutExponent(t, q, j, |t|);
    assert t[0] == '-' || IsDigit(t[0]);
    assert t[|t| - 1] == b[|b| - 1];
  }

  lemma PointedLayout(neg: bool, a: string, b: string, t: string)
    requires a != [] && AllDigits(a) && b != [] && AllDigits(b)
    requires t == (if neg then "-" else "") + a + "." + b
    ensures ParseFloat(t) == Some(LiteralValue(t, PointedShape(neg, a, b)))
  {
    PointedLiteralShape(neg, a, b, t);
    NotSpace(t[0]);
    NotSpace(t[|t| - 1]);
    ParseFloatOfShape(t, PointedShape(neg, a, b));
  }

  lemma ParseFloatOfShape(t: string, sh: Shape)
    requires t != [] && !IsSpace(t[0]) && !IsSpace(t[|t| - 1]) && LiteralShape(t) == Some(sh)
    ensures ParseFloat(t) == Some(LiteralValue(t, sh))
  {
  }

  function PointedShape(neg: bool, a: string, b: string): Shape {
    var q := if neg then 1 else 0;
    Shape(q, q + |a|, q + |a| + 1 + |b|, q + |a| + 1 + |b|, q + |a| + 1 + |b|)
  }

  lemma NotSpace(c: char)
    requires c == '-' || c == '+' || c == '.' || IsDigit(c)
    ensures !IsSpace(c)
  {
  }

  lemma PointedValue(neg: bool, a: string, b: string, t: string, w: real)
    requires t == (if neg then "-" else "") + a + "." + b
    requires w == if neg then -(DigitsValue(a) as real + Fraction(b)) else DigitsValue(a) as real + Fraction(b)
    ensures LiteralValue(t, PointedShape(neg, a, b)) == w
  {
    var sh := PointedShape(neg, a, b);
    assert t[sh.m..sh.n] == [];
    assert t[sh.j + 1..sh.k] == b && t[sh.q..sh.j] == a;
    assert sh.q == 1 && t[0] == '-' <==> neg;
  }

  /** A plain `[-]digits.digits` literal denotes what it says. */
  lemma ParsePointed(neg: bool, a: string, b: string, t: string, w: real)
    requires a != [] && AllDigits(a) && b != [] && AllDigits(b)
    requires t == (if neg then "-" else "") + a + "." + b
    requires w == if neg then -(DigitsValue(a) as real + Fraction(b)) else DigitsValue(a) as real + Fraction(b)
    ensures ParseFloat(t) == Some(w)
  {
    PointedLayout(neg, a, b, t);
    PointedValue(neg, a, b, t, w);
  }

  lemma DecimalSplit(n: nat)
    ensures (n / 10000) as real + (n % 10000) as real / 10000.0 == n as real / 10000.0
  {
    var hi, lo := n / 10000, n % 10000;
    assert n == 10000 * hi + lo;
  }

  /** Reading back what `:.4f` wrote gives the rounded number. */
  lemma FixedPoint4RoundTrip(v: real)
    ensures ParseFloat(FixedPoint4(v)) == Some(Rounded4(v))
  {
    TenThousandthsParse(v < 0.0, Magnitude4(v));
  }

  /** What `:.4f` writes is a numeral that reads back as the rounded
      number. */
  lemma FixedPoint4Numeral(v: real)
    ensures Numeral(FixedPoint4(v)) && ParseFloat(FixedPoint4(v)) == Some(Rounded4(v))
  {
    TenThousandthsChars(v < 0.0, Magnitude4(v));
    FixedPoint4RoundTrip(v);
  }
}
