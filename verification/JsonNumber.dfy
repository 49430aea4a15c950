/** The number layout of `canonical.py` (`jcs_number`) and a parser for JSON number text.

    A float is an IEEE double by its fields; the shortest digits that Python's `repr` finds for it
    are a parameter, always a normal decimal. */
module JsonNumber {
  import opened Decimal
  import opened Floats
  import opened Outcomes
  import opened Text

  /** `Decimal(repr(f)).normalize()` of a float other than zero. */
  type Shortest = d: Decimal | Normal(d) && d.digits != [] witness Decimal(false, [49], 0)

  type Repr = Float64 -> Shortest

  /** 10^21, where plain digits end. */
  const LIMIT := 1_000_000_000_000_000_000_000

  function Minus(negative: bool): String {
    if negative then [45] else []
  }

  /** `str(i)`. */
  function IntText(i: int): String {
    Minus(i < 0) + Digits(Abs(i))
  }

  /** A point and the digits after it, unless there are none. */
  function FractionText(fraction: String): String {
    if fraction == [] then [] else [46] + fraction
  }

  function ExponentText(exponent: Option<int>): String {
    match exponent
    case None => []
    case Some(e) => [101] + [if e >= 0 then 43 else 45] + Digits(Abs(e))
  }

  /** The digits of a decimal in the plain, the leading-zero or the exponent form. */
  function Layout(d: Shortest): String {
    var s := d.digits;
    var n := |s| + d.exp;
    if 0 < n <= 21 then
      Minus(d.negative) + (if n >= |s| then s + Zeros(n - |s|) else s[..n] + ([46] + s[n..]))
    else if -6 < n <= 0 then
      Minus(d.negative) + ([48] + ([46] + (Zeros(-n) + s)))
    else
      Minus(d.negative) + ([s[0]] + (FractionText(s[1..]) + ExponentText(Some(n - 1))))
  }

  predicate Whole(f: Float64) {
    Integral(f) && Abs(ToInt(f)) < LIMIT
  }

  /** `jcs_number` of a finite float. */
  function NumberText(f: Float64, repr: Repr): String {
    if Significand(f) == 0 then [48]
    else if Whole(f) then IntText(ToInt(f))
    else Layout(repr(f))
  }

  /** The decimal that the text of a float is to denote. */
  function Denoted(f: Float64, repr: Repr): (d: Decimal)
    ensures Normal(d)
  {
    if Significand(f) == 0 then Decimal(false, [], 0)
    else if Whole(f) then OfInt(ToInt(f))
    else repr(f)
  }

  function OfInt(i: int): (d: Decimal)
    ensures Normal(d)
  {
    Trim(Decimal(i < 0, Digits(Abs(i)), 0))
  }

  lemma OfIntValue(i: int)
    ensures Value(OfInt(i)) == i as real
  {
    TrimValue(Decimal(i < 0, Digits(Abs(i)), 0));
    NatOfDigits(Abs(i));
  }

  // ---- the parser ----

  /** How many digits the text begins with. */
  function Run(s: String): (k: nat)
    ensures k <= |s| && Numeral(s[..k])
  {
    if s != [] && IsDigit(s[0]) then
      var k := 1 + Run(s[1..]);
      assert s[..k] == [s[0]] + s[1..][..k - 1];
      k
    else 0
  }

  /** The digits after a point, if there is one. */
  function ParseFraction(s: String): (r: Option<(String, String)>)
    ensures r.Some? ==> Numeral(r.value.0) && |r.value.1| <= |s|
  {
    if s == [] || s[0] != 46 then Some(([], s))
    else
      var k := Run(s[1..]);
      if k == 0 then None else Some((s[1..][..k], s[1..][k..]))
  }

  /** The exponent after an `e`, if there is one. */
  function ParseExponent(s: String): (r: Option<(int, String)>)
    ensures r.Some? ==> |r.value.1| <= |s|
  {
    if s == [] || s[0] != 101 then Some((0, s))
    else if |s| < 2 || (s[1] != 43 && s[1] != 45) then None
    else
      var k := Run(s[2..]);
      if k == 0 then None
      else
        var e: int := NatOf(s[2..][..k]);
        Some((if s[1] == 45 then -e else e, s[2..][k..]))
  }

  /** What follows the whole part. */
  function ParseTail(negative: bool, whole: String, s: String): (r: Option<(Decimal, String)>)
    requires Numeral(whole)
    ensures r.Some? ==> |r.value.1| <= |s| && Normal(r.value.0)
  {
    match ParseFraction(s)
    case None => None
    case Some((fraction, b)) =>
      match ParseExponent(b)
      case None => None
      case Some((e, rest)) => Some((Trim(Decimal(negative, whole + fraction, e - |fraction|)), rest))
  }

  function ParseUnsigned(negative: bool, s: String): (r: Option<(Decimal, String)>)
    ensures r.Some? ==> |r.value.1| < |s| && Normal(r.value.0)
  {
    var k := Run(s);
    if k == 0 || (s[0] == 48 && k > 1) then None else ParseTail(negative, s[..k], s[k..])
  }

  /** A JSON number (section 6 of RFC 8259), its decimal trimmed, and the text after it. */
  function ParseNumber(s: String): (r: Option<(Decimal, String)>)
    ensures r.Some? ==> |r.value.1| < |s| && Normal(r.value.0)
  {
    if s != [] && s[0] == 45 then ParseUnsigned(true, s[1..]) else ParseUnsigned(false, s)
  }

  /** Text that may follow a number: its end, or a character no number contains. */
  predicate Delimited(rest: String) {
    rest == [] || rest[0] in {44, 93, 125}
  }

  /** The three parts of a number's text; no exponent is written 0 here. */
  datatype Parts = Parts(negative: bool, whole: String, fraction: String, exponent: Option<int>)

  predicate WellFormed(p: Parts) {
    p.whole != [] && Numeral(p.whole) && Numeral(p.fraction) && (p.whole[0] == 48 ==> |p.whole| == 1)
  }

  function PartsText(p: Parts): String {
    Minus(p.negative) + (p.whole + (FractionText(p.fraction) + ExponentText(p.exponent)))
  }

  function Exponent(p: Parts): int {
    if p.exponent.Some? then p.exponent.value else 0
  }

  lemma {:induction false} RunOf(ds: String, rest: String)
    requires Numeral(ds) && (rest == [] || !IsDigit(rest[0]))
    ensures Run(ds + rest) == |ds|
  {
    if ds == [] {
      assert ds + rest == rest;
    } else {
      RunOf(ds[1..], rest);
      assert (ds + rest)[1..] == ds[1..] + rest;
    }
  }

  lemma FractionParses(fraction: String, rest: String)
    requires Numeral(fraction) && (rest == [] || (!IsDigit(rest[0]) && rest[0] != 46))
    ensures ParseFraction(FractionText(fraction) + rest) == Some((fraction, rest))
  {
    if fraction == [] {
      assert FractionText(fraction) + rest == rest;
    } else {
      var s := FractionText(fraction) + rest;
      assert s[0] == 46 && s[1..] == fraction + rest;
      RunOf(fraction, rest);
    }
  }

  lemma ExponentParses(exponent: Option<int>, rest: String)
    requires Delimited(rest)
    ensures ParseExponent(ExponentText(exponent) + rest) == Some((if exponent.Some? then exponent.value else 0, rest))
  {
    match exponent
    case None => assert ExponentText(exponent) + rest == rest;
    case Some(e) =>
      var s := ExponentText(exponent) + rest;
      assert s[0] == 101 && s[1] == (if e >= 0 then 43 else 45) && s[2..] == Digits(Abs(e)) + rest;
      RunOf(Digits(Abs(e)), rest);
      NatOfDigits(Abs(e));
  }

  lemma ExponentStart(exponent: Option<int>, rest: String)
    requires Delimited(rest)
    ensures var c := ExponentText(exponent) + rest; c == [] || (!IsDigit(c[0]) && c[0] != 46)
  {}

  lemma FractionStart(fraction: String, c: String)
    requires c == [] || !IsDigit(c[0])
    ensures var b := FractionText(fraction) + c; b == [] || !IsDigit(b[0])
  {}

  lemma TailParses(p: Parts, rest: String)
    requires WellFormed(p) && Delimited(rest)
    ensures ParseTail(p.negative, p.whole, FractionText(p.fraction) + (ExponentText(p.exponent) + rest))
         == Some((Trim(Decimal(p.negative, p.whole + p.fraction, Exponent(p) - |p.fraction|)), rest))
  {
    hide Trim, ParseFraction, ParseExponent, ExponentText, FractionText;
    ExponentStart(p.exponent, rest);
    ExponentParses(p.exponent, rest);
    FractionParses(p.fraction, ExponentText(p.exponent) + rest);
  }

  lemma UnsignedParses(p: Parts, rest: String)
    requires WellFormed(p) && Delimited(rest)
    ensures ParseUnsigned(p.negative, p.whole + (FractionText(p.fraction) + (ExponentText(p.exponent) + rest)))
         == Some((Trim(Decimal(p.negative, p.whole + p.fraction, Exponent(p) - |p.fraction|)), rest))
  {
    hide Trim, Run, ParseTail, ExponentText, FractionText;
    var b := FractionText(p.fraction) + (ExponentText(p.exponent) + rest);
    ExponentStart(p.exponent, rest);
    FractionStart(p.fraction, ExponentText(p.exponent) + rest);
    RunOf(p.whole, b);
    TailParses(p, rest);
    assert (p.whole + b)[0] == p.whole[0];
    assert (p.whole + b)[..|p.whole|] == p.whole && (p.whole + b)[|p.whole|..] == b;
  }

  lemma PartsParse(p: Parts, rest: String)
    requires WellFormed(p) && Delimited(rest)
    ensures ParseNumber(PartsText(p) + rest)
         == Some((Trim(Decimal(p.negative, p.whole + p.fraction, Exponent(p) - |p.fraction|)), rest))
  {
    hide Trim, ParseUnsigned, ExponentText, FractionText;
    UnsignedParses(p, rest);
    var a := p.whole + (FractionText(p.fraction) + (ExponentText(p.exponent) + rest));
    var s := PartsText(p) + rest;
    assert s == Minus(p.negative) + a;
    assert IsDigit(a[0]) by { assert a[0] == p.whole[0]; }
    if p.negative { assert s[1..] == a; } else { assert s == a; }
  }

  // ---- the parser undoes the layout ----

  /** The parts that a layout writes. */
  function LayoutParts(d: Shortest): Parts {
    var s := d.digits;
    var n := |s| + d.exp;
    if 0 < n <= 21 then
      if n >= |s| then Parts(d.negative, s + Zeros(n - |s|), [], None) else Parts(d.negative, s[..n], s[n..], None)
    else if -6 < n <= 0 then Parts(d.negative, [48], Zeros(-n) + s, None)
    else Parts(d.negative, [s[0]], s[1..], Some(n - 1))
  }

  lemma WholeText(negative: bool, whole: String)
    ensures PartsText(Parts(negative, whole, [], None)) == Minus(negative) + whole
  {
    assert FractionText([]) + ExponentText(None) == [];
  }

  lemma PointText(negative: bool, whole: String, fraction: String)
    requires fraction != []
    ensures PartsText(Parts(negative, whole, fraction, None)) == Minus(negative) + (whole + ([46] + fraction))
  {
    assert FractionText(fraction) + ExponentText(None) == [46] + fraction;
  }

  lemma PointParts(d: Shortest)
    requires 0 < |d.digits| + d.exp < |d.digits| && |d.digits| + d.exp <= 21
    ensures Laid(d)
  {
    var s := d.digits;
    var n := |s| + d.exp;
    assert s == s[..n] + s[n..];
    PointText(d.negative, s[..n], s[n..]);
    NoPadding(d);
    hide Trim, PartsText, FractionText;
    assert s[..n][0] == s[0];
  }

  lemma PlainValue(d: Shortest)
    requires d.exp >= 0
    ensures Trim(Decimal(d.negative, d.digits + Zeros(d.exp) + [], 0)) == d
  {
    TrimPadded(d.negative, 0, d.digits, d.exp, 0);
    hide Trim;
    assert Zeros(0) + d.digits + Zeros(d.exp) == d.digits + Zeros(d.exp) + [];
  }

  lemma PlainParts(d: Shortest)
    requires d.exp >= 0 && |d.digits| + d.exp <= 21
    ensures Laid(d)
  {
    hide Trim, PartsText, LayoutParts, Layout, WellFormed;
    PlainShape(d);
    WholeText(d.negative, d.digits + Zeros(d.exp));
    PlainValue(d);
  }

  lemma PlainShape(d: Shortest)
    requires d.exp >= 0 && |d.digits| + d.exp <= 21
    ensures var p := Parts(d.negative, d.digits + Zeros(d.exp), [], None);
            LayoutParts(d) == p && WellFormed(p) && Layout(d) == Minus(d.negative) + (d.digits + Zeros(d.exp))
  {
    assert (d.digits + Zeros(d.exp))[0] == d.digits[0];
    hide Zeros;
  }

  lemma SmallParts(d: Shortest)
    requires -6 < |d.digits| + d.exp <= 0
    ensures Laid(d)
  {
    var s := d.digits;
    var n := |s| + d.exp;
    hide Trim, PartsText, LayoutParts, Layout, WellFormed;
    SmallShape(d);
    SmallDigits(s, -n);
    TrimPadded(d.negative, 1 - n, s, 0, d.exp);
    PointText(d.negative, [48], Zeros(-n) + s);
  }

  lemma SmallShape(d: Shortest)
    requires -6 < |d.digits| + d.exp <= 0
    ensures var fraction := Zeros(-(|d.digits| + d.exp)) + d.digits;
            && LayoutParts(d) == Parts(d.negative, [48], fraction, None) && WellFormed(LayoutParts(d))
            && Layout(d) == Minus(d.negative) + ([48] + ([46] + fraction))
  {}

  lemma SmallDigits(s: String, k: nat)
    ensures Zeros(1 + k) + s + Zeros(0) == [48] + (Zeros(k) + s)
  {
    assert Zeros(1 + k) == [48] + Zeros(k) && Zeros(0) == [];
  }

  lemma ScientificText(d: Shortest)
    requires !(-6 < |d.digits| + d.exp <= 21)
    ensures Layout(d) == PartsText(LayoutParts(d))
  {
    hide FractionText, ExponentText;
  }

  lemma ScientificValue(d: Shortest)
    ensures Trim(Decimal(d.negative, [d.digits[0]] + d.digits[1..], |d.digits| + d.exp - 1 - |d.digits[1..]|)) == d
  {
    NoPadding(d);
    hide Trim;
    assert d.digits == [d.digits[0]] + d.digits[1..];
  }

  lemma ScientificShape(d: Shortest)
    requires !(-6 < |d.digits| + d.exp <= 21)
    ensures LayoutParts(d) == Parts(d.negative, [d.digits[0]], d.digits[1..], Some(|d.digits| + d.exp - 1))
    ensures WellFormed(LayoutParts(d))
  {}

  lemma ScientificParts(d: Shortest)
    requires !(-6 < |d.digits| + d.exp <= 21)
    ensures Laid(d)
  {
    hide Trim, PartsText, LayoutParts, Layout, WellFormed;
    ScientificText(d);
    ScientificShape(d);
    ScientificValue(d);
  }

  lemma NoPadding(d: Shortest)
    ensures Trim(Decimal(d.negative, d.digits, d.exp)) == d
  {
    TrimPadded(d.negative, 0, d.digits, 0, d.exp);
    assert Zeros(0) + d.digits + Zeros(0) == d.digits;
  }

  /** A layout writes well-formed parts, and they denote exactly the decimal it was given. */
  predicate Laid(d: Shortest) {
    var p := LayoutParts(d);
    && WellFormed(p) && Layout(d) == PartsText(p)
    && Trim(Decimal(p.negative, p.whole + p.fraction, Exponent(p) - |p.fraction|)) == d
  }

  lemma LayoutIsLaid(d: Shortest)
    ensures Laid(d)
  {
    hide Laid;
    var n := |d.digits| + d.exp;
    if 0 < n <= 21 {
      if n >= |d.digits| { PlainParts(d); } else { PointParts(d); }
    } else if -6 < n <= 0 {
      SmallParts(d);
    } else {
      ScientificParts(d);
    }
  }

  /** In each of the three forms, the layout's text reads back as the (sign, digits, exponent) it was given. */
  lemma LayoutParses(d: Shortest, rest: String)
    requires Delimited(rest)
    ensures ParseNumber(Layout(d) + rest) == Some((d, rest))
  {
    hide Layout, LayoutParts, ParseNumber, Trim, PartsText;
    LayoutIsLaid(d);
    PartsParse(LayoutParts(d), rest);
  }

  lemma IntParses(i: int, rest: String)
    requires Delimited(rest)
    ensures ParseNumber(IntText(i) + rest) == Some((OfInt(i), rest))
  {
    hide ParseNumber, Trim;
    var p := Parts(i < 0, Digits(Abs(i)), [], None);
    assert WellFormed(p) by { if i == 0 { assert Digits(0) == [48]; } }
    assert PartsText(p) == IntText(i);
    PartsParse(p, rest);
    assert p.whole + p.fraction == p.whole;
  }

  /** A float's text reads back as the decimal it is to denote. */
  lemma NumberParses(f: Float64, repr: Repr, rest: String)
    requires Delimited(rest)
    ensures ParseNumber(NumberText(f, repr) + rest) == Some((Denoted(f, repr), rest))
  {
    hide ParseNumber, Layout, IntText, OfInt;
    if Significand(f) == 0 {
      IntParses(0, rest);
      assert IntText(0) == [48] by { ZeroText(); }
      assert OfInt(0) == Decimal(false, [], 0) by { ZeroText(); }
    } else if Whole(f) {
      IntParses(ToInt(f), rest);
    } else {
      LayoutParses(repr(f), rest);
    }
  }

  lemma ZeroText()
    ensures IntText(0) == [48] && OfInt(0) == Decimal(false, [], 0)
  {
    assert Digits(0) == [48];
  }

  // ---- one number, one text ----

  /** The canonical text of a decimal. */
  function DecimalText(d: Decimal): String
    requires Normal(d)
  {
    if d.digits == [] then [48] else Layout(d)
  }

  lemma LimitIsPower()
    ensures LIMIT == Pow10(21)
  {
    assert Pow10(7) == 10_000_000;
    assert Pow10(14) == 10_000_000 * Pow10(7);
    assert Pow10(21) == 10_000_000 * Pow10(14);
  }

  /** Exact integer digits below 10^21 are what the plain form lays out. */
  lemma IntTextIsLayout(i: int)
    requires i != 0 && Abs(i) < LIMIT
    ensures OfInt(i).digits != [] && IntText(i) == Layout(OfInt(i))
  {
    var ds := Digits(Abs(i));
    assert StripLeft(ds) == ds;
    LimitIsPower();
    DigitsLength(Abs(i), 21);
    hide Digits, Pow10;
    StripRightShape(Decimal(i < 0, ds, 0));
    var r := StripRight(Decimal(i < 0, ds, 0));
    assert ds[0] != 48;
    assert r.exp >= 0 && r.digits + Zeros(r.exp) == ds;
    assert OfInt(i) == r;
    assert |r.digits| + r.exp == |ds|;
  }

  /** The text of a float depends only on the decimal it denotes. */
  lemma NumberTextIsDecimalText(f: Float64, repr: Repr)
    ensures NumberText(f, repr) == DecimalText(Denoted(f, repr))
  {
    hide Layout, OfInt, IntText;
    if Significand(f) != 0 && Whole(f) {
      if ToInt(f) == 0 {
        ZeroText();
      } else {
        IntTextIsLayout(ToInt(f));
      }
    }
  }

  /** The text of an integral float below 10^21 denotes exactly the float's value; any other float's
      text denotes its shortest decimal. */
  lemma NumberTextValue(f: Float64, repr: Repr)
    ensures Whole(f) ==> Value(Denoted(f, repr)) == Exact(f)
    ensures Significand(f) != 0 && !Whole(f) ==> Denoted(f, repr) == repr(f)
  {
    if Whole(f) {
      ToIntIsExact(f);
      OfIntValue(ToInt(f));
      if Significand(f) == 0 {
        ZeroText();
        ZeroIsZero(f);
      }
    }
  }

  lemma ZeroIsZero(f: Float64)
    requires Significand(f) == 0
    ensures ToInt(f) == 0
  {}

  // ---- one text, one number ----

  /** What is used of Python's float reader: it undoes `repr`, and reads a decimal that is exactly a
      float as that float. */
  ghost predicate ReadsBack(read: Decimal -> Float64, repr: Repr) {
    && (forall f: Float64 :: Finite(f) && Significand(f) != 0 ==> read(repr(f)) == f)
    && forall f: Float64, d: Decimal ::
         Finite(f) && Significand(f) != 0 && Normal(d) && Value(d) == Exact(f) ==> read(d) == f
  }

  lemma ExactNonZero(f: Float64)
    requires Significand(f) != 0
    ensures Exact(f) != 0.0
  {
    PositiveProduct(Significand(f) as real, Two(Scale(f)));
    hide Two, Scale, Significand;
  }

  lemma PositiveProduct(x: real, y: real)
    requires x > 0.0 && y > 0.0
    ensures x * y > 0.0
  {}

  /** The text of a float other than zero denotes a number that reads back as the float. */
  lemma DenotedReads(f: Float64, repr: Repr, read: Decimal -> Float64)
    requires ReadsBack(read, repr) && Finite(f) && Significand(f) != 0
    ensures read(Denoted(f, repr)) == f && Denoted(f, repr).digits != []
  {
    NumberTextValue(f, repr);
    ExactNonZero(f);
    hide Exact, Whole, OfInt, Scaled;
    if Whole(f) && Denoted(f, repr).digits == [] { NoDigits(Denoted(f, repr)); }
  }

  /** Two finite floats have one text exactly when they are equal or both zero. */
  lemma SameTextIffSameNumber(f: Float64, g: Float64, repr: Repr, read: Decimal -> Float64)
    requires ReadsBack(read, repr) && Finite(f) && Finite(g)
    ensures NumberText(f, repr) == NumberText(g, repr) <==> f == g || (Significand(f) == 0 && Significand(g) == 0)
  {
    NumberParses(f, repr, []);
    NumberParses(g, repr, []);
    assert NumberText(f, repr) + [] == NumberText(f, repr) && NumberText(g, repr) + [] == NumberText(g, repr);
    if Significand(f) != 0 { DenotedReads(f, repr, read); }
    if Significand(g) != 0 { DenotedReads(g, repr, read); }
    hide Layout, IntText, OfInt, ParseNumber, Whole, ReadsBack;
  }

  // ---- the form of a number's text ----

  function Times(x: real, y: real): real {
    x * y
  }

  lemma TimesTen(x: real, y: real)
    ensures Times(x, 1.0) == x && Times(x, 10.0 * y) == 10.0 * Times(x, y)
  {}

  lemma {:induction false} TenIsTimes(a: int, k: nat)
    ensures Ten(a + k) == Times(Ten(a), Ten(k))
  {
    assert Ten(0) == 1.0;
    hide Ten, Times;
    if k > 0 {
      TenIsTimes(a, k - 1);
      TenStep(a + k - 1);
      TenStep(k - 1);
      TimesTen(Ten(a), Ten(k - 1));
    } else {
      TimesTen(Ten(a), 0.0);
    }
  }

  lemma TenSum(a: int, k: nat)
    ensures Ten(a + k) == Ten(a) * Ten(k)
  {
    TenIsTimes(a, k);
    hide Ten;
  }

  lemma {:induction false} TenIsPow10(k: nat)
    ensures Ten(k) == Pow10(k) as real
  {
    if k > 0 {
      TenIsPow10(k - 1);
      assert Pow10(k) as real == 10.0 * Pow10(k - 1) as real;
    }
  }

  lemma {:induction false} TenGrows(a: int, b: int)
    requires a <= b
    ensures Ten(a) <= Ten(b)
    decreases b - a
  {
    if a < b {
      TenGrows(a, b - 1);
      TenStep(b - 1);
      hide Ten;
    }
  }

  lemma {:induction false} NatOfBounds(s: String)
    requires Numeral(s) && s != [] && s[0] != 48
    ensures Pow10(|s| - 1) <= NatOf(s) < Pow10(|s|)
  {
    var init := s[..|s| - 1];
    if init == [] {
      assert NatOf(init) == 0 && Pow10(0) == 1 && Pow10(1) == 10;
    } else {
      NatOfBounds(init);
    }
  }

  lemma ValueOf(d: Shortest)
    ensures Size(Value(d)) == NatOf(d.digits) as real * Ten(d.exp) > 0.0
    ensures d.negative <==> Value(d) < 0.0
  {
    hide Ten, NatOf, Pow10;
    NatOfBounds(d.digits);
    PositiveProduct(NatOf(d.digits) as real, Ten(d.exp));
    ValueIs(d);
    hide Value;
  }

  lemma ValueIs(d: Shortest)
    ensures Value(d) == if d.negative then -(NatOf(d.digits) as real * Ten(d.exp)) else NatOf(d.digits) as real * Ten(d.exp)
  {
    hide Ten, NatOf;
  }

  /** The size of a decimal, from how many digits it has. */
  lemma SizeOf(d: Shortest)
    ensures var n := |d.digits| + d.exp; Ten(n - 1) <= Size(Value(d)) < Ten(n)
  {
    hide Ten, Pow10, NatOf, Value, Size;
    var k := |d.digits|;
    ValueOf(d);
    NatOfBounds(d.digits);
    TenIsPow10(k - 1);
    TenIsPow10(k);
    TenSum(d.exp, k - 1);
    TenSum(d.exp, k);
    var n := k + d.exp;
    assert n - 1 == d.exp + (k - 1) && n == d.exp + k;
    Between(Ten(k - 1), NatOf(d.digits) as real, Ten(k), Ten(d.exp), Ten(n - 1), Size(Value(d)), Ten(n));
  }

  lemma Between(low: real, m: real, high: real, e: real, from: real, x: real, to: real)
    requires low <= m < high && e > 0.0 && from == e * low && x == m * e && to == e * high
    ensures from <= x < to
  {
    ScaleBounds(low, m, high, e);
  }

  lemma ScaleBounds(low: real, m: real, high: real, e: real)
    requires low <= m < high && e > 0.0
    ensures e * low <= m * e < e * high
  {
    PositiveProduct(high - m, e);
    assert (high - m) * e == e * high - m * e;
    if low < m {
      PositiveProduct(m - low, e);
      assert (m - low) * e == m * e - e * low;
    }
  }

  function Size(x: real): real {
    if x < 0.0 then -x else x
  }

  /** The text of a number other than zero, as section 3.2.2.3 of RFC 8785 has it: a sign if it is
      negative; from 10^-6 up to but not including 10^21 a whole part and what fraction it needs, and beyond
      that one digit other than zero, what fraction it needs, and an exponent. */
  ghost predicate Spells(t: String, x: real, p: Parts) {
    && WellFormed(p)
    && t == (if p.negative then [45] else []) + p.whole + (if p.fraction == [] then [] else [46] + p.fraction)
            + (match p.exponent
               case None => []
               case Some(e) => [101] + (if e >= 0 then [43] + Digits(e) else [45] + Digits(-e)))
    && Value(Decimal(p.negative, p.whole + p.fraction, Exponent(p) - |p.fraction|)) == x
    && (p.negative <==> x < 0.0)
    && (p.fraction != [] ==> p.fraction[|p.fraction| - 1] != 48)
    && if Ten(-6) <= Size(x) < Ten(21) then p.exponent.None?
       else p.exponent.Some? && |p.whole| == 1 && p.whole[0] != 48
  }

  lemma LayoutSigns(d: Shortest)
    ensures var p := LayoutParts(d);
            p.negative == d.negative && (p.fraction != [] ==> p.fraction[|p.fraction| - 1] != 48)
    ensures if -6 < |d.digits| + d.exp <= 21 then LayoutParts(d).exponent.None?
            else LayoutParts(d).exponent.Some? && LayoutParts(d).whole == [d.digits[0]]
  {}

  lemma PartsTextIs(p: Parts)
    ensures PartsText(p) ==
            (if p.negative then [45] else []) + p.whole + (if p.fraction == [] then [] else [46] + p.fraction)
            + (match p.exponent
               case None => []
               case Some(e) => [101] + (if e >= 0 then [43] + Digits(e) else [45] + Digits(-e)))
  {
    ExponentTextIs(p.exponent);
    hide ExponentText, Digits;
    FourParts(Minus(p.negative), p.whole, FractionText(p.fraction), ExponentText(p.exponent));
  }

  lemma ExponentTextIs(exponent: Option<int>)
    ensures ExponentText(exponent) ==
            match exponent
            case None => []
            case Some(e) => [101] + (if e >= 0 then [43] + Digits(e) else [45] + Digits(-e))
  {
    if exponent.Some? {
      var e := exponent.value;
      var sign, ds := if e >= 0 then [43] else [45], Digits(Abs(e));
      hide Digits;
      assert [101] + sign + ds == [101] + (sign + ds);
    }
  }

  lemma FourParts(a: String, b: String, c: String, d: String)
    ensures a + (b + (c + d)) == a + b + c + d
  {}

  /** A layout is the text of the number its decimal stands for. */
  lemma LayoutSpells(d: Shortest)
    ensures Spells(Layout(d), Value(d), LayoutParts(d))
  {
    hide Layout, LayoutParts, Ten, Trim, Value, PartsText, WellFormed, Size;
    var p, n := LayoutParts(d), |d.digits| + d.exp;
    LayoutIsLaid(d);
    LayoutSigns(d);
    SizeOf(d);
    ValueOf(d);
    if n <= 21 { TenGrows(n, 21); } else { TenGrows(21, n - 1); }
    if n > -6 { TenGrows(-6, n - 1); } else { TenGrows(n, -6); }
    LaidValue(d);
    PartsTextIs(p);
  }

  lemma LaidValue(d: Shortest)
    requires Laid(d)
    ensures var p := LayoutParts(d);
            WellFormed(p) && Layout(d) == PartsText(p)
            && Value(Decimal(p.negative, p.whole + p.fraction, Exponent(p) - |p.fraction|)) == Value(d)
  {
    var p := LayoutParts(d);
    hide Layout, LayoutParts, Trim, Value, PartsText;
    TrimValue(Decimal(p.negative, p.whole + p.fraction, Exponent(p) - |p.fraction|));
  }

  /** So a float's text spells the number it denotes: the exact integer below 10^21, and otherwise the
      shortest digits. */
  lemma NumberSpells(f: Float64, repr: Repr)
    requires Finite(f) && Significand(f) != 0
    ensures Denoted(f, repr).digits != []
    ensures Spells(NumberText(f, repr), Value(Denoted(f, repr)), LayoutParts(Denoted(f, repr)))
  {
    NumberTextIsDecimalText(f, repr);
    NumberTextValue(f, repr);
    ExactNonZero(f);
    if Whole(f) && Denoted(f, repr).digits == [] { NoDigits(Denoted(f, repr)); }
    hide Layout, LayoutParts, Spells, Whole, OfInt, Exact, Scaled, NumberText;
    LayoutSpells(Denoted(f, repr));
  }
}
