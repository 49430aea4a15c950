/** Decimal numerals: the text of a number, and the value a text denotes. */
module Decimal {
  import opened Text

  predicate IsDigit(c: int) {
    48 <= c < 58
  }

  predicate Numeral(s: String) {
    forall i :: 0 <= i < |s| ==> IsDigit(s[i])
  }

  /** `str(n)`. */
  function Digits(n: nat): (ds: String)
    ensures |ds| >= 1 && Numeral(ds)
    ensures n > 0 ==> ds[0] != 48
  {
    if n < 10 then [48 + n] else Digits(n / 10) + [48 + n % 10]
  }

  function Pow10(k: nat): (p: nat)
    ensures p > 0
  {
    if k == 0 then 1 else 10 * Pow10(k - 1)
  }

  /** The number a numeral denotes. */
  function NatOf(s: String): nat
    requires Numeral(s)
  {
    if s == [] then 0 else 10 * NatOf(s[..|s| - 1]) + (s[|s| - 1] - 48)
  }

  lemma {:induction false} NatOfDigits(n: nat)
    ensures NatOf(Digits(n)) == n
  {
    var ds := Digits(n);
    if n < 10 {
      assert ds[..0] == [];
    } else {
      NatOfDigits(n / 10);
      assert ds[..|ds| - 1] == Digits(n / 10);
    }
  }

  function Zeros(k: nat): (s: String)
    ensures |s| == k && Numeral(s) && forall i :: 0 <= i < k ==> s[i] == 48
  {
    seq(k, _ => 48)
  }

  lemma {:induction false} NatOfLeadingZero(s: String)
    requires Numeral(s)
    ensures NatOf([48] + s) == NatOf(s)
  {
    var z := [48] + s;
    if s == [] {
      assert z[..0] == [];
    } else {
      NatOfLeadingZero(s[..|s| - 1]);
      assert z[..|z| - 1] == [48] + s[..|s| - 1];
    }
  }

  // ---- decimals ----

  /** (-1)^negative * digits * 10^exp, as Python's `Decimal.as_tuple` lists it. */
  datatype Decimal = Decimal(negative: bool, digits: String, exp: int)

  /** Powers of ten, negative ones too. */
  function Ten(e: int): (p: real)
    ensures p > 0.0
    decreases if e < 0 then -e else e
  {
    if e == 0 then 1.0 else if e > 0 then 10.0 * Ten(e - 1) else Ten(e + 1) / 10.0
  }

  lemma TenStep(e: int)
    ensures Ten(e + 1) == 10.0 * Ten(e)
  {}

  /** n * 10^e. */
  function Scaled(n: nat, e: int): real {
    n as real * Ten(e)
  }

  /** The number a decimal denotes. */
  function Value(d: Decimal): real
    requires Numeral(d.digits)
  {
    var m := Scaled(NatOf(d.digits), d.exp);
    if d.negative then -m else m
  }

  /** No leading and no trailing zero digits; zero has no digits at all. */
  predicate Normal(d: Decimal) {
    && Numeral(d.digits)
    && (if d.digits == [] then d == Decimal(false, [], 0) else d.digits[0] != 48 && d.digits[|d.digits| - 1] != 48)
  }

  function StripLeft(s: String): (r: String)
    requires Numeral(s)
    ensures Numeral(r) && (r != [] ==> r[0] != 48)
  {
    if s != [] && s[0] == 48 then StripLeft(s[1..]) else s
  }

  function StripRight(d: Decimal): (r: Decimal)
    requires Numeral(d.digits)
    ensures Numeral(r.digits) && r.negative == d.negative
    ensures r.digits != [] ==> r.digits[|r.digits| - 1] != 48 && d.digits != [] && r.digits[0] == d.digits[0]
    decreases |d.digits|
  {
    var n := |d.digits|;
    if n > 0 && d.digits[n - 1] == 48 then StripRight(Decimal(d.negative, d.digits[..n - 1], d.exp + 1)) else d
  }

  /** The normal form of a decimal. */
  function Trim(d: Decimal): (r: Decimal)
    requires Numeral(d.digits)
    ensures Normal(r)
  {
    var r := StripRight(Decimal(d.negative, StripLeft(d.digits), d.exp));
    if r.digits == [] then Decimal(false, [], 0) else r
  }

  lemma {:induction false} StripLeftValue(s: String)
    requires Numeral(s)
    ensures NatOf(StripLeft(s)) == NatOf(s)
  {
    if s != [] && s[0] == 48 {
      StripLeftValue(s[1..]);
      NatOfLeadingZero(s[1..]);
      assert s == [48] + s[1..];
    }
  }

  lemma Shift(n: nat, e: int)
    ensures Scaled(10 * n, e) == Scaled(n, e + 1)
  {
    TenStep(e);
    hide Ten;
    assert (10 * n) as real == 10.0 * n as real;
  }

  lemma NatOfTrailingZero(s: String)
    requires Numeral(s) && s != [] && s[|s| - 1] == 48
    ensures NatOf(s) == 10 * NatOf(s[..|s| - 1])
  {}

  lemma {:induction false} StripRightValue(d: Decimal)
    requires Numeral(d.digits)
    ensures Value(StripRight(d)) == Value(d)
    decreases |d.digits|
  {
    var n := |d.digits|;
    if n > 0 && d.digits[n - 1] == 48 {
      var init := d.digits[..n - 1];
      NatOfTrailingZero(d.digits);
      hide Scaled, NatOf;
      StripRightValue(Decimal(d.negative, init, d.exp + 1));
      Shift(NatOf(init), d.exp);
    }
  }

  /** Trimming does not change the number. */
  lemma TrimValue(d: Decimal)
    requires Numeral(d.digits)
    ensures Value(Trim(d)) == Value(d)
  {
    hide Scaled, NatOf, StripRight;
    StripLeftValue(d.digits);
    var r := Decimal(d.negative, StripLeft(d.digits), d.exp);
    StripRightValue(r);
    if StripRight(r).digits == [] { NoDigits(StripRight(r)); NoDigits(Decimal(false, [], 0)); }
  }

  lemma NoDigits(d: Decimal)
    requires d.digits == []
    ensures Value(d) == 0.0
  {}

  lemma {:induction false} StripLeftZeros(k: nat, s: String)
    requires Numeral(s) && s != [] && s[0] != 48
    ensures StripLeft(Zeros(k) + s) == s
  {
    var z := Zeros(k) + s;
    if k > 0 {
      StripLeftZeros(k - 1, s);
      assert z[1..] == Zeros(k - 1) + s;
    } else {
      assert z == s;
    }
  }

  lemma {:induction false} StripRightZeros(negative: bool, s: String, k: nat, e: int)
    requires Numeral(s) && s != [] && s[|s| - 1] != 48
    ensures StripRight(Decimal(negative, s + Zeros(k), e)) == Decimal(negative, s, e + k)
  {
    var z := s + Zeros(k);
    if k > 0 {
      assert z[..|z| - 1] == s + Zeros(k - 1);
      StripRightZeros(negative, s, k - 1, e + 1);
    } else {
      assert z == s;
    }
  }

  /** Zeros before and after a numeral only shift its exponent. */
  lemma TrimPadded(negative: bool, j: nat, s: String, k: nat, e: int)
    requires Numeral(s) && s != [] && s[0] != 48 && s[|s| - 1] != 48
    ensures Trim(Decimal(negative, Zeros(j) + s + Zeros(k), e)) == Decimal(negative, s, e + k)
  {
    assert Zeros(j) + s + Zeros(k) == Zeros(j) + (s + Zeros(k));
    StripLeftZeros(j, s + Zeros(k));
    StripRightZeros(negative, s, k, e);
  }

  /** Trimming on the right only drops zeros. */
  lemma {:induction false} StripRightShape(d: Decimal)
    requires Numeral(d.digits)
    ensures var r := StripRight(d); r.exp >= d.exp && d.digits == r.digits + Zeros(r.exp - d.exp)
    decreases |d.digits|
  {
    var n := |d.digits|;
    if n > 0 && d.digits[n - 1] == 48 {
      StripRightShape(Decimal(d.negative, d.digits[..n - 1], d.exp + 1));
      var r := StripRight(d);
      assert d.digits == d.digits[..n - 1] + [48];
      assert Zeros(r.exp - d.exp) == Zeros(r.exp - d.exp - 1) + [48];
    } else {
      assert Zeros(0) == [];
    }
  }

  lemma {:induction false} DigitsLength(n: nat, k: nat)
    requires n < Pow10(k) && k > 0
    ensures |Digits(n)| <= k
  {
    if n >= 10 { DigitsLength(n / 10, k - 1); }
  }
}
