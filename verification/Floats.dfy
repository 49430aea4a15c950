/** IEEE 754 doubles by their fields, and the integers among them. */
module Floats {
  /** An IEEE 754 double by its fields. */
  datatype Double = Double(negative: bool, exponent: nat, fraction: nat)

  type Float64 = d: Double | d.exponent < 2048 && d.fraction < 0x10_0000_0000_0000 witness Double(false, 0, 0)

  const TWO64 := 0x1_0000_0000_0000_0000

  function Pow2(k: nat): (p: nat)
    ensures p > 0
  {
    if k == 0 then 1 else 2 * Pow2(k - 1)
  }

  predicate Finite(d: Float64) {
    d.exponent != 2047
  }

  /** A finite double is (-1)^negative * Significand * 2^Scale. */
  function Significand(d: Float64): nat {
    if d.exponent == 0 then d.fraction else 0x10_0000_0000_0000 + d.fraction
  }

  function Scale(d: Float64): int {
    if d.exponent == 0 then -1074 else d.exponent - 1075
  }

  /** `x.is_integer()` of a finite double. */
  predicate Integral(d: Float64) {
    Scale(d) >= 0 || Significand(d) % Pow2(-Scale(d)) == 0
  }

  /** `int(x)` of an integral double. */
  function ToInt(d: Float64): int {
    var m := if Scale(d) >= 0 then Significand(d) * Pow2(Scale(d)) else Significand(d) / Pow2(-Scale(d));
    if d.negative then -m else m
  }

  function Bits(d: Float64): (n: nat)
    ensures n < TWO64
  {
    (if d.negative then 0x8000_0000_0000_0000 else 0) + d.exponent * 0x10_0000_0000_0000 + d.fraction
  }

  function FromBits(n: nat): Float64
    requires n < TWO64
  {
    Double(n >= 0x8000_0000_0000_0000, n / 0x10_0000_0000_0000 % 2048, n % 0x10_0000_0000_0000)
  }

  lemma BitsRoundTrip(d: Float64)
    ensures FromBits(Bits(d)) == d
  {}

  /** Powers of two, negative ones too. */
  function Two(e: int): (p: real)
    ensures p > 0.0
    decreases if e < 0 then -e else e
  {
    if e == 0 then 1.0 else if e > 0 then 2.0 * Two(e - 1) else Two(e + 1) / 2.0
  }

  /** The number a finite double stands for. */
  function Exact(d: Float64): real {
    var m := Significand(d) as real * Two(Scale(d));
    if d.negative then -m else m
  }

  lemma {:induction false} TwoIsPow2(k: nat)
    ensures Two(k) == Pow2(k) as real && Two(-(k as int)) * Pow2(k) as real == 1.0
  {
    if k > 0 {
      TwoIsPow2(k - 1);
      assert Pow2(k) as real == 2.0 * Pow2(k - 1) as real;
      assert Two(-(k as int)) == Two(1 - k as int) / 2.0;
      HalfTimesDouble(Two(1 - k as int), Pow2(k - 1) as real);
    }
  }

  lemma HalfTimesDouble(x: real, y: real)
    ensures x / 2.0 * (2.0 * y) == x * y
  {}

  /** `int(x)` of an integral double is its value. */
  lemma ToIntIsExact(d: Float64)
    requires Integral(d)
    ensures ToInt(d) as real == Exact(d)
  {
    var s, k := Significand(d), Abs(Scale(d));
    TwoIsPow2(k);
    hide Pow2, Two, Significand, Scale;
    if Scale(d) >= 0 {
      ProductAsReal(s, Pow2(k));
    } else {
      var q := s / Pow2(k);
      DivisionExact(s, Pow2(k));
      ProductAsReal(q, Pow2(k));
      CancelUnit(q as real, Pow2(k) as real, Two(-(k as int)));
    }
  }

  function Abs(x: int): nat {
    if x < 0 then -x else x
  }

  lemma DivisionExact(s: nat, p: nat)
    requires p > 0 && s % p == 0
    ensures s / p * p == s
  {}

  lemma ProductAsReal(x: int, y: int)
    ensures (x * y) as real == x as real * y as real
  {}

  lemma CancelUnit(x: real, y: real, z: real)
    requires z * y == 1.0
    ensures x * y * z == x
  {
    assert x * y * z == x * (z * y);
  }

  /** The integral doubles are those whose value is an integer. */
  lemma IntegralIff(d: Float64)
    ensures Integral(d) <==> Exact(d) == Exact(d).Floor as real
  {
    if Integral(d) {
      ToIntIsExact(d);
      FloorOf(ToInt(d));
    } else if Exact(d) == Exact(d).Floor as real {
      var i := Exact(d).Floor;
      WholeSignificand(Significand(d), -Scale(d), if d.negative then -i else i);
    }
  }

  lemma FloorOf(i: int)
    ensures (i as real).Floor == i
  {}

  /** If a significand over a power of two is a whole number, the power divides it. */
  lemma WholeSignificand(s: nat, k: nat, m: int)
    requires s as real * Two(-(k as int)) == m as real
    ensures s % Pow2(k) == 0
  {
    TwoIsPow2(k);
    hide Pow2, Two;
    UnitCancels(s as real, Two(-(k as int)), Pow2(k) as real);
    ProductAsReal(m, Pow2(k));
    assert s == m * Pow2(k);
    MultipleHasNoRemainder(m, Pow2(k));
  }

  lemma UnitCancels(x: real, y: real, z: real)
    requires y * z == 1.0
    ensures x * y * z == x
  {
    assert x * y * z == x * (y * z);
  }

  lemma MultipleHasNoRemainder(m: int, p: nat)
    requires p > 0
    ensures m * p % p == 0
  {
    var q, r := m * p / p, m * p % p;
    assert m * p == p * q + r;
    SmallMultiple(m - q, p, r);
  }

  lemma SmallMultiple(a: int, p: nat, r: nat)
    requires a * p == r && r < p
    ensures r == 0
  {
    if a > 0 { TimesAtLeast(a, p); }
    if a < 0 { TimesAtLeast(-a, p); }
  }

  lemma TimesAtLeast(a: int, p: nat)
    requires a > 0
    ensures a * p >= p
  {}
}
