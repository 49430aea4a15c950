/** The field GF(256) of `trust/shamir.py`: bytes under xor, multiplied through the powers of the
    generator 3 modulo the polynomial 0x11B.

    `Multiply` and `Quotient` are what the source reads off its log/exp tables.  This module proves
    that they satisfy the field laws and that `Multiply` is polynomial multiplication modulo 0x11B. */
module Gf256 {
  type Byte = bv8

  function AsByte(x: int): Byte
    requires 0 <= x < 256
  {
    x as Byte
  }

  function AsIndex(a: Byte): (i: int)
    ensures 0 <= i < 256
  {
    a as int
  }

  lemma ConversionsInverse(a: Byte, x: int)
    requires 0 <= x < 256
    ensures AsByte(AsIndex(a)) == a && AsIndex(AsByte(x)) == x && AsByte(0) == 0 && AsIndex(0) == 0
  {
    hide AsByte, AsIndex;
    ZeroByte();
    ByteOfIndex(a);
    var b := ByteWithIndex(x);
    ByteOfIndex(b);
  }

  lemma ByteOfIndex(a: Byte)
    ensures AsByte(AsIndex(a)) == a
  {}

  lemma NextIndex(a: Byte)
    requires AsIndex(a) < 255
    ensures AsIndex(a + 1) == AsIndex(a) + 1
  {}

  lemma ZeroByte()
    ensures AsByte(0) == 0 && AsIndex(0) == 0
  {}

  /** Counting up reaches the byte of every index. */
  lemma {:induction false} ByteWithIndex(x: nat) returns (a: Byte)
    requires x < 256
    ensures AsIndex(a) == x
  {
    hide AsIndex;
    if x == 0 {
      a := 0;
      ZeroByte();
    } else {
      a := ByteWithIndex(x - 1);
      NextIndex(a);
      a := a + 1;
    }
  }

  /** Addition in the field, and subtraction too. */
  function Add(a: Byte, b: Byte): Byte {
    a ^ b
  }

  /** One doubling step of the table loop: shift, then reduce by 0x11B when bit 8 appears. */
  function Times2(a: Byte): Byte {
    (((a as bv16) << 1) ^ (if a & 0x80 != 0 then 0x11B else 0)) as Byte
  }

  /** Multiplication by the generator 3 = x + 1. */
  function Times3(a: Byte): Byte {
    Add(a, Times2(a))
  }

  /** `Times3` applied n times. */
  function Iterate(n: nat, b: Byte): Byte {
    if n == 0 then b else Times3(Iterate(n - 1, b))
  }

  /** The n-th power of the generator. */
  function Power(n: nat): Byte {
    Iterate(n, 1)
  }

  // ---- bit-vector facts ----

  lemma AddLaws(a: Byte, b: Byte)
    ensures Add(a, b) == Add(b, a)
    ensures Add(a, 0) == a && Add(0, a) == a && Add(a, a) == 0
    ensures Add(a, b) == 0 <==> a == b
  {}

  lemma AddAssociative(a: Byte, b: Byte, c: Byte)
    ensures Add(Add(a, b), c) == Add(a, Add(b, c))
  {}

  lemma AddCancel(a: Byte, b: Byte)
    ensures Add(Add(a, b), b) == a && Add(b, Add(b, a)) == a
  {
    hide Add;
    AddAssociative(a, b, b);
    AddAssociative(b, b, a);
    AddLaws(a, b);
    AddLaws(b, a);
  }

  lemma AddShuffle(a: Byte, b: Byte, c: Byte, d: Byte)
    ensures Add(Add(a, b), Add(c, d)) == Add(Add(a, c), Add(b, d))
  {
    hide Add;
    AddAssociative(a, b, Add(c, d));
    AddAssociative(b, c, d);
    AddLaws(b, c);
    AddAssociative(c, b, d);
    AddAssociative(a, c, Add(b, d));
  }

  lemma Times2Linear(a: Byte, b: Byte)
    ensures Times2(Add(a, b)) == Add(Times2(a), Times2(b))
  {
    if a & 0x80 != 0 { if b & 0x80 != 0 {} else {} } else { if b & 0x80 != 0 {} else {} }
  }

  lemma Times3Linear(a: Byte, b: Byte)
    ensures Times3(Add(a, b)) == Add(Times3(a), Times3(b))
  {
    hide Times2, Add;
    Times2Linear(a, b);
    AddShuffle(a, b, Times2(a), Times2(b));
  }

  lemma Times3Injective(a: Byte, b: Byte)
    requires Times3(a) == Times3(b)
    ensures a == b
  {}

  // ---- iterating the generator ----

  lemma {:induction false} IterateAdd(m: nat, n: nat, b: Byte)
    ensures Iterate(m + n, b) == Iterate(m, Iterate(n, b))
  {
    hide Times3;
    if m > 0 { IterateAdd(m - 1, n, b); }
  }

  lemma {:induction false} IterateLinear(n: nat, a: Byte, b: Byte)
    ensures Iterate(n, Add(a, b)) == Add(Iterate(n, a), Iterate(n, b))
  {
    hide Times3, Add;
    if n > 0 {
      IterateLinear(n - 1, a, b);
      Times3Linear(Iterate(n - 1, a), Iterate(n - 1, b));
    }
  }

  lemma {:induction false} IterateZero(n: nat)
    ensures Iterate(n, 0) == 0
  {
    if n > 0 { IterateZero(n - 1); }
  }

  lemma {:induction false} IterateInjective(n: nat, a: Byte, b: Byte)
    requires Iterate(n, a) == Iterate(n, b)
    ensures a == b
  {
    if n > 0 {
      Times3Injective(Iterate(n - 1, a), Iterate(n - 1, b));
      IterateInjective(n - 1, a, b);
    }
  }

  lemma PowerNonZero(n: nat)
    ensures Power(n) != 0
  {
    if Power(n) == 0 {
      IterateZero(n);
      IterateInjective(n, 1, 0);
      assert false;
    }
  }

  // ---- the order of 3 is exactly 255 ----

  /** `Times3` written out on the bits, for computing with constants. */
  function Direct3(a: Byte): Byte {
    a ^ (a << 1) ^ (if a & 0x80 != 0 then 0x1B else 0)
  }

  lemma Steps(n: nat, b: Byte)
    requires Power(n) == b
    ensures Power(n + 5) == Direct3(Direct3(Direct3(Direct3(Direct3(b)))))
    ensures Power(n + 2) == Direct3(Direct3(b))
  {
    Direct3IsTimes3(b);
    Direct3IsTimes3(Power(n + 1));
    Direct3IsTimes3(Power(n + 2));
    Direct3IsTimes3(Power(n + 3));
    Direct3IsTimes3(Power(n + 4));
    hide Times3, Direct3;
    assert Power(n + 1) == Times3(b);
    assert Power(n + 2) == Times3(Power(n + 1));
    assert Power(n + 3) == Times3(Power(n + 2));
    assert Power(n + 4) == Times3(Power(n + 3));
    assert Power(n + 5) == Times3(Power(n + 4));
  }

  lemma Direct3IsTimes3(a: Byte)
    ensures Direct3(a) == Times3(a)
  {}

  lemma Steps17(n: nat, b: Byte) returns (c: Byte)
    requires Power(n) == b
    ensures Power(n + 17) == c
    ensures c == var t := Direct3(Direct3(Direct3(Direct3(Direct3(b)))));
                 var u := Direct3(Direct3(Direct3(Direct3(Direct3(t)))));
                 var v := Direct3(Direct3(Direct3(Direct3(Direct3(u)))));
                 Direct3(Direct3(v))
  {
    hide Times3, Direct3;
    Steps(n, b);
    Steps(n + 5, Power(n + 5));
    Steps(n + 10, Power(n + 10));
    Steps(n + 15, Power(n + 15));
    c := Power(n + 17);
  }

  lemma PowersTo85()
    ensures Power(51) == 0x0C && Power(85) == 0xBD
  {
    var c := Steps17(0, 1);
    c := Steps17(17, 0xE1);
    c := Steps17(34, 0x5C);
    c := Steps17(51, 0x0C);
    c := Steps17(68, 0xE0);
  }

  lemma PowersTo170()
    ensures Power(170) == 0xBC
  {
    PowersTo85();
    var c := Steps17(85, 0xBD);
    c := Steps17(102, 0x50);
    c := Steps17(119, 0xEC);
    c := Steps17(136, 0x5D);
    c := Steps17(153, 0xED);
  }

  lemma PowersTo255()
    ensures Power(255) == 1
  {
    PowersTo170();
    var c := Steps17(170, 0xBC);
    c := Steps17(187, 0xB1);
    c := Steps17(204, 0xB0);
    c := Steps17(221, 0x51);
    c := Steps17(238, 0x0D);
  }

  lemma PowersTo15()
    ensures Power(15) == 0x35
  {
    Steps(0, 1);
    Steps(5, Power(5));
    Steps(10, Power(10));
  }

  /** 255 is an order of the generator, and none of its three maximal divisors is. */
  lemma OrderDivides255()
    ensures Power(255) == 1 && Power(85) != 1 && Power(51) != 1 && Power(15) != 1
  {
    hide Power;
    PowersTo15();
    PowersTo85();
    PowersTo255();
  }

  lemma PowerDifference(i: nat, j: nat)
    requires i <= j && Power(i) == Power(j)
    ensures Power(j - i) == 1
  {
    IterateAdd(i, j - i, 1);
    IterateInjective(i, Power(j - i), 1);
  }

  lemma {:induction false} PowerMultiple(d: nat, q: nat)
    requires Power(d) == 1
    ensures Power(q * d) == 1
  {
    if q > 0 {
      PowerMultiple(d, q - 1);
      IterateAdd((q - 1) * d, d, 1);
      assert q * d == (q - 1) * d + d;
    }
  }

  /** Euclid's algorithm by subtraction: two exponents of order one share a divisor that is one too. */
  lemma {:induction false} CommonOrder(d: nat, e: nat) returns (g: nat)
    requires d > 0 && e > 0 && Power(d) == 1 && Power(e) == 1
    ensures 0 < g <= d && Power(g) == 1 && exists p: nat, q: nat :: d == p * g && e == q * g
    decreases d + e
  {
    if d == e {
      g := d;
      assert d == 1 * g && e == 1 * g;
    } else if d < e {
      PowerDifference(d, e);
      IterateAdd(d, 0, 1);
      assert Power(e - d) == 1 by { IterateAdd(e - d, d, 1); }
      g := CommonOrder(d, e - d);
      var p: nat, q: nat :| d == p * g && e - d == q * g;
      assert e == (p + q) * g;
    } else {
      assert Power(d - e) == 1 by { IterateAdd(d - e, e, 1); }
      g := CommonOrder(d - e, e);
      var p: nat, q: nat :| d - e == p * g && e == q * g;
      assert d == (p + q) * g;
    }
  }

  lemma DivisorsOf255(g: nat, q: nat)
    requires 0 < g < 255 && 255 == q * g
    ensures g in {1, 3, 5, 15, 17, 51, 85}
  {
    if g >= 16 { assert q * g >= q * 16; }
    assert q in {255, 85, 51, 17, 15, 5, 3} by {
      if g < 16 {
        assert g == 1 || g == 2 || g == 3 || g == 4 || g == 5 || g == 6 || g == 7 || g == 8
          || g == 9 || g == 10 || g == 11 || g == 12 || g == 13 || g == 14 || g == 15;
      } else {
        assert q == 0 || q == 1 || q == 2 || q == 3 || q == 4 || q == 5 || q == 6 || q == 7 || q == 8
          || q == 9 || q == 10 || q == 11 || q == 12 || q == 13 || q == 14 || q == 15;
      }
    }
  }

  lemma LiftOrder(g: nat)
    requires g in {1, 3, 5, 15, 17, 51, 85} && Power(g) == 1
    ensures Power(15) == 1 || Power(51) == 1 || Power(85) == 1
  {
    hide Times3, Power, Iterate;
    if g == 1 { PowerMultiple(g, 15); }
    if g == 3 { PowerMultiple(g, 5); }
    if g == 5 { PowerMultiple(g, 3); }
    if g == 17 { PowerMultiple(g, 5); }
  }

  /** 3 generates the multiplicative group: no exponent strictly between 0 and 255 gives one. */
  lemma GeneratorOrder(d: nat)
    requires 0 < d < 255
    ensures Power(d) != 1
  {
    hide Times3;
    OrderDivides255();
    if Power(d) == 1 {
      var g := CommonOrder(d, 255);
      var p: nat, q: nat :| d == p * g && 255 == q * g;
      DivisorsOf255(g, q);
      LiftOrder(g);
      assert false;
    }
  }

  lemma PowersDistinct(i: nat, j: nat)
    requires i < 255 && j < 255 && Power(i) == Power(j)
    ensures i == j
  {
    if i < j { PowerDifference(i, j); GeneratorOrder(j - i); }
    if j < i { PowerDifference(j, i); GeneratorOrder(i - j); }
  }

  lemma {:induction false} PowerModulo(n: nat)
    ensures Power(n) == Power(n % 255)
  {
    hide Times3, Iterate;
    if n >= 255 {
      OrderDivides255();
      IterateAdd(n - 255, 255, 1);
      PowerModulo(n - 255);
      ModuloShift(n - 255, 1);
    }
  }

  // ---- every non-zero byte is a power: 255 distinct values among 255 ----

  function PowersBelow(n: nat): set<int> {
    set i | 0 <= i < n :: Power(i) as int
  }

  lemma {:induction false} PowersCount(n: nat)
    requires n <= 255
    ensures |PowersBelow(n)| == n
  {
    if n > 0 {
      PowersCount(n - 1);
      assert PowersBelow(n) == PowersBelow(n - 1) + {Power(n - 1) as int};
      if Power(n - 1) as int in PowersBelow(n - 1) {
        var i :| 0 <= i < n - 1 && Power(i) as int == Power(n - 1) as int;
        assert Power(i) == (Power(i) as int) as Byte == Power(n - 1);
        PowersDistinct(i, n - 1);
        assert false;
      }
    }
  }

  function OneTo(n: nat): set<int> {
    if n == 0 then {} else OneTo(n - 1) + {n}
  }

  lemma {:induction false} OneToContents(n: nat)
    ensures |OneTo(n)| == n && forall i :: i in OneTo(n) <==> 1 <= i <= n
  {
    if n > 0 { OneToContents(n - 1); }
  }

  lemma SubsetSameSize(s: set<int>, t: set<int>)
    requires s <= t && |s| == |t|
    ensures s == t
  {
    assert t == s + (t - s);
  }

  lemma EveryByteIsAPower(a: Byte)
    requires a != 0
    ensures exists i: nat :: i < 255 && Power(i) == a
  {
    var all := OneTo(255);
    OneToContents(255);
    forall i | 0 <= i < 255 ensures Power(i) as int in all {
      PowerNonZero(i);
      assert Power(i) as int != 0 by { assert (Power(i) as int) as Byte == Power(i); }
    }
    PowersCount(255);
    SubsetSameSize(PowersBelow(255), all);
    assert a as int != 0 by { assert (a as int) as Byte == a; }
    assert a as int in PowersBelow(255);
    var i :| 0 <= i < 255 && Power(i) as int == a as int;
    assert Power(i) == (Power(i) as int) as Byte == a;
  }

  // ---- the field operations ----

  lemma ModuloLaws(i: int, j: int, k: int)
    ensures (i % 255 + k) % 255 == (i + k) % 255
    ensures (i % 255 - k) % 255 == (i - k) % 255
    ensures (i + j % 255) % 255 == (i + j) % 255
  {
    var q, r := i / 255, i % 255;
    assert i == 255 * q + r;
    ModuloShift(r + k, q);
    ModuloShift(r - k, q);
    ModuloShift(i + j % 255, j / 255);
  }

  lemma ModuloShift(i: int, q: int)
    ensures (i + 255 * q) % 255 == i % 255
  {
    var s, t := i / 255, i % 255;
    assert i + 255 * q == 255 * (s + q) + t;
  }

  /** The discrete logarithm to base 3. */
  ghost function Log(a: Byte): (i: nat)
    requires a != 0
    ensures i < 255 && Power(i) == a
  {
    EveryByteIsAPower(a);
    var i: nat :| i < 255 && Power(i) == a;
    i
  }

  lemma LogOfPower(i: nat)
    requires i < 255
    ensures Power(i) != 0 && Log(Power(i)) == i
  {
    PowerNonZero(i);
    PowersDistinct(i, Log(Power(i)));
  }

  /** `_mul`: add the logarithms modulo 255. */
  ghost function Multiply(a: Byte, b: Byte): Byte {
    if a == 0 || b == 0 then 0 else Power((Log(a) + Log(b)) % 255)
  }

  /** `_div` for a non-zero divisor: subtract the logarithms modulo 255. */
  ghost function Quotient(a: Byte, b: Byte): Byte
    requires b != 0
  {
    if a == 0 then 0 else Power((Log(a) - Log(b)) % 255)
  }

  lemma MultiplyIsIterate(a: Byte, b: Byte)
    requires a != 0
    ensures Multiply(a, b) == Iterate(Log(a), b)
  {
    hide Times3;
    if b == 0 {
      IterateZero(Log(a));
    } else {
      IterateAdd(Log(a), Log(b), 1);
      PowerModulo(Log(a) + Log(b));
    }
  }

  lemma MultiplyBasics(a: Byte, b: Byte)
    ensures Multiply(a, b) == Multiply(b, a)
    ensures Multiply(a, 0) == 0 && Multiply(0, a) == 0
    ensures Multiply(1, a) == a && Multiply(a, 1) == a
    ensures Multiply(a, b) == 0 <==> a == 0 || b == 0
  {
    hide Times3;
    LogOfPower(0);
    if a != 0 {
      assert Multiply(1, a) == Power(Log(a) % 255);
      if b != 0 { PowerNonZero((Log(a) + Log(b)) % 255); }
    }
  }

  lemma MultiplyPowers(i: nat, j: nat)
    requires i < 255 && j < 255
    ensures Multiply(Power(i), Power(j)) == Power((i + j) % 255)
  {
    hide Times3, Iterate;
    LogOfPower(i);
    LogOfPower(j);
  }

  lemma MultiplyAssociative(a: Byte, b: Byte, c: Byte)
    ensures Multiply(Multiply(a, b), c) == Multiply(a, Multiply(b, c))
  {
    hide Times3, Iterate, Power, Multiply;
    MultiplyBasics(a, b);
    MultiplyBasics(b, c);
    if a == 0 || b == 0 || c == 0 {
      MultiplyBasics(Multiply(a, b), c);
      MultiplyBasics(a, Multiply(b, c));
    } else {
      var i, j, k := Log(a), Log(b), Log(c);
      MultiplyPowers(i, j);
      MultiplyPowers(j, k);
      MultiplyPowers((i + j) % 255, k);
      MultiplyPowers(i, (j + k) % 255);
      ModuloLaws(i + j, 0, k);
      ModuloLaws(i, j + k, 0);
    }
  }

  lemma MultiplyDistributes(a: Byte, b: Byte, c: Byte)
    ensures Multiply(a, Add(b, c)) == Add(Multiply(a, b), Multiply(a, c))
    ensures Multiply(Add(b, c), a) == Add(Multiply(b, a), Multiply(c, a))
  {
    hide Times3, Power, Iterate, Add, Multiply;
    MultiplyBasics(a, Add(b, c));
    MultiplyBasics(a, b);
    MultiplyBasics(a, c);
    if a == 0 {
      AddLaws(0, 0);
    } else {
      MultiplyIsIterate(a, b);
      MultiplyIsIterate(a, c);
      MultiplyIsIterate(a, Add(b, c));
      IterateLinear(Log(a), b, c);
    }
  }

  lemma QuotientPowers(i: nat, j: nat)
    requires i < 255 && j < 255
    ensures Power(j) != 0 && Quotient(Power(i), Power(j)) == Power(((i as int) - j) % 255)
  {
    hide Times3, Iterate;
    LogOfPower(i);
    LogOfPower(j);
  }

  lemma ShiftBack(i: int, j: int)
    requires 0 <= i < 255 && 0 <= j < 255
    ensures ((i + j) % 255 - j) % 255 == i && ((i - j) % 255 + j) % 255 == i
  {}

  lemma MultiplyThenDivide(i: nat, j: nat)
    requires i < 255 && j < 255
    ensures Power(j) != 0 && Quotient(Multiply(Power(i), Power(j)), Power(j)) == Power(i)
  {
    hide Power, Multiply, Quotient;
    MultiplyPowers(i, j);
    QuotientPowers((i + j) % 255, j);
    ShiftBack(i, j);
  }

  lemma DivideThenMultiply(i: nat, j: nat)
    requires i < 255 && j < 255
    ensures Power(j) != 0 && Multiply(Quotient(Power(i), Power(j)), Power(j)) == Power(i)
  {
    hide Power, Multiply, Quotient;
    QuotientPowers(i, j);
    MultiplyPowers(((i as int) - j) % 255, j);
    ShiftBack(i, j);
  }

  /** Division undoes multiplication, in both orders. */
  lemma QuotientInverts(a: Byte, b: Byte)
    requires b != 0
    ensures Quotient(Multiply(a, b), b) == a
    ensures Multiply(Quotient(a, b), b) == a
  {
    hide Times3, Iterate, Power;
    if a != 0 {
      hide Multiply, Quotient;
      MultiplyThenDivide(Log(a), Log(b));
      DivideThenMultiply(Log(a), Log(b));
    }
  }

  // ---- independent definition: polynomials over GF(2) modulo 0x11B ----

  /** The sum over the low n bits of b of b_k * x^k * a, where multiplying by x is `Times2`. */
  function PolynomialProduct(a: Byte, b: Byte, n: nat): Byte
    decreases n
  {
    if n == 0 then 0
    else Add(if b & 1 != 0 then a else 0, PolynomialProduct(Times2(a), b >> 1, n - 1))
  }

  lemma TimesCommute(a: Byte)
    ensures Times2(Times3(a)) == Times3(Times2(a)) && Times3(0) == 0
  {
    assert Times3(0) == 0;
    hide Times2, Add;
    Times2Linear(a, Times2(a));
  }

  /** Multiplying the left factor by the generator multiplies the product by it. */
  lemma {:induction false} ProductTimes3(a: Byte, b: Byte, n: nat)
    ensures PolynomialProduct(Times3(a), b, n) == Times3(PolynomialProduct(a, b, n))
    decreases n
  {
    hide Times2, Times3, Add;
    TimesCommute(a);
    if n > 0 {
      ProductTimes3(Times2(a), b >> 1, n - 1);
      Times3Linear(if b & 1 != 0 then a else 0, PolynomialProduct(Times2(a), b >> 1, n - 1));
    }
  }

  lemma {:induction false} ProductOfZero(b: Byte, n: nat)
    ensures PolynomialProduct(0, b, n) == 0
    decreases n
  {
    if n > 0 { ProductOfZero(b >> 1, n - 1); }
  }

  lemma ProductOfBit(b: Byte)
    ensures PolynomialProduct(16, b >> 4, 4) == (b >> 4) << 4
  {
    assert PolynomialProduct(128, b >> 7, 1) == (b >> 7) << 7;
    assert PolynomialProduct(64, b >> 6, 2) == (b >> 6) << 6;
    assert PolynomialProduct(32, b >> 5, 3) == (b >> 5) << 5;
  }

  lemma ProductOfOne(b: Byte)
    ensures PolynomialProduct(1, b, 8) == b
  {
    ProductOfBit(b);
    assert PolynomialProduct(8, b >> 3, 5) == (b >> 3) << 3;
    assert PolynomialProduct(4, b >> 2, 6) == (b >> 2) << 2;
    assert PolynomialProduct(2, b >> 1, 7) == (b >> 1) << 1;
  }

  lemma {:induction false} ProductOfIterate(i: nat, b: Byte)
    ensures PolynomialProduct(Power(i), b, 8) == Iterate(i, b)
  {
    hide Times3, PolynomialProduct;
    if i == 0 {
      ProductOfOne(b);
    } else {
      ProductOfIterate(i - 1, b);
      ProductTimes3(Power(i - 1), b, 8);
    }
  }

  /** What the tables compute is polynomial multiplication modulo 0x11B. */
  lemma MultiplyIsPolynomialProduct(a: Byte, b: Byte)
    ensures Multiply(a, b) == PolynomialProduct(a, b, 8)
  {
    hide Times3, Times2, PolynomialProduct, Iterate;
    if a == 0 {
      ProductOfZero(b, 8);
    } else {
      hide Multiply;
      MultiplyIsIterate(a, b);
      ProductOfIterate(Log(a), b);
    }
  }
}
