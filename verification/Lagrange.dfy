/** Lagrange interpolation at zero over GF(256), as the loops of `combine` compute it, and the proof
    that it recovers the constant term of every polynomial of length at most the number of points.

    Sums and products range over the indices in a set `keep`, so that the induction can drop a point
    without renumbering the others. */
module Lagrange {
  import opened Gf256
  import opened Polynomial

  function Indices(n: nat): (s: set<nat>)
    ensures |s| == n && forall j: nat :: j in s <==> j < n
  {
    if n == 0 then {} else Indices(n - 1) + {n - 1}
  }

  /** The product of xs[j] over j < n in keep other than i. */
  ghost function Numerator(xs: seq<Byte>, keep: set<nat>, i: nat, n: nat): Byte
    requires n <= |xs|
  {
    if n == 0 then 1
    else if n - 1 == i || n - 1 !in keep then Numerator(xs, keep, i, n - 1)
    else Multiply(Numerator(xs, keep, i, n - 1), xs[n - 1])
  }

  /** The product of xs[i] + xs[j] over j < n in keep other than i. */
  ghost function Denominator(xs: seq<Byte>, keep: set<nat>, i: nat, n: nat): (d: Byte)
    requires n <= |xs| && i < |xs| && Distinct(xs)
    ensures d != 0
  {
    hide Add, Multiply;
    if n == 0 then 1
    else if n - 1 == i || n - 1 !in keep then Denominator(xs, keep, i, n - 1)
    else
      MultiplyBasics(Denominator(xs, keep, i, n - 1), Add(xs[i], xs[n - 1]));
      AddLaws(xs[i], xs[n - 1]);
      Multiply(Denominator(xs, keep, i, n - 1), Add(xs[i], xs[n - 1]))
  }

  /** The i-th Lagrange basis polynomial at zero. */
  ghost function Weight(xs: seq<Byte>, keep: set<nat>, i: nat): Byte
    requires i < |xs| && Distinct(xs)
  {
    Quotient(Numerator(xs, keep, i, |xs|), Denominator(xs, keep, i, |xs|))
  }

  /** The sum of ys[i] * Weight(i) over i < n in keep. */
  ghost function WeightedSum(xs: seq<Byte>, ys: seq<Byte>, keep: set<nat>, n: nat): Byte
    requires |xs| == |ys| && n <= |xs| && Distinct(xs)
  {
    if n == 0 then 0
    else if n - 1 !in keep then WeightedSum(xs, ys, keep, n - 1)
    else Add(WeightedSum(xs, ys, keep, n - 1), Multiply(ys[n - 1], Weight(xs, keep, n - 1)))
  }

  // ---- dropping one point ----

  lemma SwapFactors(a: Byte, b: Byte, c: Byte)
    ensures Multiply(Multiply(a, b), c) == Multiply(Multiply(a, c), b)
  {
    hide Multiply;
    MultiplyAssociative(a, b, c);
    MultiplyAssociative(a, c, b);
    MultiplyBasics(b, c);
  }

  lemma {:induction false} DropNumerator(xs: seq<Byte>, keep: set<nat>, r: nat, i: nat, n: nat)
    requires n <= |xs| && r in keep && r != i
    ensures Numerator(xs, keep, i, n) ==
            if r < n then Multiply(Numerator(xs, keep - {r}, i, n), xs[r])
            else Numerator(xs, keep - {r}, i, n)
  {
    hide Multiply;
    if n > 0 {
      DropNumerator(xs, keep, r, i, n - 1);
      if r < n - 1 { SwapFactors(Numerator(xs, keep - {r}, i, n - 1), xs[r], xs[n - 1]); }
    }
  }

  lemma {:induction false} DropDenominator(xs: seq<Byte>, keep: set<nat>, r: nat, i: nat, n: nat)
    requires n <= |xs| && i < |xs| && r in keep && r != i && Distinct(xs)
    ensures Denominator(xs, keep, i, n) ==
            if r < n then Multiply(Denominator(xs, keep - {r}, i, n), Add(xs[i], xs[r]))
            else Denominator(xs, keep - {r}, i, n)
  {
    hide Multiply, Add;
    if n > 0 {
      DropDenominator(xs, keep, r, i, n - 1);
      if r < n - 1 {
        SwapFactors(Denominator(xs, keep - {r}, i, n - 1), Add(xs[i], xs[r]), Add(xs[i], xs[n - 1]));
      }
    }
  }

  lemma CrossMultiply(w: Byte, v: Byte, n: Byte, d: Byte, x: Byte, e: Byte)
    requires d != 0 && Multiply(v, d) == n && Multiply(w, Multiply(d, e)) == Multiply(n, x)
    ensures Multiply(e, w) == Multiply(x, v)
  {
    hide Multiply;
    // d * (e * w) == n * x == d * (x * v)
    MultiplyAssociative(d, e, w);
    MultiplyBasics(w, Multiply(d, e));
    MultiplyBasics(v, d);
    MultiplyAssociative(d, v, x);
    MultiplyBasics(v, x);
    CancelFactor(d, Multiply(e, w), Multiply(x, v));
  }

  /** (xs[i] + xs[r]) * Weight(i) is xs[r] times the weight among the points without r. */
  lemma DropWeight(xs: seq<Byte>, keep: set<nat>, r: nat, i: nat)
    requires i < |xs| && r < |xs| && r in keep && r != i && Distinct(xs)
    ensures Multiply(Add(xs[i], xs[r]), Weight(xs, keep, i)) == Multiply(xs[r], Weight(xs, keep - {r}, i))
  {
    hide Multiply, Add, Numerator, Denominator, Quotient;
    DropNumerator(xs, keep, r, i, |xs|);
    DropDenominator(xs, keep, r, i, |xs|);
    var n, d := Numerator(xs, keep - {r}, i, |xs|), Denominator(xs, keep - {r}, i, |xs|);
    QuotientInverts(n, d);
    QuotientInverts(Numerator(xs, keep, i, |xs|), Denominator(xs, keep, i, |xs|));
    CrossMultiply(Weight(xs, keep, i), Weight(xs, keep - {r}, i), n, d, xs[r], Add(xs[i], xs[r]));
  }

  // ---- linearity of the weighted sum ----

  lemma {:induction false} SumAdds(xs: seq<Byte>, us: seq<Byte>, vs: seq<Byte>, ws: seq<Byte>, keep: set<nat>, n: nat)
    requires |xs| == |us| == |vs| == |ws| && n <= |xs| && Distinct(xs)
    requires forall i :: 0 <= i < n && i in keep ==> ws[i] == Add(us[i], vs[i])
    ensures WeightedSum(xs, ws, keep, n) == Add(WeightedSum(xs, us, keep, n), WeightedSum(xs, vs, keep, n))
  {
    hide Multiply, Add, Weight;
    if n == 0 {
      AddLaws(0, 0);
    } else {
      SumAdds(xs, us, vs, ws, keep, n - 1);
      if n - 1 in keep {
        var w := Weight(xs, keep, n - 1);
        MultiplyDistributes(w, us[n - 1], vs[n - 1]);
        AddShuffle(WeightedSum(xs, us, keep, n - 1), WeightedSum(xs, vs, keep, n - 1),
                   Multiply(us[n - 1], w), Multiply(vs[n - 1], w));
      }
    }
  }

  lemma {:induction false} SumScales(xs: seq<Byte>, c: Byte, keep: set<nat>, ones: seq<Byte>, cs: seq<Byte>, n: nat)
    requires |xs| == |ones| == |cs| && n <= |xs| && Distinct(xs)
    requires forall i :: 0 <= i < n && i in keep ==> ones[i] == 1 && cs[i] == c
    ensures WeightedSum(xs, cs, keep, n) == Multiply(c, WeightedSum(xs, ones, keep, n))
  {
    hide Multiply, Add, Weight;
    if n == 0 {
      MultiplyBasics(c, 0);
    } else {
      SumScales(xs, c, keep, ones, cs, n - 1);
      if n - 1 in keep {
        var w := Weight(xs, keep, n - 1);
        MultiplyBasics(1, w);
        MultiplyBasics(w, 0);
        MultiplyDistributes(c, WeightedSum(xs, ones, keep, n - 1), w);
      }
    }
  }

  /** A sum whose terms carry the factor xs[i] + xs[r] is xs[r] times the sum without r. */
  lemma {:induction false} SumDrops(xs: seq<Byte>, ys: seq<Byte>, zs: seq<Byte>, keep: set<nat>, r: nat, n: nat)
    requires |xs| == |ys| == |zs| && n <= |xs| && r < |xs| && r in keep && Distinct(xs)
    requires forall i :: 0 <= i < n && i in keep ==> zs[i] == Multiply(ys[i], Add(xs[i], xs[r]))
    ensures WeightedSum(xs, zs, keep, n) == Multiply(xs[r], WeightedSum(xs, ys, keep - {r}, n))
  {
    hide Multiply, Add, Weight;
    if n == 0 {
      MultiplyBasics(xs[r], 0);
    } else {
      SumDrops(xs, ys, zs, keep, r, n - 1);
      var i := n - 1;
      var s := WeightedSum(xs, zs, keep, i);
      if i == r {
        AddLaws(xs[r], xs[r]);
        MultiplyBasics(ys[r], 0);
        MultiplyBasics(Weight(xs, keep, r), 0);
        AddLaws(s, 0);
      } else if i in keep {
        var w, v := Weight(xs, keep, i), Weight(xs, keep - {r}, i);
        DropWeight(xs, keep, r, i);
        MultiplyAssociative(ys[i], Add(xs[i], xs[r]), w);
        MultiplyAssociative(ys[i], xs[r], v);
        MultiplyAssociative(xs[r], ys[i], v);
        MultiplyBasics(ys[i], xs[r]);
        MultiplyDistributes(xs[r], WeightedSum(xs, ys, keep - {r}, i), Multiply(ys[i], v));
      }
    }
  }

  // ---- the weights sum to one ----

  function Constant(c: Byte, n: nat): (s: seq<Byte>)
    ensures |s| == n && forall i :: 0 <= i < n ==> s[i] == c
  {
    seq(n, _ => c)
  }

  ghost function Offsets(xs: seq<Byte>, c: Byte): (s: seq<Byte>)
    ensures |s| == |xs| && forall i :: 0 <= i < |xs| ==> s[i] == Add(xs[i], c)
  {
    seq(|xs|, i requires 0 <= i < |xs| => Add(xs[i], c))
  }

  lemma {:induction false} SumEmpty(xs: seq<Byte>, ys: seq<Byte>, keep: set<nat>, n: nat)
    requires |xs| == |ys| && n <= |xs| && Distinct(xs)
    requires forall i :: 0 <= i < n ==> i !in keep
    ensures WeightedSum(xs, ys, keep, n) == 0
  {
    if n > 0 { SumEmpty(xs, ys, keep, n - 1); }
  }

  lemma {:induction false} SinglePointProducts(xs: seq<Byte>, r: nat, n: nat)
    requires n <= |xs| && r < |xs| && Distinct(xs)
    ensures Numerator(xs, {r}, r, n) == 1 && Denominator(xs, {r}, r, n) == 1
  {
    if n > 0 { SinglePointProducts(xs, r, n - 1); }
  }

  lemma {:induction false} SinglePoint(xs: seq<Byte>, r: nat, n: nat)
    requires n <= |xs| && r < |xs| && Distinct(xs)
    ensures WeightedSum(xs, Constant(1, |xs|), {r}, n) == if r < n then 1 else 0
  {
    hide Multiply, Add, Quotient;
    if n > 0 {
      SinglePoint(xs, r, n - 1);
      if n - 1 == r {
        SinglePointProducts(xs, r, |xs|);
        QuotientInverts(1, 1);
        MultiplyBasics(1, 1);
        AddLaws(1, 0);
      }
    }
  }

  lemma {:induction false} WeightsSumToOne(xs: seq<Byte>, keep: set<nat>)
    requires keep != {} && keep <= Indices(|xs|) && Distinct(xs)
    ensures WeightedSum(xs, Constant(1, |xs|), keep, |xs|) == 1
    decreases |keep|
  {
    hide Multiply, Add, Weight, WeightedSum;
    var r :| r in keep;
    if keep == {r} {
      SinglePoint(xs, r, |xs|);
    } else {
      assert keep - {r} != {} by { assert keep == {r} + (keep - {r}); }
      var t :| t in keep - {r};
      var n, one := |xs|, Constant(1, |xs|);
      var atR, atT := Offsets(xs, xs[r]), Offsets(xs, xs[t]);
      var c := Add(xs[r], xs[t]);
      WeightsSumToOne(xs, keep - {r});
      WeightsSumToOne(xs, keep - {t});
      forall i | 0 <= i < n
        ensures atR[i] == Multiply(one[i], Add(xs[i], xs[r]))
        ensures atT[i] == Multiply(one[i], Add(xs[i], xs[t]))
        ensures c == Add(atR[i], atT[i])
      {
        MultiplyBasics(Add(xs[i], xs[r]), 1);
        MultiplyBasics(Add(xs[i], xs[t]), 1);
        AddShuffle(xs[i], xs[r], xs[i], xs[t]);
        AddLaws(xs[i], xs[i]);
        AddLaws(c, 0);
      }
      SumDrops(xs, one, atR, keep, r, n);
      SumDrops(xs, one, atT, keep, t, n);
      SumAdds(xs, atR, atT, Constant(c, n), keep, n);
      SumScales(xs, c, keep, one, Constant(c, n), n);
      MultiplyBasics(xs[r], 1);
      MultiplyBasics(xs[t], 1);
      MultiplyBasics(c, 1);
      AddLaws(xs[r], xs[t]);
      CancelFactor(c, WeightedSum(xs, one, keep, n), 1);
    }
  }

  // ---- interpolation at zero ----

  ghost function Values(p: Polynomial, xs: seq<Byte>): (s: seq<Byte>)
    ensures |s| == |xs| && forall i :: 0 <= i < |xs| ==> s[i] == Eval(p, xs[i])
  {
    seq(|xs|, i requires 0 <= i < |xs| => Eval(p, xs[i]))
  }

  /** At least |p| points of the polynomial p determine its value at zero. */
  lemma {:induction false} InterpolationAtZero(p: Polynomial, xs: seq<Byte>, keep: set<nat>)
    requires keep <= Indices(|xs|) && Distinct(xs) && |p| <= |keep|
    ensures WeightedSum(xs, Values(p, xs), keep, |xs|) == Eval(p, 0)
    decreases |p|
  {
    hide Multiply, Add, Weight, WeightedSum, DivideAt;
    var n, one := |xs|, Constant(1, |xs|);
    if p == [] {
      SumScales(xs, 0, keep, one, Values(p, xs), n);
      MultiplyBasics(0, WeightedSum(xs, one, keep, n));
    } else {
      hide Eval;
      var r :| r in keep;
      var q := DivideAt(p, xs[r]);
      var v := Eval(p, xs[r]);
      var zs := seq(n, i requires 0 <= i < n => Multiply(Eval(q, xs[i]), Add(xs[i], xs[r])));
      forall i | 0 <= i < n ensures Values(p, xs)[i] == Add(Constant(v, n)[i], zs[i]) {
        Division(p, xs[r], xs[i]);
        MultiplyBasics(Eval(q, xs[i]), Add(xs[i], xs[r]));
      }
      SumAdds(xs, Constant(v, n), zs, Values(p, xs), keep, n);
      SumScales(xs, v, keep, one, Constant(v, n), n);
      WeightsSumToOne(xs, keep);
      MultiplyBasics(v, 1);
      SumDrops(xs, Values(q, xs), zs, keep, r, n);
      InterpolationAtZero(q, xs, keep - {r});
      Division(p, xs[r], 0);
      AddLaws(xs[r], 0);
    }
  }
}
