/** Polynomials over GF(256) as coefficient sequences, constant term first: evaluation, synthetic
    division by x + r, and the existence and uniqueness of the interpolating polynomial. */
module Polynomial {
  import opened Gf256

  type Polynomial = seq<Byte>

  /** Horner evaluation. */
  ghost function Eval(p: Polynomial, x: Byte): Byte {
    if p == [] then 0 else Add(p[0], Multiply(x, Eval(p[1..], x)))
  }

  /** Synthetic division: the q with p(x) = p(r) + (x + r) * q(x). */
  ghost function DivideAt(p: Polynomial, r: Byte): (q: Polynomial)
    ensures |q| == if p == [] then 0 else |p| - 1
  {
    if |p| <= 1 then [] else [Eval(p[1..], r)] + DivideAt(p[1..], r)
  }

  /** The inverse of `DivideAt`: v + (x + r) * q(x). */
  ghost function MultiplyAt(q: Polynomial, r: Byte, v: Byte): (p: Polynomial)
    ensures |p| == |q| + 1
  {
    if q == [] then [v] else [Add(v, Multiply(r, q[0]))] + MultiplyAt(q[1..], r, q[0])
  }

  lemma {:induction false} EvalMultiplyAt(q: Polynomial, r: Byte, v: Byte, x: Byte)
    ensures Eval(MultiplyAt(q, r, v), x) == Add(v, Multiply(Add(x, r), Eval(q, x)))
  {
    hide Add, Multiply;
    if q == [] {
      MultiplyBasics(x, 0);
      MultiplyBasics(Add(x, r), 0);
      AddLaws(v, 0);
      assert Eval([v], x) == Add(v, Multiply(x, Eval([], x)));
    } else {
      var e := Eval(q[1..], x);
      var d := Add(x, r);
      EvalMultiplyAt(q[1..], r, q[0], x);
      assert MultiplyAt(q, r, v)[1..] == MultiplyAt(q[1..], r, q[0]);
      // (v + r*q0) + x*(q0 + d*e)  ==  v + d*(q0 + x*e)
      MultiplyDistributes(x, q[0], Multiply(d, e));
      MultiplyDistributes(d, q[0], Multiply(x, e));
      MultiplyDistributes(q[0], x, r);
      MultiplyAssociative(x, d, e);
      MultiplyAssociative(d, x, e);
      MultiplyBasics(x, d);
      MultiplyBasics(q[0], x);
      MultiplyBasics(q[0], r);
      MultiplyBasics(q[0], d);
      var m := Multiply(Multiply(x, d), e);
      AddAssociative(v, Multiply(r, q[0]), Add(Multiply(x, q[0]), m));
      AddAssociative(Multiply(r, q[0]), Multiply(x, q[0]), m);
      AddLaws(Multiply(r, q[0]), Multiply(x, q[0]));
    }
  }

  lemma {:induction false} MultiplyAtDivideAt(p: Polynomial, r: Byte)
    requires p != []
    ensures MultiplyAt(DivideAt(p, r), r, Eval(p, r)) == p
  {
    hide Add, Multiply;
    if |p| == 1 {
      MultiplyBasics(r, 0);
      AddLaws(p[0], 0);
    } else {
      MultiplyAtDivideAt(p[1..], r);
      AddCancel(p[0], Multiply(r, Eval(p[1..], r)));
      assert DivideAt(p, r)[1..] == DivideAt(p[1..], r);
    }
  }

  lemma Division(p: Polynomial, r: Byte, x: Byte)
    ensures Eval(p, x) == Add(Eval(p, r), Multiply(Add(x, r), Eval(DivideAt(p, r), x)))
  {
    hide Add, Multiply;
    if p == [] {
      MultiplyBasics(Add(x, r), 0);
      AddLaws(0, 0);
    } else {
      MultiplyAtDivideAt(p, r);
      EvalMultiplyAt(DivideAt(p, r), r, Eval(p, r), x);
    }
  }

  ghost predicate Distinct(xs: seq<Byte>) {
    forall i, j :: 0 <= i < j < |xs| ==> xs[i] != xs[j]
  }

  /** The polynomial takes the value ys[i] at xs[i]. */
  ghost predicate Passes(p: Polynomial, xs: seq<Byte>, ys: seq<Byte>)
    requires |xs| == |ys|
  {
    forall i :: 0 <= i < |xs| ==> Eval(p, xs[i]) == ys[i]
  }

  lemma CancelFactor(d: Byte, a: Byte, b: Byte)
    requires d != 0 && Multiply(d, a) == Multiply(d, b)
    ensures a == b
  {
    hide Add, Multiply, Quotient;
    MultiplyBasics(d, a);
    MultiplyBasics(d, b);
    QuotientInverts(a, d);
    QuotientInverts(b, d);
  }

  lemma CancelTerm(v: Byte, a: Byte, b: Byte)
    requires Add(v, a) == Add(v, b)
    ensures a == b
  {
    hide Add;
    AddCancel(a, v);
    AddCancel(b, v);
    AddLaws(v, a);
    AddLaws(v, b);
  }

  /** Two polynomials of one length, at most the number of points, that agree on all of them are equal. */
  lemma {:induction false} InterpolationUnique(p: Polynomial, q: Polynomial, xs: seq<Byte>, ys: seq<Byte>)
    requires |p| == |q| <= |xs| == |ys| && Distinct(xs)
    requires Passes(p, xs, ys) && Passes(q, xs, ys)
    ensures p == q
    decreases |xs|
  {
    hide Add, Multiply, Eval, DivideAt, MultiplyAt;
    if p != [] {
      var r := xs[0];
      var p', q' := DivideAt(p, r), DivideAt(q, r);
      var zs := seq(|xs| - 1, i requires 0 <= i < |xs| - 1 => Eval(p', xs[i + 1]));
      forall i | 0 <= i < |xs| - 1 ensures Eval(q', xs[1..][i]) == zs[i] {
        var x := xs[i + 1];
        Division(p, r, x);
        Division(q, r, x);
        CancelTerm(Eval(p, r), Multiply(Add(x, r), Eval(p', x)), Multiply(Add(x, r), Eval(q', x)));
        AddLaws(x, r);
        CancelFactor(Add(x, r), Eval(p', x), Eval(q', x));
      }
      InterpolationUnique(p', q', xs[1..], zs);
      MultiplyAtDivideAt(p, r);
      MultiplyAtDivideAt(q, r);
    }
  }

  /** The interpolating polynomial, in Newton's form. */
  ghost function Interpolate(xs: seq<Byte>, ys: seq<Byte>): (p: Polynomial)
    requires |xs| == |ys| && Distinct(xs)
    ensures |p| == |xs|
    decreases |xs|
  {
    if xs == [] then []
    else
      MultiplyAt(Interpolate(xs[1..], Slopes(xs, ys)), xs[0], ys[0])
  }

  /** (ys[i] + ys[0]) / (xs[i] + xs[0]) for the points after the first. */
  ghost function Slopes(xs: seq<Byte>, ys: seq<Byte>): (zs: seq<Byte>)
    requires |xs| == |ys| > 0 && Distinct(xs)
    ensures |zs| == |xs| - 1
    ensures forall i :: 0 <= i < |zs| ==> Multiply(Add(xs[i + 1], xs[0]), zs[i]) == Add(ys[i + 1], ys[0])
  {
    hide Add, Multiply, Quotient;
    assert forall i :: 1 <= i < |xs| ==> Add(xs[i], xs[0]) != 0 by {
      forall i | 1 <= i < |xs| ensures Add(xs[i], xs[0]) != 0 { AddLaws(xs[i], xs[0]); }
    }
    var zs := seq(|xs| - 1, i requires 0 <= i < |xs| - 1 =>
      Quotient(Add(ys[i + 1], ys[0]), Add(xs[i + 1], xs[0])));
    assert forall i :: 0 <= i < |zs| ==> Multiply(Add(xs[i + 1], xs[0]), zs[i]) == Add(ys[i + 1], ys[0]) by {
      forall i | 0 <= i < |zs| ensures Multiply(Add(xs[i + 1], xs[0]), zs[i]) == Add(ys[i + 1], ys[0]) {
        QuotientInverts(Add(ys[i + 1], ys[0]), Add(xs[i + 1], xs[0]));
        MultiplyBasics(Add(xs[i + 1], xs[0]), zs[i]);
      }
    }
    zs
  }

  lemma {:induction false} InterpolationExists(xs: seq<Byte>, ys: seq<Byte>)
    requires |xs| == |ys| && Distinct(xs)
    ensures Passes(Interpolate(xs, ys), xs, ys)
  {
    hide Add, Multiply, Eval, MultiplyAt;
    if xs != [] {
      var zs := Slopes(xs, ys);
      InterpolationExists(xs[1..], zs);
      var q := Interpolate(xs[1..], zs);
      forall i | 0 <= i < |xs| ensures Eval(Interpolate(xs, ys), xs[i]) == ys[i] {
        EvalMultiplyAt(q, xs[0], ys[0], xs[i]);
        if i == 0 {
          AddLaws(xs[0], xs[0]);
          MultiplyBasics(0, Eval(q, xs[0]));
          AddLaws(ys[0], 0);
        } else {
          assert xs[1..][i - 1] == xs[i];
          assert Eval(q, xs[i]) == zs[i - 1];
          AddCancel(ys[i], ys[0]);
          AddLaws(ys[i], ys[0]);
        }
      }
    }
  }
}
