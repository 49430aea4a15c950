/** Secret splitting and recombination of `trust/shamir.py`.

    The ghost functions `Shares` and `Combined` say what the source's loops compute; the class
    `Tables` holds the log/exp tables and the loops themselves; the lemmas at the end are the two
    promises of the scheme: any k shares reconstruct, and k - 1 shares fit every secret equally. */
module Shamir {
  import opened Outcomes
  import opened Gf256
  import opened Polynomial
  import opened Lagrange

  datatype Share = Share(x: int, y: seq<Byte>)

  datatype Error =
    | BadThreshold
    | TooFewShares
    | BadCoordinate
    | DuplicateCoordinate
    | LengthMismatch
    | DivisionByZero

  type Result<+T> = Outcome<T, Error>

  // ---- what split and combine compute ----

  predicate ValidThreshold(k: int, n: int) {
    2 <= k <= n <= 255
  }

  /** One list of k - 1 random coefficients for every byte of the secret. */
  predicate RandomFor(random: seq<seq<Byte>>, secret: seq<Byte>, k: int) {
    |random| == |secret| && forall pos :: 0 <= pos < |random| ==> |random[pos]| == k - 1
  }

  /** Byte `pos` of the share at x: the polynomial with that secret byte as constant term, at x. */
  ghost function ShareByte(secret: Byte, random: seq<Byte>, x: int): Byte
    requires 0 <= x <= 255
  {
    Eval([secret] + random, AsByte(x))
  }

  ghost function ShareAt(secret: seq<Byte>, random: seq<seq<Byte>>, x: int): (s: Share)
    requires |random| == |secret| && 0 <= x <= 255
    ensures s.x == x && |s.y| == |secret|
    ensures forall pos :: 0 <= pos < |secret| ==> s.y[pos] == ShareByte(secret[pos], random[pos], x)
  {
    Share(x, seq(|secret|, pos requires 0 <= pos < |secret| => ShareByte(secret[pos], random[pos], x)))
  }

  /** The shares at x = 1, ..., n. */
  ghost function Shares(secret: seq<Byte>, random: seq<seq<Byte>>, n: int): (s: seq<Share>)
    requires |random| == |secret| && 0 <= n <= 255
    ensures |s| == n && forall i :: 0 <= i < n ==> s[i] == ShareAt(secret, random, i + 1)
  {
    seq(n, i requires 0 <= i < n => ShareAt(secret, random, i + 1))
  }

  predicate GoodCoordinates(shares: seq<Share>) {
    forall i :: 0 <= i < |shares| ==> 1 <= shares[i].x <= 255
  }

  predicate DistinctCoordinates(shares: seq<Share>) {
    forall i, j :: 0 <= i < j < |shares| ==> shares[i].x != shares[j].x
  }

  predicate SameLength(shares: seq<Share>, length: nat) {
    forall i :: 0 <= i < |shares| ==> |shares[i].y| == length
  }

  function Coordinates(shares: seq<Share>): (xs: seq<Byte>)
    requires GoodCoordinates(shares)
    ensures |xs| == |shares| && forall i :: 0 <= i < |xs| ==> xs[i] == AsByte(shares[i].x)
  {
    seq(|shares|, i requires 0 <= i < |shares| => AsByte(shares[i].x))
  }

  function Column(shares: seq<Share>, pos: nat): (ys: seq<Byte>)
    requires forall i :: 0 <= i < |shares| ==> pos < |shares[i].y|
    ensures |ys| == |shares| && forall i :: 0 <= i < |ys| ==> ys[i] == shares[i].y[pos]
  {
    seq(|shares|, i requires 0 <= i < |shares| => shares[i].y[pos])
  }

  lemma CoordinatesDistinct(shares: seq<Share>)
    requires GoodCoordinates(shares) && DistinctCoordinates(shares)
    ensures Distinct(Coordinates(shares))
  {
    hide AsByte, AsIndex;
    var xs := Coordinates(shares);
    forall i, j | 0 <= i < j < |xs| ensures xs[i] != xs[j] {
      ConversionsInverse(0, shares[i].x);
      ConversionsInverse(0, shares[j].x);
    }
  }

  /** The byte that Lagrange interpolation at zero yields from one column of the shares. */
  ghost function Recovered(shares: seq<Share>, pos: nat): Byte
    requires GoodCoordinates(shares) && DistinctCoordinates(shares)
    requires forall i :: 0 <= i < |shares| ==> pos < |shares[i].y|
  {
    CoordinatesDistinct(shares);
    WeightedSum(Coordinates(shares), Column(shares, pos), Indices(|shares|), |shares|)
  }

  ghost function Combined(shares: seq<Share>): Result<seq<Byte>> {
    if |shares| < 2 then Err(TooFewShares)
    else if !GoodCoordinates(shares) then Err(BadCoordinate)
    else if !DistinctCoordinates(shares) then Err(DuplicateCoordinate)
    else if !SameLength(shares, |shares[0].y|) then Err(LengthMismatch)
    else Ok(seq(|shares[0].y|, pos requires 0 <= pos < |shares[0].y| => Recovered(shares, pos)))
  }

  // ---- the tables and the loops ----

  /** The module-level `_EXP` and `_LOG` and the functions that read them. */
  class Tables {
    const exp: array<Byte>
    const log: array<int>

    ghost predicate Valid()
      reads exp, log
    {
      && exp.Length == 255 && log.Length == 256
      && (forall i: nat :: i < 255 ==> exp[i] == Power(i))
      && (forall a: Byte :: a != 0 ==> log[AsIndex(a)] == Log(a))
    }

    constructor ()
      ensures Valid() && fresh(exp) && fresh(log)
    {
      var e := new Byte[255](_ => 0);
      var l := new int[256](_ => 0);
      exp, log := e, l;
      new;
      var a: Byte := 1;
      for i := 0 to 255
        invariant exp == e && log == l && exp.Length == 255 && log.Length == 256
        invariant a == Power(i)
        invariant forall j: nat :: j < i ==> exp[j] == Power(j)
        invariant forall j: nat :: j < i ==> log[AsIndex(Power(j))] == j
      {
        hide Times3, Power, AsByte, AsIndex;
        forall j: nat | j < i ensures AsIndex(Power(j)) != AsIndex(a) {
          ConversionsInverse(Power(j), 0);
          ConversionsInverse(a, 0);
          if Power(j) == a { PowersDistinct(i, j); }
        }
        exp[i] := a;
        log[AsIndex(a)] := i;
        PowerStep(i);
        a := Times3(a);
      }
      forall a: Byte | a != 0 ensures log[AsIndex(a)] == Log(a) {
        assert Power(Log(a)) == a;
      }
    }

    method Mul(a: Byte, b: Byte) returns (c: Byte)
      requires Valid()
      ensures c == Multiply(a, b)
    {
      if a == 0 || b == 0 {
        return 0;
      }
      return exp[(log[AsIndex(a)] + log[AsIndex(b)]) % 255];
    }

    method Div(a: Byte, b: Byte) returns (c: Result<Byte>)
      requires Valid()
      ensures c == if a == 0 then Ok(0) else if b == 0 then Err(DivisionByZero) else Ok(Gf256.Quotient(a, b))
    {
      if a == 0 {
        return Ok(0);
      }
      if b == 0 {
        return Err(DivisionByZero);
      }
      return Ok(exp[(log[AsIndex(a)] - log[AsIndex(b)]) % 255]);
    }

    method Evaluate(coeffs: seq<Byte>, x: Byte) returns (y: Byte)
      requires Valid()
      ensures y == Eval(coeffs, x)
    {
      hide Multiply, Add;
      y := 0;
      var i := |coeffs|;
      while i > 0
        invariant 0 <= i <= |coeffs|
        invariant y == Eval(coeffs[i..], x)
      {
        i := i - 1;
        assert coeffs[i..][1..] == coeffs[i + 1..];
        MultiplyBasics(x, y);
        var m := Mul(y, x);
        AddLaws(m, coeffs[i]);
        y := Add(m, coeffs[i]);
      }
      assert coeffs[0..] == coeffs;
    }

    method Split(secret: seq<Byte>, k: int, n: int, random: seq<seq<Byte>>) returns (r: Result<seq<Share>>)
      requires Valid()
      requires ValidThreshold(k, n) ==> RandomFor(random, secret, k)
      ensures 2 <= k <= n <= 255 ==> r == Ok(Shares(secret, random, n))
      ensures k < 2 || n < k || n > 255 ==> r == Err(BadThreshold)
      ensures r.Ok? ==> forall i :: 0 <= i < |r.value| ==> r.value[i].x == i + 1
    {
      if !(2 <= k <= n <= 255) {
        return Err(BadThreshold);
      }
      var ys: seq<seq<Byte>> := seq(n, _ => []);
      for pos := 0 to |secret|
        invariant |ys| == n
        invariant forall i :: 0 <= i < n ==> ys[i] == ShareAt(secret[..pos], random[..pos], i + 1).y
      {
        var coeffs := [secret[pos]] + random[pos];
        ghost var before := ys;
        for i := 0 to n
          invariant |ys| == n
          invariant forall j :: 0 <= j < i ==> ys[j] == before[j] + [Eval(coeffs, AsByte(j + 1))]
          invariant forall j :: i <= j < n ==> ys[j] == before[j]
        {
          var y := Evaluate(coeffs, AsByte(i + 1));
          ys := ys[i := ys[i] + [y]];
        }
        forall i | 0 <= i < n
          ensures ys[i] == ShareAt(secret[..pos + 1], random[..pos + 1], i + 1).y
        {
          assert ys[i] == before[i] + [ShareByte(secret[pos], random[pos], i + 1)];
        }
      }
      assert secret[..|secret|] == secret && random[..|secret|] == random;
      r := Ok(seq(n, i requires 0 <= i < |ys| => Share(i + 1, ys[i])));
      assert r.value == Shares(secret, random, n);
    }

    method Combine(shares: seq<Share>) returns (r: Result<seq<Byte>>)
      requires Valid()
      ensures r == Combined(shares)
      ensures |shares| < 2 ==> r == Err(TooFewShares)
      ensures |shares| >= 2 ==>
                (r == Err(BadCoordinate) <==> exists i :: 0 <= i < |shares| && !(0 < shares[i].x < 256))
      ensures |shares| >= 2 && r != Err(BadCoordinate) ==>
                (r == Err(DuplicateCoordinate) <==> exists i, j :: 0 <= i < j < |shares| && shares[i].x == shares[j].x)
      ensures |shares| >= 2 && r != Err(BadCoordinate) && r != Err(DuplicateCoordinate) ==>
                (r == Err(LengthMismatch) <==> exists i :: 0 <= i < |shares| && |shares[i].y| != |shares[0].y|)
      ensures |shares| >= 2 && r.Err? ==> r.error in {BadCoordinate, DuplicateCoordinate, LengthMismatch}
    {
      if |shares| < 2 {
        return Err(TooFewShares);
      }
      if !GoodCoordinates(shares) {
        return Err(BadCoordinate);
      }
      if !DistinctCoordinates(shares) {
        return Err(DuplicateCoordinate);
      }
      var length := |shares[0].y|;
      if !SameLength(shares, length) {
        return Err(LengthMismatch);
      }
      var out: seq<Byte> := [];
      for pos := 0 to length
        invariant |out| == pos
        invariant forall p :: 0 <= p < pos ==> out[p] == Recovered(shares, p)
      {
        var byte := CombineByte(shares, pos);
        out := out + [byte];
      }
      r := Ok(out);
      assert out == Combined(shares).value;
    }

    /** The body of the position loop: one byte of the secret. */
    method CombineByte(shares: seq<Share>, pos: nat) returns (byte: Byte)
      requires Valid()
      requires GoodCoordinates(shares) && DistinctCoordinates(shares)
      requires forall i :: 0 <= i < |shares| ==> pos < |shares[i].y|
      ensures byte == Recovered(shares, pos)
    {
      hide Multiply, Add, Weight, AsByte, Indices;
      ghost var xs, ys, all := Coordinates(shares), Column(shares, pos), Indices(|shares|);
      CoordinatesDistinct(shares);
      byte := 0;
      for i := 0 to |shares|
        invariant byte == WeightedSum(xs, ys, all, i)
      {
        var basis := Basis(shares, i);
        var m := Mul(shares[i].y[pos], basis);
        byte := Add(byte, m);
      }
    }

    /** The inner loop: the i-th Lagrange basis polynomial at zero. */
    method Basis(shares: seq<Share>, i: nat) returns (basis: Byte)
      requires Valid() && i < |shares|
      requires GoodCoordinates(shares) && DistinctCoordinates(shares)
      ensures Distinct(Coordinates(shares))
      ensures basis == Weight(Coordinates(shares), Indices(|shares|), i)
    {
      hide Multiply, Add, Gf256.Quotient, AsByte, Indices;
      ghost var xs, all := Coordinates(shares), Indices(|shares|);
      CoordinatesDistinct(shares);
      var num, den: Byte := 1, 1;
      var xi := AsByte(shares[i].x);
      for j := 0 to |shares|
        invariant num == Numerator(xs, all, i, j) && den == Denominator(xs, all, i, j)
      {
        if i != j {
          var xj := AsByte(shares[j].x);
          num := Mul(num, xj);
          den := Mul(den, Add(xi, xj));
        }
      }
      QuotientOfZero(den);
      var q := Div(num, den);
      basis := q.value;
    }
  }

  lemma PowerStep(i: nat)
    ensures Power(i + 1) == Times3(Power(i))
  {}

  lemma QuotientOfZero(b: Byte)
    requires b != 0
    ensures Gf256.Quotient(0, b) == 0
  {}

  // ---- the two promises ----

  /** The shares of a split that a coalition holds, named by their indices, in any order. */
  function Pick(shares: seq<Share>, chosen: seq<nat>): (s: seq<Share>)
    requires forall i :: 0 <= i < |chosen| ==> chosen[i] < |shares|
    ensures |s| == |chosen| && forall i :: 0 <= i < |s| ==> s[i] == shares[chosen[i]]
  {
    seq(|chosen|, i requires 0 <= i < |chosen| => shares[chosen[i]])
  }

  predicate Coalition(chosen: seq<nat>, n: int) {
    && (forall i :: 0 <= i < |chosen| ==> chosen[i] < n)
    && (forall i, j :: 0 <= i < j < |chosen| ==> chosen[i] != chosen[j])
  }

  /** Any k or more distinct shares of one split, in any order, give back exactly the secret. */
  lemma Reconstruction(secret: seq<Byte>, random: seq<seq<Byte>>, k: int, n: int, chosen: seq<nat>)
    requires ValidThreshold(k, n) && RandomFor(random, secret, k)
    requires Coalition(chosen, n) && |chosen| >= k
    ensures Combined(Pick(Shares(secret, random, n), chosen)) == Ok(secret)
  {
    hide WeightedSum, Eval, AsByte, AsIndex;
    var picked := Pick(Shares(secret, random, n), chosen);
    assert GoodCoordinates(picked) && DistinctCoordinates(picked) && SameLength(picked, |secret|);
    CoordinatesDistinct(picked);
    var xs := Coordinates(picked);
    forall pos | 0 <= pos < |secret| ensures Recovered(picked, pos) == secret[pos] {
      var p := [secret[pos]] + random[pos];
      assert Column(picked, pos) == Values(p, xs);
      InterpolationAtZero(p, xs, Indices(|picked|));
      EvalAtZero(p);
    }
    assert Combined(picked).value == secret;
  }

  lemma EvalAtZero(p: Polynomial)
    requires p != []
    ensures Eval(p, 0) == p[0]
  {
    hide Add, Multiply;
    MultiplyBasics(Eval(p[1..], 0), 0);
    AddLaws(p[0], 0);
  }

  /** c is the one list of coefficients that takes the values ys at xs with this secret byte. */
  ghost predicate OnlyFit(c: seq<Byte>, secret: Byte, xs: seq<Byte>, ys: seq<Byte>)
    requires |xs| == |ys|
  {
    && |c| == |xs| && Passes([secret] + c, xs, ys)
    && forall d: seq<Byte> :: |d| == |xs| && Passes([secret] + d, xs, ys) ==> d == c
  }

  /** For distinct non-zero points, any values and any secret byte, exactly one list of coefficients
      passes through them. */
  lemma CoefficientsFit(xs: seq<Byte>, ys: seq<Byte>, secret: Byte) returns (c: seq<Byte>)
    requires |xs| == |ys| && Distinct(xs) && forall i :: 0 <= i < |xs| ==> xs[i] != 0
    ensures OnlyFit(c, secret, xs, ys)
  {
    hide Eval;
    // The secret is a point too, at x = 0, so this is interpolation through |xs| + 1 points.
    var xs', ys' := [0] + xs, [secret] + ys;
    assert Distinct(xs');
    var p := Interpolate(xs', ys');
    InterpolationExists(xs', ys');
    assert Eval(p, xs'[0]) == ys'[0];
    EvalAtZero(p);
    c := p[1..];
    assert p == [secret] + c;
    forall i | 0 <= i < |xs| ensures Eval(p, xs[i]) == ys[i] {
      assert Eval(p, xs'[i + 1]) == ys'[i + 1];
    }
    forall d: seq<Byte> | |d| == |xs| && Passes([secret] + d, xs, ys) ensures d == c {
      var q := [secret] + d;
      EvalAtZero(q);
      assert Passes(q, xs', ys');
      InterpolationUnique(p, q, xs', ys');
      assert d == q[1..];
    }
  }

  /** Splitting `other` with the coefficients `alt` yields the columns of the shares `held`. */
  ghost predicate FitsShares(other: seq<Byte>, alt: seq<seq<Byte>>, held: seq<Share>)
    requires |alt| == |other| && GoodCoordinates(held) && SameLength(held, |other|)
  {
    forall pos :: 0 <= pos < |other| ==> Passes([other[pos]] + alt[pos], Coordinates(held), Column(held, pos))
  }

  lemma SameSharesIffFits(secret: seq<Byte>, random: seq<seq<Byte>>, other: seq<Byte>, alt: seq<seq<Byte>>,
                          n: int, chosen: seq<nat>, held: seq<Share>)
    requires 0 <= n <= 255 && |random| == |secret| == |other| == |alt| && Coalition(chosen, n)
    requires held == Pick(Shares(secret, random, n), chosen) && GoodCoordinates(held)
    ensures Pick(Shares(other, alt, n), chosen) == held <==> FitsShares(other, alt, held)
  {
    hide Eval, AsByte, AsIndex;
    var theirs := Pick(Shares(other, alt, n), chosen);
    var xs := Coordinates(held);
    if theirs == held {
      forall pos | 0 <= pos < |other| ensures Passes([other[pos]] + alt[pos], xs, Column(held, pos)) {
        forall i | 0 <= i < |xs| ensures Eval([other[pos]] + alt[pos], xs[i]) == Column(held, pos)[i] {
          assert theirs[i].y[pos] == ShareByte(other[pos], alt[pos], chosen[i] + 1);
        }
      }
    }
    if FitsShares(other, alt, held) {
      forall i | 0 <= i < |chosen| ensures theirs[i] == held[i] {
        forall pos | 0 <= pos < |other| ensures theirs[i].y[pos] == held[i].y[pos] {
          assert Passes([other[pos]] + alt[pos], xs, Column(held, pos));
          assert Eval([other[pos]] + alt[pos], xs[i]) == Column(held, pos)[i];
        }
      }
    }
  }

  /** The one choice of coefficients that fits the held shares, found byte by byte. */
  lemma FitShares(other: seq<Byte>, held: seq<Share>, k: int) returns (fit: seq<seq<Byte>>)
    requires GoodCoordinates(held) && DistinctCoordinates(held) && SameLength(held, |other|) && |held| == k - 1
    ensures RandomFor(fit, other, k) && FitsShares(other, fit, held)
    ensures forall alt: seq<seq<Byte>> :: RandomFor(alt, other, k) && FitsShares(other, alt, held) ==> alt == fit
  {
    hide Eval, AsByte, AsIndex, Passes;
    var xs := Coordinates(held);
    CoordinatesDistinct(held);
    forall i | 0 <= i < |xs| ensures xs[i] != 0 { ConversionsInverse(0, held[i].x); }
    fit := [];
    while |fit| < |other|
      invariant |fit| <= |other|
      invariant forall pos :: 0 <= pos < |fit| ==> OnlyFit(fit[pos], other[pos], xs, Column(held, pos))
    {
      var c := CoefficientsFit(xs, Column(held, |fit|), other[|fit|]);
      fit := fit + [c];
    }
    forall alt: seq<seq<Byte>> | RandomFor(alt, other, k) && FitsShares(other, alt, held) ensures alt == fit {
      forall pos | 0 <= pos < |other| ensures alt[pos] == fit[pos] {
        assert OnlyFit(fit[pos], other[pos], xs, Column(held, pos));
      }
    }
  }

  /** Fewer than k shares reveal nothing: whatever k - 1 shares a coalition holds, and whatever other
      secret of the same length is considered, exactly one choice of the random coefficients splits
      that other secret into the very same shares. */
  lemma Secrecy(secret: seq<Byte>, random: seq<seq<Byte>>, other: seq<Byte>, k: int, n: int, chosen: seq<nat>)
    returns (fit: seq<seq<Byte>>)
    requires ValidThreshold(k, n) && RandomFor(random, secret, k)
    requires |other| == |secret| && Coalition(chosen, n) && |chosen| == k - 1
    ensures RandomFor(fit, other, k)
    ensures Pick(Shares(other, fit, n), chosen) == Pick(Shares(secret, random, n), chosen)
    ensures forall alt: seq<seq<Byte>> ::
              RandomFor(alt, other, k)
              && Pick(Shares(other, alt, n), chosen) == Pick(Shares(secret, random, n), chosen)
              ==> alt == fit
  {
    var held := Pick(Shares(secret, random, n), chosen);
    assert GoodCoordinates(held) && DistinctCoordinates(held) && SameLength(held, |other|);
    hide Pick, Shares, FitsShares;
    fit := FitShares(other, held, k);
    SameSharesIffFits(secret, random, other, fit, n, chosen, held);
    forall alt: seq<seq<Byte>> | RandomFor(alt, other, k) && Pick(Shares(other, alt, n), chosen) == held
      ensures alt == fit
    {
      SameSharesIffFits(secret, random, other, alt, n, chosen, held);
    }
  }
}
