// The weights that recoverSecret computes at x = 0, and the Lagrange polynomials behind them.
// A share index enters the field through its residue, so it may be any non-negative integer.

module Lagrange {
  import opened BitPatterns
  import opened Bytes
  import opened GF256
  import opened GF256Inverse
  import opened Polynomials

  /** The field element that a share index stands for; a byte stands for itself. */
  function Point(index: nat): (x: Byte)
  {
    Mul(1, index)
  }

  ghost predicate DistinctPoints(xs: seq<nat>)
  {
    forall i, j :: 0 <= i < j < |xs| ==> Point(xs[i]) != Point(xs[j])
  }

  function Points(xs: seq<nat>): (ps: seq<Byte>)
    ensures |ps| == |xs| && forall i :: 0 <= i < |xs| ==> ps[i] == Point(xs[i])
  {
    seq(|xs|, i requires 0 <= i < |xs| => Point(xs[i]))
  }

  // --- What the loops compute. ---

  /** The product of xs[j] over j < n, j != i. */
  function Numerator(xs: seq<nat>, i: nat, n: nat): (r: Byte)
    requires n <= |xs|
  {
    if n == 0 then 1
    else if n - 1 == i then Numerator(xs, i, n - 1)
    else Mul(Numerator(xs, i, n - 1), xs[n - 1])
  }

  /** The product of xs[i] ^ xs[j] over j < n, j != i. */
  function Denominator(xs: seq<nat>, i: nat, n: nat): (r: Byte)
    requires i < |xs| && n <= |xs|
  {
    if n == 0 then 1
    else if n - 1 == i then Denominator(xs, i, n - 1)
    else Mul(Denominator(xs, i, n - 1), Xor(xs[i], xs[n - 1]))
  }

  /** The Lagrange basis value L_i(0). */
  function Weight(xs: seq<nat>, i: nat): (w: Byte)
    requires i < |xs|
  {
    Mul(Numerator(xs, i, |xs|), Inv(Denominator(xs, i, |xs|)))
  }

  function Weights(xs: seq<nat>): (ws: seq<Byte>)
    ensures |ws| == |xs|
    ensures forall i :: 0 <= i < |xs| ==> ws[i] == Weight(xs, i)
  {
    seq(|xs|, i requires 0 <= i < |xs| => Weight(xs, i))
  }

  /** The weighted sum of the values: interpolation at x = 0. */
  function Interpolated(xs: seq<nat>, ys: seq<Byte>): (r: Byte)
    requires |xs| == |ys|
  {
    Dot(ys, Weights(xs), |xs|)
  }

  // --- Indices as field elements. ---

  lemma MulPoint(a: Byte, index: nat)
    ensures Mul(a, index) == Mul(a, Point(index))
  {
    MulAssoc(a, 1, index);
    MulComm(a, 1);
    MulOne(a);
  }

  lemma PointXor(m: nat, n: nat)
    ensures Point(Xor(m, n)) == Add(Point(m), Point(n))
  {
    MulXorRight(1, m, n);
  }

  // --- The Lagrange basis polynomials. ---

  /** The product of X - xs[j] over j < n, j != i. */
  function Basis(xs: seq<nat>, i: nat, n: nat): (p: Poly)
    requires n <= |xs|
    ensures |p| == if i < n then n else n + 1
  {
    if n == 0 then [1]
    else if n - 1 == i then Basis(xs, i, n - 1)
    else TimesLinear(Basis(xs, i, n - 1), Point(xs[n - 1]), 0)
  }

  function Bases(xs: seq<nat>): (ps: seq<Poly>)
    ensures |ps| == |xs|
    ensures forall i :: 0 <= i < |xs| ==> ps[i] == Basis(xs, i, |xs|) && |ps[i]| == |xs|
  {
    seq(|xs|, i requires 0 <= i < |xs| => Basis(xs, i, |xs|))
  }

  /** One more factor, seen at 0, at another point, and at its own root. */
  lemma FactorAtZero(p: Poly, index: nat, value: Byte)
    requires Eval(p, 0) == value
    ensures Eval(TimesLinear(p, Point(index), 0), 0) == Mul(value, index)
  {
    EvalTimesLinear(p, Point(index), 0, 0);
    AddZero(Mul(value, Point(index)), 0);
    AddZero(Point(index), 0);
    MulPoint(value, index);
  }

  lemma FactorAtPoint(p: Poly, index: nat, at: nat, value: Byte)
    requires Eval(p, Point(at)) == value
    ensures Eval(TimesLinear(p, Point(index), 0), Point(at)) == Mul(value, Xor(at, index))
  {
    EvalTimesLinear(p, Point(index), 0, Point(at));
    AddZero(Mul(value, Add(Point(at), Point(index))), 0);
    PointXor(at, index);
    MulPoint(value, Xor(at, index));
  }

  lemma FactorKeepsRoot(p: Poly, index: nat, x: Byte)
    requires Eval(p, x) == 0 || x == Point(index)
    ensures Eval(TimesLinear(p, Point(index), 0), x) == 0
  {
    var v, d := Eval(p, x), Add(x, Point(index));
    EvalTimesLinear(p, Point(index), 0, x);
    AddZero(x, Point(index));
    MulZero(d);
    MulComm(v, 0);
    MulZero(v);
    AddZero(0, 0);
  }

  lemma EvalOne(x: Byte)
    ensures Eval([1], x) == 1
  {
    MulZero(x);
    AddZero(1, 0);
  }

  lemma {:induction false} BasisAtZero(xs: seq<nat>, i: nat, n: nat)
    requires n <= |xs|
    ensures Eval(Basis(xs, i, n), 0) == Numerator(xs, i, n)
  {
    if n == 0 {
      EvalOne(0);
    } else {
      BasisAtZero(xs, i, n - 1);
      FactorAtZero(Basis(xs, i, n - 1), xs[n - 1], Numerator(xs, i, n - 1));
    }
  }

  lemma {:induction false} BasisAtOwnPoint(xs: seq<nat>, i: nat, n: nat)
    requires i < |xs| && n <= |xs|
    ensures Eval(Basis(xs, i, n), Point(xs[i])) == Denominator(xs, i, n)
  {
    if n == 0 {
      EvalOne(Point(xs[i]));
    } else {
      BasisAtOwnPoint(xs, i, n - 1);
      FactorAtPoint(Basis(xs, i, n - 1), xs[n - 1], xs[i], Denominator(xs, i, n - 1));
    }
  }

  lemma {:induction false} BasisAtOtherPoint(xs: seq<nat>, i: nat, n: nat, m: nat)
    requires m < n <= |xs| && m != i
    ensures Eval(Basis(xs, i, n), Point(xs[m])) == 0
  {
    if n - 1 == i {
      BasisAtOtherPoint(xs, i, n - 1, m);
    } else {
      if n - 1 != m { BasisAtOtherPoint(xs, i, n - 1, m); }
      FactorKeepsRoot(Basis(xs, i, n - 1), xs[n - 1], Point(xs[m]));
    }
  }

  lemma ProductZero(a: Byte, m: nat, n: nat)
    ensures Mul(a, Xor(m, n)) == 0 <==> a == 0 || Point(m) == Point(n)
  {
    var f := Point(Xor(m, n));
    MulPoint(a, Xor(m, n));
    PointXor(m, n);
    AddZero(Point(m), Point(n));
    MulComm(a, 0);
    MulZero(a);
    MulZero(f);
    if Mul(a, f) == 0 { NoZeroDivisors(a, f); }
  }

  /** The denominator of i vanishes exactly when another index has the same residue. */
  lemma {:induction false} DenominatorZero(xs: seq<nat>, i: nat, n: nat)
    requires i < |xs| && n <= |xs|
    ensures Denominator(xs, i, n) == 0 <==> exists j :: 0 <= j < n && j != i && Point(xs[i]) == Point(xs[j])
  {
    if n > 0 {
      DenominatorZero(xs, i, n - 1);
      ProductZero(Denominator(xs, i, n - 1), xs[i], xs[n - 1]);
    }
  }

  // --- Interpolation. ---

  /** y / Denominator(i), the coefficient of the i-th basis polynomial. */
  function Coefficient(xs: seq<nat>, i: nat, y: Byte): (c: Byte)
    requires i < |xs|
  {
    Mul(y, Inv(Denominator(xs, i, |xs|)))
  }

  function Coefficients(xs: seq<nat>, ys: seq<Byte>): (cs: seq<Byte>)
    requires |xs| == |ys|
    ensures |cs| == |xs| && forall i :: 0 <= i < |xs| ==> cs[i] == Coefficient(xs, i, ys[i])
  {
    seq(|xs|, i requires 0 <= i < |xs| => Coefficient(xs, i, ys[i]))
  }

  /** The Lagrange polynomial through the points. */
  function Interpolant(xs: seq<nat>, ys: seq<Byte>): (p: Poly)
    requires |xs| == |ys|
    ensures |p| == |xs|
  {
    Combination(Coefficients(xs, ys), Bases(xs), |xs|, |xs|)
  }

  /** At its own point, the i-th term contributes y. */
  lemma OwnTerm(xs: seq<nat>, i: nat, y: Byte)
    requires i < |xs| && DistinctPoints(xs)
    ensures Mul(Coefficient(xs, i, y), Eval(Basis(xs, i, |xs|), Point(xs[i]))) == y
  {
    var d := Denominator(xs, i, |xs|);
    BasisAtOwnPoint(xs, i, |xs|);
    DenominatorZero(xs, i, |xs|);
    Quotient(y, d);
  }

  lemma Quotient(y: Byte, d: Byte)
    requires d != 0
    ensures Mul(Mul(y, Inv(d)), d) == y
  {
    MulAssoc(y, Inv(d), d);
    InvCorrect(d);
    MulComm(y, 1);
    MulOne(y);
  }

  /** At 0, the i-th term contributes y times the weight. */
  lemma TermAtZero(xs: seq<nat>, i: nat, y: Byte)
    requires i < |xs|
    ensures Mul(Coefficient(xs, i, y), Eval(Basis(xs, i, |xs|), 0)) == Mul(y, Weight(xs, i))
  {
    BasisAtZero(xs, i, |xs|);
    Regroup(y, Inv(Denominator(xs, i, |xs|)), Numerator(xs, i, |xs|));
  }

  lemma Regroup(a: Byte, b: Byte, c: Byte)
    ensures Mul(Mul(a, b), c) == Mul(a, Mul(c, b))
  {
    MulAssoc(a, b, c);
    MulComm(b, c);
  }

  /** Interpolants exist: this one takes the value ys[m] at each point xs[m]. */
  lemma InterpolantAtPoint(xs: seq<nat>, ys: seq<Byte>, m: nat)
    requires m < |xs| == |ys| && DistinctPoints(xs)
    ensures Eval(Interpolant(xs, ys), Point(xs[m])) == ys[m]
  {
    var cs, ps, x := Coefficients(xs, ys), Bases(xs), Point(xs[m]);
    EvalCombination(cs, ps, |xs|, |xs|, x);
    forall i | 0 <= i < |xs| && i != m ensures Values(ps, x)[i] == 0
    {
      BasisAtOtherPoint(xs, i, |xs|, m);
    }
    OwnTerm(xs, m, ys[m]);
    DotUnit(cs, Values(ps, x), |xs|, m);
  }

  lemma InterpolantAtZero(xs: seq<nat>, ys: seq<Byte>)
    requires |xs| == |ys|
    ensures Eval(Interpolant(xs, ys), 0) == Interpolated(xs, ys)
  {
    var cs, ps := Coefficients(xs, ys), Bases(xs);
    EvalCombination(cs, ps, |xs|, |xs|, 0);
    forall i | 0 <= i < |xs| ensures Mul(cs[i], Values(ps, 0)[i]) == Mul(ys[i], Weights(xs)[i])
    {
      TermAtZero(xs, i, ys[i]);
    }
    DotTermwise(cs, Values(ps, 0), ys, Weights(xs), |xs|);
  }

  /** The weighted sum is the value at 0 of any short enough polynomial through the points. */
  lemma InterpolatedIsValueAtZero(xs: seq<nat>, ys: seq<Byte>, p: Poly)
    requires |p| <= |xs| == |ys| && DistinctPoints(xs)
    requires forall i :: 0 <= i < |xs| ==> ys[i] == Eval(p, Point(xs[i]))
    ensures Interpolated(xs, ys) == Eval(p, 0)
  {
    var q := Interpolant(xs, ys);
    forall i | 0 <= i < |xs| ensures Eval(q, Points(xs)[i]) == Eval(p, Points(xs)[i])
    {
      InterpolantAtPoint(xs, ys, i);
    }
    InterpolationAgrees(q, p, Points(xs), 0);
    InterpolantAtZero(xs, ys);
  }

  // --- When the weights exist. ---

  ghost predicate Invertible(xs: seq<nat>, n: nat)
    requires n <= |xs|
  {
    forall m :: 0 <= m < n ==> Denominator(xs, m, |xs|) != 0
  }

  lemma NoZeroDenominator(xs: seq<nat>)
    requires Invertible(xs, |xs|)
    ensures DistinctPoints(xs)
  {
    forall i, j | 0 <= i < j < |xs| ensures Point(xs[i]) != Point(xs[j])
    {
      DenominatorZero(xs, i, |xs|);
    }
  }

  lemma ZeroDenominator(xs: seq<nat>, i: nat)
    requires i < |xs| && Denominator(xs, i, |xs|) == 0
    ensures !DistinctPoints(xs)
  {
    DenominatorZero(xs, i, |xs|);
  }

  // --- The weights as a linear functional. ---

  function Monomial(m: nat): (p: Poly)
    ensures |p| == m + 1
  {
    if m == 0 then [1] else [0] + Monomial(m - 1)
  }

  lemma {:induction false} EvalMonomial(m: nat, x: Byte)
    ensures Eval(Monomial(m), x) == Pow(x, m)
  {
    if m == 0 {
      EvalOne(x);
    } else {
      EvalMonomial(m - 1, x);
      MulComm(x, Pow(x, m - 1));
      AddZero(Pow(x, m), 0);
    }
  }

  /** The weighted sum of the m-th powers of k points is 1 for m = 0 and 0 for 0 < m < k. */
  lemma WeightsOfPowers(xs: seq<nat>, ys: seq<Byte>, m: nat)
    requires m < |xs| == |ys| && DistinctPoints(xs)
    requires forall i :: 0 <= i < |xs| ==> ys[i] == Pow(Point(xs[i]), m)
    ensures Interpolated(xs, ys) == if m == 0 then 1 else 0
  {
    forall i | 0 <= i < |xs| ensures ys[i] == Eval(Monomial(m), Point(xs[i]))
    {
      EvalMonomial(m, Point(xs[i]));
    }
    InterpolatedIsValueAtZero(xs, ys, Monomial(m));
    EvalMonomial(m, 0);
    if m > 0 { MulZero(Pow(0, m - 1)); }
  }

  /** Interpolation is linear over XOR in the values. */
  lemma InterpolatedLinear(xs: seq<nat>, ys: seq<Byte>, zs: seq<Byte>, ws: seq<Byte>)
    requires |xs| == |ys| == |zs| == |ws|
    requires forall i :: 0 <= i < |xs| ==> ws[i] == Add(ys[i], zs[i])
    ensures Interpolated(xs, ws) == Add(Interpolated(xs, ys), Interpolated(xs, zs))
  {
    DotLinear(ys, zs, ws, Weights(xs), |xs|);
  }
}
