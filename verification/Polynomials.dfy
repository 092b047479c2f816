// Polynomials over GF(2^8), lowest coefficient first: evaluation, division by a linear factor,
// and the existence and uniqueness of interpolation.

module Polynomials {
  import opened BitPatterns
  import opened Bytes
  import opened GF256
  import opened GF256Inverse

  type Poly = seq<Byte>

  ghost predicate Distinct(xs: seq<Byte>)
  {
    forall i, j :: 0 <= i < j < |xs| ==> xs[i] != xs[j]
  }

  ghost predicate AllZero(p: Poly)
  {
    forall i :: 0 <= i < |p| ==> p[i] == 0
  }

  /** p at the point x, by Horner's rule. */
  function Eval(p: Poly, x: Byte): (y: Byte)
  {
    if p == [] then 0 else Add(Mul(Eval(p[1..], x), x), p[0])
  }

  // --- Rearrangements used below. ---

  lemma AddZero(a: Byte, b: Byte)
    ensures Add(a, b) == 0 <==> a == b
    ensures Add(a, 0) == a && Add(0, a) == a && Add(a, a) == 0
  {
    XorSelf(a);
    XorCancel(a, b);
  }

  lemma MulDistributes(a: Byte, b: Byte, c: Byte)
    ensures Mul(Add(a, b), c) == Add(Mul(a, c), Mul(b, c))
    ensures Mul(c, Add(a, b)) == Add(Mul(c, a), Mul(c, b))
  {
    MulXorLeft(a, b, c);
    MulXorRight(c, a, b);
  }

  // --- Sums and multiples. ---

  /** p + c * q, for q no longer than p. */
  function AddScaled(p: Poly, c: Byte, q: Poly): (r: Poly)
    requires |q| <= |p|
    ensures |r| == |p|
  {
    if q == [] then p else [Add(p[0], Mul(c, q[0]))] + AddScaled(p[1..], c, q[1..])
  }

  lemma {:induction false} EvalAddScaled(p: Poly, c: Byte, q: Poly, x: Byte)
    requires |q| <= |p|
    ensures Eval(AddScaled(p, c, q), x) == Add(Eval(p, x), Mul(c, Eval(q, x)))
  {
    if q == [] {
      MulComm(c, 0);
      MulZero(c);
      AddZero(Eval(p, x), 0);
    } else {
      var u, v := Eval(p[1..], x), Eval(q[1..], x);
      EvalAddScaled(p[1..], c, q[1..], x);
      MulDistributes(u, Mul(c, v), x);
      MulAssoc(c, v, x);
      MulDistributes(Mul(v, x), q[0], c);
      XorSwap(Mul(u, x), Mul(c, Mul(v, x)), p[0], Mul(c, q[0]));
    }
  }

  /** (X - r) * p + c; in characteristic 2, X - r is X + r. */
  function TimesLinear(p: Poly, r: Byte, c: Byte): (q: Poly)
    ensures |q| == |p| + 1
  {
    if p == [] then [c] else [Add(c, Mul(p[0], r))] + TimesLinear(p[1..], r, p[0])
  }

  lemma {:induction false} EvalTimesLinear(p: Poly, r: Byte, c: Byte, x: Byte)
    ensures Eval(TimesLinear(p, r, c), x) == Add(Mul(Eval(p, x), Add(x, r)), c)
  {
    if p == [] {
      MulZero(x);
      MulZero(Add(x, r));
    } else {
      var v, h := Eval(p[1..], x), p[0];
      var q := TimesLinear(p[1..], r, h);
      EvalTimesLinear(p[1..], r, h, x);
      // v(x+r)x + hx + (c + hr) == (vx + h)(x + r) + c
      var w := Mul(v, Add(x, r));
      MulDistributes(w, h, x);
      MulAssoc(v, Add(x, r), x);
      MulComm(Add(x, r), x);
      MulAssoc(v, x, Add(x, r));
      MulDistributes(Mul(v, x), h, Add(x, r));
      MulDistributes(x, r, h);
      var a, b, d := Mul(Mul(v, x), Add(x, r)), Mul(h, x), Mul(h, r);
      assert Eval(TimesLinear(p, r, c), x) == Add(Add(a, b), Add(c, d));
      XorComm(c, d);
      XorAssoc(Add(a, b), d, c);
      XorAssoc(a, b, d);
    }
  }

  /** Synthetic division: p == (X - r) * quotient + p(r). */
  function DivLinear(p: Poly, r: Byte): (q: Poly)
    requires p != []
    ensures |q| == |p| - 1
  {
    if |p| == 1 then [] else [Eval(p[1..], r)] + DivLinear(p[1..], r)
  }

  lemma {:induction false} DivLinearExact(p: Poly, r: Byte)
    requires p != []
    ensures TimesLinear(DivLinear(p, r), r, Eval(p, r)) == p
  {
    var e := Eval(p[1..], r);
    XorComm(Mul(e, r), p[0]);
    XorCancel(p[0], Mul(e, r));
    if |p| == 1 {
      MulZero(r);
    } else {
      DivLinearExact(p[1..], r);
    }
  }

  lemma {:induction false} ZeroTimesLinear(p: Poly, r: Byte)
    requires AllZero(p)
    ensures AllZero(TimesLinear(p, r, 0))
  {
    if p != [] {
      MulZero(r);
      ZeroTimesLinear(p[1..], r);
    }
  }

  // --- Uniqueness of interpolation. ---

  /** A polynomial that vanishes at as many distinct points as it has coefficients is zero. */
  lemma {:induction false} ManyRoots(p: Poly, xs: seq<Byte>)
    requires |xs| == |p| && Distinct(xs)
    requires forall i :: 0 <= i < |xs| ==> Eval(p, xs[i]) == 0
    ensures AllZero(p)
    decreases |p|
  {
    if p != [] {
      var r := xs[0];
      var q := DivLinear(p, r);
      DivLinearExact(p, r);
      forall i | 0 <= i < |xs[1..]| ensures Eval(q, xs[1..][i]) == 0
      {
        var x := xs[i + 1];
        EvalTimesLinear(q, r, 0, x);
        AddZero(Mul(Eval(q, x), Add(x, r)), 0);
        AddZero(x, r);
        NoZeroDivisors(Eval(q, x), Add(x, r));
      }
      ManyRoots(q, xs[1..]);
      ZeroTimesLinear(q, r);
    }
  }

  lemma {:induction false} EvalAllZero(p: Poly, x: Byte)
    requires AllZero(p)
    ensures Eval(p, x) == 0
  {
    if p != [] {
      EvalAllZero(p[1..], x);
      MulZero(x);
    }
  }

  lemma DifferenceVanishes(p: Poly, q: Poly, xs: seq<Byte>)
    requires |q| <= |p| == |xs| && Distinct(xs)
    requires forall i :: 0 <= i < |xs| ==> Eval(p, xs[i]) == Eval(q, xs[i])
    ensures AllZero(AddScaled(p, 1, q))
  {
    var d := AddScaled(p, 1, q);
    forall i | 0 <= i < |xs| ensures Eval(d, xs[i]) == 0
    {
      EvalAddScaled(p, 1, q, xs[i]);
      MulOne(Eval(q, xs[i]));
      AddZero(Eval(p, xs[i]), Eval(q, xs[i]));
    }
    ManyRoots(d, xs);
  }

  /** Polynomials with at most |xs| coefficients that agree on xs agree at every point. */
  lemma InterpolationAgrees(p: Poly, q: Poly, xs: seq<Byte>, z: Byte)
    requires |q| <= |p| == |xs| && Distinct(xs)
    requires forall i :: 0 <= i < |xs| ==> Eval(p, xs[i]) == Eval(q, xs[i])
    ensures Eval(p, z) == Eval(q, z)
  {
    DifferenceVanishes(p, q, xs);
    EvalAllZero(AddScaled(p, 1, q), z);
    EvalAddScaled(p, 1, q, z);
    MulOne(Eval(q, z));
    AddZero(Eval(p, z), Eval(q, z));
  }

  lemma InterpolationUnique(p: Poly, q: Poly, xs: seq<Byte>)
    requires |q| == |p| == |xs| && Distinct(xs)
    requires forall i :: 0 <= i < |xs| ==> Eval(p, xs[i]) == Eval(q, xs[i])
    ensures p == q
  {
    DifferenceVanishes(p, q, xs);
    forall i | 0 <= i < |p| ensures p[i] == q[i]
    {
      AddScaledAt(p, 1, q, i);
      MulOne(q[i]);
      AddZero(p[i], q[i]);
    }
  }

  lemma {:induction false} AddScaledAt(p: Poly, c: Byte, q: Poly, i: nat)
    requires i < |q| <= |p|
    ensures AddScaled(p, c, q)[i] == Add(p[i], Mul(c, q[i]))
  {
    if i > 0 { AddScaledAt(p[1..], c, q[1..], i - 1); }
  }

  // --- Linear combinations of polynomials. ---

  /** The sum of us[i] * vs[i] over i < n. */
  function Dot(us: seq<Byte>, vs: seq<Byte>, n: nat): (r: Byte)
    requires n <= |us| && n <= |vs|
  {
    if n == 0 then 0 else Add(Dot(us, vs, n - 1), Mul(us[n - 1], vs[n - 1]))
  }

  lemma DotStep(us: seq<Byte>, vs: seq<Byte>, i: nat, sum: Byte, term: Byte)
    requires i < |us| && i < |vs| && sum == Dot(us, vs, i) && term == Mul(us[i], vs[i])
    ensures Add(sum, term) == Dot(us, vs, i + 1)
  {
  }

  lemma {:induction false} DotTermwise(us: seq<Byte>, vs: seq<Byte>, us': seq<Byte>, vs': seq<Byte>, n: nat)
    requires n <= |us| == |vs| == |us'| == |vs'|
    requires forall i :: 0 <= i < n ==> Mul(us[i], vs[i]) == Mul(us'[i], vs'[i])
    ensures Dot(us, vs, n) == Dot(us', vs', n)
  {
    if n > 0 { DotTermwise(us, vs, us', vs', n - 1); }
  }

  lemma {:induction false} DotUnit(us: seq<Byte>, vs: seq<Byte>, n: nat, m: nat)
    requires n <= |us| == |vs| && m < |us| && forall i :: 0 <= i < n && i != m ==> vs[i] == 0
    ensures Dot(us, vs, n) == if m < n then Mul(us[m], vs[m]) else 0
  {
    if n > 0 {
      DotUnit(us, vs, n - 1, m);
      AddZero(Mul(us[n - 1], vs[n - 1]), 0);
      if n - 1 != m {
        MulComm(us[n - 1], 0);
        MulZero(us[n - 1]);
        if m < n { AddZero(Mul(us[m], vs[m]), 0); }
      }
    }
  }

  lemma LinearTerm(a: Byte, b: Byte, y: Byte, z: Byte, w: Byte)
    ensures Add(Add(a, b), Mul(Add(y, z), w)) == Add(Add(a, Mul(y, w)), Add(b, Mul(z, w)))
  {
    MulDistributes(y, z, w);
    XorSwap(a, b, Mul(y, w), Mul(z, w));
  }

  lemma {:induction false} DotLinear(us: seq<Byte>, us': seq<Byte>, sums: seq<Byte>, vs: seq<Byte>, n: nat)
    requires n <= |us| == |us'| == |sums| == |vs|
    requires forall i :: 0 <= i < n ==> sums[i] == Add(us[i], us'[i])
    ensures Dot(sums, vs, n) == Add(Dot(us, vs, n), Dot(us', vs, n))
  {
    if n > 0 {
      DotLinear(us, us', sums, vs, n - 1);
      LinearTerm(Dot(us, vs, n - 1), Dot(us', vs, n - 1), us[n - 1], us'[n - 1], vs[n - 1]);
    }
  }

  function Zeros(k: nat): (p: Poly)
    ensures |p| == k && AllZero(p)
  {
    seq(k, i => 0)
  }

  /** The sum of cs[i] * ps[i] over i < n, with k coefficients. */
  function Combination(cs: seq<Byte>, ps: seq<Poly>, k: nat, n: nat): (p: Poly)
    requires n <= |cs| == |ps| && forall i :: 0 <= i < |ps| ==> |ps[i]| == k
    ensures |p| == k
  {
    if n == 0 then Zeros(k) else AddScaled(Combination(cs, ps, k, n - 1), cs[n - 1], ps[n - 1])
  }

  function Values(ps: seq<Poly>, x: Byte): (vs: seq<Byte>)
    ensures |vs| == |ps| && forall i :: 0 <= i < |ps| ==> vs[i] == Eval(ps[i], x)
  {
    seq(|ps|, i requires 0 <= i < |ps| => Eval(ps[i], x))
  }

  lemma {:induction false} EvalCombination(cs: seq<Byte>, ps: seq<Poly>, k: nat, n: nat, x: Byte)
    requires n <= |cs| == |ps| && forall i :: 0 <= i < |ps| ==> |ps[i]| == k
    ensures Eval(Combination(cs, ps, k, n), x) == Dot(cs, Values(ps, x), n)
  {
    if n == 0 {
      EvalAllZero(Zeros(k), x);
    } else {
      EvalCombination(cs, ps, k, n - 1, x);
      EvalAddScaled(Combination(cs, ps, k, n - 1), cs[n - 1], ps[n - 1], x);
    }
  }
}
