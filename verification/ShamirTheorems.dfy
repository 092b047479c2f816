// What splitSecret and recoverSecret promise together, for every draw of the coefficients.

module ShamirTheorems {
  import opened Bytes
  import opened GF256
  import opened Polynomials
  import opened Lagrange
  import opened Shamir
  import opened Results

  /** A choice of distinct shares, by position, out of n. */
  ghost predicate Choice(picks: seq<nat>, n: int)
  {
    && (forall i :: 0 <= i < |picks| ==> picks[i] < n)
    && (forall i, j :: 0 <= i < j < |picks| ==> picks[i] != picks[j])
  }

  function Chosen(secret: seq<Byte>, coins: seq<seq<Byte>>, picks: seq<nat>): (shares: seq<Share>)
    requires |coins| == |secret| && forall i :: 0 <= i < |picks| ==> picks[i] < 255
    ensures |shares| == |picks|
    ensures forall i :: 0 <= i < |picks| ==> shares[i] == ShareAt(secret, coins, picks[i] + 1)
  {
    seq(|picks|, i requires 0 <= i < |picks| => ShareAt(secret, coins, picks[i] + 1))
  }

  lemma ByteIsPoint(x: Byte)
    ensures Point(x) == x
  {
    MulOne(x);
  }

  lemma ChosenPoints(secret: seq<Byte>, coins: seq<seq<Byte>>, picks: seq<nat>, n: int)
    requires |coins| == |secret| && Choice(picks, n) && n <= 255
    ensures DistinctPoints(Indices(Chosen(secret, coins, picks)))
  {
    var xs := Indices(Chosen(secret, coins, picks));
    forall i, j | 0 <= i < j < |xs| ensures Point(xs[i]) != Point(xs[j])
    {
      ByteIsPoint(picks[i] + 1);
      ByteIsPoint(picks[j] + 1);
    }
  }

  lemma EvalAtZero(p: Poly)
    requires p != []
    ensures Eval(p, 0) == p[0]
  {
    var h := Eval(p[1..], 0);
    MulComm(h, 0);
    MulZero(h);
    AddZero(p[0], 0);
  }

  /** Any threshold or more distinct shares, in any order, give back the secret. */
  lemma SplitThenRecover(secret: seq<Byte>, n: int, threshold: int, coins: seq<seq<Byte>>, picks: seq<nat>)
    requires 2 <= threshold <= n <= 255 && secret != [] && Draws(coins, |secret|, threshold)
    requires Choice(picks, n) && |picks| >= threshold
    ensures Recovered(Chosen(secret, coins, picks)) == Ok(secret)
  {
    var shares := Chosen(secret, coins, picks);
    var xs := Indices(shares);
    ChosenPoints(secret, coins, picks, n);
    forall b | 0 <= b < |secret| ensures RecoveredByte(shares, b) == secret[b]
    {
      var p := [secret[b]] + coins[b];
      forall i | 0 <= i < |xs| ensures Column(shares, b)[i] == Eval(p, Point(xs[i]))
      {
        ByteIsPoint(picks[i] + 1);
      }
      InterpolatedIsValueAtZero(xs, Column(shares, b), p);
      EvalAtZero(p);
    }
    assert |shares[0].data| == |secret|;
    assert RecoveredBytes(shares) == secret;
  }

  // --- Fewer than threshold shares say nothing. ---

  /** These coefficients produce the given shares from this secret. */
  ghost predicate Explains(coins: seq<seq<Byte>>, secret: seq<Byte>, threshold: int, picks: seq<nat>,
                           shares: seq<Share>)
    requires forall i :: 0 <= i < |picks| ==> picks[i] < 255
  {
    Draws(coins, |secret|, threshold) && Chosen(secret, coins, picks) == shares
  }

  /** The points of the chosen shares, and 0 in front. */
  function WithZero(picks: seq<nat>): (xs: seq<nat>)
    ensures |xs| == |picks| + 1
  {
    [0] + seq(|picks|, i requires 0 <= i < |picks| => picks[i] + 1)
  }

  lemma WithZeroAt(picks: seq<nat>, i: nat)
    requires i <= |picks|
    ensures WithZero(picks)[i] == if i == 0 then 0 else picks[i - 1] + 1
  {
  }

  lemma WithZeroDistinct(picks: seq<nat>, n: int)
    requires Choice(picks, n) && n <= 255
    ensures DistinctPoints(WithZero(picks))
    ensures forall i :: 0 <= i <= |picks| ==> Point(WithZero(picks)[i]) == WithZero(picks)[i]
  {
    var xs := WithZero(picks);
    forall i | 0 <= i < |xs| ensures Point(xs[i]) == xs[i]
    {
      WithZeroAt(picks, i);
      ByteIsPoint(xs[i]);
    }
    forall i, j | 0 <= i < j < |xs| ensures Point(xs[i]) != Point(xs[j])
    {
      WithZeroAt(picks, i);
      WithZeroAt(picks, j);
    }
  }

  lemma ThroughPoint(xs: seq<nat>, ys: seq<Byte>, p: Poly, k: nat, x: Byte, y: Byte)
    requires DistinctPoints(xs) && |ys| == |xs| && k < |xs| && Interpolant(xs, ys) == p
    requires Point(xs[k]) == x && ys[k] == y
    ensures Eval(p, x) == y
  {
    InterpolantAtPoint(xs, ys, k);
  }

  lemma ConsAt<T>(head: T, tail: seq<T>, i: nat)
    requires i < |tail|
    ensures ([head] + tail)[i + 1] == tail[i]
  {
  }

  lemma ThroughSecret(picks: seq<nat>, n: int, secretByte: Byte, ys: seq<Byte>) returns (c: seq<Byte>)
    requires Choice(picks, n) && n <= 255 && |ys| == |picks|
    ensures |c| == |picks| && Interpolant(WithZero(picks), [secretByte] + ys) == [secretByte] + c
  {
    var p := Interpolant(WithZero(picks), [secretByte] + ys);
    WithZeroDistinct(picks, n);
    InterpolantAtPoint(WithZero(picks), [secretByte] + ys, 0);
    EvalAtZero(p);
    c := p[1..];
    assert p == [p[0]] + c;
  }

  /** One byte: a coefficient vector exists for any secret byte and any values. */
  lemma CoefficientsExist(picks: seq<nat>, n: int, secretByte: Byte, ys: seq<Byte>) returns (c: seq<Byte>)
    requires Choice(picks, n) && n <= 255 && |ys| == |picks|
    ensures |c| == |picks|
    ensures forall i :: 0 <= i < |picks| ==> ShareByte(secretByte, c, picks[i] + 1) == ys[i]
  {
    c := ThroughSecret(picks, n, secretByte, ys);
    var xs, zs, p := WithZero(picks), [secretByte] + ys, [secretByte] + c;
    WithZeroDistinct(picks, n);
    forall i | 0 <= i < |picks| ensures ShareByte(secretByte, c, picks[i] + 1) == ys[i]
    {
      WithZeroAt(picks, i + 1);
      ConsAt(secretByte, ys, i);
      ThroughPoint(xs, zs, p, i + 1, picks[i] + 1, ys[i]);
    }
  }

  lemma AgreeWithZero(picks: seq<nat>, n: int, secretByte: Byte, c: seq<Byte>, d: seq<Byte>, i: nat)
    requires Choice(picks, n) && n <= 255 && i <= |picks|
    requires i > 0 ==> ShareByte(secretByte, c, picks[i - 1] + 1) == ShareByte(secretByte, d, picks[i - 1] + 1)
    ensures Eval([secretByte] + c, Points(WithZero(picks))[i]) == Eval([secretByte] + d, Points(WithZero(picks))[i])
  {
    PointWithZero(picks, n, i);
    if i == 0 {
      EvalAtZero([secretByte] + c);
      EvalAtZero([secretByte] + d);
    }
  }

  lemma PointWithZero(picks: seq<nat>, n: int, i: nat)
    requires Choice(picks, n) && n <= 255 && i <= |picks|
    ensures Points(WithZero(picks))[i] == if i == 0 then 0 else picks[i - 1] + 1
  {
    WithZeroDistinct(picks, n);
    WithZeroAt(picks, i);
  }

  /** One byte: the coefficient vector is unique. */
  lemma CoefficientsUnique(picks: seq<nat>, n: int, secretByte: Byte, c: seq<Byte>, d: seq<Byte>)
    requires Choice(picks, n) && n <= 255 && |c| == |d| == |picks|
    requires forall i :: 0 <= i < |picks| ==>
      ShareByte(secretByte, c, picks[i] + 1) == ShareByte(secretByte, d, picks[i] + 1)
    ensures c == d
  {
    var ps := Points(WithZero(picks));
    WithZeroDistinct(picks, n);
    var p, q := [secretByte] + c, [secretByte] + d;
    forall i | 0 <= i < |ps| ensures Eval(p, ps[i]) == Eval(q, ps[i])
    {
      AgreeWithZero(picks, n, secretByte, c, d, i);
    }
    InterpolationUnique(p, q, ps);
    assert c == p[1..] && d == q[1..];
  }

  /** Given threshold - 1 shares, each secret of that length is explained by exactly one draw. */
  lemma ThresholdExactness(secret: seq<Byte>, n: int, threshold: int, coins: seq<seq<Byte>>, picks: seq<nat>,
                           other: seq<Byte>)
    requires 2 <= threshold <= n <= 255 && secret != [] && Draws(coins, |secret|, threshold)
    requires Choice(picks, n) && |picks| == threshold - 1 && |other| == |secret|
    ensures var shares := Chosen(secret, coins, picks);
            && (exists c :: Explains(c, other, threshold, picks, shares))
            && (forall c, d ::
                  Explains(c, other, threshold, picks, shares) && Explains(d, other, threshold, picks, shares)
                  ==> c == d)
  {
    var shares := Chosen(secret, coins, picks);
    var c := ExplanationExists(n, threshold, picks, other, shares);
    forall c, d | Explains(c, other, threshold, picks, shares) && Explains(d, other, threshold, picks, shares)
      ensures c == d
    {
      forall b | 0 <= b < |other| ensures c[b] == d[b]
      {
        forall i | 0 <= i < |picks|
          ensures ShareByte(other[b], c[b], picks[i] + 1) == ShareByte(other[b], d[b], picks[i] + 1)
        {
          assert ShareAt(other, c, picks[i] + 1).data[b] == shares[i].data[b];
          assert ShareAt(other, d, picks[i] + 1).data[b] == shares[i].data[b];
        }
        CoefficientsUnique(picks, n, other[b], c[b], d[b]);
      }
    }
  }

  lemma {:induction false} ExplanationExists(n: int, threshold: int, picks: seq<nat>, other: seq<Byte>,
                                             shares: seq<Share>)
    returns (c: seq<seq<Byte>>)
    requires Choice(picks, n) && n <= 255 && |picks| == threshold - 1 == |shares|
    requires forall i :: 0 <= i < |picks| ==> shares[i].index == picks[i] + 1 && |shares[i].data| == |other|
    ensures Explains(c, other, threshold, picks, shares)
  {
    c := [];
    for b := 0 to |other|
      invariant |c| == b && forall e :: 0 <= e < b ==> |c[e]| == threshold - 1
      invariant forall e, i :: 0 <= e < b && 0 <= i < |picks| ==>
        ShareByte(other[e], c[e], picks[i] + 1) == shares[i].data[e]
    {
      var next := CoefficientsExist(picks, n, other[b], Column(shares, b));
      c := c + [next];
    }
    forall i | 0 <= i < |picks| ensures ShareAt(other, c, picks[i] + 1) == shares[i]
    {
      assert ShareAt(other, c, picks[i] + 1).data == shares[i].data;
    }
    assert Chosen(other, c, picks) == shares;
  }

  // --- Recovery does not depend on the order of the shares. ---

  ghost predicate Inverse(perm: seq<nat>, inv: seq<nat>)
  {
    && |perm| == |inv|
    && (forall i :: 0 <= i < |perm| ==> perm[i] < |perm| && inv[i] < |perm|)
    && (forall i :: 0 <= i < |perm| ==> inv[perm[i]] == i && perm[inv[i]] == i)
  }

  ghost predicate Reordered(shares: seq<Share>, other: seq<Share>, perm: seq<nat>)
  {
    && |shares| == |other| == |perm|
    && (forall i :: 0 <= i < |perm| ==> perm[i] < |perm| && other[i] == shares[perm[i]])
  }

  lemma DifferentPlaces(perm: seq<nat>, inv: seq<nat>, i: nat, j: nat)
    requires Inverse(perm, inv) && i < j < |perm|
    ensures perm[i] != perm[j]
  {
    assert inv[perm[i]] == i && inv[perm[j]] == j;
  }

  lemma DifferentPoints(xs: seq<nat>, p: nat, q: nat)
    requires DistinctPoints(xs) && p < |xs| && q < |xs| && p != q
    ensures Point(xs[p]) != Point(xs[q])
  {
    if p > q { DifferentPoints(xs, q, p); }
  }

  lemma DistinctReordered(xs: seq<nat>, zs: seq<nat>, perm: seq<nat>, inv: seq<nat>)
    requires Inverse(perm, inv) && |xs| == |zs| == |perm| && DistinctPoints(xs)
    requires forall i :: 0 <= i < |zs| ==> zs[i] == xs[perm[i]]
    ensures DistinctPoints(zs)
  {
    forall i, j | 0 <= i < j < |zs| ensures Point(zs[i]) != Point(zs[j])
    {
      DifferentPlaces(perm, inv, i, j);
      DifferentPoints(xs, perm[i], perm[j]);
    }
  }

  lemma ReorderedPoints(shares: seq<Share>, other: seq<Share>, perm: seq<nat>, inv: seq<nat>)
    requires Inverse(perm, inv) && Reordered(shares, other, perm) && DistinctPoints(Indices(shares))
    ensures DistinctPoints(Indices(other))
  {
    DistinctReordered(Indices(shares), Indices(other), perm, inv);
  }

  lemma ReorderedByte(shares: seq<Share>, other: seq<Share>, perm: seq<nat>, inv: seq<nat>, b: nat)
    requires Inverse(perm, inv) && Reordered(shares, other, perm) && DistinctPoints(Indices(shares))
    requires forall i :: 0 <= i < |shares| ==> b < |shares[i].data|
    ensures RecoveredByte(other, b) == RecoveredByte(shares, b)
  {
    var xs, ys := Indices(shares), Column(shares, b);
    var p := Interpolant(xs, ys);
    ReorderedPoints(shares, other, perm, inv);
    forall i | 0 <= i < |other| ensures Column(other, b)[i] == Eval(p, Point(Indices(other)[i]))
    {
      InterpolantAtPoint(xs, ys, perm[i]);
    }
    InterpolatedIsValueAtZero(Indices(other), Column(other, b), p);
    InterpolantAtZero(xs, ys);
  }

  lemma ReorderedLengths(shares: seq<Share>, other: seq<Share>, perm: seq<nat>, inv: seq<nat>)
    requires Inverse(perm, inv) && Reordered(shares, other, perm) && SameLength(shares)
    ensures SameLength(other) && (other != [] ==> |other[0].data| == |shares[0].data|)
  {
  }

  lemma {:induction false} ReorderedBytes(shares: seq<Share>, other: seq<Share>, perm: seq<nat>, inv: seq<nat>)
    requires Inverse(perm, inv) && Reordered(shares, other, perm)
    requires shares != [] && SameLength(shares) && SameLength(other)
    requires shares[0].data == [] || DistinctPoints(Indices(shares))
    ensures RecoveredBytes(other) == RecoveredBytes(shares)
  {
    ReorderedLengths(shares, other, perm, inv);
    forall b | 0 <= b < |shares[0].data| ensures RecoveredByte(other, b) == RecoveredByte(shares, b)
    {
      ReorderedByte(shares, other, perm, inv, b);
    }
    SameBytes(RecoveredBytes(other), RecoveredBytes(shares));
  }

  lemma SameBytes(us: seq<Byte>, vs: seq<Byte>)
    requires |us| == |vs| && forall b :: 0 <= b < |us| ==> us[b] == vs[b]
    ensures us == vs
  {
  }

  lemma {:induction false} ReorderedSuccess(shares: seq<Share>, other: seq<Share>, perm: seq<nat>, inv: seq<nat>)
    requires Inverse(perm, inv) && Reordered(shares, other, perm) && Recovered(shares).Ok?
    ensures Recovered(other) == Recovered(shares)
  {
    ReorderedLengths(shares, other, perm, inv);
    if shares[0].data != [] { ReorderedPoints(shares, other, perm, inv); }
    RecoveredWhenGood(other);
    RecoveredWhenGood(shares);
    ReorderedBytes(shares, other, perm, inv);
  }

  lemma RecoveredWhenGood(shares: seq<Share>)
    requires |shares| >= 2 && SameLength(shares) && (shares[0].data == [] || DistinctPoints(Indices(shares)))
    ensures Recovered(shares) == Ok(RecoveredBytes(shares))
  {
  }

  /** Reordering the shares changes neither the recovered bytes nor the error. */
  lemma RecoverIgnoresOrder(shares: seq<Share>, other: seq<Share>, perm: seq<nat>, inv: seq<nat>)
    requires Inverse(perm, inv) && Reordered(shares, other, perm)
    ensures Recovered(other) == Recovered(shares)
  {
    assert Reordered(other, shares, inv);
    if Recovered(shares).Ok? {
      ReorderedSuccess(shares, other, perm, inv);
    } else if Recovered(other).Ok? {
      ReorderedSuccess(other, shares, inv, perm);
    } else if SameLength(shares) {
      ReorderedLengths(shares, other, perm, inv);
    } else if SameLength(other) {
      ReorderedLengths(other, shares, inv, perm);
    }
  }
}
