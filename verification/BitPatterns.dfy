// Non-negative integers read as bit patterns, and as polynomials over GF(2): bit k is the
// coefficient of x^k. Exclusive or is polynomial addition; Clmul is polynomial multiplication.

module BitPatterns {

  function Xor(a: nat, b: nat): (r: nat)
  {
    if a == 0 then b
    else if b == 0 then a
    else 2 * Xor(a / 2, b / 2) + (if a % 2 == b % 2 then 0 else 1)
  }

  /** b if the low bit of `sel` is set, and 0 otherwise. */
  function Gate(sel: nat, b: nat): (r: nat)
  {
    if sel % 2 == 1 then b else 0
  }

  function Pow2(k: nat): (r: nat)
    ensures r > 0
  {
    if k == 0 then 1 else 2 * Pow2(k - 1)
  }

  /** Carry-less product: the sum over the set bits k of b of a * x^k. */
  function Clmul(a: nat, b: nat): (r: nat)
    decreases b
  {
    if b == 0 then 0 else Xor(Gate(b, a), Clmul(2 * a, b / 2))
  }

  lemma XorStep(a: nat, b: nat)
    ensures Xor(a, b) / 2 == Xor(a / 2, b / 2)
    ensures Xor(a, b) % 2 == (if a % 2 == b % 2 then 0 else 1)
  {
  }

  lemma {:induction false} XorComm(a: nat, b: nat)
    ensures Xor(a, b) == Xor(b, a)
  {
    if a != 0 && b != 0 { XorComm(a / 2, b / 2); }
  }

  lemma {:induction false} XorAssoc(a: nat, b: nat, c: nat)
    ensures Xor(Xor(a, b), c) == Xor(a, Xor(b, c))
  {
    if a != 0 && b != 0 && c != 0 {
      XorAssoc(a / 2, b / 2, c / 2);
      XorStep(a, b);
      XorStep(b, c);
      XorStep(Xor(a, b), c);
      XorStep(a, Xor(b, c));
    }
  }

  lemma {:induction false} XorSelf(a: nat)
    ensures Xor(a, a) == 0
  {
    if a != 0 { XorSelf(a / 2); }
  }

  lemma XorSwap(a: nat, b: nat, c: nat, d: nat)
    ensures Xor(Xor(a, b), Xor(c, d)) == Xor(Xor(a, c), Xor(b, d))
  {
    XorAssoc(a, b, Xor(c, d));
    XorAssoc(b, c, d);
    XorComm(b, c);
    XorAssoc(c, b, d);
    XorAssoc(a, c, Xor(b, d));
  }

  /** Adding the same pattern twice changes nothing, so equal sums cancel. */
  lemma XorCancel(a: nat, b: nat)
    ensures Xor(Xor(a, b), b) == a
  {
    XorAssoc(a, b, b);
    XorSelf(b);
  }

  lemma {:induction false} XorBound(a: nat, b: nat, k: nat)
    requires a < Pow2(k) && b < Pow2(k)
    ensures Xor(a, b) < Pow2(k)
  {
    if k > 0 && a != 0 && b != 0 { XorBound(a / 2, b / 2, k - 1); }
  }

  lemma {:induction false} XorHighBit(a: nat, b: nat, k: nat)
    requires a < 2 * Pow2(k) && b < 2 * Pow2(k)
    ensures Xor(a, b) >= Pow2(k) <==> (a >= Pow2(k)) != (b >= Pow2(k))
  {
    if k > 0 {
      XorHighBit(a / 2, b / 2, k - 1);
      XorStep(a, b);
    }
  }

  lemma {:induction false} XorTopBit(a: nat, k: nat)
    requires a < Pow2(k)
    ensures Xor(Pow2(k), a) == Pow2(k) + a
  {
    if k > 0 && a != 0 {
      var half := Pow2(k - 1);
      XorTopBit(a / 2, k - 1);
      XorStep(2 * half, a);
      var r := Xor(2 * half, a);
      assert r == 2 * (r / 2) + r % 2;
    }
  }

  lemma {:induction false} ClmulXorLeft(a: nat, a': nat, b: nat)
    ensures Clmul(Xor(a, a'), b) == Xor(Clmul(a, b), Clmul(a', b))
    decreases b
  {
    if b != 0 {
      assert Xor(2 * a, 2 * a') == 2 * Xor(a, a') by { XorStep(2 * a, 2 * a'); }
      ClmulXorLeft(2 * a, 2 * a', b / 2);
      XorSwap(Gate(b, a), Gate(b, a'), Clmul(2 * a, b / 2), Clmul(2 * a', b / 2));
    }
  }

  lemma {:induction false} ClmulXorRight(a: nat, b: nat, b': nat)
    ensures Clmul(a, Xor(b, b')) == Xor(Clmul(a, b), Clmul(a, b'))
    decreases b + b'
  {
    if b != 0 && b' != 0 {
      ClmulXorRight(2 * a, b / 2, b' / 2);
      XorStep(b, b');
      XorSwap(Gate(b, a), Clmul(2 * a, b / 2), Gate(b', a), Clmul(2 * a, b' / 2));
      XorSelf(a);
    }
  }

  /** A non-zero multiple of a polynomial of degree k has degree at least k. */
  lemma {:induction false} ClmulDegree(m: nat, q: nat, k: nat)
    requires Pow2(k) <= m < Pow2(k + 1) && q > 0
    ensures Clmul(m, q) >= Pow2(k)
    decreases q
  {
    if q / 2 > 0 {
      ClmulDegree(2 * m, q / 2, k + 1);
      var high, low := Clmul(2 * m, q / 2), Gate(q, m);
      if Xor(low, high) < Pow2(k + 1) {
        XorBound(Xor(low, high), low, k + 1);
        XorComm(low, high);
        XorCancel(high, low);
      }
    }
  }
}
