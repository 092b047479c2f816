// Arithmetic in GF(2^8) as the Shamir code does it: bytes are polynomials over GF(2) of degree
// below 8, multiplied modulo x^8 + x^4 + x^3 + x + 1 (section 4.2 of FIPS 197).

module GF256 {
  import opened BitPatterns
  import opened Bytes
  import opened Results

  const GF_POLY: nat := 0x11B

  // --- The specification: addition, multiplication by x, multiplication, powers. ---

  function Add(a: Byte, b: Byte): (r: Byte)
  {
    assert Pow2(8) == 256;
    XorBound(a, b, 8);
    Xor(a, b)
  }

  function Xtime(a: Byte): (r: Byte)
  {
    XtimeBound(a);
    if a < 128 then 2 * a else Xor(2 * a, GF_POLY)
  }

  /** a times the polynomial b, for b of any length. */
  function Mul(a: Byte, b: nat): (r: Byte)
    decreases b
  {
    if b == 0 then 0 else Add(Gate(b, a), Mul(Xtime(a), b / 2))
  }

  function Pow(a: Byte, e: nat): (r: Byte)
  {
    if e == 0 then 1 else Mul(a, Pow(a, e - 1))
  }

  function Inv(a: Byte): (r: Byte)
  {
    Pow(a, 254)
  }

  lemma XtimeBound(a: Byte)
    ensures a >= 128 ==> Xor(2 * a, GF_POLY) < 256
  {
    if a >= 128 {
      assert Pow2(8) == 256 && Pow2(9) == 512;
      XorBound(2 * a, GF_POLY, 9);
      XorHighBit(2 * a, GF_POLY, 8);
    }
  }

  // --- The loops of the source. ---

  lemma MulStep(result: Byte, a: Byte, b: nat)
    requires b > 0
    ensures Add(result, Mul(a, b)) == Add(if b % 2 == 1 then Add(result, a) else result, Mul(Xtime(a), b / 2))
  {
    XorAssoc(result, Gate(b, a), Mul(Xtime(a), b / 2));
  }

  lemma ShiftAndReduce(a: Byte)
    ensures Xtime(a) == if (2 * a / 0x100) % 2 == 1 then Xor(2 * a, GF_POLY) else 2 * a
  {
  }

  /** The shift-and-reduce loop. */
  method GfMul(a: Byte, b: nat) returns (r: Byte)
    ensures r == Mul(a, b)
  {
    var result: nat := 0;
    var aa: nat := a;
    var bb := b;
    while bb > 0
      invariant result < 256 && aa < 256
      invariant Add(result, Mul(aa, bb)) == Mul(a, b)
    {
      MulStep(result, aa, bb);
      ShiftAndReduce(aa);
      if bb % 2 == 1 { result := Add(result, aa); }
      aa := 2 * aa;
      if (aa / 0x100) % 2 == 1 { aa := Xor(aa, GF_POLY); }
      bb := bb / 2;
    }
    r := result;
  }

  datatype FieldError = CannotInvertZero

  /** The square-and-multiply loop; the source throws on zero. */
  method GfInv(a: Byte) returns (r: Result<Byte, FieldError>)
    ensures r == if a == 0 then Err(CannotInvertZero) else Ok(Inv(a))
  {
    if a == 0 { return Err(CannotInvertZero); }
    var result: Byte := 1;
    var base := a;
    var exp: nat := 254;
    MulOne(Pow(a, 254));
    while exp > 0
      invariant Mul(result, Pow(base, exp)) == Pow(a, 254)
    {
      PowSquare(base, exp / 2);
      MulAssoc(result, base, Pow(Mul(base, base), exp / 2));
      if exp % 2 == 1 { result := GfMul(result, base); }
      base := GfMul(base, base);
      exp := exp / 2;
    }
    MulComm(result, 1);
    MulOne(result);
    r := Ok(result);
  }

  // --- Multiplication is the remainder of the carry-less product modulo GF_POLY. ---

  /** The quotient that the loop discards. */
  ghost function Quotient(a: Byte, b: nat): (q: nat)
    decreases b
  {
    if b == 0 then 0
    else Xor(if a < 128 then 0 else b / 2, Quotient(Xtime(a), b / 2))
  }

  lemma {:induction false} MulDivides(a: Byte, b: nat)
    ensures Clmul(a, b) == Xor(Clmul(GF_POLY, Quotient(a, b)), Mul(a, b))
    decreases b
  {
    if b != 0 {
      var x, h := Xtime(a), b / 2;
      var carry := if a < 128 then 0 else GF_POLY;
      var carried := if a < 128 then 0 else h;
      MulDivides(x, h);
      // 2a is x with the carry put back
      XorCancel(2 * a, GF_POLY);
      XorComm(x, carry);
      ClmulXorLeft(carry, x, h);
      ClmulZero(h);
      assert Clmul(carry, h) == Clmul(GF_POLY, carried);
      var kq := Clmul(GF_POLY, Quotient(x, h));
      ClmulXorRight(GF_POLY, carried, Quotient(x, h));
      XorAssoc(Clmul(GF_POLY, carried), kq, Mul(x, h));
      var quot := Xor(Clmul(GF_POLY, carried), kq);
      assert Clmul(2 * a, h) == Xor(quot, Mul(x, h));
      XorAssoc(Gate(b, a), quot, Mul(x, h));
      XorComm(Gate(b, a), quot);
      XorAssoc(quot, Gate(b, a), Mul(x, h));
    }
  }

  lemma {:induction false} ClmulZero(b: nat)
    ensures Clmul(0, b) == 0
    decreases b
  {
    if b != 0 { ClmulZero(b / 2); }
  }

  /** r is the remainder of a * b modulo GF_POLY, as polynomials over GF(2). */
  ghost predicate IsRemainder(a: Byte, b: nat, r: nat)
  {
    r < 256 && exists q: nat :: Clmul(a, b) == Xor(Clmul(GF_POLY, q), r)
  }

  lemma MulIsRemainder(a: Byte, b: nat, r: nat)
    ensures IsRemainder(a, b, r) <==> r == Mul(a, b)
  {
    MulDivides(a, b);
    if IsRemainder(a, b, r) {
      var q: nat :| Clmul(a, b) == Xor(Clmul(GF_POLY, q), r);
      var q', m := Quotient(a, b), Mul(a, b);
      // the two multiples of GF_POLY differ by r + m, which has degree below 8
      ClmulXorRight(GF_POLY, q, q');
      XorSwap(Clmul(GF_POLY, q), r, Clmul(GF_POLY, q'), m);
      XorSelf(Clmul(a, b));
      var d := Xor(Clmul(GF_POLY, q), Clmul(GF_POLY, q'));
      XorCancel(d, Xor(r, m));
      assert Pow2(8) == 256 && Pow2(9) == 512;
      XorBound(r, m, 8);
      if Xor(q, q') > 0 { ClmulDegree(GF_POLY, Xor(q, q'), 8); }
      XorCancel(r, m);
    }
  }

  // --- Field laws. ---

  lemma AddTopBit(a: Byte, b: Byte)
    ensures Add(a, b) >= 128 <==> (a >= 128) != (b >= 128)
  {
    assert Pow2(7) == 128;
    XorHighBit(a, b, 7);
  }

  lemma AddDouble(a: Byte, b: Byte)
    ensures 2 * Add(a, b) == Xor(2 * a, 2 * b)
  {
    XorStep(2 * a, 2 * b);
  }

  lemma XtimeXor(a: Byte, b: Byte)
    ensures Xtime(Add(a, b)) == Add(Xtime(a), Xtime(b))
  {
    AddTopBit(a, b);
    AddDouble(a, b);
    if a >= 128 && b >= 128 {
      XorSwap(2 * a, GF_POLY, 2 * b, GF_POLY);
      XorSelf(GF_POLY);
    } else {
      XorAssoc(2 * a, 2 * b, GF_POLY);
      XorComm(2 * b, GF_POLY);
      XorAssoc(2 * a, GF_POLY, 2 * b);
    }
  }

  lemma {:induction false} MulXorLeft(a: Byte, a': Byte, b: nat)
    ensures Mul(Add(a, a'), b) == Add(Mul(a, b), Mul(a', b))
    decreases b
  {
    if b != 0 {
      XtimeXor(a, a');
      MulXorLeft(Xtime(a), Xtime(a'), b / 2);
      XorSwap(Gate(b, a), Gate(b, a'), Mul(Xtime(a), b / 2), Mul(Xtime(a'), b / 2));
    }
  }

  lemma {:induction false} MulXorRight(a: Byte, b: nat, b': nat)
    ensures Mul(a, Xor(b, b')) == Add(Mul(a, b), Mul(a, b'))
    decreases b + b'
  {
    if b != 0 && b' != 0 {
      MulXorRight(Xtime(a), b / 2, b' / 2);
      XorStep(b, b');
      XorSwap(Gate(b, a), Mul(Xtime(a), b / 2), Gate(b', a), Mul(Xtime(a), b' / 2));
      XorSelf(a);
    }
  }

  lemma {:induction false} MulXtimeLeft(a: Byte, b: nat)
    ensures Mul(Xtime(a), b) == Xtime(Mul(a, b))
    decreases b
  {
    if b != 0 {
      MulXtimeLeft(Xtime(a), b / 2);
      XtimeXor(Gate(b, a), Mul(Xtime(a), b / 2));
    }
  }

  lemma {:induction false} MulZero(b: nat)
    ensures Mul(0, b) == 0
    decreases b
  {
    if b != 0 { MulZero(b / 2); }
  }

  lemma Halves(a: Byte)
    ensures Xtime(a / 2) == 2 * (a / 2)
    ensures Add(a % 2, Xtime(a / 2)) == a
  {
    XorStep(a % 2, 2 * (a / 2));
  }

  lemma {:induction false} MulOne(b: Byte)
    ensures Mul(1, b) == b
  {
    if b != 0 {
      MulOne(b / 2);
      MulXtimeLeft(1, b / 2);
      Halves(b);
    }
  }

  /** The modulus is zero as a multiplier. */
  lemma {:induction false} MulModulus(a: Byte, m: nat)
    requires m == GF_POLY
    ensures Mul(a, m) == 0
  {
    if a == 0 {
      MulZero(m);
    } else if a == 1 {
      OneTimesModulus();
    } else {
      Halves(a);
      MulModulus(a / 2, m);
      MulModulus(a % 2, m);
      MulXorLeft(a % 2, Xtime(a / 2), m);
      MulXtimeLeft(a / 2, m);
    }
  }

  lemma OneTimesModulus()
    ensures Mul(1, GF_POLY) == 0
  {
    assert Pow2(8) == 256;
    XorTopBit(27, 8);
    assert Mul(1, 256) == Mul(128, 2) == Xtime(128) == 27;
    MulXorRight(1, 256, 27);
    MulOne(27);
    XorSelf(27);
  }

  lemma MulDouble(a: Byte, b: nat)
    ensures Mul(a, 2 * b) == Xtime(Mul(a, b))
  {
    MulXtimeLeft(a, b);
  }

  /** The modulus is a parameter, so that Mul(a, m) is not unfolded bit by bit. */
  lemma MulModuloRight(a: Byte, b: nat, m: nat)
    requires m == GF_POLY
    ensures Mul(a, Xor(b, m)) == Mul(a, b)
  {
    MulModulus(a, m);
    MulXorRight(a, b, m);
  }

  lemma MulXtimeRight(a: Byte, b: Byte)
    ensures Mul(a, Xtime(b)) == Xtime(Mul(a, b))
  {
    MulDouble(a, b);
    MulModuloRight(a, 2 * b, GF_POLY);
  }

  lemma {:induction false} MulComm(a: Byte, b: Byte)
    ensures Mul(a, b) == Mul(b, a)
  {
    if a == 0 {
      MulZero(b);
    } else if a == 1 {
      MulOne(b);
    } else {
      Halves(a);
      MulXorLeft(a % 2, Xtime(a / 2), b);
      MulXtimeLeft(a / 2, b);
      MulComm(a / 2, b);
      MulXtimeLeft(b, a / 2);
      MulZero(b);
      MulOne(b);
    }
  }

  lemma {:induction false} MulAssoc(a: Byte, b: Byte, c: nat)
    ensures Mul(Mul(a, b), c) == Mul(a, Mul(b, c))
    decreases c
  {
    if c != 0 {
      MulAssoc(a, b, c / 2);
      MulXtimeLeft(Mul(a, b), c / 2);
      MulXtimeLeft(b, c / 2);
      MulXtimeRight(a, Mul(b, c / 2));
      MulXorRight(a, Gate(c, b), Xtime(Mul(b, c / 2)));
    }
  }

  // --- Powers and inverses. ---

  lemma {:induction false} PowAdd(a: Byte, m: nat, n: nat)
    ensures Pow(a, m + n) == Mul(Pow(a, m), Pow(a, n))
  {
    if m == 0 {
      MulOne(Pow(a, n));
    } else {
      PowAdd(a, m - 1, n);
      MulAssoc(a, Pow(a, m - 1), Pow(a, n));
    }
  }

  lemma {:induction false} PowSquare(a: Byte, e: nat)
    ensures Pow(Mul(a, a), e) == Pow(a, 2 * e)
    ensures Pow(a, 2 * e + 1) == Mul(a, Pow(Mul(a, a), e))
  {
    if e > 0 {
      PowSquare(a, e - 1);
      MulAssoc(a, a, Pow(a, 2 * e - 2));
    }
  }
}
