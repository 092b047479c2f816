// Every non-zero byte has an inverse, and gfInv's exponent 254 finds it. Squaring is linear over
// GF(2), so on the eight bits of a machine byte it is a fixed matrix. Eight squarings are the
// identity (a^256 = a), and the only fixed points of one are 0 and 1; a^255 is a fixed point.

module GF256Inverse {
  import opened BitPatterns
  import opened Bytes
  import opened GF256

  function Timesx(u: bv8): (r: bv8)
  {
    var t := u >> 7;
    (u << 1) ^ t ^ (t << 1) ^ (t << 3) ^ (t << 4)
  }

  /** The matrix of squaring: its columns are 1, x^2, x^4, .., x^14 modulo GF_POLY. */
  function Squared(u: bv8): (r: bv8)
  {
    (u & 1) ^ (4 * ((u >> 1) & 1)) ^ (16 * ((u >> 2) & 1)) ^ (64 * ((u >> 3) & 1))
    ^ (27 * ((u >> 4) & 1)) ^ (108 * ((u >> 5) & 1)) ^ (171 * ((u >> 6) & 1)) ^ (154 * (u >> 7))
  }

  lemma SquaredStep(u: bv8)
    ensures Squared(u) == (u & 1) ^ Timesx(Timesx(Squared(u >> 1)))
  {
  }

  lemma EightSquarings(u: bv8)
    ensures Squared(Squared(Squared(Squared(Squared(Squared(Squared(Squared(u)))))))) == u
  {
  }

  lemma FixedPoints(u: bv8)
    requires Squared(u) == u
    ensures u <= 1
  {
  }

  // --- Machine bytes and bytes as numbers. ---

  lemma Machine(a: Byte) returns (u: bv8)
    ensures u as nat == a
    decreases a
  {
    if a == 0 {
      u := 0;
    } else {
      var w := Machine(a / 2);
      Doubled(w);
      u := if a % 2 == 1 then (w << 1) | 1 else w << 1;
    }
  }

  lemma Doubled(w: bv8)
    requires w as nat < 128
    ensures (w << 1) as nat == 2 * (w as nat)
    ensures ((w << 1) | 1) as nat == 2 * (w as nat) + 1
  {
  }

  lemma Same(u: bv8, v: bv8)
    requires u as nat == v as nat
    ensures u == v
  {
  }

  lemma Halved(u: bv8)
    ensures (u >> 1) as nat == u as nat / 2 && (u & 1) as nat == u as nat % 2
  {
  }

  lemma XorHalved(u: bv8, v: bv8)
    ensures (u ^ v) as nat / 2 == ((u >> 1) ^ (v >> 1)) as nat
    ensures (u ^ v) as nat % 2 == if u as nat % 2 == v as nat % 2 then 0 else 1
  {
    Halved(u);
    Halved(v);
    Halved(u ^ v);
    assert (u ^ v) & 1 == (u & 1) ^ (v & 1);
    assert (u ^ v) >> 1 == (u >> 1) ^ (v >> 1);
  }

  lemma XorFromHalves(a: nat, b: nat, c: nat)
    requires c / 2 == Xor(a / 2, b / 2) && c % 2 == if a % 2 == b % 2 then 0 else 1
    ensures c == Xor(a, b)
  {
    XorStep(a, b);
  }

  lemma {:induction false} XorAsNat(u: bv8, v: bv8, n: nat)
    requires u as nat <= n && v as nat <= n
    ensures (u ^ v) as nat == Xor(u as nat, v as nat)
    decreases n
  {
    if n == 0 {
      assert u == 0 && v == 0;
    } else {
      Halved(u);
      Halved(v);
      XorHalved(u, v);
      XorAsNat(u >> 1, v >> 1, n / 2);
      XorFromHalves(u as nat, v as nat, (u ^ v) as nat);
    }
  }

  lemma TimesxAsNat(u: bv8)
    ensures Timesx(u) as nat == Xtime(u as nat)
  {
    if u < 128 {
      assert Timesx(u) == u << 1;
      assert (u << 1) as nat == 2 * (u as nat);
    } else {
      assert Timesx(u) == (u << 1) ^ 27;
      assert (u << 1) as nat == 2 * (u as nat) - 256;
      XorAsNat(u << 1, 27, 255);
      Reduced((u << 1) as nat);
    }
  }

  lemma Reduced(n: nat)
    requires n < 256
    ensures Xor(n + 256, GF_POLY) == Xor(n, 27)
  {
    assert Pow2(8) == 256;
    XorTopBit(n, 8);
    XorTopBit(27, 8);
    XorComm(256, n);
    XorAssoc(n, 256, Xor(256, 27));
    XorAssoc(256, 256, 27);
    XorSelf(256);
  }

  lemma SquareXor(a: Byte, b: Byte)
    ensures Mul(Add(a, b), Add(a, b)) == Add(Mul(a, a), Mul(b, b))
  {
    var s, m := Add(a, b), Mul(a, b);
    MulXorLeft(a, b, s);
    MulXorRight(a, a, b);
    MulXorRight(b, a, b);
    MulComm(a, b);
    XorAssoc(Mul(a, a), m, Xor(m, Mul(b, b)));
    XorAssoc(m, m, Mul(b, b));
    XorSelf(m);
  }

  lemma SquareXtime(a: Byte)
    ensures Mul(Xtime(a), Xtime(a)) == Xtime(Xtime(Mul(a, a)))
  {
    MulXtimeLeft(a, Xtime(a));
    MulXtimeRight(a, a);
  }

  lemma {:induction false} SquareHalves(a: Byte)
    ensures Mul(a, a) == Add(a % 2, Xtime(Xtime(Mul(a / 2, a / 2))))
  {
    Halves(a);
    SquareXor(a % 2, Xtime(a / 2));
    SquareXtime(a / 2);
  }

  lemma {:induction false} SquaredAsNat(u: bv8)
    ensures Squared(u) as nat == Mul(u as nat, u as nat)
    decreases u as nat
  {
    if u == 0 {
      assert Squared(u) == 0;
    } else {
      Halved(u);
      SquaredAsNat(u >> 1);
      SquareHalves(u as nat);
      var s := Squared(u >> 1);
      TimesxAsNat(s);
      TimesxAsNat(Timesx(s));
      SquaredStep(u);
      XorAsNat(u & 1, Timesx(Timesx(s)), 255);
    }
  }

  // --- a^256 = a, and the inverse. ---

  lemma PowOne(a: Byte)
    ensures Pow(a, 1) == a
  {
    assert Pow(a, 1) == Mul(a, 1);
    MulComm(a, 1);
    MulOne(a);
  }

  function SquaredTimes(u: bv8, k: nat): (r: bv8)
    decreases k
  {
    if k == 0 then u else SquaredTimes(Squared(u), k - 1)
  }

  lemma {:induction false} PowSquaredTimes(u: bv8, k: nat)
    ensures Pow(u as nat, Pow2(k)) == SquaredTimes(u, k) as nat
    decreases k
  {
    if k == 0 {
      PowOne(u as nat);
    } else {
      SquaredAsNat(u);
      PowSquare(u as nat, Pow2(k - 1));
      PowSquaredTimes(Squared(u), k - 1);
    }
  }

  // In the next lemmas the number of squarings is a parameter, pinned by a precondition: were it a literal,
  // the definition of Pow2 or SquaredTimes would be unfolded to its end wherever it is mentioned.

  lemma EightTimes(u: bv8, k: nat)
    requires k == 8
    ensures SquaredTimes(u, k) == u
  {
    EightSquarings(u);
    var v := Squared(Squared(Squared(Squared(u))));
    assert SquaredTimes(u, k) == SquaredTimes(Squared(u), 7) == SquaredTimes(v, 4);
  }

  lemma {:induction false} SquaredTimesSum(u: bv8, m: nat, n: nat)
    ensures SquaredTimes(u, m + n) == SquaredTimes(SquaredTimes(u, m), n)
    decreases m
  {
    if m > 0 { SquaredTimesSum(Squared(u), m - 1, n); }
  }

  lemma EightMore(u: bv8, eight: nat, k: nat)
    requires eight == 8
    ensures SquaredTimes(u, eight + k) == SquaredTimes(u, k)
  {
    SquaredTimesSum(u, eight, k);
    EightTimes(u, eight);
  }

  lemma {:induction false} MultipleOfEight(u: bv8, n: nat, k: nat)
    requires k == 8 * n
    ensures SquaredTimes(u, k) == u
  {
    if n > 0 {
      EightMore(u, 8, k - 8);
      MultipleOfEight(u, n - 1, k - 8);
    }
  }

  /** Raising to the power 256, n times over, gives the byte back. */
  lemma Fermat(a: Byte, n: nat, k: nat)
    requires k == 8 * n
    ensures Pow(a, Pow2(k)) == a
  {
    var u := Machine(a);
    PowSquaredTimes(u, k);
    MultipleOfEight(u, n, k);
  }

  lemma Idempotent(e: Byte)
    requires Mul(e, e) == e
    ensures e <= 1
  {
    var u := Machine(e);
    SquaredAsNat(u);
    Same(Squared(u), u);
    FixedPoints(u);
  }

  /** The inverse of every non-zero byte, by the exponent the source uses. */
  lemma InvCorrect(a: Byte)
    requires a != 0
    ensures Mul(a, Inv(a)) == 1 && Mul(Inv(a), a) == 1
  {
    var e := Pow(a, 255);
    Fermat(a, 1, 8);
    assert Pow2(8) == 256;
    PowAdd(a, 256, 254);
    PowAdd(a, 255, 255);
    assert Mul(e, e) == Pow(a, 510) == Mul(a, Pow(a, 254)) == e;
    Idempotent(e);
    assert Mul(a, e) == a;
    MulComm(a, e);
    MulZero(a);
    MulComm(a, Inv(a));
  }

  lemma NoZeroDivisors(a: Byte, b: Byte)
    requires Mul(a, b) == 0
    ensures a == 0 || b == 0
  {
    if a != 0 {
      InvCorrect(a);
      MulAssoc(Inv(a), a, b);
      MulOne(b);
      MulComm(Inv(a), 0);
      MulZero(Inv(a));
    }
  }
}
