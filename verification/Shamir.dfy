// Shamir's secret sharing as splitSecret and recoverSecret do it, byte by byte.

module Shamir {
  import opened BitPatterns
  import opened Bytes
  import opened GF256
  import opened Polynomials
  import opened Lagrange
  import opened Results

  datatype ShamirError =
    | ThresholdExceedsTotal
    | ThresholdTooSmall
    | TooManyShares
    | EmptySecret
    | TooFewShares
    | LengthMismatch
    | NotInvertible(cause: FieldError)

  /** A share: its index and its bytes, in an array that splitSecret fills in place. */
  datatype ShamirShare = ShamirShare(index: nat, data: array<Byte>)

  /** The contents of a share. */
  datatype Share = Share(index: nat, data: seq<Byte>)

  function Contents(s: ShamirShare): (c: Share)
    reads s.data
  {
    Share(s.index, s.data[..])
  }

  // --- Splitting. ---

  /** The random draws: for each byte of the secret, threshold - 1 coefficients. */
  ghost predicate Draws(coins: seq<seq<Byte>>, length: nat, threshold: int)
  {
    |coins| == length && forall b :: 0 <= b < length ==> |coins[b]| == threshold - 1
  }

  function ShareByte(secretByte: Byte, coins: seq<Byte>, x: Byte): (y: Byte)
  {
    Eval([secretByte] + coins, x)
  }

  /** The share with index x. */
  function ShareAt(secret: seq<Byte>, coins: seq<seq<Byte>>, x: Byte): (s: Share)
    requires |coins| == |secret|
    ensures s.index == x && |s.data| == |secret|
  {
    Share(x, seq(|secret|, b requires 0 <= b < |secret| => ShareByte(secret[b], coins[b], x)))
  }

  /** Horner's rule from the highest coefficient down. */
  method Evaluate(coefficients: array<Byte>, x: Byte) returns (y: Byte)
    ensures y == Eval(coefficients[..], x)
  {
    y := 0;
    ghost var p := coefficients[..];
    for k := coefficients.Length downto 0
      invariant y == Eval(p[k..], x)
    {
      y := GfMul(y, x);
      y := Add(y, coefficients[k]);
      assert p[k..][1..] == p[k + 1..];
    }
  }

  /** Distinct arrays of one length, indexed from 1. */
  ghost predicate WellAllocated(shares: seq<ShamirShare>, length: nat)
  {
    && (forall j :: 0 <= j < |shares| ==> shares[j].index == j + 1 && shares[j].data.Length == length)
    && (forall j, k :: 0 <= j < k < |shares| ==> shares[j].data != shares[k].data)
  }

  method AllocateShares(n: nat, length: nat) returns (shares: seq<ShamirShare>)
    ensures |shares| == n && WellAllocated(shares, length)
    ensures forall j :: 0 <= j < n ==> fresh(shares[j].data)
  {
    shares := [];
    for i := 0 to n
      invariant |shares| == i && WellAllocated(shares, length)
      invariant forall j :: 0 <= j < i ==> fresh(shares[j].data)
    {
      var data := new Byte[length];
      shares := shares + [ShamirShare(i + 1, data)];
    }
  }

  /** Writes byte byteIdx of every share: the polynomial at x = 1, 2, .., n. */
  method FillByte(shares: seq<ShamirShare>, coefficients: array<Byte>, byteIdx: nat, length: nat)
    requires |shares| <= 255 && byteIdx < length && WellAllocated(shares, length)
    requires forall j :: 0 <= j < |shares| ==> shares[j].data != coefficients
    modifies set s | s in shares :: s.data
    ensures forall j :: 0 <= j < |shares| ==>
      shares[j].data[..] == old(shares[j].data[..])[byteIdx := Eval(coefficients[..], j + 1)]
  {
    ghost var p := coefficients[..];
    for shareIdx := 0 to |shares|
      invariant coefficients[..] == p
      invariant forall j :: 0 <= j < |shares| ==>
        shares[j].data[..] == if j < shareIdx then old(shares[j].data[..])[byteIdx := Eval(p, j + 1)]
                              else old(shares[j].data[..])
    {
      var y := Evaluate(coefficients, shareIdx + 1);
      ghost var before := shares[shareIdx].data[..];
      shares[shareIdx].data[byteIdx] := y;
      assert shares[shareIdx].data[..] == before[byteIdx := y];
    }
  }

  method SplitSecret(secret: array<Byte>, n: int, threshold: int, coins: seq<seq<Byte>>)
    returns (r: Result<seq<ShamirShare>, ShamirError>)
    requires 2 <= threshold <= n <= 255 && secret.Length > 0 ==> Draws(coins, secret.Length, threshold)
    ensures r == Err(ThresholdExceedsTotal) <==> n < threshold
    ensures r == Err(ThresholdTooSmall) <==> threshold <= n && threshold < 2
    ensures r == Err(TooManyShares) <==> 2 <= threshold <= n && 255 < n
    ensures r == Err(EmptySecret) <==> 2 <= threshold <= n <= 255 && secret.Length == 0
    ensures r.Ok? <==> 2 <= threshold <= n <= 255 && secret.Length > 0
    ensures r.Ok? ==>
      && |r.value| == n
      && forall i :: 0 <= i < n ==>
           fresh(r.value[i].data) && Contents(r.value[i]) == ShareAt(secret[..], coins, i + 1)
  {
    if threshold > n { return Err(ThresholdExceedsTotal); }
    if threshold < 2 { return Err(ThresholdTooSmall); }
    if n > 255 { return Err(TooManyShares); }
    if secret.Length == 0 { return Err(EmptySecret); }

    var shares := AllocateShares(n, secret.Length);
    ghost var bytes := secret[..];
    for byteIdx := 0 to secret.Length
      invariant secret[..] == bytes
      invariant forall j, b :: 0 <= j < n && 0 <= b < byteIdx ==>
        shares[j].data[..][b] == ShareByte(bytes[b], coins[b], j + 1)
    {
      var coefficients := new Byte[threshold](k => 0);
      coefficients[0] := secret[byteIdx];
      forall k | 1 <= k < threshold { coefficients[k] := coins[byteIdx][k - 1]; }
      assert coefficients[..] == [bytes[byteIdx]] + coins[byteIdx];
      FillByte(shares, coefficients, byteIdx, secret.Length);
    }
    return Ok(shares);
  }

  // --- Recovery. ---

  function Indices(shares: seq<Share>): (xs: seq<nat>)
    ensures |xs| == |shares| && forall i :: 0 <= i < |shares| ==> xs[i] == shares[i].index
  {
    seq(|shares|, i requires 0 <= i < |shares| => shares[i].index)
  }

  ghost predicate SameLength(shares: seq<Share>)
  {
    forall i :: 0 <= i < |shares| ==> |shares[i].data| == |shares[0].data|
  }

  function Column(shares: seq<Share>, b: nat): (ys: seq<Byte>)
    requires forall i :: 0 <= i < |shares| ==> b < |shares[i].data|
    ensures |ys| == |shares| && forall i :: 0 <= i < |shares| ==> ys[i] == shares[i].data[b]
  {
    seq(|shares|, i requires 0 <= i < |shares| => shares[i].data[b])
  }

  function RecoveredByte(shares: seq<Share>, b: nat): (y: Byte)
    requires forall i :: 0 <= i < |shares| ==> b < |shares[i].data|
  {
    Interpolated(Indices(shares), Column(shares, b))
  }

  ghost function RecoveredBytes(shares: seq<Share>): (bytes: seq<Byte>)
    requires shares != [] && SameLength(shares)
    ensures |bytes| == |shares[0].data|
    ensures forall b :: 0 <= b < |bytes| ==> bytes[b] == RecoveredByte(shares, b)
  {
    seq(|shares[0].data|, b requires 0 <= b < |shares[0].data| => RecoveredByte(shares, b))
  }

  ghost function Recovered(shares: seq<Share>): (r: Result<seq<Byte>, ShamirError>)
  {
    if |shares| < 2 then Err(TooFewShares)
    else if !SameLength(shares) then Err(LengthMismatch)
    else if shares[0].data != [] && !DistinctPoints(Indices(shares)) then Err(NotInvertible(CannotInvertZero))
    else Ok(RecoveredBytes(shares))
  }

  ghost predicate Represents(shares: seq<ShamirShare>, cs: seq<Share>)
    reads set s | s in shares :: s.data
  {
    |cs| == |shares| && forall i :: 0 <= i < |shares| ==> cs[i] == Contents(shares[i])
  }

  /** The two inner products of recoverSecret and their quotient. */
  method BasisValue(shares: seq<ShamirShare>, i: nat, ghost xs: seq<nat>, ghost ws: seq<Byte>)
    returns (r: Result<Byte, FieldError>)
    requires i < |shares| == |xs| && forall j :: 0 <= j < |shares| ==> xs[j] == shares[j].index
    requires ws == Weights(xs)
    ensures r == if Denominator(xs, i, |xs|) == 0 then Err(CannotInvertZero) else Ok(ws[i])
  {
    var numerator: Byte := 1;
    var denominator: Byte := 1;
    for j := 0 to |shares|
      invariant numerator == Numerator(xs, i, j)
      invariant denominator == Denominator(xs, i, j)
    {
      if i == j { continue; }
      var xj := shares[j].index;
      numerator := GfMul(numerator, xj);
      denominator := GfMul(denominator, Xor(shares[i].index, xj));
    }
    r := GfInv(denominator);
    if r.Ok? {
      var lagrange := GfMul(numerator, r.value);
      r := Ok(lagrange);
    }
  }

  /** Interpolation of one byte position at x = 0. */
  method RecoverByte(shares: seq<ShamirShare>, byteIdx: nat, ghost xs: seq<nat>, ghost ys: seq<Byte>)
    returns (r: Result<Byte, FieldError>)
    requires |xs| == |ys| == |shares|
    requires forall j :: 0 <= j < |shares| ==>
      xs[j] == shares[j].index && byteIdx < shares[j].data.Length && ys[j] == shares[j].data[byteIdx]
    ensures r.Ok? <==> DistinctPoints(xs)
    ensures r.Ok? ==> r.value == Interpolated(xs, ys)
    ensures r.Err? ==> r.error == CannotInvertZero
  {
    var result: Byte := 0;
    ghost var ws := Weights(xs);
    for i := 0 to |shares|
      invariant result == Dot(ys, ws, i)
      invariant Invertible(xs, i)
    {
      var lagrange := BasisValue(shares, i, xs, ws);
      if lagrange.Err? {
        ZeroDenominator(xs, i);
        return Err(lagrange.error);
      }
      var term := GfMul(shares[i].data[byteIdx], lagrange.value);
      DotStep(ys, ws, i, result, term);
      result := Add(result, term);
    }
    NoZeroDenominator(xs);
    return Ok(result);
  }

  method CheckLengths(shares: seq<ShamirShare>, ghost cs: seq<Share>) returns (ok: bool)
    requires Represents(shares, cs) && shares != []
    ensures ok <==> SameLength(cs)
  {
    var secretLen := shares[0].data.Length;
    for i := 0 to |shares|
      invariant forall j :: 0 <= j < i ==> |cs[j].data| == secretLen
    {
      if shares[i].data.Length != secretLen { return false; }
    }
    return true;
  }

  /** RecoverByte, for a share list whose contents are known. */
  method RecoverPosition(shares: seq<ShamirShare>, byteIdx: nat, ghost cs: seq<Share>)
    returns (r: Result<Byte, FieldError>)
    requires Represents(shares, cs) && forall j :: 0 <= j < |cs| ==> byteIdx < |cs[j].data|
    ensures r == if DistinctPoints(Indices(cs)) then Ok(RecoveredByte(cs, byteIdx)) else Err(CannotInvertZero)
  {
    r := RecoverByte(shares, byteIdx, Indices(cs), Column(cs, byteIdx));
  }

  method RecoverSecret(shares: seq<ShamirShare>, ghost cs: seq<Share>) returns (r: Result<array<Byte>, ShamirError>)
    requires Represents(shares, cs)
    ensures match Recovered(cs)
            case Ok(bytes) => r.Ok? && fresh(r.value) && r.value[..] == bytes
            case Err(error) => r == Err(error)
    ensures r == Err(TooFewShares) <==> |shares| < 2
    ensures r == Err(LengthMismatch) <==> |shares| >= 2 && !SameLength(cs)
    ensures r == Err(NotInvertible(CannotInvertZero))
      <==> |shares| >= 2 && SameLength(cs) && cs[0].data != [] && !DistinctPoints(Indices(cs))
    ensures r.Ok? <==> |shares| >= 2 && SameLength(cs) && (cs[0].data == [] || DistinctPoints(Indices(cs)))
  {
    if |shares| < 2 { return Err(TooFewShares); }
    var sameLength := CheckLengths(shares, cs);
    if !sameLength { return Err(LengthMismatch); }
    var secret := new Byte[shares[0].data.Length](k => 0);
    ghost var goal := RecoveredBytes(cs);
    for byteIdx := 0 to secret.Length
      invariant Represents(shares, cs)
      invariant secret[..byteIdx] == goal[..byteIdx]
      invariant byteIdx > 0 ==> Recovered(cs).Ok?
    {
      var result := RecoverPosition(shares, byteIdx, cs);
      if result.Err? { return Err(NotInvertible(result.error)); }
      secret[byteIdx] := result.value;
    }
    assert secret[..] == goal;
    return Ok(secret);
  }
}
