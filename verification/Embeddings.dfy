/**
 Face embeddings: the vector arithmetic over exact reals, the reading of
 float32 bytes, and the decision the entry flow takes. A norm is any
 non-negative real whose square is the sum of squares.
 */
module Embeddings {
  import opened Wrappers

  const GUARD := 0.00000001       // 1e-8, both guards of the vector code
  const ZERO_TOL := 0.000001      // 1e-6
  const COSINE_THRESHOLD := 0.55

  type Vector = seq<real>

  function Dot(a: Vector, b: Vector): real
    requires |a| == |b|
  {
    if a == [] then 0.0 else a[0] * b[0] + Dot(a[1..], b[1..])
  }

  function SumSq(a: Vector): real {
    Dot(a, a)
  }

  function Scale(c: real, a: Vector): (r: Vector)
    ensures |r| == |a|
    ensures forall i :: 0 <= i < |a| ==> r[i] == c * a[i]
  {
    seq(|a|, i requires 0 <= i < |a| => c * a[i])
  }

  ghost predicate IsNorm(a: Vector, n: real) {
    n >= 0.0 && n * n == SumSq(a)
  }

  // ------------------------------------------------------------- vector algebra

  lemma {:induction false} SumSqNonNegative(a: Vector)
    ensures SumSq(a) >= 0.0
  {
    if a != [] {
      SumSqNonNegative(a[1..]);
      assert a[0] * a[0] >= 0.0;
    }
  }

  lemma {:induction false} DotSymmetric(a: Vector, b: Vector)
    requires |a| == |b|
    ensures Dot(a, b) == Dot(b, a)
  {
    if a != [] {
      DotSymmetric(a[1..], b[1..]);
    }
  }

  lemma {:induction false} DotScale(c: real, a: Vector, b: Vector)
    requires |a| == |b|
    ensures Dot(Scale(c, a), b) == c * Dot(a, b)
  {
    if a != [] {
      var rest, scaled := a[1..], Scale(c, a)[1..];
      assert forall i :: 0 <= i < |rest| ==> scaled[i] == Scale(c, rest)[i];
      assert scaled == Scale(c, rest);
      DotScale(c, a[1..], b[1..]);
      Distribute(c, a[0], b[0], Dot(a[1..], b[1..]));
    }
  }

  lemma Distribute(c: real, x: real, y: real, d: real)
    ensures (c * x) * y + c * d == c * (x * y + d)
  {
  }

  lemma SumSqScale(c: real, a: Vector)
    ensures SumSq(Scale(c, a)) == c * c * SumSq(a)
  {
    DotScale(c, a, Scale(c, a));
    DotSymmetric(a, Scale(c, a));
    DotScale(c, a, a);
  }

  /** The vector `x * b - y * a`. */
  function Cross(x: real, y: real, a: Vector, b: Vector): (r: Vector)
    requires |a| == |b|
    ensures |r| == |a|
    ensures forall i :: 0 <= i < |a| ==> r[i] == x * b[i] - y * a[i]
  {
    seq(|a|, i requires 0 <= i < |a| => x * b[i] - y * a[i])
  }

  /** Sum of squares of `x * b - y * a` when `p`, `d`, `q` are those of `a`, of `a` with `b`, and of `b`. */
  function Quadratic(x: real, y: real, p: real, d: real, q: real): real {
    x * x * q - 2.0 * (x * y * d) + y * y * p
  }

  lemma QuadraticStep(x: real, y: real, a: real, b: real, p: real, d: real, q: real,
                      c: real, sa: real, dot: real, sb: real)
    requires c == x * b - y * a && sa == a * a + p && dot == a * b + d && sb == b * b + q
    ensures c * c + Quadratic(x, y, p, d, q) == Quadratic(x, y, sa, dot, sb)
  {
  }

  lemma {:induction false} CrossSumSq(x: real, y: real, a: Vector, b: Vector)
    requires |a| == |b|
    ensures SumSq(Cross(x, y, a, b)) == Quadratic(x, y, SumSq(a), Dot(a, b), SumSq(b))
  {
    if a != [] {
      var w, w' := Cross(x, y, a, b), Cross(x, y, a[1..], b[1..]);
      assert forall i :: 0 <= i < |w'| ==> w[1..][i] == w'[i];
      assert w[1..] == w';
      CrossSumSq(x, y, a[1..], b[1..]);
      hide Quadratic;
      QuadraticStep(x, y, a[0], b[0], SumSq(a[1..]), Dot(a[1..], b[1..]), SumSq(b[1..]),
                    w[0], SumSq(a), Dot(a, b), SumSq(b));
      assert SumSq(w) == w[0] * w[0] + SumSq(w');
    }
  }

  lemma LagrangeStep(x: real, y: real, p: real, d: real, q: real, dot: real, sa: real, sb: real)
    requires dot == x * y + d && sa == x * x + p && sb == y * y + q
    requires d * d <= p * q && Quadratic(x, y, p, d, q) >= 0.0
    ensures dot * dot <= sa * sb
  {
    assert sa * sb - dot * dot == (p * q - d * d) + Quadratic(x, y, p, d, q);
  }

  /** Cauchy-Schwarz, by Lagrange's identity: each coordinate adds a sum of squares. */
  lemma {:induction false} CauchySchwarz(a: Vector, b: Vector)
    requires |a| == |b|
    ensures Dot(a, b) * Dot(a, b) <= SumSq(a) * SumSq(b)
  {
    hide Quadratic, Cross;
    if a != [] {
      CauchySchwarz(a[1..], b[1..]);
      CrossSumSq(a[0], b[0], a[1..], b[1..]);
      SumSqNonNegative(Cross(a[0], b[0], a[1..], b[1..]));
      LagrangeStep(a[0], b[0], SumSq(a[1..]), Dot(a[1..], b[1..]), SumSq(b[1..]), Dot(a, b), SumSq(a), SumSq(b));
    }
  }

  // ---------------------------------------------------------- order and products

  lemma ProductNonNegative(x: real, y: real)
    requires x >= 0.0 && y >= 0.0
    ensures x * y >= 0.0
  {
  }

  lemma PositiveProduct(x: real, y: real)
    ensures x > 0.0 && y > 0.0 ==> x * y > 0.0
  {
  }

  lemma OrderTimes(x: real, y: real, d: real)
    requires d > 0.0
    ensures x <= y <==> x * d <= y * d
  {
  }

  // ------------------------------------------------------------------- cosine

  /** What the cosine call does: it raises when the vectors' sizes differ, unless the guard answers first. */
  datatype Similarity = Raised | Sim(value: real)

  function Cosine(a: Vector, b: Vector, na: real, nb: real): Similarity {
    if na * nb < GUARD then Sim(0.0)
    else if |a| != |b| then Raised
    else Sim(Dot(a, b) / (na * nb))
  }

  lemma NormsMultiply(a: Vector, b: Vector, na: real, nb: real)
    requires IsNorm(a, na) && IsNorm(b, nb)
    ensures na * nb >= 0.0 && (na * nb) * (na * nb) == SumSq(a) * SumSq(b)
  {
    ProductNonNegative(na, nb);
    assert (na * nb) * (na * nb) == (na * na) * (nb * nb);
  }

  /** Squares of non-negative reals compare as the reals do. */
  lemma SquareMonotone(x: real, y: real)
    requires x >= 0.0 && y >= 0.0
    ensures x < y <==> x * x < y * y
  {
    if x < y {
      PositiveProduct(y - x, y);
      ProductNonNegative(x, y - x);
      assert y * y - x * x == (y - x) * y + x * (y - x);
    } else {
      ProductNonNegative(x - y, x);
      ProductNonNegative(y, x - y);
      assert x * x - y * y == (x - y) * x + y * (x - y);
    }
  }

  lemma NormIsUnique(a: Vector, n: real, m: real)
    requires IsNorm(a, n) && IsNorm(a, m)
    ensures n == m
  {
    SquareMonotone(n, m);
    SquareMonotone(m, n);
  }

  lemma QuotientBound(x: real, d: real)
    requires d > 0.0 && x * x <= d * d
    ensures -1.0 <= x / d <= 1.0
  {
    var y := if x < 0.0 then 0.0 - x else x;
    assert y * y == x * x;
    SquareMonotone(d, y);
    OrderTimes(x / d, 1.0, d);
    OrderTimes(-1.0, x / d, d);
  }

  /** The similarity of two vectors of one size lies in [-1, 1]. */
  lemma CosineIsBounded(a: Vector, b: Vector, na: real, nb: real)
    requires |a| == |b| && IsNorm(a, na) && IsNorm(b, nb)
    ensures Cosine(a, b, na, nb).Sim? && -1.0 <= Cosine(a, b, na, nb).value <= 1.0
  {
    if na * nb >= GUARD {
      CauchySchwarz(a, b);
      NormsMultiply(a, b, na, nb);
      QuotientBound(Dot(a, b), na * nb);
    }
  }

  lemma CosineIsSymmetric(a: Vector, b: Vector, na: real, nb: real)
    ensures Cosine(a, b, na, nb) == Cosine(b, a, nb, na)
  {
    if |a| == |b| {
      DotSymmetric(a, b);
    }
  }

  lemma QuotientScale(c: real, x: real, d: real)
    requires c > 0.0 && d > 0.0
    ensures c * d > 0.0 && (c * x) / (c * d) == x / d
  {
    OrderTimes(c, 0.0, d);
    var q := x / d;
    assert q * d == x;
    assert q * (c * d) == c * x;
  }

  /** Scaling a vector up or down leaves the similarity alone while the guard is not hit. */
  lemma CosineIgnoresScale(c: real, a: Vector, b: Vector, na: real, nb: real)
    requires c > 0.0 && IsNorm(a, na) && IsNorm(b, nb)
    requires na * nb >= GUARD && c * na * nb >= GUARD
    ensures IsNorm(Scale(c, a), c * na)
    ensures Cosine(Scale(c, a), b, c * na, nb) == Cosine(a, b, na, nb)
  {
    SumSqScale(c, a);
    ProductNonNegative(c, na);
    assert (c * na) * (c * na) == c * c * (na * na);
    if |a| == |b| {
      DotScale(c, a, b);
      QuotientScale(c, Dot(a, b), na * nb);
      assert c * na * nb == c * (na * nb);
    }
  }

  function L2Normalize(a: Vector, n: real): Vector {
    if n < GUARD then a else Scale(1.0 / n, a)
  }

  lemma NormalizedNorm(a: Vector, n: real)
    requires IsNorm(a, n)
    ensures IsNorm(L2Normalize(a, n), if n < 0.00000001 then n else 1.0)
    ensures n < 0.00000001 ==> L2Normalize(a, n) == a
  {
    if n >= GUARD {
      var r := 1.0 / n;
      assert r * n == 1.0;
      SumSqScale(r, a);
      assert r * r * (n * n) == (r * n) * (r * n);
    }
  }

  /** Normalizing again changes nothing, with the norm of the normalized vector. */
  lemma NormalizeIsIdempotent(a: Vector, n: real, m: real)
    requires IsNorm(a, n) && IsNorm(L2Normalize(a, n), m)
    ensures L2Normalize(L2Normalize(a, n), m) == L2Normalize(a, n)
  {
    var u := L2Normalize(a, n);
    NormalizedNorm(a, n);
    NormIsUnique(u, m, if n < GUARD then n else 1.0);
    if n >= GUARD {
      assert forall i :: 0 <= i < |u| ==> Scale(1.0 / m, u)[i] == u[i];
    }
  }

  /**
   The similarity of two normalized vectors is their dot product, and, where the
   guard is not hit, the similarity of the vectors themselves.
   */
  lemma CosineOfUnits(a: Vector, b: Vector, na: real, nb: real, ma: real, mb: real)
    requires |a| == |b| && IsNorm(a, na) && IsNorm(b, nb) && na >= GUARD && nb >= GUARD
    requires IsNorm(L2Normalize(a, na), ma) && IsNorm(L2Normalize(b, nb), mb)
    ensures Cosine(L2Normalize(a, na), L2Normalize(b, nb), ma, mb) == Sim(Dot(L2Normalize(a, na), L2Normalize(b, nb)))
    ensures na * nb >= GUARD ==>
      Cosine(L2Normalize(a, na), L2Normalize(b, nb), ma, mb) == Cosine(a, b, na, nb)
  {
    var u, v := L2Normalize(a, na), L2Normalize(b, nb);
    NormalizedNorm(a, na);
    NormalizedNorm(b, nb);
    NormIsUnique(u, ma, 1.0);
    NormIsUnique(v, mb, 1.0);
    if na * nb >= GUARD {
      hide Dot, IsNorm, Cosine;
      Reciprocal(na);
      Reciprocal(nb);
      CosineIgnoresScale(1.0 / na, a, b, na, nb);
      CosineIsSymmetric(u, b, 1.0, nb);
      CosineIgnoresScale(1.0 / nb, b, u, nb, 1.0);
      CosineIsSymmetric(v, u, 1.0, 1.0);
    }
  }

  lemma Reciprocal(x: real)
    requires x > 0.0
    ensures 1.0 / x > 0.0 && 1.0 / x * x == 1.0
  {
    OrderTimes(1.0 / x, 0.0, x);
  }

  // --------------------------------------------------------------- the decision

  datatype Verdict = Pass | Deny | Raise

  /** The entry flow's decision, computed without square roots. */
  function Compare(a: Vector, b: Vector): Verdict {
    if SumSq(a) * SumSq(b) < GUARD * GUARD then Deny
    else if |a| != |b| then Raise
    else if Dot(a, b) >= 0.0
            && Dot(a, b) * Dot(a, b) >= (COSINE_THRESHOLD * COSINE_THRESHOLD) * (SumSq(a) * SumSq(b)) then Pass
    else Deny
  }

  lemma QuotientAtLeast(x: real, d: real, t: real)
    requires d > 0.0 && t > 0.0
    ensures x / d >= t <==> x >= 0.0 && x * x >= (t * t) * (d * d)
  {
    OrderTimes(t, x / d, d);
    ProductNonNegative(t, d);
    assert (t * d) * (t * d) == (t * t) * (d * d);
    if x >= 0.0 {
      SquareMonotone(x, t * d);
    }
  }

  /** The square-root-free decision is the comparison of the cosine with the threshold. */
  lemma CompareIsCosine(a: Vector, b: Vector, na: real, nb: real)
    requires IsNorm(a, na) && IsNorm(b, nb)
    ensures Compare(a, b) == match Cosine(a, b, na, nb)
      case Raised => Raise
      case Sim(s) => if s >= COSINE_THRESHOLD then Pass else Deny
  {
    NormsMultiply(a, b, na, nb);
    SquareMonotone(na * nb, GUARD);
    if na * nb >= GUARD && |a| == |b| {
      QuotientAtLeast(Dot(a, b), na * nb, COSINE_THRESHOLD);
    }
  }

  predicate NearZero(a: Vector) {
    SumSq(a) < ZERO_TOL * ZERO_TOL
  }

  lemma NearZeroIsNorm(a: Vector, n: real)
    requires IsNorm(a, n)
    ensures NearZero(a) <==> n < 0.000001
  {
    SquareMonotone(n, ZERO_TOL);
  }

  /** A vector passes against itself exactly when its sum of squares reaches the cosine guard. */
  lemma SelfMatchIff(a: Vector)
    ensures Compare(a, a) == Pass <==> SumSq(a) >= 0.00000001
  {
    SumSqNonNegative(a);
    SquareMonotone(SumSq(a), GUARD);
    var s := SumSq(a) * SumSq(a);
    ProductNonNegative(SumSq(a), SumSq(a));
    assert s >= (COSINE_THRESHOLD * COSINE_THRESHOLD) * s;
  }

  /**
   The gap between zero test and cosine guard does not show for faces as the
   recognisers give them: a normalized vector is either zero for the zero test
   or passes against itself.
   */
  lemma NormalizedNotInGap(a: Vector, n: real)
    requires IsNorm(a, n)
    ensures NearZero(L2Normalize(a, n)) || Compare(L2Normalize(a, n), L2Normalize(a, n)) == Pass
  {
    NormalizedNorm(a, n);
    if n < GUARD {
      SquareMonotone(n, GUARD);
    } else {
      SelfMatchIff(L2Normalize(a, n));
    }
  }

  /** Against a live vector of norm 1 the guard is never what denies a stored one that is not zero. */
  lemma GuardUnreached(a: Vector, b: Vector, na: real)
    requires |a| == |b| && IsNorm(a, na) && IsNorm(b, 1.0) && !NearZero(a)
    ensures Cosine(a, b, na, 1.0) == Sim(Dot(a, b) / na)
  {
    NearZeroIsNorm(a, na);
  }

  /** A vector that was normalized with a usable norm is issued and passes against itself. */
  lemma NormalizedSelfMatch(a: Vector, n: real)
    requires IsNorm(a, n) && n >= GUARD
    ensures !NearZero(L2Normalize(a, n)) && Compare(L2Normalize(a, n), L2Normalize(a, n)) == Pass
  {
    NormalizedNorm(a, n);
    SelfMatchIff(L2Normalize(a, n));
  }

  // ------------------------------------------------------------ float32 reading

  function Pow2(e: int): real
    decreases if e < 0 then -e else e
  {
    if e == 0 then 1.0 else if e > 0 then 2.0 * Pow2(e - 1) else Pow2(e + 1) / 2.0
  }

  /** The value of exponent and fraction; exponent 0 has no implicit leading bit. */
  function Magnitude(exponent: nat, fraction: nat): real {
    if exponent == 0 then fraction as real * Pow2(-149) else (8388608 + fraction) as real * Pow2(exponent - 150)
  }

  /** The value of a little-endian IEEE 754 binary32 number; none for an infinity or a NaN. */
  function Float32(b0: byte, b1: byte, b2: byte, b3: byte): Option<real> {
    var low: int, mid: int, high: int, top: int := b0, b1, b2, b3;
    var exponent := (top % 128) * 2 + high / 128;
    var fraction := (high % 128) * 65536 + mid * 256 + low;
    if exponent == 255 then None
    else if top >= 128 then Some(-Magnitude(exponent, fraction))
    else Some(Magnitude(exponent, fraction))
  }

  /** A float32 array is its bytes. */
  type Embedding = e: seq<byte> | |e| % 4 == 0 witness []

  /** The numbers of an embedding; none as soon as one is not finite. */
  function Values(e: Embedding): (r: Option<Vector>)
    ensures r.Some? ==> |r.value| == |e| / 4
  {
    if e == [] then Some([])
    else
      var first, rest := Float32(e[0], e[1], e[2], e[3]), Values(e[4..]);
      if first.Some? && rest.Some? then Some([first.value] + rest.value) else None
  }

  /**
   The entry decision on bytes. A number that is not finite makes the
   similarity a NaN, which is below every threshold.
   */
  function Judge(stored: Embedding, live: Embedding): Verdict {
    var a, b := Values(stored), Values(live);
    if a.Some? && b.Some? then Compare(a.value, b.value)
    else if |stored| != |live| then Raise
    else Deny
  }

  /** The zero test on bytes: a NaN or infinite norm is not below the tolerance. */
  predicate Unissued(stored: Embedding) {
    var a := Values(stored);
    a.Some? && NearZero(a.value)
  }

  lemma {:induction false} ZeroBytesValues(e: Embedding)
    requires forall i :: 0 <= i < |e| ==> e[i] == 0
    ensures Values(e).Some? && SumSq(Values(e).value) == 0.0
  {
    if e != [] {
      ZeroBytesValues(e[4..]);
      assert Magnitude(0, 0) == 0.0;
      assert Float32(e[0], e[1], e[2], e[3]) == Some(0.0);
      var v := Values(e).value;
      assert v[1..] == Values(e[4..]).value;
    }
  }

  /** An all-zero buffer counts as unissued and matches no face. */
  lemma ZeroBytesAreUnissued(e: Embedding, live: Embedding)
    requires forall i :: 0 <= i < |e| ==> e[i] == 0
    ensures Unissued(e) && Judge(e, live) != Pass
  {
    ZeroBytesValues(e);
  }

  /** A face whose numbers are finite passes on a wristband holding it exactly when it clears the cosine guard. */
  lemma SameFacePassesIff(e: Embedding)
    ensures Judge(e, e) == Pass <==> Values(e).Some? && SumSq(Values(e).value) >= GUARD
    ensures Judge(e, e) == Pass ==> !Unissued(e)
  {
    if Values(e).Some? {
      SelfMatchIff(Values(e).value);
    }
  }

  /**
   Which memories are taken for issued although they do not pass against
   themselves: those with a number that is not finite, and those whose sum of
   squares lies between the square of the zero tolerance and the guard.
   */
  lemma GapIff(e: Embedding)
    ensures !Unissued(e) && Judge(e, e) != Pass <==>
      Values(e).None? || 0.000000000001 <= SumSq(Values(e).value) < 0.00000001
  {
    SameFacePassesIff(e);
  }

  lemma {:induction false} Pow2Halves(m: nat, n: nat)
    ensures Pow2(0 - m - n) == Pow2(0 - m) * Pow2(0 - n)
    decreases m
  {
    if m == 0 {
      assert Pow2(0) == 1.0;
    } else {
      Pow2Halves(m - 1, n);
      assert Pow2(0 - m) == Pow2(0 - (m - 1)) / 2.0;
      assert Pow2(0 - m - n) == Pow2(0 - (m - 1) - n) / 2.0;
    }
  }

  lemma Pow2Values()
    ensures Pow2(-40) == 1.0 / 1099511627776.0
  {
    assert Pow2(-2) == 0.25;
    assert Pow2(-4) == 0.0625;
    Pow2Halves(1, 4);
    assert Pow2(-5) == 0.03125;
    Pow2Halves(5, 5);
    Pow2Halves(10, 10);
    Pow2Halves(20, 20);
  }

  /** A memory of the wristband's size in the gap: one number 2^-17, the others zero. */
  lemma SomeMemoryInGap(e: Embedding)
    requires |e| == 2048 && e[..4] == [0, 0, 0, 0x37] && forall i :: 4 <= i < |e| ==> e[i] == 0
    ensures !Unissued(e) && Judge(e, e) == Deny
  {
    ZeroBytesValues(e[4..]);
    Pow2Values();
    assert e[0] == e[..4][0] && e[1] == e[..4][1] && e[2] == e[..4][2] && e[3] == e[..4][3];
    var x := 8388608.0 * Pow2(-40);
    assert Float32(e[0], e[1], e[2], e[3]) == Some(x) by {
      assert 8388608 as real == 8388608.0;
    }
    var v := Values(e).value;
    assert v[0] == x && v[1..] == Values(e[4..]).value;
    assert SumSq(v) == x * x;
    assert x == 1.0 / 131072.0;
    GapIff(e);
  }

  // ------------------------------------------------------- what the bytes are worth

  const SIGN := 0x8000_0000
  const BINADE := 0x80_0000      // 2^23 fractions to an exponent

  /** The 32-bit pattern of four bytes, the first one lowest. */
  function Bits(b0: byte, b1: byte, b2: byte, b3: byte): (n: nat)
    ensures n < 0x1_0000_0000
  {
    var n0: int, n1: int, n2: int, n3: int := b0, b1, b2, b3;
    n0 + 0x100 * n1 + 0x1_0000 * n2 + 0x100_0000 * n3
  }

  /** The number with this pattern. */
  function OfBits(n: nat): Option<real>
    requires n < 0x1_0000_0000
  {
    Float32(n % 0x100, n / 0x100 % 0x100, n / 0x1_0000 % 0x100, n / 0x100_0000)
  }

  lemma BytesOfBits(b0: byte, b1: byte, b2: byte, b3: byte)
    ensures Float32(b0, b1, b2, b3) == OfBits(Bits(b0, b1, b2, b3))
  {
    hide Float32;
    var n1: int, n2: int, n3: int := b1, b2, b3;
    var n := Bits(b0, b1, b2, b3);
    assert n / 0x100 == n1 + 0x100 * n2 + 0x1_0000 * n3;
    assert n / 0x1_0000 == n2 + 0x100 * n3;
  }

  /** A pattern is sign, exponent and fraction. */
  lemma Unpacked(n: nat)
    requires n < 0x1_0000_0000
    ensures var e, f := n % SIGN / BINADE, n % BINADE;
      OfBits(n) == if e == 255 then None else if n >= SIGN then Some(-Magnitude(e, f)) else Some(Magnitude(e, f))
  {
    hide Magnitude;
    var top, high, mid, low := n / 0x100_0000, n / 0x1_0000 % 0x100, n / 0x100 % 0x100, n % 0x100;
    Bytes(n);
    var f := 0x1_0000 * (high % 128) + 0x100 * mid + low;
    Divides(n, 2 * top + high / 128, f);
    Signs(n, top / 128, BINADE * (2 * (top % 128) + high / 128) + f);
    Divides(n % SIGN, 2 * (top % 128) + high / 128, f);
  }

  lemma Bytes(n: nat)
    ensures n == 0x100_0000 * (n / 0x100_0000) + 0x1_0000 * (n / 0x1_0000 % 0x100)
                 + 0x100 * (n / 0x100 % 0x100) + n % 0x100
  {
  }

  lemma Divides(n: nat, q: nat, r: nat)
    requires n == BINADE * q + r && r < BINADE
    ensures n / BINADE == q && n % BINADE == r
  {
  }

  lemma Signs(n: nat, q: nat, r: nat)
    requires n == SIGN * q + r && r < SIGN
    ensures n / SIGN == q && n % SIGN == r
  {
  }

  /** Patterns without sign. */
  lemma Unsigned(e: nat, f: nat)
    requires e < 256 && f < BINADE
    ensures e * BINADE + f < SIGN
    ensures OfBits(e * BINADE + f) == if e == 255 then None else Some(Magnitude(e, f))
  {
    hide Magnitude, OfBits;
    var n := e * BINADE + f;
    Unpacked(n);
    assert n % SIGN == n && n / BINADE == e && n % BINADE == f;
  }

  lemma Pow2Doubles(e: int)
    ensures Pow2(e + 1) == 2.0 * Pow2(e) && Pow2(e) > 0.0
    decreases if e < 0 then -e else e
  {
    if e > 0 {
      Pow2Doubles(e - 1);
    } else if e < 0 {
      Pow2Doubles(e + 1);
    }
  }

  /** The pattern 0x3F800000 is worth 1. */
  lemma OneIsOne()
    ensures OfBits(0x3F80_0000) == Some(1.0)
    ensures Float32(0, 0, 0x80, 0x3F) == Some(1.0)
  {
    hide OfBits, Pow2, Float32;
    Unsigned(127, 0);
    Pow2Small();
    assert 8388608 as real == 8388608.0;
    BytesOfBits(0, 0, 0x80, 0x3F);
  }

  lemma Pow2Small()
    ensures Pow2(-23) == 1.0 / 8388608.0
  {
    assert Pow2(-2) == 0.25;
    assert Pow2(-3) == 0.125;
    Pow2Halves(3, 2);
    Pow2Halves(5, 5);
    Pow2Halves(10, 10);
    Pow2Halves(3, 20);
  }

  /** Exactly the patterns with exponent 255 are not finite. */
  lemma FiniteIff(n: nat)
    requires n < 0x1_0000_0000
    ensures OfBits(n).None? <==> n % SIGN >= 255 * BINADE
  {
    hide Magnitude, OfBits;
    Unpacked(n);
  }

  /** The sign bit negates. */
  lemma SignNegates(n: nat)
    requires n < SIGN && OfBits(n).Some?
    ensures OfBits(n + SIGN) == Some(-OfBits(n).value)
  {
    hide Magnitude, OfBits;
    Unpacked(n);
    Unpacked(n + SIGN);
    assert (n + SIGN) % SIGN == n % SIGN && (n + SIGN) % BINADE == n % BINADE;
  }

  /** One exponent up doubles; together with `OneIsOne` this fixes the powers of two. */
  lemma ExponentDoubles(n: nat)
    requires BINADE <= n && n + BINADE < 255 * BINADE
    ensures OfBits(n).Some? && OfBits(n + BINADE) == Some(2.0 * OfBits(n).value)
  {
    hide OfBits, Magnitude;
    var e, f := n / BINADE, n % BINADE;
    Unsigned(e, f);
    Unsigned(e + 1, f);
    MagnitudeDoubles(e, f);
  }

  lemma MagnitudeDoubles(e: nat, f: nat)
    requires e >= 1
    ensures Magnitude(e + 1, f) == 2.0 * Magnitude(e, f)
  {
    hide Pow2;
    Pow2Doubles(e - 150);
    Double((8388608 + f) as real, Pow2(e - 150));
  }

  lemma Double(m: real, u: real)
    ensures m * (2.0 * u) == 2.0 * (m * u)
  {
  }

  /** `f` of the 2^23 even steps from zero to `x`. */
  function Steps(x: real, f: nat): real {
    x * (f as real / 8388608.0)
  }

  /** Within an exponent the fraction counts in even steps up to the next power of two. */
  lemma FractionIsLinear(e: nat, f: nat)
    requires 1 <= e <= 254 && f < BINADE
    ensures OfBits(e * BINADE).Some?
    ensures OfBits(e * BINADE + f) == Some(OfBits(e * BINADE).value + Steps(OfBits(e * BINADE).value, f))
  {
    hide OfBits, Magnitude, Steps;
    Unsigned(e, f);
    Unsigned(e, 0);
    MagnitudeIsLinear(e, f);
    assert OfBits(e * BINADE) == Some(Magnitude(e, 0)) && OfBits(e * BINADE + f) == Some(Magnitude(e, f));
  }

  lemma MagnitudeIsLinear(e: nat, f: nat)
    requires e >= 1
    ensures Magnitude(e, f) == Magnitude(e, 0) + Steps(Magnitude(e, 0), f)
    ensures Magnitude(0, f) == Steps(Magnitude(1, 0), f)
  {
    hide Pow2;
    Factor(f as real, Pow2(e - 150));
    Part(f as real, Pow2(-149));
    assert (8388608 + f) as real == 8388608.0 + f as real && 8388608 as real == 8388608.0;
  }

  lemma Factor(f: real, u: real)
    ensures 8388608.0 * u + f * u == (8388608.0 + f) * u
  {
  }

  /** Below the smallest exponent the same steps go on down to zero. */
  lemma SubnormalIsLinear(f: nat)
    requires f < BINADE
    ensures OfBits(BINADE).Some?
    ensures OfBits(f) == Some(Steps(OfBits(BINADE).value, f))
  {
    hide OfBits, Magnitude, Steps;
    Unsigned(0, f);
    Unsigned(1, 0);
    MagnitudeIsLinear(1, f);
    assert OfBits(BINADE) == Some(Magnitude(1, 0)) && OfBits(f) == Some(Magnitude(0, f));
  }

  lemma Part(f: real, u: real)
    ensures (8388608.0 * u) * (f / 8388608.0) == f * u
  {
    assert 8388608.0 * (f / 8388608.0) == f;
  }

  lemma {:induction false} NextIsGreater(n: nat)
    requires n + 1 < 255 * BINADE
    ensures OfBits(n).Some? && OfBits(n + 1).Some? && 0.0 <= OfBits(n).value < OfBits(n + 1).value
  {
    hide OfBits, Pow2;
    var e, f := n / BINADE, n % BINADE;
    Unsigned(e, f);
    var k := if e == 0 then -149 else e - 150;
    Pow2Doubles(k);
    var m := if e == 0 then f else 8388608 + f;
    Grows(m as real, Pow2(k));
    if f + 1 < BINADE {
      Unsigned(e, f + 1);
      assert (m + 1) as real == m as real + 1.0;
    } else {
      Unsigned(e + 1, 0);
      if e > 0 {
        assert (m + 1) as real == 2.0 * 8388608.0;
        assert Pow2(e + 1 - 150) == 2.0 * Pow2(k);
      } else {
        assert (m + 1) as real == 8388608.0;
      }
    }
  }

  lemma Grows(m: real, u: real)
    requires m >= 0.0 && u > 0.0
    ensures 0.0 <= m * u < (m + 1.0) * u
  {
    ProductNonNegative(m, u);
    assert (m + 1.0) * u == m * u + u;
  }

  /** Without sign the values grow strictly with the pattern. */
  lemma {:induction false} ValueGrows(m: nat, n: nat)
    requires m < n < 255 * BINADE
    ensures OfBits(m).Some? && OfBits(n).Some? && 0.0 <= OfBits(m).value < OfBits(n).value
    decreases n - m
  {
    hide OfBits;
    NextIsGreater(n - 1);
    if m < n - 1 {
      ValueGrows(m, n - 1);
    }
  }

  /** Number `i` of an embedding is read from its own four bytes. */
  lemma {:induction false} ValuesAt(e: Embedding, i: nat)
    requires Values(e).Some? && 4 * i < |e|
    ensures |Values(e).value| == |e| / 4
    ensures Some(Values(e).value[i]) == OfBits(Bits(e[4 * i], e[4 * i + 1], e[4 * i + 2], e[4 * i + 3]))
  {
    hide Float32, Bits, OfBits;
    if i == 0 {
      BytesOfBits(e[0], e[1], e[2], e[3]);
    } else {
      ValuesAt(e[4..], i - 1);
    }
  }

  function FlipByte(b: byte): byte {
    if b >= 128 then b - 128 else b + 128
  }

  /** Every number of the embedding with the other sign. */
  function Flipped(e: Embedding): (r: Embedding)
    ensures |r| == |e|
    ensures forall i :: 0 <= i < |e| ==> r[i] == if i % 4 == 3 then FlipByte(e[i]) else e[i]
  {
    seq(|e|, i requires 0 <= i < |e| => if i % 4 == 3 then FlipByte(e[i]) else e[i])
  }

  lemma FlipNegates(b0: byte, b1: byte, b2: byte, b3: byte)
    ensures Float32(b0, b1, b2, FlipByte(b3)) ==
            match Float32(b0, b1, b2, b3) case Some(x) => Some(-x) case None => None
  {
    hide Magnitude;
  }

  lemma NegateFirst(v: Vector)
    requires v != []
    ensures Scale(-1.0, v) == [-v[0]] + Scale(-1.0, v[1..])
  {
  }

  lemma {:induction false} FlippedValues(e: Embedding)
    ensures Values(Flipped(e)) == match Values(e) case Some(v) => Some(Scale(-1.0, v)) case None => None
  {
    hide Float32, FlipByte, Scale;
    if e != [] {
      var f, rest := Flipped(e), e[4..];
      assert f[0] == e[0] && f[1] == e[1] && f[2] == e[2] && f[3] == FlipByte(e[3]);
      FlipNegates(e[0], e[1], e[2], e[3]);
      FlippedValues(rest);
      assert f[4..] == Flipped(rest);
      if Values(e).Some? {
        var v := Values(e).value;
        NegateFirst(v);
      }
    }
  }

  /** The opposite of a face that passes is denied: signs count. */
  lemma OppositeIsDenied(e: Embedding)
    requires Judge(e, e) == Pass
    ensures Judge(e, Flipped(e)) == Deny
  {
    hide Values, Float32;
    FlippedValues(e);
    var v := Values(e).value;
    DotScale(-1.0, v, v);
    DotSymmetric(v, Scale(-1.0, v));
    SumSqScale(-1.0, v);
    SelfMatchIff(v);
    SameFacePassesIff(e);
  }

  /** On vectors of norm 1 the threshold is a dot product of 0.55. */
  lemma UnitsPassIff(a: Vector, b: Vector)
    requires |a| == |b| && IsNorm(a, 1.0) && IsNorm(b, 1.0)
    ensures Compare(a, b) == if Dot(a, b) >= 0.55 then Pass else Deny
  {
    CompareIsCosine(a, b, 1.0, 1.0);
  }
}
