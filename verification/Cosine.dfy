/**
 * Similarity of SQ8 rows (internal/engine/hnsw.go): the unrolled integer dot
 * product in 32-bit arithmetic, and the cosine score made from it.
 */
module Cosine {
  import opened ScalarQuantization

  newtype Int8 = x: int | -128 <= x < 128

  const INT32: int := 0x1_0000_0000

  /** Two's-complement 32-bit result of an addition. */
  function Wrap32(x: int): int
  {
    (x + 0x8000_0000) % INT32 - 0x8000_0000
  }

  lemma WrapIsIdentity(x: int)
    requires -0x8000_0000 <= x < 0x8000_0000
    ensures Wrap32(x) == x
  {
  }

  function Product(a: Int8, b: Int8): int
  {
    a as int * b as int
  }

  lemma ProductBound(a: Int8, b: Int8)
    ensures -16384 <= Product(a, b) <= 16384
  {
  }

  /** The plain dot product of the first `n` coordinates. */
  function Dot(a: seq<Int8>, b: seq<Int8>, n: nat): int
    requires n <= |a| && n <= |b|
  {
    if n == 0 then 0 else Dot(a, b, n - 1) + Product(a[n - 1], b[n - 1])
  }

  lemma {:induction false} DotBound(a: seq<Int8>, b: seq<Int8>, n: nat)
    requires n <= |a| && n <= |b|
    ensures -16384 * n <= Dot(a, b, n) <= 16384 * n
  {
    if n > 0 {
      DotBound(a, b, n - 1);
      ProductBound(a[n - 1], b[n - 1]);
    }
  }

  /** Eight more coordinates at once. */
  function Eight(a: seq<Int8>, b: seq<Int8>, i: nat): int
    requires i + 8 <= |a| && i + 8 <= |b|
  {
    Product(a[i], b[i]) + Product(a[i + 1], b[i + 1]) + Product(a[i + 2], b[i + 2]) + Product(a[i + 3], b[i + 3]) +
    Product(a[i + 4], b[i + 4]) + Product(a[i + 5], b[i + 5]) + Product(a[i + 6], b[i + 6]) + Product(a[i + 7], b[i + 7])
  }

  lemma EightMore(a: seq<Int8>, b: seq<Int8>, i: nat)
    requires i + 8 <= |a| && i + 8 <= |b|
    ensures Dot(a, b, i + 8) == Dot(a, b, i) + Eight(a, b, i)
  {
    hide Product;
    assert Dot(a, b, i + 1) == Dot(a, b, i) + Product(a[i], b[i]);
    assert Dot(a, b, i + 2) == Dot(a, b, i + 1) + Product(a[i + 1], b[i + 1]);
    assert Dot(a, b, i + 3) == Dot(a, b, i + 2) + Product(a[i + 2], b[i + 2]);
    assert Dot(a, b, i + 4) == Dot(a, b, i + 3) + Product(a[i + 3], b[i + 3]);
    assert Dot(a, b, i + 5) == Dot(a, b, i + 4) + Product(a[i + 4], b[i + 4]);
    assert Dot(a, b, i + 6) == Dot(a, b, i + 5) + Product(a[i + 5], b[i + 5]);
    assert Dot(a, b, i + 7) == Dot(a, b, i + 6) + Product(a[i + 6], b[i + 6]);
  }

  /** Coordinates up to which 32 bits are certainly enough. */
  const SAFE_DIM: nat := 131071

  /** The dot product loop gives the plain sum modulo 32 bits, and for every
      dimension up to 131071, so for all that an index accepts, the sum itself. */
  method Int8Dot(a: seq<Int8>, b: seq<Int8>, dim: nat) returns (dot: int)
    requires dim <= |a| && dim <= |b|
    ensures dot == Wrap32(Dot(a, b, dim))
    ensures dim <= SAFE_DIM ==> dot == Dot(a, b, dim)
  {
    hide Product, Eight, Wrap32, Dot;
    dot := 0;
    var i := 0;
    DotNone(a, b);
    WrapIsIdentity(0);
    while i + 7 < dim
      invariant 0 <= i <= dim && dot == Wrap32(Dot(a, b, i))
    {
      EightMore(a, b, i);
      WrapAdds(Dot(a, b, i), Eight(a, b, i));
      dot := Wrap32(dot + Eight(a, b, i));
      i := i + 8;
    }
    while i < dim
      invariant 0 <= i <= dim && dot == Wrap32(Dot(a, b, i))
    {
      DotOneMore(a, b, i);
      WrapAdds(Dot(a, b, i), Product(a[i], b[i]));
      dot := Wrap32(dot + Product(a[i], b[i]));
      i := i + 1;
    }
    if dim <= SAFE_DIM {
      DotBound(a, b, dim);
      WrapIsIdentity(Dot(a, b, dim));
    }
  }

  /** Wrapping once at the end is the same as wrapping at every addition. */
  lemma WrapAdds(x: int, y: int)
    ensures Wrap32(Wrap32(x) + y) == Wrap32(x + y)
  {
    var k := (x + 0x8000_0000) / INT32;
    assert Wrap32(x) == x - INT32 * k;
    SameRemainder(x + y + 0x8000_0000, k);
  }

  lemma SameRemainder(z: int, k: int)
    ensures (z - INT32 * k) % INT32 == z % INT32
  {
    var q, r := z / INT32, z % INT32;
    assert z - INT32 * k == INT32 * (q - k) + r;
  }

  lemma DotNone(a: seq<Int8>, b: seq<Int8>)
    ensures Dot(a, b, 0) == 0
  {
  }

  lemma DotOneMore(a: seq<Int8>, b: seq<Int8>, i: nat)
    requires i < |a| && i < |b|
    ensures Dot(a, b, i + 1) == Dot(a, b, i) + Product(a[i], b[i])
  {
  }

  /** For arbitrary int8 rows one coordinate more can wrap.  The encoder writes
      -127 at least and an index takes 4096 coordinates at most. */
  lemma WrapsBeyond(a: seq<Int8>)
    requires |a| == SAFE_DIM + 1 && forall i :: 0 <= i < |a| ==> a[i] == -128
    ensures Wrap32(Dot(a, a, |a|)) == -0x8000_0000 && Dot(a, a, |a|) == 0x8000_0000
  {
    AllLow(a, |a|);
  }

  lemma {:induction false} AllLow(a: seq<Int8>, n: nat)
    requires n <= |a| && forall i :: 0 <= i < |a| ==> a[i] == -128
    ensures Dot(a, a, n) == 16384 * n
  {
    if n > 0 {
      AllLow(a, n - 1);
    }
  }

  // ---- Cauchy-Schwarz ----

  lemma SquareNonNegative(x: int)
    ensures x * x >= 0
  {
  }

  /** If the product of two numbers bounds a square, their sum bounds its root twice. */
  lemma MeanBound(p: int, q: int, d: int)
    requires p >= 0 && q >= 0 && d * d <= p * q
    ensures 2 * d <= p + q
  {
    SquareNonNegative(p - q);
    Binomial(p, q);
    Binomial(p, -q);
    assert (2 * d) * (2 * d) == 4 * (d * d);
    RootBound(2 * d, p + q);
  }

  lemma RootBound(x: int, y: int)
    requires y >= 0 && x * x <= y * y
    ensures x <= y
  {
    Difference(x, y);
    if x > y {
      PositiveProduct(x - y, x + y);
    }
  }

  lemma Difference(x: int, y: int)
    ensures (x - y) * (x + y) == x * x - y * y
  {
  }

  lemma PositiveProduct(a: int, b: int)
    requires a > 0 && b > 0
    ensures a * b > 0
  {
  }

  /** One step of the induction: sums (aa, bb, ab) extended by a pair (x, y). */
  lemma SchwarzStep(aa: int, bb: int, ab: int, x: int, y: int)
    requires aa >= 0 && bb >= 0 && ab * ab <= aa * bb
    ensures (ab + x * y) * (ab + x * y) <= (aa + x * x) * (bb + y * y)
  {
    var p, q, d := aa * (y * y), bb * (x * x), ab * (x * y);
    SquareNonNegative(x);
    SquareNonNegative(y);
    NonNegativeProduct(aa, y * y);
    NonNegativeProduct(bb, x * x);
    CrossTerm(aa, bb, ab, x, y);
    MeanBound(p, q, d);
    Expand(aa, bb, ab, x, y);
  }

  lemma NonNegativeProduct(a: int, b: int)
    requires a >= 0 && b >= 0
    ensures a * b >= 0
  {
  }

  lemma CrossTerm(aa: int, bb: int, ab: int, x: int, y: int)
    requires ab * ab <= aa * bb
    ensures (ab * (x * y)) * (ab * (x * y)) <= (aa * (y * y)) * (bb * (x * x))
  {
    var z := (x * y) * (x * y);
    SquareNonNegative(x * y);
    Regroup(ab, x * y);
    assert z == (x * x) * (y * y) by {
      Regroup(x, y);
    }
    Interchange(aa, y * y, bb, x * x);
    Monotone(ab * ab, aa * bb, z);
  }

  lemma Regroup(a: int, b: int)
    ensures (a * b) * (a * b) == (a * a) * (b * b)
  {
    assert (a * b) * (a * b) == a * (b * (a * b));
    assert b * (a * b) == a * (b * b);
    assert a * (a * (b * b)) == (a * a) * (b * b);
  }

  lemma Interchange(a: int, b: int, c: int, d: int)
    ensures (a * b) * (c * d) == (a * c) * (d * b)
  {
    assert (a * b) * (c * d) == a * (b * (c * d));
    assert b * (c * d) == c * (d * b);
    assert a * (c * (d * b)) == (a * c) * (d * b);
  }

  lemma Monotone(a: int, b: int, z: int)
    requires a <= b && z >= 0
    ensures a * z <= b * z
  {
    NonNegativeProduct(b - a, z);
  }

  lemma Expand(aa: int, bb: int, ab: int, x: int, y: int)
    ensures (ab + x * y) * (ab + x * y) == ab * ab + 2 * (ab * (x * y)) + (x * y) * (x * y)
    ensures (aa + x * x) * (bb + y * y) == aa * bb + aa * (y * y) + bb * (x * x) + (x * x) * (y * y)
    ensures (x * y) * (x * y) == (x * x) * (y * y)
  {
    Regroup(x, y);
    Binomial(ab, x * y);
    var u, v := x * x, y * y;
    assert (aa + u) * (bb + v) == aa * (bb + v) + u * (bb + v);
    assert aa * (bb + v) == aa * bb + aa * v;
    assert u * (bb + v) == u * bb + u * v;
  }

  lemma Binomial(a: int, b: int)
    ensures (a + b) * (a + b) == a * a + 2 * (a * b) + b * b
  {
    assert (a + b) * (a + b) == a * (a + b) + b * (a + b);
  }

  /** The square of a dot product is at most the product of the squared lengths. */
  lemma {:induction false} CauchySchwarz(a: seq<Int8>, b: seq<Int8>, n: nat)
    requires n <= |a| && n <= |b|
    ensures Dot(a, a, n) >= 0 && Dot(b, b, n) >= 0
    ensures Dot(a, b, n) * Dot(a, b, n) <= Dot(a, a, n) * Dot(b, b, n)
  {
    if n > 0 {
      CauchySchwarz(a, b, n - 1);
      var x, y := a[n - 1] as int, b[n - 1] as int;
      SquareNonNegative(x);
      SquareNonNegative(y);
      SchwarzStep(Dot(a, a, n - 1), Dot(b, b, n - 1), Dot(a, b, n - 1), x, y);
    }
  }

  // ---- The score ----

  function AsInts(a: seq<Int8>, n: nat): (q: seq<int>)
    requires n <= |a|
    ensures |q| == n && forall i :: 0 <= i < n ==> q[i] == a[i] as int
  {
    seq(n, i requires 0 <= i < n => a[i] as int)
  }

  function Square(x: real): real
  {
    x * x
  }

  /** The squared length of a row of integers, decoded with a scale. */
  function Scaled(norm: int, scale: real): real
  {
    (scale * scale) * (norm as real)
  }

  /** The dot product of two decoded rows. */
  function DecodedDot(dot: int, sa: real, sb: real): real
  {
    dot as real * (sa * sb)
  }

  /** The reconstructed norm is the squared scale times the integer norm. */
  lemma {:induction false} NormOfRow(a: seq<Int8>, n: nat, scale: real)
    requires n <= |a|
    ensures ReconNorm(AsInts(a, n), scale) == Scaled(Dot(a, a, n), scale)
  {
    hide Scaled, Times, AsInts;
    if n == 0 {
      ScaledZero(scale);
    } else {
      NormOfRow(a, n - 1, scale);
      assert AsInts(a, n)[..n - 1] == AsInts(a, n - 1);
      ScaledStep(Dot(a, a, n - 1), a[n - 1] as int, scale);
    }
  }

  lemma ScaledZero(s: real)
    ensures Scaled(0, s) == 0.0
  {
  }

  lemma ScaledStep(sum: int, x: int, s: real)
    ensures Scaled(sum, s) + Times(Decode(x, s), Decode(x, s)) == Scaled(sum + x * x, s)
  {
    var r := x as real;
    assert (x * x) as real == r * r;
    RegroupReal(r, s);
    assert (s * s) * (sum as real + r * r) == (s * s) * (sum as real) + (s * s) * (r * r);
  }

  lemma RegroupReal(a: real, b: real)
    ensures (a * b) * (a * b) == (b * b) * (a * a)
  {
    assert (a * b) * (a * b) == a * (b * (a * b));
    assert b * (a * b) == a * (b * b);
    assert a * (a * (b * b)) == (a * a) * (b * b);
  }

  /** The dot product of two decoded rows is bounded by their norms. */
  lemma DecodedSchwarz(a: seq<Int8>, b: seq<Int8>, n: nat, sa: real, sb: real)
    requires n <= |a| && n <= |b|
    ensures Square(DecodedDot(Dot(a, b, n), sa, sb)) <= Times(ReconNorm(AsInts(a, n), sa), ReconNorm(AsInts(b, n), sb))
  {
    hide Dot, Scaled, Square, DecodedDot, Times, ReconNorm, AsInts;
    CauchySchwarz(a, b, n);
    NormOfRow(a, n, sa);
    NormOfRow(b, n, sb);
    ScaledSchwarz(Dot(a, b, n), Dot(a, a, n), Dot(b, b, n), sa, sb);
  }

  lemma ScaledSchwarz(ab: int, aa: int, bb: int, sa: real, sb: real)
    requires ab * ab <= aa * bb
    ensures Square(DecodedDot(ab, sa, sb)) <= Times(Scaled(aa, sa), Scaled(bb, sb))
  {
    CastSquares(ab, aa, bb);
    ScaleSchwarz(ab as real, aa as real, bb as real, sa, sb);
  }

  lemma CastSquares(ab: int, aa: int, bb: int)
    requires ab * ab <= aa * bb
    ensures ab as real * ab as real <= aa as real * bb as real
  {
    CastProduct(ab, ab);
    CastProduct(aa, bb);
  }

  lemma CastProduct(a: int, b: int)
    ensures (a * b) as real == a as real * b as real
  {
  }

  lemma ScaleSchwarz(ab: real, aa: real, bb: real, sa: real, sb: real)
    requires ab * ab <= aa * bb
    ensures (ab * (sa * sb)) * (ab * (sa * sb)) <= ((sa * sa) * aa) * ((sb * sb) * bb)
  {
    var z := (sa * sb) * (sa * sb);
    SquareReal(sa * sb);
    RegroupReal(ab, sa * sb);
    MonotoneReal(ab * ab, aa * bb, z);
    SquareOfProduct(sa, sb);
    InterchangeReal(sa * sa, aa, sb * sb, bb);
  }

  lemma SquareReal(x: real)
    ensures x * x >= 0.0
  {
  }

  lemma MonotoneReal(a: real, b: real, z: real)
    requires a <= b && z >= 0.0
    ensures z * a <= z * b
  {
    assert z * (b - a) >= 0.0;
  }

  lemma InterchangeReal(a: real, b: real, c: real, d: real)
    ensures (a * b) * (c * d) == (a * c) * (b * d)
  {
    assert (a * b) * (c * d) == a * (b * (c * d));
    assert b * (c * d) == c * (b * d);
    assert a * (c * (b * d)) == (a * c) * (b * d);
  }

  /** The factor stored with a row: scale over the root of its norm, or 0. */
  function InvScale(scale: real, root: real): real
  {
    if root <= 0.0 then 0.0 else scale / root
  }

  function Score(dot: int, invA: real, invB: real): real
  {
    if invA == 0.0 || invB == 0.0 then 0.0 else dot as real * invA * invB
  }

  /** The inner product of two vectors. */
  function Inner(x: seq<real>, y: seq<real>): real
    requires |x| == |y|
  {
    if x == [] then 0.0 else Inner(x[..|x| - 1], y[..|x| - 1]) + Times(x[|x| - 1], y[|x| - 1])
  }

  lemma ProductDecoded(x: Int8, y: Int8, sa: real, sb: real)
    ensures Times(Decode(x as int, sa), Decode(y as int, sb)) == DecodedDot(Product(x, y), sa, sb)
  {
    InterchangeReal(x as int as real, sa, y as int as real, sb);
    CastProduct(x as int, y as int);
  }

  lemma DecodedDotMore(d: int, p: int, sa: real, sb: real)
    ensures DecodedDot(d + p, sa, sb) == DecodedDot(d, sa, sb) + DecodedDot(p, sa, sb)
  {
    Spread(d as real, p as real, sa * sb);
  }

  lemma Spread(a: real, b: real, c: real)
    ensures (a + b) * c == a * c + b * c
  {
  }

  /** The scaled integer dot product is the inner product of the decoded rows. */
  lemma {:induction false} InnerOfDecoded(a: seq<Int8>, b: seq<Int8>, n: nat, sa: real, sb: real)
    requires n <= |a| && n <= |b|
    ensures Inner(Decoded(AsInts(a, n), sa), Decoded(AsInts(b, n), sb)) == DecodedDot(Dot(a, b, n), sa, sb)
  {
    hide Times, DecodedDot, Product, AsInts, Decode;
    var x, y := Decoded(AsInts(a, n), sa), Decoded(AsInts(b, n), sb);
    if n == 0 {
      NoProduct(sa, sb);
    } else {
      InnerOfDecoded(a, b, n - 1, sa, sb);
      assert x[..n - 1] == Decoded(AsInts(a, n - 1), sa) && y[..n - 1] == Decoded(AsInts(b, n - 1), sb);
      ProductDecoded(a[n - 1], b[n - 1], sa, sb);
      DecodedDotMore(Dot(a, b, n - 1), Product(a[n - 1], b[n - 1]), sa, sb);
    }
  }

  lemma NoProduct(sa: real, sb: real)
    ensures DecodedDot(0, sa, sb) == 0.0
  {
  }

  /** The score of two rows is the cosine of the decoded rows: their inner product
      over the product of their lengths `ra` and `rb`, or 0 if one is 0.  It lies
      between -1 and 1. */
  lemma ScoreIsCosine(a: seq<Int8>, b: seq<Int8>, n: nat, sa: real, sb: real, ra: real, rb: real)
    requires n <= |a| && n <= |b|
    requires ra >= 0.0 && Square(ra) == ReconNorm(AsInts(a, n), sa)
    requires rb >= 0.0 && Square(rb) == ReconNorm(AsInts(b, n), sb)
    ensures var score := Score(Dot(a, b, n), InvScale(sa, ra), InvScale(sb, rb));
            && -1.0 <= score <= 1.0
            && (ra == 0.0 || rb == 0.0 ==> score == 0.0)
            && (ra > 0.0 && rb > 0.0 ==> Times(score, Times(ra, rb)) == Inner(Decoded(AsInts(a, n), sa), Decoded(AsInts(b, n), sb)))
  {
    hide Dot, ReconNorm, AsInts, Square, DecodedDot, Times, Score, InvScale, Inner, Decoded;
    DecodedSchwarz(a, b, n, sa, sb);
    ScoreBound(Dot(a, b, n), sa, sb, ra, rb);
    InnerOfDecoded(a, b, n, sa, sb);
    ScoreTimes(Dot(a, b, n), sa, sb, ra, rb);
  }

  lemma ScoreTimes(dot: int, sa: real, sb: real, ra: real, rb: real)
    requires ra >= 0.0 && rb >= 0.0
    ensures var score := Score(dot, InvScale(sa, ra), InvScale(sb, rb));
            && (ra == 0.0 || rb == 0.0 ==> score == 0.0)
            && (ra > 0.0 && rb > 0.0 ==> Times(score, Times(ra, rb)) == DecodedDot(dot, sa, sb))
  {
    if ra > 0.0 && rb > 0.0 {
      PositiveReal(ra, rb);
      ScoreAsRatio(dot as real, sa, sb, ra, rb);
      TimesOver(DecodedDot(dot, sa, sb), ra * rb);
      ZeroFactor(dot as real, sa / ra, sb / rb);
    }
  }

  lemma ZeroFactor(d: real, u: real, v: real)
    ensures u == 0.0 || v == 0.0 ==> d * u * v == 0.0
  {
  }

  lemma ScoreBound(dot: int, sa: real, sb: real, ra: real, rb: real)
    requires ra >= 0.0 && rb >= 0.0
    requires Square(DecodedDot(dot, sa, sb)) <= Times(Square(ra), Square(rb))
    ensures -1.0 <= Score(dot, InvScale(sa, ra), InvScale(sb, rb)) <= 1.0
  {
    hide Score, InvScale, DecodedDot, Over;
    if Score(dot, InvScale(sa, ra), InvScale(sb, rb)) != 0.0 {
      ScoreIsRatio(dot, sa, sb, ra, rb);
      SquareOfProduct(ra, rb);
      RatioBound(DecodedDot(dot, sa, sb), ra * rb);
    }
  }

  lemma ScoreIsRatio(dot: int, sa: real, sb: real, ra: real, rb: real)
    requires ra >= 0.0 && rb >= 0.0
    requires Score(dot, InvScale(sa, ra), InvScale(sb, rb)) != 0.0
    ensures ra * rb > 0.0
    ensures Score(dot, InvScale(sa, ra), InvScale(sb, rb)) == Over(DecodedDot(dot, sa, sb), ra * rb)
  {
    PositiveReal(ra, rb);
    ScoreAsRatio(dot as real, sa, sb, ra, rb);
  }

  lemma SquareOfProduct(a: real, b: real)
    ensures (a * b) * (a * b) == (a * a) * (b * b)
  {
    RegroupReal(b, a);
    assert b * a == a * b;
  }

  lemma PositiveReal(a: real, b: real)
    requires a > 0.0 && b > 0.0
    ensures a * b > 0.0
  {
  }

  lemma RatioBound(d: real, r: real)
    requires r > 0.0 && Square(d) <= r * r
    ensures -1.0 <= Over(d, r) <= 1.0
  {
    DifferenceReal(d, r);
    DifferenceReal(-d, r);
    assert (-d) * (-d) == d * d;
    if d > r {
      PositiveReal(d - r, d + r);
    } else if d < -r {
      PositiveReal(-d - r, -d + r);
    }
    QuotientBound(d, r);
  }

  lemma DifferenceReal(x: real, y: real)
    ensures (x - y) * (x + y) == x * x - y * y
  {
  }

  lemma QuotientBound(d: real, r: real)
    requires r > 0.0 && -r <= d <= r
    ensures -1.0 <= Over(d, r) <= 1.0
  {
    hide Times, Over;
    TimesOrder(Over(d, r), 1.0, r);
    TimesOrder(-1.0, Over(d, r), r);
    TimesOver(d, r);
    Units(r);
  }

  lemma Units(r: real)
    ensures Times(1.0, r) == r && Times(-1.0, r) == -r
  {
  }

  lemma ScoreAsRatio(dot: real, sa: real, sb: real, ra: real, rb: real)
    requires ra > 0.0 && rb > 0.0 && ra * rb > 0.0
    ensures dot * (sa / ra) * (sb / rb) == (dot * (sa * sb)) / (ra * rb)
  {
    var u, v := sa / ra, sb / rb;
    assert u * ra == sa && v * rb == sb;
    InterchangeReal(u, ra, v, rb);
    assert sa * sb == (u * v) * (ra * rb);
    assert dot * (sa * sb) == (dot * u * v) * (ra * rb) by {
      Reassociate(dot, u, v, ra * rb);
    }
    Cancelled(dot * u * v, ra * rb);
  }

  lemma Reassociate(d: real, u: real, v: real, r: real)
    ensures d * ((u * v) * r) == (d * u * v) * r
  {
    assert d * ((u * v) * r) == (d * (u * v)) * r;
    assert d * (u * v) == d * u * v;
  }

  lemma Cancelled(x: real, r: real)
    requires r != 0.0
    ensures (x * r) / r == x
  {
  }

  // ---- The two scores of a search ----

  /** The dot product of a query with a row, and the final score made from it. */
  function FloatDot(query: seq<real>, row: seq<Int8>, n: nat): real
    requires n <= |query| && n <= |row|
  {
    if n == 0 then 0.0 else FloatDot(query, row, n - 1) + query[n - 1] * (row[n - 1] as int) as real
  }

  function FinalScore(dot: real, inv: real, queryNorm: real): real
  {
    if queryNorm == 0.0 || inv == 0.0 then 0.0 else dot * inv / queryNorm
  }

  function SmallQuery(): seq<real>
  {
    [1.0, 0.0039, 0.0039]
  }

  function RowAhead(): seq<Int8>
  {
    [101, -127, -127]
  }

  function RowBehind(): seq<Int8>
  {
    [100, 127, 127]
  }

  lemma SmallQueryQuantized()
    ensures Scale(SmallQuery()) == 1.0 / 127.0 && Quantized(SmallQuery(), Scale(SmallQuery())) == [127, 0, 0]
  {
    var v := SmallQuery();
    assert v[..2][..1][..0] == [] && v[..2][..1] == [1.0] && v[..2] == [1.0, 0.0039];
    assert MaxAbs([]) == 0.0;
    assert MaxAbs([1.0]) == 1.0;
    assert MaxAbs([1.0, 0.0039]) == 1.0;
    assert MaxAbs(v) == 1.0;
    var s := Scale(v);
    assert Over(1.0, s) == 127.0 && Over(0.0039, s) == 0.4953;
    assert Round(127.0) == 127 && Round(0.4953) == 0;
  }

  lemma SmallDots()
    ensures Dot(RowAhead(), RowAhead(), 3) == 42459 && Dot(RowBehind(), RowBehind(), 3) == 42258
    ensures Dot([127, 0, 0], RowAhead(), 3) == 127 * 101 && Dot([127, 0, 0], RowBehind(), 3) == 127 * 100
    ensures FloatDot(SmallQuery(), RowAhead(), 3) == 100.0094 && FloatDot(SmallQuery(), RowBehind(), 3) == 100.9906
  {
    SmallSquares(RowAhead(), RowAhead());
    SmallSquares(RowBehind(), RowBehind());
    SmallSquares([127, 0, 0], RowAhead());
    SmallSquares([127, 0, 0], RowBehind());
    SmallFloats(SmallQuery(), RowAhead());
    SmallFloats(SmallQuery(), RowBehind());
  }

  lemma SmallSquares(a: seq<Int8>, b: seq<Int8>)
    requires |a| == |b| == 3
    ensures Dot(a, b, 3) == Product(a[0], b[0]) + Product(a[1], b[1]) + Product(a[2], b[2])
  {
    hide Product;
    DotNone(a, b);
    DotOneMore(a, b, 0);
    DotOneMore(a, b, 1);
    DotOneMore(a, b, 2);
  }

  lemma SmallFloats(q: seq<real>, b: seq<Int8>)
    requires |q| == |b| == 3
    ensures FloatDot(q, b, 3) == q[0] * (b[0] as int) as real + q[1] * (b[1] as int) as real + q[2] * (b[2] as int) as real
  {
    assert FloatDot(q, b, 0) == 0.0;
    assert FloatDot(q, b, 1) == q[0] * (b[0] as int) as real;
    assert FloatDot(q, b, 2) == FloatDot(q, b, 1) + q[1] * (b[1] as int) as real;
  }

  /** Comparing `p` over a root with `q` over another by their squares. */
  lemma RootsCompare(p: real, q: real, u: real, v: real, m: real, n: real)
    requires p > 0.0 && q > 0.0 && u > 0.0 && v > 0.0 && m > 0.0 && n > 0.0
    requires u * u * m == 1.0 && v * v * n == 1.0 && (p * p) * n > (q * q) * m
    ensures p * u > q * v
  {
    if p * u <= q * v {
      SquaresKeepOrder(p * u, q * v);
      SquareOfProduct(p, u);
      SquareOfProduct(q, v);
      MonotoneReal((p * p) * (u * u), (q * q) * (v * v), m * n);
      Clear(p * p, u * u, m, n);
      Clear(q * q, v * v, n, m);
    }
  }

  lemma SquaresKeepOrder(a: real, b: real)
    requires 0.0 <= a <= b
    ensures a * a <= b * b
  {
  }

  lemma Clear(pp: real, uu: real, m: real, n: real)
    requires uu * m == 1.0
    ensures (m * n) * (pp * uu) == pp * n
  {
    calc {
      (m * n) * (pp * uu);
      (pp * n) * (uu * m);
      pp * n;
    }
  }

  /** The two rows lie in opposite order by the two scores.  `ra`, `rb` and `rq`
      are the roots of the reconstructed norms. */
  lemma ScoresDisagree(s: real, ra: real, rb: real, rq: real, queryNorm: real)
    requires s > 0.0 && ra > 0.0 && rb > 0.0 && rq > 0.0 && queryNorm > 0.0
    requires Square(ra) == ReconNorm(AsInts(RowAhead(), 3), s) && Square(rb) == ReconNorm(AsInts(RowBehind(), 3), s)
    ensures var sq := Scale(SmallQuery());
            && Quantized(SmallQuery(), sq) == [127, 0, 0]
            && Score(Dot([127, 0, 0], RowAhead(), 3), InvScale(sq, rq), InvScale(s, ra))
                 > Score(Dot([127, 0, 0], RowBehind(), 3), InvScale(sq, rq), InvScale(s, rb))
            && FinalScore(FloatDot(SmallQuery(), RowAhead(), 3), InvScale(s, ra), queryNorm)
                 < FinalScore(FloatDot(SmallQuery(), RowBehind(), 3), InvScale(s, rb), queryNorm)
  {
    hide Dot, FloatDot, ReconNorm, MaxAbs, Scale, Quantized, SmallQuery, RowAhead, RowBehind;
    SmallQueryQuantized();
    SmallDots();
    RowLengths();
    NormOfRow(RowAhead(), 3, s);
    NormOfRow(RowBehind(), 3, s);
    var u, v := s / ra, s / rb;
    UnitLength(s, ra, 42459);
    UnitLength(s, rb, 42258);
    RootsCompare(101.0, 100.0, u, v, 42459.0, 42258.0);
    RootsCompare(100.9906, 100.0094, v, u, 42258.0, 42459.0);
    ScaledCompare(127 * 101, 127 * 100, 1.0 / 127.0 / rq, u, v);
    DividedCompare(100.0094 * u, 100.9906 * v, queryNorm);
  }

  lemma RowLengths()
    ensures |RowAhead()| == 3 && |RowBehind()| == 3 && |SmallQuery()| == 3
  {
  }

  lemma UnitLength(s: real, r: real, norm: int)
    requires s > 0.0 && r > 0.0 && Square(r) == Scaled(norm, s)
    ensures s / r > 0.0 && (s / r) * (s / r) * norm as real == 1.0
  {
    var u := s / r;
    assert u * r == s;
    var n := norm as real;
    calc {
      r * r;
      (s * s) * n;
      ((u * r) * (u * r)) * n;
      { SquareOfProduct(u, r); }
      ((u * u) * (r * r)) * n;
      (r * r) * (u * u * n);
    }
    CancelFactor(r * r, u * u * n);
  }

  lemma CancelFactor(x: real, y: real)
    requires x > 0.0 && x == x * y
    ensures y == 1.0
  {
    assert x * (y - 1.0) == 0.0;
  }

  lemma ScaledCompare(a: int, b: int, w: real, u: real, v: real)
    requires w > 0.0 && u > 0.0 && v > 0.0 && a > 0 && b > 0
    requires 127 * 101 == a && 127 * 100 == b && 101.0 * u > 100.0 * v
    ensures a as real * w * u > b as real * w * v
  {
    calc {
      a as real * w * u - b as real * w * v;
      (127.0 * w) * (101.0 * u) - (127.0 * w) * (100.0 * v);
      (127.0 * w) * (101.0 * u - 100.0 * v);
    }
  }

  lemma DividedCompare(a: real, b: real, d: real)
    requires a < b && d > 0.0
    ensures a / d < b / d
  {
  }
}
