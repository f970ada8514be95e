/**
 * SQ8: vectors stored as 8-bit integers with a scale
 * (internal/engine/vector.go).  Coordinates are real numbers.
 */
module ScalarQuantization {

  const TOP: int := 127

  function Abs(x: real): real
  {
    if x < 0.0 then -x else x
  }

  function Max(x: real, y: real): real
  {
    if y > x then y else x
  }

  function Times(a: real, b: real): real
  {
    a * b
  }

  function Over(a: real, b: real): real
    requires b != 0.0
  {
    a / b
  }

  function MaxAbs(vec: seq<real>): real
  {
    if vec == [] then 0.0 else Max(MaxAbs(vec[..|vec| - 1]), Abs(vec[|vec| - 1]))
  }

  /** Rounds to the nearest integer, halves away from zero. */
  function Round(x: real): int
  {
    if x >= 0.0 then (x + 0.5).Floor else -(0.5 - x).Floor
  }

  function Clamp(q: int): int
  {
    if q > TOP then TOP else if q < -TOP then -TOP else q
  }

  function Scale(vec: seq<real>): (s: real)
    ensures s != 0.0
  {
    if MaxAbs(vec) / 127.0 == 0.0 then 1.0 else MaxAbs(vec) / 127.0
  }

  /** The stored integer of one coordinate. */
  function Quantize(v: real, scale: real): int
    requires scale != 0.0
  {
    Clamp(Round(Over(v, scale)))
  }

  function Quantized(vec: seq<real>, scale: real): (q: seq<int>)
    requires scale != 0.0
    ensures |q| == |vec| && forall i :: 0 <= i < |q| ==> q[i] == Quantize(vec[i], scale)
  {
    seq(|vec|, i requires 0 <= i < |vec| => Quantize(vec[i], scale))
  }

  function Decode(q: int, scale: real): real
  {
    Times(q as real, scale)
  }

  function Decoded(q: seq<int>, scale: real): (vec: seq<real>)
    ensures |vec| == |q| && forall i :: 0 <= i < |q| ==> vec[i] == Decode(q[i], scale)
  {
    seq(|q|, i requires 0 <= i < |q| => Decode(q[i], scale))
  }

  /** Sum of the squares of the decoded coordinates. */
  function ReconNorm(q: seq<int>, scale: real): real
  {
    if q == [] then 0.0
    else
      var recon := Decode(q[|q| - 1], scale);
      ReconNorm(q[..|q| - 1], scale) + Times(recon, recon)
  }

  // ---- Real arithmetic ----

  lemma TimesOrder(a: real, b: real, s: real)
    requires s > 0.0
    ensures a <= b <==> Times(a, s) <= Times(b, s)
  {
    var d := b - a;
    assert Times(b, s) - Times(a, s) == d * s;
    if d >= 0.0 {
      assert d * s >= 0.0;
    } else {
      assert (-d) * s > 0.0;
    }
  }

  lemma TimesOver(v: real, s: real)
    requires s != 0.0
    ensures Times(Over(v, s), s) == v
    ensures Over(Times(v, s), s) == v
  {
  }

  lemma TimesMinus(a: real, b: real, s: real)
    ensures Times(a - b, s) == Times(a, s) - Times(b, s)
    ensures Times(-a, s) == -Times(a, s)
    ensures Times(0.5, s) == s / 2.0 && Times(0.0, s) == 0.0 && Times(127.0, s) == 127.0 * s
  {
  }

  // ---- The largest coordinate ----

  lemma {:induction false} MaxAbsBounds(vec: seq<real>)
    ensures MaxAbs(vec) >= 0.0
    ensures forall i :: 0 <= i < |vec| ==> Abs(vec[i]) <= MaxAbs(vec)
    ensures MaxAbs(vec) > 0.0 ==> exists i :: 0 <= i < |vec| && Abs(vec[i]) == MaxAbs(vec)
  {
    if vec != [] {
      var n := |vec| - 1;
      MaxAbsBounds(vec[..n]);
      assert forall i :: 0 <= i < n ==> vec[..n][i] == vec[i];
      if MaxAbs(vec) > 0.0 && MaxAbs(vec) != Abs(vec[n]) {
        var i :| 0 <= i < n && Abs(vec[..n][i]) == MaxAbs(vec[..n]);
        assert Abs(vec[i]) == MaxAbs(vec);
      }
    }
  }

  lemma MaxAbsIs(vec: seq<real>, m: real, at: nat)
    requires at < |vec| && Abs(vec[at]) == m
    requires forall i :: 0 <= i < |vec| ==> Abs(vec[i]) <= m
    ensures MaxAbs(vec) == m
  {
    MaxAbsBounds(vec);
    if MaxAbs(vec) > 0.0 {
      var i :| 0 <= i < |vec| && Abs(vec[i]) == MaxAbs(vec);
    }
  }

  // ---- Rounding ----

  lemma RoundNear(x: real)
    ensures -0.5 <= Round(x) as real - x <= 0.5
    ensures if x >= 0.0 then Round(x) as real - x > -0.5 else Round(x) as real - x < 0.5
  {
  }

  lemma RoundInteger(n: int)
    ensures Round(n as real) == n
  {
  }

  lemma RoundWithin(x: real, m: int)
    requires m >= 0 && -(m as real) <= x <= m as real
    ensures -m <= Round(x) <= m
  {
  }

  // ---- Accuracy ----

  lemma ScalePositive(vec: seq<real>)
    ensures Scale(vec) > 0.0
    ensures forall i :: 0 <= i < |vec| ==> Abs(vec[i]) <= 127.0 * Scale(vec)
    ensures MaxAbs(vec) > 0.0 ==> MaxAbs(vec) == 127.0 * Scale(vec)
  {
    MaxAbsBounds(vec);
  }

  /** Clamping never fires. */
  lemma NeverClamped(vec: seq<real>, i: nat)
    requires i < |vec|
    ensures -TOP <= Round(Over(vec[i], Scale(vec))) <= TOP
    ensures Quantize(vec[i], Scale(vec)) == Round(Over(vec[i], Scale(vec)))
  {
    hide Times, Over, Scale, Round;
    ScalePositive(vec);
    var s, t := Scale(vec), Over(vec[i], Scale(vec));
    TimesOver(vec[i], s);
    TimesMinus(127.0, 0.0, s);
    TimesOrder(t, 127.0, s);
    TimesOrder(-127.0, t, s);
    RoundWithin(t, TOP);
  }

  /** Every decoded coordinate is within half a scale step of the original. */
  lemma DecodedNear(vec: seq<real>, i: nat)
    requires i < |vec|
    ensures Abs(Decoded(Quantized(vec, Scale(vec)), Scale(vec))[i] - vec[i]) <= Scale(vec) / 2.0
  {
    hide Times, Over, Scale, Round, Quantize, Quantized, Decoded;
    ScalePositive(vec);
    NeverClamped(vec, i);
    var s, t := Scale(vec), Over(vec[i], Scale(vec));
    var q := Round(t) as real;
    TimesOver(vec[i], s);
    RoundNear(t);
    TimesMinus(q, t, s);
    TimesMinus(0.5, 0.0, s);
    TimesOrder(q - t, 0.5, s);
    TimesOrder(-0.5, q - t, s);
  }

  // ---- Encoding a decoded row again ----

  lemma DecodedAbs(q: int, s: real)
    requires s > 0.0 && -TOP <= q <= TOP
    ensures Abs(Decode(q, s)) <= 127.0 * s
    ensures q == TOP || q == -TOP ==> Abs(Decode(q, s)) == 127.0 * s
  {
    hide Times;
    TimesMinus(127.0, 0.0, s);
    TimesOrder(q as real, 127.0, s);
    TimesOrder(-127.0, q as real, s);
  }

  /** The largest coordinate is stored as plus or minus 127. */
  lemma LargestIsTop(vec: seq<real>, i: nat)
    requires i < |vec| && MaxAbs(vec) > 0.0 && Abs(vec[i]) == MaxAbs(vec)
    ensures Quantize(vec[i], Scale(vec)) == TOP || Quantize(vec[i], Scale(vec)) == -TOP
  {
    hide Times, Over, Scale, Round, Quantize;
    NeverClamped(vec, i);
    ScalePositive(vec);
    var s, t := Scale(vec), Over(vec[i], Scale(vec));
    TimesOver(vec[i], s);
    TimesMinus(127.0, 0.0, s);
    TimesOrder(t, 127.0, s);
    TimesOrder(127.0, t, s);
    TimesOrder(t, -127.0, s);
    TimesOrder(-127.0, t, s);
    RoundInteger(127);
    RoundInteger(-127);
  }

  /** Quantising a decoded row gives back its scale. */
  lemma SameScale(vec: seq<real>)
    ensures Scale(Decoded(Quantized(vec, Scale(vec)), Scale(vec))) == Scale(vec)
  {
    hide Quantize, Quantized, Decode, Decoded, Scale, Times, Over;
    var s := Scale(vec);
    var q := Quantized(vec, s);
    var d := Decoded(q, s);
    ScalePositive(vec);
    MaxAbsBounds(vec);
    if MaxAbs(vec) > 0.0 {
      forall i | 0 <= i < |vec|
        ensures Abs(d[i]) <= 127.0 * s
      {
        NeverClamped(vec, i);
        DecodedAbs(q[i], s);
      }
      var i :| 0 <= i < |vec| && Abs(vec[i]) == MaxAbs(vec);
      LargestIsTop(vec, i);
      DecodedAbs(q[i], s);
      MaxAbsIs(d, 127.0 * s, i);
    } else {
      forall i | 0 <= i < |vec|
        ensures d[i] == 0.0
      {
        ZeroStaysZero(vec, i);
      }
      ZeroVector(d);
    }
    ScaleFromMax(vec, d);
  }

  lemma ScaleFromMax(a: seq<real>, b: seq<real>)
    requires MaxAbs(a) == MaxAbs(b)
    ensures Scale(a) == Scale(b)
  {
  }

  lemma ZeroVector(vec: seq<real>)
    requires forall i :: 0 <= i < |vec| ==> vec[i] == 0.0
    ensures MaxAbs(vec) == 0.0
  {
    MaxAbsBounds(vec);
  }

  lemma ZeroStaysZero(vec: seq<real>, i: nat)
    requires i < |vec| && MaxAbs(vec) == 0.0
    ensures Quantize(vec[i], Scale(vec)) == 0
    ensures Decode(0, Scale(vec)) == 0.0
  {
    MaxAbsBounds(vec);
    assert Abs(vec[i]) <= 0.0;
    RoundInteger(0);
  }

  /** Encoding a decoded row gives back the same integers and the same scale,
      also for the zero vector. */
  lemma RequantizeIsIdentity(vec: seq<real>)
    ensures var s := Scale(vec);
            var q := Quantized(vec, s);
            var again := Decoded(q, s);
            Scale(again) == s && Quantized(again, Scale(again)) == q
  {
    hide Quantized, Decoded, Scale, Times, Over, Round;
    var s := Scale(vec);
    var q := Quantized(vec, s);
    var again := Decoded(q, s);
    SameScale(vec);
    forall i | 0 <= i < |vec|
      ensures Quantize(again[i], s) == q[i]
    {
      NeverClamped(vec, i);
      TimesOver(q[i] as real, s);
      RoundInteger(q[i]);
    }
    assert Quantized(again, s) == q;
  }

  // ---- The quantising loop ----

  method LargestCoordinate(vec: seq<real>) returns (maxAbs: real)
    ensures maxAbs == MaxAbs(vec)
  {
    maxAbs := 0.0;
    for i := 0 to |vec|
      invariant maxAbs == MaxAbs(vec[..i])
    {
      var absV := if vec[i] < 0.0 then -vec[i] else vec[i];
      assert vec[..i + 1][..i] == vec[..i];
      if absV > maxAbs {
        maxAbs := absV;
      }
    }
    assert vec[..|vec|] == vec;
  }

  method QuantizeVector(vec: seq<real>) returns (q: seq<int>, scale: real, reconNorm: real)
    ensures scale == Scale(vec) && q == Quantized(vec, scale) && reconNorm == ReconNorm(q, scale)
    ensures forall i :: 0 <= i < |q| ==> -TOP <= q[i] <= TOP
  {
    var maxAbs := LargestCoordinate(vec);
    scale := maxAbs / 127.0;
    if scale == 0.0 {
      scale := 1.0;
    }
    hide Times, Over, Round, MaxAbs;
    q, reconNorm := [], 0.0;
    for i := 0 to |vec|
      invariant |q| == i && reconNorm == ReconNorm(q, scale)
      invariant forall j :: 0 <= j < i ==> q[j] == Quantize(vec[j], scale)
      invariant forall j :: 0 <= j < i ==> -TOP <= q[j] <= TOP
    {
      var x := Round(Over(vec[i], scale));
      if x > TOP {
        x := TOP;
      } else if x < -TOP {
        x := -TOP;
      }
      var recon := Decode(x, scale);
      assert (q + [x])[..i] == q;
      q := q + [x];
      reconNorm := reconNorm + Times(recon, recon);
    }
  }
}
