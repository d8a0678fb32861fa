/**
 * Edge detection of DetectorBordas: the 2 x 2 Roberts and 3 x 3 Sobel
 * gradient pairs combined into a magnitude, and the eight-direction
 * Robinson compass taken as the largest absolute response; each one runs
 * over the grey plane of its input, leaves the pixels its window cannot
 * cover at 0 and clamps the rest into a byte.  A strict threshold turns
 * the result into a binary edge map.
 */
module DetectorBordas {
  import opened Raster

  /** An integer kernel of `s` x `s` weights. */
  predicate SquareKernel(k: seq<seq<int>>, s: nat) {
    |k| == s && forall i | 0 <= i < s :: |k[i]| == s
  }

  const RobertsGx: seq<seq<int>> := [[1, 0], [0, -1]]
  const RobertsGy: seq<seq<int>> := [[0, 1], [-1, 0]]

  const SobelGx: seq<seq<int>> := [[-1, 0, 1], [-2, 0, 2], [-1, 0, 1]]
  const SobelGy: seq<seq<int>> := [[-1, -2, -1], [0, 0, 0], [1, 2, 1]]

  const KernelN: seq<seq<int>> := [[-1, 0, 1], [-2, 0, 2], [-1, 0, 1]]
  const KernelNE: seq<seq<int>> := [[0, 1, 2], [-1, 0, 1], [-2, -1, 0]]
  const KernelE: seq<seq<int>> := [[1, 2, 1], [0, 0, 0], [-1, -2, -1]]
  const KernelSE: seq<seq<int>> := [[2, 1, 0], [1, 0, -1], [0, -1, -2]]
  const KernelS: seq<seq<int>> := [[1, 0, -1], [2, 0, -2], [1, 0, -1]]
  const KernelSW: seq<seq<int>> := [[0, -1, -2], [1, 0, -1], [2, 1, 0]]
  const KernelW: seq<seq<int>> := [[-1, -2, -1], [0, 0, 0], [1, 2, 1]]
  const KernelNW: seq<seq<int>> := [[-2, -1, 0], [-1, 0, 1], [0, 1, 2]]

  /** The compass kernels in the order `respostas` holds them: N, NE, E, SE, S, SW, W, NW. */
  const Robinson8: seq<seq<seq<int>>> := [KernelN, KernelNE, KernelE, KernelSE, KernelS, KernelSW, KernelW, KernelNW]

  lemma KernelShapes()
    ensures SquareKernel(RobertsGx, 2) && SquareKernel(RobertsGy, 2)
    ensures SquareKernel(SobelGx, 3) && SquareKernel(SobelGy, 3)
    ensures |Robinson8| == 8 && forall d | 0 <= d < 8 :: SquareKernel(Robinson8[d], 3)
  {
  }

  /** The window of an s x s kernel with corner (y0, x0) lies inside the grey plane. */
  predicate Covers(g: Image, s: nat, y0: int, x0: int) {
    0 <= y0 && y0 + s <= g.rows && 0 <= x0 && x0 + s <= g.cols
  }

  /** Weighted sum of the first `n` cells of kernel row i over the window with corner (y0, x0). */
  function KRowSum(g: Image, k: seq<seq<int>>, s: nat, y0: int, x0: int, i: nat, n: nat): int
    requires g.Valid() && g.channels == 1 && SquareKernel(k, s) && i < s && n <= s && Covers(g, s, y0, x0)
  {
    if n == 0 then 0
    else
      assert ValidRow(g.data[y0 + i], g.cols, 1);
      KRowSum(g, k, s, y0, x0, i, n - 1) + g.data[y0 + i][x0 + n - 1][0] * k[i][n - 1]
  }

  /** Weighted sum of the first `m` kernel rows over the window with corner (y0, x0). */
  function KSum(g: Image, k: seq<seq<int>>, s: nat, y0: int, x0: int, m: nat): int
    requires g.Valid() && g.channels == 1 && SquareKernel(k, s) && m <= s && Covers(g, s, y0, x0)
  {
    if m == 0 then 0 else KSum(g, k, s, y0, x0, m - 1) + KRowSum(g, k, s, y0, x0, m - 1, s)
  }

  /** `aplicarKernel2x2`: the response of a 2 x 2 kernel whose top-left cell lies over (y, x). */
  function Response2x2(g: Image, k: seq<seq<int>>, y: int, x: int): int
    requires g.Valid() && g.channels == 1 && SquareKernel(k, 2) && Covers(g, 2, y, x)
  {
    KSum(g, k, 2, y, x, 2)
  }

  /** `aplicarKernel3x3`: the response of a 3 x 3 kernel centred on (y, x). */
  function Response3x3(g: Image, k: seq<seq<int>>, y: int, x: int): int
    requires g.Valid() && g.channels == 1 && SquareKernel(k, 3) && Covers(g, 3, y - 1, x - 1)
  {
    KSum(g, k, 3, y - 1, x - 1, 3)
  }

  lemma Row2(g: Image, k: seq<seq<int>>, y0: int, x0: int, i: nat)
    requires g.Valid() && g.channels == 1 && SquareKernel(k, 2) && i < 2 && Covers(g, 2, y0, x0)
    ensures KRowSum(g, k, 2, y0, x0, i, 2) == At(g, y0 + i, x0) * k[i][0] + At(g, y0 + i, x0 + 1) * k[i][1]
  {
    assert KRowSum(g, k, 2, y0, x0, i, 1) == At(g, y0 + i, x0) * k[i][0];
  }

  lemma Row3(g: Image, k: seq<seq<int>>, y0: int, x0: int, i: nat)
    requires g.Valid() && g.channels == 1 && SquareKernel(k, 3) && i < 3 && Covers(g, 3, y0, x0)
    ensures KRowSum(g, k, 3, y0, x0, i, 3) ==
      At(g, y0 + i, x0) * k[i][0] + At(g, y0 + i, x0 + 1) * k[i][1] + At(g, y0 + i, x0 + 2) * k[i][2]
  {
    assert KRowSum(g, k, 3, y0, x0, i, 1) == At(g, y0 + i, x0) * k[i][0];
    assert KRowSum(g, k, 3, y0, x0, i, 2) == At(g, y0 + i, x0) * k[i][0] + At(g, y0 + i, x0 + 1) * k[i][1];
  }

  lemma Sum2(g: Image, k: seq<seq<int>>, y0: int, x0: int)
    requires g.Valid() && g.channels == 1 && SquareKernel(k, 2) && Covers(g, 2, y0, x0)
    ensures KSum(g, k, 2, y0, x0, 2) == KRowSum(g, k, 2, y0, x0, 0, 2) + KRowSum(g, k, 2, y0, x0, 1, 2)
  {
    assert KSum(g, k, 2, y0, x0, 1) == KRowSum(g, k, 2, y0, x0, 0, 2);
  }

  lemma Sum3(g: Image, k: seq<seq<int>>, y0: int, x0: int)
    requires g.Valid() && g.channels == 1 && SquareKernel(k, 3) && Covers(g, 3, y0, x0)
    ensures KSum(g, k, 3, y0, x0, 3) ==
      KRowSum(g, k, 3, y0, x0, 0, 3) + KRowSum(g, k, 3, y0, x0, 1, 3) + KRowSum(g, k, 3, y0, x0, 2, 3)
  {
    assert KSum(g, k, 3, y0, x0, 1) == KRowSum(g, k, 3, y0, x0, 0, 3);
    assert KSum(g, k, 3, y0, x0, 2) == KRowSum(g, k, 3, y0, x0, 0, 3) + KRowSum(g, k, 3, y0, x0, 1, 3);
  }

  /** The Roberts gradients are diagonal differences. */
  lemma RobertsDifferences(g: Image, y: int, x: int)
    requires g.Valid() && g.channels == 1 && Covers(g, 2, y, x)
    ensures SquareKernel(RobertsGx, 2) && SquareKernel(RobertsGy, 2)
    ensures Response2x2(g, RobertsGx, y, x) == At(g, y, x) - At(g, y + 1, x + 1)
    ensures Response2x2(g, RobertsGy, y, x) == At(g, y, x + 1) - At(g, y + 1, x)
  {
    KernelShapes();
    Sum2(g, RobertsGx, y, x);
    Row2(g, RobertsGx, y, x, 0);
    Row2(g, RobertsGx, y, x, 1);
    Sum2(g, RobertsGy, y, x);
    Row2(g, RobertsGy, y, x, 0);
    Row2(g, RobertsGy, y, x, 1);
  }

  /** The Sobel gradients are weighted differences of the right and left columns, and of the bottom and top rows. */
  lemma SobelDifferences(g: Image, y: int, x: int)
    requires g.Valid() && g.channels == 1 && Covers(g, 3, y - 1, x - 1)
    ensures SquareKernel(SobelGx, 3) && SquareKernel(SobelGy, 3)
    ensures Response3x3(g, SobelGx, y, x) ==
      (At(g, y - 1, x + 1) + 2 * At(g, y, x + 1) + At(g, y + 1, x + 1)) -
      (At(g, y - 1, x - 1) + 2 * At(g, y, x - 1) + At(g, y + 1, x - 1))
    ensures Response3x3(g, SobelGy, y, x) ==
      (At(g, y + 1, x - 1) + 2 * At(g, y + 1, x) + At(g, y + 1, x + 1)) -
      (At(g, y - 1, x - 1) + 2 * At(g, y - 1, x) + At(g, y - 1, x + 1))
  {
    KernelShapes();
    Sum3(g, SobelGx, y - 1, x - 1);
    Row3(g, SobelGx, y - 1, x - 1, 0);
    Row3(g, SobelGx, y - 1, x - 1, 1);
    Row3(g, SobelGx, y - 1, x - 1, 2);
    Sum3(g, SobelGy, y - 1, x - 1);
    Row3(g, SobelGy, y - 1, x - 1, 0);
    Row3(g, SobelGy, y - 1, x - 1, 1);
    Row3(g, SobelGy, y - 1, x - 1, 2);
  }

  /** Sum of all weights of a kernel. */
  function WeightSum(k: seq<seq<int>>, s: nat, m: nat): int
    requires SquareKernel(k, s) && m <= s
  {
    if m == 0 then 0 else WeightSum(k, s, m - 1) + RowWeight(k[m - 1], s)
  }

  function RowWeight(row: seq<int>, n: nat): int
    requires n <= |row|
  {
    if n == 0 then 0 else RowWeight(row, n - 1) + row[n - 1]
  }

  lemma {:induction false} UniformKRowSum(g: Image, k: seq<seq<int>>, s: nat, y0: int, x0: int, i: nat, n: nat, v: int)
    requires g.IsUniform(v) && SquareKernel(k, s) && i < s && n <= s && Covers(g, s, y0, x0)
    ensures KRowSum(g, k, s, y0, x0, i, n) == v * RowWeight(k[i], n)
  {
    if n > 0 {
      UniformKRowSum(g, k, s, y0, x0, i, n - 1, v);
      assert g.data[y0 + i][x0 + n - 1] == [v];
    }
  }

  /** Over a uniform plane a kernel's response is the value times its weight sum. */
  lemma {:induction false} UniformKSum(g: Image, k: seq<seq<int>>, s: nat, y0: int, x0: int, m: nat, v: int)
    requires g.IsUniform(v) && SquareKernel(k, s) && m <= s && Covers(g, s, y0, x0)
    ensures KSum(g, k, s, y0, x0, m) == v * WeightSum(k, s, m)
  {
    if m > 0 {
      UniformKSum(g, k, s, y0, x0, m - 1, v);
      UniformKRowSum(g, k, s, y0, x0, m - 1, s, v);
    }
  }

  /** Every kernel of the detector sums to zero. */
  lemma KernelsSumToZero()
    ensures SquareKernel(RobertsGx, 2) && SquareKernel(RobertsGy, 2)
    ensures WeightSum(RobertsGx, 2, 2) == 0 && WeightSum(RobertsGy, 2, 2) == 0
    ensures SquareKernel(SobelGx, 3) && SquareKernel(SobelGy, 3)
    ensures WeightSum(SobelGx, 3, 3) == 0 && WeightSum(SobelGy, 3, 3) == 0
    ensures forall d | 0 <= d < 8 :: SquareKernel(Robinson8[d], 3) && WeightSum(Robinson8[d], 3, 3) == 0
  {
    KernelShapes();
    Weights2(RobertsGx);
    Weights2(RobertsGy);
    Weights3(SobelGx);
    Weights3(SobelGy);
    Weights3(KernelN);
    Weights3(KernelNE);
    Weights3(KernelE);
    Weights3(KernelSE);
    Weights3(KernelS);
    Weights3(KernelSW);
    Weights3(KernelW);
    Weights3(KernelNW);
    assert Robinson8[0] == KernelN && Robinson8[1] == KernelNE && Robinson8[2] == KernelE && Robinson8[3] == KernelSE;
    assert Robinson8[4] == KernelS && Robinson8[5] == KernelSW && Robinson8[6] == KernelW && Robinson8[7] == KernelNW;
  }

  lemma Weights2(k: seq<seq<int>>)
    requires SquareKernel(k, 2)
    ensures WeightSum(k, 2, 2) == k[0][0] + k[0][1] + k[1][0] + k[1][1]
  {
    assert WeightSum(k, 2, 1) == RowWeight(k[0], 2);
    assert RowWeight(k[0], 1) == k[0][0];
    assert RowWeight(k[1], 1) == k[1][0];
  }

  lemma Weights3(k: seq<seq<int>>)
    requires SquareKernel(k, 3)
    ensures WeightSum(k, 3, 3) == k[0][0] + k[0][1] + k[0][2] + k[1][0] + k[1][1] + k[1][2] + k[2][0] + k[2][1] + k[2][2]
  {
    assert WeightSum(k, 3, 1) == RowWeight(k[0], 3);
    assert WeightSum(k, 3, 2) == RowWeight(k[0], 3) + RowWeight(k[1], 3);
    RowWeight3(k[0]);
    RowWeight3(k[1]);
    RowWeight3(k[2]);
  }

  lemma RowWeight3(row: seq<int>)
    requires |row| == 3
    ensures RowWeight(row, 3) == row[0] + row[1] + row[2]
  {
    assert RowWeight(row, 1) == row[0];
    assert RowWeight(row, 2) == row[0] + row[1];
  }

  /** A kernel with every weight negated. */
  function Negated(k: seq<seq<int>>): (r: seq<seq<int>>)
    ensures |r| == |k| && forall i | 0 <= i < |k| :: |r[i]| == |k[i]| && forall j | 0 <= j < |k[i]| :: r[i][j] == -k[i][j]
  {
    seq(|k|, i requires 0 <= i < |k| => seq(|k[i]|, j requires 0 <= j < |k[i]| => -k[i][j]))
  }

  lemma {:induction false} NegatedKRowSum(g: Image, k: seq<seq<int>>, s: nat, y0: int, x0: int, i: nat, n: nat)
    requires g.Valid() && g.channels == 1 && SquareKernel(k, s) && i < s && n <= s && Covers(g, s, y0, x0)
    ensures SquareKernel(Negated(k), s)
    ensures KRowSum(g, Negated(k), s, y0, x0, i, n) == -KRowSum(g, k, s, y0, x0, i, n)
  {
    if n > 0 {
      NegatedKRowSum(g, k, s, y0, x0, i, n - 1);
    }
  }

  /** A negated kernel gives the negated response. */
  lemma {:induction false} NegatedKSum(g: Image, k: seq<seq<int>>, s: nat, y0: int, x0: int, m: nat)
    requires g.Valid() && g.channels == 1 && SquareKernel(k, s) && m <= s && Covers(g, s, y0, x0)
    ensures SquareKernel(Negated(k), s)
    ensures KSum(g, Negated(k), s, y0, x0, m) == -KSum(g, k, s, y0, x0, m)
  {
    if m > 0 {
      NegatedKSum(g, k, s, y0, x0, m - 1);
      NegatedKRowSum(g, k, s, y0, x0, m - 1, s);
    }
  }

  /**
   * The compass kernels come in opposite pairs (S = -N, SW = -NE, W = -E,
   * NW = -SE), and the north and west kernels are Sobel's Gx and Gy.
   */
  lemma CompassPairs()
    ensures KernelS == Negated(KernelN) && KernelSW == Negated(KernelNE)
    ensures KernelW == Negated(KernelE) && KernelNW == Negated(KernelSE)
    ensures KernelN == SobelGx && KernelW == SobelGy
  {
    NegationOf(KernelN, KernelS);
    NegationOf(KernelNE, KernelSW);
    NegationOf(KernelE, KernelW);
    NegationOf(KernelSE, KernelNW);
  }

  lemma NegationOf(a: seq<seq<int>>, b: seq<seq<int>>)
    requires SquareKernel(a, 3) && SquareKernel(b, 3)
    requires forall i, j | 0 <= i < 3 && 0 <= j < 3 :: b[i][j] == -a[i][j]
    ensures b == Negated(a)
  {
    var n := Negated(a);
    forall i | 0 <= i < 3
      ensures b[i] == n[i]
    {
      assert |b[i]| == |n[i]| == 3;
    }
  }

  /** The largest integer whose square does not exceed `n`, searching down from `r`. */
  function SqrtBelow(n: nat, r: nat): (q: nat)
    requires n < (r + 1) * (r + 1)
    ensures q * q <= n < (q + 1) * (q + 1)
  {
    if r * r <= n then r else SqrtBelow(n, r - 1)
  }

  /** `calcularMagnitude` as an integer floor square root. */
  function FloorSqrt(n: nat): (q: nat)
    ensures q * q <= n < (q + 1) * (q + 1)
  {
    SqrtBelow(n, n)
  }

  /** A floor square root is the one integer that brackets the square root. */
  lemma {:induction false} FloorSqrtUnique(n: nat, q: nat)
    requires q * q <= n < (q + 1) * (q + 1)
    ensures FloorSqrt(n) == q
  {
    var r := FloorSqrt(n);
    if r < q {
      ScaleLe(r + 1, q);
    } else if r > q {
      ScaleLe(q + 1, r);
    }
  }

  lemma ScaleLe(a: nat, b: nat)
    requires a <= b
    ensures a * a <= b * b
  {
    assert a * a <= a * b <= b * b;
  }

  /**
   * Clamping the exact square root of the integer magnitude into a byte
   * gives the same value as clamping its floor square root.
   */
  lemma {:induction false} MagnitudeClamp(n: nat, m: real)
    requires m >= 0.0 && m * m == n as real
    ensures ClampToByte(m) == ClampToByte(FloorSqrt(n) as real)
  {
    var q := FloorSqrt(n);
    SqrtBracket(n, q, m);
    ClampBracket(m, q);
  }

  /** A non-negative square root of n lies in [q, q + 1) for the floor square root q. */
  lemma SqrtBracket(n: nat, q: nat, m: real)
    requires q * q <= n < (q + 1) * (q + 1)
    requires m >= 0.0 && m * m == n as real
    ensures q as real <= m < q as real + 1.0
  {
    var qr := q as real;
    CastProduct(q, q);
    CastProduct(q + 1, q + 1);
    if m < qr {
      if m > 0.0 {
        RealSquareStrict(m, qr);
      } else {
        ZeroSquare(m);
        ScaleLe(1, q);
      }
    }
    if m >= qr + 1.0 {
      RealSquareMonotone(qr + 1.0, m);
    }
  }

  /** The byte clamp depends only on the integer part of a non-negative value. */
  lemma ClampBracket(m: real, q: nat)
    requires q as real <= m < q as real + 1.0
    ensures ClampToByte(m) == ClampToByte(q as real)
  {
  }

  lemma RealSquareStrict(a: real, b: real)
    requires 0.0 < a < b
    ensures a * a < b * b
  {
    ScaleLeft(a, a, b);
    RealScaleStrict(a, b, b);
  }

  lemma RealSquareMonotone(a: real, b: real)
    requires 0.0 <= a <= b
    ensures a * a <= b * b
  {
    ScaleLeft(a, a, b);
    RealScaleMonotone(a, b, b);
  }

  lemma ScaleLeft(m: real, a: real, b: real)
    requires a <= b && m >= 0.0
    ensures m * a <= m * b
  {
  }

  lemma ZeroSquare(a: real)
    requires a == 0.0
    ensures a * a == 0.0
  {
  }

  /** The gradient magnitude is at least the larger of the two gradients in absolute value. */
  lemma {:induction false} MagnitudeDominates(gx: int, gy: int)
    ensures FloorSqrt(gx * gx + gy * gy) >= Max(Abs(gx), Abs(gy))
  {
    var q := FloorSqrt(gx * gx + gy * gy);
    var a := Max(Abs(gx), Abs(gy));
    assert a * a == gx * gx || a * a == gy * gy;
    assert gx * gx >= 0 && gy * gy >= 0;
    if q < a {
      ScaleLe(q + 1, a);
    }
  }

  function Abs(v: int): nat {
    if v < 0 then -v else v
  }

  /** The largest entry of a non-empty sequence. */
  function SeqMax(s: seq<int>): (m: int)
    requires |s| > 0
    ensures (exists i | 0 <= i < |s| :: s[i] == m) && forall i | 0 <= i < |s| :: s[i] <= m
  {
    if |s| == 1 then s[0]
    else
      var r := SeqMax(s[..|s| - 1]);
      assert forall i | 0 <= i < |s| - 1 :: s[..|s| - 1][i] == s[i];
      Max(r, s[|s| - 1])
  }

  /** The three detectors, which share the scan over the grey plane. */
  datatype Operator = Roberts | Sobel | Robinson

  /** The first row and column the detector writes; it stops one short of the last. */
  function Lo(op: Operator): nat {
    if op == Roberts then 0 else 1
  }

  /** The pixels the detector writes: its window fits entirely inside the plane. */
  predicate Inside(op: Operator, g: Image, y: int, x: int) {
    Lo(op) <= y < g.rows - 1 && Lo(op) <= x < g.cols - 1
  }

  /** The absolute responses of the eight compass kernels at (y, x). */
  function CompassResponses(g: Image, y: int, x: int): (rs: seq<int>)
    requires g.Valid() && g.channels == 1 && Covers(g, 3, y - 1, x - 1)
    ensures |rs| == 8 && forall d | 0 <= d < 8 :: rs[d] >= 0
  {
    KernelShapes();
    seq(8, d requires 0 <= d < 8 => Abs(Response3x3(g, Robinson8[d], y, x)))
  }

  /** The value a detector writes at an inside pixel. */
  function EdgeValue(op: Operator, g: Image, y: int, x: int): (v: int)
    requires g.Valid() && g.channels == 1 && Inside(op, g, y, x)
    ensures IsByte(v)
  {
    KernelShapes();
    match op
    case Roberts =>
      var gx, gy := Response2x2(g, RobertsGx, y, x), Response2x2(g, RobertsGy, y, x);
      ClampToByte(FloorSqrt(gx * gx + gy * gy) as real)
    case Sobel =>
      var gx, gy := Response3x3(g, SobelGx, y, x), Response3x3(g, SobelGy, y, x);
      ClampToByte(FloorSqrt(gx * gx + gy * gy) as real)
    case Robinson =>
      ClampToByte(SeqMax(CompassResponses(g, y, x)) as real)
  }

  function EdgePixel(op: Operator, g: Image, y: int, x: int): (p: Pixel)
    requires g.Valid() && g.channels == 1
    ensures ValidPixel(p, 1)
  {
    if Inside(op, g, y, x) then [EdgeValue(op, g, y, x)] else [0]
  }

  /** The detector's output for a grey plane: a new single-channel image of the same size. */
  function EdgePlane(op: Operator, g: Image): (r: Image)
    requires g.Valid() && g.channels == 1
    ensures r.Valid() && r.SameTypeAs(g)
    ensures forall y, x | 0 <= y < g.rows && 0 <= x < g.cols :: r.data[y][x] == EdgePixel(op, g, y, x)
  {
    Image(g.rows, g.cols, 1,
      seq(g.rows, y requires 0 <= y < g.rows =>
        seq(g.cols, x requires 0 <= x < g.cols => EdgePixel(op, g, y, x))))
  }

  /** The results of `roberts`, `sobel` and `robinson`. */
  function Edges(op: Operator, img: Image): (r: Image)
    requires img.Valid() && (img.channels == 1 || img.channels == 3)
    ensures r.Valid() && r.channels == 1 && r.rows == img.rows && r.cols == img.cols
  {
    EdgePlane(op, GrayPlane(img))
  }

  /**
   * Pixels the window cannot cover stay 0: Roberts leaves the last row and
   * column, Sobel and Robinson a one-pixel frame.
   */
  lemma {:induction false} EdgeBorder(op: Operator, img: Image, y: nat, x: nat)
    requires img.Valid() && (img.channels == 1 || img.channels == 3) && y < img.rows && x < img.cols
    requires y == img.rows - 1 || x == img.cols - 1 || (op != Roberts && (y == 0 || x == 0))
    ensures Edges(op, img).data[y][x] == [0]
  {
  }

  /** On a uniform image every gradient and compass response is 0, so every detector gives an all-zero image. */
  lemma {:induction false} UniformGivesNoEdges(op: Operator, img: Image, v: int, y: nat, x: nat)
    requires img.IsUniform(v) && y < img.rows && x < img.cols
    ensures Edges(op, img).data[y][x] == [0]
  {
    var g := GrayPlane(img);
    KernelsSumToZero();
    if Inside(op, g, y, x) {
      match op
      case Roberts =>
        UniformKSum(g, RobertsGx, 2, y, x, 2, v);
        UniformKSum(g, RobertsGy, 2, y, x, 2, v);
      case Sobel =>
        UniformKSum(g, SobelGx, 3, y - 1, x - 1, 3, v);
        UniformKSum(g, SobelGy, 3, y - 1, x - 1, 3, v);
      case Robinson =>
        forall d | 0 <= d < 8
          ensures CompassResponses(g, y, x)[d] == 0
        {
          UniformKSum(g, Robinson8[d], 3, y - 1, x - 1, 3, v);
        }
        assert SeqMax(CompassResponses(g, y, x)) == 0;
    }
  }

  /**
   * An image whose pixels all equal one pixel `p`, grey or colour, has a
   * uniform grey plane (the luma of `p` for a colour image), so it has no edges.
   */
  lemma {:induction false} ConstantGivesNoEdges(op: Operator, img: Image, p: Pixel, y: nat, x: nat)
    requires img.Valid() && (img.channels == 1 || img.channels == 3) && y < img.rows && x < img.cols
    requires forall i, j | 0 <= i < img.rows && 0 <= j < img.cols :: img.data[i][j] == p
    ensures Edges(op, img).data[y][x] == [0]
  {
    assert ValidRow(img.data[0], img.cols, img.channels);
    assert img.data[0][0] == p && ValidPixel(p, img.channels);
    var g := GrayPlane(img);
    var v := if img.channels == 1 then p[0] else Luma(p);
    assert g.IsUniform(v);
    UniformGivesNoEdges(op, g, v, y, x);
    assert GrayPlane(g) == g;
  }

  /** Opposite compass kernels give the same absolute response. */
  lemma {:induction false} CompassSymmetry(g: Image, y: int, x: int)
    requires g.Valid() && g.channels == 1 && Covers(g, 3, y - 1, x - 1)
    ensures var rs := CompassResponses(g, y, x);
      rs[4] == rs[0] && rs[5] == rs[1] && rs[6] == rs[2] && rs[7] == rs[3]
  {
    KernelShapes();
    CompassPairs();
    NegatedKSum(g, KernelN, 3, y - 1, x - 1, 3);
    NegatedKSum(g, KernelNE, 3, y - 1, x - 1, 3);
    NegatedKSum(g, KernelE, 3, y - 1, x - 1, 3);
    NegatedKSum(g, KernelSE, 3, y - 1, x - 1, 3);
  }

  /** The largest compass response is at least the larger absolute Sobel gradient. */
  lemma {:induction false} CompassCoversSobel(g: Image, y: int, x: int)
    requires g.Valid() && g.channels == 1 && Covers(g, 3, y - 1, x - 1)
    ensures SquareKernel(SobelGx, 3) && SquareKernel(SobelGy, 3)
    ensures SeqMax(CompassResponses(g, y, x)) >= Max(Abs(Response3x3(g, SobelGx, y, x)), Abs(Response3x3(g, SobelGy, y, x)))
  {
    KernelShapes();
    CompassPairs();
    var rs := CompassResponses(g, y, x);
    assert rs[0] == Abs(Response3x3(g, SobelGx, y, x));
    assert rs[6] == Abs(Response3x3(g, SobelGy, y, x));
  }

  /**
   * At every pixel both the Robinson output and the Sobel output are at
   * least the clamped larger absolute Sobel gradient.
   */
  lemma {:induction false} RobinsonDominatesSobel(img: Image, y: nat, x: nat)
    requires img.Valid() && (img.channels == 1 || img.channels == 3)
    requires y < img.rows && x < img.cols && Inside(Sobel, GrayPlane(img), y, x)
    ensures var g := GrayPlane(img);
      var m := ClampToByte(Max(Abs(Response3x3(g, SobelGx, y, x)), Abs(Response3x3(g, SobelGy, y, x))) as real);
      Edges(Robinson, img).data[y][x][0] >= m && Edges(Sobel, img).data[y][x][0] >= m
  {
    var g := GrayPlane(img);
    assert Edges(Robinson, img).data[y][x] == [EdgeValue(Robinson, g, y, x)];
    assert Edges(Sobel, img).data[y][x] == [EdgeValue(Sobel, g, y, x)];
    DominatesOnPlane(g, y, x);
  }

  lemma {:induction false} DominatesOnPlane(g: Image, y: int, x: int)
    requires g.Valid() && g.channels == 1 && Inside(Sobel, g, y, x)
    ensures SquareKernel(SobelGx, 3) && SquareKernel(SobelGy, 3)
    ensures var m := ClampToByte(Max(Abs(Response3x3(g, SobelGx, y, x)), Abs(Response3x3(g, SobelGy, y, x))) as real);
      EdgeValue(Robinson, g, y, x) >= m && EdgeValue(Sobel, g, y, x) >= m
  {
    KernelShapes();
    var gx, gy := Response3x3(g, SobelGx, y, x), Response3x3(g, SobelGy, y, x);
    var a := Max(Abs(gx), Abs(gy));
    CompassCoversSobel(g, y, x);
    ClampMonotone(a as real, SeqMax(CompassResponses(g, y, x)) as real);
    SobelAtLeast(g, y, x);
  }

  lemma {:induction false} SobelAtLeast(g: Image, y: int, x: int)
    requires g.Valid() && g.channels == 1 && Inside(Sobel, g, y, x)
    ensures SquareKernel(SobelGx, 3) && SquareKernel(SobelGy, 3)
    ensures EdgeValue(Sobel, g, y, x) >=
      ClampToByte(Max(Abs(Response3x3(g, SobelGx, y, x)), Abs(Response3x3(g, SobelGy, y, x))) as real)
  {
    KernelShapes();
    var gx, gy := Response3x3(g, SobelGx, y, x), Response3x3(g, SobelGy, y, x);
    MagnitudeDominates(gx, gy);
    ClampMonotone(Max(Abs(gx), Abs(gy)) as real, FloorSqrt(gx * gx + gy * gy) as real);
  }

  lemma ClampMonotone(a: real, b: real)
    requires a <= b
    ensures ClampToByte(a) <= ClampToByte(b)
  {
  }

  // ---- the loops of the source ----

  /** The two loops of `aplicarKernel2x2`, accumulating pixel times weight. */
  method AplicarKernel2x2(imagem: Image, y: int, x: int, kernel: seq<seq<int>>) returns (soma: int)
    requires imagem.Valid() && imagem.channels == 1 && SquareKernel(kernel, 2) && Covers(imagem, 2, y, x)
    ensures soma == Response2x2(imagem, kernel, y, x)
  {
    soma := 0;
    var ky := 0;
    while ky < 2
      invariant 0 <= ky <= 2 && soma == KSum(imagem, kernel, 2, y, x, ky)
    {
      var kx := 0;
      while kx < 2
        invariant 0 <= kx <= 2
        invariant soma == KSum(imagem, kernel, 2, y, x, ky) + KRowSum(imagem, kernel, 2, y, x, ky, kx)
      {
        assert ValidRow(imagem.data[y + ky], imagem.cols, 1);
        var pixel := imagem.data[y + ky][x + kx][0];
        soma := soma + pixel * kernel[ky][kx];
        kx := kx + 1;
      }
      ky := ky + 1;
    }
  }

  /** The two loops of `aplicarKernel3x3`, with offsets -1..1 around the centre. */
  method AplicarKernel3x3(imagem: Image, y: int, x: int, kernel: seq<seq<int>>) returns (soma: int)
    requires imagem.Valid() && imagem.channels == 1 && SquareKernel(kernel, 3) && Covers(imagem, 3, y - 1, x - 1)
    ensures soma == Response3x3(imagem, kernel, y, x)
  {
    soma := 0;
    var ky := -1;
    while ky <= 1
      invariant -1 <= ky <= 2 && soma == KSum(imagem, kernel, 3, y - 1, x - 1, ky + 1)
    {
      var kx := -1;
      while kx <= 1
        invariant -1 <= kx <= 2
        invariant soma == KSum(imagem, kernel, 3, y - 1, x - 1, ky + 1) + KRowSum(imagem, kernel, 3, y - 1, x - 1, ky + 1, kx + 1)
      {
        assert ValidRow(imagem.data[y + ky], imagem.cols, 1);
        var pixel := imagem.data[y + ky][x + kx][0];
        soma := soma + pixel * kernel[ky + 1][kx + 1];
        kx := kx + 1;
      }
      ky := ky + 1;
    }
  }

  /** The eight absolute responses into `respostas`, then the running maximum. */
  method RespostaRobinson(g: Image, y: int, x: int) returns (maxResposta: int)
    requires g.Valid() && g.channels == 1 && Inside(Robinson, g, y, x)
    ensures maxResposta == SeqMax(CompassResponses(g, y, x))
  {
    KernelShapes();
    var respostas := new int[8];
    var d := 0;
    while d < 8
      invariant 0 <= d <= 8
      invariant forall e | 0 <= e < d :: respostas[e] == CompassResponses(g, y, x)[e]
    {
      var r := AplicarKernel3x3(g, y, x, Robinson8[d]);
      respostas[d] := Abs(r);
      d := d + 1;
    }
    assert respostas[..] == CompassResponses(g, y, x);
    maxResposta := respostas[0];
    var i := 1;
    while i < 8
      invariant 1 <= i <= 8
      invariant exists e | 0 <= e < i :: respostas[e] == maxResposta
      invariant forall e | 0 <= e < i :: respostas[e] <= maxResposta
    {
      if respostas[i] > maxResposta {
        maxResposta := respostas[i];
      }
      i := i + 1;
    }
    ghost var top := SeqMax(respostas[..]);
    assert maxResposta <= top && top <= maxResposta;
  }

  /** The value written at an inside pixel, computed as the source does. */
  method ValorBorda(op: Operator, g: Image, y: int, x: int) returns (v: int)
    requires g.Valid() && g.channels == 1 && Inside(op, g, y, x)
    ensures v == EdgeValue(op, g, y, x)
  {
    KernelShapes();
    match op
    case Roberts =>
      var gx := AplicarKernel2x2(g, y, x, RobertsGx);
      var gy := AplicarKernel2x2(g, y, x, RobertsGy);
      var magnitude := FloorSqrt(gx * gx + gy * gy);
      v := ClampToByte(magnitude as real);
    case Sobel =>
      var gx := AplicarKernel3x3(g, y, x, SobelGx);
      var gy := AplicarKernel3x3(g, y, x, SobelGy);
      var magnitude := FloorSqrt(gx * gx + gy * gy);
      v := ClampToByte(magnitude as real);
    case Robinson =>
      var maxResposta := RespostaRobinson(g, y, x);
      v := ClampToByte(maxResposta as real);
  }

  /** One row of the scan: the inside columns are computed, the others stay 0. */
  method DetectarLinha(op: Operator, g: Image, y: int) returns (row: seq<Pixel>)
    requires g.Valid() && g.channels == 1 && Lo(op) <= y < g.rows - 1
    ensures row == EdgePlane(op, g).data[y]
  {
    row := ZeroRow(g.cols, 1);
    var x := Lo(op);
    while x < g.cols - 1
      invariant Lo(op) <= x && (x == Lo(op) || x <= g.cols - 1)
      invariant |row| == g.cols
      invariant forall j | Lo(op) <= j < x :: row[j] == EdgePixel(op, g, y, j)
      invariant forall j | 0 <= j < g.cols && !(Lo(op) <= j < x) :: row[j] == [0]
    {
      var v := ValorBorda(op, g, y, x);
      row := row[x := [v]];
      x := x + 1;
    }
    forall j | 0 <= j < g.cols
      ensures row[j] == EdgePixel(op, g, y, j)
    {
    }
  }

  /** The scan shared by the three detectors over a zeroed result. */
  method DetectarPlano(op: Operator, g: Image) returns (resultado: Image)
    requires g.Valid() && g.channels == 1
    ensures resultado == EdgePlane(op, g)
  {
    var data := Zeros(g.rows, g.cols, 1).data;
    var y := Lo(op);
    while y < g.rows - 1
      invariant Lo(op) <= y && (y == Lo(op) || y <= g.rows - 1)
      invariant |data| == g.rows
      invariant forall i | Lo(op) <= i < y :: data[i] == EdgePlane(op, g).data[i]
      invariant forall i | 0 <= i < g.rows && !(Lo(op) <= i < y) :: data[i] == ZeroRow(g.cols, 1)
    {
      var row := DetectarLinha(op, g, y);
      data := data[y := row];
      y := y + 1;
    }
    resultado := Image(g.rows, g.cols, 1, data);
    forall i, j | 0 <= i < g.rows && 0 <= j < g.cols
      ensures resultado.data[i][j] == EdgePlane(op, g).data[i][j]
    {
      if !(Lo(op) <= i < y) {
        assert data[i][j] == seq(1, c => 0) == [0];
      }
    }
    SameImage(resultado, EdgePlane(op, g));
  }

  /** `converterParaCinza`: a copy of a single-channel image, the luma plane of a colour one. */
  method ConverterParaCinza(imagem: Image) returns (imagemCinza: Image)
    requires imagem.Valid() && (imagem.channels == 1 || imagem.channels == 3)
    ensures imagemCinza == GrayPlane(imagem)
    ensures imagem.channels == 1 ==> imagemCinza == imagem
  {
    if imagem.channels == 1 {
      return imagem;
    }
    imagemCinza := LumaPlane(imagem);
  }

  method RobertsBordas(imagem: Image) returns (resultado: Image)
    requires imagem.Valid() && (imagem.channels == 1 || imagem.channels == 3)
    ensures resultado == Edges(Roberts, imagem)
  {
    var imagemCinza := ConverterParaCinza(imagem);
    resultado := DetectarPlano(Roberts, imagemCinza);
  }

  method SobelBordas(imagem: Image) returns (resultado: Image)
    requires imagem.Valid() && (imagem.channels == 1 || imagem.channels == 3)
    ensures resultado == Edges(Sobel, imagem)
  {
    var imagemCinza := ConverterParaCinza(imagem);
    resultado := DetectarPlano(Sobel, imagemCinza);
  }

  method RobinsonBordas(imagem: Image) returns (resultado: Image)
    requires imagem.Valid() && (imagem.channels == 1 || imagem.channels == 3)
    ensures resultado == Edges(Robinson, imagem)
  {
    var imagemCinza := ConverterParaCinza(imagem);
    resultado := DetectarPlano(Robinson, imagemCinza);
  }

  /** `aplicarLimiar`: a strict threshold of the edge map into 0 and 255. */
  method AplicarLimiar(imagemBordas: Image, limiar: int) returns (resultado: Image)
    requires imagemBordas.Valid() && imagemBordas.channels == 1
    ensures resultado == Binarized(imagemBordas, limiar)
  {
    var data := imagemBordas.data;
    var y := 0;
    while y < imagemBordas.rows
      invariant 0 <= y <= imagemBordas.rows && |data| == imagemBordas.rows
      invariant forall i | 0 <= i < y :: data[i] == Binarized(imagemBordas, limiar).data[i]
      invariant forall i | y <= i < imagemBordas.rows :: data[i] == imagemBordas.data[i]
    {
      var row := data[y];
      var x := 0;
      while x < imagemBordas.cols
        invariant 0 <= x <= imagemBordas.cols && |row| == imagemBordas.cols
        invariant forall j | 0 <= j < x :: row[j] == Binarized(imagemBordas, limiar).data[y][j]
        invariant forall j | x <= j < imagemBordas.cols :: row[j] == imagemBordas.data[y][j]
      {
        var valor := At(imagemBordas, y, x);
        row := row[x := [if valor > limiar then 255 else 0]];
        x := x + 1;
      }
      data := data[y := row];
      y := y + 1;
    }
    resultado := imagemBordas.(data := data);
  }
}
