/** The curve generator program: uniform quadratic B-spline and Bernstein
    Bezier curves through the clicked control points. */
module CurveGen {
  import opened Plane
  import opened Numeric

  /** The binomial coefficient by Pascal's rule: the reference against which
      the multiplicative loop of Comb is proved. Zero outside 0 <= k <= n. */
  function Binomial(n: int, k: int): (r: nat)
    decreases n
  {
    if k < 0 || k > n then 0
    else if k == 0 || k == n then 1
    else Binomial(n - 1, k - 1) + Binomial(n - 1, k)
  }

  /** The identity that makes every integer division in Comb exact:
      (j + 1)·C(n, j + 1) == (n - j)·C(n, j). */
  lemma {:induction false} BinomialStep(n: int, j: int)
    requires 0 <= j < n
    ensures (j + 1) * Binomial(n, j + 1) == (n - j) * Binomial(n, j)
    decreases n
  {
    var a, b, c := Binomial(n - 1, j - 1), Binomial(n - 1, j), Binomial(n - 1, j + 1);
    if j == 0 {
      // C(n, 1) == C(n - 1, 0) + C(n - 1, 1) == 1 + (n - 1)
      if n > 1 {
        BinomialStep(n - 1, 0);
      }
      assert Binomial(n, 1) == 1 + c;
    } else {
      // Pascal's rule on both sides, then the step one row up
      BinomialStep(n - 1, j - 1);
      if j + 1 < n {
        BinomialStep(n - 1, j);
      }
      assert (j + 1) * c == (n - 1 - j) * b;
      assert j * b == (n - j) * a;
      assert Binomial(n, j + 1) == b + c;
      assert Binomial(n, j) == a + b;
      StepArithmetic(n, j, a, b, c);
    }
  }

  lemma StepArithmetic(n: int, j: int, a: int, b: int, c: int)
    requires (j + 1) * c == (n - 1 - j) * b
    requires j * b == (n - j) * a
    ensures (j + 1) * (b + c) == (n - j) * (a + b)
  {
    calc {
      (j + 1) * (b + c);
      (j + 1) * b + (j + 1) * c;
      (j + 1) * b + (n - 1 - j) * b;
      n * b;
      j * b + (n - j) * b;
      (n - j) * a + (n - j) * b;
    }
  }

  /** C(n, k) == C(n, n - k): the reduction k := min(k, n - k) keeps the value. */
  lemma {:induction false} BinomialSymmetric(n: int, k: int)
    ensures Binomial(n, k) == Binomial(n, n - k)
    decreases n
  {
    if k < 0 || k > n || k == 0 || k == n {
    } else {
      BinomialSymmetric(n - 1, k - 1);
      BinomialSymmetric(n - 1, k);
      assert Binomial(n, n - k) == Binomial(n - 1, n - k - 1) + Binomial(n - 1, n - k);
    }
  }

  /** The nested comb of bernstein: after j rounds of the loop c == C(n, j),
      so each floor division is exact and the result is the binomial
      coefficient. */
  method Comb(n: int, k: int) returns (c: int)
    ensures k < 0 || k > n ==> c == 0
    ensures 0 <= k <= n && (k == 0 || k == n) ==> c == 1
    ensures c == Binomial(n, k)
  {
    if k < 0 || k > n {
      return 0;
    }
    if k == 0 || k == n {
      return 1;
    }
    var m := if k < n - k then k else n - k;
    BinomialSymmetric(n, k);
    assert Binomial(n, m) == Binomial(n, k);
    c := 1;
    for j := 0 to m
      invariant c == Binomial(n, j)
    {
      BinomialStep(n, j);
      var next := Binomial(n, j + 1);
      assert c * (n - j) == next * (j + 1);
      ExactDivision(next, j + 1);
      c := c * (n - j) / (j + 1);
    }
  }

  lemma ExactDivision(q: int, d: int)
    requires d > 0
    ensures (q * d) / d == q
  {
    var x, m := (q * d) / d, (q * d) % d;
    assert d * (q - x) == m;
    if q - x >= 1 {
      assert false;
    } else if q - x <= -1 {
      assert false;
    }
  }

  /** The Bernstein weight C(n, i)·t^i·(1 - t)^(n - i). */
  function Bernstein(i: int, n: int, t: real): real
    requires i >= 0 || t != 0.0
    requires n - i >= 0 || t != 1.0
  {
    Binomial(n, i) as real * Pow(t, i) * Pow(1.0 - t, n - i)
  }

  /** The weight is zero for i outside 0..n and non-negative on [0, 1]. */
  lemma BernsteinSign(i: int, n: int, t: real)
    requires i >= 0 || t != 0.0
    requires n - i >= 0 || t != 1.0
    ensures i < 0 || i > n ==> Bernstein(i, n, t) == 0.0
    ensures 0 <= i <= n && 0.0 <= t <= 1.0 ==> Bernstein(i, n, t) >= 0.0
  {
    if 0 <= i <= n && 0.0 <= t <= 1.0 {
      PowNonNegative(t, i);
      PowNonNegative(1.0 - t, n - i);
    }
  }

  // ---------------------------------------------------------------------
  // Bezier curve by Bernstein weights (draw_bezier)

  /** The Bernstein weights B(i, n, t) of the control points, n = |points| - 1. */
  function BezierWeights(points: seq<Point2>, t: real): (ws: seq<real>)
    ensures |ws| == |points|
    ensures forall i :: 0 <= i < |points| ==> ws[i] == Bernstein(i, |points| - 1, t)
  {
    seq(|points|, i requires 0 <= i < |points| => Bernstein(i, |points| - 1, t))
  }

  /** The Bezier curve of the control points at parameter t:
      Σ_i B(i, n, t)·P_i. */
  function BezierPoint(points: seq<Point2>, t: real): Point2 {
    WeightedSum(points, BezierWeights(points, t), |points|)
  }

  lemma {:induction false} BezierSumAtZero(points: seq<Point2>, m: nat)
    requires 1 <= m <= |points|
    ensures WeightedSum(points, BezierWeights(points, 0.0), m) == points[0]
  {
    var n, ws := |points| - 1, BezierWeights(points, 0.0);
    if m == 1 {
      PowOne(n);
      assert ws[0] == Bernstein(0, n, 0.0) == 1.0;
    } else {
      BezierSumAtZero(points, m - 1);
      PowZero(m - 1);
      assert ws[m - 1] == Bernstein(m - 1, n, 0.0) == 0.0;
    }
  }

  lemma {:induction false} BezierSumAtOne(points: seq<Point2>, m: nat)
    requires m <= |points|
    ensures m < |points| ==> WeightedSum(points, BezierWeights(points, 1.0), m) == Point2(0.0, 0.0)
    ensures m == |points| && m > 0 ==> WeightedSum(points, BezierWeights(points, 1.0), m) == points[m - 1]
  {
    var n, ws := |points| - 1, BezierWeights(points, 1.0);
    if m > 0 {
      BezierSumAtOne(points, m - 1);
      PowOne(m - 1);
      if m - 1 < n {
        PowZero(n - (m - 1));
        assert ws[m - 1] == Bernstein(m - 1, n, 1.0) == 0.0;
      } else {
        assert ws[m - 1] == Bernstein(m - 1, n, 1.0) == 1.0;
      }
    }
  }

  /** The curve starts at the first control point and ends at the last. */
  lemma BezierEndpoints(points: seq<Point2>)
    requires |points| >= 1
    ensures BezierPoint(points, 0.0) == points[0]
    ensures BezierPoint(points, 1.0) == points[|points| - 1]
  {
    BezierSumAtZero(points, |points|);
    BezierSumAtOne(points, |points|);
  }

  /** The k-th of the n evenly spaced samples of [0, 1], as numpy's
      linspace(0, 1, n) gives them. */
  function Linspace(k: int, n: int): real
    requires n >= 2
  {
    k as real / (n - 1) as real
  }

  /** The 100 curve points draw_bezier computes. */
  function BezierSamples(points: seq<Point2>): seq<Point2> {
    seq(100, k => BezierPoint(points, Linspace(k, 100)))
  }

  /** The inner loop of draw_bezier: the control points weighted by their
      Bernstein weights at t, accumulated one after the other. */
  method BernsteinCombination(points: seq<Point2>, t: real) returns (p: Point2)
    ensures p == BezierPoint(points, t)
  {
    var n := |points| - 1;
    var x, y := 0.0, 0.0;
    ghost var ws := BezierWeights(points, t);
    for i := 0 to n + 1
      invariant Point2(x, y) == WeightedSum(points, ws, i)
    {
      var coef := Bernstein(i, n, t);
      WeightedSumStep(points, ws, i, x, y, coef);
      x := x + coef * points[i].x;
      y := y + coef * points[i].y;
    }
    p := Point2(x, y);
  }

  /** The sampling loop of draw_bezier: one curve point for each of the 100
      evenly spaced parameters. */
  method DrawBezier(points: seq<Point2>) returns (curve: seq<Point2>)
    ensures curve == BezierSamples(points)
    ensures |curve| == 100
    ensures |points| >= 1 ==> curve[0] == points[0] && curve[99] == points[|points| - 1]
  {
    curve := [];
    for k := 0 to 100
      invariant curve == BezierSamples(points)[..k]
    {
      var p := BernsteinCombination(points, Linspace(k, 100));
      curve := curve + [p];
    }
    if |points| >= 1 {
      BezierEndpoints(points);
      assert Linspace(99, 100) == 1.0;
    }
  }

  // ---------------------------------------------------------------------
  // Uniform quadratic B-spline (draw_bspline)

  /** The three blending weights of one quadratic segment. They sum to one
      everywhere and are non-negative on [0, 1]. */
  function QuadWeights(t: real): (w: (real, real, real))
    ensures w.0 + w.1 + w.2 == 1.0
    ensures 0.0 <= t <= 1.0 ==> w.0 >= 0.0 && w.1 >= 0.0 && w.2 >= 0.0
  {
    ProductNonNegative(t, 1.0 - t);
    ((1.0 - t) * (1.0 - t) / 2.0, 1.0 / 2.0 + t - t * t, t * t / 2.0)
  }

  /** A point of the segment blended from three consecutive control points:
      it starts at the midpoint of the first two and ends at the midpoint of
      the last two. */
  function QuadBlend(p0: Point2, p1: Point2, p2: Point2, t: real): (r: Point2)
    ensures t == 0.0 ==> r == Midpoint(p0, p1)
    ensures t == 1.0 ==> r == Midpoint(p1, p2)
  {
    var w := QuadWeights(t);
    Point2(w.0 * p0.x + w.1 * p1.x + w.2 * p2.x, w.0 * p0.y + w.1 * p1.y + w.2 * p2.y)
  }

  /** The 100 points of segment i, blended from points i, i + 1 and i + 2. */
  function Segment(points: seq<Point2>, i: nat): (r: seq<Point2>)
    requires i + 2 < |points|
    ensures |r| == 100
  {
    seq(100, j => QuadBlend(points[i], points[i + 1], points[i + 2], Linspace(j, 100)))
  }

  /** Segments 0 .. m - 1 one after the other. */
  function Segments(points: seq<Point2>, m: nat): (r: seq<Point2>)
    requires m + 1 < |points| || m == 0
    ensures |r| == 100 * m
  {
    if m == 0 then [] else Segments(points, m - 1) + Segment(points, m - 1)
  }

  /** The points draw_bspline computes: one segment per window of three
      consecutive control points. */
  function BSplineSamples(points: seq<Point2>): (r: seq<Point2>)
    ensures |r| == if |points| >= 2 then 100 * (|points| - 2) else 0
  {
    if |points| >= 2 then Segments(points, |points| - 2) else []
  }

  /** Neighbouring segments meet: segment i ends where segment i + 1 starts,
      at the midpoint of control points i + 1 and i + 2. */
  lemma SegmentsJoin(points: seq<Point2>, i: nat)
    requires i + 3 < |points|
    ensures Segment(points, i)[99] == Segment(points, i + 1)[0] == Midpoint(points[i + 1], points[i + 2])
  {
    assert Linspace(99, 100) == 1.0;
    assert Linspace(0, 100) == 0.0;
  }

  /** The segment loop of draw_bspline; its guard i + 2 <= n always holds,
      which the length in the postcondition records. */
  method DrawBSpline(points: seq<Point2>) returns (curve: seq<Point2>)
    ensures curve == BSplineSamples(points)
    ensures |points| >= 3 ==> curve[0] == Midpoint(points[0], points[1])
    ensures |points| >= 3 ==> curve[|curve| - 1] == Midpoint(points[|points| - 2], points[|points| - 1])
  {
    var n := |points| - 1;
    curve := [];
    var i := 0;
    while i < n - 1
      invariant 0 <= i <= if n >= 1 then n - 1 else 0
      invariant curve == Segments(points, i)
    {
      if i + 2 <= n {
        var seg := Segment(points, i);
        for j := 0 to 100
          invariant curve == Segments(points, i) + seg[..j]
        {
          var tj := Linspace(j, 100);
          curve := curve + [QuadBlend(points[i], points[i + 1], points[i + 2], tj)];
        }
        assert seg[..100] == seg;
      }
      i := i + 1;
    }
    if |points| >= 3 {
      var m := |points| - 2;
      assert Linspace(0, 100) == 0.0;
      assert Linspace(99, 100) == 1.0;
      SegmentsPrefix(points, 1, m);
      assert Segments(points, 1) == Segment(points, 0);
      assert curve[0] == Segment(points, 0)[0];
      assert curve[|curve| - 1] == Segment(points, m - 1)[99];
    }
  }

  lemma {:induction false} SegmentsPrefix(points: seq<Point2>, k: nat, m: nat)
    requires 1 <= k <= m && m + 1 < |points|
    ensures Segments(points, m)[..100 * k] == Segments(points, k)
  {
    if k < m {
      SegmentsPrefix(points, k, m - 1);
      assert Segments(points, m)[..100 * (m - 1)] == Segments(points, m - 1);
    }
  }

  // ---------------------------------------------------------------------
  // generate_curve

  datatype Mode = BSplineMode | BezierMode

  /** The double-click handler: nothing is drawn below three control
      points, otherwise the curve of the current mode. */
  method GenerateCurve(mode: Mode, points: seq<Point2>) returns (curve: seq<Point2>)
    ensures |points| < 3 ==> curve == []
    ensures |points| >= 3 && mode == BSplineMode ==> curve == BSplineSamples(points)
    ensures |points| >= 3 && mode == BezierMode ==> curve == BezierSamples(points)
  {
    if |points| < 3 {
      return [];
    }
    if mode == BSplineMode {
      curve := DrawBSpline(points);
    } else {
      curve := DrawBezier(points);
    }
  }
}
