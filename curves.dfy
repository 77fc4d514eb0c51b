/** The B-spline and Bezier curve drawer: de Casteljau layers, Bernstein
    sampling and the knot-indicator basis of the uniform B-spline. */
module Curves {
  import opened Plane
  import CurveGen

  // ---------------------------------------------------------------------
  // de Casteljau

  /** One round of de Casteljau: every pair of neighbours replaced by the
      point at t between them. */
  function Step(ps: seq<Point2>, t: real): (r: seq<Point2>)
    requires |ps| >= 1
    ensures |r| == |ps| - 1
  {
    seq(|ps| - 1, i requires 0 <= i < |ps| - 1 => Lerp(ps[i], ps[i + 1], t))
  }

  /** next is one point shorter than prev, and each of its points lies at t
      between two neighbours of prev. */
  ghost predicate LerpLayer(prev: seq<Point2>, next: seq<Point2>, t: real) {
    |next| == |prev| - 1 &&
    forall i {:trigger next[i]} :: 0 <= i < |next| ==> next[i] == Lerp(prev[i], prev[i + 1], t)
  }

  /** The point the rounds of de Casteljau reduce the control points to. */
  function Reduce(ps: seq<Point2>, t: real): Point2
    requires |ps| >= 1
    decreases |ps|
  {
    if |ps| == 1 then ps[0] else Reduce(Step(ps, t), t)
  }

  /** At t = 0 the curve is at the first control point, at t = 1 at the
      last one: a round at t = 0 drops the last point, at t = 1 the first. */
  lemma {:induction false} ReduceEnds(ps: seq<Point2>)
    requires |ps| >= 1
    ensures Reduce(ps, 0.0) == ps[0]
    ensures Reduce(ps, 1.0) == ps[|ps| - 1]
    decreases |ps|
  {
    if |ps| > 1 {
      assert Step(ps, 0.0) == ps[..|ps| - 1];
      assert Step(ps, 1.0) == ps[1..];
      ReduceEnds(ps[..|ps| - 1]);
      ReduceEnds(ps[1..]);
    }
  }

  /** The nested de_casteljau: the list of all layers, from the control
      points down to the single curve point. */
  method DeCasteljau(points: seq<Point2>, t: real) returns (layers: seq<seq<Point2>>)
    ensures |layers| >= 1 && layers[0] == points
    ensures |points| >= 1 ==> |layers| == |points|
    ensures |points| >= 1 ==> forall k :: 0 <= k < |layers| ==> |layers[k]| == |points| - k
    ensures forall k :: 1 <= k < |layers| ==> LerpLayer(layers[k - 1], layers[k], t)
    ensures |points| >= 1 ==> |layers[|layers| - 1]| == 1 && layers[|layers| - 1][0] == Reduce(points, t)
  {
    layers := [points];
    var ps := points;
    while |ps| > 1
      invariant |layers| >= 1 && layers[0] == points && ps == layers[|layers| - 1]
      invariant |points| >= 1 ==> |layers| + |ps| == |points| + 1
      invariant |points| == 0 ==> layers == [points]
      invariant forall k :: 0 <= k < |layers| ==> |layers[k]| == |points| - k
      invariant forall k :: 1 <= k < |layers| ==> LerpLayer(layers[k - 1], layers[k], t)
      invariant |points| >= 1 ==> |ps| >= 1 && Reduce(ps, t) == Reduce(points, t)
      decreases |ps|
    {
      var next := LerpRound(ps, t);
      StepLayer(ps, t);
      layers := layers + [next];
      ps := next;
    }
  }

  /** The inner loop of de_casteljau: one round, each new point the lerp of
      two neighbours. */
  method LerpRound(ps: seq<Point2>, t: real) returns (next: seq<Point2>)
    requires |ps| >= 1
    ensures next == Step(ps, t)
  {
    next := [];
    for i := 0 to |ps| - 1
      invariant next == Step(ps, t)[..i]
    {
      var x := (1.0 - t) * ps[i].x + t * ps[i + 1].x;
      var y := (1.0 - t) * ps[i].y + t * ps[i + 1].y;
      assert Step(ps, t)[i] == Point2(x, y);
      next := next + [Point2(x, y)];
    }
    assert next == Step(ps, t)[..|ps| - 1];
  }

  /** A round of de Casteljau is a layer of lerps of neighbours. */
  lemma StepLayer(ps: seq<Point2>, t: real)
    requires |ps| >= 1
    ensures LerpLayer(ps, Step(ps, t), t)
  {
  }

  /** The 101 parameters 0, 0.01, ..., 1 of numpy's arange(0, 1.01, 0.01). */
  function Percent(k: int): real {
    k as real / 100.0
  }

  /** casteljau_curve: nothing below two control points; otherwise the final
      de Casteljau point for each of the 101 parameters. */
  method CasteljauCurve(control: seq<Point2>) returns (curve: seq<Point2>)
    ensures |control| < 2 ==> curve == []
    ensures |control| >= 2 ==> |curve| == 101 && forall k :: 0 <= k < 101 ==> curve[k] == Reduce(control, Percent(k))
    ensures |control| >= 2 ==> curve[0] == control[0] && curve[100] == control[|control| - 1]
  {
    if |control| < 2 {
      return [];
    }
    curve := [];
    for k := 0 to 101
      invariant |curve| == k
      invariant forall j :: 0 <= j < k ==> curve[j] == Reduce(control, Percent(j))
    {
      var layers := DeCasteljau(control, Percent(k));
      curve := curve + [layers[|layers| - 1][0]];
    }
    ReduceEnds(control);
    assert Percent(0) == 0.0 && Percent(100) == 1.0;
  }

  /** bezier_curve: nothing below two control points; otherwise the
      Bernstein combination for each of the 101 parameters. */
  method BezierCurve(control: seq<Point2>) returns (curve: seq<Point2>)
    ensures |control| < 2 ==> curve == []
    ensures |control| >= 2 ==> |curve| == 101 && forall k :: 0 <= k < 101 ==> curve[k] == CurveGen.BezierPoint(control, Percent(k))
    ensures |control| >= 2 ==> curve[0] == control[0] && curve[100] == control[|control| - 1]
  {
    if |control| < 2 {
      return [];
    }
    curve := [];
    for k := 0 to 101
      invariant |curve| == k
      invariant forall j :: 0 <= j < k ==> curve[j] == CurveGen.BezierPoint(control, Percent(j))
    {
      var p := CurveGen.BernsteinCombination(control, Percent(k));
      curve := curve + [p];
    }
    CurveGen.BezierEndpoints(control);
    assert Percent(0) == 0.0 && Percent(100) == 1.0;
  }

  // ---------------------------------------------------------------------
  // Knot-indicator basis of uniform_bspline

  /** The knot vector 0, 1, ..., n + 2 for n control points. */
  function Knots(n: nat): (r: seq<real>)
    ensures |r| == n + 3 && r[0] == 0.0 && r[n + 2] == (n + 2) as real
    ensures forall i :: 0 <= i < n + 2 ==> r[i + 1] == r[i] + 1.0
  {
    seq(n + 3, i => i as real)
  }

  ghost predicate Nondecreasing(knots: seq<real>) {
    forall i, j :: 0 <= i <= j < |knots| ==> knots[i] <= knots[j]
  }

  /** The degree-0 basis: 1 on the half-open span [knots[i], knots[i+1]). */
  function N(knots: seq<real>, i: nat, t: real): real
    requires i + 1 < |knots|
  {
    if knots[i] <= t < knots[i + 1] then 1.0 else 0.0
  }

  /** The degree-1 basis; a zero-width span contributes 0 instead of a
      division by zero. */
  function N1(knots: seq<real>, i: nat, t: real): real
    requires i + 2 < |knots|
  {
    var d1, d2 := knots[i + 1] - knots[i], knots[i + 2] - knots[i + 1];
    var n1 := if d1 == 0.0 then 0.0 else ((t - knots[i]) / d1) * N(knots, i, t);
    var n2 := if d2 == 0.0 then 0.0 else ((knots[i + 2] - t) / d2) * N(knots, i + 1, t);
    n1 + n2
  }

  /** On the uniform knot vector the indicator of span i is 1 exactly on
      [i, i + 1), and at most one span holds any t. */
  lemma UniformIndicator(n: nat, i: nat, j: nat, t: real)
    requires i + 1 < n + 3 && j + 1 < n + 3
    ensures N(Knots(n), i, t) == 1.0 <==> i as real <= t < (i + 1) as real
    ensures N(Knots(n), i, t) == 0.0 <==> !(i as real <= t < (i + 1) as real)
    ensures i != j ==> N(Knots(n), i, t) == 0.0 || N(Knots(n), j, t) == 0.0
  {
  }

  /** For a nondecreasing knot vector the degree-1 basis is never negative:
      each fraction is taken only where its indicator is 1, and there it is
      non-negative. */
  lemma N1NonNegative(knots: seq<real>, i: nat, t: real)
    requires i + 2 < |knots|
    requires Nondecreasing(knots)
    ensures N1(knots, i, t) >= 0.0
  {
    var d1, d2 := knots[i + 1] - knots[i], knots[i + 2] - knots[i + 1];
    if d1 != 0.0 && N(knots, i, t) == 1.0 {
      assert d1 > 0.0 && t - knots[i] >= 0.0;
      QuotientNonNegative(t - knots[i], d1);
    }
    if d2 != 0.0 && N(knots, i + 1, t) == 1.0 {
      assert d2 > 0.0 && knots[i + 2] - t > 0.0;
      QuotientNonNegative(knots[i + 2] - t, d2);
    }
  }

  lemma QuotientNonNegative(a: real, d: real)
    requires a >= 0.0 && d > 0.0
    ensures a / d >= 0.0
  {
  }

  /** The second-level basis exactly as the drawer computes it: the first
      fraction divides by the width of span i, the second is guarded by the
      width of spans i and i + 1 together but divides by the width of span
      i + 1 alone. No basis property is claimed for it. */
  function N2(knots: seq<real>, i: nat, t: real): real
    requires i + 3 < |knots|
  {
    var d1, d2 := knots[i + 2] - knots[i], knots[i + 1] - knots[i];
    var n1 := if d2 == 0.0 then 0.0 else ((t - knots[i]) / d2) * N1(knots, i, t);
    var n2 := if d1 == 0.0 || knots[i + 2] - knots[i + 1] == 0.0 then 0.0
              else ((knots[i + 2] - t) / (knots[i + 2] - knots[i + 1])) * N1(knots, i + 1, t);
    n1 + n2
  }

  /** N1 vanishes outside [knots[i], knots[i + 2]), so N2 vanishes outside
      [knots[i], knots[i + 3]) on a nondecreasing knot vector. */
  lemma N2Support(knots: seq<real>, i: nat, t: real)
    requires i + 3 < |knots|
    requires Nondecreasing(knots)
    ensures t < knots[i] || t >= knots[i + 3] ==> N2(knots, i, t) == 0.0
  {
    if t < knots[i] || t >= knots[i + 3] {
      assert N(knots, i, t) == 0.0 && N(knots, i + 1, t) == 0.0 && N(knots, i + 2, t) == 0.0;
      assert N1(knots, i, t) == 0.0 && N1(knots, i + 1, t) == 0.0;
    }
  }

  /** The weights N2(knots, i, t) of the control points on the knot
      vector 0..n+2. */
  function BasisWeights(control: seq<Point2>, t: real): (ws: seq<real>)
    ensures |ws| == |control|
    ensures forall i :: 0 <= i < |control| ==> ws[i] == N2(Knots(|control|), i, t)
  {
    seq(|control|, i requires 0 <= i < |control| => N2(Knots(|control|), i, t))
  }

  /** The B-spline point at t: every control point weighted by N2. */
  function BSplinePoint(control: seq<Point2>, t: real): Point2 {
    WeightedSum(control, BasisWeights(control, t), |control|)
  }

  /** The inner loop of uniform_bspline: the control points weighted by
      N2 at t, accumulated one after the other. */
  method BasisCombination(control: seq<Point2>, t: real) returns (p: Point2)
    ensures p == BSplinePoint(control, t)
  {
    var n := |control|;
    var knots := Knots(n);
    var x, y := 0.0, 0.0;
    ghost var ws := BasisWeights(control, t);
    for i := 0 to n
      invariant Point2(x, y) == WeightedSum(control, ws, i)
    {
      var basis := N2(knots, i, t);
      WeightedSumStep(control, ws, i, x, y, basis);
      x := x + basis * control[i].x;
      y := y + basis * control[i].y;
    }
    p := Point2(x, y);
  }

  /** uniform_bspline: nothing below three control points; otherwise one
      point for each parameter 2, 2.01, ... below n + 1 (numpy's
      arange(2, n + 1, 0.01), 100·(n - 1) values). */
  method UniformBSpline(control: seq<Point2>) returns (curve: seq<Point2>)
    ensures |control| < 3 ==> curve == []
    ensures |control| >= 3 ==> |curve| == 100 * (|control| - 1)
    ensures forall k :: 0 <= k < |curve| ==> curve[k] == BSplinePoint(control, 2.0 + Percent(k))
  {
    if |control| < 3 {
      return [];
    }
    curve := [];
    for k := 0 to 100 * (|control| - 1)
      invariant |curve| == k
      invariant forall j :: 0 <= j < k ==> curve[j] == BSplinePoint(control, 2.0 + Percent(j))
    {
      var p := BasisCombination(control, 2.0 + Percent(k));
      curve := curve + [p];
    }
  }
}
