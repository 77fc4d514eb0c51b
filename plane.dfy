/** Points of the drawing plane shared by the curve and fractal programs.
    Coordinates are exact reals: the floating-point rounding of the original
    programs is not modelled. */
module Plane {

  datatype Point2 = Point2(x: real, y: real)

  /** The affine combination (1 - t)·p + t·q, computed per coordinate. */
  function Lerp(p: Point2, q: Point2, t: real): (r: Point2)
    ensures t == 0.0 ==> r == p
    ensures t == 1.0 ==> r == q
    ensures t == 0.5 ==> r == Midpoint(p, q)
  {
    Point2((1.0 - t) * p.x + t * q.x, (1.0 - t) * p.y + t * q.y)
  }

  function Midpoint(p: Point2, q: Point2): Point2 {
    Point2((p.x + q.x) / 2.0, (p.y + q.y) / 2.0)
  }

  /** The first m terms of Σ_i ws[i]·ps[i], accumulated from the origin in
      index order, as the curve programs' weighting loops add them up. */
  function WeightedSum(ps: seq<Point2>, ws: seq<real>, m: nat): Point2
    requires m <= |ps| && m <= |ws|
  {
    if m == 0 then Point2(0.0, 0.0)
    else
      var s := WeightedSum(ps, ws, m - 1);
      Point2(s.x + ws[m - 1] * ps[m - 1].x, s.y + ws[m - 1] * ps[m - 1].y)
  }

  /** One turn of a weighting loop: from the sum of the first i terms, adding
      term i gives the sum of the first i + 1. */
  lemma WeightedSumStep(ps: seq<Point2>, ws: seq<real>, i: nat, x: real, y: real, w: real)
    requires i < |ps| && i < |ws| && Point2(x, y) == WeightedSum(ps, ws, i) && w == ws[i]
    ensures WeightedSum(ps, ws, i + 1) == Point2(x + w * ps[i].x, y + w * ps[i].y)
  {
  }
}
