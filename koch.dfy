/** The Koch curve point generator of the fractal program. */
module Koch {
  import opened Plane

  /** cos and sin of the peak angle (60 degrees). The trigonometry itself is
      not modelled: the generator only ever rotates by this one angle. */
  datatype Rotation = Rotation(cos: real, sin: real)

  function Pow4(d: nat): (r: nat)
    ensures r >= 1
  {
    if d == 0 then 1 else 4 * Pow4(d - 1)
  }

  /** The point one third of the way from s to e. */
  function OneThird(s: Point2, e: Point2): Point2 {
    Point2(s.x + (e.x - s.x) / 3.0, s.y + (e.y - s.y) / 3.0)
  }

  /** The point two thirds of the way from s to e. */
  function TwoThirds(s: Point2, e: Point2): Point2 {
    Point2(s.x + 2.0 * (e.x - s.x) / 3.0, s.y + 2.0 * (e.y - s.y) / 3.0)
  }

  /** The apex of the bump: the middle third rotated about its first end. */
  function Peak(s: Point2, e: Point2, rot: Rotation): Point2 {
    var p2 := OneThird(s, e);
    var dx, dy := e.x - s.x, e.y - s.y;
    Point2(p2.x + (dx / 3.0) * rot.cos - (dy / 3.0) * rot.sin,
           p2.y + (dx / 3.0) * rot.sin + (dy / 3.0) * rot.cos)
  }

  /** The polyline of the Koch curve from start to end after depth
      subdivisions; the shared joint of two neighbouring pieces is kept once. */
  function KochCurvePoints(start: Point2, end: Point2, depth: int, rot: Rotation): (r: seq<Point2>)
    requires depth >= 0
    ensures |r| == Pow4(depth) + 1
    ensures r[0] == start && r[|r| - 1] == end
    decreases depth
  {
    if depth == 0 then [start, end]
    else
      var p2, p3, p4 := OneThird(start, end), Peak(start, end, rot), TwoThirds(start, end);
      var c1 := KochCurvePoints(start, p2, depth - 1, rot);
      var c2 := KochCurvePoints(p2, p3, depth - 1, rot);
      var c3 := KochCurvePoints(p3, p4, depth - 1, rot);
      var c4 := KochCurvePoints(p4, end, depth - 1, rot);
      c1[..|c1| - 1] + c2[..|c2| - 1] + c3[..|c3| - 1] + c4
  }

  /** One level down, the joints of the four pieces sit at the thirds of the
      segment and at the peak, at indices k, 2k and 3k with k = 4^(depth-1). */
  lemma KochJoints(start: Point2, end: Point2, depth: int, rot: Rotation)
    requires depth >= 1
    ensures var r, k := KochCurvePoints(start, end, depth, rot), Pow4(depth - 1);
      && r[k] == OneThird(start, end)
      && r[2 * k] == Peak(start, end, rot)
      && r[3 * k] == TwoThirds(start, end)
  {
    var p2, p3, p4 := OneThird(start, end), Peak(start, end, rot), TwoThirds(start, end);
    var c1 := KochCurvePoints(start, p2, depth - 1, rot);
    var c2 := KochCurvePoints(p2, p3, depth - 1, rot);
    var c3 := KochCurvePoints(p3, p4, depth - 1, rot);
    var c4 := KochCurvePoints(p4, end, depth - 1, rot);
    var k := Pow4(depth - 1);
    var r := c1[..k] + c2[..k] + c3[..k] + c4;
    assert r == KochCurvePoints(start, end, depth, rot);
    assert r[k] == c2[0];
    assert r[2 * k] == c3[0];
    assert r[3 * k] == c4[0];
  }
}
