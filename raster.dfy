/** The raster routines of the drawing program: a canvas of RGB pixels,
    Bresenham lines, midpoint ellipses, scan-line polygon fill and a
    queue-based 4-connected flood fill. */
module Raster {

  /** An RGB colour as the image library stores it. */
  datatype Color = RGB(r: int, g: int, b: int)

  const White := RGB(255, 255, 255)
  const Ink := RGB(0, 0, 0)
  const Red := RGB(255, 0, 0)

  /** A pixel position (x, y): column, then row. */
  type Pt = (int, int)

  /** The canvas size the program opens with. */
  const CanvasWidth: int := 800
  const CanvasHeight: int := 600

  predicate OnCanvas(x: int, y: int) {
    0 <= x < CanvasWidth && 0 <= y < CanvasHeight
  }

  /** The canvas: an 800 by 600 image indexed [x, y], as the image library
      addresses it. */
  class Canvas {
    var image: array2<Color>

    ghost predicate Valid()
      reads this
    {
      image.Length0 == CanvasWidth && image.Length1 == CanvasHeight
    }

    /** The canvas starts white. */
    constructor()
      ensures Valid() && fresh(image)
      ensures forall x, y :: OnCanvas(x, y) ==> image[x, y] == White
    {
      image := new Color[800, 600]((x, y) => White);
    }

    /** put_pixel: pixel (x, y) takes the colour when it lies on the canvas;
        every other pixel keeps its colour, and an off-canvas call changes
        nothing. */
    method PutPixel(x: int, y: int, color: Color)
      requires Valid()
      modifies image
      ensures OnCanvas(x, y) ==> image[x, y] == color
      ensures forall i, j :: OnCanvas(i, j) && (i, j) != (x, y) ==> image[i, j] == old(image[i, j])
    {
      if 0 <= x < CanvasWidth && 0 <= y < CanvasHeight {
        image[x, y] := color;
      }
    }

    /** get_pixel_color: the colour of an on-canvas pixel (the image library
        raises for any other). */
    /** get_pixel_color: the colour of an on-canvas pixel (the image
        library raises IndexError for any other, hence the requires). */
    function GetPixelColor(x: int, y: int): (c: Color)
      requires Valid() && OnCanvas(x, y)
      reads this, image
      ensures c == image[x, y]
    {
      image[x, y]
    }

    /** bresenham_line: exactly the on-canvas pixels of the line from
        (x1, y1) to (x2, y2) take the colour; the rest of the image is
        unchanged. */
    method BresenhamLine(x1: int, y1: int, x2: int, y2: int, color: Color)
      requires Valid()
      modifies image
      ensures forall p, q :: OnCanvas(p, q) ==>
        image[p, q] == if (p, q) in LinePixels(x1, y1, x2, y2) then color else old(image[p, q])
    {
      var dx: int := Abs(x2 - x1);
      var dy: int := Abs(y2 - y1);
      var sx := if x1 < x2 then 1 else -1;
      var sy := if y1 < y2 then 1 else -1;
      var err := dx - dy;
      var x, y := x1, y1;
      ghost var i: nat, j: nat := 0, 0;
      ghost var drawn: set<Pt> := {};
      ghost var before := Snapshot();
      while true
        invariant LineState(x1, y1, x2, y2, x, y, err, i, j, drawn) && Painted(before, color, drawn)
        decreases dx - i + dy - j
      {
        var done;
        done, x, y, err, i, j, drawn := LineVisit(x1, y1, x2, y2, dx, dy, sx, sy, color, before, x, y, err, i, j, drawn);
        if done {
          break;
        }
      }
    }

    /** One iteration of bresenham_line's loop: plot (x, y), stop if it is
        the end point, otherwise take the x step, the y step or both. */
    method LineVisit(x1: int, y1: int, x2: int, y2: int, dx: int, dy: int, sx: int, sy: int, color: Color,
                     ghost before: seq<seq<Color>>, x: int, y: int, err: int, ghost i: nat, ghost j: nat,
                     ghost drawn: set<Pt>)
      returns (done: bool, x': int, y': int, err': int, ghost i': nat, ghost j': nat, ghost drawn': set<Pt>)
      requires dx == Abs(x2 - x1) && dy == Abs(y2 - y1) && sx == Dir(x1, x2) && sy == Dir(y1, y2)
      requires LineState(x1, y1, x2, y2, x, y, err, i, j, drawn) && Painted(before, color, drawn)
      modifies image
      ensures Painted(before, color, drawn')
      ensures done ==> drawn' == LinePixels(x1, y1, x2, y2)
      ensures !done ==> LineState(x1, y1, x2, y2, x', y', err', i', j', drawn')
      ensures !done ==> dx - i' + dy - j' < dx - i + dy - j
    {
      PaintPixel(x, y, color, before, drawn);
      drawn' := drawn + {(x, y)};
      LineSetStep(x1, y1, x2, y2, i, j, err);
      if x == x2 && y == y2 {
        return true, x, y, err, i, j, drawn';
      }
      x', y', err', i', j' := x, y, err, i, j;
      var e2 := 2 * err;
      if e2 > -dy {
        err' := err' - dy;
        x' := x' + sx;
        i' := i' + 1;
      }
      if e2 < dx {
        err' := err' + dx;
        y' := y' + sy;
        j' := j' + 1;
      }
      assert i' == NextI(dy, i, err) && j' == NextJ(dx, j, err) && err' == NextErr(dx, dy, err);
      done := false;
    }

    /** The four put_pixel calls of one midpoint_ellipse iteration: the
        offset (x, y) is plotted at (cx +- x, cy +- y). */
    method PlotMirrors(cx: int, cy: int, x: int, y: int, color: Color)
      requires Valid()
      modifies image
      ensures forall p, q :: OnCanvas(p, q) ==>
        image[p, q] == if Mirrored(cx, cy, {(x, y)}, p, q) then color else old(image[p, q])
    {
      PutPixel(cx + x, cy + y, color);
      label First:
      PutPixel(cx - x, cy + y, color);
      label Second:
      PutPixel(cx + x, cy - y, color);
      label Third:
      PutPixel(cx - x, cy - y, color);
      forall p, q | OnCanvas(p, q)
        ensures image[p, q] == if Mirrored(cx, cy, {(x, y)}, p, q) then color else old(image[p, q])
      {
        MirroredPoint(cx, cy, x, y, p, q);
        if (p, q) == (cx - x, cy - y) {
        } else if (p, q) == (cx + x, cy - y) {
        } else if (p, q) == (cx - x, cy + y) {
          assert image[p, q] == old@Third(image[p, q]);
        } else {
          assert image[p, q] == old@First(image[p, q]);
        }
      }
    }

    /** midpoint_ellipse: exactly the on-canvas mirror images of the offsets
        in EllipseOffsets(a, b) take the colour. */
    method MidpointEllipse(cx: int, cy: int, a: int, b: int, color: Color)
      requires Valid()
      modifies image
      ensures forall p, q :: OnCanvas(p, q) ==>
        image[p, q] == if Mirrored(cx, cy, EllipseOffsets(a, b), p, q) then color else old(image[p, q])
    {
      var x, y, dx, dy := EllipseRegion1(cx, cy, a, b, color);
      EllipseRegion2(cx, cy, a, b, x, y, dx, dy, color);
    }

    /** Region 1 of midpoint_ellipse (while dx < dy): it keeps
        dx == 2 b^2 x and dy == 2 a^2 y, paints the mirror images of the
        offsets of Region1, and stops in the state Region1 names. */
    method EllipseRegion1(cx: int, cy: int, a: int, b: int, color: Color)
      returns (x: int, y: int, dx: int, dy: int)
      requires Valid()
      modifies image
      ensures var arc := Region1(a, b, 0, b, 0, 2 * a * a * b, Region1Start(a, b));
        && x == arc.x && y == arc.y && dx == arc.dx && dy == arc.dy
        && dx == 2 * b * b * x && dy == 2 * a * a * y
        && forall p, q :: OnCanvas(p, q) ==>
             image[p, q] == if Mirrored(cx, cy, arc.offsets, p, q) then color else old(image[p, q])
    {
      x, y := 0, b;
      var d1: real := Region1Start(a, b);
      dx := 2 * b * b * x;
      dy := 2 * a * a * y;
      ghost var arc := Region1(a, b, 0, b, 0, 2 * a * a * b, d1);
      ghost var drawn: set<Pt> := {};
      while dx < dy
        invariant dx == 2 * b * b * x && dy == 2 * a * a * y
        invariant b != 0 || dy <= dx
        invariant Region1(a, b, x, y, dx, dy, d1).(offsets := {}) == arc.(offsets := {})
        invariant drawn + Region1(a, b, x, y, dx, dy, d1).offsets == arc.offsets
        invariant forall p, q :: OnCanvas(p, q) ==>
          image[p, q] == if Mirrored(cx, cy, drawn, p, q) then color else old(image[p, q])
        decreases dy - dx
      {
        PlotMirrors(cx, cy, x, y, color);
        drawn := drawn + {(x, y)};
        SquareAtLeastOne(b);
        SquareNonNegative(a);
        StepMul(2 * b * b, x);
        StepMul(2 * a * a, y);
        if d1 < 0.0 {
          x := x + 1;
          dx := dx + 2 * b * b;
          d1 := d1 + (dx + b * b) as real;
        } else {
          x := x + 1;
          y := y - 1;
          dx := dx + 2 * b * b;
          dy := dy - 2 * a * a;
          d1 := d1 + (dx - dy + b * b) as real;
        }
      }
    }

    /** Region 2 of midpoint_ellipse (while y >= 0), from the state region 1
        stops in: it keeps dx == 2 b^2 x and dy == 2 a^2 y and paints the
        mirror images of the offsets of Region2. */
    method EllipseRegion2(cx: int, cy: int, a: int, b: int, x0: int, y0: int, dx0: int, dy0: int, color: Color)
      requires Valid()
      requires dx0 == 2 * b * b * x0 && dy0 == 2 * a * a * y0
      modifies image
      ensures forall p, q :: OnCanvas(p, q) ==>
        image[p, q] == if Mirrored(cx, cy, Region2(a, b, x0, y0, dx0, dy0, Region2Start(a, b, x0, y0)), p, q)
                       then color else old(image[p, q])
    {
      var x, y, dx, dy := x0, y0, dx0, dy0;
      var d2: real := Region2Start(a, b, x, y);
      ghost var drawn: set<Pt> := {};
      while y >= 0
        invariant dx == 2 * b * b * x && dy == 2 * a * a * y
        invariant drawn + Region2(a, b, x, y, dx, dy, d2) == Region2(a, b, x0, y0, dx0, dy0, Region2Start(a, b, x0, y0))
        invariant forall p, q :: OnCanvas(p, q) ==>
          image[p, q] == if Mirrored(cx, cy, drawn, p, q) then color else old(image[p, q])
        decreases y
      {
        PlotMirrors(cx, cy, x, y, color);
        drawn := drawn + {(x, y)};
        StepMul(2 * b * b, x);
        StepMul(2 * a * a, y);
        if d2 > 0.0 {
          y := y - 1;
          dy := dy - 2 * a * a;
          d2 := d2 + (a * a - dy) as real;
        } else {
          y := y - 1;
          x := x + 1;
          dx := dx + 2 * b * b;
          dy := dy - 2 * a * a;
          d2 := d2 + (dx - dy + a * a) as real;
        }
      }
    }
    /** scan_line_fill: with fewer than three vertices nothing is painted;
        otherwise exactly the on-canvas pixels ScanFilled names take the
        colour, and the rest of the image is unchanged. */
    method ScanLineFill(points: seq<Pt>, color: Color)
      requires Valid()
      modifies image
      ensures |points| < 3 ==> forall p, q :: OnCanvas(p, q) ==> image[p, q] == old(image[p, q])
      ensures |points| >= 3 ==> forall p, q :: OnCanvas(p, q) ==>
        image[p, q] == if ScanFilled(points, p, q) then color else old(image[p, q])
    {
      if |points| < 3 {
        return;
      }
      var minY := MinY(points);
      var maxY := MaxY(points);
      var y := minY;
      while y < maxY + 1
        invariant minY <= y <= maxY + 1
        invariant forall p, q :: OnCanvas(p, q) ==>
          image[p, q] == if q < y && ScanFilled(points, p, q) then color else old(image[p, q])
        decreases maxY + 1 - y
      {
        var intersections := RowCrossings(points, y);
        intersections := SortReals(intersections);
        FillRow(y, intersections, color);
        y := y + 1;
      }
    }

    /** The pairing loop of scan_line_fill on row y: the sorted crossings
        are taken two at a time and each pair's span is filled; an unpaired
        last crossing is skipped. */
    method FillRow(y: int, xs: seq<real>, color: Color)
      requires Valid()
      modifies image
      ensures forall p, q :: OnCanvas(p, q) ==>
        image[p, q] == if q == y && InSpans(Spans(xs), p) then color else old(image[p, q])
    {
      var k := 0;
      while k < |xs|
        invariant 0 <= k <= |xs| + 1 && k % 2 == 0
        invariant forall p, q :: OnCanvas(p, q) ==>
          image[p, q] == if q == y && InSpans(Spans(xs[..Min(k, |xs|)]), p) then color else old(image[p, q])
        decreases |xs| - k
      {
        SpansSnoc(xs[..k], xs, k);
        if k + 1 < |xs| {
          InSpansSnoc(Spans(xs[..k]), (Ceil(xs[k]), Floor(xs[k + 1])));
          FillSpan(y, Ceil(xs[k]), Floor(xs[k + 1]), color);
        }
        k := k + 2;
      }
      assert xs[..|xs|] == xs;
    }

    /** The innermost loop of scan_line_fill: pixels lo..hi of row y. */
    method FillSpan(y: int, lo: int, hi: int, color: Color)
      requires Valid()
      modifies image
      ensures forall p, q :: OnCanvas(p, q) ==>
        image[p, q] == if q == y && lo <= p <= hi then color else old(image[p, q])
    {
      var x := lo;
      while x < hi + 1
        invariant lo <= x && (x <= hi + 1 || x == lo)
        invariant forall p, q :: OnCanvas(p, q) ==>
          image[p, q] == if q == y && lo <= p < x then color else old(image[p, q])
        decreases hi + 1 - x
      {
        PutPixel(x, y, color);
        x := x + 1;
      }
    }

    /** The image as a value (column by column), for statements that
        compare the canvas before and after an operation. */
    ghost function Snapshot(): (g: seq<seq<Color>>)
      requires Valid()
      reads this, image
      ensures GridShape(g)
      ensures forall p, q :: OnCanvas(p, q) ==> g[p][q] == image[p, q]
    {
      seq(CanvasWidth, p reads this, image =>
        seq(CanvasHeight, q reads this, image =>
          if Valid() && OnCanvas(p, q) then image[p, q] else White))
    }

    /** flood_fill_four_connected: nothing changes when the seed already has
        the fill or the boundary colour; otherwise exactly the pixels joined
        to the seed by a 4-connected path of pixels of the seed's original
        colour take the fill colour, and every other pixel keeps its own
        (so boundary-coloured pixels are never written). */
    method FloodFillFourConnected(x: int, y: int, fill: Color, boundary: Color)
      requires Valid() && OnCanvas(x, y)
      modifies image
      ensures old(image[x, y]) == fill || old(image[x, y]) == boundary ==>
        forall p, q :: OnCanvas(p, q) ==> image[p, q] == old(image[p, q])
      ensures old(image[x, y]) != fill && old(image[x, y]) != boundary ==>
        forall p, q :: OnCanvas(p, q) ==>
          image[p, q] == if Connected(old(Snapshot()), old(image[x, y]), (x, y), (p, q)) then fill else old(image[p, q])
      ensures forall p, q :: OnCanvas(p, q) ==>
        image[p, q] == old(image[p, q]) || (old(image[p, q]) == old(image[x, y]) && image[p, q] == fill)
      ensures forall p, q :: OnCanvas(p, q) && old(image[p, q]) == boundary ==> image[p, q] == boundary
    {
      var target := GetPixelColor(x, y);
      if target == fill || target == boundary {
        return;
      }
      ghost var before := Snapshot();
      ghost var seed: Pt := (x, y);
      ghost var filled: set<Pt> := {};
      // the pixels still of the target colour: one fewer after every fill
      ghost var remaining := ColourSet(before, target);
      var queue: seq<Pt> := [(x, y)];
      while |queue| > 0
        invariant Painted(before, fill, filled) && Frontier(before, target, seed, queue, filled, remaining)
        decreases |remaining|, |queue|
      {
        queue, filled, remaining := FloodVisit(target, fill, boundary, before, seed, queue, filled, remaining);
      }
      FilledRegion(before, target, seed, filled, remaining);
      forall p, q | OnCanvas(p, q) && (p, q) in filled
        ensures before[p][q] == target
      {
        ConnectedColour(before, target, seed, (p, q));
      }
    }

    /** The filled pixels carry the fill colour, every other pixel its
        colour in before. */
    ghost predicate Painted(before: seq<seq<Color>>, fill: Color, filled: set<Pt>)
      reads this, image
    {
      && Valid() && GridShape(before)
      && forall p, q :: OnCanvas(p, q) ==>
           image[p, q] == if (p, q) in filled then fill else before[p][q]
    }

    /** put_pixel seen through the set of pixels painted so far: plotting
        (x, y) adds it to the set. */
    method PaintPixel(x: int, y: int, color: Color, ghost before: seq<seq<Color>>, ghost drawn: set<Pt>)
      requires Painted(before, color, drawn)
      modifies image
      ensures Painted(before, color, drawn + {(x, y)})
    {
      PutPixel(x, y, color);
    }

    /** One turn of the flood-fill loop: pop the head of the queue; when it
        lies on the canvas and still has the target colour, fill it and
        queue its four neighbours. Either one more pixel is filled or the
        queue is one shorter. */
    method FloodVisit(target: Color, fill: Color, boundary: Color, ghost before: seq<seq<Color>>, ghost seed: Pt,
                      queue: seq<Pt>, ghost filled: set<Pt>, ghost remaining: set<Pt>)
      returns (queue': seq<Pt>, ghost filled': set<Pt>, ghost remaining': set<Pt>)
      requires |queue| > 0 && target != fill && target != boundary
      requires Painted(before, fill, filled) && Frontier(before, target, seed, queue, filled, remaining)
      modifies image
      ensures Painted(before, fill, filled') && Frontier(before, target, seed, queue', filled', remaining')
      ensures |remaining'| < |remaining| || (remaining' == remaining && |queue'| < |queue|)
    {
      var current := queue[0];
      var cx, cy := current.0, current.1;
      queue', filled', remaining' := queue[1..], filled, remaining;
      if 0 <= cx < CanvasWidth && 0 <= cy < CanvasHeight {
        var c := GetPixelColor(cx, cy);
        if c == target && c != boundary {
          assert current !in filled && before[cx][cy] == target;
          PaintPixel(cx, cy, fill, before, filled);
          remaining' := remaining - {current};
          filled' := filled + {current};
          queue' := queue' + [(cx + 1, cy), (cx - 1, cy), (cx, cy + 1), (cx, cy - 1)];
          FillStep(before, target, seed, queue, filled, remaining);
          return;
        }
      }
      SkipStep(before, target, seed, queue, filled, remaining);
    }
  }

  // ---------------------------------------------------------------------
  // Flood fill

  /** A value image of the canvas size, indexed [x][y]. */
  predicate GridShape(g: seq<seq<Color>>) {
    |g| == CanvasWidth && forall p :: 0 <= p < CanvasWidth ==> |g[p]| == CanvasHeight
  }

  /** The on-canvas pixels of colour target in g, as a finite set. */
  lemma ColourSet(g: seq<seq<Color>>, target: Color) returns (s: set<Pt>)
    requires GridShape(g)
    ensures forall p, q :: OnCanvas(p, q) ==> ((p, q) in s <==> g[p][q] == target)
  {
    s := set p: int, q: int | 0 <= p < CanvasWidth && 0 <= q < CanvasHeight && g[p][q] == target :: (p, q);
  }

  /** a and b are 4-neighbours: one step apart along one axis. */
  predicate Adjacent4(a: Pt, b: Pt) {
    (a.1 == b.1 && (a.0 - b.0 == 1 || b.0 - a.0 == 1))
    || (a.0 == b.0 && (a.1 - b.1 == 1 || b.1 - a.1 == 1))
  }

  /** A path of on-canvas pixels of colour target in g, each a 4-neighbour
      of the one before. */
  predicate FourPath(g: seq<seq<Color>>, target: Color, path: seq<Pt>) {
    && GridShape(g) && |path| > 0
    && (forall k :: 0 <= k < |path| ==>
          OnCanvas(path[k].0, path[k].1) && g[path[k].0][path[k].1] == target)
    && (forall k :: 0 <= k < |path| - 1 ==> Adjacent4(path[k], path[k + 1]))
  }

  /** a is reached from seed by a 4-connected path of target-coloured pixels:
      the region a 4-connected flood fill from seed must paint. */
  ghost predicate Connected(g: seq<seq<Color>>, target: Color, seed: Pt, a: Pt) {
    exists path: seq<Pt> :: FourPath(g, target, path) && path[0] == seed && path[|path| - 1] == a
  }

  /** Every pixel of the region, seed included, lies on the canvas and has
      the target colour. */
  lemma ConnectedColour(g: seq<seq<Color>>, target: Color, seed: Pt, a: Pt)
    requires Connected(g, target, seed, a)
    ensures GridShape(g) && OnCanvas(a.0, a.1) && g[a.0][a.1] == target
    ensures OnCanvas(seed.0, seed.1) && g[seed.0][seed.1] == target
  {
    var path :| FourPath(g, target, path) && path[0] == seed && path[|path| - 1] == a;
  }

  /** A target-coloured 4-neighbour of a pixel of the region is in the
      region. */
  lemma ConnectedExtend(g: seq<seq<Color>>, target: Color, seed: Pt, a: Pt, b: Pt)
    requires Connected(g, target, seed, a) && Adjacent4(a, b)
    requires OnCanvas(b.0, b.1) && g[b.0][b.1] == target
    ensures Connected(g, target, seed, b)
  {
    var path :| FourPath(g, target, path) && path[0] == seed && path[|path| - 1] == a;
    var longer := path + [b];
    assert FourPath(g, target, longer);
    assert longer[0] == seed && longer[|longer| - 1] == b;
  }

  /** A neighbour the flood fill has dealt with or will deal with: off the
      canvas, still queued, or no longer of the target colour (absent from
      remaining). */
  ghost predicate Settled(n: Pt, queue: seq<Pt>, remaining: set<Pt>) {
    !OnCanvas(n.0, n.1) || n in queue || n !in remaining
  }

  /** All four neighbours of a are settled. */
  ghost predicate NeighboursSettled(a: Pt, queue: seq<Pt>, remaining: set<Pt>) {
    && Settled((a.0 + 1, a.1), queue, remaining) && Settled((a.0 - 1, a.1), queue, remaining)
    && Settled((a.0, a.1 + 1), queue, remaining) && Settled((a.0, a.1 - 1), queue, remaining)
  }

  /** Why n is in the queue: it is the seed or a 4-neighbour of a filled
      pixel. */
  ghost predicate Enqueued(n: Pt, seed: Pt, filled: set<Pt>) {
    || n == seed
    || (n.0 - 1, n.1) in filled || (n.0 + 1, n.1) in filled
    || (n.0, n.1 - 1) in filled || (n.0, n.1 + 1) in filled
  }

  /** remaining holds exactly the on-canvas pixels of the target colour
      that are not filled. */
  ghost predicate Remaining(g: seq<seq<Color>>, target: Color, filled: set<Pt>, remaining: set<Pt>)
    requires GridShape(g)
  {
    forall p, q {:trigger (p, q) in remaining} :: OnCanvas(p, q) ==>
      ((p, q) in remaining <==> g[p][q] == target && (p, q) !in filled)
  }

  /** Every filled pixel lies in the seed's region. */
  ghost predicate InRegion(g: seq<seq<Color>>, target: Color, seed: Pt, filled: set<Pt>) {
    forall a {:trigger Connected(g, target, seed, a)} :: a in filled ==> OnCanvas(a.0, a.1) && Connected(g, target, seed, a)
  }

  /** Every filled pixel has its four neighbours settled. */
  ghost predicate Closed(filled: set<Pt>, queue: seq<Pt>, remaining: set<Pt>) {
    forall a {:trigger NeighboursSettled(a, queue, remaining)} :: a in filled ==> NeighboursSettled(a, queue, remaining)
  }

  /** Every queued pixel is the seed or a neighbour of a filled pixel. */
  ghost predicate Explained(queue: seq<Pt>, seed: Pt, filled: set<Pt>) {
    forall k {:trigger Enqueued(queue[k], seed, filled)} :: 0 <= k < |queue| ==> Enqueued(queue[k], seed, filled)
  }

  /** What holds between two turns of the flood-fill loop. */
  ghost predicate Frontier(before: seq<seq<Color>>, target: Color, seed: Pt,
                           queue: seq<Pt>, filled: set<Pt>, remaining: set<Pt>)
  {
    && GridShape(before) && OnCanvas(seed.0, seed.1) && before[seed.0][seed.1] == target
    && Remaining(before, target, filled, remaining)
    && InRegion(before, target, seed, filled)
    && Closed(filled, queue, remaining)
    && (seed in queue || seed in filled)
    && Explained(queue, seed, filled)
  }

  /** One turn of the loop pops the head of the queue, may append to the
      rest, and may take pixels out of remaining; once the popped pixel is
      settled on its own, every settled pixel stays settled. */
  lemma SettledStep(queue0: seq<Pt>, queue1: seq<Pt>, remaining0: set<Pt>, remaining1: set<Pt>)
    requires |queue0| > 0 && queue0[1..] <= queue1 && remaining1 <= remaining0
    requires !OnCanvas(queue0[0].0, queue0[0].1) || queue0[0] !in remaining1
    ensures forall n :: Settled(n, queue0, remaining0) ==> Settled(n, queue1, remaining1)
  {
    forall n | Settled(n, queue0, remaining0)
      ensures Settled(n, queue1, remaining1)
    {
      if n in queue0 && n != queue0[0] {
        var k :| 0 <= k < |queue0| && queue0[k] == n;
        assert queue1[k - 1] == n;
      }
    }
  }

  /** One turn of the loop keeps every filled pixel's neighbours settled:
      the pixels filled before by the settled-step lemma, a pixel filled
      now because its neighbours were just queued. */
  lemma ClosedStep(filled0: set<Pt>, filled1: set<Pt>, queue0: seq<Pt>, queue1: seq<Pt>,
                   remaining0: set<Pt>, remaining1: set<Pt>)
    requires Closed(filled0, queue0, remaining0)
    requires forall n :: Settled(n, queue0, remaining0) ==> Settled(n, queue1, remaining1)
    requires forall a :: a in filled1 ==> a in filled0 || NeighboursSettled(a, queue1, remaining1)
    ensures Closed(filled1, queue1, remaining1)
  {
    forall a | a in filled1
      ensures NeighboursSettled(a, queue1, remaining1)
    {
      if a in filled0 && !NeighboursSettled(a, queue1, remaining1) {
        assert NeighboursSettled(a, queue0, remaining0);
      }
    }
  }

  /** One turn of the loop keeps every queued pixel explained: the filled
      set only grows, and what is pushed is explained by the new set. */
  lemma EnqueuedStep(queue0: seq<Pt>, queue1: seq<Pt>, current: Pt, pushed: seq<Pt>, seed: Pt,
                     filled0: set<Pt>, filled1: set<Pt>)
    requires |queue0| > 0 && filled0 <= filled1 && queue1 == queue0[1..] + pushed
    requires Explained(queue0, seed, filled0)
    requires pushed == [] || (current in filled1 && pushed ==
      [(current.0 + 1, current.1), (current.0 - 1, current.1), (current.0, current.1 + 1), (current.0, current.1 - 1)])
    ensures Explained(queue1, seed, filled1)
  {
    forall k | 0 <= k < |queue1|
      ensures Enqueued(queue1[k], seed, filled1)
    {
      if k < |queue0| - 1 {
        assert queue1[k] == queue0[k + 1];
        assert Enqueued(queue0[k + 1], seed, filled0);
      } else {
        assert queue1[k] == pushed[k - |queue0| + 1];
      }
    }
  }

  /** A target-coloured pixel taken from the queue belongs to the region. */
  lemma EnqueuedConnected(g: seq<seq<Color>>, target: Color, seed: Pt, filled: set<Pt>, n: Pt)
    requires GridShape(g) && OnCanvas(seed.0, seed.1) && g[seed.0][seed.1] == target
    requires InRegion(g, target, seed, filled)
    requires Enqueued(n, seed, filled) && OnCanvas(n.0, n.1) && g[n.0][n.1] == target
    ensures Connected(g, target, seed, n)
  {
    if n == seed {
      assert FourPath(g, target, [seed]);
    } else if (n.0 - 1, n.1) in filled {
      ConnectedExtend(g, target, seed, (n.0 - 1, n.1), n);
    } else if (n.0 + 1, n.1) in filled {
      ConnectedExtend(g, target, seed, (n.0 + 1, n.1), n);
    } else if (n.0, n.1 - 1) in filled {
      ConnectedExtend(g, target, seed, (n.0, n.1 - 1), n);
    } else {
      ConnectedExtend(g, target, seed, (n.0, n.1 + 1), n);
    }
  }

  /** Filling the head of the queue, an on-canvas pixel of the target
      colour not yet filled, and queueing its four neighbours keeps the
      frontier and takes one pixel out of remaining. */
  lemma FillStep(before: seq<seq<Color>>, target: Color, seed: Pt, queue: seq<Pt>, filled: set<Pt>, remaining: set<Pt>)
    requires |queue| > 0 && Frontier(before, target, seed, queue, filled, remaining)
    requires OnCanvas(queue[0].0, queue[0].1) && before[queue[0].0][queue[0].1] == target && queue[0] !in filled
    ensures var c := queue[0];
      && var queue' := queue[1..] + [(c.0 + 1, c.1), (c.0 - 1, c.1), (c.0, c.1 + 1), (c.0, c.1 - 1)];
      && Frontier(before, target, seed, queue', filled + {c}, remaining - {c})
      && |remaining - {c}| < |remaining|
  {
    var c := queue[0];
    var pushed := [(c.0 + 1, c.1), (c.0 - 1, c.1), (c.0, c.1 + 1), (c.0, c.1 - 1)];
    var queue' := queue[1..] + pushed;
    assert c in remaining;
    FillRemaining(before, target, filled, remaining, c);
    FillInRegion(before, target, seed, queue, filled, c);
    FillClosed(queue, filled, remaining);
    EnqueuedStep(queue, queue', c, pushed, seed, filled, filled + {c});
  }

  /** Filling c, a pixel of remaining, takes it out of remaining. */
  lemma FillRemaining(g: seq<seq<Color>>, target: Color, filled: set<Pt>, remaining: set<Pt>, c: Pt)
    requires GridShape(g) && Remaining(g, target, filled, remaining) && c in remaining
    ensures Remaining(g, target, filled + {c}, remaining - {c}) && |remaining - {c}| < |remaining|
  {
    forall p, q | OnCanvas(p, q)
      ensures (p, q) in remaining - {c} <==> g[p][q] == target && (p, q) !in filled + {c}
    {
      assert (p, q) in remaining <==> g[p][q] == target && (p, q) !in filled;
    }
  }

  /** Filling the head of the queue, an on-canvas pixel of the target
      colour, keeps every filled pixel in the region. */
  lemma FillInRegion(g: seq<seq<Color>>, target: Color, seed: Pt, queue: seq<Pt>, filled: set<Pt>, c: Pt)
    requires GridShape(g) && OnCanvas(seed.0, seed.1) && g[seed.0][seed.1] == target
    requires InRegion(g, target, seed, filled) && Explained(queue, seed, filled)
    requires |queue| > 0 && c == queue[0] && OnCanvas(c.0, c.1) && g[c.0][c.1] == target
    ensures InRegion(g, target, seed, filled + {c})
  {
    assert Enqueued(queue[0], seed, filled);
    EnqueuedConnected(g, target, seed, filled, c);
    forall a | a in filled + {c}
      ensures OnCanvas(a.0, a.1) && Connected(g, target, seed, a)
    {
      if a != c {
        assert a in filled && Connected(g, target, seed, a);
      }
    }
  }

  /** The four neighbours of c, just queued, are settled. */
  lemma PushedSettled(rest: seq<Pt>, c: Pt, remaining: set<Pt>)
    ensures NeighboursSettled(c, rest + [(c.0 + 1, c.1), (c.0 - 1, c.1), (c.0, c.1 + 1), (c.0, c.1 - 1)], remaining)
  {
    var queue := rest + [(c.0 + 1, c.1), (c.0 - 1, c.1), (c.0, c.1 + 1), (c.0, c.1 - 1)];
    assert queue[|rest|] == (c.0 + 1, c.1) && queue[|rest| + 1] == (c.0 - 1, c.1);
    assert queue[|rest| + 2] == (c.0, c.1 + 1) && queue[|rest| + 3] == (c.0, c.1 - 1);
  }

  /** Filling the head of the queue and queueing its four neighbours keeps
      every filled pixel's neighbours settled. */
  lemma FillClosed(queue: seq<Pt>, filled: set<Pt>, remaining: set<Pt>)
    requires |queue| > 0 && Closed(filled, queue, remaining)
    ensures var c := queue[0];
      Closed(filled + {c}, queue[1..] + [(c.0 + 1, c.1), (c.0 - 1, c.1), (c.0, c.1 + 1), (c.0, c.1 - 1)], remaining - {c})
  {
    var c := queue[0];
    var queue' := queue[1..] + [(c.0 + 1, c.1), (c.0 - 1, c.1), (c.0, c.1 + 1), (c.0, c.1 - 1)];
    PushedSettled(queue[1..], c, remaining - {c});
    SettledStep(queue, queue', remaining, remaining - {c});
    ClosedStep(filled, filled + {c}, queue, queue', remaining, remaining - {c});
  }

  /** Dropping the head of the queue, when it is off the canvas, already
      filled or of another colour, keeps the frontier. */
  lemma SkipStep(before: seq<seq<Color>>, target: Color, seed: Pt, queue: seq<Pt>, filled: set<Pt>, remaining: set<Pt>)
    requires |queue| > 0 && Frontier(before, target, seed, queue, filled, remaining)
    requires !OnCanvas(queue[0].0, queue[0].1) || before[queue[0].0][queue[0].1] != target || queue[0] in filled
    ensures Frontier(before, target, seed, queue[1..], filled, remaining)
  {
    var c := queue[0];
    assert OnCanvas(c.0, c.1) ==> c !in remaining;
    SettledStep(queue, queue[1..], remaining, remaining);
    ClosedStep(filled, filled, queue, queue[1..], remaining, remaining);
    EnqueuedStep(queue, queue[1..], c, [], seed, filled, filled);
  }

  /** When the queue has run dry and the seed is filled, the filled pixels
      are exactly the region of the seed. */
  lemma FilledRegion(g: seq<seq<Color>>, target: Color, seed: Pt, filled: set<Pt>, remaining: set<Pt>)
    requires Frontier(g, target, seed, [], filled, remaining)
    ensures forall p, q :: OnCanvas(p, q) ==> ((p, q) in filled <==> Connected(g, target, seed, (p, q)))
  {
    forall p, q | OnCanvas(p, q) && Connected(g, target, seed, (p, q))
      ensures (p, q) in filled
    {
      var path :| FourPath(g, target, path) && path[0] == seed && path[|path| - 1] == (p, q);
      PathInFilled(g, target, path, filled, remaining);
    }
  }

  /** When the queue has run dry, the filled pixels are closed under
      target-coloured 4-neighbours, so a path that starts in them stays in
      them. */
  lemma {:induction false} PathInFilled(g: seq<seq<Color>>, target: Color, path: seq<Pt>, filled: set<Pt>, remaining: set<Pt>)
    requires FourPath(g, target, path) && path[0] in filled
    requires Closed(filled, [], remaining) && Remaining(g, target, filled, remaining)
    ensures path[|path| - 1] in filled
    decreases |path|
  {
    if |path| > 1 {
      var prefix := path[..|path| - 1];
      assert FourPath(g, target, prefix);
      PathInFilled(g, target, prefix, filled, remaining);
      var a, b := path[|path| - 2], path[|path| - 1];
      assert Adjacent4(a, b) && NeighboursSettled(a, [], remaining);
      assert Settled(b, [], remaining);
    }
  }

  // ---------------------------------------------------------------------
  // Scan-line polygon fill

  datatype Option<T> = None | Some(value: T)

  function Min(a: int, b: int): int {
    if a <= b then a else b
  }

  function Max(a: int, b: int): int {
    if a <= b then b else a
  }

  /** Python's math.floor on a real. */
  function Floor(r: real): (f: int)
    ensures f as real <= r < f as real + 1.0
  {
    r.Floor
  }

  /** Python's math.ceil on a real. */
  function Ceil(r: real): (c: int)
    ensures r <= c as real < r + 1.0
  {
    -((-r).Floor)
  }

  /** min(p[1] for p in points): the lowest vertex y. */
  function MinY(points: seq<Pt>): (m: int)
    requires |points| > 0
    ensures forall k :: 0 <= k < |points| ==> m <= points[k].1
    ensures exists k :: 0 <= k < |points| && points[k].1 == m
  {
    if |points| == 1 then points[0].1
    else
      var m := MinY(points[..|points| - 1]);
      assert forall k :: 0 <= k < |points| - 1 ==> points[..|points| - 1][k] == points[k];
      Min(m, points[|points| - 1].1)
  }

  /** max(p[1] for p in points): the highest vertex y. */
  function MaxY(points: seq<Pt>): (m: int)
    requires |points| > 0
    ensures forall k :: 0 <= k < |points| ==> points[k].1 <= m
    ensures exists k :: 0 <= k < |points| && points[k].1 == m
  {
    if |points| == 1 then points[0].1
    else
      var m := MaxY(points[..|points| - 1]);
      assert forall k :: 0 <= k < |points| - 1 ==> points[..|points| - 1][k] == points[k];
      Max(m, points[|points| - 1].1)
  }

  /** The x where row y crosses the edge from vertex i to vertex i + 1
      (the last edge closes the polygon): none for a horizontal edge or a
      row outside the edge's y range, both ends of the range included. */
  function EdgeCrossing(points: seq<Pt>, i: int, y: int): Option<real>
    requires 0 <= i < |points|
  {
    var j := (i + 1) % |points|;
    var y1, y2 := points[i].1, points[j].1;
    if Min(y1, y2) <= y <= Max(y1, y2) && y1 != y2 then
      Some(Lerp(points[i].0, points[j].0, y1, y2, y))
    else None
  }

  /** The crossings of row y with the first n edges, in edge order. */
  function CrossingsUpTo(points: seq<Pt>, y: int, n: int): seq<real>
    requires 0 <= n <= |points|
  {
    if n == 0 then []
    else
      CrossingsUpTo(points, y, n - 1) +
        match EdgeCrossing(points, n - 1, y)
        case None => []
        case Some(x) => [x]
  }

  /** The intersections list scan_line_fill builds for row y. */
  function Crossings(points: seq<Pt>, y: int): seq<real> {
    CrossingsUpTo(points, y, |points|)
  }

  /** The edge loop of scan_line_fill for row y. */
  method RowCrossings(points: seq<Pt>, y: int) returns (xs: seq<real>)
    ensures xs == Crossings(points, y)
    ensures |xs| <= |points|
  {
    xs := [];
    var i := 0;
    while i < |points|
      invariant 0 <= i <= |points|
      invariant xs == CrossingsUpTo(points, y, i) && |xs| <= i
    {
      var j := (i + 1) % |points|;
      var y1, y2 := points[i].1, points[j].1;
      if Min(y1, y2) <= y <= Max(y1, y2) {
        if y1 != y2 {
          var x := Lerp(points[i].0, points[j].0, y1, y2, y);
          xs := xs + [x];
        }
      }
      i := i + 1;
    }
  }

  /** Ascending order, stated on neighbours. */
  predicate SortedReals(s: seq<real>) {
    forall i :: 0 <= i < |s| - 1 ==> s[i] <= s[i + 1]
  }

  /** In an ascending sequence the first element is the least. */
  lemma {:induction false} SortedFirst(s: seq<real>, k: int)
    requires SortedReals(s) && 0 <= k < |s|
    ensures s[0] <= s[k]
  {
    if k > 0 {
      SortedFirst(s, k - 1);
    }
  }

  /** x placed into a sorted sequence before its first larger element. */
  function InsertReal(x: real, s: seq<real>): (r: seq<real>)
    ensures |r| == |s| + 1 && (r[0] == x || (|s| > 0 && r[0] == s[0]))
    ensures SortedReals(s) ==> SortedReals(r)
  {
    if |s| == 0 || x <= s[0] then [x] + s
    else
      assert s == [s[0]] + s[1..];
      [s[0]] + InsertReal(x, s[1..])
  }

  lemma {:induction false} InsertRealPermutes(x: real, s: seq<real>)
    ensures multiset(InsertReal(x, s)) == multiset(s) + multiset{x}
  {
    if |s| > 0 && x > s[0] {
      InsertRealPermutes(x, s[1..]);
      assert s == [s[0]] + s[1..];
    }
  }

  /** Python's list.sort on the crossings, as insertion sort: ascending
      order (the same multiset of values is SortRealsPermutes). */
  function SortReals(s: seq<real>): (r: seq<real>)
    ensures SortedReals(r) && |r| == |s|
  {
    if |s| == 0 then []
    else InsertReal(s[0], SortReals(s[1..]))
  }

  /** Sorting keeps the same values, each as often. */
  lemma {:induction false} SortRealsPermutes(s: seq<real>)
    ensures multiset(SortReals(s)) == multiset(s)
  {
    if |s| > 0 {
      assert s == [s[0]] + s[1..];
      assert multiset(s) == multiset(s[1..]) + multiset{s[0]};
      SortRealsPermutes(s[1..]);
      InsertRealPermutes(s[0], SortReals(s[1..]));
    }
  }

  /** Any ascending arrangement of the values of s is SortReals(s): the
      result of the sort does not depend on how it is computed. */
  lemma SortRealsUnique(s: seq<real>, t: seq<real>)
    requires SortedReals(t) && multiset(t) == multiset(s)
    ensures t == SortReals(s)
  {
    SortRealsPermutes(s);
    SortedUnique(SortReals(s), t);
  }

  /** The sorted order of a multiset of reals is unique, so SortReals
      agrees with any other ascending arrangement of the same values. */
  lemma {:induction false} SortedUnique(a: seq<real>, b: seq<real>)
    requires SortedReals(a) && SortedReals(b) && multiset(a) == multiset(b)
    ensures a == b
    decreases |a|
  {
    if |a| > 0 {
      SortedHeads(a, b);
      SameTails(a, b);
      SortedUnique(a[1..], b[1..]);
    }
  }

  /** Two ascending arrangements of the same values start alike. */
  lemma SortedHeads(a: seq<real>, b: seq<real>)
    requires SortedReals(a) && SortedReals(b) && multiset(a) == multiset(b) && |a| > 0
    ensures |b| > 0 && a[0] == b[0]
  {
    assert a[0] in multiset(a);
    var i :| 0 <= i < |b| && b[i] == a[0];
    SortedFirst(b, i);
    assert b[0] in multiset(b);
    var j :| 0 <= j < |a| && a[j] == b[0];
    SortedFirst(a, j);
  }

  /** Taking the same first value off two sequences of the same values
      leaves the same values; the tails stay ascending. */
  lemma SameTails(a: seq<real>, b: seq<real>)
    requires SortedReals(a) && SortedReals(b) && multiset(a) == multiset(b) && |a| > 0 && |b| > 0 && a[0] == b[0]
    ensures multiset(a[1..]) == multiset(b[1..]) && SortedReals(a[1..]) && SortedReals(b[1..])
  {
    assert a == [a[0]] + a[1..];
    assert b == [b[0]] + b[1..];
    assert multiset(a) == multiset{a[0]} + multiset(a[1..]);
    assert multiset(b) == multiset{a[0]} + multiset(b[1..]);
    forall x
      ensures multiset(a[1..])[x] == multiset(b[1..])[x]
    {
      assert multiset(a)[x] == multiset(b)[x];
    }
    SortedTail(a);
    SortedTail(b);
  }

  /** The tail of an ascending sequence is ascending. */
  lemma SortedTail(a: seq<real>)
    requires SortedReals(a) && |a| > 0
    ensures SortedReals(a[1..])
  {
    forall k | 0 <= k < |a[1..]| - 1
      ensures a[1..][k] <= a[1..][k + 1]
    {
      assert a[1..][k] == a[k + 1] && a[1..][k + 1] == a[k + 2];
    }
  }

  /** The spans the pairing loop fills: (ceil(xs[0]), floor(xs[1])),
      (ceil(xs[2]), floor(xs[3])), ...; an unpaired last crossing gives
      none. */
  function Spans(xs: seq<real>): (spans: seq<(int, int)>)
    ensures |spans| == |xs| / 2
    ensures forall k :: 0 <= k < |spans| ==> spans[k] == (Ceil(xs[2 * k]), Floor(xs[2 * k + 1]))
  {
    if |xs| < 2 then []
    else
      var rest := Spans(xs[2..]);
      assert forall k :: 0 <= k < |rest| ==> xs[2..][2 * k] == xs[2 * (k + 1)] && xs[2..][2 * k + 1] == xs[2 * (k + 1) + 1];
      [(Ceil(xs[0]), Floor(xs[1]))] + rest
  }

  /** Whether column p lies in one of the spans. */
  predicate InSpans(spans: seq<(int, int)>, p: int) {
    exists k :: 0 <= k < |spans| && spans[k].0 <= p <= spans[k].1
  }

  lemma InSpansSnoc(spans: seq<(int, int)>, s: (int, int))
    ensures forall p :: InSpans(spans + [s], p) <==> InSpans(spans, p) || s.0 <= p <= s.1
  {
    forall p | InSpans(spans + [s], p)
      ensures InSpans(spans, p) || s.0 <= p <= s.1
    {
      var k :| 0 <= k < |spans + [s]| && (spans + [s])[k].0 <= p <= (spans + [s])[k].1;
      if k < |spans| {
        assert spans[k] == (spans + [s])[k];
      }
    }
    forall p | InSpans(spans, p)
      ensures InSpans(spans + [s], p)
    {
      var k :| 0 <= k < |spans| && spans[k].0 <= p <= spans[k].1;
      assert (spans + [s])[k] == spans[k];
    }
    forall p | s.0 <= p <= s.1
      ensures InSpans(spans + [s], p)
    {
      assert (spans + [s])[|spans|] == s;
    }
  }

  /** Adding the pair at k to the prefix xs[..k] adds its span; a lone last
      crossing adds none. */
  lemma SpansSnoc(prefix: seq<real>, xs: seq<real>, k: int)
    requires 0 <= k < |xs| && k % 2 == 0 && prefix == xs[..k]
    ensures k + 1 < |xs| ==> Spans(xs[..k + 2]) == Spans(prefix) + [(Ceil(xs[k]), Floor(xs[k + 1]))]
    ensures k + 1 >= |xs| ==> Spans(xs[..k + 1]) == Spans(prefix)
  {
    var s := Spans(prefix);
    if k + 1 < |xs| {
      var s2 := Spans(xs[..k + 2]);
      assert |s2| == |s| + 1;
      forall i | 0 <= i < |s2|
        ensures s2[i] == (s + [(Ceil(xs[k]), Floor(xs[k + 1]))])[i]
      {
      }
    } else {
      var s1 := Spans(xs[..k + 1]);
      assert |s1| == |s|;
      forall i | 0 <= i < |s1|
        ensures s1[i] == s[i]
      {
      }
    }
  }

  /** The pixels scan_line_fill paints: rows int(min_y)..int(max_y), and in
      row q the spans of the sorted crossings. */
  predicate ScanFilled(points: seq<Pt>, p: int, q: int)
    requires |points| > 0
  {
    MinY(points) <= q <= MaxY(points) && InSpans(Spans(SortReals(Crossings(points, q))), p)
  }

  /** The x of the point at height y on the line through (x0, y0) and
      (x1, y1), as scan_line_fill computes it. */
  function Lerp(x0: int, x1: int, y0: int, y1: int, y: int): real
    requires y0 != y1
  {
    x0 as real + ((x1 - x0) as real * (y - y0) as real) / (y1 - y0) as real
  }

  /** A real d scaled by a factor in [0, 1] stays between 0 and d. */
  lemma ScaleUnit(d: real, t: real)
    requires 0.0 <= t <= 1.0
    ensures d >= 0.0 ==> 0.0 <= d * t <= d
    ensures d <= 0.0 ==> d <= d * t <= 0.0
  {
    assert d - d * t == d * (1.0 - t);
    if d >= 0.0 {
      assert d * (1.0 - t) >= 0.0;
      assert d * t >= 0.0;
    } else {
      assert (-d) * (1.0 - t) >= 0.0;
      assert (-d) * t >= 0.0;
    }
  }

  /** Scaling by u / v is multiplying by u, then dividing by v. */
  lemma DivScale(d: real, u: real, v: real)
    requires v != 0.0
    ensures (d * u) / v == d * (u / v)
  {
  }

  /** u / v for u between 0 and v is a factor in [0, 1], 1 at u = v. */
  lemma UnitFraction(u: real, v: real)
    requires v != 0.0 && ((0.0 <= u <= v) || (v <= u <= 0.0))
    ensures 0.0 <= u / v <= 1.0
    ensures u == v ==> u / v == 1.0
  {
  }

  /** Interpolation at a y between y0 and y1 gives an x between x0 and x1,
      x0 itself at y0 and x1 itself at y1. */
  lemma Interpolate(x0: int, x1: int, y0: int, y1: int, y: int)
    requires y0 != y1
    requires (y0 <= y <= y1) || (y1 <= y <= y0)
    ensures (x0 as real <= Lerp(x0, x1, y0, y1, y) <= x1 as real) || (x1 as real <= Lerp(x0, x1, y0, y1, y) <= x0 as real)
    ensures y == y0 ==> Lerp(x0, x1, y0, y1, y) == x0 as real
    ensures y == y1 ==> Lerp(x0, x1, y0, y1, y) == x1 as real
  {
    var d, u, v := (x1 - x0) as real, (y - y0) as real, (y1 - y0) as real;
    DivScale(d, u, v);
    UnitFraction(u, v);
    assert Lerp(x0, x1, y0, y1, y) == x0 as real + d * (u / v);
    ScaleUnit(d, u / v);
  }

  /** An edge crossing: a horizontal edge gives none; otherwise a row in
      the edge's y range gives one, lying between the edge's end x
      coordinates and equal to the end's x at either end's y. */
  lemma EdgeCrossingFacts(points: seq<Pt>, i: int, y: int)
    requires 0 <= i < |points|
    ensures var j := (i + 1) % |points|;
      var c := EdgeCrossing(points, i, y);
      && (points[i].1 == points[j].1 ==> c.None?)
      && (c.Some? <==> points[i].1 != points[j].1 && Min(points[i].1, points[j].1) <= y <= Max(points[i].1, points[j].1))
      && (c.Some? ==>
            && (points[i].0 as real <= c.value <= points[j].0 as real || points[j].0 as real <= c.value <= points[i].0 as real)
            && (y == points[i].1 ==> c.value == points[i].0 as real)
            && (y == points[j].1 ==> c.value == points[j].0 as real))
  {
    var j := (i + 1) % |points|;
    var y1, y2 := points[i].1, points[j].1;
    if Min(y1, y2) <= y <= Max(y1, y2) && y1 != y2 {
      Interpolate(points[i].0, points[j].0, y1, y2, y);
    }
  }

  /** Every crossing in the list comes from one of the first n edges. */
  lemma {:induction false} CrossingSource(points: seq<Pt>, y: int, n: int, v: real) returns (i: int)
    requires 0 <= n <= |points| && v in CrossingsUpTo(points, y, n)
    ensures 0 <= i < n && EdgeCrossing(points, i, y) == Some(v)
  {
    var before := CrossingsUpTo(points, y, n - 1);
    if v in before {
      i := CrossingSource(points, y, n - 1, v);
    } else {
      i := n - 1;
    }
  }

  /** scan_line_fill paints only inside the polygon's bounding box: the
      row lies between the lowest and highest vertex, and the column
      between the x coordinates of two vertices. */
  lemma ScanFilledInBox(points: seq<Pt>, p: int, q: int) returns (lo: int, hi: int)
    requires |points| > 0 && ScanFilled(points, p, q)
    ensures MinY(points) <= q <= MaxY(points)
    ensures 0 <= lo < |points| && 0 <= hi < |points| && points[lo].0 <= p <= points[hi].0
  {
    var c := Crossings(points, q);
    var xs := SortReals(c);
    var spans := Spans(xs);
    var k :| 0 <= k < |spans| && spans[k].0 <= p <= spans[k].1;
    assert spans[k] == (Ceil(xs[2 * k]), Floor(xs[2 * k + 1]));
    SortRealsPermutes(c);
    assert xs[2 * k] in multiset(c) && xs[2 * k + 1] in multiset(c);
    var e1 := CrossingSource(points, q, |points|, xs[2 * k]);
    var e2 := CrossingSource(points, q, |points|, xs[2 * k + 1]);
    EdgeCrossingFacts(points, e1, q);
    EdgeCrossingFacts(points, e2, q);
    var n1 := (e1 + 1) % |points|;
    var n2 := (e2 + 1) % |points|;
    lo := if points[e1].0 <= points[n1].0 then e1 else n1;
    hi := if points[e2].0 <= points[n2].0 then n2 else e2;
  }

  /** As written, a row through a vertex counts that vertex once for each
      of its two edges. In the diamond (5, 0), (10, 5), (5, 10), (0, 5) row 5
      passes through the side vertices, its sorted crossings are 0, 0, 10, 10,
      and the pairs fill only columns 0 and 10: the centre (5, 5) stays
      unfilled although the rows just above and below cover it. */
  lemma ScanVertexGap(diamond: seq<Pt>)
    requires diamond == [(5, 0), (10, 5), (5, 10), (0, 5)]
    ensures !ScanFilled(diamond, 5, 5)
    ensures ScanFilled(diamond, 5, 4) && ScanFilled(diamond, 5, 6)
  {
    assert forall k :: 0 <= k < |diamond| ==> 0 <= diamond[k].1 <= 10;
    assert diamond[0].1 == 0 && diamond[2].1 == 10;
    assert MinY(diamond) == 0 && MaxY(diamond) == 10;
    DiamondRows(diamond);
    var s5 := DiamondSpans(diamond);
    assert s5[0] == (0, 0) && s5[1] == (10, 10);
  }

  /** The diamond's spans, as written: columns 0 and 10 alone on row 5,
      columns 1..9 on rows 4 and 6. */
  lemma DiamondSpans(diamond: seq<Pt>) returns (s5: seq<(int, int)>)
    requires diamond == [(5, 0), (10, 5), (5, 10), (0, 5)]
    ensures SortReals(Crossings(diamond, 5)) == [0.0, 0.0, 10.0, 10.0]
    ensures s5 == Spans(SortReals(Crossings(diamond, 5))) && |s5| == 2 && s5[0] == (0, 0) && s5[1] == (10, 10)
    ensures Spans(SortReals(Crossings(diamond, 4))) == [(1, 9)]
    ensures Spans(SortReals(Crossings(diamond, 6))) == [(1, 9)]
  {
    DiamondRows(diamond);
    SortedPair(1.0, 9.0);
    SortedFour(0.0, 10.0);
    s5 := Spans(SortReals(Crossings(diamond, 5)));
  }

  lemma SortedPair(lo: real, hi: real)
    requires lo <= hi
    ensures SortReals([hi, lo]) == [lo, hi]
  {
    assert [hi, lo][1..] == [lo];
    assert SortReals([lo]) == [lo];
    assert InsertReal(hi, [lo]) == [lo, hi];
  }


  lemma SortedFour(lo: real, hi: real)
    requires lo <= hi
    ensures SortReals([hi, hi, lo, lo]) == [lo, lo, hi, hi]
  {
    assert [hi, hi, lo, lo][1..] == [hi, lo, lo] && [hi, lo, lo][1..] == [lo, lo] && [lo, lo][1..] == [lo];
    assert SortReals([lo]) == [lo];
    assert SortReals([lo, lo]) == InsertReal(lo, [lo]) == [lo, lo];
    assert InsertReal(hi, [lo]) == [lo, hi];
    assert SortReals([hi, lo, lo]) == InsertReal(hi, [lo, lo]) == [lo, lo, hi];
    assert InsertReal(hi, [hi]) == [hi, hi];
    assert InsertReal(hi, [lo, hi]) == [lo, hi, hi];
    assert SortReals([hi, hi, lo, lo]) == InsertReal(hi, [lo, lo, hi]) == [lo, lo, hi, hi];
  }



  /** The diamond's crossings, as written, on rows 4, 5 and 6. */
  lemma DiamondRows(diamond: seq<Pt>)
    requires diamond == [(5, 0), (10, 5), (5, 10), (0, 5)]
    ensures Crossings(diamond, 5) == [10.0, 10.0, 0.0, 0.0]
    ensures Crossings(diamond, 4) == [9.0, 1.0]
    ensures Crossings(diamond, 6) == [9.0, 1.0]
  {
    assert EdgeCrossing(diamond, 0, 5) == Some(10.0) && EdgeCrossing(diamond, 1, 5) == Some(10.0);
    assert EdgeCrossing(diamond, 2, 5) == Some(0.0) && EdgeCrossing(diamond, 3, 5) == Some(0.0);
    assert CrossingsUpTo(diamond, 5, 1) == [10.0];
    assert CrossingsUpTo(diamond, 5, 2) == [10.0, 10.0];
    assert CrossingsUpTo(diamond, 5, 3) == [10.0, 10.0, 0.0];
    assert EdgeCrossing(diamond, 0, 4) == Some(9.0) && EdgeCrossing(diamond, 1, 4) == None;
    assert EdgeCrossing(diamond, 2, 4) == None && EdgeCrossing(diamond, 3, 4) == Some(1.0);
    assert CrossingsUpTo(diamond, 4, 1) == [9.0];
    assert CrossingsUpTo(diamond, 4, 2) == [9.0];
    assert CrossingsUpTo(diamond, 4, 3) == [9.0];
    assert EdgeCrossing(diamond, 0, 6) == None && EdgeCrossing(diamond, 1, 6) == Some(9.0);
    assert EdgeCrossing(diamond, 2, 6) == Some(1.0) && EdgeCrossing(diamond, 3, 6) == None;
    assert CrossingsUpTo(diamond, 6, 1) == [];
    assert CrossingsUpTo(diamond, 6, 2) == [9.0];
    assert CrossingsUpTo(diamond, 6, 3) == [9.0, 1.0];
  }

  /** The crossing rule evidently intended: an edge counts for the rows
      from its lower end up to, but not including, its upper end, so a
      vertex between a rising and a falling edge is counted once. */
  function HalfOpenCrossing(points: seq<Pt>, i: int, y: int): Option<real>
    requires 0 <= i < |points|
  {
    var j := (i + 1) % |points|;
    var y1, y2 := points[i].1, points[j].1;
    if Min(y1, y2) <= y < Max(y1, y2) then Some(Lerp(points[i].0, points[j].0, y1, y2, y))
    else None
  }

  function HalfOpenCrossingsUpTo(points: seq<Pt>, y: int, n: int): seq<real>
    requires 0 <= n <= |points|
  {
    if n == 0 then []
    else
      HalfOpenCrossingsUpTo(points, y, n - 1) +
        match HalfOpenCrossing(points, n - 1, y)
        case None => []
        case Some(x) => [x]
  }

  lemma ModSmall(a: int, n: int)
    requires 0 <= a < n
    ensures a % n == a
  {
  }

  /** Over the first m edges (no wrap-around), the half-open crossings are
      odd in number exactly when vertex 0 and vertex m lie on different
      sides of row y. */
  lemma {:induction false} HalfOpenParity(points: seq<Pt>, y: int, m: int)
    requires 0 <= m < |points|
    ensures |HalfOpenCrossingsUpTo(points, y, m)| % 2 == if (points[0].1 <= y) == (points[m].1 <= y) then 0 else 1
  {
    if m > 0 {
      HalfOpenParity(points, y, m - 1);
      ModSmall(m, |points|);
      var n := |HalfOpenCrossingsUpTo(points, y, m - 1)|;
      if HalfOpenCrossing(points, m - 1, y).Some? {
        assert (points[m - 1].1 <= y) != (points[m].1 <= y);
        assert |HalfOpenCrossingsUpTo(points, y, m)| == n + 1;
      } else {
        assert (points[m - 1].1 <= y) == (points[m].1 <= y);
        assert |HalfOpenCrossingsUpTo(points, y, m)| == n;
      }
    }
  }

  /** With the intended rule every row of a closed polygon meets it an even
      number of times, so the pairing loop never drops a crossing. */
  lemma HalfOpenCrossingsEven(points: seq<Pt>, y: int)
    requires |points| > 0
    ensures |HalfOpenCrossingsUpTo(points, y, |points|)| % 2 == 0
  {
    HalfOpenParity(points, y, |points| - 1);
    assert (|points| - 1 + 1) % |points| == 0;
  }

  /** With the intended rule the diamond's row 5 becomes the single span
      0..10, centre included. */
  lemma HalfOpenDiamond()
    ensures var diamond := [(5, 0), (10, 5), (5, 10), (0, 5)];
      InSpans(Spans(SortReals(HalfOpenCrossingsUpTo(diamond, 5, 4))), 5)
  {
    var diamond: seq<Pt> := [(5, 0), (10, 5), (5, 10), (0, 5)];
    assert HalfOpenCrossingsUpTo(diamond, 5, 4) == [10.0, 0.0];
    SortedPair(0.0, 10.0);
    var spans := Spans([0.0, 10.0]);
    assert spans[0] == (Ceil(0.0), Floor(10.0)) == (0, 10);
    assert 0 <= 0 < |spans| && spans[0].0 <= 5 <= spans[0].1;
  }

  // ---------------------------------------------------------------------
  // Midpoint ellipse

  /** Whether (p, q) is one of the four mirror images (cx +- x, cy +- y) of
      an offset (x, y) in offsets. */
  predicate Mirrored(cx: int, cy: int, offsets: set<Pt>, p: int, q: int) {
    || (p - cx, q - cy) in offsets
    || (cx - p, q - cy) in offsets
    || (p - cx, cy - q) in offsets
    || (cx - p, cy - q) in offsets
  }

  /** The mirror images of one offset are the four points (cx +- x, cy +- y). */
  lemma MirroredPoint(cx: int, cy: int, x: int, y: int, p: int, q: int)
    ensures Mirrored(cx, cy, {(x, y)}, p, q) <==>
      (p, q) == (cx + x, cy + y) || (p, q) == (cx - x, cy + y) ||
      (p, q) == (cx + x, cy - y) || (p, q) == (cx - x, cy - y)
  {
  }

  /** What region 1 of midpoint_ellipse plots, and the state (x, y, dx, dy)
      it hands to region 2. */
  datatype Arc = Arc(offsets: set<Pt>, x: int, y: int, dx: int, dy: int)

  /** The initial decision value of region 1: b^2 - a^2 b + a^2 / 4. */
  function Region1Start(a: int, b: int): real {
    (b * b - a * a * b) as real + 0.25 * (a * a) as real
  }

  /** The initial decision value of region 2:
      b^2 (x + 1/2)^2 + a^2 (y - 1)^2 - a^2 b^2. */
  function Region2Start(a: int, b: int, x: int, y: int): real {
    (b * b) as real * ((x as real + 0.5) * (x as real + 0.5))
      + (a * a * ((y - 1) * (y - 1))) as real - (a * a * b * b) as real
  }

  lemma SquareAtLeastOne(b: int)
    ensures b != 0 ==> b * b >= 1 && 2 * b * b >= 2
  {
    if b > 0 {
      MulMono(b, 1, b);
    } else if b < 0 {
      MulMono(-b, 1, -b);
    }
  }

  lemma SquareNonNegative(a: int)
    ensures a * a >= 0 && 2 * a * a >= 0
  {
    if a < 0 {
      MulMono(-a, 0, -a);
    } else {
      MulMono(a, 0, a);
    }
  }

  /** One unit step of a multiple of c. */
  lemma StepMul(c: int, x: int)
    ensures c * (x + 1) == c * x + c && c * (x - 1) == c * x - c
  {
  }

  /** The offsets region 1 plots from state (x, y, dx, dy, d1), while
      dx < dy, and the state it stops in. */
  function Region1(a: int, b: int, x: int, y: int, dx: int, dy: int, d1: real): Arc
    requires b != 0 || dy <= dx
    decreases dy - dx
  {
    if dx >= dy then Arc({}, x, y, dx, dy)
    else
      SquareAtLeastOne(b);
      var dx' := dx + 2 * b * b;
      var r :=
        if d1 < 0.0 then Region1(a, b, x + 1, y, dx', dy, d1 + (dx' + b * b) as real)
        else Region1(a, b, x + 1, y - 1, dx', dy - 2 * a * a, d1 + (dx' - (dy - 2 * a * a) + b * b) as real);
      r.(offsets := {(x, y)} + r.offsets)
  }

  /** The offsets region 2 plots from state (x, y, dx, dy, d2), while
      y >= 0. */
  function Region2(a: int, b: int, x: int, y: int, dx: int, dy: int, d2: real): set<Pt>
    decreases y
  {
    if y < 0 then {}
    else
      var dy' := dy - 2 * a * a;
      {(x, y)} + (
        if d2 > 0.0 then Region2(a, b, x, y - 1, dx, dy', d2 + (a * a - dy') as real)
        else Region2(a, b, x + 1, y - 1, dx + 2 * b * b, dy', d2 + (dx + 2 * b * b - dy' + a * a) as real))
  }

  /** Every offset (x, y) midpoint_ellipse plots, before mirroring. */
  function EllipseOffsets(a: int, b: int): set<Pt> {
    var arc := Region1(a, b, 0, b, 0, 2 * a * a * b, Region1Start(a, b));
    arc.offsets + Region2(a, b, arc.x, arc.y, arc.dx, arc.dy, Region2Start(a, b, arc.x, arc.y))
  }

  /** A product with a non-negative factor c has the sign of the other
      factor. */
  lemma ProductSign(c: int, x: int)
    requires c >= 0
    ensures x >= 0 ==> c * x >= 0
    ensures x <= 0 ==> c * x <= 0
  {
    if x >= 0 {
      MulMono(c, 0, x);
    } else {
      MulMono(c, x, 0);
    }
  }

  /** Region 1 keeps dx == 2 b^2 x and dy == 2 a^2 y; it plots its starting
      offset whenever it runs, every offset it plots lies right of x and in
      0 < y' <= y, and it stops with dx >= dy at a state no further left or
      higher, and not below the x axis when it started on or above it. */
  lemma {:induction false} Region1Facts(a: int, b: int, x: int, y: int, dx: int, dy: int, d1: real)
    requires b != 0 || dy <= dx
    requires dx == 2 * b * b * x && dy == 2 * a * a * y && x >= 0
    ensures var r := Region1(a, b, x, y, dx, dy, d1);
      && (forall o :: o in r.offsets ==> x <= o.0 && 0 < o.1 <= y)
      && x <= r.x && r.y <= y && r.dx == 2 * b * b * r.x && r.dy == 2 * a * a * r.y
      && r.dx >= r.dy
      && (y >= 0 ==> r.y >= 0)
      && (dx < dy ==> (x, y) in r.offsets)
    decreases dy - dx
  {
    if dx < dy {
      SquareAtLeastOne(b);
      SquareNonNegative(a);
      ProductSign(2 * b * b, x);
      ProductSign(2 * a * a, y);
      StepMul(2 * b * b, x);
      StepMul(2 * a * a, y);
      var dx' := dx + 2 * b * b;
      if d1 < 0.0 {
        Region1Facts(a, b, x + 1, y, dx', dy, d1 + (dx' + b * b) as real);
      } else {
        Region1Facts(a, b, x + 1, y - 1, dx', dy - 2 * a * a, d1 + (dx' - (dy - 2 * a * a) + b * b) as real);
      }
    }
  }

  /** Region 2 plots nothing below the x axis; from a state on or above it,
      it plots that state's offset and, in the end, an offset on the axis;
      every offset lies right of x and in 0 <= y' <= y. */
  lemma {:induction false} Region2Facts(a: int, b: int, x: int, y: int, dx: int, dy: int, d2: real)
    returns (ox: int)
    ensures var r := Region2(a, b, x, y, dx, dy, d2);
      && (forall o :: o in r ==> x <= o.0 && 0 <= o.1 <= y)
      && (y < 0 ==> r == {})
      && (y >= 0 ==> (x, y) in r && (ox, 0) in r)
    decreases y
  {
    ox := x;
    if y >= 0 {
      var dy' := dy - 2 * a * a;
      if d2 > 0.0 {
        var o := Region2Facts(a, b, x, y - 1, dx, dy', d2 + (a * a - dy') as real);
        if y > 0 {
          ox := o;
        }
      } else {
        var o := Region2Facts(a, b, x + 1, y - 1, dx + 2 * b * b, dy', d2 + (dx + 2 * b * b - dy' + a * a) as real);
        if y > 0 {
          ox := o;
        }
      }
    }
  }

  /** midpoint_ellipse plots one quarter arc of offsets, which the four
      mirrors carry to the whole ellipse: every offset lies in the quadrant
      0 <= x, 0 <= y <= b; for b >= 0 the arc runs from the top (0, b) down
      to the x axis; a negative b plots nothing. */
  lemma EllipseArc(a: int, b: int) returns (ox: int)
    ensures forall o :: o in EllipseOffsets(a, b) ==> 0 <= o.0 && 0 <= o.1 <= b
    ensures b >= 0 ==> (0, b) in EllipseOffsets(a, b) && (ox, 0) in EllipseOffsets(a, b)
    ensures b < 0 ==> EllipseOffsets(a, b) == {}
  {
    SquareNonNegative(a);
    ProductSign(2 * a * a, b);
    assert 2 * b * b * 0 == 0;
    Region1Facts(a, b, 0, b, 0, 2 * a * a * b, Region1Start(a, b));
    var arc := Region1(a, b, 0, b, 0, 2 * a * a * b, Region1Start(a, b));
    ox := Region2Facts(a, b, arc.x, arc.y, arc.dx, arc.dy, Region2Start(a, b, arc.x, arc.y));
  }

  // ---------------------------------------------------------------------
  // Bresenham line

  function Abs(n: int): int {
    if n < 0 then -n else n
  }

  /** The unit step from a1 towards a2: sx and sy of the source, -1 when
      a1 == a2. */
  function Dir(a1: int, a2: int): int {
    if a1 < a2 then 1 else -1
  }

  /** The coordinate k unit steps from a1 towards a2 (the step is -1 when
      a1 == a2, as sx and sy are in the source). */
  function Toward(a1: int, a2: int, k: int): int {
    if a1 < a2 then a1 + k else a1 - k
  }

  /** The loop's error term after i steps in x and j steps in y: it starts
      at dx - dy, every x step subtracts dy and every y step adds dx. */
  function LineError(dx: int, dy: int, i: nat, j: nat): int
    decreases i + j
  {
    if i > 0 then LineError(dx, dy, i - 1, j) - dy
    else if j > 0 then LineError(dx, dy, i, j - 1) + dx
    else dx - dy
  }

  /** The error term in closed form: dx * (1 + j) - dy * (1 + i). */
  lemma {:induction false} LineErrorClosed(dx: int, dy: int, i: nat, j: nat)
    ensures LineError(dx, dy, i, j) == dx * (1 + j) - dy * (1 + i)
    decreases i + j
  {
    if i > 0 {
      LineErrorClosed(dx, dy, i - 1, j);
      assert dy * (1 + i) == dy * (1 + (i - 1)) + dy;
    } else if j > 0 {
      LineErrorClosed(dx, dy, i, j - 1);
      assert dx * (1 + j) == dx * (1 + (j - 1)) + dx;
    }
  }

  /** One loop iteration moves x only while x has not reached x2, y only
      while y has not reached y2, and at least one of them. */
  lemma StepBounds(dx: int, dy: int, i: nat, j: nat)
    requires i <= dx && j <= dy && !(i == dx && j == dy)
    ensures 2 * LineError(dx, dy, i, j) > -dy ==> i < dx
    ensures 2 * LineError(dx, dy, i, j) < dx ==> j < dy
    ensures 2 * LineError(dx, dy, i, j) > -dy || 2 * LineError(dx, dy, i, j) < dx
  {
    LineErrorClosed(dx, dy, i, j);
    if i == dx {
      assert j + 1 <= dy;
      MulMono(dx, j + 1, dy);
      assert 2 * LineError(dx, dy, i, j) == 2 * (dx * (j + 1)) - 2 * (dx * dy) - 2 * dy;
    }
    if j == dy {
      assert i + 1 <= dx;
      MulMono(dy, i + 1, dx);
      assert 2 * LineError(dx, dy, i, j) == 2 * dx + 2 * (dx * dy) - 2 * (dy * (i + 1));
    }
  }

  /** An x step takes dy off the error term, a y step adds dx. */
  lemma {:induction false} ErrorStep(dx: int, dy: int, i: nat, j: nat)
    ensures LineError(dx, dy, i + 1, j) == LineError(dx, dy, i, j) - dy
    ensures LineError(dx, dy, i, j + 1) == LineError(dx, dy, i, j) + dx
    decreases i
  {
    if i > 0 {
      ErrorStep(dx, dy, i - 1, j);
    }
  }

  lemma MulMono(a: int, b: int, c: int)
    requires 0 <= a && b <= c
    ensures a * b <= a * c
  {
  }

  /** The step counts and the error term after one more loop iteration
      from (i, j, err): x steps when 2 * err > -dy, y steps when
      2 * err < dx, and the error term loses dy and gains dx accordingly. */
  function NextI(dy: int, i: nat, err: int): nat {
    if 2 * err > -dy then i + 1 else i
  }

  function NextJ(dx: int, j: nat, err: int): nat {
    if 2 * err < dx then j + 1 else j
  }

  function NextErr(dx: int, dy: int, err: int): int {
    err - (if 2 * err > -dy then dy else 0) + (if 2 * err < dx then dx else 0)
  }

  /** Before the end point, one iteration stays within the line, moves in
      x or in y, and keeps the error term in step with the counts. */
  lemma LineAdvance(dx: int, dy: int, i: nat, j: nat)
    requires i <= dx && j <= dy && !(i == dx && j == dy)
    ensures var err := LineError(dx, dy, i, j);
      && NextI(dy, i, err) <= dx && NextJ(dx, j, err) <= dy
      && NextI(dy, i, err) + NextJ(dx, j, err) > i + j
      && NextErr(dx, dy, err) == LineError(dx, dy, NextI(dy, i, err), NextJ(dx, j, err))
  {
    StepBounds(dx, dy, i, j);
    ErrorStep(dx, dy, i, j);
    ErrorStep(dx, dy, i + 1, j);
  }

  /** Whether (p, q) is one loop step from (p0, q0): x moved by 0 or sx,
      y by 0 or sy, and not both by 0. */
  predicate LineStep(p0: Pt, p1: Pt, sx: int, sy: int) {
    && (p1.0 - p0.0 == 0 || p1.0 - p0.0 == sx)
    && (p1.1 - p0.1 == 0 || p1.1 - p0.1 == sy)
    && p1 != p0
  }

  /** The pixels bresenham_line plots from the state reached after i steps
      in x and j steps in y, where the error term is err, in plotting order.
      It ends with (x2, y2), and there are at least max(dx - i, dy - j) + 1 and at most
      (dx - i) + (dy - j) + 1 of them. */
  function LinePathFrom(x1: int, y1: int, x2: int, y2: int, i: nat, j: nat, err: int): (path: seq<Pt>)
    requires i <= Abs(x2 - x1) && j <= Abs(y2 - y1) && err == LineError(Abs(x2 - x1), Abs(y2 - y1), i, j)
    ensures |path| >= 1 && path[0] == (Toward(x1, x2, i), Toward(y1, y2, j))
    ensures path[|path| - 1] == (x2, y2)
    ensures Abs(x2 - x1) - i + 1 <= |path| && Abs(y2 - y1) - j + 1 <= |path|
    ensures |path| <= Abs(x2 - x1) - i + Abs(y2 - y1) - j + 1
    decreases Abs(x2 - x1) - i + Abs(y2 - y1) - j
  {
    var dx: int, dy: int := Abs(x2 - x1), Abs(y2 - y1);
    var p := (Toward(x1, x2, i), Toward(y1, y2, j));
    if i == dx && j == dy then [p]
    else
      LineAdvance(dx, dy, i, j);
      [p] + LinePathFrom(x1, y1, x2, y2, NextI(dy, i, err), NextJ(dx, j, err), NextErr(dx, dy, err))
  }

  /** Every pixel bresenham_line plots, first (x1, y1), last (x2, y2). */
  function LinePath(x1: int, y1: int, x2: int, y2: int): seq<Pt> {
    LinePathFrom(x1, y1, x2, y2, 0, 0, Abs(x2 - x1) - Abs(y2 - y1))
  }

  /** The set of pixels bresenham_line plots from the state reached after
      i steps in x and j steps in y, where the error term is err. */
  function LineSetFrom(x1: int, y1: int, x2: int, y2: int, i: nat, j: nat, err: int): set<Pt>
    requires i <= Abs(x2 - x1) && j <= Abs(y2 - y1) && err == LineError(Abs(x2 - x1), Abs(y2 - y1), i, j)
    decreases Abs(x2 - x1) - i + Abs(y2 - y1) - j
  {
    var dx: int, dy: int := Abs(x2 - x1), Abs(y2 - y1);
    var p := (Toward(x1, x2, i), Toward(y1, y2, j));
    if i == dx && j == dy then {p}
    else
      LineAdvance(dx, dy, i, j);
      {p} + LineSetFrom(x1, y1, x2, y2, NextI(dy, i, err), NextJ(dx, j, err), NextErr(dx, dy, err))
  }

  /** The pixels of the whole line. */
  function LinePixels(x1: int, y1: int, x2: int, y2: int): set<Pt> {
    LineSetFrom(x1, y1, x2, y2, 0, 0, Abs(x2 - x1) - Abs(y2 - y1))
  }

  /** The state of bresenham_line's loop before plotting (x, y): i steps
      taken in x and j in y, the error term that goes with them, and the
      pixels plotted so far, which with those still to come make the line. */
  ghost predicate LineState(x1: int, y1: int, x2: int, y2: int, x: int, y: int, err: int, i: nat, j: nat,
                            drawn: set<Pt>) {
    && i <= Abs(x2 - x1) && j <= Abs(y2 - y1)
    && x == Toward(x1, x2, i) && y == Toward(y1, y2, j)
    && err == LineError(Abs(x2 - x1), Abs(y2 - y1), i, j)
    && drawn + LineSetFrom(x1, y1, x2, y2, i, j, err) == LinePixels(x1, y1, x2, y2)
  }

  /** One iteration of bresenham_line: the pixel it plots is (x2, y2) only
      in the last state, and otherwise the pixels still to come are that
      pixel and those from the next state (i', j', err'). */
  lemma LineSetStep(x1: int, y1: int, x2: int, y2: int, i: nat, j: nat, err: int)
    requires i <= Abs(x2 - x1) && j <= Abs(y2 - y1) && err == LineError(Abs(x2 - x1), Abs(y2 - y1), i, j)
    ensures (Toward(x1, x2, i), Toward(y1, y2, j)) == (x2, y2) <==> i == Abs(x2 - x1) && j == Abs(y2 - y1)
    ensures i == Abs(x2 - x1) && j == Abs(y2 - y1) ==>
      LineSetFrom(x1, y1, x2, y2, i, j, err) == {(x2, y2)}
    ensures !(i == Abs(x2 - x1) && j == Abs(y2 - y1)) ==>
      var i', j', err' := NextI(Abs(y2 - y1), i, err), NextJ(Abs(x2 - x1), j, err), NextErr(Abs(x2 - x1), Abs(y2 - y1), err);
      && i' <= Abs(x2 - x1) && j' <= Abs(y2 - y1) && err' == LineError(Abs(x2 - x1), Abs(y2 - y1), i', j')
      && LineSetFrom(x1, y1, x2, y2, i, j, err)
         == {(Toward(x1, x2, i), Toward(y1, y2, j))} + LineSetFrom(x1, y1, x2, y2, i', j', err')
  {
    var dx: int, dy: int := Abs(x2 - x1), Abs(y2 - y1);
    if !(i == dx && j == dy) {
      LineAdvance(dx, dy, i, j);
    }
  }

  /** The plotted set holds exactly the pixels of the path, so the line
      bresenham_line paints is LinePath. */
  lemma {:induction false} LineSetFromPath(x1: int, y1: int, x2: int, y2: int, i: nat, j: nat, err: int)
    requires i <= Abs(x2 - x1) && j <= Abs(y2 - y1) && err == LineError(Abs(x2 - x1), Abs(y2 - y1), i, j)
    ensures forall p :: p in LineSetFrom(x1, y1, x2, y2, i, j, err) <==> p in LinePathFrom(x1, y1, x2, y2, i, j, err)
    decreases Abs(x2 - x1) - i + Abs(y2 - y1) - j
  {
    var dx: int, dy: int := Abs(x2 - x1), Abs(y2 - y1);
    if !(i == dx && j == dy) {
      var i', j', err' := LineUnfold(x1, y1, x2, y2, i, j, err);
      LineSetFromPath(x1, y1, x2, y2, i', j', err');
    }
  }

  /** bresenham_line paints exactly the pixels of LinePath. */
  lemma LinePixelsPath(x1: int, y1: int, x2: int, y2: int)
    ensures forall p :: p in LinePixels(x1, y1, x2, y2) <==> p in LinePath(x1, y1, x2, y2)
  {
    LineSetFromPath(x1, y1, x2, y2, 0, 0, Abs(x2 - x1) - Abs(y2 - y1));
  }

  /** From one state to the next, bresenham_line moves x by 0 or sx and y
      by 0 or sy, never by 0 in both. */
  lemma {:induction false} LinePathFromSteps(x1: int, y1: int, x2: int, y2: int, i: nat, j: nat, err: int)
    requires i <= Abs(x2 - x1) && j <= Abs(y2 - y1) && err == LineError(Abs(x2 - x1), Abs(y2 - y1), i, j)
    ensures var path := LinePathFrom(x1, y1, x2, y2, i, j, err);
      forall k :: 0 <= k < |path| - 1 ==>
        LineStep(path[k], path[k + 1], Dir(x1, x2), Dir(y1, y2))
    decreases Abs(x2 - x1) - i + Abs(y2 - y1) - j
  {
    var dx: int, dy: int := Abs(x2 - x1), Abs(y2 - y1);
    if !(i == dx && j == dy) {
      var i', j', err' := LineUnfold(x1, y1, x2, y2, i, j, err);
      LinePathFromSteps(x1, y1, x2, y2, i', j', err');
    }
  }

  /** One step of the path: the first pixel, then the path from the state
      the loop body produces. */
  lemma LineUnfold(x1: int, y1: int, x2: int, y2: int, i: nat, j: nat, err: int)
    returns (i': nat, j': nat, err': int)
    requires i <= Abs(x2 - x1) && j <= Abs(y2 - y1) && err == LineError(Abs(x2 - x1), Abs(y2 - y1), i, j)
    requires !(i == Abs(x2 - x1) && j == Abs(y2 - y1))
    ensures i' == NextI(Abs(y2 - y1), i, err) && j' == NextJ(Abs(x2 - x1), j, err)
    ensures err' == NextErr(Abs(x2 - x1), Abs(y2 - y1), err)
    ensures i' <= Abs(x2 - x1) && j' <= Abs(y2 - y1) && err' == LineError(Abs(x2 - x1), Abs(y2 - y1), i', j')
    ensures Abs(x2 - x1) - i' + Abs(y2 - y1) - j' < Abs(x2 - x1) - i + Abs(y2 - y1) - j
    ensures LinePathFrom(x1, y1, x2, y2, i, j, err)
         == [(Toward(x1, x2, i), Toward(y1, y2, j))] + LinePathFrom(x1, y1, x2, y2, i', j', err')
  {
    LineAdvance(Abs(x2 - x1), Abs(y2 - y1), i, j);
    i', j', err' := NextI(Abs(y2 - y1), i, err), NextJ(Abs(x2 - x1), j, err), NextErr(Abs(x2 - x1), Abs(y2 - y1), err);
  }

  /** The line starts at (x1, y1), ends at (x2, y2), and each pixel is one
      step from the previous one: x moves by 0 or sx, y by 0 or sy, and the
      pixel changes, so consecutive pixels are 8-neighbours. */
  lemma LinePathEnds(x1: int, y1: int, x2: int, y2: int)
    ensures var path := LinePath(x1, y1, x2, y2);
      && path[0] == (x1, y1) && path[|path| - 1] == (x2, y2)
      && forall k :: 0 <= k < |path| - 1 ==> LineStep(path[k], path[k + 1], Dir(x1, x2), Dir(y1, y2))
  {
    assert LinePath(x1, y1, x2, y2) == LinePathFrom(x1, y1, x2, y2, 0, 0, Abs(x2 - x1) - Abs(y2 - y1));
    assert (Toward(x1, x2, 0), Toward(y1, y2, 0)) == (x1, y1);
    LinePathFromSteps(x1, y1, x2, y2, 0, 0, Abs(x2 - x1) - Abs(y2 - y1));
  }

}
