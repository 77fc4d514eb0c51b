# Graphics teaching programs: verified model of the drawing algorithms

This project models in Dafny the algorithmic core of five small Tkinter
graphics programs, and proves what each algorithm promises.

- **exp1.py (module `Raster`).** A pixel canvas with four routines and two
  pixel helpers:
  - `bresenham_line`, the Bresenham line;
  - `midpoint_ellipse`, the two-region midpoint ellipse;
  - `scan_line_fill`, the scan-line polygon fill;
  - `flood_fill_four_connected`, a queue-based 4-connected flood fill;
  - the bounds-checked `put_pixel` and `get_pixel_color`.

  The canvas is a class whose `image` is an 800×600 `array2` of RGB colours
  indexed `[x, y]`, as the image library addresses it. Every routine is a
  method with loop invariants. Each one states the whole new image:
  - one set of pixels takes the colour;
  - every other pixel keeps its old colour.

  Each set of pixels is given by its own specification function:
  - `LinePixels`;
  - the mirror images of `EllipseOffsets`;
  - `ScanFilled`;
  - the 4-connected region `Connected`.
- **exp4.py (module `Tracer`).** A recursive ray tracer over one sphere and
  one checkerboard floor:
  - vector algebra, reflection, sphere and floor intersection, the checker
    colour, Phong-style lighting and the recursive `trace_ray` are pure
    functions over `real`;
  - `render_scene`, which fills the pixel buffer, is a method of the class
    `Renderer`.
- **exp2_new.py (module `Curves`).**
  - The de Casteljau layering and the `casteljau_curve` / `bezier_curve`
    sampling loops.
  - The knot-indicator basis functions `N`, `N1`, `N2` and the
    `uniform_bspline` sampling loop.
- **exp2_newest.py (module `CurveGen`).**
  - The integer binomial loop `comb` and the Bernstein weights.
  - The sampling loops of `draw_bezier` and `draw_bspline`.
  - The guard of `generate_curve`.
- **exp3.py (module `Koch`).** The recursive Koch-curve point generator.

`Plane` (2D points, linear interpolation) and `Numeric` (powers, clamping and
small real-arithmetic facts) are shared helpers.

Numbers the programs compute as floating point are exact `real`s here. The
square root is a parameter `sqrt: real -> real`, constrained by the
predicate `IsSqrt` wherever a result depends on it. `tan(fov/2)` and the
Koch rotation's cosine and sine are parameters as well. When NumPy would
produce NaN or Python would raise, the model returns a `None`/`Failed`
result:
- normalising the zero vector;
- `min()` of an empty sequence in `sphere_intersect`.

## Model

| member | source | states |
|---|---|---|
| Raster.Canvas.constructor | exp1.py:13-15 | the canvas is 800×600 and starts all white |
| Raster.Canvas.PutPixel | exp1.py:68-70 | an on-canvas (x, y) takes the colour; every other pixel is unchanged, so an off-canvas call changes nothing |
| Raster.Canvas.BresenhamLine | exp1.py:76-95 | exactly the on-canvas pixels of `LinePixels(x1, y1, x2, y2)` take the colour; all others keep theirs |
| Raster.Canvas.LineVisit | exp1.py:85-94 | one loop turn: the pixel at (x, y) is painted; at the end point the painted set is the whole line, otherwise the new position, step counts and error term are the next loop state and the steps still to take drop |
| Raster.Canvas.PaintPixel | exp1.py:68-70 | painting a pixel adds it to the set of painted pixels: those carry the colour, all others keep their colour from before |
| Raster.LineSetStep | exp1.py:86-94 | one loop turn: the pixel reached is the end point iff the step counters are at dx and dy; the remaining set is the current pixel plus the rest |
| Raster.LineAdvance | exp1.py:88-94 | before the end point, one turn moves x or y (or both), never past x2 or y2, and keeps the error term equal to dx·(1 + j) − dy·(1 + i) |
| Raster.LinePathEnds | exp1.py:83-94 | the plotted path starts at (x1, y1) and ends at (x2, y2); consecutive pixels differ by a step of 0 or sx in x and 0 or sy in y, not both zero (8-neighbours) |
| Raster.LineSetFromPath | exp1.py:84-94 | the set of plotted pixels is exactly the set of pixels on the path |
| Raster.LinePixelsPath | exp1.py:84-94 | `LinePixels` holds exactly the pixels of `LinePath` |
| Raster.LinePathFrom | exp1.py:84-94 | the path from a loop state starts at that state's pixel and ends at (x2, y2); its length is at least each remaining step count plus one and at most their sum plus one |
| Raster.LinePathFromSteps | exp1.py:88-94 | every step of the path moves x by 0 or sx and y by 0 or sy, and moves |
| Raster.LineUnfold | exp1.py:84-94 | one loop turn: the next state is the one the loop body computes, it keeps the error invariant, the remaining step count drops, and the path is the current pixel followed by the path from the next state |
| Raster.LineErrorClosed | exp1.py:81-94 | after i x-steps and j y-steps the error term equals dx - dy + j·dx - i·dy |
| Raster.StepBounds | exp1.py:88-94 | before the end point the loop never steps past dx x-steps or dy y-steps |
| Raster.ErrorStep | exp1.py:89-94 | one turn changes err by -dy for an x-step and +dx for a y-step |
| Raster.Canvas.PlotMirrors | exp1.py:107-110 | the offset (x, y) is painted at all four mirror positions (cx ± x, cy ± y) and nothing else changes |
| Raster.Canvas.MidpointEllipse | exp1.py:97-144 | exactly the on-canvas mirror images of `EllipseOffsets(a, b)` take the colour |
| Raster.Canvas.EllipseRegion1 | exp1.py:98-121 | region 1 keeps dx == 2b²x and dy == 2a²y, paints the mirror images of its offsets, and ends in the state `Region1` names |
| Raster.Canvas.EllipseRegion2 | exp1.py:123-143 | region 2 keeps dx == 2b²x and dy == 2a²y, terminates on decreasing y, and paints the mirror images of its offsets |
| Raster.Region1Facts | exp1.py:106-121 | region 1 plots only offsets right of the start x with 0 < y' <= y; it ends with dx >= dy and the invariants kept, and plots its start point when it runs at all |
| Raster.Region2Facts | exp1.py:128-143 | region 2 plots only offsets with x' >= x and 0 <= y' <= y; it plots nothing when y < 0, and otherwise plots its start point and a point on the x axis |
| Raster.EllipseArc | exp1.py:97-143 | every offset lies in the quadrant x >= 0, 0 <= y <= b; for b >= 0 the arc contains the top point (0, b) and a point (ox, 0) on the axis; for b < 0 nothing is plotted |
| Raster.Canvas.ScanLineFill | exp1.py:146-178 | with fewer than three vertices no pixel changes; otherwise exactly the on-canvas pixels `ScanFilled` names take the colour |
| Raster.ScanFilledInBox | exp1.py:152-177 | a filled pixel lies on a row between min_y and max_y, and between the smallest and the largest vertex x |
| Raster.MinY | exp1.py:152 | the minimum vertex y: no vertex is lower and some vertex attains it |
| Raster.MaxY | exp1.py:153 | the maximum vertex y: no vertex is higher and some vertex attains it |
| Raster.Canvas.FillRow | exp1.py:172-177 | on row y exactly the pixels of the pair spans of the crossings take the colour; an unpaired last crossing paints nothing |
| Raster.Canvas.FillSpan | exp1.py:176-177 | exactly pixels lo..hi of row y take the colour |
| Raster.RowCrossings | exp1.py:157-166 | the crossing loop returns `Crossings(points, y)`, at most one per edge |
| Raster.EdgeCrossingFacts | exp1.py:161-166 | a horizontal edge gives no crossing; an edge crosses row y iff y lies between its end y values and it is not horizontal; the crossing x lies between the edge's end x values and equals the vertex x at a vertex row |
| Raster.CrossingSource | exp1.py:160-166 | every crossing in the list is the crossing of row y with one of the edges |
| Raster.Interpolate | exp1.py:165 | the interpolated x lies between the two end x values and equals x1 at y == y1 |
| Raster.Floor | exp1.py:175 | math.floor: f <= r < f + 1 |
| Raster.Ceil | exp1.py:174 | math.ceil: r <= c < r + 1 |
| Raster.InsertReal | exp1.py:169 | inserting into a sorted list keeps it sorted and adds one element; the new head is x or the old head |
| Raster.InsertRealPermutes | exp1.py:169 | insertion adds x to the multiset of the list |
| Raster.SortReals | exp1.py:169 | the sorted list is sorted and has the input's length |
| Raster.SortRealsPermutes | exp1.py:169 | the sorted list is a permutation of the input |
| Raster.SortRealsUnique | exp1.py:169 | any sorted permutation of the input equals `SortReals`, so the result is the one `list.sort` gives |
| Raster.SortedUnique | exp1.py:169 | two sorted lists with the same multiset are equal |
| Raster.SortedFirst | exp1.py:169 | the first element of a sorted list is at most every element |
| Raster.Spans | exp1.py:172-175 | one span per complete pair of crossings: span k runs from ceil(xs[2k]) to floor(xs[2k+1]) |
| Raster.InSpansSnoc | exp1.py:172-177 | appending a span adds exactly its pixels |
| Raster.SpansSnoc | exp1.py:172-175 | the spans of a longer prefix of the crossings are the spans of the shorter one plus the next pair's span |
| Raster.ScanVertexGap | exp1.py:163 | with the inclusive test, the diamond (5,0),(10,5),(5,10),(0,5) leaves its centre (5, 5) unfilled while (5, 4) and (5, 6) are filled |
| Raster.DiamondSpans | exp1.py:160-175 | row 5 of the diamond has the sorted crossings 0, 0, 10, 10, whose spans are 0..0 and 10..10; rows 4 and 6 give the single span 1..9 |
| Raster.DiamondRows | exp1.py:160-175 | in edge order, the crossings of the diamond are 10, 10, 0, 0 on row 5 and 9, 1 on rows 4 and 6 |
| Raster.SortedFour | exp1.py:169 | sorting hi, hi, lo, lo with lo <= hi yields lo, lo, hi, hi |
| Raster.HalfOpenParity | exp1.py:160-166 | under the half-open rule (min <= y < max) the number of crossings over the first m edges has the parity of whether row y separates vertex 0 from vertex m |
| Raster.HalfOpenCrossingsEven | exp1.py:160-166 | under the half-open rule every row of a closed polygon has an even number of crossings |
| Raster.HalfOpenDiamond | exp1.py:160-175 | under the half-open rule the spans of row 5 of the diamond cover the centre x = 5 |
| Raster.Canvas.FloodFillFourConnected | exp1.py:180-199 | nothing changes when the seed already has the fill or the boundary colour; otherwise exactly the pixels joined to the seed by a 4-connected path of seed-coloured pixels become the fill colour, every other pixel keeps its colour, and boundary-coloured pixels are never written |
| Raster.Canvas.FloodVisit | exp1.py:189-198 | one pop of the queue keeps the painting and the frontier invariants and fills one more pixel or shortens the queue (the termination measure) |
| Raster.Canvas.GetPixelColor | exp1.py:201-203 | returns the colour of an on-canvas pixel; the on-canvas requires stands for the image library's IndexError on any other pixel |
| Raster.Canvas.Snapshot | exp1.py:182-192 | the image as a value, pixel for pixel equal to the canvas |
| Raster.ColourSet | exp1.py:182-183 | the finite set of the on-canvas pixels of the seed colour, whose size bounds the fills |
| Raster.ConnectedColour | exp1.py:192-193 | every pixel of the region, seed included, is on the canvas and has the seed colour |
| Raster.ConnectedExtend | exp1.py:195-198 | a seed-coloured 4-neighbour of a region pixel is in the region |
| Raster.EnqueuedConnected | exp1.py:192-198 | a seed-coloured pixel taken from the queue belongs to the region |
| Raster.SettledStep | exp1.py:190-198 | popping the head and appending keeps every settled neighbour settled |
| Raster.ClosedStep | exp1.py:193-198 | every filled pixel keeps its four neighbours settled |
| Raster.EnqueuedStep | exp1.py:195-198 | every queued pixel is the seed or a neighbour of a filled pixel |
| Raster.FillStep | exp1.py:192-198 | filling the head and queueing its neighbours keeps the frontier and removes one seed-coloured pixel |
| Raster.FillRemaining | exp1.py:193-194 | filling a pixel of the target colour takes it out of the set of pixels still to fill, which shrinks |
| Raster.FillInRegion | exp1.py:190-194 | a target-coloured pixel taken from the queue joins the filled set without leaving the seed's region |
| Raster.FillClosed | exp1.py:194-198 | the filled pixel's four neighbours are settled once they are queued |
| Raster.SkipStep | exp1.py:190-193 | dropping an off-canvas, filled or other-coloured head keeps the frontier |
| Raster.FilledRegion | exp1.py:189-198 | when the queue is empty the filled pixels are exactly the seed's 4-connected region |
| Raster.PathInFilled | exp1.py:189-198 | a seed-coloured 4-path that starts in the filled set ends in it |
| Tracer.Normalize | exp4.py:52-53 | None exactly for the zero vector; otherwise a unit vector that, scaled by the norm, gives back the input |
| Tracer.DivideByLength | exp4.py:53 | dividing by the length gives a unit vector that, scaled back, gives the input |
| Tracer.NormProperties | exp4.py:53 | the norm is non-negative, squares to v·v, and is zero iff v is zero |
| Tracer.ReflectProperties | exp4.py:55-56 | for a unit normal n: reflect(v, n)·n == -(v·n), the length is kept, and reflecting twice gives v back |
| Tracer.DefaultScene | exp4.py:20-50 | the program's scene has a positive checker size, reflectivities in [0, 1], a positive radius, and a light off the floor plane |
| Tracer.PickRoot | exp4.py:69-72 | a miss iff both roots are negative; the min() error iff neither is positive otherwise; a hit is one of the roots, positive and not above any positive root |
| Tracer.SphereIntersectSpec | exp4.py:58-72 | sphere_intersect misses iff every root of t² + bt + c is negative; a hit is the smallest positive root; the error case is exactly the largest root being 0 |
| Tracer.QuadraticHitSpec | exp4.py:61-72 | the discriminant test and root choice meet `NearestRoot` for any b, c |
| Tracer.NoRootSelection | exp4.py:63-64 | a negative discriminant means no root, so a miss is correct |
| Tracer.RootSelection | exp4.py:66-72 | with both roots computed, `PickRoot` meets `NearestRoot` |
| Tracer.RootsExactly | exp4.py:66-67 | t1 <= t2, and t is a root iff t is t1 or t2 |
| Tracer.RootsAreT1T2 | exp4.py:66-67 | t² + bt + c factors as (t - t1)(t - t2) |
| Tracer.NoRealRoot | exp4.py:63-64 | a negative discriminant leaves no real root |
| Tracer.SphereRootOnSurface | exp4.py:58-60 | for a unit direction a root t puts origin + t·d on the sphere |
| Tracer.SphereCoefficients | exp4.py:59-60 | b == 2·d·(o - c) and c == \|o - c\|² - r² |
| Tracer.FloorIntersect | exp4.py:74-79 | no hit when \|d.y\| < 1e-6; a returned t is positive and o.y + t·d.y equals the floor height; a positive solution is always returned |
| Tracer.CheckerAlternates | exp4.py:81-87 | moving one checker size along x switches between the full and the halved floor colour (unless the floor colour is black) |
| Tracer.Clip01 | exp4.py:106 | np.clip(·, 0, 1): every channel lands in [0, 1]; in-range vectors are unchanged |
| Tracer.Intensity | exp4.py:90-104 | the intensity is at least ambient + max(n·l, 0); the specular term is added only when specular > 0 |
| Tracer.ComputeLighting | exp4.py:89-106 | None iff the point is the light position (normalize of zero); otherwise every channel is in [0, 1] |
| Tracer.Blend | exp4.py:160 | reflectivity 0 gives the lit colour; reflectivity 1 gives the reflected colour |
| Tracer.BlendInUnitCube | exp4.py:160 | a blend with a factor in [0, 1] of colours in [0, 1] stays in [0, 1] |
| Tracer.SphereSurface | exp4.py:129-143 | a sphere hit lies at origin + t·d with the sphere's material and a unit normal; it fails iff that point is the centre |
| Tracer.FloorSurface | exp4.py:122-149 | a floor hit lies at floor height, faces up and takes the checker colour |
| Tracer.ClosestSurface | exp4.py:118-149 | no hit iff neither surface is hit; the chosen hit is the nearer, the sphere wins a tie, and it carries that surface's material; the floor is shaded whenever it is the only or the strictly nearer hit; failure happens exactly on the min() error or a sphere hit at the sphere's centre |
| Tracer.Trace | exp4.py:108-162 | black when depth <= 0 or nothing is hit; a failed hit gives no colour; with reflectivities in [0, 1] every returned channel is in [0, 1] |
| Tracer.ReflectedRayIsUnit | exp4.py:157 | the reflected ray of a unit ray at a hit is again a unit vector |
| Tracer.NoReflectionOneBounce | exp4.py:156-159 | with no reflective surface any depth >= 1 gives the same colour as depth 1 |
| Tracer.Clip255 | exp4.py:177 | every channel of the stored colour is in [0, 255] |
| Tracer.Clip255Scales | exp4.py:177 | a colour in [0, 1] is stored as exactly 255 times itself |
| Tracer.ScreenPoint | exp4.py:171-173 | the screen point lies on the plane z = 1 and is non-zero |
| Tracer.PrimaryRay | exp4.py:171-173 | the primary ray is the unit vector in the screen point's direction, pointing forward (z > 0) |
| Tracer.PixelValueTraced | exp4.py:170-177 | a pixel value fails iff the trace fails; otherwise it is in [0, 255] per channel and, for reflectivities in [0, 1], equals 255 times the traced colour |
| Tracer.Renderer.constructor | exp4.py:17-24 | given tan(fov/2)² = 1/3 (the 60° field of view), the buffer is 600×800 and black, and the scene is the program's |
| Tracer.Renderer.RenderScene | exp4.py:164-177 | if every pixel traces, every cell (y, x) holds that pixel's clipped value; otherwise the cells before the first failing pixel (row-major) are written and the rest are untouched |
| Tracer.Renderer.RenderRow | exp4.py:169-177 | one row: the pixels before the first failure are written, and every other cell is unchanged |
| Tracer.Renderer.ComputePixel | exp4.py:171-177 | the value computed for pixel (x, y) is the renderer's table entry for it, and a traced value lies in [0, 255] on every channel |
| Numeric.Clamp | exp4.py:177 | the result lies in [lo, hi]; in-range values are unchanged; out-of-range values go to the nearer bound |
| Numeric.Max0 | exp4.py:97-103 | max(v, 0) is non-negative, at least v, and v itself when v >= 0 |
| Numeric.PowNonNegative | exp4.py:103 | a power of a non-negative base is non-negative |
| Plane.Lerp | exp2_new.py:128-129 | the interpolation gives p at t = 0, q at t = 1 and the midpoint at t = 1/2 |
| Curves.Step | exp2_new.py:126-130 | one de Casteljau round has one point fewer |
| Curves.DeCasteljau | exp2_new.py:120-133 | layers[0] is the input; there are len(points) layers; layer k has len - k points, each the lerp of two neighbours of layer k - 1; the last layer is the single point `Reduce` names |
| Curves.LerpRound | exp2_new.py:125-130 | the inner loop builds `Step(points, t)`: len − 1 points, each the lerp of two neighbours |
| Curves.ReduceEnds | exp2_new.py:128-138 | the reduced point is the first control point at t = 0 and the last at t = 1 |
| Curves.CasteljauCurve | exp2_new.py:116-139 | nothing below two control points; otherwise 101 points, the k-th the de Casteljau point at k/100, starting at the first control point and ending at the last |
| Curves.BezierCurve | exp2_new.py:93-109 | nothing below two control points; otherwise 101 Bernstein-sum points from the first control point to the last |
| Curves.Knots | exp2_new.py:76-77 | the knot vector has n + 3 entries, starts at 0, ends at n + 2 and rises by exactly 1 from each knot to the next |
| Curves.UniformIndicator | exp2_new.py:53-56 | N(t, i) is 1 exactly when i <= t < i + 1 and 0 otherwise; two different indicators are never both 1 |
| Curves.N1NonNegative | exp2_new.py:67-74 | N1 is non-negative on a nondecreasing knot vector; the zero-width guards stop any division by zero |
| Curves.N2Support | exp2_new.py:58-65 | N2 vanishes outside [knots[i], knots[i+3]) |
| Curves.BasisCombination | exp2_new.py:81-86 | the inner loop computes the N2-weighted sum of the control points |
| Curves.UniformBSpline | exp2_new.py:49-86 | nothing below three control points; otherwise 100·(n - 1) points, the k-th the B-spline point at 2 + k/100 |
| CurveGen.Comb | exp2_newest.py:118-127 | 0 for k < 0 or k > n, 1 for k == 0 or k == n, and the binomial coefficient C(n, k) otherwise |
| CurveGen.BinomialStep | exp2_newest.py:125-126 | (j + 1)·C(n, j + 1) == (n - j)·C(n, j), so c·(n - j) is divisible by j + 1 at every step |
| CurveGen.BinomialSymmetric | exp2_newest.py:123 | C(n, k) == C(n, n - k), which justifies the min(k, n - k) reduction |
| CurveGen.BernsteinSign | exp2_newest.py:116-129 | the weight is 0 for i outside 0..n and non-negative for t in [0, 1] |
| CurveGen.BezierSumAtZero | exp2_newest.py:103-107 | at t = 0 the partial weighted sum is the first control point |
| CurveGen.BezierSumAtOne | exp2_newest.py:103-107 | at t = 1 the partial sums are zero until the last term, which gives the last control point |
| CurveGen.BezierEndpoints | exp2_newest.py:100-108 | the Bézier point is the first control point at t = 0 and the last at t = 1 |
| CurveGen.BernsteinCombination | exp2_newest.py:101-107 | the inner loop computes the Bernstein-weighted sum |
| CurveGen.DrawBezier | exp2_newest.py:94-108 | 100 points, the k-th the Bézier point at k/99, from the first control point to the last |
| CurveGen.QuadWeights | exp2_newest.py:78-84 | the three blending weights sum to 1 for every t and are non-negative on [0, 1] |
| CurveGen.QuadBlend | exp2_newest.py:78-84 | a segment starts at the midpoint of P_i and P_i+1 and ends at the midpoint of P_i+1 and P_i+2 |
| CurveGen.Segment | exp2_newest.py:77-86 | one segment has 100 points |
| CurveGen.Segments | exp2_newest.py:74-86 | m segments have 100·m points |
| CurveGen.BSplineSamples | exp2_newest.py:65-86 | the curve has 100·(len - 2) points |
| CurveGen.SegmentsJoin | exp2_newest.py:77-84 | segment i ends where segment i + 1 starts, at the midpoint of P_i+1 and P_i+2 |
| CurveGen.SegmentsPrefix | exp2_newest.py:74-86 | the first k segments are a prefix of the first m |
| CurveGen.DrawBSpline | exp2_newest.py:65-86 | the loop builds `BSplineSamples`, whose guard i + 2 <= n always holds; with three or more points the curve runs from the first midpoint to the last |
| CurveGen.GenerateCurve | exp2_newest.py:56-63 | nothing below three control points; otherwise the curve of the selected mode |
| Koch.KochCurvePoints | exp3.py:40-67 | 4^depth + 1 points, the first being start and the last end; depth 0 gives [start, end] |
| Koch.KochJoints | exp3.py:45-67 | the sub-curves join at one third, the peak and two thirds of the segment |

## Left out

- Everything on screen is left out: the Tkinter windows, buttons, sliders and
  mouse handlers; mode dispatch; `create_line` / `create_oval` /
  `create_rectangle`; `update_canvas`; `messagebox` dialogs (an early return
  is modelled instead); and `display_buffer`'s hex conversion.
- `clear_canvas` (exp1.py:56-66) is left out. It re-creates the white image,
  which is what `Raster.Canvas.constructor` states.
- `draw_fern` (exp3.py) is left out: it is driven by random numbers.
- The unused `z_buffer` (exp4.py:18) is left out. `light_color` is carried
  as `Scene.lightColor` with the program's value (1, 1, 1), but, as in the
  program, the shading never reads it.
- Floating point is modelled as exact reals, with no rounding, overflow or
  NaN:
  - `np.arange` / `np.linspace` steps are the exact values k/100 and k/99;
  - `int()` and `math.floor` / `math.ceil` act on exact values.
- `sqrt`, `tan(fov/2)` and the Koch rotation's `cos` / `sin` are parameters.
  Only the property each result needs is assumed: `IsSqrt`, and tan² = 1/3
  for the renderer.
- `np.linalg.norm` is modelled through `sqrt` of the dot product.
- The scipy `comb` used by `bezier_curve` is a foreign library. The model
  uses `CurveGen.Binomial` (Pascal's rule), which the loop `CurveGen.Comb`
  is proved to compute.
- `Raster.SortReals`: Python's `list.sort` is modelled as insertion sort.
  `Raster.SortRealsUnique` shows that any sorted permutation is the same
  list.
- Koch.KochCurvePoints requires depth >= 0. A negative depth never reaches
  the base case in the program and recurses until Python's stack limit.
- Curves.N2 is modelled as written. It is not the textbook quadratic basis,
  so no partition of unity is claimed. Where the program would divide by
  zero (t[i+2] == t[i+1] with t[i+2] != t[i]), the model returns 0. This
  never happens on the program's knot vector 0..n+2.
- Raster.Canvas.FloodFillFourConnected requires the seed to be on the canvas.
  `get_pixel_color` raises for any other seed.
- Tracer.Normalize returns None for the zero vector, where NumPy would give
  NaN and carry on. Every consumer treats None as a failed pixel.
- Tracer.Renderer.RenderScene stops at the first failed pixel. For the
  `EmptyMin` failure this is what the program does: `min()` of no positive
  root (exp4.py:72) raises ValueError and leaves the cells written so far.
  The model differs only for the NaN failures, a zero vector normalised at
  exp4.py:53, where the program would store NaN and continue.

## Findings

| source | as written | input that shows it | evidently intended | confidence | as-written member | corrected member |
|---|---|---|---|---|---|---|
| exp1.py:163 | an edge counts as crossing row y when min(y1, y2) <= y <= max(y1, y2), so a vertex that is a local extreme counts twice and an ordinary vertex row counts both edges | the diamond (5,0), (10,5), (5,10), (0,5): row 5 gives the crossings 0, 0, 10, 10, paired as 0..0 and 10..10, so the centre (5, 5) stays unfilled although rows 4 and 6 are filled across | the half-open rule min <= y < max, which gives every row an even crossing count and fills row 5 from 0 to 10 | not executed | Raster.ScanVertexGap | Raster.HalfOpenCrossingsEven |
