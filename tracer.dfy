/** The 3D scene renderer: a recursive ray tracer over one sphere and one
    checkerboard floor lit by one point light. Arithmetic is exact over the
    reals; the square root is a parameter `sqrt` whose defining property,
    IsSqrt, is demanded wherever a result depends on it. */
module Tracer {
  import opened Numeric

  // ---------------------------------------------------------------------
  // Vectors

  datatype Vec3 = Vec3(x: real, y: real, z: real)

  const Black := Vec3(0.0, 0.0, 0.0)

  function Add(a: Vec3, b: Vec3): Vec3 { Vec3(a.x + b.x, a.y + b.y, a.z + b.z) }
  function Sub(a: Vec3, b: Vec3): Vec3 { Vec3(a.x - b.x, a.y - b.y, a.z - b.z) }
  function Neg(a: Vec3): Vec3 { Vec3(-a.x, -a.y, -a.z) }
  /** numpy's vector * scalar. */
  function Scale(a: Vec3, k: real): Vec3 { Vec3(a.x * k, a.y * k, a.z * k) }
  function Dot(a: Vec3, b: Vec3): real { a.x * b.x + a.y * b.y + a.z * b.z }

  ghost predicate IsSqrt(sqrt: real -> real) {
    forall v :: v >= 0.0 ==> sqrt(v) >= 0.0 && sqrt(v) * sqrt(v) == v
  }

  /** The squared length is never negative and is zero only for the zero
      vector. */
  lemma DotSelfPositive(v: Vec3)
    ensures Dot(v, v) >= 0.0
    ensures v != Black ==> Dot(v, v) > 0.0
  {
    SquaresZero(v.x, v.y, v.z, Dot(v, v));
  }

  lemma SquareNonNegative(a: real)
    ensures a * a >= 0.0
  {
    if a != 0.0 { SquarePositive(a); }
  }

  /** np.linalg.norm. */
  function Norm(sqrt: real -> real, v: Vec3): real {
    sqrt(Dot(v, v))
  }

  /** The length is non-negative, squares to the squared length, and is zero
      exactly for the zero vector. */
  lemma NormProperties(sqrt: real -> real, v: Vec3)
    requires IsSqrt(sqrt)
    ensures Norm(sqrt, v) >= 0.0 && Norm(sqrt, v) * Norm(sqrt, v) == Dot(v, v)
    ensures Norm(sqrt, v) == 0.0 <==> v == Black
  {
    DotSelfPositive(v);
    SqrtOf(sqrt, Dot(v, v));
    RootZero(Norm(sqrt, v), Dot(v, v));
  }

  lemma SqrtOf(sqrt: real -> real, a: real)
    requires IsSqrt(sqrt) && a >= 0.0
    ensures sqrt(a) >= 0.0 && sqrt(a) * sqrt(a) == a
  {
  }

  /** normalize: v divided by its length. For the zero vector numpy divides
      zero by zero and yields NaN; that outcome is None here. */
  function Normalize(sqrt: real -> real, v: Vec3): (r: Option<Vec3>)
    requires IsSqrt(sqrt)
    ensures r.None? <==> v == Black
    ensures r.Some? ==> Dot(r.value, r.value) == 1.0
    ensures r.Some? ==> Norm(sqrt, v) > 0.0 && Scale(r.value, Norm(sqrt, v)) == v
  {
    NormProperties(sqrt, v);
    var n := Norm(sqrt, v);
    if n == 0.0 then None
    else Some(DivideByLength(v, n))
  }

  /** v / n for n the length of v: a unit vector that n scales back to v. */
  function DivideByLength(v: Vec3, n: real): (u: Vec3)
    requires n > 0.0 && n * n == Dot(v, v)
    ensures Dot(u, u) == 1.0 && Scale(u, n) == v
  {
    UnitAfterDivision(v, n);
    Vec3(v.x / n, v.y / n, v.z / n)
  }

  lemma UnitAfterDivision(v: Vec3, n: real)
    requires n > 0.0 && n * n == Dot(v, v)
    ensures var u := Vec3(v.x / n, v.y / n, v.z / n);
      Dot(u, u) == 1.0 && Scale(u, n) == v
  {
    var k := 1.0 / n;
    DivMul(1.0, n);
    DotScale(v, k);
    ReciprocalSquare(Dot(v, v), n, k);
    DivRecip(v.x, n);
    DivRecip(v.y, n);
    DivRecip(v.z, n);
    assert Scale(v, k) == Vec3(v.x / n, v.y / n, v.z / n);
    DivMul(v.x, n);
    DivMul(v.y, n);
    DivMul(v.z, n);
  }

  lemma DotScale(u: Vec3, n: real)
    ensures Dot(Scale(u, n), Scale(u, n)) == Dot(u, u) * (n * n)
  {
  }

  /** The mirror image of v in the plane with normal n. */
  function Reflect(v: Vec3, n: Vec3): Vec3 {
    Sub(v, Scale(n, 2.0 * Dot(v, n)))
  }

  /** For a unit normal the reflection flips the normal component, keeps the
      length, and undoes itself. */
  lemma ReflectProperties(v: Vec3, n: Vec3)
    requires Dot(n, n) == 1.0
    ensures Dot(Reflect(v, n), n) == -Dot(v, n)
    ensures Dot(Reflect(v, n), Reflect(v, n)) == Dot(v, v)
    ensures Reflect(Reflect(v, n), n) == v
  {
    var k := Dot(v, n);
    var r := Reflect(v, n);
    assert Dot(r, n) == k - 2.0 * k * Dot(n, n);
    assert Dot(r, r) == Dot(v, v) - 4.0 * k * k + 4.0 * k * k * Dot(n, n);
  }

  // ---------------------------------------------------------------------
  // Scene

  datatype Sphere = Sphere(center: Vec3, radius: real, color: Vec3, specular: int, reflectivity: real)

  datatype Floor = Floor(y: real, color: Vec3, specular: int, reflectivity: real)

  /** The renderer's scene parameters; lightColor is declared by the program
      but never read by the shading. */
  datatype Scene = Scene(camera: Vec3, lightPos: Vec3, lightColor: Vec3, ambient: real,
                         sphere: Sphere, floor: Floor, checkerSize: real)

  /** The checker size divides the floor coordinates, so it must not be
      zero (get_floor_color would raise ZeroDivisionError); the program uses
      1.0. */
  predicate ValidScene(s: Scene) {
    s.checkerSize > 0.0
  }

  /** Reflectivities are fractions, as the blend of trace_ray assumes. */
  predicate Fractions(s: Scene) {
    0.0 <= s.sphere.reflectivity <= 1.0 && 0.0 <= s.floor.reflectivity <= 1.0
  }

  /** The scene the program builds in its constructor and init_scene. */
  function DefaultScene(): (s: Scene)
    ensures ValidScene(s) && Fractions(s)
    ensures s.sphere.radius > 0.0 && s.lightPos.y != s.floor.y
  {
    Scene(Vec3(0.0, 2.0, -6.0), Vec3(5.0, 5.0, -5.0), Vec3(1.0, 1.0, 1.0), 0.1,
          Sphere(Vec3(0.0, 0.0, 0.0), 1.0, Vec3(0.7, 0.3, 0.3), 50, 0.3),
          Floor(-1.0, Vec3(0.5, 0.5, 0.5), 10, 0.1),
          1.0)
  }

  // ---------------------------------------------------------------------
  // Intersections

  /** The result of sphere_intersect: no hit, the nearest positive root, or
      the ValueError that min() raises when no root is strictly positive
      although not both are negative. */
  datatype SphereHit = SphereMiss | SphereAt(t: real) | EmptyMin

  /** The coefficients b and c of t² + b·t + c = 0 for the ray o + t·d. */
  function SphereB(s: Sphere, o: Vec3, d: Vec3): real {
    2.0 * Dot(d, Sub(o, s.center))
  }

  function SphereC(sqrt: real -> real, s: Sphere, o: Vec3): real {
    Norm(sqrt, Sub(o, s.center)) * Norm(sqrt, Sub(o, s.center)) - s.radius * s.radius
  }

  /** min over the strictly positive roots among t1 and t2, after the early
      exit when both are negative. */
  function PickRoot(t1: real, t2: real): (h: SphereHit)
    ensures h.SphereMiss? <==> t1 < 0.0 && t2 < 0.0
    ensures h.EmptyMin? <==> !(t1 < 0.0 && t2 < 0.0) && t1 <= 0.0 && t2 <= 0.0
    ensures h.SphereAt? ==> (h.t == t1 || h.t == t2) && h.t > 0.0
    ensures h.SphereAt? ==> (t1 > 0.0 ==> h.t <= t1) && (t2 > 0.0 ==> h.t <= t2)
  {
    if t1 < 0.0 && t2 < 0.0 then SphereMiss
    else if t1 > 0.0 && t2 > 0.0 then SphereAt(if t1 <= t2 then t1 else t2)
    else if t1 > 0.0 then SphereAt(t1)
    else if t2 > 0.0 then SphereAt(t2)
    else EmptyMin
  }

  function SphereIntersect(sqrt: real -> real, s: Sphere, o: Vec3, d: Vec3): SphereHit {
    QuadraticHit(sqrt, SphereB(s, o, d), SphereC(sqrt, s, o))
  }

  /** The discriminant test and root choice of sphere_intersect for
      t² + b·t + c = 0. */
  function QuadraticHit(sqrt: real -> real, b: real, c: real): SphereHit {
    var delta := b * b - 4.0 * c;
    if delta < 0.0 then SphereMiss
    else PickRoot((-b - sqrt(delta)) / 2.0, (-b + sqrt(delta)) / 2.0)
  }

  /** The value of t² + b·t + c. */
  function Quad(b: real, c: real, t: real): real {
    t * t + b * t + c
  }

  /** What sphere_intersect promises about the roots of t² + b·t + c: it
      misses exactly when every root is negative (or there is none), a hit
      is the smallest strictly positive root, and min() fails exactly when
      the largest root is zero. */
  ghost predicate NearestRoot(b: real, c: real, h: SphereHit) {
    && (h.SphereMiss? <==> forall t :: Quad(b, c, t) == 0.0 ==> t < 0.0)
    && (h.SphereAt? ==>
          && h.t > 0.0 && Quad(b, c, h.t) == 0.0
          && forall t :: t > 0.0 && Quad(b, c, t) == 0.0 ==> h.t <= t)
    && (h.EmptyMin? <==> Quad(b, c, 0.0) == 0.0 && forall t :: Quad(b, c, t) == 0.0 ==> t <= 0.0)
  }

  /** Every root of t² + b·t + c = 0 is one of the two the test computes. */
  lemma RootsAreT1T2(b: real, c: real, sd: real, t: real)
    requires sd * sd == b * b - 4.0 * c
    ensures Quad(b, c, t) == (t - (-b - sd) / 2.0) * (t - (-b + sd) / 2.0)
  {
  }

  lemma SphereIntersectSpec(sqrt: real -> real, s: Sphere, o: Vec3, d: Vec3)
    requires IsSqrt(sqrt)
    ensures NearestRoot(SphereB(s, o, d), SphereC(sqrt, s, o), SphereIntersect(sqrt, s, o, d))
  {
    QuadraticHitSpec(sqrt, SphereB(s, o, d), SphereC(sqrt, s, o));
  }

  lemma QuadraticHitSpec(sqrt: real -> real, b: real, c: real)
    requires IsSqrt(sqrt)
    ensures NearestRoot(b, c, QuadraticHit(sqrt, b, c))
  {
    var delta := b * b - 4.0 * c;
    if delta < 0.0 {
      NoRootSelection(b, c);
    } else {
      var sd := sqrt(delta);
      assert sd >= 0.0 && sd * sd == delta;
      RootSelection(b, c, sd);
    }
  }

  lemma NoRootSelection(b: real, c: real)
    requires b * b - 4.0 * c < 0.0
    ensures NearestRoot(b, c, SphereMiss)
  {
    forall t
      ensures Quad(b, c, t) != 0.0
    {
      NoRealRoot(b, c, t);
    }
  }

  lemma RootSelection(b: real, c: real, sd: real)
    requires sd >= 0.0 && sd * sd == b * b - 4.0 * c
    ensures NearestRoot(b, c, PickRoot((-b - sd) / 2.0, (-b + sd) / 2.0))
  {
    var t1, t2 := (-b - sd) / 2.0, (-b + sd) / 2.0;
    var h := PickRoot(t1, t2);
    RootsExactly(b, c, sd);
    assert Quad(b, c, t1) == 0.0 && Quad(b, c, t2) == 0.0;
    assert t1 <= t2;
    if h.SphereMiss? {
      assert forall t :: Quad(b, c, t) == 0.0 ==> t < 0.0;
    }
    if h.SphereAt? {
      assert forall t :: t > 0.0 && Quad(b, c, t) == 0.0 ==> h.t <= t;
    }
    if h.EmptyMin? {
      assert t2 == 0.0;
      assert forall t :: Quad(b, c, t) == 0.0 ==> t <= 0.0;
    }
    if Quad(b, c, 0.0) == 0.0 && forall t :: Quad(b, c, t) == 0.0 ==> t <= 0.0 {
      assert t2 <= 0.0;
      assert h.EmptyMin?;
    }
  }

  lemma RootsExactly(b: real, c: real, sd: real)
    requires sd >= 0.0 && sd * sd == b * b - 4.0 * c
    ensures (-b - sd) / 2.0 <= (-b + sd) / 2.0
    ensures forall t :: Quad(b, c, t) == 0.0 <==> t == (-b - sd) / 2.0 || t == (-b + sd) / 2.0
  {
    forall t
      ensures Quad(b, c, t) == 0.0 <==> t == (-b - sd) / 2.0 || t == (-b + sd) / 2.0
    {
      RootsAreT1T2(b, c, sd, t);
      ZeroProduct(t - (-b - sd) / 2.0, t - (-b + sd) / 2.0);
    }
  }

  lemma NoRealRoot(b: real, c: real, t: real)
    requires b * b - 4.0 * c < 0.0
    ensures Quad(b, c, t) != 0.0
  {
    // 4·(t² + b·t + c) == (2t + b)² - (b² - 4c) > 0
    assert 4.0 * (t * t + b * t + c) == (2.0 * t + b) * (2.0 * t + b) - (b * b - 4.0 * c);
    SquareNonNegative(2.0 * t + b);
  }

  /** floor_intersect: no hit for a ray (nearly) parallel to the floor;
      otherwise the parameter where the ray reaches the floor height, if it
      lies ahead of the origin. */
  function FloorIntersect(f: Floor, o: Vec3, d: Vec3): (r: Option<real>)
    ensures (d.y < 0.000001 && d.y > -0.000001) ==> r == None
    ensures r.Some? ==> r.value > 0.0 && o.y + r.value * d.y == f.y
    ensures d.y != 0.0 && !(d.y < 0.000001 && d.y > -0.000001) && (f.y - o.y) / d.y > 0.0 ==> r.Some?
  {
    if (if d.y < 0.0 then -d.y else d.y) < 0.000001 then None
    else
      var t := -(o.y - f.y) / d.y;
      if t > 0.0 then Some(t) else None
  }

  datatype Option<T> = None | Some(value: T)

  /** get_floor_color: the floor colour on tiles whose indices have an even
      sum, half of it on the others. */
  function FloorColor(s: Scene, p: Vec3): Vec3
    requires ValidScene(s)
  {
    var xi, zi := (p.x / s.checkerSize).Floor, (p.z / s.checkerSize).Floor;
    if (xi + zi) % 2 == 0 then s.floor.color else Scale(s.floor.color, 0.5)
  }

  /** Stepping one tile along x switches between the two colours. */
  lemma CheckerAlternates(s: Scene, p: Vec3)
    requires ValidScene(s)
    ensures var q := Vec3(p.x + s.checkerSize, p.y, p.z);
      (FloorColor(s, p) == s.floor.color <==> FloorColor(s, q) != s.floor.color)
      || s.floor.color == Black
  {
    var k := s.checkerSize;
    var q := Vec3(p.x + k, p.y, p.z);
    DivAddOne(p.x, k);
    assert (q.x / k).Floor == (p.x / k).Floor + 1;
    if s.floor.color != Black {
      assert Scale(s.floor.color, 0.5) != s.floor.color;
    }
  }

  // ---------------------------------------------------------------------
  // Shading

  /** A colour with every channel in [0, 1]. */
  predicate InUnitCube(v: Vec3) {
    0.0 <= v.x <= 1.0 && 0.0 <= v.y <= 1.0 && 0.0 <= v.z <= 1.0
  }

  /** np.clip(v, 0, 1): every channel forced into [0, 1], channels already
      there left alone. */
  function Clip01(v: Vec3): (r: Vec3)
    ensures InUnitCube(r)
    ensures InUnitCube(v) ==> r == v
  {
    Vec3(Clamp(v.x, 0.0, 1.0), Clamp(v.y, 0.0, 1.0), Clamp(v.z, 0.0, 1.0))
  }

  /** The light intensity of compute_lighting: ambient, plus the diffuse
      term max(n·l, 0), plus half the specular highlight
      max(r·v, 0)^specular when the material has a positive exponent. */
  function Intensity(s: Scene, normal: Vec3, lightDir: Vec3, viewDir: Vec3, specular: int): (r: real)
    ensures r >= s.ambient + Max0(Dot(normal, lightDir))
    ensures specular <= 0 ==> r == s.ambient + Max0(Dot(normal, lightDir))
    ensures Dot(normal, lightDir) <= 0.0 && specular <= 0 ==> r == s.ambient
  {
    var diffuse := Max0(Dot(normal, lightDir));
    if specular > 0 then
      var base := Max0(Dot(Reflect(Neg(lightDir), normal), viewDir));
      PowNonNegative(base, specular);
      s.ambient + diffuse + 0.5 * Pow(base, specular)
    else
      s.ambient + diffuse
  }

  /** compute_lighting: the material colour scaled by the intensity and
      clipped. The direction to the light is undefined (NaN) exactly when
      the point is the light itself. */
  function ComputeLighting(s: Scene, sqrt: real -> real, point: Vec3, normal: Vec3, viewDir: Vec3,
                           specular: int, color: Vec3): (r: Option<Vec3>)
    requires IsSqrt(sqrt)
    ensures r.None? <==> point == s.lightPos
    ensures r.Some? ==> InUnitCube(r.value)
  {
    var lightDir := Normalize(sqrt, Sub(s.lightPos, point));
    if lightDir.None? then None
    else Some(Clip01(Scale(color, Intensity(s, normal, lightDir.value, viewDir, specular))))
  }

  /** color·(1 - k) + reflected·k, the mix of trace_ray. */
  function Blend(color: Vec3, reflected: Vec3, k: real): (r: Vec3)
    ensures k == 0.0 ==> r == color
    ensures k == 1.0 ==> r == reflected
  {
    Vec3(color.x * (1.0 - k) + reflected.x * k,
         color.y * (1.0 - k) + reflected.y * k,
         color.z * (1.0 - k) + reflected.z * k)
  }

  /** Mixing two colours in the unit cube with a fraction stays in it. */
  lemma BlendInUnitCube(color: Vec3, reflected: Vec3, k: real)
    ensures InUnitCube(color) && InUnitCube(reflected) && 0.0 <= k <= 1.0 ==> InUnitCube(Blend(color, reflected, k))
  {
    if InUnitCube(color) && InUnitCube(reflected) && 0.0 <= k <= 1.0 {
      MixInUnit(color.x, reflected.x, k);
      MixInUnit(color.y, reflected.y, k);
      MixInUnit(color.z, reflected.z, k);
    }
  }

  /** A convex combination of two fractions is a fraction. */
  lemma MixInUnit(a: real, b: real, k: real)
    requires 0.0 <= a <= 1.0 && 0.0 <= b <= 1.0 && 0.0 <= k <= 1.0
    ensures 0.0 <= a * (1.0 - k) + b * k <= 1.0
  {
    ProductNonNegative(a, 1.0 - k);
    ProductNonNegative(b, k);
    ProductNonNegative(1.0 - a, 1.0 - k);
    ProductNonNegative(1.0 - b, k);
  }

  // ---------------------------------------------------------------------
  // Nearest hit

  const Up := Vec3(0.0, 1.0, 0.0)

  /** The surface point a ray meets: its parameter, position, normal and the
      material there. */
  datatype Hit = Hit(t: real, point: Vec3, normal: Vec3, color: Vec3, specular: int, reflectivity: real)

  /** No surface ahead, the nearest hit, or a failure: min() of no positive
      root, or a sphere normal taken at the sphere's centre (NaN). */
  datatype HitResult = NoHit | HitAt(hit: Hit) | Failed

  /** A hit on the sphere carries the sphere's material and a unit normal. */
  ghost predicate SphereMaterial(s: Scene, h: Hit) {
    && h.color == s.sphere.color && h.specular == s.sphere.specular
    && h.reflectivity == s.sphere.reflectivity && Dot(h.normal, h.normal) == 1.0
  }

  /** A hit on the floor lies at floor height, faces up and takes the
      checker colour of its tile. */
  ghost predicate FloorMaterial(s: Scene, h: Hit)
    requires ValidScene(s)
  {
    && h.point.y == s.floor.y && h.normal == Up && h.color == FloorColor(s, h.point)
    && h.specular == s.floor.specular && h.reflectivity == s.floor.reflectivity
  }

  function SphereSurface(s: Scene, sqrt: real -> real, o: Vec3, d: Vec3, t: real): (r: HitResult)
    requires IsSqrt(sqrt)
    ensures r.HitAt? ==> r.hit.t == t && r.hit.point == Add(o, Scale(d, t)) && SphereMaterial(s, r.hit)
    ensures r.Failed? <==> Add(o, Scale(d, t)) == s.sphere.center
    ensures !r.NoHit?
  {
    var p := Add(o, Scale(d, t));
    var n := Normalize(sqrt, Sub(p, s.sphere.center));
    if n.None? then Failed
    else HitAt(Hit(t, p, n.value, s.sphere.color, s.sphere.specular, s.sphere.reflectivity))
  }

  function FloorSurface(s: Scene, o: Vec3, d: Vec3, t: real): (h: Hit)
    requires ValidScene(s) && o.y + t * d.y == s.floor.y
    ensures h.t == t && h.point == Add(o, Scale(d, t)) && FloorMaterial(s, h)
  {
    var p := Add(o, Scale(d, t));
    Hit(t, p, Up, FloorColor(s, p), s.floor.specular, s.floor.reflectivity)
  }

  /** The closest-intersection choice of trace_ray, given the sphere result
      ts and the floor result tf. min(t_sphere, t_floor) returns t_sphere
      on a tie, so a tie goes to the sphere. */
  function ClosestSurface(s: Scene, sqrt: real -> real, o: Vec3, d: Vec3, ts: SphereHit, tf: Option<real>): (r: HitResult)
    requires IsSqrt(sqrt) && ValidScene(s)
    requires ts.SphereAt? ==> ts.t > 0.0
    requires tf.Some? ==> tf.value > 0.0 && o.y + tf.value * d.y == s.floor.y
    ensures r.NoHit? <==> ts.SphereMiss? && tf.None?
    ensures r.Failed? <==>
      || ts.EmptyMin?
      || (ts.SphereAt? && (tf.None? || ts.t <= tf.value) && Add(o, Scale(d, ts.t)) == s.sphere.center)
    ensures r.HitAt? ==> r.hit.t > 0.0 && r.hit.point == Add(o, Scale(d, r.hit.t))
    ensures r.HitAt? && ts.SphereAt? ==> r.hit.t <= ts.t
    ensures r.HitAt? && tf.Some? ==> r.hit.t <= tf.value
    ensures r.HitAt? ==>
      || (ts.SphereAt? && r.hit.t == ts.t && SphereMaterial(s, r.hit))
      || (tf.Some? && r.hit.t == tf.value && FloorMaterial(s, r.hit))
    ensures ts.SphereAt? && (tf.None? || ts.t <= tf.value) ==> r == SphereSurface(s, sqrt, o, d, ts.t)
    ensures !ts.EmptyMin? && tf.Some? && (ts.SphereMiss? || tf.value < ts.t) ==>
      r == HitAt(FloorSurface(s, o, d, tf.value))
  {
    if ts.EmptyMin? then Failed
    else if ts.SphereMiss? && tf.None? then NoHit
    else if ts.SphereMiss? then HitAt(FloorSurface(s, o, d, tf.value))
    else if tf.None? then SphereSurface(s, sqrt, o, d, ts.t)
    else
      var t := if ts.t <= tf.value then ts.t else tf.value;
      if t == ts.t then SphereSurface(s, sqrt, o, d, t)
      else HitAt(FloorSurface(s, o, d, t))
  }

  /** trace_ray's choice between the sphere and the floor for the ray o + t·d. */
  function NearestHit(s: Scene, sqrt: real -> real, o: Vec3, d: Vec3): HitResult
    requires IsSqrt(sqrt) && ValidScene(s)
  {
    ClosestSurface(s, sqrt, o, d, SphereIntersect(sqrt, s.sphere, o, d), FloorIntersect(s.floor, o, d))
  }

  // ---------------------------------------------------------------------
  // Tracing

  /** trace_ray: black past the recursion depth or when nothing is hit;
      otherwise the lit colour at the nearest hit, mixed with the colour
      seen along the mirror ray when the surface reflects. None is the
      failure of some step (the ValueError of min() or a NaN direction). */
  function Trace(s: Scene, sqrt: real -> real, o: Vec3, d: Vec3, depth: int): (r: Option<Vec3>)
    requires IsSqrt(sqrt) && ValidScene(s)
    ensures depth <= 0 ==> r == Some(Black)
    ensures depth > 0 && NearestHit(s, sqrt, o, d).NoHit? ==> r == Some(Black)
    ensures depth > 0 && NearestHit(s, sqrt, o, d).Failed? ==> r.None?
    ensures Fractions(s) && r.Some? ==> InUnitCube(r.value)
    decreases depth
  {
    if depth <= 0 then Some(Black)
    else
      match NearestHit(s, sqrt, o, d)
      case NoHit => Some(Black)
      case Failed => None
      case HitAt(h) =>
        var viewDir := Normalize(sqrt, Neg(d));
        if viewDir.None? then None
        else
          var lit := ComputeLighting(s, sqrt, h.point, h.normal, viewDir.value, h.specular, h.color);
          if lit.None? then None
          else if h.reflectivity > 0.0 then
            var reflected := Trace(s, sqrt, Add(h.point, Scale(h.normal, 0.0001)), Reflect(d, h.normal), depth - 1);
            if reflected.None? then None
            else
              BlendInUnitCube(lit.value, reflected.value, h.reflectivity);
              Some(Blend(lit.value, reflected.value, h.reflectivity))
          else lit
  }

  /** Every ray the tracer follows has a unit direction when the first one
      does: hit normals are unit vectors and mirroring keeps the length. */
  lemma ReflectedRayIsUnit(s: Scene, sqrt: real -> real, o: Vec3, d: Vec3)
    requires IsSqrt(sqrt) && ValidScene(s) && Dot(d, d) == 1.0
    ensures var r := NearestHit(s, sqrt, o, d);
      r.HitAt? ==> Dot(Reflect(d, r.hit.normal), Reflect(d, r.hit.normal)) == 1.0
  {
    var r := NearestHit(s, sqrt, o, d);
    if r.HitAt? {
      assert Dot(r.hit.normal, r.hit.normal) == 1.0;
      ReflectProperties(d, r.hit.normal);
    }
  }

  /** Without reflective surfaces only the first bounce matters: any depth
      of at least one gives the same colour. */
  lemma {:induction false} NoReflectionOneBounce(s: Scene, sqrt: real -> real, o: Vec3, d: Vec3, depth: int)
    requires IsSqrt(sqrt) && ValidScene(s)
    requires s.sphere.reflectivity <= 0.0 && s.floor.reflectivity <= 0.0
    requires depth >= 1
    ensures Trace(s, sqrt, o, d, depth) == Trace(s, sqrt, o, d, 1)
  {
    var r := NearestHit(s, sqrt, o, d);
    if r.HitAt? {
      assert r.hit.reflectivity <= 0.0;
    }
  }

  /** For a unit direction, a root of the test's quadratic is a point on the
      sphere: its distance to the centre is the radius. */
  lemma SphereRootOnSurface(sqrt: real -> real, sp: Sphere, o: Vec3, d: Vec3, t: real)
    requires IsSqrt(sqrt) && Dot(d, d) == 1.0
    requires Quad(SphereB(sp, o, d), SphereC(sqrt, sp, o), t) == 0.0
    ensures var p := Sub(Add(o, Scale(d, t)), sp.center);
      Dot(p, p) == sp.radius * sp.radius
  {
    var w := Sub(o, sp.center);
    var p := Sub(Add(o, Scale(d, t)), sp.center);
    SphereCoefficients(sqrt, sp, o, d);
    DotExpand(o, sp.center, d, t);
    OnSurfaceArithmetic(Dot(p, p), Dot(w, w), Dot(d, w), Dot(d, d),
                        t, SphereB(sp, o, d), SphereC(sqrt, sp, o), sp.radius * sp.radius);
  }

  lemma SphereCoefficients(sqrt: real -> real, sp: Sphere, o: Vec3, d: Vec3)
    requires IsSqrt(sqrt)
    ensures SphereB(sp, o, d) == 2.0 * Dot(d, Sub(o, sp.center))
    ensures SphereC(sqrt, sp, o) == Dot(Sub(o, sp.center), Sub(o, sp.center)) - sp.radius * sp.radius
  {
    NormProperties(sqrt, Sub(o, sp.center));
  }

  lemma DotExpand(o: Vec3, c: Vec3, d: Vec3, t: real)
    ensures var p, w := Sub(Add(o, Scale(d, t)), c), Sub(o, c);
      Dot(p, p) == Dot(w, w) + 2.0 * t * Dot(d, w) + (t * t) * Dot(d, d)
  {
    var w := Sub(o, c);
    assert Sub(Add(o, Scale(d, t)), c) == Add(w, Scale(d, t));
    DotSquare(w, d, t);
  }

  lemma DotSquare(w: Vec3, d: Vec3, t: real)
    ensures Dot(Add(w, Scale(d, t)), Add(w, Scale(d, t))) == Dot(w, w) + 2.0 * t * Dot(d, w) + (t * t) * Dot(d, d)
  {
  }

  lemma OnSurfaceArithmetic(x: real, ww: real, dw: real, dd: real, t: real, b: real, c: real, r2: real)
    requires x == ww + 2.0 * t * dw + (t * t) * dd && dd == 1.0
    requires b == 2.0 * dw && c == ww - r2 && Quad(b, c, t) == 0.0
    ensures x == r2
  {
  }

  // ---------------------------------------------------------------------
  // Rendering

  /** np.clip(color * 255, 0, 255), the value stored in the buffer. */
  function Clip255(c: Vec3): (r: Vec3)
    ensures 0.0 <= r.x <= 255.0 && 0.0 <= r.y <= 255.0 && 0.0 <= r.z <= 255.0
  {
    Vec3(Clamp(c.x * 255.0, 0.0, 255.0), Clamp(c.y * 255.0, 0.0, 255.0), Clamp(c.z * 255.0, 0.0, 255.0))
  }

  /** For a colour already in the unit cube the clipping does nothing:
      the pixel is the colour scaled by 255. */
  lemma Clip255Scales(c: Vec3)
    requires InUnitCube(c)
    ensures Clip255(c) == Scale(c, 255.0)
  {
    ClampScaled(c.x);
    ClampScaled(c.y);
    ClampScaled(c.z);
  }

  lemma ClampScaled(v: real)
    requires 0.0 <= v <= 1.0
    ensures Clamp(v * 255.0, 0.0, 255.0) == v * 255.0
  {
  }

  /** Pixel (x, y) comes before pixel (i, j) in the row-by-row order of
      render_scene. */
  predicate Before(y: int, x: int, j: int, i: int) {
    y < j || (y == j && x < i)
  }

  /** The size of the image render_scene fills. */
  const Width: int := 800
  const Height: int := 600

  /** The point on the screen plane z = 1 that pixel (x, y) looks at,
      through the pixel's centre, with the aspect ratio applied to x. */
  function ScreenPoint(tanHalfFov: real, x: int, y: int): (p: Vec3)
    ensures p.z == 1.0 && p != Black
  {
    var aspect := Width as real / Height as real;
    Vec3((2.0 * (x as real + 0.5) / Width as real - 1.0) * tanHalfFov * aspect,
         (1.0 - 2.0 * (y as real + 0.5) / Height as real) * tanHalfFov,
         1.0)
  }

  /** The buffer value render_scene computes for pixel (x, y): the traced
      colour of the primary ray through it, scaled to 0..255, or None when
      tracing fails. Its properties are the lemmas below. */
  function PixelValue(s: Scene, sqrt: real -> real, tanHalfFov: real, x: int, y: int): Option<Vec3>
    requires IsSqrt(sqrt) && ValidScene(s)
  {
    var c := Trace(s, sqrt, s.camera, PrimaryRay(sqrt, tanHalfFov, x, y), 3);
    if c.None? then None else Some(Clip255(c.value))
  }

  /** PixelValue where its precondition holds and None elsewhere: the
      renderer's ghost table of pixel values. */
  ghost function PixelOf(s: Scene, sqrt: real -> real, tanHalfFov: real, x: int, y: int): Option<Vec3> {
    if IsSqrt(sqrt) && ValidScene(s) then PixelValue(s, sqrt, tanHalfFov, x, y) else None
  }

  /** The table of every pixel's value, as one function of (x, y). */
  ghost function PixelTable(s: Scene, sqrt: real -> real, tanHalfFov: real): (f: (int, int) -> Option<Vec3>)
    ensures forall x, y {:trigger PixelOf(s, sqrt, tanHalfFov, x, y)} :: f(x, y) == PixelOf(s, sqrt, tanHalfFov, x, y)
  {
    (x: int, y: int) => PixelOf(s, sqrt, tanHalfFov, x, y)
  }

  /** The unit direction from the camera through pixel (x, y). */
  function PrimaryRay(sqrt: real -> real, tanHalfFov: real, x: int, y: int): (d: Vec3)
    requires IsSqrt(sqrt)
    ensures Dot(d, d) == 1.0
    ensures d.z > 0.0 && Scale(d, Norm(sqrt, ScreenPoint(tanHalfFov, x, y))) == ScreenPoint(tanHalfFov, x, y)
  {
    Normalize(sqrt, ScreenPoint(tanHalfFov, x, y)).value
  }

  /** A pixel is an 8-bit-range colour, and it is absent exactly when tracing
      its primary ray fails; for a scene whose colours are fractions it is the
      traced colour times 255 exactly, the clipping changing nothing. */
  lemma PixelValueTraced(s: Scene, sqrt: real -> real, tanHalfFov: real, x: int, y: int)
    requires IsSqrt(sqrt) && ValidScene(s)
    ensures var r := PixelValue(s, sqrt, tanHalfFov, x, y);
      var c := Trace(s, sqrt, s.camera, PrimaryRay(sqrt, tanHalfFov, x, y), 3);
      && (r.None? <==> c.None?)
      && (r.Some? ==> 0.0 <= r.value.x <= 255.0 && 0.0 <= r.value.y <= 255.0 && 0.0 <= r.value.z <= 255.0)
      && (r.Some? && Fractions(s) ==> r.value == Scale(c.value, 255.0))
  {
    var c := Trace(s, sqrt, s.camera, PrimaryRay(sqrt, tanHalfFov, x, y), 3);
    if c.Some? && Fractions(s) {
      Clip255Scales(c.value);
    }
  }

  /** np.zeros((600, 800, 3)): a fresh buffer of black pixels. */
  method BlackBuffer() returns (b: array2<Vec3>)
    ensures fresh(b) && b.Length0 == Height && b.Length1 == Width
    ensures forall y, x :: 0 <= y < Height && 0 <= x < Width ==> b[y, x] == Black
  {
    b := new Vec3[600, 800]((y, x) => Black);
  }

  /** The renderer: its scene, the square root and tan(fov/2) it computes
      with, and the 600 by 800 buffer of colours indexed [row, column]. */
  class Renderer {
    const scene: Scene
    const sqrt: real -> real
    const tanHalfFov: real
    var buffer: array2<Vec3>
    /** The pixel values of this renderer's scene, as a function of (x, y);
        Valid() ties it to PixelValue. */
    ghost const pixel: (int, int) -> Option<Vec3>

    /** The constant part of the renderer's invariant: a true square root,
        a scene with a positive checker size, and pixel agreeing with
        PixelOf (hence PixelValue) everywhere. */
    ghost predicate Traced() {
      && IsSqrt(sqrt) && ValidScene(scene)
      && forall x, y {:trigger PixelOf(scene, sqrt, tanHalfFov, x, y)} ::
           pixel(x, y) == PixelOf(scene, sqrt, tanHalfFov, x, y)
    }

    ghost predicate Valid()
      reads this
    {
      buffer.Length0 == Height && buffer.Length1 == Width && Traced()
    }

    /** The buffer starts black (np.zeros) and the scene is the program's
        own. tanHalfFov is tan(π/6), whose square is one third. */
    constructor(sqrt: real -> real, tanHalfFov: real)
      requires IsSqrt(sqrt) && tanHalfFov > 0.0 && 3.0 * (tanHalfFov * tanHalfFov) == 1.0
      ensures Valid() && fresh(buffer)
      ensures this.sqrt == sqrt && this.tanHalfFov == tanHalfFov && scene == DefaultScene()
      ensures forall y, x :: 0 <= y < Height && 0 <= x < Width ==> buffer[y, x] == Black
    {
      var sc := DefaultScene();
      var b := BlackBuffer();
      this.sqrt := sqrt;
      this.tanHalfFov := tanHalfFov;
      scene := sc;
      pixel := PixelTable(sc, sqrt, tanHalfFov);
      buffer := b;
    }

    /** render_scene: every pixel, row by row, gets its value. The first
        pixel whose trace fails aborts the loop, leaving the pixels before it
        written and the rest as they were. */
    method RenderScene() returns (ok: bool)
      requires Valid()
      modifies buffer
      ensures ok <==> forall y, x :: 0 <= y < Height && 0 <= x < Width ==> pixel(x, y).Some?
      ensures ok ==> forall y, x :: 0 <= y < Height && 0 <= x < Width ==> buffer[y, x] == pixel(x, y).value
      ensures !ok ==> exists fy, fx ::
        && 0 <= fy < Height && 0 <= fx < Width && pixel(fx, fy).None?
        && (forall y, x :: 0 <= y < Height && 0 <= x < Width && Before(y, x, fy, fx) ==>
              pixel(x, y).Some? && buffer[y, x] == pixel(x, y).value)
        && (forall y, x :: 0 <= y < Height && 0 <= x < Width && !Before(y, x, fy, fx) ==>
              buffer[y, x] == old(buffer[y, x]))
    {
      var y := 0;
      while y < Height
        invariant 0 <= y <= Height
        invariant forall j, i :: 0 <= j < y && 0 <= i < Width ==>
          pixel(i, j).Some? && buffer[j, i] == pixel(i, j).value
        invariant forall j, i :: y <= j < Height && 0 <= i < Width ==> buffer[j, i] == old(buffer[j, i])
      {
        var rowOk, fx := RenderRow(y);
        if !rowOk {
          assert forall j, i :: 0 <= j < Height && 0 <= i < Width && Before(j, i, y, fx) ==>
            pixel(i, j).Some? && buffer[j, i] == pixel(i, j).value;
          return false;
        }
        y := y + 1;
      }
      return true;
    }

    /** One row of render_scene: its pixels left to right, up to the first
        failure, which is reported by its column. */
    method RenderRow(y: int) returns (ok: bool, fx: int)
      requires Valid() && 0 <= y < Height
      modifies buffer
      ensures 0 <= fx <= Width && (ok <==> fx == Width)
      ensures !ok ==> pixel(fx, y).None?
      ensures forall i :: 0 <= i < fx ==> pixel(i, y).Some? && buffer[y, i] == pixel(i, y).value
      ensures forall j, i :: 0 <= j < Height && 0 <= i < Width && !(j == y && i < fx) ==>
        buffer[j, i] == old(buffer[j, i])
    {
      var x := 0;
      while x < Width
        invariant 0 <= x <= Width
        invariant forall i :: 0 <= i < x ==> pixel(i, y).Some? && buffer[y, i] == pixel(i, y).value
        invariant forall j, i :: 0 <= j < Height && 0 <= i < Width && !(j == y && i < x) ==>
          buffer[j, i] == old(buffer[j, i])
      {
        var c := ComputePixel(x, y);
        if c.None? {
          return false, x;
        }
        buffer[y, x] := c.value;
        x := x + 1;
      }
      return true, Width;
    }

    /** The body of render_scene's inner loop: trace pixel (x, y) and clip
        the colour to the buffer's range. */
    method ComputePixel(x: int, y: int) returns (c: Option<Vec3>)
      requires Traced()
      ensures c == pixel(x, y)
      ensures c.Some? ==> 0.0 <= c.value.x <= 255.0 && 0.0 <= c.value.y <= 255.0 && 0.0 <= c.value.z <= 255.0
    {
      c := PixelValue(scene, sqrt, tanHalfFov, x, y);
      assert pixel(x, y) == PixelOf(scene, sqrt, tanHalfFov, x, y);
      PixelValueTraced(scene, sqrt, tanHalfFov, x, y);
    }
  }
}
