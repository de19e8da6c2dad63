/** Sphere (include/shapes.h, source/shapes.h, shapes.h): a static or moving
    ball. The three copies share the constructors and the root choice of
    Intersect; they differ in which fields of the record a hit writes, and only
    the include/ copy has Area and Sample. */
module Spheres {
  import opened Vectors
  import opened Global
  import R = Rays
  import I = Intervals
  import B = Bounds
  import X = Intersections
  import E = ExtReal

  /** The fields of a Sphere. `shift` is left zero by the static constructor,
      which never reads it. `material` and `id` stand for the material pointer
      and for the object itself (shared_from_this). */
  datatype Sphere = Sphere(centre0: Vector3, radius: real, moving: bool, shift: Vector3,
                           bbox: B.Bounds3, material: nat, id: nat)

  /** Max(_radius, EPS_DEUX). */
  function ClampRadius(radius: real): (r: real)
    ensures r >= EPS_DEUX
    ensures radius >= EPS_DEUX ==> r == radius
    ensures radius < EPS_DEUX ==> r == EPS_DEUX
  {
    Max(radius, EPS_DEUX)
  }

  /** Bounds3(c - (r,r,r), c + (r,r,r)). */
  function BallBox(c: Vector3, r: real, padded: bool): B.Bounds3 {
    B.FromPoints(Sub(c, Splat(r)), Add(c, Splat(r)), padded)
  }

  /** The stationary constructor. */
  function StaticSphere(c: Vector3, radius: real, material: nat, id: nat, padded: bool): (s: Sphere)
    ensures s.radius >= EPS_DEUX && !s.moving && s.centre0 == c
    ensures s.material == material && s.id == id
  {
    var r := ClampRadius(radius);
    Sphere(c, r, false, Zero, BallBox(c, r, padded), material, id)
  }

  /** The moving constructor: from c1 at time 0 to c2 at time 1, with the
      union of the two end boxes. */
  function MovingSphere(c1: Vector3, c2: Vector3, radius: real, material: nat, id: nat, padded: bool): (s: Sphere)
    ensures s.radius >= EPS_DEUX && s.moving && s.centre0 == c1
    ensures s.material == material && s.id == id
  {
    var r := ClampRadius(radius);
    Sphere(c1, r, true, Sub(c2, c1), B.Union(BallBox(c1, r, padded), BallBox(c2, r, padded), padded),
           material, id)
  }

  /** GetCentre(time) = centre0 + time * shift. */
  function GetCentre(s: Sphere, time: real): Vector3 {
    Add(s.centre0, Scale(s.shift, time))
  }

  /** The centre Intersect uses for a ray. */
  function CentreFor(s: Sphere, ray: R.Ray): Vector3 {
    if s.moving then GetCentre(s, ray.time) else s.centre0
  }

  /** Area() = 4 pi r^2. */
  function Area(s: Sphere): (a: real)
    requires s.radius >= EPS_DEUX
    ensures a > 0.0
  {
    MulPos(4.0 * PI * s.radius, s.radius);
    4.0 * PI * s.radius * s.radius
  }

  // ---------------------------------------------------------------- Intersect

  /** The coefficients A, Б, C of Intersect, in the form
      A t^2 - 2 Б t + C = 0. */
  datatype Quadratic = Quadratic(a: real, h: real, c: real)

  function Coefficients(s: Sphere, ray: R.Ray): Quadratic {
    var oc := Sub(CentreFor(s, ray), ray.org);
    Quadratic(Length2(ray.dir), Dot(ray.dir, oc), Length2(oc) - s.radius * s.radius)
  }

  function Discriminant(q: Quadratic): real {
    q.h * q.h - q.a * q.c
  }

  function Near(q: Quadratic, root: real): real
    requires q.a != 0.0
  {
    (q.h - root) / q.a
  }

  function Far(q: Quadratic, root: real): real
    requires q.a != 0.0
  {
    (q.h + root) / q.a
  }

  /** The time Intersect reports, when there is one: the near root if the open
      interval surrounds it, else the far root if it surrounds that. */
  function Chosen(q: Quadratic, root: real, rayT: I.Interval): (t: real)
    requires q.a != 0.0
    ensures t == Near(q, root) || t == Far(q, root)
  {
    if I.Surrounds(rayT, Near(q, root)) then Near(q, root) else Far(q, root)
  }

  /** Which fields a hit of each copy writes: the top-level copy writes no
      u, v; only the include/ copy writes the object pointer. */
  function WriteHit(snap: X.Snapshot, isect: X.Intersection, ray: R.Ray, s: Sphere, t: real,
                    centre: Vector3, uv: (real, real)): (r: X.Intersection)
    requires s.radius != 0.0
  {
    var outward := Div(Sub(R.At(ray, t), centre), s.radius);
    var r0 := X.SetOutward(isect, ray, outward);
    var r1 := r0.(coords := R.At(ray, t), time := t, material := s.material);
    var r2 := if snap == X.Include then r1.(shape := s.id) else r1;
    if snap == X.Early then r2 else r2.(u := uv.0, v := uv.1)
  }

  /** Sphere::Intersect. `root` is Sqrt(discrim) and `uv` the pair CountUV
      computes from the outward normal; both are inputs, since sqrt, acos and
      atan2 are not modelled. On a false return the record is untouched. */
  function Intersect(snap: X.Snapshot, s: Sphere, ray: R.Ray, rayT: I.Interval, isect: X.Intersection,
                     root: real, uv: (real, real)): (res: (bool, X.Intersection))
    requires s.radius >= EPS_DEUX
    requires Discriminant(Coefficients(s, ray)) >= EPS_DEUX ==> IsSqrt(root, Discriminant(Coefficients(s, ray)))
    ensures !res.0 ==> res.1 == isect
    ensures res.0 ==> Coefficients(s, ray).a > 0.0
    ensures res.0 <==> (Discriminant(Coefficients(s, ray)) >= EPS_DEUX && Coefficients(s, ray).a > 0.0 &&
      (I.Surrounds(rayT, Near(Coefficients(s, ray), root)) || I.Surrounds(rayT, Far(Coefficients(s, ray), root))))
    ensures res.0 ==> res.1.time == Chosen(Coefficients(s, ray), root, rayT) && I.Surrounds(rayT, res.1.time)
    ensures res.0 ==> res.1.coords == R.At(ray, res.1.time)
  {
    var q := Coefficients(s, ray);
    if Discriminant(q) < EPS_DEUX then (false, isect)
    else
      LeadingPositive(s, ray);
      var tHit := Near(q, root);
      if !I.Surrounds(rayT, tHit) && !I.Surrounds(rayT, Far(q, root)) then (false, isect)
      else
        var t := Chosen(q, root, rayT);
        (true, WriteHit(snap, isect, ray, s, t, CentreFor(s, ray), uv))
  }

  // ------------------------------------------------------------ Sample

  /** Sphere::Sample (include/shapes.h). `unit` is the RandomVec3Unit draw.
      The returned pair is the record and the pdf. */
  function Sample(s: Sphere, isect: X.Intersection, unit: Vector3): (res: (X.Intersection, real))
    requires s.radius >= EPS_DEUX
    ensures res.1 * Area(s) == 1.0
    ensures res.0.coords == Add(s.centre0, Scale(unit, s.radius)) && res.0.time == 0.0
    ensures res.0.material == s.material
    ensures !res.0.outside && res.0.normal == Neg(unit)
    ensures res.0.u == isect.u && res.0.v == isect.v && res.0.shape == isect.shape
  {
    var p := Add(s.centre0, Scale(unit, s.radius));
    var r1 := isect.(coords := p, time := 0.0, material := s.material);
    ProductOfEqualNonneg(unit.x, unit.x);
    ProductOfEqualNonneg(unit.y, unit.y);
    ProductOfEqualNonneg(unit.z, unit.z);
    var r2 := X.SetOutward(r1, R.StillRay(p, unit), unit);
    var a := Area(s);
    (r2, 1.0 / a)
  }

  // ------------------------------------------------------------ scalar lemmas

  lemma MulPos(a: real, b: real)
    requires a > 0.0 && b > 0.0
    ensures a * b > 0.0
  {
  }

  /** A discriminant at least EPS_DEUX needs a nonzero A or Б. */
  lemma DiscriminantNeedsCoefficient(h: real, a: real, c: real)
    requires h * h - a * c >= EPS_DEUX
    ensures a != 0.0 || h != 0.0
  {
  }

  /** A root of the form (Б -+ sqrt(discrim)) / A solves the quadratic. */
  lemma RootSolves(a: real, h: real, c: real, root: real, t: real)
    requires a > 0.0 && root * root == h * h - a * c
    requires t == (h - root) / a || t == (h + root) / a
    ensures a * t * t - 2.0 * h * t + c == 0.0
  {
    var s := t * a;
    assert s == h - root || s == h + root;
    assert s * s - 2.0 * h * s + a * c == 0.0;
    assert a * (a * t * t - 2.0 * h * t + c) == s * s - 2.0 * h * s + a * c;
  }

  lemma ZeroProduct(x: real, y: real)
    requires x * y == 0.0
    ensures x == 0.0 || y == 0.0
  {
  }

  /** The quadratic has no other roots. */
  lemma OnlyRoots(a: real, h: real, c: real, root: real, t: real)
    requires a > 0.0 && root * root == h * h - a * c
    requires a * t * t - 2.0 * h * t + c == 0.0
    ensures t == (h - root) / a || t == (h + root) / a
  {
    var n := (h - root) / a;
    var f := (h + root) / a;
    assert n * a == h - root;
    assert f * a == h + root;
    assert (n * a) * (f * a) == a * c;
    assert n * f * a == c;
    assert (n + f) * a == 2.0 * h;
    assert a * ((t - n) * (t - f)) == a * t * t - (n + f) * a * t + n * f * a;
    ZeroProduct(a, (t - n) * (t - f));
    ZeroProduct(t - n, t - f);
  }

  /** With A > 0 and a nonnegative root the near root comes first. */
  lemma NearFirst(a: real, h: real, root: real)
    requires a > 0.0 && root >= 0.0
    ensures (h - root) / a <= (h + root) / a
  {
    var n := (h - root) / a;
    var f := (h + root) / a;
    assert n * a == h - root;
    assert f * a == h + root;
    assert (f - n) * a == 2.0 * root;
    if f < n { assert (n - f) * a > 0.0; }
  }

  // ------------------------------------------------------------ vector lemmas

  /** A in Intersect is positive whenever the discriminant passes the test:
      a zero direction would make Б zero too. */
  lemma LeadingPositive(s: Sphere, ray: R.Ray)
    requires Discriminant(Coefficients(s, ray)) >= EPS_DEUX
    ensures Coefficients(s, ray).a > 0.0
  {
    var oc := Sub(CentreFor(s, ray), ray.org);
    DirectionPositive(ray.dir, oc, Length2(oc) - s.radius * s.radius);
  }

  lemma DirectionPositive(d: Vector3, oc: Vector3, c: real)
    requires Dot(d, oc) * Dot(d, oc) - Length2(d) * c >= EPS_DEUX
    ensures Length2(d) > 0.0
  {
    DiscriminantNeedsCoefficient(Dot(d, oc), Length2(d), c);
    Length2Nonneg(d);
    if Length2(d) == 0.0 {
      Length2Zero(d);
      DotZero(oc);
      assert false;
    }
  }

  lemma DotZero(w: Vector3)
    ensures Dot(Zero, w) == 0.0
  {
  }

  /** The squared distance from c of the ray point at t, as a quadratic in t. */
  lemma ExpandDistance(ray: R.Ray, c: Vector3, t: real)
    ensures Length2(Sub(R.At(ray, t), c)) ==
      Length2(ray.dir) * t * t - 2.0 * Dot(ray.dir, Sub(c, ray.org)) * t + Length2(Sub(c, ray.org))
  {
    var a := Scale(ray.dir, t);
    var b := Sub(c, ray.org);
    AtMinusCentre(ray, c, t);
    Length2Difference(a, b);
    Length2Scaled(ray.dir, t);
    DotScaled(ray.dir, b, t);
  }

  lemma AtMinusCentre(ray: R.Ray, c: Vector3, t: real)
    ensures Sub(R.At(ray, t), c) == Sub(Scale(ray.dir, t), Sub(c, ray.org))
  {
  }

  lemma Length2Difference(a: Vector3, b: Vector3)
    ensures Length2(Sub(a, b)) == Length2(a) - 2.0 * Dot(a, b) + Length2(b)
  {
  }

  lemma Length2Scaled(d: Vector3, t: real)
    ensures Length2(Scale(d, t)) == Length2(d) * t * t
  {
  }

  lemma DotScaled(d: Vector3, b: Vector3, t: real)
    ensures Dot(Scale(d, t), b) == Dot(d, b) * t
  {
  }

  /** The squared distance from the centre of the ray point at t, less r^2, is
      the quadratic of Intersect at t. (`q` and `c` name the coefficients and
      the centre, so that the products below share their factors with the
      caller's.) */
  lemma DistanceIsQuadratic(s: Sphere, ray: R.Ray, t: real, q: Quadratic, c: Vector3)
    requires q == Coefficients(s, ray) && c == CentreFor(s, ray)
    ensures Length2(Sub(R.At(ray, t), c)) - s.radius * s.radius == q.a * t * t - 2.0 * q.h * t + q.c
  {
    ExpandDistance(ray, c, t);
    CoefficientsAt(s, ray, c, t, q);
  }

  lemma CoefficientsAt(s: Sphere, ray: R.Ray, c: Vector3, t: real, q: Quadratic)
    requires q == Coefficients(s, ray) && c == CentreFor(s, ray)
    ensures q.a * t * t == Length2(ray.dir) * t * t
    ensures 2.0 * q.h * t == 2.0 * Dot(ray.dir, Sub(c, ray.org)) * t
    ensures q.c == Length2(Sub(c, ray.org)) - s.radius * s.radius
  {
  }

  /** The chosen root solves the quadratic. */
  lemma ChosenSolves(q: Quadratic, root: real, t: real)
    requires q.a > 0.0 && IsSqrt(root, Discriminant(q))
    requires t == Near(q, root) || t == Far(q, root)
    ensures q.a * t * t - 2.0 * q.h * t + q.c == 0.0
  {
    RootSolves(q.a, q.h, q.c, root, t);
  }

  // ------------------------------------------------------------ properties of Intersect

  /** A reported hit lies on the sphere (at the centre for the ray's time). */
  lemma HitOnSphere(snap: X.Snapshot, s: Sphere, ray: R.Ray, rayT: I.Interval, isect: X.Intersection,
                    root: real, uv: (real, real))
    requires s.radius >= EPS_DEUX
    requires Discriminant(Coefficients(s, ray)) >= EPS_DEUX ==> IsSqrt(root, Discriminant(Coefficients(s, ray)))
    ensures var res := Intersect(snap, s, ray, rayT, isect, root, uv);
      res.0 ==> Length2(Sub(res.1.coords, CentreFor(s, ray))) == s.radius * s.radius
  {
    var res := Intersect(snap, s, ray, rayT, isect, root, uv);
    if res.0 {
      var q := Coefficients(s, ray);
      var c := CentreFor(s, ray);
      var t := res.1.time;
      ChosenSolves(q, root, t);
      DistanceIsQuadratic(s, ray, t, q, c);
    }
  }

  /** On the sphere, the quadratic has only the two roots of Intersect. */
  lemma QuadraticRoots(q: Quadratic, root: real, t: real)
    requires q.a > 0.0 && IsSqrt(root, Discriminant(q))
    requires q.a * t * t - 2.0 * q.h * t + q.c == 0.0
    ensures t == Near(q, root) || t == Far(q, root)
  {
    OnlyRoots(q.a, q.h, q.c, root, t);
  }

  lemma NearNotAfterFar(q: Quadratic, root: real)
    requires q.a > 0.0 && root >= 0.0
    ensures Near(q, root) <= Far(q, root)
  {
    NearFirst(q.a, q.h, root);
  }

  /** A root of the quadratic makes its discriminant a square. */
  lemma RootNeedsDiscriminant(a: real, h: real, c: real, t: real)
    requires a * t * t - 2.0 * h * t + c == 0.0
    ensures h * h - a * c >= 0.0
  {
    var w := a * t - h;
    assert w * w == h * h - a * c + a * (a * t * t - 2.0 * h * t + c);
    ProductOfEqualNonneg(w, w);
  }

  /** Of the points of the ray on the sphere that the open interval surrounds,
      a hit reports the first. */
  lemma HitIsNearest(snap: X.Snapshot, s: Sphere, ray: R.Ray, rayT: I.Interval, isect: X.Intersection,
                     root: real, uv: (real, real), t: real)
    requires s.radius >= EPS_DEUX
    requires Discriminant(Coefficients(s, ray)) >= EPS_DEUX ==> IsSqrt(root, Discriminant(Coefficients(s, ray)))
    requires Length2(Sub(R.At(ray, t), CentreFor(s, ray))) == s.radius * s.radius && I.Surrounds(rayT, t)
    ensures var res := Intersect(snap, s, ray, rayT, isect, root, uv);
      res.0 ==> res.1.time <= t
  {
    var res := Intersect(snap, s, ray, rayT, isect, root, uv);
    if res.0 {
      var q := Coefficients(s, ray);
      var c := CentreFor(s, ray);
      DistanceIsQuadratic(s, ray, t, q, c);
      QuadraticRoots(q, root, t);
      NearNotAfterFar(q, root);
    }
  }

  /** A miss with a discriminant that passes the test means no point of the
      ray on the sphere lies inside the interval. */
  lemma MissIsComplete(snap: X.Snapshot, s: Sphere, ray: R.Ray, rayT: I.Interval, isect: X.Intersection,
                       root: real, uv: (real, real), t: real)
    requires s.radius >= EPS_DEUX
    requires Discriminant(Coefficients(s, ray)) >= EPS_DEUX && IsSqrt(root, Discriminant(Coefficients(s, ray)))
    requires Length2(Sub(R.At(ray, t), CentreFor(s, ray))) == s.radius * s.radius && I.Surrounds(rayT, t)
    ensures Intersect(snap, s, ray, rayT, isect, root, uv).0
  {
    LeadingPositive(s, ray);
    var q := Coefficients(s, ray);
    var c := CentreFor(s, ray);
    DistanceIsQuadratic(s, ray, t, q, c);
    QuadraticRoots(q, root, t);
  }

  /** A ray that meets the sphere at all has a nonnegative discriminant; the
      test against EPS_DEUX only drops rays that graze it. */
  lemma MeetingNeedsDiscriminant(s: Sphere, ray: R.Ray, t: real)
    requires Length2(Sub(R.At(ray, t), CentreFor(s, ray))) == s.radius * s.radius
    ensures Discriminant(Coefficients(s, ray)) >= 0.0
  {
    var q := Coefficients(s, ray);
    var c := CentreFor(s, ray);
    DistanceIsQuadratic(s, ray, t, q, c);
    QuadraticMeets(q, t);
  }

  lemma QuadraticMeets(q: Quadratic, t: real)
    requires q.a * t * t - 2.0 * q.h * t + q.c == 0.0
    ensures Discriminant(q) >= 0.0
  {
    RootNeedsDiscriminant(q.a, q.h, q.c, t);
  }

  /** (a . v) / r = a . (v / r). */
  lemma DotDiv(a: Vector3, v: Vector3, r: real)
    requires r > 0.0
    ensures Dot(a, Div(v, r)) * r == Dot(a, v)
  {
    assert a.x * (v.x / r) * r == a.x * v.x;
    assert a.y * (v.y / r) * r == a.y * v.y;
    assert a.z * (v.z / r) * r == a.z * v.z;
  }

  lemma SignOfQuotient(x: real, y: real, r: real)
    requires r > 0.0 && x * r == y
    ensures x < 0.0 <==> y < 0.0
  {
    if x < 0.0 { assert -x * r > 0.0; }
    if x >= 0.0 { assert x * r >= 0.0; }
  }

  /** The normal a hit stores is a unit vector turned against the ray, and
      `outside` tells whether the ray runs towards the centre side of the
      surface point. */
  lemma HitNormal(snap: X.Snapshot, s: Sphere, ray: R.Ray, rayT: I.Interval, isect: X.Intersection,
                  root: real, uv: (real, real))
    requires s.radius >= EPS_DEUX
    requires Discriminant(Coefficients(s, ray)) >= EPS_DEUX ==> IsSqrt(root, Discriminant(Coefficients(s, ray)))
    ensures var res := Intersect(snap, s, ray, rayT, isect, root, uv);
      res.0 ==> (Length2(res.1.normal) == 1.0 && Dot(ray.dir, res.1.normal) <= 0.0 &&
                 (res.1.outside <==> Dot(ray.dir, Sub(res.1.coords, CentreFor(s, ray))) < 0.0))
  {
    var res := Intersect(snap, s, ray, rayT, isect, root, uv);
    if res.0 {
      HitOnSphere(snap, s, ray, rayT, isect, root, uv);
      var c := CentreFor(s, ray);
      var v := Sub(res.1.coords, c);
      var outward := Div(v, s.radius);
      UnitAfterDivide(v, s.radius);
      X.SetOutwardLength(isect, ray, outward);
      DotDiv(ray.dir, v, s.radius);
      SignOfQuotient(Dot(ray.dir, outward), Dot(ray.dir, v), s.radius);
    }
  }

  /** Which fields a hit writes in each copy: every copy writes the material,
      source/ and include/ write u and v, and only include/ writes the object. */
  lemma HitWrites(snap: X.Snapshot, s: Sphere, ray: R.Ray, rayT: I.Interval, isect: X.Intersection,
                  root: real, uv: (real, real))
    requires s.radius >= EPS_DEUX
    requires Discriminant(Coefficients(s, ray)) >= EPS_DEUX ==> IsSqrt(root, Discriminant(Coefficients(s, ray)))
    ensures var res := Intersect(snap, s, ray, rayT, isect, root, uv);
      res.0 ==> (res.1.material == s.material &&
                 (snap == X.Early ==> res.1.u == isect.u && res.1.v == isect.v) &&
                 (snap != X.Early ==> res.1.u == uv.0 && res.1.v == uv.1) &&
                 (snap == X.Include ==> res.1.shape == s.id) &&
                 (snap != X.Include ==> res.1.shape == isect.shape))
  {
  }

  // ------------------------------------------------------------ boxes and Sample

  /** A coordinate of a point of the ball is within r of the centre's. */
  lemma SquareBound(d: real, r: real)
    requires r > 0.0 && d * d <= r * r
    ensures -r <= d <= r
  {
    SquareOrder(d, r);
  }

  lemma SquareOrder(d: real, r: real)
    requires r > 0.0
    ensures d > r ==> d * d > r * r
    ensures d < -r ==> d * d > r * r
  {
    if d > r { assert d * d > r * d > r * r; }
    if d < -r { assert d * d > -r * d > r * r; }
  }

  lemma ComponentSquares(w: Vector3)
    ensures w.x * w.x <= Length2(w) && w.y * w.y <= Length2(w) && w.z * w.z <= Length2(w)
  {
    ProductOfEqualNonneg(w.x, w.x);
    ProductOfEqualNonneg(w.y, w.y);
    ProductOfEqualNonneg(w.z, w.z);
  }

  lemma ContainsBetween(i: I.Interval, a: real, b: real, x: real)
    requires I.Contains(i, a) && I.Contains(i, b) && a <= x <= b
    ensures I.Contains(i, x)
  {
    E.LeTrans(i.lo, E.Fin(a), E.Fin(x));
    E.LeTrans(E.Fin(x), E.Fin(b), i.hi);
  }

  /** BallBox(c, r) holds every point at distance at most r from c. */
  lemma BallInBox(c: Vector3, r: real, padded: bool, p: Vector3, i: int)
    requires r > 0.0 && Length2(Sub(p, c)) <= r * r
    ensures I.Contains(B.Axis(BallBox(c, r, padded), i), Index(p, i))
  {
    var lo := Sub(c, Splat(r));
    var hi := Add(c, Splat(r));
    B.FromPointsProperties(lo, hi, padded, i);
    var w := Sub(p, c);
    ComponentSquares(w);
    SquareBound(Index(w, i), r);
    IndexComponentwise(p, c, r, i);
    IndexComponentwise(c, Splat(r), r, i);
    ContainsBetween(B.Axis(BallBox(c, r, padded), i), Index(lo, i), Index(hi, i), Index(p, i));
  }

  /** BBox() of a static sphere holds the ball. */
  lemma StaticBoxHoldsBall(c: Vector3, radius: real, material: nat, id: nat, padded: bool, p: Vector3, i: int)
    requires Length2(Sub(p, c)) <= StaticSphere(c, radius, material, id, padded).radius *
                                   StaticSphere(c, radius, material, id, padded).radius
    ensures I.Contains(B.Axis(StaticSphere(c, radius, material, id, padded).bbox, i), Index(p, i))
  {
    BallInBox(c, ClampRadius(radius), padded, p, i);
  }

  /** A moving sphere runs from c1 at time 0 to c2 at time 1, and its box
      spans the boxes of the ball at both ends. */
  lemma MovingBoxHoldsEnds(c1: Vector3, c2: Vector3, radius: real, material: nat, id: nat, padded: bool)
    ensures GetCentre(MovingSphere(c1, c2, radius, material, id, padded), 0.0) == c1
    ensures GetCentre(MovingSphere(c1, c2, radius, material, id, padded), 1.0) == c2
    ensures B.BoxIncludes(MovingSphere(c1, c2, radius, material, id, padded).bbox,
                          BallBox(c1, ClampRadius(radius), padded))
    ensures B.BoxIncludes(MovingSphere(c1, c2, radius, material, id, padded).bbox,
                          BallBox(c2, ClampRadius(radius), padded))
  {
    var r := ClampRadius(radius);
    var b1 := BallBox(c1, r, padded);
    var b2 := BallBox(c2, r, padded);
    BoxFinite(c1, r, padded);
    BoxFinite(c2, r, padded);
    B.UnionIncludes(b1, b2, padded);
  }

  lemma BoxFinite(c: Vector3, r: real, padded: bool)
    ensures B.BoxNotNaN(BallBox(c, r, padded))
  {
    B.FromPointsProperties(Sub(c, Splat(r)), Add(c, Splat(r)), padded, 0);
    B.FromPointsProperties(Sub(c, Splat(r)), Add(c, Splat(r)), padded, 1);
    B.FromPointsProperties(Sub(c, Splat(r)), Add(c, Splat(r)), padded, 2);
  }

  /** With a unit draw, Sample returns a point on the sphere and a unit
      normal pointing inwards. */
  lemma SampleOnSphere(s: Sphere, isect: X.Intersection, unit: Vector3)
    requires s.radius >= EPS_DEUX && Length2(unit) == 1.0
    ensures Length2(Sub(Sample(s, isect, unit).0.coords, s.centre0)) == s.radius * s.radius
    ensures Length2(Sample(s, isect, unit).0.normal) == 1.0
  {
    var w := Scale(unit, s.radius);
    assert Sub(Add(s.centre0, w), s.centre0) == w;
    ScaledLength(unit, 1.0, s.radius);
    X.NegLength(unit);
  }
}
