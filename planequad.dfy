/** Quad in source/shapes.h: a parallelogram pin + a u + b v, 0 <= a, b <= 1,
    intersected by a plane test followed by the barycentric test Interior. */
module PlaneQuads {
  import opened Vectors
  import opened Global
  import E = ExtReal
  import R = Rays
  import I = Intervals
  import B = Bounds
  import X = Intersections
  import T = Triangles
  import Q = Quads

  /** The fields of the quad. `constant` is the offset of the plane
      Dot(p, normal) = constant; `vecW` is n / Dot(n, n) with n = Cross(u, v). */
  datatype PlaneQuad = PlaneQuad(pin: Vector3, vecU: Vector3, vecV: Vector3, vecW: Vector3, normal: Vector3,
                                 constant: real, bbox: B.Bounds3, material: nat)

  /** The plain constructor. `len` is the length of n = Cross(u, v), which
      must be nonzero for Normalize and for n / Dot(n, n). CountBBox is the
      union of the boxes over the two diagonals, as in include/shapes.h. */
  function MakePlaneQuad(p: Vector3, u: Vector3, v: Vector3, material: nat, len: real): (q: PlaneQuad)
    requires len > 0.0 && IsSqrt(len, Length2(Cross(u, v)))
    ensures q.pin == p && q.vecU == u && q.vecV == v && q.material == material
    ensures q.normal == Div(Cross(u, v), len) && Length2(q.normal) == 1.0
    ensures q.constant == Dot(p, q.normal)
    ensures Length2(Cross(u, v)) != 0.0 && q.vecW == Div(Cross(u, v), Length2(Cross(u, v)))
    ensures Dot(q.vecW, Cross(u, v)) == 1.0
    ensures q.bbox == Q.QuadBox(p, u, v)
  {
    var n := Cross(u, v);
    RootPositive(len, Length2(n));
    DotSelf(n);
    DotOfQuotient(n, Dot(n, n));
    var normal := Normalize(n, len);
    PlaneQuad(p, u, v, Div(n, Dot(n, n)), normal, Dot(p, normal), Q.QuadBox(p, u, v), material)
  }

  /** What the constructor establishes and Intersect relies on: the normal is
      orthogonal to both edges, the pin lies on the plane, and vecW scaled
      onto n gives 1. */
  predicate WellFormed(q: PlaneQuad) {
    Dot(q.normal, q.vecU) == 0.0 && Dot(q.normal, q.vecV) == 0.0 && q.constant == Dot(q.pin, q.normal)
    && Dot(q.vecW, Cross(q.vecU, q.vecV)) == 1.0
  }

  /** Interior: both coordinates in the closed unit interval; u and v are
      written only when they are. */
  function Interior(a: real, b: real, isect: X.Intersection): (res: (bool, X.Intersection))
    ensures res.0 <==> 0.0 <= a <= 1.0 && 0.0 <= b <= 1.0
    ensures res.0 ==> res.1 == isect.(u := a, v := b)
    ensures !res.0 ==> res.1 == isect
  {
    I.FiniteContains(0.0, 1.0, a);
    I.FiniteContains(0.0, 1.0, b);
    var unit := I.Make(E.Fin(0.0), E.Fin(1.0));
    if !I.Contains(unit, a) || !I.Contains(unit, b) then (false, isect)
    else (true, isect.(u := a, v := b))
  }

  /** Dot(ray.dir, normal), the denominator of the plane test. */
  function Denominator(q: PlaneQuad, ray: R.Ray): real {
    Dot(ray.dir, q.normal)
  }

  /** The ray parameter where it meets the plane. */
  function PlaneTime(q: PlaneQuad, ray: R.Ray): real
    requires Denominator(q, ray) != 0.0
  {
    (q.constant - Dot(ray.org, q.normal)) / Denominator(q, ray)
  }

  /** alpha = Dot(w, Cross(p - pin, v)) and beta = Dot(w, Cross(u, p - pin)). */
  function Alpha(q: PlaneQuad, p: Vector3): real {
    Dot(q.vecW, Cross(Sub(p, q.pin), q.vecV))
  }

  function Beta(q: PlaneQuad, p: Vector3): real {
    Dot(q.vecW, Cross(q.vecU, Sub(p, q.pin)))
  }

  /** A ray nearly parallel to the plane is rejected. */
  predicate Parallel(q: PlaneQuad, ray: R.Ray) {
    Abs(Denominator(q, ray)) < EPS_DEUX
  }

  /** Quad::Intersect. Every false return leaves the record as it was; a hit
      writes coords, time, material and (through Interior) u and v, and
      goes through SetOutward. The source/ record has no shape field, so
      `shape` stays as it was. */
  function Intersect(q: PlaneQuad, ray: R.Ray, rayT: I.Interval, isect: X.Intersection)
    : (res: (bool, X.Intersection))
    ensures !res.0 ==> res.1 == isect
    ensures res.0 <==> (!Parallel(q, ray) && I.Contains(rayT, PlaneTime(q, ray)) &&
                        0.0 <= Alpha(q, R.At(ray, PlaneTime(q, ray))) <= 1.0 &&
                        0.0 <= Beta(q, R.At(ray, PlaneTime(q, ray))) <= 1.0)
    ensures res.0 ==> (!Parallel(q, ray) && res.1.time == PlaneTime(q, ray) &&
                       res.1.coords == R.At(ray, res.1.time) && I.Contains(rayT, res.1.time))
    ensures res.0 ==> res.1.u == Alpha(q, res.1.coords) && res.1.v == Beta(q, res.1.coords)
    ensures res.0 ==> res.1.material == q.material && res.1.shape == isect.shape
    ensures res.0 ==> (Dot(ray.dir, res.1.normal) <= 0.0 && (res.1.outside <==> Dot(ray.dir, q.normal) < 0.0))
  {
    if Parallel(q, ray) then (false, isect)
    else
      var t := PlaneTime(q, ray);
      if !I.Contains(rayT, t) then (false, isect)
      else
        var hit := R.At(ray, t);
        var inside := Interior(Alpha(q, hit), Beta(q, hit), isect);
        if !inside.0 then (false, isect)
        else (true, X.SetOutward(inside.1.(coords := hit, time := t, material := q.material), ray, q.normal))
  }

  // ------------------------------------------------------------ lemmas

  lemma DotOfQuotient(n: Vector3, l: real)
    requires l == Dot(n, n) && l != 0.0
    ensures Dot(Div(n, l), n) == 1.0
  {
    QuotientProduct(n.x, l);
    QuotientProduct(n.y, l);
    QuotientProduct(n.z, l);
    SumOfQuotients(n.x * n.x, n.y * n.y, n.z * n.z, l);
  }

  lemma QuotientProduct(x: real, l: real)
    requires l != 0.0
    ensures (x / l) * x == (x * x) / l
  {
  }

  lemma SumOfQuotients(a: real, b: real, c: real, l: real)
    requires l != 0.0 && a + b + c == l
    ensures a / l + b / l + c / l == 1.0
  {
  }

  lemma DotSelf(n: Vector3)
    ensures Dot(n, n) == Length2(n)
  {
  }

  /** The constructor's quad is well formed. */
  lemma MadeWellFormed(p: Vector3, u: Vector3, v: Vector3, material: nat, len: real)
    requires len > 0.0 && IsSqrt(len, Length2(Cross(u, v)))
    ensures WellFormed(MakePlaneQuad(p, u, v, material, len))
  {
    var q := MakePlaneQuad(p, u, v, material, len);
    DotCross(u, v);
    DotOfDiv(Cross(u, v), u, len);
    DotOfDiv(Cross(u, v), v, len);
  }

  lemma DotOfDiv(n: Vector3, a: Vector3, len: real)
    requires len != 0.0 && Dot(n, a) == 0.0
    ensures Dot(Div(n, len), a) == 0.0
  {
    assert Dot(Div(n, len), a) == Dot(n, a) / len;
  }

  /** Dot(ray(t), n) is Dot(org, n) + t Dot(dir, n). */
  lemma DotAt(ray: R.Ray, t: real, n: Vector3)
    ensures Dot(R.At(ray, t), n) == Dot(ray.org, n) + t * Dot(ray.dir, n)
  {
  }

  lemma QuotientSolves(c: real, o: real, d: real, t: real)
    requires d != 0.0 && t == (c - o) / d
    ensures o + t * d == c
  {
  }

  lemma QuotientUnique(c: real, o: real, d: real, t: real)
    requires d != 0.0 && o + t * d == c
    ensures t == (c - o) / d
  {
  }

  /** The plane point the ray reaches at PlaneTime satisfies the plane
      equation. */
  lemma PlaneTimeOnPlane(q: PlaneQuad, ray: R.Ray)
    requires Denominator(q, ray) != 0.0
    ensures Dot(R.At(ray, PlaneTime(q, ray)), q.normal) == q.constant
  {
    DotAt(ray, PlaneTime(q, ray), q.normal);
    QuotientSolves(q.constant, Dot(ray.org, q.normal), Denominator(q, ray), PlaneTime(q, ray));
  }

  /** Every hit lies on the plane of the quad. */
  lemma HitOnPlane(q: PlaneQuad, ray: R.Ray, rayT: I.Interval, isect: X.Intersection)
    ensures var res := Intersect(q, ray, rayT, isect);
      res.0 ==> Dot(res.1.coords, q.normal) == q.constant
  {
    if !Parallel(q, ray) {
      PlaneTimeOnPlane(q, ray);
    }
  }

  /** A ray (nearly) parallel to the plane never hits, whatever the interval
      and the record. */
  lemma ParallelRejected(q: PlaneQuad, ray: R.Ray, rayT: I.Interval, isect: X.Intersection)
    requires Parallel(q, ray)
    ensures Intersect(q, ray, rayT, isect) == (false, isect)
  {
  }

  lemma OffsetOfPlanePoint(p: Vector3, u: Vector3, v: Vector3, a: real, b: real)
    ensures Sub(T.PlanePoint(p, u, v, a, b), p) == Add(Scale(u, a), Scale(v, b))
  {
  }

  /** The barycentric identity: for a well-formed quad, the point
      pin + a u + b v has alpha = a and beta = b, for every real a and b. */
  lemma AlphaBeta(q: PlaneQuad, a: real, b: real)
    requires Dot(q.vecW, Cross(q.vecU, q.vecV)) == 1.0
    ensures Alpha(q, T.PlanePoint(q.pin, q.vecU, q.vecV, a, b)) == a
    ensures Beta(q, T.PlanePoint(q.pin, q.vecU, q.vecV, a, b)) == b
  {
    OffsetOfPlanePoint(q.pin, q.vecU, q.vecV, a, b);
    AlphaOf(q.vecW, q.vecU, q.vecV, a, b);
    BetaOf(q.vecW, q.vecU, q.vecV, a, b);
  }

  /** Dot(w, Cross(a u + b v, v)) is a when Dot(w, Cross(u, v)) = 1. */
  lemma AlphaOf(w: Vector3, u: Vector3, v: Vector3, a: real, b: real)
    requires Dot(w, Cross(u, v)) == 1.0
    ensures Dot(w, Cross(Add(Scale(u, a), Scale(v, b)), v)) == a
  {
    CrossAddLeft(Scale(u, a), Scale(v, b), v);
    CrossScaleLeft(u, a, v);
    CrossScaleLeft(v, b, v);
    CrossSelf(v);
    DotAdd(w, Scale(Cross(u, v), a), Scale(Cross(v, v), b));
    DotScaledRight(w, Cross(u, v), a);
    DotScaledRight(w, Cross(v, v), b);
    DotWithZero(w);
  }

  /** Dot(w, Cross(u, a u + b v)) is b when Dot(w, Cross(u, v)) = 1. */
  lemma BetaOf(w: Vector3, u: Vector3, v: Vector3, a: real, b: real)
    requires Dot(w, Cross(u, v)) == 1.0
    ensures Dot(w, Cross(u, Add(Scale(u, a), Scale(v, b)))) == b
  {
    CrossAddRight(u, Scale(u, a), Scale(v, b));
    CrossScaleRight(u, u, a);
    CrossScaleRight(u, v, b);
    CrossSelf(u);
    DotAdd(w, Scale(Cross(u, u), a), Scale(Cross(u, v), b));
    DotScaledRight(w, Cross(u, u), a);
    DotScaledRight(w, Cross(u, v), b);
    DotWithZero(w);
  }

  /** Points of the plane of a well-formed quad at (a, b) satisfy the plane
      equation. */
  lemma PlanePointOnPlane(q: PlaneQuad, a: real, b: real)
    requires WellFormed(q)
    ensures Dot(T.PlanePoint(q.pin, q.vecU, q.vecV, a, b), q.normal) == q.constant
  {
    DotOfCombination(q.pin, q.vecU, q.vecV, q.normal, a, b);
  }

  lemma DotOfCombination(p: Vector3, u: Vector3, v: Vector3, n: Vector3, a: real, b: real)
    ensures Dot(T.PlanePoint(p, u, v, a, b), n) == Dot(p, n) + a * Dot(u, n) + b * Dot(v, n)
  {
  }

  /** Completeness: a ray that is not parallel to a well-formed quad and
      reaches the point pin + a u + b v with a, b in [0, 1] at a time t in
      the interval hits, at time t, with u = a and v = b. */
  lemma HitsInteriorPoint(q: PlaneQuad, ray: R.Ray, rayT: I.Interval, isect: X.Intersection,
                          a: real, b: real, t: real)
    requires WellFormed(q) && !Parallel(q, ray)
    requires R.At(ray, t) == T.PlanePoint(q.pin, q.vecU, q.vecV, a, b)
    requires I.Contains(rayT, t) && 0.0 <= a <= 1.0 && 0.0 <= b <= 1.0
    ensures var res := Intersect(q, ray, rayT, isect);
      res.0 && res.1.time == t && res.1.u == a && res.1.v == b
  {
    ReachedAtPlaneTime(q, ray, a, b, t);
    AlphaBeta(q, a, b);
  }

  /** The ray reaches a point of the plane only at PlaneTime. */
  lemma ReachedAtPlaneTime(q: PlaneQuad, ray: R.Ray, a: real, b: real, t: real)
    requires WellFormed(q) && !Parallel(q, ray)
    requires R.At(ray, t) == T.PlanePoint(q.pin, q.vecU, q.vecV, a, b)
    ensures PlaneTime(q, ray) == t
  {
    PlanePointOnPlane(q, a, b);
    DotAt(ray, t, q.normal);
    QuotientUnique(q.constant, Dot(ray.org, q.normal), Denominator(q, ray), t);
  }

  /** The box holds the four corners. */
  lemma BoxHoldsCorners(q: PlaneQuad, i: int)
    requires q.bbox == Q.QuadBox(q.pin, q.vecU, q.vecV)
    ensures I.Contains(B.Axis(q.bbox, i), Index(q.pin, i))
    ensures I.Contains(B.Axis(q.bbox, i), Index(Add(q.pin, q.vecU), i))
    ensures I.Contains(B.Axis(q.bbox, i), Index(Add(q.pin, q.vecV), i))
    ensures I.Contains(B.Axis(q.bbox, i), Index(Add(Add(q.pin, q.vecU), q.vecV), i))
  {
    Q.BoxHoldsCorners(q.pin, q.vecU, q.vecV, i);
  }
}
