/** Quad in include/shapes.h: a parallelogram vert0, vert0 + u, vert0 + v,
    vert0 + u + v, intersected as two triangles with TriangleIsect. */
module Quads {
  import opened Vectors
  import opened Global
  import E = ExtReal
  import R = Rays
  import I = Intervals
  import B = Bounds
  import X = Intersections
  import T = Triangles

  /** The fields of a Quad. `area` is Length(Cross(vec_u, vec_v)), which
      Area() recomputes on each call; `id` stands for the object itself. */
  datatype Quad = Quad(vert0: Vector3, vecU: Vector3, vecV: Vector3, normal: Vector3, area: real,
                       bbox: B.Bounds3, backCulling: bool, material: nat, id: nat)

  /** CountBBox: the union of the boxes over the two diagonals (padded, as
      every box of include/bounds.h). */
  function QuadBox(p: Vector3, u: Vector3, v: Vector3): B.Bounds3 {
    B.Union(B.FromPoints(p, Add(Add(p, u), v), true), B.FromPoints(Add(p, u), Add(p, v), true), true)
  }

  /** The plain constructor: normal = Normalize(Cross(u, v)), no back culling.
      `len` is the length of Cross(u, v). */
  function MakeQuad(p: Vector3, u: Vector3, v: Vector3, material: nat, id: nat, len: real): (q: Quad)
    requires len > 0.0 && IsSqrt(len, Length2(Cross(u, v)))
    ensures q.vert0 == p && q.vecU == u && q.vecV == v && !q.backCulling
    ensures q.normal == Div(Cross(u, v), len) && Length2(q.normal) == 1.0
    ensures q.area == len && q.bbox == QuadBox(p, u, v)
    ensures q.material == material && q.id == id
  {
    Quad(p, u, v, Normalize(Cross(u, v), len), len, QuadBox(p, u, v), false, material, id)
  }

  /** The constructor that takes a normal and turns on back culling, with the
      transform already applied to the vertex, the edges and the normal.
      `nlen` is the length of the normal, `area` that of Cross(u, v). */
  function MakeCulledQuad(p: Vector3, u: Vector3, v: Vector3, n: Vector3, material: nat, id: nat,
                          nlen: real, area: real): (q: Quad)
    requires nlen > 0.0 && IsSqrt(nlen, Length2(n)) && IsSqrt(area, Length2(Cross(u, v)))
    ensures q.vert0 == p && q.vecU == u && q.vecV == v && q.backCulling
    ensures q.normal == Div(n, nlen) && Length2(q.normal) == 1.0
    ensures q.area == area && q.bbox == QuadBox(p, u, v)
    ensures q.material == material && q.id == id
  {
    Quad(p, u, v, Normalize(n, nlen), area, QuadBox(p, u, v), true, material, id)
  }

  function Corner1(q: Quad): Vector3 { Add(q.vert0, q.vecU) }
  function Corner2(q: Quad): Vector3 { Add(q.vert0, q.vecV) }
  function Corner3(q: Quad): Vector3 { Add(Add(q.vert0, q.vecU), q.vecV) }

  /** The back-culling test that opens Intersect. */
  predicate Culled(q: Quad, ray: R.Ray) {
    q.backCulling && Dot(q.normal, ray.dir) > 0.0
  }

  /** The two TriangleIsect calls, from zeroed locals: the (vert0, u, v)
      triangle first, then the opposite one from vert3 along -u and -v, whose
      coordinates are reported as (1 - u, 1 - v). */
  function TwoTriangles(q: Quad, ray: R.Ray): T.TriResult {
    var first := T.TriangleIsect(q.vecU, q.vecV, q.vert0, ray, 0.0, 0.0, 0.0);
    if first.ok then first
    else
      var second := T.TriangleIsect(Neg(q.vecU), Neg(q.vecV), Corner3(q), ray, first.t, first.u, first.v);
      if second.ok then T.TriResult(true, second.t, 1.0 - second.u, 1.0 - second.v)
      else T.TriResult(false, second.t, second.u, second.v)
  }

  /** The writes after the interval check: a culling quad stores its normal
      as it is and leaves `outside` alone; the others go through SetOutward. */
  function Finish(q: Quad, ray: R.Ray, isect: X.Intersection, t: real): X.Intersection {
    var r := isect.(coords := R.At(ray, t), time := t, material := q.material, shape := q.id);
    if q.backCulling then r.(normal := q.normal) else X.SetOutward(r, ray, q.normal)
  }

  /** Quad::Intersect as written: u and v go into the record as soon as a
      triangle is hit, before the closed-interval check on t, so a hit
      outside the interval returns false with u and v changed. */
  function IntersectAsWritten(q: Quad, ray: R.Ray, rayT: I.Interval, isect: X.Intersection)
    : (res: (bool, X.Intersection))
    ensures res.0 ==> res == Intersect(q, ray, rayT, isect)
  {
    if Culled(q, ray) then (false, isect)
    else
      var p := TwoTriangles(q, ray);
      if !p.ok then (false, isect)
      else
        var early := isect.(u := p.u, v := p.v);
        if !I.Contains(rayT, p.t) then (false, early)
        else (true, Finish(q, ray, early, p.t))
  }

  /** Quad::Intersect with the u and v writes kept until every test has
      passed, so that a false return leaves the record as it was. */
  function Intersect(q: Quad, ray: R.Ray, rayT: I.Interval, isect: X.Intersection)
    : (res: (bool, X.Intersection))
    ensures !res.0 ==> res.1 == isect
    ensures res.0 <==> (!Culled(q, ray) && TwoTriangles(q, ray).ok && I.Contains(rayT, TwoTriangles(q, ray).t))
    ensures res.0 ==> res.1.time == TwoTriangles(q, ray).t && res.1.coords == R.At(ray, res.1.time)
    ensures res.0 ==> res.1.u == TwoTriangles(q, ray).u && res.1.v == TwoTriangles(q, ray).v
    ensures res.0 ==> res.1.material == q.material && res.1.shape == q.id
  {
    if Culled(q, ray) then (false, isect)
    else
      var p := TwoTriangles(q, ray);
      if !p.ok || !I.Contains(rayT, p.t) then (false, isect)
      else (true, Finish(q, ray, isect.(u := p.u, v := p.v), p.t))
  }

  /** Quad::Sample: `u` and `v` are the two RandomFloat draws. The pdf is
      1 / Area(), which is +inf for a quad of zero area. */
  function Sample(q: Quad, isect: X.Intersection, u: real, v: real): (res: (X.Intersection, E.Ext))
    ensures res.0.coords == T.PlanePoint(q.vert0, q.vecU, q.vecV, u, v) && res.0.time == 0.0
    ensures res.0.material == q.material
    ensures res.0.normal == (if q.backCulling then q.normal else isect.normal)
    ensures res.0.outside == isect.outside && res.0.u == isect.u && res.0.v == isect.v
    ensures res.0.shape == isect.shape
    ensures q.area > 0.0 ==> res.1.Fin? && res.1.r * q.area == 1.0
    ensures q.area == 0.0 ==> res.1 == E.PosInf
  {
    var r := isect.(coords := T.PlanePoint(q.vert0, q.vecU, q.vecV, u, v), time := 0.0, material := q.material);
    var pdf := if q.area == 0.0 then E.PosInf else E.Fin(1.0 / q.area);
    (if q.backCulling then r.(normal := q.normal) else r, pdf)
  }

  // ------------------------------------------------------------ lemmas

  /** The corner opposite vert0, walked back along u and v, is the point of
      the quad with coordinates (1 - a, 1 - b). */
  lemma OppositeCorner(p: Vector3, u: Vector3, v: Vector3, a: real, b: real)
    ensures T.PlanePoint(Add(Add(p, u), v), Neg(u), Neg(v), a, b) == T.PlanePoint(p, u, v, 1.0 - a, 1.0 - b)
  {
    OppositeCoordinate(p.x, u.x, v.x, a, b);
    OppositeCoordinate(p.y, u.y, v.y, a, b);
    OppositeCoordinate(p.z, u.z, v.z, a, b);
  }

  lemma OppositeCoordinate(p: real, u: real, v: real, a: real, b: real)
    ensures p + u + v + -u * a + -v * b == p + u * (1.0 - a) + v * (1.0 - b)
  {
  }

  /** What the two-triangle step reports is a point of the quad's plane at
      the reported coordinates, which lie in one of the two (slightly
      widened) triangles. */
  lemma TwoTrianglesOnQuad(q: Quad, ray: R.Ray)
    ensures var p := TwoTriangles(q, ray);
      p.ok ==> (R.At(ray, p.t) == T.PlanePoint(q.vert0, q.vecU, q.vecV, p.u, p.v) &&
                (T.InTriangle(p.u, p.v) || T.InTriangle(1.0 - p.u, 1.0 - p.v)))
  {
    var first := T.TriangleIsect(q.vecU, q.vecV, q.vert0, ray, 0.0, 0.0, 0.0);
    T.TriangleHitOnTriangle(q.vecU, q.vecV, q.vert0, ray, 0.0, 0.0, 0.0);
    if !first.ok {
      var second := T.TriangleIsect(Neg(q.vecU), Neg(q.vecV), Corner3(q), ray, first.t, first.u, first.v);
      T.TriangleHitOnTriangle(Neg(q.vecU), Neg(q.vecV), Corner3(q), ray, first.t, first.u, first.v);
      OppositeCorner(q.vert0, q.vecU, q.vecV, second.u, second.v);
      assert 1.0 - (1.0 - second.u) == second.u && 1.0 - (1.0 - second.v) == second.v;
    }
  }

  /** Negating both edges leaves the determinant unchanged. */
  lemma NegatedDet(u: Vector3, v: Vector3, ray: R.Ray)
    ensures T.Det(Neg(u), Neg(v), ray) == T.Det(u, v, ray)
  {
  }

  /** The converse of TwoTrianglesOnQuad: a ray that meets the quad's plane
      at s in the point with coordinates (a, b) of either triangle, with a
      determinant that passes the test, is reported at s with (a, b). */
  lemma TwoTrianglesFindPoint(q: Quad, ray: R.Ray, s: real, a: real, b: real)
    requires Abs(T.Det(q.vecU, q.vecV, ray)) >= EPS_QUAT
    requires R.At(ray, s) == T.PlanePoint(q.vert0, q.vecU, q.vecV, a, b)
    requires T.InTriangle(a, b) || T.InTriangle(1.0 - a, 1.0 - b)
    ensures TwoTriangles(q, ray) == T.TriResult(true, s, a, b)
  {
    T.PlaneCoordinatesUnique(ray, q.vert0, q.vecU, q.vecV, s, a, b);
    if !T.InTriangle(a, b) {
      var first := T.TriangleIsect(q.vecU, q.vecV, q.vert0, ray, 0.0, 0.0, 0.0);
      NegatedDet(q.vecU, q.vecV, ray);
      OppositeCorner(q.vert0, q.vecU, q.vecV, 1.0 - a, 1.0 - b);
      assert 1.0 - (1.0 - a) == a && 1.0 - (1.0 - b) == b;
      T.TriangleFindsPoint(Neg(q.vecU), Neg(q.vecV), Corner3(q), ray, first.t, first.u, first.v, s, 1.0 - a, 1.0 - b);
    }
  }

  /** Every point of the closed parallelogram lies in one of the two
      triangles. */
  lemma SquareCovered(a: real, b: real)
    requires 0.0 <= a <= 1.0 && 0.0 <= b <= 1.0
    ensures T.InTriangle(a, b) || T.InTriangle(1.0 - a, 1.0 - b)
  {
  }

  /** A ray that is not culled and meets the closed parallelogram at a time
      inside the interval, with a determinant that passes the test, is
      reported as a hit at that time and at that point's coordinates. */
  lemma FindsPointOnQuad(q: Quad, ray: R.Ray, rayT: I.Interval, isect: X.Intersection, s: real, a: real, b: real)
    requires !Culled(q, ray) && Abs(T.Det(q.vecU, q.vecV, ray)) >= EPS_QUAT
    requires R.At(ray, s) == T.PlanePoint(q.vert0, q.vecU, q.vecV, a, b)
    requires 0.0 <= a <= 1.0 && 0.0 <= b <= 1.0 && I.Contains(rayT, s)
    ensures var res := Intersect(q, ray, rayT, isect);
      res.0 && res.1.time == s && res.1.u == a && res.1.v == b
  {
    SquareCovered(a, b);
    TwoTrianglesFindPoint(q, ray, s, a, b);
  }

  /** The first triangle, when it is hit, decides the reported coordinates. */
  lemma FirstTriangleFirst(q: Quad, ray: R.Ray)
    requires T.TriangleIsect(q.vecU, q.vecV, q.vert0, ray, 0.0, 0.0, 0.0).ok
    ensures TwoTriangles(q, ray) == T.TriangleIsect(q.vecU, q.vecV, q.vert0, ray, 0.0, 0.0, 0.0)
  {
  }

  /** A hit lies on the quad at the reported (u, v). */
  lemma HitOnQuad(q: Quad, ray: R.Ray, rayT: I.Interval, isect: X.Intersection)
    ensures var res := Intersect(q, ray, rayT, isect);
      res.0 ==> (res.1.coords == T.PlanePoint(q.vert0, q.vecU, q.vecV, res.1.u, res.1.v) &&
                 I.Contains(rayT, res.1.time))
  {
    TwoTrianglesOnQuad(q, ray);
  }

  /** Every hit's stored normal faces against the ray. A culling quad keeps
      its own normal and leaves `outside` as it was; the others go through
      SetOutward. */
  lemma HitNormal(q: Quad, ray: R.Ray, rayT: I.Interval, isect: X.Intersection)
    ensures var res := Intersect(q, ray, rayT, isect);
      res.0 ==> (Dot(ray.dir, res.1.normal) <= 0.0 &&
                 (q.backCulling ==> res.1.normal == q.normal && res.1.outside == isect.outside) &&
                 (!q.backCulling ==> (res.1.outside <==> Dot(ray.dir, q.normal) < 0.0)))
  {
    DotCross(ray.dir, q.normal);
  }

  /** A culling quad turned away from the ray is never hit and the record is
      left alone. */
  lemma BackFacesRejected(q: Quad, ray: R.Ray, rayT: I.Interval, isect: X.Intersection)
    requires q.backCulling && Dot(q.normal, ray.dir) > 0.0
    ensures Intersect(q, ray, rayT, isect) == (false, isect)
    ensures IntersectAsWritten(q, ray, rayT, isect) == (false, isect)
  {
  }

  /** The written copy and the corrected one agree on every hit and on the
      returned bool; on a false return the written copy differs at most in
      u and v. */
  lemma AsWrittenOnlyLeaksUV(q: Quad, ray: R.Ray, rayT: I.Interval, isect: X.Intersection)
    ensures IntersectAsWritten(q, ray, rayT, isect).0 == Intersect(q, ray, rayT, isect).0
    ensures var w := IntersectAsWritten(q, ray, rayT, isect);
      !w.0 ==> w.1 == isect.(u := w.1.u, v := w.1.v)
  {
  }

  /** Any quad on the unit square, without culling, and a ray down through
      (0.25, 0.25) that meets it at t = 1, with the interval [2, 3]: the
      written copy returns false with u and v set to 0.25, so every record
      whose u or v was something else comes back changed. */
  lemma AsWrittenLeaksUV(q: Quad, ray: R.Ray, isect: X.Intersection)
    requires q.vert0 == Vector3(0.0, 0.0, 0.0) && q.vecU == Vector3(1.0, 0.0, 0.0) && q.vecV == Vector3(0.0, 1.0, 0.0) && !q.backCulling
    requires ray.org == Vector3(0.25, 0.25, 1.0) && ray.dir == Vector3(0.0, 0.0, -1.0)
    ensures IntersectAsWritten(q, ray, I.Make(E.Fin(2.0), E.Fin(3.0)), isect) == (false, isect.(u := 0.25, v := 0.25))
  {
    ExampleMisses(q, ray);
    LeakOutsideInterval(q, ray, I.Make(E.Fin(2.0), E.Fin(3.0)), isect);
  }

  /** The example's first triangle is hit at t = 1, outside [2, 3]. */
  lemma ExampleMisses(q: Quad, ray: R.Ray)
    requires q.vert0 == Vector3(0.0, 0.0, 0.0) && q.vecU == Vector3(1.0, 0.0, 0.0) && q.vecV == Vector3(0.0, 1.0, 0.0)
    requires ray.org == Vector3(0.25, 0.25, 1.0) && ray.dir == Vector3(0.0, 0.0, -1.0)
    ensures var first := T.TriangleIsect(q.vecU, q.vecV, q.vert0, ray, 0.0, 0.0, 0.0);
      first == T.TriResult(true, 1.0, 0.25, 0.25) && !I.Contains(I.Make(E.Fin(2.0), E.Fin(3.0)), first.t)
  {
    ExampleTriangle(q.vecU, q.vecV, q.vert0, ray);
    I.FiniteContains(2.0, 3.0, 1.0);
  }

  /** A first-triangle hit outside the interval: the written copy returns
      false with the triangle's u and v in the record. */
  lemma LeakOutsideInterval(q: Quad, ray: R.Ray, rayT: I.Interval, isect: X.Intersection)
    requires !q.backCulling
    requires T.TriangleIsect(q.vecU, q.vecV, q.vert0, ray, 0.0, 0.0, 0.0).ok
    requires !I.Contains(rayT, T.TriangleIsect(q.vecU, q.vecV, q.vert0, ray, 0.0, 0.0, 0.0).t)
    ensures var first := T.TriangleIsect(q.vecU, q.vecV, q.vert0, ray, 0.0, 0.0, 0.0);
      IntersectAsWritten(q, ray, rayT, isect) == (false, isect.(u := first.u, v := first.v))
  {
  }

  /** The first triangle of the example: det = 1, u = v = 0.25, t = 1. Each
      concrete product is its own lemma below. */
  lemma ExampleTriangle(e1: Vector3, e2: Vector3, p0: Vector3, ray: R.Ray)
    requires e1 == Vector3(1.0, 0.0, 0.0) && e2 == Vector3(0.0, 1.0, 0.0) && p0 == Vector3(0.0, 0.0, 0.0)
    requires ray.org == Vector3(0.25, 0.25, 1.0) && ray.dir == Vector3(0.0, 0.0, -1.0)
    ensures T.TriangleIsect(e1, e2, p0, ray, 0.0, 0.0, 0.0) == T.TriResult(true, 1.0, 0.25, 0.25)
  {
    ExampleDeterminant(e1, e2, p0, ray);
    ExampleU(e1, e2, p0, ray);
    ExampleV(e1, e2, p0, ray);
    ExampleT(e1, e2, p0, ray);
    InsideValue();
    UnitDeterminant(e1, e2, p0, ray, 0.25, 0.25, 1.0);
  }

  lemma ExampleDeterminant(e1: Vector3, e2: Vector3, p0: Vector3, ray: R.Ray)
    requires e1 == Vector3(1.0, 0.0, 0.0) && e2 == Vector3(0.0, 1.0, 0.0) && p0 == Vector3(0.0, 0.0, 0.0)
    requires ray.org == Vector3(0.25, 0.25, 1.0) && ray.dir == Vector3(0.0, 0.0, -1.0)
    ensures T.Det(e1, e2, ray) == 1.0
  {
    DirCrossEdge2();
    DeterminantValue();
  }

  lemma ExampleU(e1: Vector3, e2: Vector3, p0: Vector3, ray: R.Ray)
    requires e1 == Vector3(1.0, 0.0, 0.0) && e2 == Vector3(0.0, 1.0, 0.0) && p0 == Vector3(0.0, 0.0, 0.0)
    requires ray.org == Vector3(0.25, 0.25, 1.0) && ray.dir == Vector3(0.0, 0.0, -1.0)
    ensures Dot(Sub(ray.org, p0), Cross(ray.dir, e2)) == 0.25
  {
    OriginOffset();
    DirCrossEdge2();
    UValue();
  }

  lemma ExampleV(e1: Vector3, e2: Vector3, p0: Vector3, ray: R.Ray)
    requires e1 == Vector3(1.0, 0.0, 0.0) && e2 == Vector3(0.0, 1.0, 0.0) && p0 == Vector3(0.0, 0.0, 0.0)
    requires ray.org == Vector3(0.25, 0.25, 1.0) && ray.dir == Vector3(0.0, 0.0, -1.0)
    ensures Dot(ray.dir, Cross(Sub(ray.org, p0), e1)) == 0.25
  {
    OriginOffset();
    OffsetCrossEdge1();
    VValue();
  }

  lemma ExampleT(e1: Vector3, e2: Vector3, p0: Vector3, ray: R.Ray)
    requires e1 == Vector3(1.0, 0.0, 0.0) && e2 == Vector3(0.0, 1.0, 0.0) && p0 == Vector3(0.0, 0.0, 0.0)
    requires ray.org == Vector3(0.25, 0.25, 1.0) && ray.dir == Vector3(0.0, 0.0, -1.0)
    ensures Dot(e2, Cross(Sub(ray.org, p0), e1)) == 1.0
  {
    OriginOffset();
    OffsetCrossEdge1();
    TValue();
  }

  lemma DirCrossEdge2()
    ensures Cross(Vector3(0.0, 0.0, -1.0), Vector3(0.0, 1.0, 0.0)) == Vector3(1.0, 0.0, 0.0)
  {
  }

  lemma OriginOffset()
    ensures Sub(Vector3(0.25, 0.25, 1.0), Vector3(0.0, 0.0, 0.0)) == Vector3(0.25, 0.25, 1.0)
  {
  }

  lemma OffsetCrossEdge1()
    ensures Cross(Vector3(0.25, 0.25, 1.0), Vector3(1.0, 0.0, 0.0)) == Vector3(0.0, 1.0, -0.25)
  {
  }

  lemma DeterminantValue()
    ensures Dot(Vector3(1.0, 0.0, 0.0), Vector3(1.0, 0.0, 0.0)) == 1.0
  {
  }

  lemma UValue()
    ensures Dot(Vector3(0.25, 0.25, 1.0), Vector3(1.0, 0.0, 0.0)) == 0.25
  {
  }

  lemma VValue()
    ensures Dot(Vector3(0.0, 0.0, -1.0), Vector3(0.0, 1.0, -0.25)) == 0.25
  {
  }

  lemma TValue()
    ensures Dot(Vector3(0.0, 1.0, 0.0), Vector3(0.0, 1.0, -0.25)) == 1.0
  {
  }

  lemma InsideValue()
    ensures T.InTriangle(0.25, 0.25)
  {
  }

  /** With det = 1 the three quotients are the dot products themselves. */
  lemma UnitDeterminant(e1: Vector3, e2: Vector3, p0: Vector3, ray: R.Ray, du: real, dv: real, dt: real)
    requires T.Det(e1, e2, ray) == 1.0
    requires Dot(Sub(ray.org, p0), Cross(ray.dir, e2)) == du
    requires Dot(ray.dir, Cross(Sub(ray.org, p0), e1)) == dv
    requires Dot(e2, Cross(Sub(ray.org, p0), e1)) == dt
    requires T.InTriangle(du, dv)
    ensures T.TriangleIsect(e1, e2, p0, ray, 0.0, 0.0, 0.0) == T.TriResult(true, dt, du, dv)
  {
    UnitU(e1, e2, p0, ray, du);
    UnitV(e1, e2, p0, ray, dv);
    UnitT(e1, e2, p0, ray, dt);
  }

  lemma UnitU(e1: Vector3, e2: Vector3, p0: Vector3, ray: R.Ray, du: real)
    requires T.Det(e1, e2, ray) == 1.0
    requires Dot(Sub(ray.org, p0), Cross(ray.dir, e2)) == du
    ensures T.BaryU(e1, e2, p0, ray) == du
  {
    T.BaryUIs(ray, p0, e1, e2);
    TimesOne(Dot(Sub(ray.org, p0), Cross(ray.dir, e2)), T.Det(e1, e2, ray), du);
  }

  lemma UnitV(e1: Vector3, e2: Vector3, p0: Vector3, ray: R.Ray, dv: real)
    requires T.Det(e1, e2, ray) == 1.0
    requires Dot(ray.dir, Cross(Sub(ray.org, p0), e1)) == dv
    ensures T.BaryV(e1, e2, p0, ray) == dv
  {
    T.BaryVIs(ray, p0, e1, e2);
    TimesOne(Dot(ray.dir, Cross(Sub(ray.org, p0), e1)), T.Det(e1, e2, ray), dv);
  }

  lemma UnitT(e1: Vector3, e2: Vector3, p0: Vector3, ray: R.Ray, dt: real)
    requires T.Det(e1, e2, ray) == 1.0
    requires Dot(e2, Cross(Sub(ray.org, p0), e1)) == dt
    ensures T.HitTime(e1, e2, p0, ray) == dt
  {
    T.HitTimeIs(ray, p0, e1, e2);
    TimesOne(Dot(e2, Cross(Sub(ray.org, p0), e1)), T.Det(e1, e2, ray), dt);
  }

  lemma TimesOne(x: real, d: real, r: real)
    requires d == 1.0 && x == r
    ensures x * (1.0 / d) == r
  {
  }

  /** The box holds all four corners. */
  lemma BoxHoldsCorners(p: Vector3, u: Vector3, v: Vector3, i: int)
    ensures I.Contains(B.Axis(QuadBox(p, u, v), i), Index(p, i))
    ensures I.Contains(B.Axis(QuadBox(p, u, v), i), Index(Add(p, u), i))
    ensures I.Contains(B.Axis(QuadBox(p, u, v), i), Index(Add(p, v), i))
    ensures I.Contains(B.Axis(QuadBox(p, u, v), i), Index(Add(Add(p, u), v), i))
  {
    var b1 := B.FromPoints(p, Add(Add(p, u), v), true);
    var b2 := B.FromPoints(Add(p, u), Add(p, v), true);
    DiagonalBox(p, Add(Add(p, u), v));
    DiagonalBox(Add(p, u), Add(p, v));
    B.UnionIncludes(b1, b2, true);
    B.FromPointsProperties(p, Add(Add(p, u), v), true, i);
    B.FromPointsProperties(Add(p, u), Add(p, v), true, i);
    var whole := B.Axis(QuadBox(p, u, v), i);
    AxisIncludes(QuadBox(p, u, v), b1, i);
    AxisIncludes(QuadBox(p, u, v), b2, i);
    ContainedInWider(whole, B.Axis(b1, i), Index(p, i));
    ContainedInWider(whole, B.Axis(b1, i), Index(Add(Add(p, u), v), i));
    ContainedInWider(whole, B.Axis(b2, i), Index(Add(p, u), i));
    ContainedInWider(whole, B.Axis(b2, i), Index(Add(p, v), i));
  }

  lemma DiagonalBox(a: Vector3, b: Vector3)
    ensures B.BoxNotNaN(B.FromPoints(a, b, true))
  {
    B.FromPointsProperties(a, b, true, 0);
    B.FromPointsProperties(a, b, true, 1);
    B.FromPointsProperties(a, b, true, 2);
  }

  lemma AxisIncludes(outer: B.Bounds3, inner: B.Bounds3, i: int)
    requires B.BoxIncludes(outer, inner)
    ensures B.Includes(B.Axis(outer, i), B.Axis(inner, i))
  {
  }

  lemma ContainedInWider(outer: I.Interval, inner: I.Interval, x: real)
    requires B.Includes(outer, inner) && I.Contains(inner, x)
    ensures I.Contains(outer, x)
  {
    E.LeTrans(outer.lo, inner.lo, E.Fin(x));
    E.LeTrans(E.Fin(x), inner.hi, outer.hi);
  }
}
