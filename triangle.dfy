/** TriangleIsect (include/mathematics.h): the Möller–Trumbore ray–triangle
    test for the triangle p0, p0 + edge1, p0 + edge2. The out-parameters t, u
    and v are passed in and returned; u and v are written as soon as they are
    computed, t only on success. */
module Triangles {
  import opened Vectors
  import opened Global
  import R = Rays

  /** det = Dot(edge1, Cross(dir, edge2)). */
  function Det(e1: Vector3, e2: Vector3, ray: R.Ray): real {
    Dot(e1, Cross(ray.dir, e2))
  }

  /** The barycentric coordinate along edge1, Dot(t_vec, p_vec) * inv_det. */
  function BaryU(e1: Vector3, e2: Vector3, p0: Vector3, ray: R.Ray): real
    requires Det(e1, e2, ray) != 0.0
  {
    Dot(Sub(ray.org, p0), Cross(ray.dir, e2)) * (1.0 / Det(e1, e2, ray))
  }

  /** The barycentric coordinate along edge2, Dot(dir, q_vec) * inv_det. */
  function BaryV(e1: Vector3, e2: Vector3, p0: Vector3, ray: R.Ray): real
    requires Det(e1, e2, ray) != 0.0
  {
    Dot(ray.dir, Cross(Sub(ray.org, p0), e1)) * (1.0 / Det(e1, e2, ray))
  }

  /** The ray parameter of the plane hit, Dot(edge2, q_vec) * inv_det. */
  function HitTime(e1: Vector3, e2: Vector3, p0: Vector3, ray: R.Ray): real
    requires Det(e1, e2, ray) != 0.0
  {
    Dot(e2, Cross(Sub(ray.org, p0), e1)) * (1.0 / Det(e1, e2, ray))
  }

  /** The returned bool and the final values of the three out-parameters. */
  datatype TriResult = TriResult(ok: bool, t: real, u: real, v: real)

  /** The accepted region: u in [-e, 1+e], v >= -e and u + v <= 1+e,
      e = EPS_DEUX. */
  predicate InTriangle(u: real, v: real) {
    -EPS_DEUX <= u <= 1.0 + EPS_DEUX && -EPS_DEUX <= v && u + v <= 1.0 + EPS_DEUX
  }

  function TriangleIsect(e1: Vector3, e2: Vector3, p0: Vector3, ray: R.Ray, t: real, u: real, v: real)
    : (r: TriResult)
    // a near-singular determinant rejects before anything is written
    ensures Abs(Det(e1, e2, ray)) < EPS_QUAT ==> r == TriResult(false, t, u, v)
    // t is written only on success
    ensures !r.ok ==> r.t == t
    // u is written as soon as the determinant passes, even when the test then fails
    ensures Abs(Det(e1, e2, ray)) >= EPS_QUAT ==> r.u == BaryU(e1, e2, p0, ray)
    // success exactly when the determinant passes and (u, v) lies in the accepted region
    ensures r.ok <==> Abs(Det(e1, e2, ray)) >= EPS_QUAT &&
                      InTriangle(BaryU(e1, e2, p0, ray), BaryV(e1, e2, p0, ray))
    ensures r.ok ==> InTriangle(r.u, r.v)
    ensures r.ok ==> r.t == HitTime(e1, e2, p0, ray) && r.v == BaryV(e1, e2, p0, ray)
  {
    var det := Det(e1, e2, ray);
    if Abs(det) < EPS_QUAT then TriResult(false, t, u, v)
    else
      var u1 := BaryU(e1, e2, p0, ray);
      if u1 < 0.0 - EPS_DEUX || u1 > 1.0 + EPS_DEUX then TriResult(false, t, u1, v)
      else
        var v1 := BaryV(e1, e2, p0, ray);
        if v1 < 0.0 - EPS_DEUX || u1 + v1 > 1.0 + EPS_DEUX then TriResult(false, t, u1, v1)
        else TriResult(true, HitTime(e1, e2, p0, ray), u1, v1)
  }

  /** The point of the triangle's plane with barycentric coordinates (u, v). */
  function PlanePoint(p0: Vector3, e1: Vector3, e2: Vector3, u: real, v: real): Vector3 {
    Add(Add(p0, Scale(e1, u)), Scale(e2, v))
  }

  // ------------------------------------------------------------- Cramer's rule

  lemma CramerX(T: Vector3, d: Vector3, e1: Vector3, e2: Vector3)
    ensures T.x * Dot(e1, Cross(d, e2)) ==
      e1.x * Dot(T, Cross(d, e2)) + e2.x * Dot(d, Cross(T, e1)) - d.x * Dot(e2, Cross(T, e1))
  {
  }

  lemma CramerY(T: Vector3, d: Vector3, e1: Vector3, e2: Vector3)
    ensures T.y * Dot(e1, Cross(d, e2)) ==
      e1.y * Dot(T, Cross(d, e2)) + e2.y * Dot(d, Cross(T, e1)) - d.y * Dot(e2, Cross(T, e1))
  {
  }

  lemma CramerZ(T: Vector3, d: Vector3, e1: Vector3, e2: Vector3)
    ensures T.z * Dot(e1, Cross(d, e2)) ==
      e1.z * Dot(T, Cross(d, e2)) + e2.z * Dot(d, Cross(T, e1)) - d.z * Dot(e2, Cross(T, e1))
  {
  }

  lemma ScaleBack(tx: real, det: real, k: real, a: real, b: real, c: real, p: real, q: real, s: real)
    requires tx * det == a * p + b * q - c * s && det * k == 1.0
    ensures tx == a * (p * k) + b * (q * k) - c * (s * k)
  {
    assert tx == tx * (det * k);
    assert tx * (det * k) == (a * p + b * q - c * s) * k;
  }

  lemma InverseProduct(det: real)
    requires det != 0.0
    ensures det * (1.0 / det) == 1.0
  {
  }

  /** The Möller–Trumbore quantities of a ray and a triangle, spelled out. */
  predicate CramerSetting(o: Vector3, d: Vector3, p0: Vector3, e1: Vector3, e2: Vector3,
                          det: real, k: real, t: real, u: real, v: real) {
    det == Dot(e1, Cross(d, e2)) && det * k == 1.0 &&
    u == Dot(Sub(o, p0), Cross(d, e2)) * k &&
    v == Dot(d, Cross(Sub(o, p0), e1)) * k &&
    t == Dot(e2, Cross(Sub(o, p0), e1)) * k
  }

  lemma SettingHolds(ray: R.Ray, p0: Vector3, e1: Vector3, e2: Vector3)
    requires Det(e1, e2, ray) != 0.0
    ensures CramerSetting(ray.org, ray.dir, p0, e1, e2, Det(e1, e2, ray), 1.0 / Det(e1, e2, ray),
      HitTime(e1, e2, p0, ray), BaryU(e1, e2, p0, ray), BaryV(e1, e2, p0, ray))
  {
    InverseProduct(Det(e1, e2, ray));
    BaryUIs(ray, p0, e1, e2);
    BaryVIs(ray, p0, e1, e2);
    HitTimeIs(ray, p0, e1, e2);
  }

  lemma BaryUIs(ray: R.Ray, p0: Vector3, e1: Vector3, e2: Vector3)
    requires Det(e1, e2, ray) != 0.0
    ensures BaryU(e1, e2, p0, ray) == Dot(Sub(ray.org, p0), Cross(ray.dir, e2)) * (1.0 / Det(e1, e2, ray))
  {
  }

  lemma BaryVIs(ray: R.Ray, p0: Vector3, e1: Vector3, e2: Vector3)
    requires Det(e1, e2, ray) != 0.0
    ensures BaryV(e1, e2, p0, ray) == Dot(ray.dir, Cross(Sub(ray.org, p0), e1)) * (1.0 / Det(e1, e2, ray))
  {
  }

  lemma HitTimeIs(ray: R.Ray, p0: Vector3, e1: Vector3, e2: Vector3)
    requires Det(e1, e2, ray) != 0.0
    ensures HitTime(e1, e2, p0, ray) == Dot(e2, Cross(Sub(ray.org, p0), e1)) * (1.0 / Det(e1, e2, ray))
  {
  }

  /** One coordinate of Cramer's rule, on scalars only: from
      tx * det == a * p + b * q - c * s and det * k == 1 follows the
      coordinate equation of the hit. */
  lemma ScalarSolve(ox: real, px: real, tx: real, a: real, b: real, c: real,
                    det: real, k: real, t: real, u: real, v: real, p: real, q: real, s: real)
    requires tx == ox - px && tx * det == a * p + b * q - c * s && det * k == 1.0
    requires u == p * k && v == q * k && t == s * k
    ensures ox + c * t == px + a * u + b * v
  {
    ScaleBack(tx, det, k, a, b, c, p, q, s);
  }

  lemma CramerXSolved(o: Vector3, d: Vector3, p0: Vector3, e1: Vector3, e2: Vector3,
                        det: real, k: real, t: real, u: real, v: real)
    requires CramerSetting(o, d, p0, e1, e2, det, k, t, u, v)
    ensures o.x + d.x * t == p0.x + e1.x * u + e2.x * v
  {
    var T := Sub(o, p0);
    CramerX(T, d, e1, e2);
    ScalarSolve(o.x, p0.x, T.x, e1.x, e2.x, d.x, det, k, t, u, v,
      Dot(T, Cross(d, e2)), Dot(d, Cross(T, e1)), Dot(e2, Cross(T, e1)));
  }

  lemma CramerYSolved(o: Vector3, d: Vector3, p0: Vector3, e1: Vector3, e2: Vector3,
                        det: real, k: real, t: real, u: real, v: real)
    requires CramerSetting(o, d, p0, e1, e2, det, k, t, u, v)
    ensures o.y + d.y * t == p0.y + e1.y * u + e2.y * v
  {
    var T := Sub(o, p0);
    CramerY(T, d, e1, e2);
    ScalarSolve(o.y, p0.y, T.y, e1.y, e2.y, d.y, det, k, t, u, v,
      Dot(T, Cross(d, e2)), Dot(d, Cross(T, e1)), Dot(e2, Cross(T, e1)));
  }

  lemma CramerZSolved(o: Vector3, d: Vector3, p0: Vector3, e1: Vector3, e2: Vector3,
                        det: real, k: real, t: real, u: real, v: real)
    requires CramerSetting(o, d, p0, e1, e2, det, k, t, u, v)
    ensures o.z + d.z * t == p0.z + e1.z * u + e2.z * v
  {
    var T := Sub(o, p0);
    CramerZ(T, d, e1, e2);
    ScalarSolve(o.z, p0.z, T.z, e1.z, e2.z, d.z, det, k, t, u, v,
      Dot(T, Cross(d, e2)), Dot(d, Cross(T, e1)), Dot(e2, Cross(T, e1)));
  }

  /** The computed (t, u, v) solve ray(t) = p0 + u*edge1 + v*edge2 whenever the
      determinant is nonzero. */
  lemma HitOnPlane(ray: R.Ray, p0: Vector3, e1: Vector3, e2: Vector3)
    requires Det(e1, e2, ray) != 0.0
    ensures R.At(ray, HitTime(e1, e2, p0, ray)) ==
      PlanePoint(p0, e1, e2, BaryU(e1, e2, p0, ray), BaryV(e1, e2, p0, ray))
  {
    SettingHolds(ray, p0, e1, e2);
    PlaneHit(ray, p0, e1, e2, Det(e1, e2, ray), 1.0 / Det(e1, e2, ray),
      HitTime(e1, e2, p0, ray), BaryU(e1, e2, p0, ray), BaryV(e1, e2, p0, ray));
  }

  lemma PlaneHit(ray: R.Ray, p0: Vector3, e1: Vector3, e2: Vector3, det: real, k: real, t: real, u: real, v: real)
    requires CramerSetting(ray.org, ray.dir, p0, e1, e2, det, k, t, u, v)
    ensures R.At(ray, t) == PlanePoint(p0, e1, e2, u, v)
  {
    CramerXSolved(ray.org, ray.dir, p0, e1, e2, det, k, t, u, v);
    CramerYSolved(ray.org, ray.dir, p0, e1, e2, det, k, t, u, v);
    CramerZSolved(ray.org, ray.dir, p0, e1, e2, det, k, t, u, v);
    PointComponents(ray, t, p0, e1, e2, u, v);
    SameVector(R.At(ray, t), PlanePoint(p0, e1, e2, u, v));
  }

  lemma PointComponents(ray: R.Ray, t: real, p0: Vector3, e1: Vector3, e2: Vector3, u: real, v: real)
    ensures R.At(ray, t).x == ray.org.x + ray.dir.x * t
    ensures R.At(ray, t).y == ray.org.y + ray.dir.y * t
    ensures R.At(ray, t).z == ray.org.z + ray.dir.z * t
    ensures PlanePoint(p0, e1, e2, u, v).x == p0.x + e1.x * u + e2.x * v
    ensures PlanePoint(p0, e1, e2, u, v).y == p0.y + e1.y * u + e2.y * v
    ensures PlanePoint(p0, e1, e2, u, v).z == p0.z + e1.z * u + e2.z * v
  {
  }

  lemma SameVector(a: Vector3, b: Vector3)
    requires a.x == b.x && a.y == b.y && a.z == b.z
    ensures a == b
  {
  }

  // ------------------------------------------------------------ uniqueness

  /** Dot is linear in its first argument when that argument is
      a*e1 + b*e2 - s*d, written out by components. */
  lemma DotOfPlaneOffset(T: Vector3, c: Vector3, e1: Vector3, e2: Vector3, d: Vector3, a: real, b: real, s: real)
    requires T.x == e1.x * a + e2.x * b - d.x * s
    requires T.y == e1.y * a + e2.y * b - d.y * s
    requires T.z == e1.z * a + e2.z * b - d.z * s
    ensures Dot(T, c) == a * Dot(e1, c) + b * Dot(e2, c) - s * Dot(d, c)
  {
  }

  /** The triple product is invariant under a cyclic shift. */
  lemma CyclicTriple(a: Vector3, b: Vector3, c: Vector3)
    ensures Dot(a, Cross(b, c)) == Dot(b, Cross(c, a))
  {
  }

  /** Swapping the two factors of the cross product negates the triple product. */
  lemma SwappedTriple(a: Vector3, b: Vector3, c: Vector3)
    ensures Dot(a, Cross(b, c)) == -Dot(a, Cross(c, b))
  {
  }

  /** A triple product with a repeated vector vanishes. */
  lemma RepeatedTriple(a: Vector3, b: Vector3)
    ensures Dot(a, Cross(a, b)) == 0.0 && Dot(b, Cross(a, b)) == 0.0
  {
  }

  /** A numerator equal to a * det gives a once multiplied by 1 / det. */
  lemma CancelDet(p: real, a: real, det: real)
    requires det != 0.0 && p == a * det
    ensures p * (1.0 / det) == a
  {
    assert p * (1.0 / det) == a * (det * (1.0 / det));
  }

  /** The offset of the ray origin from p0 when the ray meets the plane point
      with coordinates (a, b) at s. */
  lemma OriginOffset(ray: R.Ray, p0: Vector3, e1: Vector3, e2: Vector3, s: real, a: real, b: real)
    requires R.At(ray, s) == PlanePoint(p0, e1, e2, a, b)
    ensures var T := Sub(ray.org, p0); var d := ray.dir;
      T.x == e1.x * a + e2.x * b - d.x * s &&
      T.y == e1.y * a + e2.y * b - d.y * s &&
      T.z == e1.z * a + e2.z * b - d.z * s
  {
    PointComponents(ray, s, p0, e1, e2, a, b);
  }

  /** For the plane point (a, b) at s, the u numerator is a * det. */
  lemma NumeratorU(ray: R.Ray, p0: Vector3, e1: Vector3, e2: Vector3, s: real, a: real, b: real)
    requires R.At(ray, s) == PlanePoint(p0, e1, e2, a, b)
    ensures Dot(Sub(ray.org, p0), Cross(ray.dir, e2)) == a * Det(e1, e2, ray)
  {
    var d := ray.dir;
    OriginOffset(ray, p0, e1, e2, s, a, b);
    RepeatedTriple(d, e2);
    DotOfPlaneOffset(Sub(ray.org, p0), Cross(d, e2), e1, e2, d, a, b, s);
  }

  /** For the plane point (a, b) at s, the v numerator is b * det. */
  lemma NumeratorV(ray: R.Ray, p0: Vector3, e1: Vector3, e2: Vector3, s: real, a: real, b: real)
    requires R.At(ray, s) == PlanePoint(p0, e1, e2, a, b)
    ensures Dot(ray.dir, Cross(Sub(ray.org, p0), e1)) == b * Det(e1, e2, ray)
  {
    var T := Sub(ray.org, p0);
    var d := ray.dir;
    OriginOffset(ray, p0, e1, e2, s, a, b);
    CyclicTriple(d, T, e1);
    CyclicTriple(e1, d, e2);
    CyclicTriple(d, e2, e1);
    RepeatedTriple(e1, d);
    DotOfPlaneOffset(T, Cross(e1, d), e1, e2, d, a, b, s);
  }

  /** For the plane point (a, b) at s, the t numerator is s * det. */
  lemma NumeratorTime(ray: R.Ray, p0: Vector3, e1: Vector3, e2: Vector3, s: real, a: real, b: real)
    requires R.At(ray, s) == PlanePoint(p0, e1, e2, a, b)
    ensures Dot(e2, Cross(Sub(ray.org, p0), e1)) == s * Det(e1, e2, ray)
  {
    var T := Sub(ray.org, p0);
    var d := ray.dir;
    OriginOffset(ray, p0, e1, e2, s, a, b);
    CyclicTriple(e2, T, e1);
    CyclicTriple(d, e1, e2);
    SwappedTriple(e1, e2, d);
    RepeatedTriple(e1, e2);
    DotOfPlaneOffset(T, Cross(e1, e2), e1, e2, d, a, b, s);
  }

  /** With a nonzero determinant the plane point is unique: whenever the ray
      meets the plane point with coordinates (a, b) at s, the computed u, v
      and t are exactly a, b and s. */
  lemma PlaneCoordinatesUnique(ray: R.Ray, p0: Vector3, e1: Vector3, e2: Vector3, s: real, a: real, b: real)
    requires Det(e1, e2, ray) != 0.0
    requires R.At(ray, s) == PlanePoint(p0, e1, e2, a, b)
    ensures BaryU(e1, e2, p0, ray) == a && BaryV(e1, e2, p0, ray) == b && HitTime(e1, e2, p0, ray) == s
  {
    var det := Det(e1, e2, ray);
    NumeratorU(ray, p0, e1, e2, s, a, b);
    NumeratorV(ray, p0, e1, e2, s, a, b);
    NumeratorTime(ray, p0, e1, e2, s, a, b);
    CancelDet(Dot(Sub(ray.org, p0), Cross(ray.dir, e2)), a, det);
    CancelDet(Dot(ray.dir, Cross(Sub(ray.org, p0), e1)), b, det);
    CancelDet(Dot(e2, Cross(Sub(ray.org, p0), e1)), s, det);
  }

  /** The converse of TriangleHitOnTriangle: a ray that meets a point of the
      accepted region at s, with a determinant that passes the test, is
      reported as a hit at s with that point's coordinates. */
  lemma TriangleFindsPoint(e1: Vector3, e2: Vector3, p0: Vector3, ray: R.Ray, t: real, u: real, v: real,
                           s: real, a: real, b: real)
    requires Abs(Det(e1, e2, ray)) >= EPS_QUAT
    requires R.At(ray, s) == PlanePoint(p0, e1, e2, a, b) && InTriangle(a, b)
    ensures TriangleIsect(e1, e2, p0, ray, t, u, v) == TriResult(true, s, a, b)
  {
    PlaneCoordinatesUnique(ray, p0, e1, e2, s, a, b);
  }

  /** On success, the reported hit is the point of the ray at the reported t,
      and that point is the plane point with the reported barycentric
      coordinates, which lie in the accepted region. */
  lemma TriangleHitOnTriangle(e1: Vector3, e2: Vector3, p0: Vector3, ray: R.Ray, t: real, u: real, v: real)
    ensures var r := TriangleIsect(e1, e2, p0, ray, t, u, v);
      r.ok ==> R.At(ray, r.t) == PlanePoint(p0, e1, e2, r.u, r.v) && InTriangle(r.u, r.v)
  {
    var r := TriangleIsect(e1, e2, p0, ray, t, u, v);
    if r.ok {
      HitOnPlane(ray, p0, e1, e2);
    }
  }
}
