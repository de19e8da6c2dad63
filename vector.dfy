/** Vector3 (include/vector.h, vector.h): a triple of doubles used for points,
    directions and colours, with its arithmetic. Square roots are not computed
    here: where the source calls Length, the length is an argument checked
    with `IsSqrt`. */
module Vectors {
  import opened Global

  datatype Vector3 = Vector3(x: real, y: real, z: real)

  const Zero: Vector3 := Vector3(0.0, 0.0, 0.0)

  /** Vector3(double v): all three components equal. */
  function Splat(v: real): Vector3 { Vector3(v, v, v) }

  /** operator[]: 0 is x, 1 is y, every other index is z. */
  function Index(v: Vector3, i: int): real {
    if i == 0 then v.x else if i == 1 then v.y else v.z
  }

  function Add(a: Vector3, b: Vector3): Vector3 { Vector3(a.x + b.x, a.y + b.y, a.z + b.z) }
  function Sub(a: Vector3, b: Vector3): Vector3 { Vector3(a.x - b.x, a.y - b.y, a.z - b.z) }
  function Neg(a: Vector3): Vector3 { Vector3(-a.x, -a.y, -a.z) }
  function Scale(a: Vector3, s: real): Vector3 { Vector3(a.x * s, a.y * s, a.z * s) }

  function Div(a: Vector3, s: real): Vector3
    requires s != 0.0
  {
    Vector3(a.x / s, a.y / s, a.z / s)
  }

  /** operator*(Vector3, Vector3): the componentwise product. */
  function Hadamard(a: Vector3, b: Vector3): Vector3 { Vector3(a.x * b.x, a.y * b.y, a.z * b.z) }

  /** Vector3::Min and Vector3::Max, one std::min / std::max per component. */
  function Min3(a: Vector3, b: Vector3): Vector3 { Vector3(Min(a.x, b.x), Min(a.y, b.y), Min(a.z, b.z)) }
  function Max3(a: Vector3, b: Vector3): Vector3 { Vector3(Max(a.x, b.x), Max(a.y, b.y), Max(a.z, b.z)) }

  function Dot(a: Vector3, b: Vector3): real { a.x * b.x + a.y * b.y + a.z * b.z }

  function Length2(a: Vector3): real { a.x * a.x + a.y * a.y + a.z * a.z }

  function Cross(a: Vector3, b: Vector3): Vector3 {
    Vector3(a.y * b.z - a.z * b.y, a.z * b.x - a.x * b.z, a.x * b.y - a.y * b.x)
  }

  /** IsZero: every component is below EPS_DEUX (so large negative vectors
      count as "zero" too). */
  predicate IsZero(v: Vector3) { v.x < EPS_DEUX && v.y < EPS_DEUX && v.z < EPS_DEUX }

  /** The shared body of both Normalize copies: scale v by `factor` first when
      IsZero(v), then divide by the length of the scaled vector. `len` is the
      length of v; the length of the scaled vector is derived from it. */
  function NormalizeBy(v: Vector3, len: real, factor: real): (r: Vector3)
    requires len > 0.0 && IsSqrt(len, Length2(v)) && factor > 0.0
    ensures r == Div(v, len)
    ensures Length2(r) == 1.0
  {
    var u := if IsZero(v) then Scale(v, factor) else v;
    var lenU := if IsZero(v) then factor * len else len;
    ScaledLength(v, len, factor);
    assert lenU > 0.0 && IsSqrt(lenU, Length2(u));
    ScaleDivCancel(v, len, factor);
    UnitAfterDivide(v, len);
    Div(u, lenU)
  }

  /** Normalize in include/vector.h: `u *= 1.0e12` when IsZero(u). */
  function Normalize(v: Vector3, len: real): (r: Vector3)
    requires len > 0.0 && IsSqrt(len, Length2(v))
    ensures r == Div(v, len)
    ensures Length2(r) == 1.0
  {
    NormalizeBy(v, len, 1000000000000.0)
  }

  /** Normalize in vector.h: `u /= EPS_DEUX` when IsZero(u). */
  function NormalizeEarly(v: Vector3, len: real): (r: Vector3)
    requires len > 0.0 && IsSqrt(len, Length2(v))
    ensures r == Div(v, len)
    ensures Length2(r) == 1.0
  {
    NormalizeBy(v, len, 1.0 / EPS_DEUX)
  }

  /** Lerp (vector.h): (1-t)*v1 + t*v2. */
  function Lerp(v1: Vector3, v2: Vector3, t: real): Vector3 {
    Add(Scale(v1, 1.0 - t), Scale(v2, t))
  }

  /** Reflect: 2*Dot(wi,n)*n - wi. */
  function Reflect(wi: Vector3, n: Vector3): Vector3 {
    Sub(Scale(n, 2.0 * Dot(wi, n)), wi)
  }

  /** The clamped cosine of Refract: Min(Dot(wi,n), 1). */
  function RefractCos(wi: Vector3, n: Vector3): real { Min(Dot(wi, n), 1.0) }

  /** sin^2 of the refracted angle, sin2i / eta^2 with sin2i = 1 - cos_i^2. */
  function RefractSin2(wi: Vector3, n: Vector3, eta: real): real
    requires eta != 0.0
  {
    SquarePositive(eta);
    (1.0 - RefractCos(wi, n) * RefractCos(wi, n)) / (eta * eta)
  }

  /** Refract(wi, wt, n, eta): `wt` is the caller's out-parameter, returned
      unchanged when the function returns false. `cosR` is
      Sqrt(Max(EPS_QUAT, 1 - sin2r)). */
  function Refract(wi: Vector3, wt: Vector3, n: Vector3, eta: real, cosR: real): (res: (bool, Vector3))
    requires eta != 0.0
    requires IsSqrt(cosR, Max(EPS_QUAT, 1.0 - RefractSin2(wi, n, eta)))
    ensures res.0 <==> 1.0 - RefractCos(wi, n) * RefractCos(wi, n) < eta * eta
    ensures !res.0 ==> res.1 == wt
  {
    var cosI := RefractCos(wi, n);
    var sin2r := RefractSin2(wi, n, eta);
    SquarePositive(eta);
    RatioAtLeastOne(1.0 - cosI * cosI, eta * eta);
    if sin2r >= 1.0 then (false, wt)
    else (true, Add(Neg(Div(wi, eta)), Scale(n, cosI / eta - cosR)))
  }

  /** SinΘ's argument: Max(0, 1 - z^2). */
  function Sin2Theta(v: Vector3): real { Max(0.0, 1.0 - v.z * v.z) }

  /** Cosφ, with `sinTheta` = SinΘ(v). */
  function CosPhi(v: Vector3, sinTheta: real): (r: real)
    requires IsSqrt(sinTheta, Sin2Theta(v))
    ensures -1.0 <= r <= 1.0
    ensures sinTheta == 0.0 ==> r == 1.0
  {
    if sinTheta == 0.0 then 1.0 else Min(1.0, Max(-1.0, v.x / sinTheta))
  }

  /** Sinφ, with `sinTheta` = SinΘ(v). */
  function SinPhi(v: Vector3, sinTheta: real): (r: real)
    requires IsSqrt(sinTheta, Sin2Theta(v))
    ensures -1.0 <= r <= 1.0
    ensures sinTheta == 0.0 ==> r == 0.0
  {
    if sinTheta == 0.0 then 0.0 else Min(1.0, Max(-1.0, v.y / sinTheta))
  }

  // ------------------------------------------------------------ helper lemmas

  lemma SquarePositive(a: real)
    requires a != 0.0
    ensures a * a > 0.0
  {
    if a < 0.0 { assert (-a) * (-a) > 0.0; }
  }

  // The order facts about squares below are stated on products of two
  // parameters that are required to be equal rather than on `a * a`: the
  // solver reasons about the former far more reliably.

  lemma ProductOfEqualNonneg(a: real, b: real)
    requires a == b
    ensures a * b >= 0.0
  {
    if a < 0.0 { assert (-a) * (-b) > 0.0; } else { assert a * b >= 0.0 * b; }
  }

  lemma ProductOfEqualPositive(a: real, b: real)
    requires a == b && a != 0.0
    ensures a * b > 0.0
  {
    if a < 0.0 { assert (-a) * (-b) > 0.0; } else { assert a * b > 0.0 * b; }
  }

  lemma SumOfSquaresZero(x1: real, x2: real, y1: real, y2: real, z1: real, z2: real)
    requires x1 == x2 && y1 == y2 && z1 == z2
    requires x1 * x2 + y1 * y2 + z1 * z2 == 0.0
    ensures x1 == 0.0 && y1 == 0.0 && z1 == 0.0
  {
    ProductOfEqualNonneg(x1, x2); ProductOfEqualNonneg(y1, y2); ProductOfEqualNonneg(z1, z2);
    if x1 != 0.0 { ProductOfEqualPositive(x1, x2); }
    if y1 != 0.0 { ProductOfEqualPositive(y1, y2); }
    if z1 != 0.0 { ProductOfEqualPositive(z1, z2); }
  }

  /** A squared length is never negative. */
  lemma Length2Nonneg(d: Vector3)
    ensures Length2(d) >= 0.0
  {
    ProductOfEqualNonneg(d.x, d.x); ProductOfEqualNonneg(d.y, d.y); ProductOfEqualNonneg(d.z, d.z);
  }

  /** Only the zero vector has squared length zero. */
  lemma Length2Zero(d: Vector3)
    requires Length2(d) == 0.0
    ensures d == Zero
  {
    SumOfSquaresZero(d.x, d.x, d.y, d.y, d.z, d.z);
  }

  lemma ScaledLength(v: Vector3, len: real, c: real)
    requires IsSqrt(len, Length2(v)) && c > 0.0
    ensures IsSqrt(c * len, Length2(Scale(v, c)))
  {
    assert Length2(Scale(v, c)) == c * c * Length2(v);
    assert (c * len) * (c * len) == c * c * (len * len);
  }

  lemma ScaleDivCancel(v: Vector3, len: real, c: real)
    requires len > 0.0 && c > 0.0
    ensures Div(Scale(v, c), c * len) == Div(v, len)
  {
    assert (v.x * c) / (c * len) == v.x / len;
    assert (v.y * c) / (c * len) == v.y / len;
    assert (v.z * c) / (c * len) == v.z / len;
  }

  lemma DivIsScale(v: Vector3, s: real)
    requires s != 0.0
    ensures Div(v, s) == Scale(v, 1.0 / s)
  {
  }

  lemma UnitAfterDivide(v: Vector3, len: real)
    requires len > 0.0 && len * len == Length2(v)
    ensures Length2(Div(v, len)) == 1.0
  {
    var q := 1.0 / len;
    DivIsScale(v, len);
    assert q * len == 1.0;
    calc {
      Length2(Scale(v, q));
      q * q * Length2(v);
      q * q * (len * len);
      (q * len) * (q * len);
      1.0;
    }
  }

  lemma RatioAtLeastOne(s: real, e: real)
    requires e > 0.0
    ensures s / e >= 1.0 <==> s >= e
  {
    var q := s / e;
    assert q * e == s;
    if q >= 1.0 { assert q * e >= 1.0 * e; }
    if s >= e { assert q * e >= 1.0 * e; }
  }

  // ---------------------------------------------------------- property lemmas

  /** Indexing distributes over the componentwise operations, and every index
      other than 0 and 1 selects z. */
  lemma IndexComponentwise(a: Vector3, b: Vector3, s: real, i: int)
    ensures Index(Add(a, b), i) == Index(a, i) + Index(b, i)
    ensures Index(Sub(a, b), i) == Index(a, i) - Index(b, i)
    ensures Index(Scale(a, s), i) == Index(a, i) * s
    ensures Index(Min3(a, b), i) == Min(Index(a, i), Index(b, i))
    ensures Index(Max3(a, b), i) == Max(Index(a, i), Index(b, i))
    ensures i != 0 && i != 1 ==> Index(a, i) == a.z
  {
  }

  /** Componentwise Min never exceeds componentwise Max, and each lies between
      the two arguments' components. */
  lemma MinLeMax(a: Vector3, b: Vector3, i: int)
    ensures Index(Min3(a, b), i) <= Index(Max3(a, b), i)
    ensures Index(Min3(a, b), i) <= Index(a, i) <= Index(Max3(a, b), i)
    ensures Index(Min3(a, b), i) <= Index(b, i) <= Index(Max3(a, b), i)
  {
  }

  /** Dot is symmetric; Cross(a, b) is orthogonal to a and to b. */
  lemma DotCross(a: Vector3, b: Vector3)
    ensures Dot(a, b) == Dot(b, a)
    ensures Dot(Cross(a, b), a) == 0.0
    ensures Dot(Cross(a, b), b) == 0.0
  {
  }

  /** For a unit normal, reflection keeps the component along n and is an
      involution. */
  lemma ReflectProperties(w: Vector3, n: Vector3)
    requires Dot(n, n) == 1.0
    ensures Dot(Reflect(w, n), n) == Dot(w, n)
    ensures Reflect(Reflect(w, n), n) == w
  {
    var d := Dot(w, n);
    var r := Reflect(w, n);
    ReflectComponents(w, n, d);
    assert Dot(r, n) == 2.0 * d * Dot(n, n) - d;
    ReflectComponents(r, n, d);
  }

  lemma ReflectComponents(w: Vector3, n: Vector3, d: real)
    requires d == Dot(w, n)
    ensures Reflect(w, n).x == n.x * (2.0 * d) - w.x
    ensures Reflect(w, n).y == n.y * (2.0 * d) - w.y
    ensures Reflect(w, n).z == n.z * (2.0 * d) - w.z
  {
  }

  /** IsZero holds for every vector whose components are all negative, however
      large; Normalize's prescaling never changes the result, which is v / |v| in
      both copies. */
  lemma NormalizeIgnoresPrescale(v: Vector3, len: real)
    requires len > 0.0 && IsSqrt(len, Length2(v))
    ensures v.x < 0.0 && v.y < 0.0 && v.z < 0.0 ==> IsZero(v)
    ensures Normalize(v, len) == NormalizeEarly(v, len)
    ensures Normalize(v, len) == Div(v, len)
  {
  }

  /** Lerp hits its ends at t = 0 and t = 1. */
  lemma LerpEnds(v1: Vector3, v2: Vector3)
    ensures Lerp(v1, v2, 0.0) == v1 && Lerp(v1, v2, 1.0) == v2
  {
  }

  /** Snell's law in vector form: for a unit normal and Dot(wi,n) <= 1, a
      successful Refract yields wt with Dot(wt, n) = -cos_r and tangential part
      -(wi - cos_i n)/eta. */
  lemma RefractSnell(wi: Vector3, wt: Vector3, n: Vector3, eta: real, cosR: real)
    requires eta != 0.0 && Dot(n, n) == 1.0 && Dot(wi, n) <= 1.0
    requires IsSqrt(cosR, Max(EPS_QUAT, 1.0 - RefractSin2(wi, n, eta)))
    requires Refract(wi, wt, n, eta, cosR).0
    ensures Dot(Refract(wi, wt, n, eta, cosR).1, n) == -cosR
    ensures Add(Refract(wi, wt, n, eta, cosR).1, Scale(n, cosR)) == Neg(Div(Sub(wi, Scale(n, Dot(wi, n))), eta))
  {
    var cosI := Dot(wi, n);
    var q := 1.0 / eta;
    var k := cosI / eta - cosR;
    assert RefractCos(wi, n) == cosI;
    var t := Refract(wi, wt, n, eta, cosR).1;
    assert t == Add(Neg(Div(wi, eta)), Scale(n, k));
    RefractedComponents(wi, n, eta, k);
    assert t == Vector3(-(wi.x / eta) + n.x * k, -(wi.y / eta) + n.y * k, -(wi.z / eta) + n.z * k);
    DotOfCombination(wi, n, eta, k);
    var u := Add(t, Scale(n, cosR));
    var w := Neg(Div(Sub(wi, Scale(n, cosI)), eta));
    TangentialComponents(wi, n, eta, cosI, cosR);
    assert u.x == w.x && u.y == w.y && u.z == w.z;
  }

  lemma RefractedComponents(wi: Vector3, n: Vector3, eta: real, k: real)
    requires eta != 0.0
    ensures Add(Neg(Div(wi, eta)), Scale(n, k)).x == -(wi.x / eta) + n.x * k
    ensures Add(Neg(Div(wi, eta)), Scale(n, k)).y == -(wi.y / eta) + n.y * k
    ensures Add(Neg(Div(wi, eta)), Scale(n, k)).z == -(wi.z / eta) + n.z * k
  {
  }

  lemma DotOfCombination(wi: Vector3, n: Vector3, eta: real, k: real)
    requires eta != 0.0
    ensures Dot(Vector3(-(wi.x / eta) + n.x * k, -(wi.y / eta) + n.y * k, -(wi.z / eta) + n.z * k), n)
      == -(Dot(wi, n) / eta) + k * Dot(n, n)
  {
    var q := 1.0 / eta;
    assert wi.x / eta == wi.x * q && wi.y / eta == wi.y * q && wi.z / eta == wi.z * q;
    assert Dot(wi, n) / eta == Dot(wi, n) * q;
    DotOfCombinationScalar(wi, n, q, k);
  }

  lemma DotOfCombinationScalar(wi: Vector3, n: Vector3, q: real, k: real)
    ensures (-(wi.x * q) + n.x * k) * n.x + (-(wi.y * q) + n.y * k) * n.y + (-(wi.z * q) + n.z * k) * n.z
      == -(Dot(wi, n) * q) + k * Dot(n, n)
  {
  }

  lemma TangentialComponents(wi: Vector3, n: Vector3, eta: real, c: real, r: real)
    requires eta != 0.0
    ensures -(wi.x / eta) + n.x * (c / eta - r) + n.x * r == -((wi.x - n.x * c) / eta)
    ensures -(wi.y / eta) + n.y * (c / eta - r) + n.y * r == -((wi.y - n.y * c) / eta)
    ensures -(wi.z / eta) + n.z * (c / eta - r) + n.z * r == -((wi.z - n.z * c) / eta)
  {
    var q := 1.0 / eta;
    assert wi.x / eta == wi.x * q && wi.y / eta == wi.y * q && wi.z / eta == wi.z * q;
    assert c / eta == c * q;
    assert (wi.x - n.x * c) / eta == (wi.x - n.x * c) * q;
    assert (wi.y - n.y * c) / eta == (wi.y - n.y * c) * q;
    assert (wi.z - n.z * c) / eta == (wi.z - n.z * c) * q;
  }


  // -------------------------------------------------------- in-place operators

  // ------------------------------------------------------------ linearity of Cross and Dot

  lemma CrossAddLeft(x: Vector3, y: Vector3, v: Vector3)
    ensures Cross(Add(x, y), v) == Add(Cross(x, v), Cross(y, v))
  {
  }
  lemma CrossAddRight(u: Vector3, x: Vector3, y: Vector3)
    ensures Cross(u, Add(x, y)) == Add(Cross(u, x), Cross(u, y))
  {
  }
  lemma CrossScaleLeft(x: Vector3, s: real, v: Vector3)
    ensures Cross(Scale(x, s), v) == Scale(Cross(x, v), s)
  {
    CrossScaleLeftParts(x, s, v);
  }
  lemma CrossScaleLeftParts(x: Vector3, s: real, v: Vector3)
    ensures Cross(Scale(x, s), v).x == Scale(Cross(x, v), s).x
    ensures Cross(Scale(x, s), v).y == Scale(Cross(x, v), s).y
    ensures Cross(Scale(x, s), v).z == Scale(Cross(x, v), s).z
  {
  }
  lemma CrossScaleRight(u: Vector3, x: Vector3, s: real)
    ensures Cross(u, Scale(x, s)) == Scale(Cross(u, x), s)
  {
    CrossScaleRightParts(u, x, s);
  }
  lemma CrossScaleRightParts(u: Vector3, x: Vector3, s: real)
    ensures Cross(u, Scale(x, s)).x == Scale(Cross(u, x), s).x
    ensures Cross(u, Scale(x, s)).y == Scale(Cross(u, x), s).y
    ensures Cross(u, Scale(x, s)).z == Scale(Cross(u, x), s).z
  {
  }
  lemma CrossSelf(v: Vector3)
    ensures Cross(v, v) == Zero
  {
    Commute(v.y, v.z);
    Commute(v.z, v.x);
    Commute(v.x, v.y);
  }
  lemma Commute(a: real, b: real)
    ensures a * b - b * a == 0.0
  {
  }
  lemma DotAdd(w: Vector3, x: Vector3, y: Vector3)
    ensures Dot(w, Add(x, y)) == Dot(w, x) + Dot(w, y)
  {
  }
  lemma DotScaledRight(w: Vector3, n: Vector3, s: real)
    ensures Dot(w, Scale(n, s)) == Dot(w, n) * s
  {
  }
  lemma DotWithZero(w: Vector3)
    ensures Dot(w, Zero) == 0.0
  {
  }

  /** A Vector3 variable updated in place by the compound operators
      (`+=`, `-=`, `*=`, `/=`), the reference `operator[]` and Unitize. */
  class MutableVector3 {
    var x: real
    var y: real
    var z: real

    function Value(): Vector3
      reads this
    {
      Vector3(x, y, z)
    }

    constructor (v: Vector3)
      ensures Value() == v
    {
      x, y, z := v.x, v.y, v.z;
    }

    method AddAssign(v: Vector3)
      modifies this
      ensures Value() == Add(old(Value()), v)
    {
      x := x + v.x; y := y + v.y; z := z + v.z;
    }

    method SubAssign(v: Vector3)
      modifies this
      ensures Value() == Sub(old(Value()), v)
    {
      x := x - v.x; y := y - v.y; z := z - v.z;
    }

    method MulAssign(s: real)
      modifies this
      ensures Value() == Scale(old(Value()), s)
    {
      x := x * s; y := y * s; z := z * s;
    }

    method DivAssign(s: real)
      requires s != 0.0
      modifies this
      ensures Value() == Div(old(Value()), s)
    {
      x := x / s; y := y / s; z := z / s;
    }

    /** `v[i] = value` through the reference operator[]: index 0 writes x, 1
        writes y, anything else writes z; the other components stay. */
    method SetIndex(i: int, value: real)
      modifies this
      ensures Index(Value(), i) == value
      ensures i == 0 ==> y == old(y) && z == old(z)
      ensures i == 1 ==> x == old(x) && z == old(z)
      ensures i != 0 && i != 1 ==> x == old(x) && y == old(y)
    {
      if i == 0 { x := value; } else if i == 1 { y := value; } else { z := value; }
    }

    /** Unitize: v = Normalize(v), with `len` the length of v. */
    method Unitize(len: real)
      requires len > 0.0 && IsSqrt(len, Length2(Value()))
      modifies this
      ensures Value() == Normalize(old(Value()), len)
      ensures Length2(Value()) == 1.0
    {
      var n := Normalize(Value(), len);
      x, y, z := n.x, n.y, n.z;
    }
  }
}
