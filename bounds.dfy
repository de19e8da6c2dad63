/** Bounds3 (include/bounds.h, bounds.h): an axis-aligned box made of three
    intervals. The newer copy pads every axis narrower than EPS_UNIT; the older
    copy stores its intervals as given. Both copies share the slab test, the
    `MaxAxis` tie-break and `Union`; the `padded` flag selects the copy. */
module Bounds {
  import opened ExtReal
  import I = Intervals
  import V = Vectors
  import R = Rays
  import G = Global

  datatype Bounds3 = Bounds3(x: I.Interval, y: I.Interval, z: I.Interval)

  /** Bounds3() = default: three default-constructed intervals. */
  const DefaultBox: Bounds3 := Bounds3(I.Default(), I.Default(), I.Default())

  /** Bounds3::Empty and Bounds3::Universe (bounds.h). */
  const EmptyBox: Bounds3 := Bounds3(I.Empty, I.Empty, I.Empty)
  const UniverseBox: Bounds3 := Bounds3(I.Universe, I.Universe, I.Universe)

  /** operator[]: 0 is x, 1 is y, every other index is z. */
  function Axis(b: Bounds3, i: int): I.Interval {
    if i == 0 then b.x else if i == 1 then b.y else b.z
  }

  /** `if (x.size < EPS_UNIT) x = x.Expand(EPS_UNIT)`. */
  function Pad(i: I.Interval): I.Interval {
    if Lt(i.size, Fin(G.EPS_UNIT)) then I.Expand(i, G.EPS_UNIT) else i
  }

  /** The three-interval constructor: padded in include/bounds.h, stored as
      given in bounds.h. */
  function FromIntervals(x: I.Interval, y: I.Interval, z: I.Interval, padded: bool): Bounds3 {
    if padded then Bounds3(Pad(x), Pad(y), Pad(z)) else Bounds3(x, y, z)
  }

  /** One axis of the point-pair constructor: the smaller coordinate first. */
  function Ordered(a: real, b: real): I.Interval {
    if a <= b then I.Make(Fin(a), Fin(b)) else I.Make(Fin(b), Fin(a))
  }

  /** Bounds3(a, b), the box spanned by two points. */
  function FromPoints(a: V.Vector3, b: V.Vector3, padded: bool): Bounds3 {
    var x := Ordered(a.x, b.x);
    var y := Ordered(a.y, b.y);
    var z := Ordered(a.z, b.z);
    if padded then Bounds3(Pad(x), Pad(y), Pad(z)) else Bounds3(x, y, z)
  }

  /** Union(box1, box2): the union constructor of Interval on every axis, then
      the three-interval constructor (which pads in the newer copy). */
  function Union(b1: Bounds3, b2: Bounds3, padded: bool): Bounds3 {
    FromIntervals(I.Hull(b1.x, b2.x), I.Hull(b1.y, b2.y), I.Hull(b1.z, b2.z), padded)
  }

  /** MaxAxis: `x.size > y.size ? (x.size > z.size ? 0 : 2) : (y.size > z.size ? 1 : 2)`. */
  function MaxAxis(b: Bounds3): (r: int)
    ensures 0 <= r <= 2
  {
    if Lt(b.y.size, b.x.size) then (if Lt(b.z.size, b.x.size) then 0 else 2)
    else (if Lt(b.z.size, b.y.size) then 1 else 2)
  }

  /** SurfaceArea: 2 (sx sy + sx sz + sy sz), in double arithmetic. */
  function SurfaceArea(b: Bounds3): Ext {
    Mul(Fin(2.0), Add(Add(Mul(b.x.size, b.y.size), Mul(b.x.size, b.z.size)), Mul(b.y.size, b.z.size)))
  }

  /** `outer` spans `inner`: its ends are at least as far out. */
  predicate Includes(outer: I.Interval, inner: I.Interval) {
    Le(outer.lo, inner.lo) && Le(inner.hi, outer.hi)
  }

  predicate BoxIncludes(outer: Bounds3, inner: Bounds3) {
    Includes(outer.x, inner.x) && Includes(outer.y, inner.y) && Includes(outer.z, inner.z)
  }

  predicate NotNaN(i: I.Interval) { !i.lo.NaN? && !i.hi.NaN? }

  predicate BoxNotNaN(b: Bounds3) { NotNaN(b.x) && NotNaN(b.y) && NotNaN(b.z) }

  /** Finite ends with min <= max on every axis. */
  predicate FiniteAxis(i: I.Interval) { i.lo.Fin? && i.hi.Fin? && i.lo.r <= i.hi.r }

  predicate FiniteBox(b: Bounds3) { FiniteAxis(b.x) && FiniteAxis(b.y) && FiniteAxis(b.z) }

  // -------------------------------------------------------------- slab test

  /** 1.0 / d for a direction component; 1/0 is +inf (the sign of zero is not
      modelled). */
  function InvDir(d: real): Ext {
    if d == 0.0 then PosInf else Fin(1.0 / d)
  }

  /** One pass of the slab loop on one axis: the working interval (lo, hi)
      after the swap and the two narrowing assignments, which are std::max and
      std::min of the working ends with the sorted slab times. The working min
      only grows and the working max only shrinks. */
  function SlabStep(iv: I.Interval, o: real, d: real, lo: Ext, hi: Ext): (r: (Ext, Ext))
    ensures r.0 == lo || Lt(lo, r.0)
    ensures r.1 == hi || Lt(r.1, hi)
  {
    var s := SlabTimes(iv, o, d);
    (Max(lo, s.0), Min(hi, s.1))
  }

  /** The two slab times (min - o) / d and (max - o) / d of one axis, swapped
      when the first exceeds the second. */
  function SlabTimes(iv: I.Interval, o: real, d: real): (Ext, Ext) {
    var k := InvDir(d);
    var t0 := Mul(Sub(iv.lo, Fin(o)), k);
    var t1 := Mul(Sub(iv.hi, Fin(o)), k);
    if Lt(t1, t0) then (t1, t0) else (t0, t1)
  }

  /** The slab loop from `axis` on, with working interval (lo, hi). */
  function SlabFrom(b: Bounds3, ray: R.Ray, axis: nat, lo: Ext, hi: Ext): bool
    decreases 3 - axis
  {
    if axis >= 3 then true
    else
      var st := SlabStep(Axis(b, axis), V.Index(ray.org, axis), V.Index(ray.dir, axis), lo, hi);
      if Le(st.1, st.0) then false else SlabFrom(b, ray, axis + 1, st.0, st.1)
  }

  /** Bounds3::Intersect(ray, ray_t) as a value. */
  predicate SlabHit(b: Bounds3, ray: R.Ray, t: I.Interval) {
    SlabFrom(b, ray, 0, t.lo, t.hi)
  }

  /** Bounds3::Intersect: `ray_t` is a by-value copy whose two ends the loop
      narrows; the caller's interval cannot change. */
  method Intersect(b: Bounds3, ray: R.Ray, rayT: I.Interval) returns (hit: bool)
    ensures hit == SlabHit(b, ray, rayT)
  {
    var lo, hi := rayT.lo, rayT.hi;
    var axis := 0;
    while axis < 3
      invariant 0 <= axis <= 3
      invariant SlabFrom(b, ray, axis, lo, hi) == SlabHit(b, ray, rayT)
    {
      var iv := Axis(b, axis);
      var o := V.Index(ray.org, axis);
      var k := InvDir(V.Index(ray.dir, axis));
      var t0 := Mul(Sub(iv.lo, Fin(o)), k);
      var t1 := Mul(Sub(iv.hi, Fin(o)), k);
      if Lt(t1, t0) {
        t0, t1 := t1, t0;
      }
      if Lt(lo, t0) {
        lo := t0;
      }
      if Lt(t1, hi) {
        hi := t1;
      }
      if Le(hi, lo) {
        return false;
      }
      axis := axis + 1;
    }
    return true;
  }

  // ---------------------------------------------------------------- lemmas

  /** An axis at least EPS_UNIT wide, which padding leaves alone. */
  predicate WideAxis(i: I.Interval) { i.size.Fin? && i.size.r >= G.EPS_UNIT }

  /** The stored size agrees with the ends, as every constructor leaves it. */
  predicate SizeAgrees(i: I.Interval) { i.size == Sub(i.hi, i.lo) }

  /** Padding a finite axis: an axis narrower than EPS_UNIT grows by EPS_UNIT
      about its centroid, a wider one is kept exactly; either way the result is
      at least EPS_UNIT wide and spans the original. */
  lemma PadProperties(i: I.Interval)
    requires FiniteAxis(i) && SizeAgrees(i)
    ensures FiniteAxis(Pad(i)) && SizeAgrees(Pad(i))
    ensures Pad(i).size.Fin? && Pad(i).size.r >= G.EPS_UNIT
    ensures Includes(Pad(i), i)
    ensures I.Centroid(Pad(i)) == I.Centroid(i)
    ensures i.size.r >= G.EPS_UNIT ==> Pad(i) == i
    ensures i.size.r < G.EPS_UNIT ==> Pad(i).size == Fin(i.size.r + G.EPS_UNIT)
  {
    I.ExpandGrowsSize(i, G.EPS_UNIT);
  }

  /** Bounds3(a, b): every axis is ordered and spans both coordinates; without
      padding it is exactly [min, max], possibly of size 0, and with padding it
      is at least EPS_UNIT wide. */
  lemma FromPointsProperties(a: V.Vector3, b: V.Vector3, padded: bool, i: int)
    ensures FiniteAxis(Axis(FromPoints(a, b, padded), i))
    ensures SizeAgrees(Axis(FromPoints(a, b, padded), i))
    ensures I.Contains(Axis(FromPoints(a, b, padded), i), V.Index(a, i))
    ensures I.Contains(Axis(FromPoints(a, b, padded), i), V.Index(b, i))
    ensures !padded ==> Axis(FromPoints(a, b, padded), i).lo == Fin(G.Min(V.Index(a, i), V.Index(b, i)))
    ensures !padded ==> Axis(FromPoints(a, b, padded), i).hi == Fin(G.Max(V.Index(a, i), V.Index(b, i)))
    ensures padded ==> Axis(FromPoints(a, b, padded), i).size.r >= G.EPS_UNIT
  {
    var o := Ordered(V.Index(a, i), V.Index(b, i));
    assert Axis(FromPoints(a, b, padded), i) == if padded then Pad(o) else o;
    PadProperties(o);
    if padded {
      LeTrans(Pad(o).lo, o.lo, Fin(V.Index(a, i)));
      LeTrans(Pad(o).lo, o.lo, Fin(V.Index(b, i)));
      LeTrans(Fin(V.Index(a, i)), o.hi, Pad(o).hi);
      LeTrans(Fin(V.Index(b, i)), o.hi, Pad(o).hi);
    }
  }

  /** Two coincident points give a zero-size axis in the older copy. */
  lemma FlatBoxUnpadded(a: V.Vector3)
    ensures FromPoints(a, a, false).x.size == Fin(0.0)
    ensures FromPoints(a, a, true).x.size == Fin(G.EPS_UNIT)
  {
    PadProperties(Ordered(a.x, a.x));
  }

  lemma ExpandIncludes(i: I.Interval, amount: real)
    requires NotNaN(i) && amount >= 0.0
    ensures Includes(I.Expand(i, amount), i)
  {
  }

  lemma IncludesTrans(a: I.Interval, b: I.Interval, c: I.Interval)
    requires Includes(a, b) && Includes(b, c)
    ensures Includes(a, c)
  {
    LeTrans(a.lo, b.lo, c.lo);
    LeTrans(c.hi, b.hi, a.hi);
  }

  lemma PadIncludes(i: I.Interval)
    requires NotNaN(i)
    ensures Includes(Pad(i), i)
  {
    if Lt(i.size, Fin(G.EPS_UNIT)) { ExpandIncludes(i, G.EPS_UNIT); }
  }

  lemma HullIncludes(a: I.Interval, b: I.Interval, padded: bool)
    requires NotNaN(a) && NotNaN(b)
    ensures Includes(if padded then Pad(I.Hull(a, b)) else I.Hull(a, b), a)
    ensures Includes(if padded then Pad(I.Hull(a, b)) else I.Hull(a, b), b)
  {
    I.HullBounds(a, b);
    MinMaxBounds(a.lo, b.lo);
    MinMaxBounds(a.hi, b.hi);
    if padded {
      PadIncludes(I.Hull(a, b));
      IncludesTrans(Pad(I.Hull(a, b)), I.Hull(a, b), a);
      IncludesTrans(Pad(I.Hull(a, b)), I.Hull(a, b), b);
    }
  }

  /** Every axis of Union(A, B) spans the corresponding axes of A and B. */
  lemma UnionIncludes(b1: Bounds3, b2: Bounds3, padded: bool)
    requires BoxNotNaN(b1) && BoxNotNaN(b2)
    ensures BoxIncludes(Union(b1, b2, padded), b1)
    ensures BoxIncludes(Union(b1, b2, padded), b2)
  {
    HullIncludes(b1.x, b2.x, padded);
    HullIncludes(b1.y, b2.y, padded);
    HullIncludes(b1.z, b2.z, padded);
  }

  /** Without padding, Union(Empty, B) is B itself; with padding it is B once
      every axis of B is at least EPS_UNIT wide. */
  lemma UnionWithEmpty(b: Bounds3)
    requires BoxNotNaN(b) && SizeAgrees(b.x) && SizeAgrees(b.y) && SizeAgrees(b.z)
    ensures Union(EmptyBox, b, false) == b
    ensures WideAxis(b.x) && WideAxis(b.y) && WideAxis(b.z) ==> Union(EmptyBox, b, true) == b
  {
    I.HullWithEmpty(b.x);
    I.HullWithEmpty(b.y);
    I.HullWithEmpty(b.z);
  }

  /** MaxAxis picks an axis of maximal size and, among equal maxima, the one
      with the highest index. */
  lemma MaxAxisHighestMaximum(b: Bounds3)
    requires !b.x.size.NaN? && !b.y.size.NaN? && !b.z.size.NaN?
    ensures forall j :: 0 <= j < 3 ==> Le(Axis(b, j).size, Axis(b, MaxAxis(b)).size)
    ensures forall j :: MaxAxis(b) < j < 3 ==> Lt(Axis(b, j).size, Axis(b, MaxAxis(b)).size)
  {
    LeTotal(b.x.size, b.y.size);
    LeTotal(b.x.size, b.z.size);
    LeTotal(b.y.size, b.z.size);
    if MaxAxis(b) == 0 {
    } else if MaxAxis(b) == 1 {
      LeTrans(b.x.size, b.y.size, b.y.size);
    } else if Lt(b.y.size, b.x.size) {
      LeTrans(b.y.size, b.x.size, b.z.size);
    } else {
      LeTrans(b.x.size, b.y.size, b.z.size);
    }
  }

  /** For finite sizes the surface area is 2 (sx sy + sx sz + sy sz), never
      negative when the sizes are not. */
  lemma SurfaceAreaFinite(b: Bounds3)
    requires b.x.size.Fin? && b.y.size.Fin? && b.z.size.Fin?
    ensures SurfaceArea(b) == Fin(2.0 * (b.x.size.r * b.y.size.r + b.x.size.r * b.z.size.r + b.y.size.r * b.z.size.r))
    ensures b.x.size.r >= 0.0 && b.y.size.r >= 0.0 && b.z.size.r >= 0.0 ==> SurfaceArea(b).r >= 0.0
  {
  }

  /** An input interval with min >= max is rejected on the first axis. */
  lemma SlabRejectsInverted(b: Bounds3, ray: R.Ray, t: I.Interval)
    requires NotNaN(t) && Le(t.hi, t.lo)
    ensures !SlabHit(b, ray, t)
  {
    var st := SlabStep(Axis(b, 0), V.Index(ray.org, 0), V.Index(ray.dir, 0), t.lo, t.hi);
    if st.1 != t.hi { LeTrans(st.1, t.hi, t.lo); }
    if st.0 != t.lo { LeTrans(st.1, t.lo, st.0); }
  }

  /** Every slab of the Empty box spans (-inf, +inf) whatever the ray, so the
      working interval never narrows. */
  lemma EmptyAxisStep(o: real, d: real, lo: Ext, hi: Ext)
    ensures SlabStep(I.Empty, o, d, lo, hi) == (lo, hi)
  {
    if d > 0.0 {
      assert 1.0 / d > 0.0;
    } else if d < 0.0 {
      assert 1.0 / d < 0.0;
    }
  }

  /** Hence the Empty box passes the slab test for every ray whose interval has
      min < max. */
  lemma EmptyBoxPasses(ray: R.Ray, t: I.Interval)
    requires NotNaN(t)
    ensures SlabHit(EmptyBox, ray, t) <==> Lt(t.lo, t.hi)
  {
    LeTotal(t.lo, t.hi);
    EmptyAxisStep(V.Index(ray.org, 0), V.Index(ray.dir, 0), t.lo, t.hi);
    EmptyAxisStep(V.Index(ray.org, 1), V.Index(ray.dir, 1), t.lo, t.hi);
    EmptyAxisStep(V.Index(ray.org, 2), V.Index(ray.dir, 2), t.lo, t.hi);
  }

  lemma MulMonotone(x: real, y: real, k: real)
    requires x <= y
    ensures k > 0.0 ==> x * k <= y * k
    ensures k < 0.0 ==> y * k <= x * k
  {
    if k > 0.0 { assert (y - x) * k >= 0.0; }
    if k < 0.0 { assert (y - x) * (-k) >= 0.0; }
  }

  /** On a finite axis and a nonzero direction component with k = 1/d, the
      slab times are the two finite products (end - o) k, smaller first. */
  /** With a finite axis and a nonzero direction component, the two slab
      times are the finite quotients p = (min - o) / d and q = (max - o) / d,
      sorted. */
  lemma SlabTimesFinite(iv: I.Interval, o: real, d: real) returns (p: real, q: real)
    requires FiniteAxis(iv) && d != 0.0
    ensures p == (iv.lo.r - o) * (1.0 / d) && q == (iv.hi.r - o) * (1.0 / d)
    ensures SlabTimes(iv, o, d) == (Fin(G.Min(p, q)), Fin(G.Max(p, q)))
  {
    var k := 1.0 / d;
    p := (iv.lo.r - o) * k;
    q := (iv.hi.r - o) * k;
    assert InvDir(d) == Fin(k);
    assert Mul(Sub(iv.lo, Fin(o)), Fin(k)) == Fin(p);
    assert Mul(Sub(iv.hi, Fin(o)), Fin(k)) == Fin(q);
  }

  /** Scaling a chain of four nested ends by a nonzero factor keeps the
      chain, reversed when the factor is negative. */
  lemma ScaledChain(al: real, ah: real, bl: real, bh: real, o: real, k: real,
                    pa: real, qa: real, pb: real, qb: real)
    requires bl <= al <= ah <= bh && k != 0.0
    requires pa == (al - o) * k && qa == (ah - o) * k
    requires pb == (bl - o) * k && qb == (bh - o) * k
    ensures (pb <= pa && pa <= qa && qa <= qb) || (qb <= qa && qa <= pa && pa <= pb)
  {
    MulMonotone(al - o, ah - o, k);
    MulMonotone(bl - o, bh - o, k);
    MulMonotone(bl - o, al - o, k);
    MulMonotone(ah - o, bh - o, k);
    if k > 0.0 {
      assert pb <= pa && pa <= qa && qa <= qb;
    } else {
      assert qb <= qa && qa <= pa && pa <= pb;
    }
  }

  /** The unsorted quotients of two nested finite axes, chained. */
  lemma NestedQuotients(a: I.Interval, b: I.Interval, o: real, d: real,
                        pa: real, qa: real, pb: real, qb: real)
    requires FiniteAxis(a) && FiniteAxis(b) && Includes(b, a) && d != 0.0
    requires pa == (a.lo.r - o) * (1.0 / d) && qa == (a.hi.r - o) * (1.0 / d)
    requires pb == (b.lo.r - o) * (1.0 / d) && qb == (b.hi.r - o) * (1.0 / d)
    ensures (pb <= pa && pa <= qa && qa <= qb) || (qb <= qa && qa <= pa && pa <= pb)
  {
    assert b.lo.r <= a.lo.r && a.hi.r <= b.hi.r;
    ScaledChain(a.lo.r, a.hi.r, b.lo.r, b.hi.r, o, 1.0 / d, pa, qa, pb, qb);
  }

  /** The sorted slab times of two nested axes, from the order of their
      unsorted quotients. */
  lemma NestedMinMax(sa: (Ext, Ext), sb: (Ext, Ext), pa: real, qa: real, pb: real, qb: real)
    requires sa == (Fin(G.Min(pa, qa)), Fin(G.Max(pa, qa)))
    requires sb == (Fin(G.Min(pb, qb)), Fin(G.Max(pb, qb)))
    requires (pb <= pa && pa <= qa && qa <= qb) || (qb <= qa && qa <= pa && pa <= pb)
    ensures sa.0.Fin? && sa.1.Fin? && sb.0.Fin? && sb.1.Fin?
    ensures Le(sb.0, sa.0) && Le(sa.1, sb.1)
  {
  }

  /** For a nonzero direction component, the slab of a finite axis lies inside
      the slab of every finite axis that spans it. */
  lemma SlabTimesNested(a: I.Interval, b: I.Interval, o: real, d: real)
    requires FiniteAxis(a) && FiniteAxis(b) && Includes(b, a) && d != 0.0
    ensures SlabTimes(a, o, d).0.Fin? && SlabTimes(a, o, d).1.Fin?
    ensures SlabTimes(b, o, d).0.Fin? && SlabTimes(b, o, d).1.Fin?
    ensures Le(SlabTimes(b, o, d).0, SlabTimes(a, o, d).0)
    ensures Le(SlabTimes(a, o, d).1, SlabTimes(b, o, d).1)
  {
    var pa, qa := SlabTimesFinite(a, o, d);
    var pb, qb := SlabTimesFinite(b, o, d);
    NestedQuotients(a, b, o, d, pa, qa, pb, qb);
    NestedMinMax(SlabTimes(a, o, d), SlabTimes(b, o, d), pa, qa, pb, qb);
  }

  predicate NonzeroDir(d: V.Vector3) { d.x != 0.0 && d.y != 0.0 && d.z != 0.0 }

  lemma {:induction false} SlabFromMonotone(a: Bounds3, b: Bounds3, ray: R.Ray, axis: nat,
                                            loA: Ext, hiA: Ext, loB: Ext, hiB: Ext)
    requires FiniteBox(a) && FiniteBox(b) && BoxIncludes(b, a) && NonzeroDir(ray.dir)
    requires !loA.NaN? && !hiA.NaN? && !loB.NaN? && !hiB.NaN?
    requires Le(loB, loA) && Le(hiA, hiB)
    requires SlabFrom(a, ray, axis, loA, hiA)
    ensures SlabFrom(b, ray, axis, loB, hiB)
    decreases 3 - axis
  {
    if axis < 3 {
      var o, d := V.Index(ray.org, axis), V.Index(ray.dir, axis);
      var ta, tb := SlabTimes(Axis(a, axis), o, d), SlabTimes(Axis(b, axis), o, d);
      SlabTimesNested(Axis(a, axis), Axis(b, axis), o, d);
      MinMaxMonotone(loB, tb.0, loA, ta.0);
      MinMaxMonotone(hiA, ta.1, hiB, tb.1);
      var sa, sb := SlabStep(Axis(a, axis), o, d, loA, hiA), SlabStep(Axis(b, axis), o, d, loB, hiB);
      MinMaxBounds(loA, ta.0);
      MinMaxBounds(hiA, ta.1);
      MinMaxBounds(loB, tb.0);
      MinMaxBounds(hiB, tb.1);
      if Le(sb.1, sb.0) {
        LeTrans(sa.1, sb.1, sb.0);
        LeTrans(sa.1, sb.0, sa.0);
      }
      SlabFromMonotone(a, b, ray, axis + 1, sa.0, sa.1, sb.0, sb.1);
    }
  }

  /** With no zero direction component, a finite box that passes the slab test
      makes every finite box spanning it, such as its union with another box,
      pass on the same interval. */
  lemma SlabMonotone(a: Bounds3, b: Bounds3, ray: R.Ray, t: I.Interval)
    requires FiniteBox(a) && FiniteBox(b) && BoxIncludes(b, a) && NonzeroDir(ray.dir) && NotNaN(t)
    requires SlabHit(a, ray, t)
    ensures SlabHit(b, ray, t)
  {
    SlabFromMonotone(a, b, ray, 0, t.lo, t.hi, t.lo, t.hi);
  }
}
