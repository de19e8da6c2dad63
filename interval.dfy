/** Interval (include/interval.h, interval.h, source/interval.cpp): a closed
    range of doubles with a cached size. The newer copy adds the union
    constructor, Centroid and Expand; where both copies have a member, they
    agree. */
module Intervals {
  import opened ExtReal
  import G = Global

  /** `lo`, `hi` are the source's `_min`, `_max`; `size` is a stored field that
      the constructors fill in and nothing else updates. */
  datatype Interval = Interval(lo: Ext, hi: Ext, size: Ext)

  /** Interval(): (+inf, -inf) with size 0. */
  function Default(): Interval {
    Interval(PosInf, NegInf, Fin(0.0))
  }

  /** Interval(min, max): size = max - min. */
  function Make(lo: Ext, hi: Ext): (r: Interval)
    ensures lo.Fin? && hi.Fin? ==> r.size == Fin(hi.r - lo.r)
  {
    Interval(lo, hi, Sub(hi, lo))
  }

  /** Interval(a, b): min of the mins, max of the maxes. */
  function Hull(a: Interval, b: Interval): Interval {
    Make(Min(a.lo, b.lo), Max(a.hi, b.hi))
  }

  predicate Contains(i: Interval, value: real) {
    Le(i.lo, Fin(value)) && Le(Fin(value), i.hi)
  }

  predicate Surrounds(i: Interval, value: real) {
    Lt(i.lo, Fin(value)) && Lt(Fin(value), i.hi)
  }

  function Clamp(i: Interval, value: real): Ext {
    Max(i.lo, Min(i.hi, Fin(value)))
  }

  function Centroid(i: Interval): Ext {
    Mul(Add(i.lo, i.hi), Fin(0.5))
  }

  function Expand(i: Interval, amount: real): Interval {
    Make(Sub(i.lo, Fin(amount / 2.0)), Add(i.hi, Fin(amount / 2.0)))
  }

  /** Interval::Empty and Interval::EMPTY, built by the pair constructor. */
  const Empty: Interval := Make(PosInf, NegInf)

  /** Interval::Universe and Interval::UNIVERSE. */
  const Universe: Interval := Make(NegInf, PosInf)

  /** Contains on an interval with two finite ends is the closed test on reals. */
  lemma FiniteContains(a: real, b: real, x: real)
    ensures Contains(Make(Fin(a), Fin(b)), x) <==> a <= x <= b
  {
  }

  /** Clamp on a finite interval, as a real. */
  function ClampReal(lo: real, hi: real, value: real): real {
    G.Max(lo, G.Min(hi, value))
  }

  // ---------------------------------------------------------------- lemmas

  /** The default interval is empty: inverted infinite ends, size 0, and no
      value inside it. */
  lemma DefaultIsEmpty(v: real)
    ensures Default().lo == PosInf && Default().hi == NegInf && Default().size == Fin(0.0)
    ensures !Contains(Default(), v) && !Surrounds(Default(), v)
  {
  }

  /** Empty has the same ends as the default interval but its size, computed by
      the pair constructor, is -inf rather than 0. Nothing lies in it. */
  lemma EmptyContainsNothing(v: real)
    ensures Empty.lo == PosInf && Empty.hi == NegInf && Empty.size == NegInf
    ensures Empty != Default()
    ensures !Contains(Empty, v) && !Surrounds(Empty, v)
  {
  }

  /** Universe contains and surrounds every finite value. */
  lemma UniverseContainsAll(v: real)
    ensures Universe.lo == NegInf && Universe.hi == PosInf && Universe.size == PosInf
    ensures Contains(Universe, v) && Surrounds(Universe, v)
  {
  }

  /** The union constructor keeps every value of both operands (a NaN end
      would poison std::min / std::max, so the ends are not NaN). */
  lemma HullContains(a: Interval, b: Interval, v: real)
    requires !a.lo.NaN? && !a.hi.NaN? && !b.lo.NaN? && !b.hi.NaN?
    requires Contains(a, v) || Contains(b, v)
    ensures Contains(Hull(a, b), v)
  {
    var x := Fin(v);
    var lo, hi := Min(a.lo, b.lo), Max(a.hi, b.hi);
    if Contains(a, v) {
      if lo != a.lo { LeTrans(lo, a.lo, x); }
      if hi != a.hi { LeTrans(x, a.hi, hi); }
    } else {
      if lo != b.lo { LeTotal(a.lo, b.lo); LeTrans(lo, b.lo, x); }
      if hi != b.hi { LeTotal(a.hi, b.hi); LeTrans(x, b.hi, hi); }
    }
  }

  /** The union keeps both operands' ends inside its own: it contains each
      operand's range whenever that operand's ends are not NaN. */
  lemma HullBounds(a: Interval, b: Interval)
    requires !a.lo.NaN? && !a.hi.NaN? && !b.lo.NaN? && !b.hi.NaN?
    ensures Le(Hull(a, b).lo, a.lo) && Le(Hull(a, b).lo, b.lo)
    ensures Le(a.hi, Hull(a, b).hi) && Le(b.hi, Hull(a, b).hi)
  {
    MinMaxBounds(a.lo, b.lo);
    MinMaxBounds(a.hi, b.hi);
  }

  /** A union with Empty on the right returns the other operand's ends
      unchanged (whatever they are); with Empty on the left it does too,
      unless an end is NaN. */
  lemma HullWithEmpty(a: Interval)
    ensures Hull(a, Empty).lo == a.lo && Hull(a, Empty).hi == a.hi
    ensures !a.lo.NaN? && !a.hi.NaN? ==> Hull(Empty, a).lo == a.lo && Hull(Empty, a).hi == a.hi
  {
  }

  /** Surrounds (open) implies Contains (closed); the ends of a finite interval
      are contained but not surrounded. */
  lemma SurroundsImpliesContains(i: Interval, v: real)
    ensures Surrounds(i, v) ==> Contains(i, v)
    ensures i.lo.Fin? && i.hi.Fin? && i.lo.r <= i.hi.r ==>
      Contains(i, i.lo.r) && Contains(i, i.hi.r) && !Surrounds(i, i.lo.r) && !Surrounds(i, i.hi.r)
  {
  }

  /** On a finite interval with min <= max, Clamp lands in [min, max] and
      returns a contained argument unchanged. */
  lemma ClampInRange(i: Interval, v: real)
    requires i.lo.Fin? && i.hi.Fin? && i.lo.r <= i.hi.r
    ensures Clamp(i, v) == Fin(ClampReal(i.lo.r, i.hi.r, v))
    ensures Contains(i, ClampReal(i.lo.r, i.hi.r, v))
    ensures Contains(i, v) ==> ClampReal(i.lo.r, i.hi.r, v) == v
  {
  }

  /** The real clamp lies in [lo, hi], is the argument when the argument is
      already there, and is monotone. */
  lemma ClampRealProperties(lo: real, hi: real, v: real, w: real)
    requires lo <= hi
    ensures lo <= ClampReal(lo, hi, v) <= hi
    ensures lo <= v <= hi ==> ClampReal(lo, hi, v) == v
    ensures v <= lo ==> ClampReal(lo, hi, v) == lo
    ensures v >= hi ==> ClampReal(lo, hi, v) == hi
    ensures v <= w ==> ClampReal(lo, hi, v) <= ClampReal(lo, hi, w)
  {
  }

  /** The centroid of a finite interval is the midpoint and lies inside it
      when min <= max. */
  lemma CentroidIsMidpoint(i: Interval)
    requires i.lo.Fin? && i.hi.Fin?
    ensures Centroid(i) == Fin((i.lo.r + i.hi.r) / 2.0)
    ensures i.lo.r <= i.hi.r ==> Contains(i, (i.lo.r + i.hi.r) / 2.0)
  {
  }

  /** Expand(a) moves each end out by a/2: for an interval built by the pair
      constructor with finite ends the size grows by exactly a, and for every
      interval the centroid is unchanged. */
  lemma ExpandGrowsSize(i: Interval, amount: real)
    ensures Centroid(Expand(i, amount)) == Centroid(i)
    ensures i.lo.Fin? && i.hi.Fin? && i.size == Sub(i.hi, i.lo) ==>
      Expand(i, amount).size == Fin(i.size.r + amount)
    ensures i.lo.Fin? && i.hi.Fin? && amount >= 0.0 ==>
      Le(Expand(i, amount).lo, i.lo) && Le(i.hi, Expand(i, amount).hi)
  {
  }
}
