/** The double values the renderer compares: finite reals, the two infinities
    (POS_INF, NEG_INF in include/global.h:24-25) and NaN, with the IEEE rule
    that every ordered comparison involving NaN is false. */
module ExtReal {
  datatype Ext = NegInf | Fin(r: real) | PosInf | NaN

  /** a < b on doubles. */
  predicate Lt(a: Ext, b: Ext) {
    match (a, b)
    case (Fin(x), Fin(y)) => x < y
    case (NegInf, Fin(_)) => true
    case (NegInf, PosInf) => true
    case (Fin(_), PosInf) => true
    case _ => false
  }

  /** a <= b on doubles. */
  predicate Le(a: Ext, b: Ext) {
    Lt(a, b) || (a == b && !a.NaN?)
  }

  /** std::min(a, b) = (b < a) ? b : a. */
  function Min(a: Ext, b: Ext): Ext { if Lt(b, a) then b else a }

  /** std::max(a, b) = (a < b) ? b : a. */
  function Max(a: Ext, b: Ext): Ext { if Lt(a, b) then b else a }

  function Neg(a: Ext): Ext {
    match a
    case NegInf => PosInf
    case PosInf => NegInf
    case Fin(x) => Fin(-x)
    case NaN => NaN
  }

  /** IEEE addition: infinities of opposite sign give NaN. */
  function Add(a: Ext, b: Ext): Ext {
    match (a, b)
    case (Fin(x), Fin(y)) => Fin(x + y)
    case (NaN, _) => NaN
    case (_, NaN) => NaN
    case (PosInf, NegInf) => NaN
    case (NegInf, PosInf) => NaN
    case (PosInf, _) => PosInf
    case (NegInf, _) => NegInf
    case (_, PosInf) => PosInf
    case (_, NegInf) => NegInf
  }

  function Sub(a: Ext, b: Ext): Ext { Add(a, Neg(b)) }

  /** IEEE multiplication: an infinity times zero gives NaN (the sign of zero
      is not modelled). */
  function Mul(a: Ext, b: Ext): Ext {
    match (a, b)
    case (Fin(x), Fin(y)) => Fin(x * y)
    case (NaN, _) => NaN
    case (_, NaN) => NaN
    case (Fin(x), _) => if x == 0.0 then NaN else if (x > 0.0) == b.PosInf? then PosInf else NegInf
    case (_, Fin(y)) => if y == 0.0 then NaN else if (y > 0.0) == a.PosInf? then PosInf else NegInf
    case _ => if a == b then PosInf else NegInf
  }

  /** Le is a total preorder on the values that are not NaN. */
  lemma LeTotal(a: Ext, b: Ext)
    requires !a.NaN? && !b.NaN?
    ensures Le(a, b) || Le(b, a)
    ensures Lt(a, b) <==> !Le(b, a)
  {
  }

  lemma LeTrans(a: Ext, b: Ext, c: Ext)
    requires Le(a, b) && Le(b, c)
    ensures Le(a, c)
    ensures Lt(a, b) || Lt(b, c) ==> Lt(a, c)
  {
  }

  lemma MinMaxBounds(a: Ext, b: Ext)
    requires !a.NaN? && !b.NaN?
    ensures Le(Min(a, b), a) && Le(Min(a, b), b)
    ensures Le(a, Max(a, b)) && Le(b, Max(a, b))
    ensures Min(a, b) == a || Min(a, b) == b
    ensures Max(a, b) == a || Max(a, b) == b
  {
  }

  /** std::max and std::min are monotone in both arguments on non-NaN values. */
  lemma MinMaxMonotone(a: Ext, b: Ext, c: Ext, d: Ext)
    requires !a.NaN? && !b.NaN? && !c.NaN? && !d.NaN?
    requires Le(a, c) && Le(b, d)
    ensures Le(Max(a, b), Max(c, d))
    ensures Le(Min(a, b), Min(c, d))
  {
    MinMaxBounds(a, b);
    MinMaxBounds(c, d);
    if Max(a, b) == a { LeTrans(a, c, Max(c, d)); } else { LeTrans(b, d, Max(c, d)); }
    if Min(c, d) == c { LeTrans(Min(a, b), a, c); } else { LeTrans(Min(a, b), b, d); }
  }
}
