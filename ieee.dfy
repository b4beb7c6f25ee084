/**
 * The part of IEEE-754 double arithmetic that the RSI formula relies on:
 * finite values, the two infinities and NaN, with exact (unrounded) results
 * and without signed zeros.  A pandas float column holds values of this kind.
 */
module Ieee {
  import opened Wrappers

  datatype Float = Num(v: real) | PosInf | NegInf | NaN

  /** A finite-or-missing value as a float: a missing value is NaN. */
  function Lift(o: Option<real>): (f: Float)
    ensures f.NaN? <==> o.None?
    ensures o.Some? ==> f == Num(o.value)
  {
    match o
    case None => NaN
    case Some(x) => Num(x)
  }

  function Neg(a: Float): Float
  {
    match a
    case Num(x) => Num(-x)
    case PosInf => NegInf
    case NegInf => PosInf
    case NaN => NaN
  }

  /** Addition: NaN is absorbing, and infinities of opposite sign give NaN. */
  function Add(a: Float, b: Float): (r: Float)
    ensures r.NaN? <==> a.NaN? || b.NaN? || (a.PosInf? && b.NegInf?) || (a.NegInf? && b.PosInf?)
    ensures a.Num? && b.Num? ==> r == Num(a.v + b.v)
    ensures a.Num? && b.PosInf? ==> r.PosInf?
  {
    match (a, b)
    case (NaN, _) => NaN
    case (_, NaN) => NaN
    case (PosInf, NegInf) => NaN
    case (NegInf, PosInf) => NaN
    case (PosInf, _) => PosInf
    case (NegInf, _) => NegInf
    case (_, PosInf) => PosInf
    case (_, NegInf) => NegInf
    case (Num(x), Num(y)) => Num(x + y)
  }

  function Sub(a: Float, b: Float): Float
  {
    Add(a, Neg(b))
  }

  /**
   * Division: a non-zero finite value over zero is an infinity of its sign,
   * 0/0 and inf/inf are NaN, and a finite value over an infinity is zero.
   */
  function Div(a: Float, b: Float): (r: Float)
    ensures r.NaN? <==> a.NaN? || b.NaN? || (a == Num(0.0) && b == Num(0.0)) || (!a.Num? && !b.Num?)
    ensures a.Num? && b.Num? && b.v != 0.0 ==> r == Num(a.v / b.v)
    ensures a.Num? && a.v > 0.0 && b == Num(0.0) ==> r.PosInf?
    ensures a.Num? && !b.Num? && !b.NaN? ==> r == Num(0.0)
  {
    match (a, b)
    case (NaN, _) => NaN
    case (_, NaN) => NaN
    case (Num(x), Num(y)) =>
      if y != 0.0 then Num(x / y)
      else if x > 0.0 then PosInf
      else if x < 0.0 then NegInf
      else NaN
    case (Num(_), _) => Num(0.0)
    case (_, Num(y)) => if y < 0.0 then Neg(a) else a
    case (_, _) => NaN
  }
}
