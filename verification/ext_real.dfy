/** Real numbers extended with the two infinities.

    The search code starts its running maximum at `-float('inf')`, its running
    minimum at `float('inf')`, and calls the root with the window
    `(-inf, +inf)`.  Scores themselves are exact rationals (`real`). */
module ExtReal {

  datatype Ext = NegInf | Fin(v: real) | PosInf

  /** The order of the extended reals. */
  predicate Le(a: Ext, b: Ext)
  {
    a.NegInf? || b.PosInf? || (a.Fin? && b.Fin? && a.v <= b.v)
  }

  predicate Lt(a: Ext, b: Ext)
  {
    !Le(b, a)
  }

  /** Python's `max(a, b)`: the larger of the two. */
  function Max(a: Ext, b: Ext): (r: Ext)
    ensures Le(a, r) && Le(b, r)
    ensures r == a || r == b
  {
    if Le(a, b) then b else a
  }

  /** Python's `min(a, b)`: the smaller of the two. */
  function Min(a: Ext, b: Ext): (r: Ext)
    ensures Le(r, a) && Le(r, b)
    ensures r == a || r == b
  {
    if Le(a, b) then a else b
  }

  /** `x + e` for a finite `x`; the infinities absorb it. */
  function Add(x: real, e: Ext): (r: Ext)
    ensures r.Fin? <==> e.Fin?
    ensures e.Fin? ==> r.v == x + e.v
  {
    match e
    case NegInf => NegInf
    case PosInf => PosInf
    case Fin(y) => Fin(x + y)
  }

  /** `e - x` for a finite `x`: the bound `e` seen from below a reward `x`. */
  function Sub(e: Ext, x: real): (r: Ext)
    ensures Add(x, r) == e
  {
    match e
    case NegInf => NegInf
    case PosInf => PosInf
    case Fin(y) => Fin(y - x)
  }

  /** Shifting both sides of a comparison by the same reward keeps it. */
  lemma ShiftLt(x: real, a: Ext, b: Ext)
    ensures Lt(a, b) <==> Lt(Add(x, a), Add(x, b))
    ensures Le(a, b) <==> Le(Add(x, a), Add(x, b))
  {
  }

  /** `Sub` is the inverse of `Add` on comparisons: `c < e - x` iff `x + c < e`. */
  lemma SubLt(x: real, c: Ext, e: Ext)
    ensures Lt(c, Sub(e, x)) <==> Lt(Add(x, c), e)
    ensures Lt(Sub(e, x), c) <==> Lt(e, Add(x, c))
  {
    ShiftLt(x, c, Sub(e, x));
    ShiftLt(x, Sub(e, x), c);
  }
}
