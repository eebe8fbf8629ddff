/** Integers extended with the two infinities that the schedulers obtain from
    Python's float('inf') defaults and from negating them. */
module ExtendedInt {

  datatype Ext = NegInf | Fin(value: int) | PosInf

  /** e - d, where an infinity absorbs the subtraction (inf - d == inf). */
  function Sub(e: Ext, d: int): (r: Ext)
    ensures r.Fin? <==> e.Fin?
    ensures e.Fin? ==> r.value + d == e.value
    ensures !e.Fin? ==> r == e
  {
    match e
    case Fin(v) => Fin(v - d)
    case _ => e
  }

  /** Unary minus, swapping the two infinities. */
  function Neg(e: Ext): Ext
  {
    match e
    case NegInf => PosInf
    case Fin(v) => Fin(-v)
    case PosInf => NegInf
  }

  predicate Le(a: Ext, b: Ext)
  {
    a.NegInf? || b.PosInf? || (a.Fin? && b.Fin? && a.value <= b.value)
  }

  /** Python's min(a, b): the first argument unless the second is strictly smaller. */
  function Min(a: Ext, b: Ext): (r: Ext)
    ensures Le(r, a) && Le(r, b)
    ensures r == a || r == b
  {
    if Le(a, b) then a else b
  }
}
