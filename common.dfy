/** Small helpers shared by the modules of the model. */
module Common {

  datatype Option<+T> = None | Some(value: T)

  /** Outcome of an operation that the program ends with an exception. */
  datatype Result<+T> = Ok(value: T) | Fail(reason: string)

  /** Real division the way this model uses it: the program divides by values
      that are nonzero whenever the quotient is used; a zero divisor (which
      gives a NaN or an infinity in IEEE arithmetic) yields 0 here. */
  function Div(a: real, b: real): (r: real)
    ensures b != 0.0 ==> r * b == a
    ensures b == 0.0 ==> r == 0.0
  {
    if b == 0.0 then 0.0 else a / b
  }

  function MaxInt(a: int, b: int): (r: int)
    ensures r >= a && r >= b && (r == a || r == b)
  {
    if a >= b then a else b
  }

  function MinInt(a: int, b: int): (r: int)
    ensures r <= a && r <= b && (r == a || r == b)
  {
    if a <= b then a else b
  }

  function B2I(b: bool): (r: int)
    ensures 0 <= r <= 1 && (r == 1 <==> b)
  {
    if b then 1 else 0
  }

  /** A C++ double where the program uses its special values: a quiet NaN
      marks "never set", +infinity marks "never happened". */
  datatype Double = NaN | PosInf | Fin(v: real)

  /** x + d for a finite d. */
  function Plus(x: Double, d: real): (r: Double)
    ensures x.Fin? ==> r == Fin(x.v + d)
    ensures !x.Fin? ==> r == x
  {
    match x
    case NaN => NaN
    case PosInf => PosInf
    case Fin(v) => Fin(v + d)
  }

  /** x > c: false for NaN, true for +infinity. */
  function Above(x: Double, c: real): (b: bool)
    ensures x.NaN? ==> !b
    ensures x.PosInf? ==> b
    ensures x.Fin? ==> (b <==> x.v > c)
  {
    match x
    case NaN => false
    case PosInf => true
    case Fin(v) => v > c
  }
}
