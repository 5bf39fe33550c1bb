/** The C# integer semantics the game relies on, written out because Dafny's
    own `/` is Euclidean and its integers never truncate. */
module CSharp {

  /** C# integer division `a / b` for a positive divisor: the quotient is
      truncated toward zero, so the remainder takes the sign of `a`. */
  function Div(a: int, b: int): (q: int)
    requires b > 0
    ensures 0 <= a ==> 0 <= a - q * b < b
    ensures a < 0 ==> -b < a - q * b <= 0
  {
    if a >= 0 then a / b else -((-a) / b)
  }

  /** The C# cast `(int)r` of a floating-point value, idealised as a real:
      truncation toward zero. */
  function Trunc(r: real): (t: int)
    ensures 0.0 <= r ==> t as real <= r < t as real + 1.0
    ensures r < 0.0 ==> t as real - 1.0 < r <= t as real
  {
    if r >= 0.0 then r.Floor else -((-r).Floor)
  }

  function Min(a: int, b: int): int { if a <= b then a else b }

  function Max(a: int, b: int): int { if a >= b then a else b }
}
