/** Exact arithmetic helpers and the floating-point operations the model leaves abstract. */
module Numerics {
  import opened Results

  /**
   * The binary32/binary64 operations of the source whose rounding the model does not
   * interpret. They are parameters of the operations that use them, so every result is
   * stated for any choice of them.
   *   pow        -- Math.pow
   *   toFloat    -- an explicit (float) cast of a double
   *   fromBits   -- the binary32 value of a 32-bit interchange word (IEEE 754-2008, 3.4),
   *                 the word given as the unsigned integer its 32 bits spell
   *   parseFloat -- Float.parseFloat, None when it throws NumberFormatException
   *   reciprocal -- the float quotient 1.f / x
   */
  datatype FloatOps = FloatOps(
    pow: (real, real) -> real,
    toFloat: real -> real,
    fromBits: nat -> real,
    parseFloat: string -> Option<real>,
    reciprocal: real -> real)

  function Abs(x: real): (r: real)
    ensures r >= 0.0 && (r == x || r == -x)
  {
    if x < 0.0 then -x else x
  }

  function Sq(x: real): (r: real)
    ensures r >= 0.0
  {
    x * x
  }

  /** The (int) cast of a finite double: rounds toward zero. */
  function Truncate(x: real): (r: int)
    ensures x >= 0.0 ==> r >= 0 && r as real <= x < r as real + 1.0
    ensures x < 0.0 ==> r <= 0 && r as real - 1.0 < x <= r as real
  {
    if x >= 0.0 then x.Floor else -((-x).Floor)
  }
}
