/** The parts of Java's numeric semantics the colouring code relies on:
    IEEE special values of a float, the comparisons `>` and `<=` against a
    finite double constant, `Math.min` on doubles, `Math.max` on ints, and the
    narrowing cast `(int)` from double (JLS section 5.1.3: NaN becomes 0,
    out-of-range values saturate, everything else rounds toward zero).

    Finite values are exact reals: rounding of float and double arithmetic
    is not modelled. */
module JavaNumerics {

  const INT_MIN: int := -0x8000_0000
  const INT_MAX: int := 0x7FFF_FFFF

  /** A Java `int`. */
  type Int32 = x: int | INT_MIN <= x <= INT_MAX

  /** Two's-complement wrap-around of an exact product or sum to 32 bits. */
  function Wrap32(x: int): (r: Int32)
    ensures (x - r) % 0x1_0000_0000 == 0
    ensures INT_MIN <= x <= INT_MAX ==> r == x
    ensures x % 4 == 0 ==> r % 4 == 0
  {
    var m := x % 0x1_0000_0000;
    if m > INT_MAX then m - 0x1_0000_0000 else m
  }

  /** A Java float or double value. */
  datatype JFloat = Finite(value: real) | PosInf | NegInf | NaN

  /** Java's `z > c` for a finite constant `c`: false for NaN. */
  function Greater(z: JFloat, c: real): (b: bool)
    ensures z.NaN? ==> !b
    ensures b ==> !AtMost(z, c)
    ensures !z.NaN? ==> (b || AtMost(z, c))
  {
    match z
    case Finite(v) => v > c
    case PosInf => true
    case NegInf => false
    case NaN => false
  }

  /** Java's `z <= c` for a finite constant `c`: false for NaN. */
  function AtMost(z: JFloat, c: real): (b: bool)
    ensures b ==> z.NegInf? || (z.Finite? && z.value <= c)
    ensures z.NegInf? || (z.Finite? && z.value <= c) ==> b
  {
    match z
    case Finite(v) => v <= c
    case PosInf => false
    case NegInf => true
    case NaN => false
  }

  /** `z * k` for a finite positive constant `k` (infinities keep their sign).
      The argument is a float widened to double and `k` is small, so a finite
      product never overflows to infinity. */
  function Times(z: JFloat, k: real): (r: JFloat)
    requires k > 0.0
    ensures r.Finite? <==> z.Finite?
    ensures r.NaN? <==> z.NaN?
    ensures r.PosInf? <==> z.PosInf?
    ensures z.Finite? ==> r.value / k == z.value
  {
    match z
    case Finite(v) => Finite(v * k)
    case _ => z
  }

  /** `z / k` for a finite positive constant `k`. */
  function Over(z: JFloat, k: real): (r: JFloat)
    requires k > 0.0
    ensures r.Finite? <==> z.Finite?
    ensures r.NaN? <==> z.NaN?
    ensures r.PosInf? <==> z.PosInf?
    ensures z.Finite? ==> r.value * k == z.value
  {
    match z
    case Finite(v) => Finite(v / k)
    case _ => z
  }

  /** `Math.min(z, c)` on doubles for a finite `c`: NaN if either is NaN. */
  function MinDouble(z: JFloat, c: real): (r: JFloat)
    ensures r.NaN? <==> z.NaN?
    ensures r.Finite? ==> r.value <= c
    ensures z.Finite? ==> r.Finite? && r.value <= z.value && (r.value == z.value || r.value == c)
    ensures z.PosInf? ==> r == Finite(c)
    ensures z.NegInf? ==> r.NegInf?
  {
    match z
    case Finite(v) => if v <= c then z else Finite(c)
    case PosInf => Finite(c)
    case NegInf => NegInf
    case NaN => NaN
  }

  /** `Math.max(a, b)` on ints. */
  function MaxInt(a: int, b: int): (r: int)
    ensures r >= a && r >= b
    ensures r == a || r == b
  {
    if a >= b then a else b
  }

  /** Rounding toward zero, the rounding of Java's narrowing casts. */
  function TruncateToInt(x: real): (n: int)
    ensures 0.0 <= x ==> n >= 0 && n as real <= x < n as real + 1.0
    ensures x < 0.0 ==> n <= 0 && n as real - 1.0 < x <= n as real
  {
    if x >= 0.0 then x.Floor else -((-x).Floor)
  }

  /** Java's `(int)` cast of a double. */
  function DoubleToInt(z: JFloat): (n: int)
    ensures INT_MIN <= n <= INT_MAX
    ensures z.NaN? ==> n == 0
    ensures z.PosInf? || (z.Finite? && z.value >= INT_MAX as real) ==> n == INT_MAX
    ensures z.NegInf? || (z.Finite? && z.value <= INT_MIN as real) ==> n == INT_MIN
    ensures z.Finite? && INT_MIN as real <= z.value <= INT_MAX as real ==> n == TruncateToInt(z.value)
  {
    match z
    case NaN => 0
    case PosInf => INT_MAX
    case NegInf => INT_MIN
    case Finite(v) =>
      if v <= INT_MIN as real then INT_MIN
      else if v >= INT_MAX as real then INT_MAX
      else TruncateToInt(v)
  }
}
