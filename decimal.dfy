/**
 * The decimal128 number type the calculator computes with. The arithmetic
 * itself belongs to a foreign library (Intel's BID library); the model keeps
 * the value's shape concrete (sign, coefficient, exponent, or a special
 * value), so that the zero, infinity and NaN tests and the quiet comparisons
 * the engine makes are exact, and treats every library operation as an
 * uninterpreted function returning a value and the exception flags it raised.
 */
module Decimal {
  import opened Digits

  datatype Dec =
    | Finite(neg: bool, coeff: nat, exp: int)   // (-1)^neg * coeff * 10^exp
    | Infinity(neg: bool)
    | NaN

  /** The exception flags of the library's status word. */
  datatype Exception = Invalid | DivByZero | Overflow | Underflow | Inexact

  datatype Outcome = Outcome(value: Dec, flags: set<Exception>)

  datatype UnaryOp =
    | Sqrt | Cbrt | Log10 | Ln | Exp | Exp10
    | Sin | Cos | Tan | Asin | Acos | Atan
    | Sinh | Cosh | Tanh | Asinh | Acosh | Atanh
    | RoundIntegralExact | Gamma

  datatype BinaryOp = Add | Sub | Mul | Div | Pow

  /**
   * The library as the engine sees it: string conversion and the
   * arithmetic operations, each a total function of its operands.
   */
  datatype Library = Library(
    parse: string -> Outcome,
    unary: (UnaryOp, Dec) -> Outcome,
    binary: (BinaryOp, Dec, Dec) -> Outcome)

  predicate IsZero(d: Dec) { d.Finite? && d.coeff == 0 }
  predicate IsInf(d: Dec) { d.Infinity? }
  predicate IsNaN(d: Dec) { d.NaN? }

  /** The signed coefficient of a finite value scaled to exponent e (e <= d.exp). */
  function Scaled(d: Dec, e: int): int
    requires d.Finite? && e <= d.exp
  {
    var m := d.coeff * Pow10(d.exp - e);
    if d.neg then -m else m
  }

  /** `bid128_quiet_less`: false whenever either operand is NaN. */
  predicate QuietLess(a: Dec, b: Dec) {
    match (a, b)
    case (NaN, _) => false
    case (_, NaN) => false
    case (Infinity(na), Infinity(nb)) => na && !nb
    case (Infinity(na), _) => na
    case (_, Infinity(nb)) => !nb
    case (Finite(_, _, ea), Finite(_, _, eb)) =>
      var e := if ea < eb then ea else eb;
      Scaled(a, e) < Scaled(b, e)
  }

  /** `bid128_quiet_equal`: numerical equality, so -0 equals +0 and 1E0 equals 10E-1. */
  predicate QuietEqual(a: Dec, b: Dec) {
    match (a, b)
    case (NaN, _) => false
    case (_, NaN) => false
    case (Infinity(na), Infinity(nb)) => na == nb
    case (Infinity(_), _) => false
    case (_, Infinity(_)) => false
    case (Finite(_, _, ea), Finite(_, _, eb)) =>
      var e := if ea < eb then ea else eb;
      Scaled(a, e) == Scaled(b, e)
  }

  predicate QuietLessEqual(a: Dec, b: Dec) {
    QuietLess(a, b) || QuietEqual(a, b)
  }

  /** A NaN operand makes every quiet comparison false. */
  lemma QuietComparisonsWithNaN(a: Dec)
    ensures !QuietLess(a, NaN) && !QuietLess(NaN, a)
    ensures !QuietEqual(a, NaN) && !QuietLessEqual(NaN, a) && !QuietLessEqual(a, NaN)
  {
  }

  /** `__bid128_negate`: the sign bit flips, nothing is rounded and no flag is raised. */
  function Negated(d: Dec): (r: Dec)
    ensures IsZero(r) == IsZero(d) && IsInf(r) == IsInf(d) && IsNaN(r) == IsNaN(d)
    ensures QuietEqual(r, Zero) <==> QuietEqual(d, Zero)
  {
    match d
    case Finite(neg, c, e) => Finite(!neg, c, e)
    case Infinity(neg) => Infinity(!neg)
    case NaN => NaN
  }

  /** Negating twice gives the value back, bit for bit. */
  lemma NegatedTwice(d: Dec)
    ensures Negated(Negated(d)) == d
  {
  }

  /** Negation reverses the order of the non-NaN values. */
  lemma NegatedReversesOrder(a: Dec, b: Dec)
    ensures QuietLess(a, b) <==> QuietLess(Negated(b), Negated(a))
  {
    if a.Finite? && b.Finite? {
      var e := if a.exp < b.exp then a.exp else b.exp;
      assert Scaled(Negated(a), e) == -Scaled(a, e);
      assert Scaled(Negated(b), e) == -Scaled(b, e);
    }
  }

  /** The integer k as an exact decimal value. */
  function FromNat(k: nat): (d: Dec)
    ensures d.Finite? && !IsInf(d) && !IsNaN(d)
  {
    Finite(false, k, 0)
  }

  /** What the literals "0", "1" and "2" parse to. */
  const Zero := FromNat(0)
  const One := FromNat(1)
  const Two := FromNat(2)

  lemma QuietLessEqualOfIntegers(j: nat, k: nat)
    ensures QuietLessEqual(FromNat(j), FromNat(k)) <==> j <= k
  {
  }

  /** Both zeros compare equal to each other, whatever their exponents. */
  lemma ZerosCompareEqual(a: Dec, b: Dec)
    requires IsZero(a) && IsZero(b)
    ensures QuietEqual(a, b)
  {
  }
}
