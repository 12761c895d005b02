/** The `lrint` fallback over ideal reals: round to nearest, ties to even, for some arguments. */
module Rounding {

  /** Conversion to an integer type: truncation toward zero. */
  function Truncate(x: real): (r: int)
    ensures x >= 0.0 ==> r as real <= x < r as real + 1.0
    ensures x < 0.0 ==> r as real - 1.0 < x <= r as real
  {
    if x >= 0.0 then x.Floor else -((-x).Floor)
  }

  predicate HalfWay(d: real) {
    d - d.Floor as real == 0.5
  }

  /** Round to nearest, ties to even. */
  predicate NearestEven(d: real, r: int) {
    && -0.5 <= d - r as real <= 0.5
    && (HalfWay(d) ==> r % 2 == 0)
  }

  lemma NearestEvenUnique(d: real, a: int, b: int)
    requires NearestEven(d, a) && NearestEven(d, b)
    ensures a == b
  {
    var f := d.Floor;
    assert a == f || a == f + 1;
    assert b == f || b == f + 1;
  }

  /** The arguments the fallback rounds correctly: all from -1/2 upwards, and below that the half-way
      points whose next higher integer is even. */
  predicate Handled(d: real) {
    d >= -0.5 || (HalfWay(d) && (d.Floor + 1) % 2 == 0)
  }

  /** How far the result is above the correctly rounded integer. */
  function Excess(d: real): int {
    if Handled(d) then 0 else if HalfWay(d) then 2 else 1
  }

  /** Whatever the argument, the result is the correctly rounded integer plus the excess; so it is
      correct exactly for the handled arguments, and never further than three halves away. */
  method Lrint(d: real) returns (rounded: int)
    ensures NearestEven(d, rounded - Excess(d))
    ensures NearestEven(d, rounded) <==> Handled(d)
    ensures -1.5 <= d - rounded as real <= 0.5
  {
    rounded := Truncate(d + 0.5);
    TruncateShifted(d);
    if d - d.Floor as real == 0.5 {
      if rounded % 2 != 0 {
        rounded := rounded + if d > 0.0 then -1 else 1;
      }
    }
  }

  /** Adding a half and truncating, in terms of the integer below. */
  lemma TruncateShifted(d: real)
    ensures var f, x := d.Floor, d - d.Floor as real;
            Truncate(d + 0.5) ==
            if d >= -0.5 then (if x < 0.5 then f else f + 1)
            else if x <= 0.5 then f + 1
            else f + 2
  {
  }

  /** The same as a statement about every result that satisfies the contract: it is determined. */
  lemma LrintDetermined(d: real, a: int, b: int)
    requires NearestEven(d, a - Excess(d)) && NearestEven(d, b - Excess(d))
    ensures a == b
    ensures NearestEven(d, a) <==> Handled(d)
  {
    NearestEvenUnique(d, a - Excess(d), b - Excess(d));
    if NearestEven(d, a) {
      NearestEvenUnique(d, a, a - Excess(d));
    }
  }

  /** Even a negative integer is not left alone. */
  method MinusOneBecomesZero() returns (rounded: int)
    ensures rounded == 0 && !NearestEven(-1.0, rounded)
  {
    rounded := Lrint(-1.0);
    LrintDetermined(-1.0, rounded, 0);
  }
}
