/** Python's `int()` applied to a float, in exact real arithmetic. */
module PyInt {

  /** `int(x)` truncates toward zero: it drops the fractional part and
      never moves away from zero. */
  function Trunc(x: real): (r: int)
    ensures 0.0 <= x ==> 0 <= r && r as real <= x < r as real + 1.0
    ensures x < 0.0 ==> r <= 0 && r as real - 1.0 < x <= r as real
  {
    if 0.0 <= x then x.Floor else -((-x).Floor)
  }

  /** Truncation is the identity on whole numbers. */
  lemma TruncOfInt(n: int)
    ensures Trunc(n as real) == n
  {
  }

  /** Truncation preserves order. */
  lemma TruncMonotone(x: real, y: real)
    requires x <= y
    ensures Trunc(x) <= Trunc(y)
  {
  }

  /** A real between two whole numbers truncates to a value between them. */
  lemma TruncBetween(a: int, b: int, x: real)
    requires a as real <= x <= b as real
    ensures a <= Trunc(x) <= b
  {
    TruncOfInt(a);
    TruncOfInt(b);
    TruncMonotone(a as real, x);
    TruncMonotone(x, b as real);
  }

  /** Dividing by a positive number keeps order. */
  lemma DivMonotone(a: real, b: real, d: real)
    requires 0.0 < d && a <= b
    ensures a / d <= b / d
  {
  }

  /** Scaling by delta keeps the order of a <= b when delta >= 0 and
      reverses it otherwise. */
  lemma ScaleMonotone(delta: real, a: real, b: real)
    requires a <= b
    ensures 0.0 <= delta ==> delta * a <= delta * b
    ensures delta < 0.0 ==> delta * b <= delta * a
  {
    assert delta * b - delta * a == delta * (b - a);
  }
}
