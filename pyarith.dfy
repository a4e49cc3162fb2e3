/** Python's integer floor division `//` and modulo `%`. Both round toward
    negative infinity, so the remainder takes the sign of the divisor; Dafny's
    own `/` and `%` are Euclidean and differ from them when the divisor is
    negative. A zero divisor raises ZeroDivisionError in Python, hence the
    `b != 0` preconditions. */
module PyArith {

  function FloorDiv(a: int, b: int): (q: int)
    requires b != 0
    ensures b > 0 ==> b * q <= a < b * q + b
    ensures b < 0 ==> b * q + b < a <= b * q
  {
    if b > 0 then a / b else (-a) / (-b)
  }

  function FloorMod(a: int, b: int): (r: int)
    requires b != 0
    ensures b > 0 ==> 0 <= r < b
    ensures b < 0 ==> b < r <= 0
    ensures a == b * FloorDiv(a, b) + r
  {
    if b > 0 then a % b else -((-a) % (-b))
  }

  /** For a positive divisor the remainder is the only value in [0, b) that
      differs from `a` by a multiple of `b`. */
  lemma FloorModUnique(a: int, b: int, q: int, r: int)
    requires b > 0 && 0 <= r < b && a == b * q + r
    ensures FloorMod(a, b) == r && FloorDiv(a, b) == q
  {
    var q0, r0 := FloorDiv(a, b), FloorMod(a, b);
    assert b * (q - q0) == r0 - r by {
      assert b * q + r == b * q0 + r0;
    }
    if q > q0 {
      MulAtLeast(b, q - q0);
    } else if q < q0 {
      MulAtLeast(b, q0 - q);
    }
  }

  lemma MulAtLeast(b: int, k: int)
    requires b > 0 && k >= 1
    ensures b * k >= b
  {
  }
}
