/** Small shared vocabulary: an optional value and JavaScript's remainder operator. */
module Util {

  /** A value that may be absent (JavaScript's `undefined` or `null`, or a failed lookup). */
  datatype Option<+T> = None | Some(value: T)

  /** JavaScript's `a % b` for a positive divisor: the remainder truncates toward zero,
      so it carries the sign of the dividend (unlike Dafny's Euclidean `%`). */
  function JsRem(a: int, b: int): (r: int)
    requires b > 0
    ensures -b < r < b
    ensures a >= 0 ==> 0 <= r
    ensures a < 0 ==> r <= 0
    ensures a >= 0 ==> r == a % b
  {
    if a >= 0 then a % b else -((-a) % b)
  }

  /** The remainder differs from the dividend by a multiple of the divisor; with
      the bounds and the sign above, this fixes JavaScript's `%` completely. */
  lemma {:induction false} JsRemIsRemainder(a: int, b: int)
    requires b > 0
    ensures (a - JsRem(a, b)) % b == 0
  {
    if a >= 0 {
      assert a - a % b == (a / b) * b;
      MultipleHasNoRemainder(a / b, b);
    } else {
      var q, m := (-a) / b, (-a) % b;
      assert a + m == (-q) * b;
      MultipleHasNoRemainder(-q, b);
    }
  }

  /** A multiple of `b` leaves remainder 0. */
  lemma {:induction false} MultipleHasNoRemainder(k: int, b: int)
    requires b > 0
    ensures (k * b) % b == 0
  {
    var x := k * b;
    var d := k - x / b;
    assert x % b == b * d;
  }
}
