/**
 * The two pieces of JavaScript number behaviour the model depends on:
 * values of `Math.floor(Math.random() * w)` and the truncating `%` operator.
 */
module Numbers {
  /** A value returned by `Math.random()`: a real in [0, 1). */
  type Unit = u: real | 0.0 <= u < 1.0

  /** `k` is a value that `Math.floor(Math.random() * w)` can return. */
  predicate IsScaledDraw(k: int, w: real) {
    if w >= 0.0 then 0 <= k && (k == 0 || (k as real) < w)
    else k <= 0 && w < (k + 1) as real
  }

  lemma ProductBelow(u: Unit, w: real)
    requires w > 0.0
    ensures 0.0 <= u * w < w
  {
  }

  /** `x` is a whole number that `Math.floor(Math.random() * w)` can return. */
  predicate IsScaledDrawReal(x: real, w: real) {
    x == x.Floor as real && IsScaledDraw(x.Floor, w)
  }

  /** `Math.floor(u * w)` for a draw `u` of `Math.random()`. */
  function ScaledFloor(u: Unit, w: real): (k: int)
    ensures IsScaledDraw(k, w)
    ensures w > 0.0 && w == w.Floor as real ==> 0 <= k < w.Floor
  {
    var v := u * w;
    if w > 0.0 then
      ProductBelow(u, w);
      v.Floor
    else if w < 0.0 then
      ProductBelow(u, -w);
      v.Floor
    else
      v.Floor
  }

  /** Adding an integer commutes with `Math.floor`. */
  lemma FloorShift(n: int, v: real)
    ensures ((n as real) + v).Floor == n + v.Floor
  {
  }

  /** JavaScript's `a % n` for a positive divisor: the remainder takes the sign of the dividend. */
  function JsRem(a: int, n: int): (r: int)
    requires n > 0
    ensures 0 <= a ==> 0 <= r < n
    ensures a <= 0 ==> -n < r <= 0
    ensures 0 <= a < n ==> r == a
    ensures a == n ==> r == 0
  {
    if a >= 0 then a % n else -((-a) % n)
  }
}
