/** `round(x, digits)`: nearest multiple, ties to the even neighbour. */
module Rounding {

  function Nearest(y: real): (n: int)
    ensures -0.5 <= y - n as real <= 0.5
  {
    var low := y.Floor;
    var part := y - low as real;
    if part < 0.5 || (part == 0.5 && low % 2 == 0) then low else low + 1
  }

  /** `n` is the nearest whole number to `y`, and the even one of two. */
  predicate IsNearest(n: int, y: real) {
    -0.5 <= y - n as real <= 0.5 && (y - n as real in {-0.5, 0.5} ==> n % 2 == 0)
  }

  /** That determines it. */
  lemma NearestExactly(n: int, y: real)
    ensures IsNearest(n, y) <==> n == Nearest(y)
  {
    if IsNearest(n, y) {
      assert n in {y.Floor, y.Floor + 1};
    }
  }

  function Multiple(n: int, scale: real): (r: real)
    requires scale != 0.0
  {
    n as real / scale
  }

  /** `r` is the multiple of one `scale`-th nearest to `x`. */
  ghost predicate Rounded(r: real, x: real, scale: real)
    requires scale != 0.0
  {
    exists n: int :: r == Multiple(n, scale) && IsNearest(n, x * scale)
  }

  /** What `round(x, n)` is for the three precisions in use. */
  lemma RoundsAsStated(x: real)
    ensures Rounded(Round2(x), x, 100.0) && Rounded(Round4(x), x, 10000.0) && Rounded(Round6(x), x, 1000000.0)
  {
    NearestExactly(Nearest(x * 100.0), x * 100.0);
    NearestExactly(Nearest(x * 10000.0), x * 10000.0);
    NearestExactly(Nearest(x * 1000000.0), x * 1000000.0);
    assert Round2(x) == Multiple(Nearest(x * 100.0), 100.0);
    assert Round4(x) == Multiple(Nearest(x * 10000.0), 10000.0);
    assert Round6(x) == Multiple(Nearest(x * 1000000.0), 1000000.0);
    hide Nearest, IsNearest, Multiple, Round2, Round4, Round6;
  }

  lemma NearestMonotone(x: real, y: real)
    requires x <= y
    ensures Nearest(x) <= Nearest(y)
  {
    assert x.Floor <= y.Floor;
  }

  /** `round(x, 6)` */
  function Round6(x: real): (r: real)
    ensures x - 0.0000005 <= r <= x + 0.0000005
  {
    Nearest(x * 1000000.0) as real / 1000000.0
  }

  lemma Round6Monotone(x: real, y: real)
    requires x <= y
    ensures Round6(x) <= Round6(y)
  {
    NearestMonotone(x * 1000000.0, y * 1000000.0);
  }

  predicate IsMicro(x: real) {
    x == (x * 1000000.0).Floor as real / 1000000.0
  }

  lemma Round6Fixed(x: real)
    requires IsMicro(x)
    ensures Round6(x) == x
  {
  }

  /** `round(x, 4)` */
  function Round4(x: real): (r: real) {
    Nearest(x * 10000.0) as real / 10000.0
  }

  lemma Round4Monotone(x: real, y: real)
    requires x <= y
    ensures Round4(x) <= Round4(y)
  {
    NearestMonotone(x * 10000.0, y * 10000.0);
  }

  /** `round(x, 2)` */
  function Round2(x: real): (r: real) {
    Nearest(x * 100.0) as real / 100.0
  }

  lemma Round2Monotone(x: real, y: real)
    requires x <= y
    ensures Round2(x) <= Round2(y)
  {
    NearestMonotone(x * 100.0, y * 100.0);
  }
}
