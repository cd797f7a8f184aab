/** Decimal amounts as exact reals, and the cent truncation applied to every cash flow. */
module Money {

  /** `amount.quantize(Decimal("0.01"), rounding=ROUND_DOWN)`: towards zero, for either sign. */
  function RoundDown(x: real): (r: real)
    ensures x >= 0.0 ==> 0.0 <= r <= x < r + 0.01
    ensures x <= 0.0 ==> r - 0.01 < x <= r <= 0.0
  {
    if x >= 0.0 then (x * 100.0).Floor as real / 100.0 else -((-x * 100.0).Floor as real / 100.0)
  }

  function Penny(n: int): (r: real) {
    n as real / 100.0
  }

  /** The whole number of cents next to `exact` on the side of zero. */
  ghost predicate Truncates(amount: real, exact: real) {
    && (exists n: int :: amount == Penny(n))
    && if 0.0 <= exact then 0.0 <= amount <= exact < amount + 0.01 else amount - 0.01 < exact <= amount <= 0.0
  }

  lemma RoundDownTruncates(x: real)
    ensures Truncates(RoundDown(x), x)
  {
    if x >= 0.0 {
      assert RoundDown(x) == Penny((x * 100.0).Floor);
    } else {
      assert RoundDown(x) == Penny(-(-x * 100.0).Floor);
    }
    hide Penny, RoundDown;
  }

  /** There is only one. */
  lemma TruncationIsUnique(a: real, b: real, exact: real)
    requires Truncates(a, exact) && Truncates(b, exact)
    ensures a == b
  {
    hide Penny;
    var i, j :| a == Penny(i) && b == Penny(j);
    if i < j {
      PenniesApart(i, j);
    } else if j < i {
      PenniesApart(j, i);
    }
  }

  lemma PenniesApart(i: int, j: int)
    requires i < j
    ensures Penny(i) + 0.01 <= Penny(j)
  {
    assert i as real + 1.0 <= j as real;
  }

  /** A product of two amounts, truncated to cents. */
  function Cents(amount: real, rate: real): (r: real) {
    RoundDown(amount * rate)
  }

  /** The amount is a whole number of cents, so truncation loses nothing. */
  predicate CentExact(x: real) {
    RoundDown(x) == x
  }

  function Power(base: real, n: nat): (r: real) {
    if n == 0 then 1.0 else base * Power(base, n - 1)
  }

  lemma {:induction false} PowerSuccessor(base: real, n: nat)
    ensures Power(base, n + 1) == Power(base, n) * base
  {
  }

  lemma {:induction false} PowerPositive(base: real, n: nat)
    requires base > 0.0
    ensures Power(base, n) > 0.0
  {
    if n > 0 {
      PowerPositive(base, n - 1);
    }
  }

  lemma MulMonotone(a: real, b: real, k: real)
    requires a <= b && 0.0 <= k
    ensures a * k <= b * k
  {
  }

  lemma MulStrict(a: real, b: real, k: real)
    requires a < b && 0.0 < k
    ensures a * k < b * k
  {
  }

  lemma DivideBack(x: real, ratio: real, y: real)
    requires y != 0.0 && x == ratio * y
    ensures x / y == ratio
  {
    var d := x / y;
    assert d * y == ratio * y;
    if y > 0.0 {
      SameFactor(d, ratio, y);
    } else {
      SameFactor(d, ratio, -y);
    }
  }

  lemma SameFactor(a: real, b: real, k: real)
    requires 0.0 < k && (a * k == b * k || a * -k == b * -k)
    ensures a == b
  {
    if a < b {
      MulStrict(a, b, k);
    } else if b < a {
      MulStrict(b, a, k);
    }
  }

  function Times(amount: real, n: nat): (r: real) {
    amount * n as real
  }

  lemma OneMore(amount: real, n: nat)
    ensures Times(amount, 0) == 0.0
    ensures Times(amount, n + 1) == Times(amount, n) + amount
  {
    var x := n as real;
    assert (n + 1) as real == x + 1.0;
    assert amount * (x + 1.0) == amount * x + amount;
  }

  /** A product, named so that a proof can treat it as a single quantity. */
  function Product(a: real, b: real): (r: real) {
    a * b
  }

  lemma ProductZero(a: real)
    ensures Product(a, 0.0) == 0.0 && Product(0.0, a) == 0.0
  {
  }

  lemma ProductOne(a: real)
    ensures Product(a, 1.0) == a && Product(1.0, a) == a
  {
  }

  lemma ProductOrder(a: real, b: real, c: real)
    ensures Product(Product(a, b), c) == Product(a, Product(b, c))
    ensures Product(a, b) == Product(b, a)
  {
  }

  lemma ProductSum(a: real, b: real, c: real)
    ensures Product(a, b + c) == Product(a, b) + Product(a, c)
    ensures Product(b + c, a) == Product(b, a) + Product(c, a)
  {
  }

  lemma ProductStrict(a: real, b: real, k: real)
    requires a < b && 0.0 < k
    ensures Product(a, k) < Product(b, k)
  {
  }

  lemma ProductBetween(x: real, k: real, lo: real, hi: real)
    requires 0.0 <= k && lo <= x <= hi
    ensures Product(lo, k) <= Product(x, k) <= Product(hi, k)
  {
  }
}
