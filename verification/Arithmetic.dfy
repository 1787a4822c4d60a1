/** Facts several models need: smaller and larger of two numbers, sizes of sets, and division with remainder, with the
    divisor a variable. */
module Arithmetic {

  function Min(a: int, b: int): int { if a < b then a else b }

  function Max(a: int, b: int): int { if a < b then b else a }

  lemma {:induction false} SubsetSize<X>(a: set<X>, b: set<X>)
    requires a <= b
    ensures |a| <= |b|
  {
    if a != {} {
      var x :| x in a;
      SubsetSize(a - {x}, b - {x});
    }
  }

  lemma MulAtLeast(k: int, d: int)
    requires k >= 1 && d >= 0
    ensures k * d >= d
  {}

  lemma Distribute(a: int, b: int, d: int)
    ensures (a - b) * d == a * d - b * d
    ensures (a + b) * d == a * d + b * d
  {}

  lemma MulOrder(a: int, b: int, d: int)
    requires d > 0
    ensures a * d <= b * d <==> a <= b
  {
    Distribute(a, b, d);
    if a > b { MulAtLeast(a - b, d); }
    if a < b { MulAtLeast(b - a, d); }
  }

  /** Quotient and remainder are unique. */
  lemma DivMod(x: int, d: int, q: int, r: int)
    requires d > 0 && 0 <= r < d && x == q * d + r
    ensures x / d == q && x % d == r
  {
    var k := q - x / d;
    Distribute(q, x / d, d);
    assert k * d == x % d - r;
    if k >= 1 { MulAtLeast(k, d); }
    if k <= -1 {
      MulAtLeast(-k, d);
    }
  }

  /** Adding a multiple of the divisor adds to the quotient only. */
  lemma AddMultiple(x: int, k: int, d: int)
    requires d > 0
    ensures (x + k * d) / d == x / d + k && (x + k * d) % d == x % d
  {
    Distribute(x / d, k, d);
    DivMod(x + k * d, d, x / d + k, x % d);
  }

  /** Numbers less than the divisor apart are told apart by their remainders. */
  lemma ModInjective(a: int, b: int, d: int)
    requires d > 0 && -d < a - b < d && a % d == b % d
    ensures a == b
  {
    var k := a / d - b / d;
    Distribute(a / d, b / d, d);
    assert k * d == a - b;
    if k >= 1 { MulAtLeast(k, d); }
    if k <= -1 { MulAtLeast(-k, d); }
  }

  /** Stepping an index around a ring. */
  lemma ModNext(a: int, d: int)
    requires d > 0
    ensures (a + 1) % d == if a % d + 1 == d then 0 else a % d + 1
  {
    if a % d + 1 == d {
      Distribute(a / d, 1, d);
      DivMod(a + 1, d, a / d + 1, 0);
    } else {
      DivMod(a + 1, d, a / d, a % d + 1);
    }
  }
}
