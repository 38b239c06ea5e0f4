/** Facts about products, quotients and machine words that several models need. */
module Arithmetic {

  const TWO_32: int := 0x1_0000_0000
  const TWO_64: int := 0x1_0000_0000_0000_0000

  /** An unsigned 64-bit number. */
  type Word = x: int | 0 <= x < TWO_64

  /** The value of an unsigned 32-bit expression. */
  function U32(x: int): (r: nat)
    ensures r < TWO_32
    ensures 0 <= x < TWO_32 ==> r == x
  {
    x % TWO_32
  }

  /** The value of an unsigned 64-bit expression. */
  function U64(x: int): (r: Word)
    ensures 0 <= x < TWO_64 ==> r == x
  {
    x % TWO_64
  }

  lemma SumInWord(a: int, b: int)
    ensures U64(U64(a) + b) == U64(a + b)
  {
    var m: nat := TWO_64;
    SumInModulus(a, b, m);
  }

  lemma SumInModulus(a: int, b: int, m: nat)
    requires m > 0
    ensures (a % m + b) % m == (a + b) % m
  {
    var k := a / m;
    assert a % m + b == (a + b) + (-k) * m;
    ShiftInModulus(a + b, -k, m);
  }

  lemma ShiftInModulus(x: int, k: int, m: nat)
    requires m > 0
    ensures (x + k * m) % m == x % m
  {
    var y := x + k * m;
    var d := y / m - x / m - k;
    assert y % m - x % m == -d * m;
    if d > 0 { MulMonotone(m, 1, d); }
    if d < 0 { MulMonotone(m, d, -1); }
  }

  /** The numbers from a up to b, without b. */
  function Range(a: nat, b: nat): seq<nat> {
    if a < b then seq(b - a, i requires i >= 0 => a + i) else []
  }

  lemma MulMonotone(q: nat, a: int, b: int)
    requires a <= b
    ensures q * a <= q * b
  {
  }

  lemma ProductBound(a: nat, b: nat, c: nat, d: nat)
    requires a <= b && c <= d
    ensures a * c <= b * d
  {
    MulMonotone(a, c, d);
    MulMonotone(d, a, b);
  }

  /** The digits of a two-digit number of radix `d` are determined by it. */
  lemma DigitsUnique(d: nat, q1: nat, x1: nat, q2: nat, x2: nat)
    requires q1 < d && q2 < d && q1 + d * x1 == q2 + d * x2
    ensures q1 == q2 && x1 == x2
  {
    if x1 < x2 { MulMonotone(d, x1 + 1, x2); }
    if x2 < x1 { MulMonotone(d, x2 + 1, x1); }
  }

  lemma QuotientAndRemainder(a: nat, b: nat)
    requires b >= 1
    ensures a == (a / b) * b + a % b && 0 <= a / b <= a && 0 <= a % b <= a && a % b < b
  {
    assert a == (a / b) * b + a % b;
    MulMonotone(a / b, 1, b);
    MulMonotone(b, 0, a / b);
  }

  lemma MultipleMod(p: nat, k: nat)
    requires p >= 1
    ensures (k * p) % p == 0
  {
    var m := k * p;
    QuotientAndRemainder(m, p);
    DigitsUnique(p, m % p, m / p, 0, k);
  }
}
