/** mul_check_overflow3 and mul_check_overflow4: products that must fit an unsigned int. */
module Overflow {
  import opened Wrappers
  import opened Arithmetic

  const UINT_MAX := 0xFFFF_FFFF

  /** The product of two size_t values; `size` is the number of values of the type. */
  function Times(a: nat, b: nat, size: nat): nat
    requires size > 0
  {
    (a * b) % size
  }

  lemma TimesFits(a: nat, b: nat, size: nat)
    requires size >= TWO_32 && a * b <= UINT_MAX
    ensures Times(a, b, size) == a * b
  {
  }

  /** a / b bounds the factors that keep a product within a. */
  lemma QuotientBound(c: nat, a: nat, b: nat)
    requires b > 0
    ensures c <= a / b <==> c * b <= a
  {
    QuotientAndRemainder(a, b);
    if c <= a / b {
      MulMonotone(b, c, a / b);
    } else {
      MulMonotone(b, a / b + 1, c);
    }
  }

  /**
    The tests of the first two factors: they are passed exactly if the product fits, and it is then
    exact and not zero.
   */
  lemma FirstTwo(a: nat, b: nat, size: nat)
    requires size >= TWO_32 && a > 0 && b > 0
    ensures a <= UINT_MAX && b <= UINT_MAX / a <==> a * b <= UINT_MAX
    ensures a * b <= UINT_MAX ==> Times(a, b, size) == a * b > 0
  {
    QuotientBound(b, UINT_MAX, a);
    MulMonotone(a, 1, b);
    assert a * 1 == a;
    if a * b <= UINT_MAX { TimesFits(a, b, size); }
  }

  /** One more factor, when the product so far fits. */
  lemma NextFactor(p: nat, c: nat, size: nat)
    requires size >= TWO_32 && 0 < p <= UINT_MAX && c > 0
    ensures c <= UINT_MAX / p <==> p * c <= UINT_MAX
    ensures p * c <= UINT_MAX ==> Times(p, c, size) == p * c > 0
  {
    QuotientBound(c, UINT_MAX, p);
    if p * c <= UINT_MAX { TimesFits(p, c, size); }
  }

  lemma ThirdFactor(a: nat, b: nat, c: nat, size: nat)
    requires size >= TWO_32 && a > 0 && b > 0 && c > 0
    ensures a * b <= UINT_MAX ==> Times(a, b, size) == a * b > 0
    ensures a * b <= UINT_MAX ==> (c <= UINT_MAX / (a * b) <==> a * b * c <= UINT_MAX)
    ensures a * b * c <= UINT_MAX ==> a * b <= UINT_MAX && Times(Times(a, b, size), c, size) == a * b * c > 0
  {
    FirstTwo(a, b, size);
    MulMonotone(a * b, 1, c);
    assert a * b * 1 == a * b;
    if a * b <= UINT_MAX { NextFactor(a * b, c, size); }
  }

  /** mul_check_overflow3; the exit is Fail. No test divides by zero. */
  function MulCheckOverflow3(val1: nat, val2: nat, val3: nat, size: nat): Result<nat>
    requires size >= TWO_32 && val1 < size && val2 < size && val3 < size
  {
    if val1 != 0 && val2 != 0 && val3 != 0 then
      FirstTwo(val1, val2, size);
      if val1 > UINT_MAX || val2 > UINT_MAX / val1 || val3 > UINT_MAX / Times(val1, val2, size) then Fail
      else Ok(Times(Times(val1, val2, size), val3, size))
    else
      Ok(Times(Times(val1, val2, size), val3, size))
  }

  function MulCheckOverflow4(val1: nat, val2: nat, val3: nat, val4: nat, size: nat): Result<nat>
    requires size >= TWO_32 && val1 < size && val2 < size && val3 < size && val4 < size
  {
    if val1 != 0 && val2 != 0 && val3 != 0 && val4 != 0 then
      FirstTwo(val1, val2, size);
      ThirdFactor(val1, val2, val3, size);
      if val1 > UINT_MAX || val2 > UINT_MAX / val1 || val3 > UINT_MAX / Times(val1, val2, size)
         || val4 > UINT_MAX / Times(Times(val1, val2, size), val3, size) then Fail
      else Ok(Times(Times(Times(val1, val2, size), val3, size), val4, size))
    else
      Ok(Times(Times(Times(val1, val2, size), val3, size), val4, size))
  }

  lemma ZeroTimes(a: nat, b: nat, size: nat)
    requires size > 0 && (a == 0 || b == 0)
    ensures Times(a, b, size) == 0 && a * b == 0
  {
  }

  /**
    The exact product comes back whenever a factor is zero or the product fits an unsigned int;
    every other call exits. This holds for a size_t of 32 bits too.
   */
  lemma MulCheckOverflow3Iff(val1: nat, val2: nat, val3: nat, size: nat)
    requires size >= TWO_32 && val1 < size && val2 < size && val3 < size
    ensures MulCheckOverflow3(val1, val2, val3, size)
            == if val1 * val2 * val3 <= UINT_MAX then Ok(val1 * val2 * val3) else Fail
  {
    if val1 == 0 || val2 == 0 || val3 == 0 {
      if val1 == 0 || val2 == 0 { ZeroTimes(val1, val2, size); }
      ZeroTimes(Times(val1, val2, size), val3, size);
    } else {
      FirstTwo(val1, val2, size);
      ThirdFactor(val1, val2, val3, size);
    }
  }

  lemma MulCheckOverflow4Iff(val1: nat, val2: nat, val3: nat, val4: nat, size: nat)
    requires size >= TWO_32 && val1 < size && val2 < size && val3 < size && val4 < size
    ensures MulCheckOverflow4(val1, val2, val3, val4, size)
            == if val1 * val2 * val3 * val4 <= UINT_MAX then Ok(val1 * val2 * val3 * val4) else Fail
  {
    var p := val1 * val2 * val3;
    if val1 == 0 || val2 == 0 || val3 == 0 || val4 == 0 {
      ZeroTimes(p, val4, size);
      if val1 == 0 || val2 == 0 { ZeroTimes(val1, val2, size); }
      if val4 != 0 { ZeroTimes(Times(val1, val2, size), val3, size); }
      ZeroTimes(Times(Times(val1, val2, size), val3, size), val4, size);
    } else {
      FirstTwo(val1, val2, size);
      ThirdFactor(val1, val2, val3, size);
      MulMonotone(p, 1, val4);
      assert p * 1 == p;
      if p <= UINT_MAX { NextFactor(p, val4, size); }
    }
  }
}
