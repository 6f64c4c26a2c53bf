/**
 * `Mathf.RoundToInt` on an exact rational num/den: round to the nearest integer, halves to the
 * even neighbour. The source applies it to float values that are exact at the sizes involved.
 */
module Rounding {
  import opened Geometry

  /** r is a nearest integer to num/den, and an even one when num/den is a half-integer. */
  predicate IsRoundHalfEven(num: int, den: int, r: int)
    requires den > 0
  {
    && 2 * Abs(num - r * den) <= den
    && (2 * Abs(num - r * den) == den ==> r % 2 == 0)
  }

  lemma MulSucc(a: int, b: int)
    ensures (a + 1) * b == a * b + b
  {
  }

  lemma MulSub(a: int, c: int, b: int)
    ensures a * b - c * b == (a - c) * b
  {
  }

  lemma MulAtLeast(k: int, b: int)
    requires k >= 1 && b > 0
    ensures k * b >= b
  {
  }

  function RoundHalfEven(num: int, den: int): (r: int)
    requires den > 0
    ensures IsRoundHalfEven(num, den, r)
  {
    var q := num / den;
    var rem := num % den;
    assert num - q * den == rem;
    MulSucc(q, den);
    if 2 * rem < den then q
    else if 2 * rem > den then q + 1
    else if q % 2 == 0 then q
    else q + 1
  }

  /** The rounding is unique: any integer with the defining property is the computed one. */
  lemma RoundHalfEvenUnique(num: int, den: int, r: int)
    requires den > 0 && IsRoundHalfEven(num, den, r)
    ensures r == RoundHalfEven(num, den)
  {
    var s := RoundHalfEven(num, den);
    var a, b := num - r * den, num - s * den;
    if r < s {
      MulSub(s, r, den);
      MulAtLeast(s - r, den);
      assert a - b == (s - r) * den;
      if s - r >= 2 {
        MulAtLeast(s - r - 1, den);
        MulSucc(s - r - 1, den);
        assert false;
      }
      assert false;
    } else if s < r {
      MulSub(r, s, den);
      MulAtLeast(r - s, den);
      assert b - a == (r - s) * den;
      if r - s >= 2 {
        MulAtLeast(r - s - 1, den);
        MulSucc(r - s - 1, den);
        assert false;
      }
      assert false;
    }
  }

  /** A value between two integers rounds to an integer between them. */
  lemma RoundHalfEvenBetween(num: int, den: int, lo: int, hi: int)
    requires den > 0 && lo * den <= num <= hi * den
    ensures lo <= RoundHalfEven(num, den) <= hi
  {
    var r := RoundHalfEven(num, den);
    if r < lo {
      MulSub(lo, r, den);
      MulAtLeast(lo - r, den);
      assert false;
    }
    if r > hi {
      MulSub(r, hi, den);
      MulAtLeast(r - hi, den);
      assert false;
    }
  }
}
