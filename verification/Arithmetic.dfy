/** Facts about products of reals, kept away from larger proofs. */
module Arithmetic {

  lemma ProductNonNegative(x: real, y: real)
    requires x >= 0.0 && y >= 0.0
    ensures x * y >= 0.0
  {
  }

  lemma ProductMonotone(x: real, y: real, w: real)
    requires x <= y && w >= 0.0
    ensures x * w <= y * w
  {
    ProductNonNegative(y - x, w);
    assert (y - x) * w == y * w - x * w;
  }

  lemma SquareNonNegative(x: real)
    ensures x * x >= 0.0
  {
  }

  lemma Distribute(k: real, x: real, y: real)
    ensures k * (x + y) == k * x + k * y
  {
  }

  /** A positive factor can be cancelled from an inequality. */
  lemma CancelPositive(x: real, y: real, w: real)
    requires w > 0.0 && x * w <= y * w
    ensures x <= y
  {
    if x > y {
      ProductPositive(x - y, w);
    }
  }

  lemma ProductPositive(x: real, y: real)
    requires x > 0.0 && y > 0.0
    ensures x * y > 0.0
  {
  }

  lemma DivideBack(x: real, y: real)
    requires y != 0.0
    ensures x / y * y == x
  {
  }

  lemma SquareOfProduct(p: real, x: real, v: real, y: real)
    requires p == x * y && v == y * y
    ensures p * p == x * x * v
  {
    calc {
      p * p;
      p * (x * y);
      p * y * x;
      (x * y) * y * x;
      x * x * (y * y);
      x * x * v;
    }
  }

  lemma NamedProductPositive(x: real, y: real, v: real)
    requires x > 0.0 && y > 0.0 && v == x * y
    ensures v > 0.0
  {
    ProductPositive(x, y);
  }

  lemma SquarePositive(y: real, v: real)
    requires y > 0.0 && v == y * y
    ensures v > 0.0
  {
    NamedProductPositive(y, y, v);
  }

  /** A quotient lies between the bounds that its numerator respects. */
  lemma QuotientBetween(lo: real, hi: real, num: real, total: real)
    requires total > 0.0 && lo * total <= num <= hi * total
    ensures lo <= num / total <= hi
  {
    DivideBack(num, total);
    CancelPositive(lo, num / total, total);
    CancelPositive(num / total, hi, total);
  }

  lemma MultipleAtLeast(d: int, w: int)
    requires d >= 1 && w > 0
    ensures d * w >= w
  {
  }

  lemma SmallMultipleIsZero(d: int, w: int)
    requires w > 0 && -w < d * w < w
    ensures d == 0
  {
    if d >= 1 {
      MultipleAtLeast(d, w);
      assert false;
    }
    if d <= -1 {
      MultipleAtLeast(-d, w);
      assert false;
    }
  }
}
