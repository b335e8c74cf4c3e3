/** Ranges of amounts: the least, the likely and the greatest. */
module PriceRanges {
  import opened Rounding

  datatype Range = Range(minimum: real, likely: real, maximum: real)

  predicate Ordered(r: Range) {
    r.minimum <= r.likely <= r.maximum
  }

  predicate NonNegative(r: Range) {
    r.minimum >= 0.0 && r.likely >= 0.0 && r.maximum >= 0.0
  }

  /** Each part of one range is at most that of the other. */
  predicate Below(r: Range, s: Range) {
    r.minimum <= s.minimum && r.likely <= s.likely && r.maximum <= s.maximum
  }

  /** A range in whole cents. */
  function CentRange(minimum: real, likely: real, maximum: real): Range {
    Range(Cents(minimum), Cents(likely), Cents(maximum))
  }

  lemma ProductMonotone(x: real, y: real, k: real, l: real)
    requires 0.0 <= x <= y && 0.0 <= k <= l
    ensures 0.0 <= x * k <= y * l
  {
    assert x * k <= y * k <= y * l;
  }

  /** An amount at a rate, in whole cents. */
  function CentProduct(x: real, rate: real): real {
    Cents(x * rate)
  }

  /** It is the product, to the nearest cent. */
  lemma CentProductIsNearest(x: real, rate: real)
    ensures x * rate - 0.005 < CentProduct(x, rate) <= x * rate + 0.005
  {
    CentsNear(x * rate);
  }

  lemma CentProductMonotone(x: real, y: real, k: real, l: real)
    requires 0.0 <= x <= y && 0.0 <= k <= l
    ensures 0.0 <= CentProduct(x, k) <= CentProduct(y, l)
  {
    ProductMonotone(x, y, k, l);
    CentsMonotone(x * k, y * l);
    CentsSign(x * k);
  }
}
