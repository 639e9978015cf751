/** Facts about products and integer quotients that the rate bounds share. */
module Arithmetic {

  function Min(a: int, b: int): int {
    if a < b then a else b
  }

  lemma MulMonotone(a: int, b: int, w: int)
    requires a <= b && 0 <= w
    ensures a * w <= b * w
  {
    assert b * w - a * w == (b - a) * w;
  }

  lemma QuotientBelow(a: int, q: int, w: int)
    requires w > 0 && a < q * w
    ensures a / w < q
  {
    assert (a / w) * w <= a;
    if q <= a / w {
      MulMonotone(q, a / w, w);
    }
  }

  lemma QuotientAtLeast(q: int, a: int, w: int)
    requires w > 0 && q * w <= a
    ensures q <= a / w
  {
    assert a < (a / w + 1) * w;
    if a / w + 1 <= q {
      MulMonotone(a / w + 1, q, w);
    }
  }

  lemma DivMonotone(a: int, b: int, w: int)
    requires w > 0 && a <= b
    ensures a / w <= b / w
  {
    assert (a / w) * w <= a;
    QuotientAtLeast(a / w, b, w);
  }
}
