/** Order facts about products of reals that the solver does not find by itself. */
module RealOrder {

  lemma MulMono(a: real, b: real, c: real)
    requires a <= b && c >= 0.0
    ensures a * c <= b * c
  {
    assert (b - a) * c >= 0.0;
  }

  lemma MulStrict(a: real, b: real, c: real)
    requires a < b && c > 0.0
    ensures a * c < b * c
  {
    assert (b - a) * c > 0.0;
  }

  /** Comparing a quotient `q` of `n` and `d` with a bound is comparing `n` with the bound times `d`. */
  lemma ProductOrder(q: real, n: real, d: real, a: real)
    requires d > 0.0 && q * d == n
    ensures q <= a <==> n <= a * d
    ensures q < a <==> n < a * d
  {
    if q < a {
      MulStrict(q, a, d);
    } else if q > a {
      MulStrict(a, q, d);
    }
  }

  lemma SameFactor(a: real, b: real, c: real)
    requires c > 0.0 && a * c == b * c
    ensures a == b
  {
    ProductOrder(a, b * c, c, b);
  }
}
