/** Products and rests, which the proofs use by name. */
module Arithmetic {
  lemma MultipleHasNoRest(q: nat, n: nat)
    requires n >= 1
    ensures (q * n) % n == 0
  {
    var m := q * n;
    assert m == (m / n) * n + m % n;
    var k := q - m / n;
    assert k * n == m % n;
    ProductsGrow(1, -k, n);
    ProductsGrow(1, k, n);
  }

  lemma ProductsGrow(a: int, b: int, n: nat)
    ensures a <= b ==> a * n <= b * n
  {
  }
}
