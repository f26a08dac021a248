/** Extremes, and products the solver needs to be told about. */
module Arithmetic {
  function Max(a: nat, b: nat): nat {
    if a < b then b else a
  }

  function Min(a: nat, b: nat): nat {
    if a < b then a else b
  }

  lemma MulAssoc(a: nat, b: nat, c: nat)
    ensures a * (b * c) == (a * b) * c
  {
  }

  lemma MulDist(a: nat, b: nat, c: nat)
    ensures (a + b) * c == a * c + b * c
  {
  }

  lemma MulMono(a: nat, b: nat, c: nat)
    requires a <= b
    ensures a * c <= b * c
  {
    MulDist(a, b - a, c);
  }

  lemma ModUnique(x: nat, q: nat, r: nat, p: nat)
    requires x == q * p + r && r < p
    ensures x % p == r
  {
    var k := x / p;
    if k < q {
      MulMono(k + 1, q, p);
      MulDist(k, 1, p);
    } else if q < k {
      MulMono(q + 1, k, p);
      MulDist(q, 1, p);
    }
  }

  lemma ModShift(x: nat, k: nat, p: nat)
    requires p > 0
    ensures (x + k * p) % p == x % p
  {
    MulDist(x / p, k, p);
    ModUnique(x + k * p, x / p + k, x % p, p);
  }

  lemma SmallerProduct(j: nat, k: nat, n: nat)
    requires j < k && n > 0
    ensures j * n < k * n
  {
    MulMono(j + 1, k, n);
    MulDist(j, 1, n);
  }
}
