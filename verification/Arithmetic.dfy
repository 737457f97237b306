/** Products and quotients of natural numbers, for the modules that divide. */
module Arithmetic {

  lemma Distribute(a: nat, b: nat, n: nat)
    ensures (a + b) * n == a * n + b * n
  {
  }

  lemma MulMono(a: nat, b: nat, c: nat)
    requires a <= b
    ensures a * c <= b * c
  {
  }

  lemma PositiveProduct(a: nat, b: nat)
    ensures a * b == 0 <==> a == 0 || b == 0
  {
  }

  lemma DivMod(n: nat, k: nat)
    requires k > 0
    ensures n == k * (n / k) + n % k && 0 <= n % k < k
  {
  }

  /** A quotient is the one number whose multiple leaves a remainder below the divisor. */
  lemma QuotientIs(n: nat, k: nat, q: nat, s: nat)
    requires n == k * q + s && s < k
    ensures n / k == q && n % k == s
  {
    DivMod(n, k);
    var e := n / k;
    if e + 1 <= q {
      MulMono(e + 1, q, k);
    }
    if q + 1 <= e {
      MulMono(q + 1, e, k);
    }
  }

  lemma DivMono(a: nat, b: nat, k: nat)
    requires a <= b && k > 0
    ensures a / k <= b / k
  {
    DivMod(a, k);
    DivMod(b, k);
    if a / k > b / k {
      MulMono(b / k + 1, a / k, k);
    }
  }

  lemma DivZero(n: nat, k: nat)
    requires k > 0
    ensures n / k == 0 <==> n < k
  {
    DivMod(n, k);
    if n < k {
      QuotientIs(n, k, 0, n);
    }
  }

  // ---------------------------------------------------------------- multiples

  /** Repeated addition: it is the product, but keeps the proofs about sums of products linear. */
  function Multiple(n: nat, q: nat): nat {
    if q == 0 then 0 else Multiple(n, q - 1) + n
  }

  lemma {:induction false} MultipleIs(n: nat, q: nat)
    ensures Multiple(n, q) == n * q
  {
    if q > 0 {
      MultipleIs(n, q - 1);
      Distribute(q - 1, 1, n);
    }
  }

  lemma {:induction false} MultipleAdds(n: nat, a: nat, b: nat)
    ensures Multiple(n, a + b) == Multiple(n, a) + Multiple(n, b)
    decreases b
  {
    if b > 0 {
      MultipleAdds(n, a, b - 1);
    }
  }

  lemma {:induction false} MultipleGrows(n: nat, a: nat, b: nat)
    requires a <= b
    ensures Multiple(n, a) <= Multiple(n, b)
    decreases b
  {
    if a < b {
      MultipleGrows(n, a, b - 1);
    }
  }
}
