/** Products and remainders by a number that is not a literal. */
module Arithmetic {
  lemma MulMonotone(p: nat, q: nat, k: nat)
    ensures p <= q ==> p * k <= q * k
    ensures p < q ==> p * k + k <= q * k
  {
    if p < q {
      var d: nat := q - p - 1;
      assert q * k == p * k + (d + 1) * k;
      assert (d + 1) * k == d * k + k && d * k >= 0;
    }
  }

  lemma QuotientUnique(q: nat, r: nat, p: nat, t: nat, b: nat)
    requires q * b + r == p * b + t && r < b && t < b
    ensures q == p && r == t
  {
    MulMonotone(q, p, b);
    MulMonotone(p, q, b);
  }

  lemma Euclid(n: nat, b: nat)
    requires b > 0
    ensures n / b >= 0 && n == (n / b) * b + n % b
  {
  }

  lemma ModUnique(n: nat, q: nat, r: nat, b: nat)
    requires r < b && n == q * b + r
    ensures n % b == r
  {
    Euclid(n, b);
    var p: nat := n / b;
    QuotientUnique(q, r, p, n % b, b);
  }

  /** Adding less than what the block lacks moves the remainder; adding exactly that resets it. */
  lemma ModAdd(n: nat, k: nat, b: nat)
    requires b > 0 && n % b + k <= b
    ensures (n + k) % b == if n % b + k == b then 0 else n % b + k
  {
    Euclid(n, b);
    var q: nat := n / b;
    if n % b + k == b {
      assert (q + 1) * b == q * b + b;
      ModUnique(n + k, q + 1, 0, b);
    } else {
      ModUnique(n + k, q, n % b + k, b);
    }
  }
}
