/** Facts about products, quotients and remainders of variables. */
module Arithmetic {

  lemma {:induction false} MulNat(a: nat, b: nat)
    ensures a * b >= 0
  {
  }

  lemma {:induction false} MulMonotone(k: nat, a: nat, b: nat)
    requires a <= b
    ensures k * a <= k * b
    ensures a * k <= b * k
  {
    assert k * (b - a) >= 0;
    assert k * (b - a) == k * b - k * a;
  }

  lemma {:induction false} Distribute(k: int, a: int, b: int)
    ensures k * (a + b) == k * a + k * b
    ensures (a + b) * k == a * k + b * k
  {
  }

  /** Quotient and remainder are determined by what they add up to. */
  lemma {:induction false} DivModUnique(n: nat, d: nat, q: nat, r: nat)
    requires r < d && n == q * d + r
    ensures n / d == q && n % d == r
  {
    var q', r' := n / d, n % d;
    assert n == q' * d + r';
    if q < q' {
      MulMonotone(d, q + 1, q');
      Distribute(d, q, 1);
      assert false;
    }
    if q' < q {
      MulMonotone(d, q' + 1, q);
      Distribute(d, q', 1);
      assert false;
    }
  }

  lemma {:induction false} DivPositive(a: nat, b: nat)
    requires 0 < b <= a
    ensures a / b >= 1
  {
    var q := a / b;
    assert a == q * b + a % b;
    if q == 0 {
      assert false;
    }
  }

  /** What fits, by multiplication and by division. */
  lemma {:induction false} FitsByDivision(rest: nat, size: nat, count: nat)
    requires size > 0
    ensures size * count <= rest <==> count <= rest / size
  {
    var q := rest / size;
    assert rest == q * size + rest % size;
    if count <= q {
      MulMonotone(size, count, q);
    } else {
      MulMonotone(size, q + 1, count);
      Distribute(size, q, 1);
    }
  }

  lemma {:induction false} ModBound(a: nat, b: nat)
    requires b > 0
    ensures 0 <= a % b <= a
  {
    MulNat(a / b, b);
  }
}
