/** Powers of two and the division facts the rest of the model builds on. */
module PowersOfTwo {

  function Pow2(k: nat): (p: nat)
    ensures p >= 1
  {
    if k == 0 then 1 else 2 * Pow2(k - 1)
  }

  lemma {:induction false} Pow2Add(a: nat, b: nat)
    ensures Pow2(a + b) == Pow2(a) * Pow2(b)
  {
    if b > 0 {
      Pow2Add(a, b - 1);
      assert a + b - 1 == a + (b - 1);
      assert Pow2(a + b) == 2 * (Pow2(a) * Pow2(b - 1)) == Pow2(a) * (2 * Pow2(b - 1));
    }
  }

  lemma {:induction false} Pow2Monotone(a: nat, b: nat)
    requires a <= b
    ensures Pow2(a) <= Pow2(b)
  {
    if a < b {
      Pow2Monotone(a, b - 1);
    }
  }

  lemma Pow2Strict(a: nat, b: nat)
    requires a < b
    ensures 2 * Pow2(a) <= Pow2(b)
  {
    Pow2Monotone(a + 1, b);
  }

  /** 2^k is more than k, so every number is below some power of two. */
  lemma {:induction false} Pow2Above(k: nat)
    ensures k < Pow2(k)
  {
    if k > 0 {
      Pow2Above(k - 1);
    }
  }

  /** Quotient and remainder are determined by the equation they satisfy. */
  lemma DivModUnique(n: int, d: int, q: int, r: int)
    requires 0 < d && 0 <= r < d && n == q * d + r
    ensures n / d == q && n % d == r
  {
    var q', r' := n / d, n % d;
    assert n == q' * d + r';
    assert (q - q') * d == r' - r;
    if q > q' {
      MulMonotone(1, q - q', d);
      assert false;
    } else if q < q' {
      MulMonotone(1, q' - q, d);
      assert false;
    }
  }

  lemma MulMonotone(a: nat, b: nat, c: nat)
    requires a <= b
    ensures a * c <= b * c && c * a <= c * b
  {
    assert (b - a) * c >= 0;
  }

  lemma MulPositive(a: nat, b: nat)
    requires a > 0 && b > 0
    ensures a * b > 0
  {
  }

  lemma Distribute(a: nat, b: nat, c: nat)
    ensures (a + b) * c == a * c + b * c
    ensures c * (a + b) == c * a + c * b
  {
  }

  lemma Reassociate(a: nat, b: nat, c: nat)
    ensures (a * b) * c == a * (b * c)
  {
  }

  /** Two numbers less than d apart with the same remainder are equal. */
  lemma SameRemainder(a: nat, b: nat, d: nat)
    requires 0 < d && a < b + d && b < a + d && a % d == b % d
    ensures a == b
  {
    var qa, qb := a / d, b / d;
    assert a == qa * d + a % d && b == qb * d + b % d;
    assert a - b == (qa - qb) * d && b - a == (qb - qa) * d;
    if qa > qb {
      MulMonotone(1, qa - qb, d);
      assert false;
    } else if qa < qb {
      MulMonotone(1, qb - qa, d);
      assert false;
    }
  }

  lemma NextRemainder(a: nat, d: nat)
    requires 0 < d
    ensures (a + d) % d == a % d
  {
    assert a + d == (a / d + 1) * d + a % d;
    DivModUnique(a + d, d, a / d + 1, a % d);
  }
}
