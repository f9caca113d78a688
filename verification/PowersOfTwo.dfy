// Powers of two, the exponents they need, and the division facts that go with them.

module PowersOfTwo {

  function Pow2(e: nat): (p: nat)
    ensures p >= 1
  {
    if e == 0 then 1 else 2 * Pow2(e - 1)
  }

  // The largest size whose doubling still fits an `int`.
  function MaxSize(): nat {
    Pow2(30)
  }

  lemma BelowMaxSize(e: nat)
    ensures Pow2(e) < MaxSize() ==> e < 30
    ensures e <= 30 ==> Pow2(e) <= MaxSize()
  {
    if e > 30 {
      Pow2Grows(30, e);
    } else if e < 30 {
      Pow2Grows(e, 30);
    }
  }

  lemma {:induction false} Pow2Add(a: nat, b: nat)
    ensures Pow2(a + b) == Pow2(a) * Pow2(b)
  {
    if a > 0 {
      Pow2Add(a - 1, b);
    }
  }

  lemma {:induction false} Pow2Grows(a: nat, b: nat)
    requires a < b
    ensures 2 * Pow2(a) <= Pow2(b)
  {
    if a < b - 1 {
      Pow2Grows(a, b - 1);
    }
  }

  // The exponent of the least power of two that is at least n.
  function CeilLog2(n: int): nat
    decreases n
  {
    if n <= 1 then 0 else 1 + CeilLog2((n + 1) / 2)
  }

  lemma {:induction false} LeastPower(n: int, e: nat)
    requires n <= Pow2(e) && (e > 0 ==> Pow2(e - 1) < n)
    ensures e == CeilLog2(n)
    decreases e
  {
    if e > 0 {
      LeastPower((n + 1) / 2, e - 1);
    }
  }

  lemma {:induction false} CeilLog2Bounds(n: int)
    ensures n <= Pow2(CeilLog2(n))
    ensures forall e: nat :: n <= Pow2(e) ==> CeilLog2(n) <= e
    decreases n
  {
    if n > 1 {
      CeilLog2Bounds((n + 1) / 2);
      forall e: nat | n <= Pow2(e)
        ensures CeilLog2(n) <= e
      {
        assert e > 0;
        assert (n + 1) / 2 <= Pow2(e - 1);
      }
    }
  }

  lemma MulOrder(a: int, b: int, n: nat)
    ensures a <= b ==> a * n <= b * n
  {}

  lemma QuotientBound(q: nat, n: int, c: int)
    requires n > 0
    ensures 0 <= q / n
    ensures q < c * n ==> q / n < c
  {
    assert q == q / n * n + q % n;
    MulOrder(q / n, -1, n);
    MulOrder(c, q / n, n);
  }

  // Quotient and remainder are determined by their defining equation.
  lemma DivModUnique(x: int, d: int, q: int, r: int)
    requires 0 <= r < d && x == q * d + r
    ensures x / d == q && x % d == r
  {
    var k := x / d - q;
    assert k * d == r - x % d;
    assert k >= 1 ==> k * d >= d;
    assert k <= -1 ==> k * d <= -d;
  }
}
