// The down-converter of src/dsp/ddc.h: the search for a decimation factor and its stages, and
// the chain of ring-buffer filters that carries it out.

module SmoothNumbers {
  import opened PowersOfTwo

  predicate IsSmallPrime(p: int) {
    p == 2 || p == 3 || p == 5 || p == 7
  }

  // No prime factor above 7.
  ghost predicate IsSmooth(n: int)
    decreases n
  {
    n == 1 || (n > 1 && exists p :: IsSmallPrime(p) && n % p == 0 && 0 < n / p < n && IsSmooth(n / p))
  }

  // a with a * q == 1 modulo p.
  function InverseModulo(q: int, p: int): int
    requires IsSmallPrime(p) && IsSmallPrime(q) && p != q
  {
    if p == 2 then 1
    else if p == 3 then (if q == 7 then 1 else 2)
    else if p == 5 then (if q == 3 then 2 else 3)
    else if q == 2 then 4 else if q == 3 then 5 else 3
  }

  // A prime that divides q * m divides m, when q is another one.
  lemma OtherPrime(p: int, q: int, m: int)
    requires IsSmallPrime(p) && IsSmallPrime(q) && p != q && (q * m) % p == 0
    ensures m % p == 0
  {
    var a := InverseModulo(q, p);
    assert (a * q - 1) % p == 0;
    Bezout(p, a, q, m, (a * q - 1) / p, q * m / p);
  }

  lemma Bezout(p: int, a: int, q: int, m: int, b: int, k: int)
    requires p > 0 && a * q == 1 + b * p && q * m == p * k
    ensures m % p == 0
  {
    assert a * q * m == a * (q * m) == a * (p * k) == p * (a * k);
    assert (1 + b * p) * m == m + p * (b * m);
    DivModUnique(m, p, a * k - b * m, 0);
  }

  lemma ExactProduct(n: int, p: int, m: int)
    requires p > 0 && n == p * m
    ensures n % p == 0 && n / p == m
  {
    DivModUnique(n, p, m, 0);
  }

  lemma SmoothStep(n: int, q: int)
    requires n > 1 && IsSmallPrime(q) && n % q == 0 && IsSmooth(n / q)
    ensures IsSmooth(n)
  {
    Shrinks(n, q);
  }

  lemma Shrinks(n: int, q: int)
    requires n > 1 && IsSmallPrime(q) && n % q == 0
    ensures 0 < n / q < n && n == q * (n / q)
  {}

  // Dividing by a small prime does not change whether a number is smooth.
  lemma {:induction false} DivideSmooth(n: int, p: int)
    requires n > 1 && IsSmallPrime(p) && n % p == 0
    ensures 0 < n / p < n && (IsSmooth(n) <==> IsSmooth(n / p))
    decreases n
  {
    Shrinks(n, p);
    if IsSmooth(n / p) {
      SmoothStep(n, p);
    }
    if IsSmooth(n) {
      var q :| IsSmallPrime(q) && n % q == 0 && 0 < n / q < n && IsSmooth(n / q);
      if p != q {
        DivideBoth(n, p, q);
      }
    }
  }

  lemma {:induction false} DivideBoth(n: int, p: int, q: int)
    requires n > 1 && IsSmallPrime(p) && IsSmallPrime(q) && p != q && n % p == 0 && n % q == 0 && IsSmooth(n / q)
    ensures IsSmooth(n / p)
    decreases n, 0
  {
    hide IsSmooth;
    var m := n / q;
    Shrinks(n, q);
    Shrinks(n, p);
    OtherPrime(p, q, m);
    assert m != 1 by { assert 1 % p != 0; }
    DivideSmooth(m, p);
    assert m == p * (m / p);
    assert n == p * (q * (m / p)) by { assert q * (p * (m / p)) == p * (q * (m / p)); }
    ExactProduct(n, p, q * (m / p));
    ExactProduct(n / p, q, m / p);
    assert q * (m / p) > 1;
    SmoothStep(n / p, q);
  }

  lemma SmoothHasSmallPrime(n: int)
    requires IsSmooth(n) && n > 1
    ensures n % 2 == 0 || n % 3 == 0 || n % 5 == 0 || n % 7 == 0
  {}

  lemma {:induction false} PowersAreSmooth(e: nat)
    ensures IsSmooth(Pow2(e))
  {
    hide IsSmooth;
    if e == 0 {
      OneIsSmooth();
    } else {
      PowersAreSmooth(e - 1);
      ExactProduct(Pow2(e), 2, Pow2(e - 1));
      DivideSmooth(Pow2(e), 2);
    }
  }

  lemma OneIsSmooth()
    ensures IsSmooth(1)
  {}

  // Some power of two lies above half of n and not above n.
  lemma {:induction false} PowerBelow(n: int) returns (e: nat)
    requires n >= 1
    ensures Pow2(e) <= n < 2 * Pow2(e)
    decreases n
  {
    if n == 1 {
      e := 0;
    } else {
      var f := PowerBelow(n / 2);
      e := f + 1;
    }
  }

  // The lambda smallFactors of lines 98-103.
  method SmallFactors(number: int) returns (small: bool)
    requires number >= 1
    ensures small == IsSmooth(number)
  {
    var n := number;
    n := DivideOut(n, 2);
    n := DivideOut(n, 3);
    n := DivideOut(n, 5);
    n := DivideOut(n, 7);
    if n > 1 && IsSmooth(n) {
      SmoothHasSmallPrime(n);
    }
    small := n == 1;
  }

  method DivideOut(number: int, p: int) returns (n: int)
    requires number >= 1 && IsSmallPrime(p)
    ensures n >= 1 && n % p != 0 && (IsSmooth(n) <==> IsSmooth(number))
    ensures forall q :: IsSmallPrime(q) && number % q != 0 ==> n % q != 0
  {
    n := number;
    while n % p == 0
      invariant n >= 1 && (IsSmooth(n) <==> IsSmooth(number))
      invariant forall q :: IsSmallPrime(q) && number % q != 0 ==> n % q != 0
      decreases n
    {
      DivideSmooth(n, p);
      QuotientKeepsNonDivisors(n, p);
      n := n / p;
    }
  }

  lemma QuotientKeepsNonDivisors(n: int, p: int)
    requires n > 1 && IsSmallPrime(p) && n % p == 0
    ensures forall q :: IsSmallPrime(q) && n % q != 0 ==> n / p % q != 0
  {
    forall q | IsSmallPrime(q) && n / p % q == 0
      ensures n % q == 0
    {
      DivisorOfQuotient(n, p, n / p, q);
    }
  }

  lemma DivisorOfQuotient(n: int, p: int, m: int, q: int)
    requires q > 0 && n == p * m && m % q == 0
    ensures n % q == 0
  {
    var j := m / q;
    assert m == q * j;
    assert p * (q * j) == q * (p * j);
    ExactProduct(n, q, p * j);
  }
}

module Decimation {
  import opened PowersOfTwo
  import opened SmoothNumbers

  function Distance(a: int, b: int): nat {
    if a < b then b - a else a - b
  }

  // The smooth number nearest to n; of two equally near ones the lower.
  ghost predicate IsNearestSmooth(n: int, d: int) {
    && d >= 1 && IsSmooth(d)
    && forall m :: m >= 1 && IsSmooth(m) ==> Distance(n, d) < Distance(n, m) || (Distance(n, d) == Distance(n, m) && d <= m)
  }

  // No smooth number is nearer to n than delta.
  ghost predicate NoneWithin(n: int, delta: int) {
    forall m :: m >= 1 && IsSmooth(m) ==> Distance(n, m) >= delta
  }

  // The search finds something before delta passes half of n.
  lemma SomeSmoothIsNear(n: int, delta: int)
    requires n >= 1 && delta > n / 2
    ensures !NoneWithin(n, delta)
  {
    var e := PowerBelow(n);
    PowersAreSmooth(e);
    assert Distance(n, Pow2(e)) < delta;
  }

  // Lines 90-119, from the rounded ratio on.
  method ChooseDecimation(ratio: int) returns (totalDecim: int)
    ensures IsNearestSmooth(if ratio < 1 then 1 else ratio, totalDecim)
  {
    hide IsSmooth;
    totalDecim := ratio;
    if totalDecim < 1 {
      totalDecim := 1;
    }
    ghost var n := totalDecim;
    OneIsSmooth();
    var small := SmallFactors(totalDecim);
    if totalDecim > 1 && !small {
      var delta := 1;
      while delta <= totalDecim / 2
        invariant totalDecim == n && delta >= 1
        invariant NoneWithin(n, delta)
      {
        if totalDecim - delta >= 1 {
          var lower := SmallFactors(totalDecim - delta);
          if lower {
            totalDecim := totalDecim - delta;
            return;
          }
        }
        var upper := SmallFactors(totalDecim + delta);
        if upper {
          totalDecim := totalDecim + delta;
          return;
        }
        delta := delta + 1;
      }
      SomeSmoothIsNear(n, delta);
      assert false;
    }
  }

  function Product(factors: seq<int>): int {
    if factors == [] then 1 else Product(factors[..|factors| - 1]) * factors[|factors| - 1]
  }

  // The largest factor from 8 down to 2 that divides rem; 1 when there is none.
  method LargestFactor(rem: int) returns (f: int)
    requires rem > 1
    ensures 1 <= f <= 8 && rem % f == 0
    ensures f == 1 ==> forall c :: 2 <= c <= 8 ==> rem % c != 0
    ensures f != 1 ==> forall c :: f < c <= 8 ==> rem % c != 0
  {
    f := 1;
    var cand := 8;
    while cand >= 2
      invariant 1 <= cand <= 8 && f == 1
      invariant forall c :: cand < c <= 8 ==> rem % c != 0
    {
      if rem % cand == 0 {
        f := cand;
        return;
      }
      cand := cand - 1;
    }
  }

  lemma DivideSmoothByFactor(n: int, f: int)
    requires n > 1 && 2 <= f <= 8 && n % f == 0 && IsSmooth(n)
    ensures 0 < n / f < n && n == f * (n / f) && IsSmooth(n / f)
  {
    hide IsSmooth;
    if f == 4 {
      Composite4(n);
      DivideSmooth(n, 2);
      DivideSmooth(n / 2, 2);
    } else if f == 6 {
      Composite6(n);
      DivideSmooth(n, 2);
      DivideSmooth(n / 2, 3);
    } else if f == 8 {
      Composite8(n);
      DivideSmooth(n, 2);
      DivideSmooth(n / 2, 2);
      DivideSmooth(n / 4, 2);
    } else {
      Shrinks(n, f);
      DivideSmooth(n, f);
    }
  }

  lemma Composite4(n: int)
    requires n > 1 && n % 4 == 0
    ensures n % 2 == 0 && n / 2 > 1 && n / 2 % 2 == 0 && n / 2 / 2 == n / 4 && n == 4 * (n / 4)
  {
    var k := n / 4;
    DivModUnique(n, 2, 2 * k, 0);
    DivModUnique(2 * k, 2, k, 0);
  }

  lemma Composite6(n: int)
    requires n > 1 && n % 6 == 0
    ensures n % 2 == 0 && n / 2 > 1 && n / 2 % 3 == 0 && n / 2 / 3 == n / 6 && n == 6 * (n / 6)
  {
    var k := n / 6;
    DivModUnique(n, 2, 3 * k, 0);
    DivModUnique(3 * k, 3, k, 0);
  }

  lemma Composite8(n: int)
    requires n > 1 && n % 8 == 0
    ensures n % 2 == 0 && n / 2 > 1 && n / 2 % 2 == 0 && n / 2 / 2 == n / 4
    ensures n / 4 > 1 && n / 4 % 2 == 0 && n / 4 / 2 == n / 8 && n == 8 * (n / 8)
  {
    var k := n / 8;
    DivModUnique(n, 2, 4 * k, 0);
    DivModUnique(n, 4, 2 * k, 0);
    DivModUnique(4 * k, 2, 2 * k, 0);
    DivModUnique(2 * k, 2, k, 0);
  }

  // Each factor is the largest of 2 to 8 that divides what was left when it was taken; `rest` is
  // what is left at the end.
  ghost predicate IsGreedy(factors: seq<int>, rest: int) {
    forall i :: 0 <= i < |factors| ==> NoneLarger(Product(factors[i..]) * rest, factors[i])
  }

  ghost predicate NoneLarger(n: int, f: int) {
    forall c :: 2 <= c <= 8 && f < c ==> n % c != 0
  }

  lemma GreedyAppend(factors: seq<int>, f: int, rest: int)
    requires IsGreedy(factors, f * rest)
    requires NoneLarger(f * rest, f)
    ensures IsGreedy(factors + [f], rest)
  {
    hide Product, NoneLarger;
    var more := factors + [f];
    EmptyProduct();
    forall i | 0 <= i < |more|
      ensures NoneLarger(Product(more[i..]) * rest, more[i])
    {
      if i < |factors| {
        assert more[i..] == factors[i..] + [f];
        ProductAppend(factors[i..], f, rest);
      } else {
        assert more[i..] == [] + [f];
        ProductAppend([], f, rest);
      }
    }
  }

  // Lines 121-145: the stages of a smooth decimation. The leftover branch is dead.
  method Stages(totalDecim: int) returns (factors: seq<int>)
    requires totalDecim >= 1 && IsSmooth(totalDecim)
    ensures factors != [] && Product(factors) == totalDecim
    ensures forall i :: 0 <= i < |factors| ==> 1 <= factors[i] <= 8
    ensures totalDecim > 1 ==> forall i :: 0 <= i < |factors| ==> factors[i] >= 2
    ensures IsGreedy(factors, 1)
  {
    hide IsSmooth, IsGreedy;
    factors := [];
    var rem := totalDecim;
    NoneIsGreedy(rem);
    while rem > 1
      invariant rem >= 1 && IsSmooth(rem) && Product(factors) * rem == totalDecim
      invariant forall i :: 0 <= i < |factors| ==> 2 <= factors[i] <= 8
      invariant IsGreedy(factors, rem)
      decreases rem
    {
      var f := LargestFactor(rem);
      SmoothHasSmallPrime(rem);
      if f == 1 {
        // A leftover factor would become one stage of its own here.
        assert false;
      } else {
        DivideSmoothByFactor(rem, f);
        ProductAppend(factors, f, rem / f);
        GreedyAppend(factors, f, rem / f);
        factors := factors + [f];
        rem := rem / f;
      }
    }
    if |factors| == 0 {
      factors := [1];
      assert Product([1]) == Product([]) * 1;
      OneIsGreedy();
    }
  }

  lemma EmptyProduct()
    ensures Product([]) == 1
  {}

  lemma NoneIsGreedy(rest: int)
    ensures IsGreedy([], rest)
  {}

  lemma OneIsGreedy()
    ensures IsGreedy([1], 1)
  {
    assert Product([1]) == Product([]) * 1;
    assert [1][0..] == [1];
  }

  lemma ProductAppend(factors: seq<int>, f: int, rest: int)
    ensures Product(factors + [f]) * rest == Product(factors) * (f * rest)
  {
    assert (factors + [f])[..|factors|] == factors;
  }
}
