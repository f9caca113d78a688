// The inverse transform undoes the forward one, and multiplying two spectra convolves the
// signals they belong to.

module Inversion {
  import opened Complexes
  import opened PowersOfTwo
  import opened Roots
  import opened Dft

  // The cyclic convolution of a and b, at position m.
  ghost function CyclicTerms(a: seq<Complex>, b: seq<Complex>, m: int): int -> Complex
    requires |b| > 0
  {
    k => Mul(At(a, k), At(b, (m - k) % |b|))
  }

  ghost function Cyclic(a: seq<Complex>, b: seq<Complex>, m: int): Complex
    requires |b| > 0
  {
    Sum(CyclicTerms(a, b, m), |a|)
  }

  // Sum over n of exp(2 pi i n (m - k - l) / size): all turns line up or none do.
  lemma DeltaSum(cis: real -> Complex, d: int, p: nat, f: int -> Complex)
    requires IsCis(cis)
    requires forall n :: f(n) == Root(cis, Inverse, d * n, Pow2(p))
    ensures Sum(f, Pow2(p)) == if d % Pow2(p) == 0 then Real(Pow2(p) as real) else ZERO
  {
    hide IsCis, Root;
    Orthogonality(cis, Inverse, d, p);
    SumExt(f, Turns(cis, Inverse, d, Pow2(p)), Pow2(p));
  }

  // One sample's way through the forward and the inverse transform.
  ghost function RoundTripTerm(cis: real -> Complex, x: seq<Complex>, m: int): (int, int) -> Complex
    requires |x| > 0
  {
    (n, k) => Mul(Mul(At(x, k), Root(cis, Forward, n * k, |x|)), Root(cis, Inverse, m * n, |x|))
  }

  lemma RoundTripColumn(cis: real -> Complex, x: seq<Complex>, m: nat, p: nat, k: nat)
    requires IsCis(cis) && |x| == Pow2(p) && m < |x| && k < |x|
    ensures ColumnSums(RoundTripTerm(cis, x, m), |x|)(k)
         == if k == m then Mul(At(x, k), Real(|x| as real)) else ZERO
  {
    hide IsCis, Root, Mul;
    var size := |x|;
    var f := n => Root(cis, Inverse, (m - k) * n, size);
    var g := n => RoundTripTerm(cis, x, m)(n, k);
    forall n | 0 <= n < size
      ensures g(n) == Mul(At(x, k), f(n))
    {
      RootConj(cis, Inverse, n * k, size);
      assert Root(cis, Forward, n * k, size) == Root(cis, Inverse, -(n * k), size);
      RootAdd(cis, Inverse, -(n * k), m * n, size);
      assert -(n * k) + m * n == (m - k) * n;
      MulAssoc(At(x, k), Root(cis, Forward, n * k, size), Root(cis, Inverse, m * n, size));
      assert Mul(Mul(At(x, k), Root(cis, Forward, n * k, size)), Root(cis, Inverse, m * n, size))
          == Mul(At(x, k), f(n));
      assert g(n) == RoundTripTerm(cis, x, m)(n, k);
    }
    SumMul(At(x, k), f, g, size);
    DeltaSum(cis, m - k, p, f);
    MulUnit(At(x, k));
    assert ColumnSums(RoundTripTerm(cis, x, m), size)(k) == Sum(n => RoundTripTerm(cis, x, m)(n, k), size);
    SumExt(n => RoundTripTerm(cis, x, m)(n, k), g, size);
    SmallMultiple(m - k, size);
  }

  lemma SmallMultiple(d: int, size: int)
    requires -size < d < size
    ensures d % size == 0 <==> d == 0
  {
    if d < 0 {
      DivModUnique(d, size, -1, d + size);
    } else {
      DivModUnique(d, size, 0, d);
    }
  }

  lemma RoundTripRow(cis: real -> Complex, x: seq<Complex>, m: nat, n: nat)
    requires IsCis(cis) && |x| > 0
    ensures RowSums(RoundTripTerm(cis, x, m), |x|)(n) == Mul(Bin(cis, Forward, x, n), Root(cis, Inverse, m * n, |x|))
  {
    hide IsCis, Root, Mul;
    var r := Root(cis, Inverse, m * n, |x|);
    var f := BlockTerms(cis, Forward, x, 1, 0, |x|, n);
    var g := k => RoundTripTerm(cis, x, m)(n, k);
    forall k | 0 <= k < |x|
      ensures g(k) == Mul(r, f(k))
    {
      assert g(k) == RoundTripTerm(cis, x, m)(n, k) == Mul(f(k), r);
      MulComm(f(k), r);
    }
    SumMul(r, f, g, |x|);
    MulComm(r, Sum(f, |x|));
    SumExt(k => RoundTripTerm(cis, x, m)(n, k), g, |x|);
  }

  lemma RoundTripSum(cis: real -> Complex, x: seq<Complex>, p: nat, m: nat)
    requires IsCis(cis) && |x| == Pow2(p) && m < |x|
    ensures Bin(cis, Inverse, Transform(cis, Forward, x), m) == Mul(x[m], Real(|x| as real))
  {
    hide IsCis, Root, Mul, Real;
    var size := |x|;
    var X := Transform(cis, Forward, x);
    var t := RoundTripTerm(cis, x, m);
    var f := BlockTerms(cis, Inverse, X, 1, 0, size, m);
    forall n | 0 <= n < size
      ensures f(n) == RowSums(t, size)(n)
    {
      RoundTripRow(cis, x, m, n);
      assert f(n) == Mul(At(X, n), Root(cis, Inverse, m * n, size));
    }
    forall k | 0 <= k < size
      ensures ColumnSums(t, size)(k) == if k == m then Mul(At(x, k), Real(size as real)) else ZERO
    {
      RoundTripColumn(cis, x, m, p, k);
    }
    hide BlockTerms, RoundTripTerm, RowSums, ColumnSums, Sum;
    SumExt(f, RowSums(t, size), size);
    SumSwap(t, size, size);
    SumSingle(ColumnSums(t, size), size, m);
  }

  lemma RoundTripAt(cis: real -> Complex, x: seq<Complex>, p: nat, m: nat)
    requires IsCis(cis) && |x| == Pow2(p) && m < |x|
    ensures Transform(cis, Inverse, Transform(cis, Forward, x))[m] == x[m]
  {
    hide IsCis, Mul, Scale, Bin, Real;
    RoundTripSum(cis, x, p, m);
    Unscale(|x| as real, x[m]);
  }

  lemma Unscale(r: real, a: Complex)
    requires r > 0.0
    ensures Scale(1.0 / r, Mul(a, Real(r))) == a
  {
    assert 1.0 / r * r == 1.0;
    assert 1.0 / r * (a.re * r) == a.re * (1.0 / r * r);
    assert 1.0 / r * (a.im * r) == a.im * (1.0 / r * r);
  }

  // INVERSE undoes FORWARD at every power-of-two size.
  lemma InverseUndoesForward(cis: real -> Complex, x: seq<Complex>, p: nat)
    requires IsCis(cis) && |x| == Pow2(p)
    ensures Transform(cis, Inverse, Transform(cis, Forward, x)) == x
  {
    hide IsCis, Transform;
    forall m | 0 <= m < |x|
      ensures Transform(cis, Inverse, Transform(cis, Forward, x))[m] == x[m]
    {
      RoundTripAt(cis, x, p, m);
    }
  }

  // ---- The other way round -------------------------------------------------------------

  // The exponential that turns backwards exchanges the two directions.
  ghost function Backwards(cis: real -> Complex): real -> Complex {
    t => cis(-t)
  }

  lemma BackwardsIsCis(cis: real -> Complex)
    requires IsCis(cis)
    ensures IsCis(Backwards(cis))
  {
    hide Mul, Conj, Backwards;
    var back := Backwards(cis);
    BackwardsAt(cis, 0.5, 0.5);
    CisHalf(cis);
    forall s, t {:trigger Mul(back(s), back(t))}
      ensures back(s + t) == Mul(back(s), back(t))
    {
      BackwardsAt(cis, s, t);
    }
    forall t {:trigger Conj(back(t))}
      ensures back(-t) == Conj(back(t))
    {
      BackwardsAt(cis, t, t);
    }
  }

  lemma BackwardsAt(cis: real -> Complex, s: real, t: real)
    requires IsCis(cis)
    ensures var back := Backwards(cis);
            && back(t) == cis(-t) && back(s + t) == Mul(back(s), back(t)) && back(-t) == Conj(back(t))
  {
    hide IsCis, Mul, Conj;
    CisAdd(cis, -s, -t);
    assert -s + -t == -(s + t);
    CisNegate(cis, -t);
  }

  lemma BackwardsBin(cis: real -> Complex, dir: Direction, x: seq<Complex>, j: int)
    requires |x| > 0
    ensures Bin(Backwards(cis), dir, x, j) == Bin(cis, dir.Opposite(), x, j)
  {
    hide Mul, Angle;
    var f := BlockTerms(Backwards(cis), dir, x, 1, 0, |x|, j);
    var g := BlockTerms(cis, dir.Opposite(), x, 1, 0, |x|, j);
    forall t | 0 <= t < |x|
      ensures f(t) == g(t)
    {
      AngleNegate(dir, j * t, |x|);
    }
    SumExt(f, g, |x|);
  }

  lemma ScaledBin(cis: real -> Complex, r: real, x: seq<Complex>, y: seq<Complex>, j: int)
    requires |x| == |y| > 0 && forall k :: 0 <= k < |x| ==> y[k] == Mul(Real(r), x[k])
    ensures Bin(cis, Forward, y, j) == Mul(Real(r), Bin(cis, Forward, x, j))
  {
    hide Mul, Root, Real;
    var f := BlockTerms(cis, Forward, x, 1, 0, |x|, j);
    var g := BlockTerms(cis, Forward, y, 1, 0, |x|, j);
    forall t | 0 <= t < |x|
      ensures g(t) == Mul(Real(r), f(t))
    {
      MulAssoc(Real(r), x[t], Root(cis, Forward, j * t, |x|));
    }
    SumMul(Real(r), f, g, |x|);
  }

  lemma Rescale(r: real, a: Complex)
    requires r > 0.0
    ensures Mul(Real(r), Scale(1.0 / r, a)) == a
  {
    assert 1.0 / r * r == 1.0;
    assert r * (1.0 / r * a.re) == a.re * (1.0 / r * r);
    assert r * (1.0 / r * a.im) == a.im * (1.0 / r * r);
  }

  lemma CancelScale(r: real, a: Complex, b: Complex)
    requires r > 0.0 && Mul(Real(r), a) == Mul(b, Real(r))
    ensures a == b
  {
    assert Scale(1.0 / r, Mul(a, Real(r))) == Scale(1.0 / r, Mul(b, Real(r))) by {
      MulComm(Real(r), a);
    }
    Unscale(r, a);
    Unscale(r, b);
  }

  // FORWARD undoes INVERSE as well.
  lemma ForwardUndoesInverse(cis: real -> Complex, x: seq<Complex>, p: nat)
    requires IsCis(cis) && |x| == Pow2(p)
    ensures Transform(cis, Forward, Transform(cis, Inverse, x)) == x
  {
    hide IsCis, Bin, Mul, Real, Scale, Backwards;
    var back, size := Backwards(cis), |x| as real;
    BackwardsIsCis(cis);
    var y, z := Transform(cis, Inverse, x), Transform(back, Forward, x);
    forall k | 0 <= k < |x|
      ensures z[k] == Mul(Real(size), y[k])
    {
      BackwardsBin(cis, Forward, x, k);
      Rescale(size, Bin(cis, Inverse, x, k));
    }
    forall m | 0 <= m < |x|
      ensures Transform(cis, Forward, y)[m] == x[m]
    {
      RoundTripSum(back, x, p, m);
      BackwardsBin(cis, Inverse, z, m);
      ScaledBin(cis, size, y, z, m);
      CancelScale(size, Bin(cis, Forward, y, m), x[m]);
    }
  }

  // ---- Convolution ---------------------------------------------------------------------

  lemma RotateIndex(m: int, k: int, size: int)
    requires 0 <= k < size && 0 <= m < size
    ensures (m - k) % size == if m < k then size - k + m else m - k
  {
    DivModUnique(m - k, size, if m < k then -1 else 0, if m < k then m - k + size else m - k);
  }

  // Summing over a whole period does not depend on where the period starts.
  lemma RotatedSum(f: int -> Complex, g: int -> Complex, k: nat, size: nat)
    requires k < size
    requires forall m {:trigger g(m)} :: 0 <= m < size ==> g(m) == f(if m < k then size - k + m else m - k)
    ensures Sum(g, size) == Sum(f, size)
  {
    hide Sum, Add;
    var rest := size - k;
    var low, gHigh := i => f(rest + i), i => g(k + i);
    LowMatches(f, g, low, k, rest);
    HighMatches(f, g, gHigh, k, rest);
    SplitsMatch(f, g, low, gHigh, k, rest);
  }

  lemma LowMatches(f: int -> Complex, g: int -> Complex, low: int -> Complex, k: nat, rest: nat)
    requires forall m {:trigger g(m)} :: 0 <= m < k + rest ==> g(m) == f(if m < k then rest + m else m - k)
    requires forall i {:trigger low(i)} :: low(i) == f(rest + i)
    ensures Sum(g, k) == Sum(low, k)
  {
    hide Sum;
    SumExt(g, low, k);
  }

  lemma HighMatches(f: int -> Complex, g: int -> Complex, gHigh: int -> Complex, k: nat, rest: nat)
    requires forall m {:trigger g(m)} :: 0 <= m < k + rest ==> g(m) == f(if m < k then rest + m else m - k)
    requires forall i {:trigger gHigh(i)} :: gHigh(i) == g(k + i)
    ensures Sum(gHigh, rest) == Sum(f, rest)
  {
    hide Sum;
    forall i | 0 <= i < rest
      ensures gHigh(i) == f(i)
    {
      assert g(k + i) == f(i);
    }
    SumExt(gHigh, f, rest);
  }

  lemma SplitsMatch(f: int -> Complex, g: int -> Complex, low: int -> Complex, gHigh: int -> Complex, k: nat, rest: nat)
    requires forall i {:trigger low(i)} :: low(i) == f(rest + i)
    requires forall i {:trigger gHigh(i)} :: gHigh(i) == g(k + i)
    requires Sum(g, k) == Sum(low, k) && Sum(gHigh, rest) == Sum(f, rest)
    ensures Sum(g, k + rest) == Sum(f, k + rest)
  {
    SumSplit(g, gHigh, k, rest);
    SumSplit(f, low, rest, k);
  }

  // a[k] b[m - k] exp(-2 pi i n m / size)
  ghost function SpectrumTerm(cis: real -> Complex, a: seq<Complex>, b: seq<Complex>, n: int): (int, int) -> Complex
    requires |b| > 0
  {
    (m, k) => Mul(CyclicTerms(a, b, m)(k), Root(cis, Forward, n * m, |b|))
  }

  lemma SpectrumRow(cis: real -> Complex, a: seq<Complex>, b: seq<Complex>, n: nat, m: nat)
    requires IsCis(cis) && |a| == |b| > 0
    ensures RowSums(SpectrumTerm(cis, a, b, n), |a|)(m) == Mul(Cyclic(a, b, m), Root(cis, Forward, n * m, |b|))
  {
    hide IsCis, Root, Mul;
    var r := Root(cis, Forward, n * m, |b|);
    var f := CyclicTerms(a, b, m);
    var g := k => SpectrumTerm(cis, a, b, n)(m, k);
    forall k | 0 <= k < |a|
      ensures g(k) == Mul(r, f(k))
    {
      assert g(k) == SpectrumTerm(cis, a, b, n)(m, k) == Mul(f(k), r);
      MulComm(f(k), r);
    }
    SumMul(r, f, g, |a|);
    MulComm(r, Sum(f, |a|));
    SumExt(k => SpectrumTerm(cis, a, b, n)(m, k), g, |a|);
  }

  lemma SpectrumColumn(cis: real -> Complex, a: seq<Complex>, b: seq<Complex>, n: nat, k: nat)
    requires IsCis(cis) && |a| == |b| && k < |a|
    ensures ColumnSums(SpectrumTerm(cis, a, b, n), |a|)(k)
         == Mul(Bin(cis, Forward, b, n), BlockTerms(cis, Forward, a, 1, 0, |a|, n)(k))
  {
    hide IsCis, Root, Mul;
    var size := |a|;
    var c := BlockTerms(cis, Forward, a, 1, 0, size, n)(k);
    var f := BlockTerms(cis, Forward, b, 1, 0, size, n);
    var g := m => f(if m < k then size - k + m else m - k);
    var h := m => SpectrumTerm(cis, a, b, n)(m, k);
    forall m | 0 <= m < size
      ensures h(m) == Mul(c, g(m))
    {
      SpectrumShift(cis, n, m, k, size);
      var d := (m - k) % size;
      RotateIndex(m, k, size);
      Interchange(At(a, k), At(b, d), Root(cis, Forward, n * k, size), Root(cis, Forward, n * d, size));
      assert c == Mul(At(a, k), Root(cis, Forward, n * k, size));
      assert h(m) == SpectrumTerm(cis, a, b, n)(m, k);
      assert CyclicTerms(a, b, m)(k) == Mul(At(a, k), At(b, d));
      assert g(m) == f(d) == Mul(At(b, d), Root(cis, Forward, n * d, size));
    }
    SumMul(c, g, h, size);
    RotatedSum(f, g, k, size);
    MulComm(c, Sum(f, size));
    SumExt(m => SpectrumTerm(cis, a, b, n)(m, k), h, size);
  }

  lemma SpectrumShift(cis: real -> Complex, n: nat, m: nat, k: nat, size: int)
    requires IsCis(cis) && size > 0
    ensures Root(cis, Forward, n * m, size)
         == Mul(Root(cis, Forward, n * k, size), Root(cis, Forward, n * ((m - k) % size), size))
  {
    hide IsCis, Root, Mul;
    var d, q := (m - k) % size, (m - k) / size;
    assert m == k + d + q * size;
    RootAdd(cis, Forward, n * k, n * d, size);
    RootPeriod(cis, Forward, n * k + n * d, n * q, size);
    assert n * m == n * k + n * d + n * q * size by {
      assert n * (q * size) == n * q * size;
      assert n * (k + d + q * size) == n * k + n * d + n * (q * size);
    }
  }

  lemma Interchange(a: Complex, b: Complex, r: Complex, s: Complex)
    ensures Mul(Mul(a, b), Mul(r, s)) == Mul(Mul(a, r), Mul(b, s))
  {
    hide Mul;
    MulAssoc(a, b, Mul(r, s));
    MulAssoc(b, r, s);
    MulComm(b, r);
    MulAssoc(r, b, s);
    MulAssoc(a, r, Mul(b, s));
  }

  // The spectrum of a cyclic convolution is the product of the spectra.
  lemma SpectrumOfCyclic(cis: real -> Complex, a: seq<Complex>, b: seq<Complex>, c: seq<Complex>, n: nat)
    requires IsCis(cis) && |a| == |b| == |c| && n < |a|
    requires forall m :: 0 <= m < |c| ==> c[m] == Cyclic(a, b, m)
    ensures Bin(cis, Forward, c, n) == Mul(Bin(cis, Forward, a, n), Bin(cis, Forward, b, n))
  {
    hide IsCis, Root, Mul;
    var size := |a|;
    var t := SpectrumTerm(cis, a, b, n);
    var f := BlockTerms(cis, Forward, c, 1, 0, size, n);
    var g := BlockTerms(cis, Forward, a, 1, 0, size, n);
    forall m | 0 <= m < size
      ensures f(m) == RowSums(t, size)(m)
    {
      SpectrumRow(cis, a, b, n, m);
    }
    forall k | 0 <= k < size
      ensures ColumnSums(t, size)(k) == Mul(Bin(cis, Forward, b, n), g(k))
    {
      SpectrumColumn(cis, a, b, n, k);
    }
    hide BlockTerms, SpectrumTerm, RowSums, ColumnSums;
    SumExt(f, RowSums(t, size), size);
    SumSwap(t, size, size);
    SumMul(Bin(cis, Forward, b, n), g, ColumnSums(t, size), size);
    MulComm(Bin(cis, Forward, b, n), Bin(cis, Forward, a, n));
  }

  function PointwiseProduct(a: seq<Complex>, b: seq<Complex>): (r: seq<Complex>)
    requires |a| == |b|
    ensures |r| == |a|
  {
    seq(|a|, i requires 0 <= i < |a| => Mul(a[i], b[i]))
  }

  // Transform both, multiply, transform back: the cyclic convolution.
  lemma FastConvolution(cis: real -> Complex, a: seq<Complex>, b: seq<Complex>, p: nat)
    requires IsCis(cis) && |a| == |b| == Pow2(p)
    ensures var r := Transform(cis, Inverse, PointwiseProduct(Transform(cis, Forward, a), Transform(cis, Forward, b)));
            forall m :: 0 <= m < |a| ==> r[m] == Cyclic(a, b, m)
  {
    hide IsCis, Mul, Cyclic;
    var c := seq(|a|, m => Cyclic(a, b, m));
    var A, B, C := Transform(cis, Forward, a), Transform(cis, Forward, b), Transform(cis, Forward, c);
    forall n | 0 <= n < |a|
      ensures C[n] == PointwiseProduct(A, B)[n]
    {
      SpectrumOfCyclic(cis, a, b, c, n);
    }
    assert C == PointwiseProduct(A, B);
    InverseUndoesForward(cis, c, p);
  }
}
