// The packed real transforms of src/dsp/jfft.cpp, lines 61-121: a real signal of 2 n samples
// through a complex transform of n points.

module RealDft {
  import opened Complexes
  import opened PowersOfTwo
  import opened Roots
  import opened Dft
  import opened Inversion

  // A real signal as a complex one.
  function Lift(x: seq<real>): (y: seq<Complex>)
    ensures |y| == |x| && forall i :: 0 <= i < |x| ==> y[i] == Real(x[i])
  {
    seq(|x|, i requires 0 <= i < |x| => Real(x[i]))
  }

  // Even samples as real parts, odd samples as imaginary parts.
  function Packed(x: seq<real>): (z: seq<Complex>)
    ensures |z| == |x| / 2 && forall k :: 0 <= k < |z| ==> z[k] == Complex(x[2 * k], x[2 * k + 1])
  {
    seq(|x| / 2, k requires 0 <= k < |x| / 2 => Complex(x[2 * k], x[2 * k + 1]))
  }

  // Bins 0 to |bins| / 2 are those of the real signal x; the others are not looked at.
  ghost predicate HasBins(cis: real -> Complex, x: seq<real>, bins: seq<Complex>)
    requires |x| == |bins| > 0
  {
    forall k :: 0 <= k <= |bins| / 2 && k < |bins| ==> bins[k] == Bin(cis, Forward, Lift(x), k)
  }

  // The transforms of the even and of the odd samples.
  ghost function Even(cis: real -> Complex, x: seq<real>, j: int): Complex
    requires |x| >= 2
  {
    Block(cis, Forward, Lift(x), 2, 0, |x| / 2, j)
  }

  ghost function Odd(cis: real -> Complex, x: seq<real>, j: int): Complex
    requires |x| >= 2
  {
    Block(cis, Forward, Lift(x), 2, 1, |x| / 2, j)
  }

  lemma BinFromHalves(cis: real -> Complex, x: seq<real>, j: int)
    requires IsCis(cis) && |x| >= 2 && |x| % 2 == 0
    ensures Bin(cis, Forward, Lift(x), j) == Add(Even(cis, x, j), Mul(Root(cis, Forward, j, |x|), Odd(cis, x, j)))
  {
    hide IsCis, Root, Mul, Block;
    Decimate(cis, Forward, Lift(x), 1, 0, |x| / 2, j);
  }

  // The packed transform holds both halves at once.
  lemma PackedBin(cis: real -> Complex, x: seq<real>, j: int)
    requires IsCis(cis) && |x| >= 2 && |x| % 2 == 0
    ensures Bin(cis, Forward, Packed(x), j) == Add(Even(cis, x, j), Mul(IMAG, Odd(cis, x, j)))
  {
    hide IsCis, Root, Mul, Add;
    var n := |x| / 2;
    var f := BlockTerms(cis, Forward, Packed(x), 1, 0, n, j);
    var e := BlockTerms(cis, Forward, Lift(x), 2, 0, n, j);
    var o := BlockTerms(cis, Forward, Lift(x), 2, 1, n, j);
    var io := t => Mul(IMAG, o(t));
    forall t | 0 <= t < n
      ensures f(t) == Add(e(t), io(t))
    {
      var r := Root(cis, Forward, j * t, n);
      assert e(t) == Mul(Real(x[2 * t]), r) && o(t) == Mul(Real(x[2 * t + 1]), r);
      assert f(t) == Mul(Complex(x[2 * t], x[2 * t + 1]), r);
      PackTerm(x[2 * t], x[2 * t + 1], r);
    }
    SumAdd(e, io, f, n);
    SumMul(IMAG, o, io, n);
  }

  lemma PackTerm(a: real, b: real, r: Complex)
    ensures Mul(Complex(a, b), r) == Add(Mul(Real(a), r), Mul(IMAG, Mul(Real(b), r)))
  {}

  // A subsequence of a real signal has conjugate-symmetric bins.
  lemma RealBlockMirror(cis: real -> Complex, x: seq<real>, stride: int, offset: int, n: int, j: int)
    requires IsCis(cis) && n > 0
    ensures Block(cis, Forward, Lift(x), stride, offset, n, n - j) == Conj(Block(cis, Forward, Lift(x), stride, offset, n, j))
  {
    hide IsCis, Root, Mul, Conj;
    var f := BlockTerms(cis, Forward, Lift(x), stride, offset, n, j);
    var g := BlockTerms(cis, Forward, Lift(x), stride, offset, n, n - j);
    forall t | 0 <= t < n
      ensures g(t) == Conj(f(t))
    {
      var a := At(Lift(x), offset + stride * t);
      ConjLaws(a, Root(cis, Forward, j * t, n));
      RealConj(x, offset + stride * t);
      RootConj(cis, Forward, j * t, n);
      RootPeriod(cis, Forward, -(j * t), t, n);
      assert (n - j) * t == -(j * t) + t * n;
    }
    SumConj(f, g, n);
  }

  lemma RealConj(x: seq<real>, i: int)
    ensures Conj(At(Lift(x), i)) == At(Lift(x), i)
  {
    assert -0.0 == 0.0;
  }

  lemma PackedMirror(cis: real -> Complex, x: seq<real>, j: int)
    requires IsCis(cis) && |x| >= 2 && |x| % 2 == 0
    ensures Conj(Bin(cis, Forward, Packed(x), |x| / 2 - j)) == Sub(Even(cis, x, j), Mul(IMAG, Odd(cis, x, j)))
  {
    hide IsCis, Root, Mul, Conj, Add, Sub, Block;
    var n := |x| / 2;
    PackedBin(cis, x, n - j);
    RealBlockMirror(cis, x, 2, 0, n, j);
    RealBlockMirror(cis, x, 2, 1, n, j);
    ConjPair(Even(cis, x, j), Odd(cis, x, j));
  }

  lemma ConjPair(e: Complex, o: Complex)
    ensures Conj(Add(Conj(e), Mul(IMAG, Conj(o)))) == Sub(e, Mul(IMAG, o))
  {}

  // ---- The diddling step --------------------------------------------------------------

  // The factors 0.5 * (1 -+ i * exp(-2 pi i k / (2 size))) of the real transforms.
  function DiddleA(cis: real -> Complex, size: int, k: int): Complex
    requires size > 0
  {
    Scale(0.5, Sub(ONE, Mul(IMAG, Root(cis, Forward, k, 2 * size))))
  }

  function DiddleB(cis: real -> Complex, size: int, k: int): Complex
    requires size > 0
  {
    Scale(0.5, Add(ONE, Mul(IMAG, Root(cis, Forward, k, 2 * size))))
  }

  function Combine(cis: real -> Complex, n: int, k: int, f: Complex, mirrored: Complex): Complex
    requires n > 0
  {
    Add(Mul(f, DiddleA(cis, n, k)), Mul(DiddleB(cis, n, k), Conj(mirrored)))
  }

  lemma CombineAlgebra(e: Complex, o: Complex, w: Complex)
    ensures Add(Mul(Add(e, Mul(IMAG, o)), Scale(0.5, Sub(ONE, Mul(IMAG, w)))),
                Mul(Scale(0.5, Add(ONE, Mul(IMAG, w))), Sub(e, Mul(IMAG, o))))
         == Add(e, Mul(w, o))
  {}

  lemma HalfFactors()
    ensures Scale(0.5, Add(ONE, Mul(IMAG, ONE))) == Complex(0.5, 0.5)
    ensures Scale(0.5, Sub(ONE, Mul(IMAG, ONE))) == Complex(0.5, -0.5)
  {
    hide Mul;
    MulUnit(IMAG);
    assert Add(ONE, IMAG) == Complex(1.0, 1.0) && Sub(ONE, IMAG) == Complex(1.0, -1.0);
  }

  lemma CombineAlgebraHalf(e: Complex, o: Complex)
    ensures Add(Mul(Add(e, Mul(IMAG, o)), Complex(0.5, 0.5)), Mul(Complex(0.5, -0.5), Sub(e, Mul(IMAG, o)))) == Sub(e, o)
  {}

  // Bins 0 to n - 1; `mirrored` is bin n - k of the packed transform, bin 0 when k is 0.
  lemma CombinedBin(cis: real -> Complex, x: seq<real>, k: nat, f: Complex, mirrored: Complex)
    requires IsCis(cis) && |x| >= 2 && |x| % 2 == 0 && k < |x| / 2
    requires f == Bin(cis, Forward, Packed(x), k)
    requires mirrored == Bin(cis, Forward, Packed(x), if k == 0 then 0 else |x| / 2 - k)
    ensures Combine(cis, |x| / 2, k, f, mirrored) == Bin(cis, Forward, Lift(x), k)
  {
    hide IsCis, Root, Mul, Conj, Add, Sub, Block, Scale;
    var n := |x| / 2;
    if k == 0 {
      BlockPeriod(cis, Forward, Packed(x), 1, 0, n, 0);
    }
    PackedBin(cis, x, k);
    PackedMirror(cis, x, k);
    BinFromHalves(cis, x, k);
    CombineAlgebra(Even(cis, x, k), Odd(cis, x, k), Root(cis, Forward, k, 2 * n));
  }

  // Bin n swaps the two factors of bin 0.
  lemma MiddleBin(cis: real -> Complex, x: seq<real>, f: Complex)
    requires IsCis(cis) && |x| >= 2 && |x| % 2 == 0 && f == Bin(cis, Forward, Packed(x), 0)
    ensures Add(Mul(f, DiddleB(cis, |x| / 2, 0)), Mul(DiddleA(cis, |x| / 2, 0), Conj(f)))
         == Bin(cis, Forward, Lift(x), |x| / 2)
  {
    hide IsCis, Root, Mul, Conj, Add, Sub, Block, Scale;
    var n := |x| / 2;
    BlockPeriod(cis, Forward, Packed(x), 1, 0, n, 0);
    PackedBin(cis, x, 0);
    PackedMirror(cis, x, 0);
    RootZero(cis, Forward, 2 * n);
    HalfFactors();
    CombineAlgebraHalf(Even(cis, x, 0), Odd(cis, x, 0));
    BinFromHalves(cis, x, n);
    BlockPeriod(cis, Forward, Lift(x), 2, 0, n, 0);
    BlockPeriod(cis, Forward, Lift(x), 2, 1, n, 0);
    RootHalf(cis, Forward, n);
    MulUnit(Odd(cis, x, 0));
    AddLaws(Even(cis, x, 0), Odd(cis, x, 0), ZERO);
  }

  lemma MirroredBin(cis: real -> Complex, x: seq<real>, k: int)
    requires IsCis(cis) && |x| > 0
    ensures Bin(cis, Forward, Lift(x), |x| - k) == Conj(Bin(cis, Forward, Lift(x), k))
  {
    RealBlockMirror(cis, x, 1, 0, |x|, k);
  }

  // ---- The inverse diddling step ---------------------------------------------------------

  function Split(cis: real -> Complex, n: int, k: int, c: Complex, mirrored: Complex): Complex
    requires n > 0
  {
    Add(Mul(c, Conj(DiddleA(cis, n, k))), Mul(Conj(DiddleB(cis, n, k)), Conj(mirrored)))
  }

  lemma SplitIdentity(e: Complex, p: Complex, w: Complex)
    ensures Add(Mul(Add(e, p), Conj(Scale(0.5, Sub(ONE, Mul(IMAG, w))))),
                Mul(Conj(Scale(0.5, Add(ONE, Mul(IMAG, w)))), Sub(e, p)))
         == Add(e, Mul(IMAG, Mul(Conj(w), p)))
  {}

  lemma SplitAlgebra(e: Complex, o: Complex, w: Complex)
    requires Mul(w, Conj(w)) == ONE
    ensures Add(Mul(Add(e, Mul(w, o)), Conj(Scale(0.5, Sub(ONE, Mul(IMAG, w))))),
                Mul(Conj(Scale(0.5, Add(ONE, Mul(IMAG, w)))), Sub(e, Mul(w, o))))
         == Add(e, Mul(IMAG, o))
  {
    hide Mul, Add, Sub, Conj, Scale;
    SplitIdentity(e, Mul(w, o), w);
    MulAssoc(Conj(w), w, o);
    MulComm(w, Conj(w));
    MulUnit(o);
  }

  lemma UnitRoot(cis: real -> Complex, k: int, n: int)
    requires IsCis(cis) && n > 0
    ensures Mul(Root(cis, Forward, k, n), Conj(Root(cis, Forward, k, n))) == ONE
  {
    hide IsCis, Root, Mul;
    RootConj(cis, Forward, k, n);
    RootAdd(cis, Forward, k, -k, n);
    RootZero(cis, Forward, n);
  }

  lemma ConjOther(cis: real -> Complex, x: seq<real>, k: nat)
    requires IsCis(cis) && |x| >= 2 && |x| % 2 == 0 && k <= |x| / 2
    ensures Conj(Bin(cis, Forward, Lift(x), |x| / 2 - k))
         == Sub(Even(cis, x, k), Mul(Root(cis, Forward, k, |x|), Odd(cis, x, k)))
  {
    hide IsCis, Root, Mul, Conj, Add, Sub, Block;
    var n: int := |x| / 2;
    var w := Root(cis, Forward, k, 2 * n);
    BinFromHalves(cis, x, n - k);
    RealBlockMirror(cis, x, 2, 0, n, k);
    RealBlockMirror(cis, x, 2, 1, n, k);
    RootAdd(cis, Forward, n, 0 - k, 2 * n);
    RootHalf(cis, Forward, n);
    RootConj(cis, Forward, k, 2 * n);
    ConjTwist(Even(cis, x, k), Odd(cis, x, k), w);
  }

  lemma ConjTwist(e: Complex, o: Complex, w: Complex)
    ensures Conj(Add(Conj(e), Mul(Mul(MINUS_ONE, Conj(w)), Conj(o)))) == Sub(e, Mul(w, o))
  {}

  lemma SplitBin(cis: real -> Complex, x: seq<real>, k: nat, c: Complex, mirrored: Complex)
    requires IsCis(cis) && |x| >= 2 && |x| % 2 == 0 && k < |x| / 2
    requires c == Bin(cis, Forward, Lift(x), k) && mirrored == Bin(cis, Forward, Lift(x), |x| / 2 - k)
    ensures Split(cis, |x| / 2, k, c, mirrored) == Bin(cis, Forward, Packed(x), k)
  {
    hide IsCis, Root, Mul, Conj, Add, Sub, Block, Scale;
    var n := |x| / 2;
    BinFromHalves(cis, x, k);
    ConjOther(cis, x, k);
    PackedBin(cis, x, k);
    UnitRoot(cis, k, 2 * n);
    SplitAlgebra(Even(cis, x, k), Odd(cis, x, k), Root(cis, Forward, k, 2 * n));
  }

  // Three real arrays that determine each other through their bins.
  lemma PackedDetermines(cis: real -> Complex, x: seq<real>, spectrum: seq<Complex>, p: nat)
    requires IsCis(cis) && |x| == 2 * Pow2(p) && |spectrum| == Pow2(p)
    requires forall k :: 0 <= k < |spectrum| ==> spectrum[k] == Bin(cis, Forward, Packed(x), k)
    ensures Transform(cis, Inverse, spectrum) == Packed(x)
  {
    hide IsCis, Bin;
    assert spectrum == Transform(cis, Forward, Packed(x));
    InverseUndoesForward(cis, Packed(x), p);
  }

  // ---- Any bins at all -------------------------------------------------------------------

  // The bins of a real signal closest at hand: of the two outer ones, which must be real, the
  // imaginary part of each is taken off the real part of the other.
  function Realised(bins: seq<Complex>): (r: seq<Complex>)
    requires |bins| >= 2
    ensures |r| == |bins|
  {
    var n := |bins| / 2;
    bins[n := Real(bins[n].re - bins[0].im)][0 := Real(bins[0].re - bins[n].im)]
  }

  lemma OuterBinsRealised(bins: seq<Complex>, n: nat)
    requires |bins| == 2 * n && n > 0
    ensures Realised(bins) == bins[n := Real(bins[n].re - bins[0].im)][0 := Real(bins[0].re - bins[n].im)]
  {}

  // The factors of the mirrored bin are the conjugates.
  lemma MirroredFactors(cis: real -> Complex, n: int, k: int)
    requires IsCis(cis) && n > 0
    ensures DiddleA(cis, n, n - k) == Conj(DiddleA(cis, n, k)) && DiddleB(cis, n, n - k) == Conj(DiddleB(cis, n, k))
  {
    hide IsCis, Root;
    RootAdd(cis, Forward, n, 0 - k, 2 * n);
    RootHalf(cis, Forward, n);
    RootConj(cis, Forward, k, 2 * n);
  }

  // With u on the unit circle: combining undoes splitting.
  lemma CombineSplit(u: Complex, c: Complex, d: Complex)
    requires u.re * u.re + u.im * u.im == 1.0
    ensures var a, b := Scale(0.5, Sub(ONE, u)), Scale(0.5, Add(ONE, u));
            var f, g := Add(Mul(c, Conj(a)), Mul(Conj(b), Conj(d))), Add(Mul(d, a), Mul(b, Conj(c)));
            Add(Mul(f, a), Mul(b, Conj(g))) == c
  {
    hide Mul, Add, Conj;
    var a, b := Scale(0.5, Sub(ONE, u)), Scale(0.5, Add(ONE, u));
    HalfNorms(u, a, b);
    RegroupPair(a, b, c, d);
    MulUnit(c);
    MulUnit(Conj(d));
    AddLaws(c, ZERO, ZERO);
  }

  lemma HalfNorms(u: Complex, a: Complex, b: Complex)
    requires u.re * u.re + u.im * u.im == 1.0
    requires a == Scale(0.5, Sub(ONE, u)) && b == Scale(0.5, Add(ONE, u))
    ensures Add(Mul(Conj(a), a), Mul(b, Conj(b))) == ONE
    ensures Add(Mul(Conj(b), a), Mul(b, Conj(a))) == ZERO
  {}

  lemma RegroupPair(a: Complex, b: Complex, c: Complex, d: Complex)
    ensures Add(Mul(Add(Mul(c, Conj(a)), Mul(Conj(b), Conj(d))), a),
                Mul(b, Conj(Add(Mul(d, a), Mul(b, Conj(c))))))
         == Add(Mul(Add(Mul(Conj(a), a), Mul(b, Conj(b))), c), Mul(Add(Mul(Conj(b), a), Mul(b, Conj(a))), Conj(d)))
  {
    hide Mul, Conj;
    var ca, cb, cd := Conj(a), Conj(b), Conj(d);
    FirstHalf(a, ca, cb, c, cd);
    ConjugateHalf(a, b, c, d);
    SecondHalf(b, cb, ca, c, cd);
    Distribute(c, Mul(ca, a), Mul(b, cb));
    Distribute(cd, Mul(cb, a), Mul(b, ca));
  }

  lemma FirstHalf(a: Complex, ca: Complex, cb: Complex, c: Complex, cd: Complex)
    ensures Mul(Add(Mul(c, ca), Mul(cb, cd)), a) == Add(Mul(Mul(ca, a), c), Mul(Mul(cb, a), cd))
  {
    hide Mul, Add;
    Distribute(a, Mul(c, ca), Mul(cb, cd));
    MulAssoc(c, ca, a);
    MulComm(c, Mul(ca, a));
    MulComm(cb, cd);
    MulAssoc(cd, cb, a);
    MulComm(cd, Mul(cb, a));
  }

  lemma ConjugateHalf(a: Complex, b: Complex, c: Complex, d: Complex)
    ensures Conj(Add(Mul(d, a), Mul(b, Conj(c)))) == Add(Mul(Conj(d), Conj(a)), Mul(Conj(b), c))
  {
    hide Mul, Add, Conj;
    ConjLaws(Mul(d, a), Mul(b, Conj(c)));
    ConjLaws(d, a);
    ConjLaws(b, Conj(c));
    ConjLaws(c, c);
  }

  lemma SecondHalf(b: Complex, cb: Complex, ca: Complex, c: Complex, cd: Complex)
    ensures Mul(b, Add(Mul(cd, ca), Mul(cb, c))) == Add(Mul(Mul(b, ca), cd), Mul(Mul(b, cb), c))
  {
    hide Mul, Add;
    Distribute(b, Mul(cd, ca), Mul(cb, c));
    MulComm(cd, ca);
    MulAssoc(b, ca, cd);
    MulAssoc(b, cb, c);
    AddLaws(Mul(b, Mul(ca, cd)), Mul(b, Mul(cb, c)), ZERO);
  }

  // Bins 1 to n - 1 of the signal that belongs to split bins are the bins that were split.
  lemma SplitCombines(cis: real -> Complex, n: int, k: int, c: Complex, d: Complex)
    requires IsCis(cis) && 0 < k < n
    ensures Combine(cis, n, k, Split(cis, n, k, c, d), Split(cis, n, n - k, d, c)) == c
  {
    hide IsCis, Root, Mul, Add, Conj, Scale, Sub;
    MirroredFactors(cis, n, k);
    var w := Root(cis, Forward, k, 2 * n);
    UnitRoot(cis, k, 2 * n);
    TurnedUnit(w);
    var a, b := DiddleA(cis, n, k), DiddleB(cis, n, k);
    ConjLaws(a, b);
    ConjLaws(b, a);
    CombineSplit(Mul(IMAG, w), c, d);
  }

  lemma TurnedUnit(w: Complex)
    requires Mul(w, Conj(w)) == ONE
    ensures var u := Mul(IMAG, w); u.re * u.re + u.im * u.im == 1.0
  {
    assert Mul(IMAG, w) == Complex(-w.im, w.re);
  }

  lemma OuterFactors(cis: real -> Complex, n: int)
    requires IsCis(cis) && n > 0
    ensures DiddleA(cis, n, 0) == Complex(0.5, -0.5) && DiddleB(cis, n, 0) == Complex(0.5, 0.5)
  {
    hide IsCis, Root, Mul, Add, Sub, Scale;
    RootZero(cis, Forward, 2 * n);
    HalfFactors();
  }

  // Bins 0 and n come out real.
  lemma OuterBins(cis: real -> Complex, n: int, c: Complex, d: Complex)
    requires IsCis(cis) && n > 0
    ensures var f := Split(cis, n, 0, c, d);
            && Combine(cis, n, 0, f, f) == Real(c.re - d.im)
            && Add(Mul(f, DiddleB(cis, n, 0)), Mul(DiddleA(cis, n, 0), Conj(f))) == Real(d.re - c.im)
  {
    hide IsCis, Mul, Add, Conj, DiddleA, DiddleB;
    OuterFactors(cis, n);
    var f := Split(cis, n, 0, c, d);
    OuterSplit(c, d);
    OuterCombine(f);
  }

  lemma OuterSplit(c: Complex, d: Complex)
    ensures Add(Mul(c, Conj(Complex(0.5, -0.5))), Mul(Conj(Complex(0.5, 0.5)), Conj(d)))
         == Complex(0.5 * (c.re - c.im + d.re - d.im), 0.5 * (c.re + c.im - d.re - d.im))
  {}

  lemma OuterCombine(f: Complex)
    ensures Add(Mul(f, Complex(0.5, -0.5)), Mul(Complex(0.5, 0.5), Conj(f))) == Real(f.re + f.im)
    ensures Add(Mul(f, Complex(0.5, 0.5)), Mul(Complex(0.5, -0.5), Conj(f))) == Real(f.re - f.im)
  {}

  // Whatever bins were split, the signal unpacked from their inverse transform has them, with the
  // two outer ones realised.
  lemma SignalHasBins(cis: real -> Complex, x: seq<real>, bins: seq<Complex>, spectrum: seq<Complex>, p: nat)
    requires IsCis(cis) && |x| == |bins| == 2 * Pow2(p) && |spectrum| == Pow2(p)
    requires forall k :: 0 <= k < |spectrum| ==> spectrum[k] == Split(cis, |spectrum|, k, bins[k], bins[|spectrum| - k])
    requires Packed(x) == Transform(cis, Inverse, spectrum)
    ensures HasBins(cis, x, Realised(bins))
  {
    hide IsCis, Bin, Lift, Packed, Split, Combine, Pow2, Mul, Add, Conj, DiddleA, DiddleB;
    var n := |spectrum|;
    ForwardUndoesInverse(cis, spectrum, p);
    forall k | 0 <= k < n
      ensures spectrum[k] == Bin(cis, Forward, Packed(x), k)
    {
      assert spectrum[k] == Transform(cis, Forward, Packed(x))[k];
    }
    OuterBins(cis, n, bins[0], bins[n]);
    forall k | 0 <= k <= n
      ensures Realised(bins)[k] == Bin(cis, Forward, Lift(x), k)
    {
      if k == n {
        MiddleBin(cis, x, spectrum[0]);
      } else if k == 0 {
        CombinedBin(cis, x, 0, spectrum[0], spectrum[0]);
      } else {
        CombinedBin(cis, x, k, spectrum[k], spectrum[n - k]);
        SplitCombines(cis, n, k, bins[k], bins[n - k]);
      }
    }
  }
}
