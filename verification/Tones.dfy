// What the transforms of src/dsp/jfft.cpp do to the signals everybody knows: tones and impulses,
// stated with the exponential alone.

module Tones {
  import opened Complexes
  import opened PowersOfTwo
  import opened Roots
  import opened Dft
  import opened Inversion

  // exp(2 pi i m k / n), the tone that turns m times in n samples.
  ghost predicate IsTone(cis: real -> Complex, m: int, x: seq<Complex>) {
    forall k :: 0 <= k < |x| ==> x[k] == cis((m * k) as real / |x| as real)
  }

  // Zero but for a one at place m.
  predicate IsImpulse(m: nat, x: seq<Complex>) {
    m < |x| && forall k :: 0 <= k < |x| ==> x[k] == if k == m then ONE else ZERO
  }

  // FORWARD puts a tone into the bin of its own number, and into no other.
  lemma ForwardTone(cis: real -> Complex, p: nat, m: nat, x: seq<Complex>)
    requires IsCis(cis) && |x| == Pow2(p) && m < |x| && IsTone(cis, m, x)
    ensures forall j :: 0 <= j < |x| ==>
              Transform(cis, Forward, x)[j] == if j == m then Real(|x| as real) else ZERO
  {
    hide IsCis, Mul, Real;
    forall j | 0 <= j < |x|
      ensures Transform(cis, Forward, x)[j] == if j == m then Real(|x| as real) else ZERO
    {
      var n := |x|;
      var f := BlockTerms(cis, Forward, x, 1, 0, n, j);
      var g := k => Root(cis, Inverse, (m - j) * k, n);
      forall k | 0 <= k < n
        ensures f(k) == g(k)
      {
        ToneTerm(cis, m, j, k, n);
        assert At(x, 0 + 1 * k) == x[k] == cis((m * k) as real / n as real);
      }
      SumExt(f, g, n);
      DeltaSum(cis, m - j, p, g);
      SmallMultiple(m - j, n);
    }
  }

  // The analysing root turns against the tone.
  lemma ToneTerm(cis: real -> Complex, m: int, j: int, k: int, n: int)
    requires IsCis(cis) && n > 0
    ensures Mul(cis((m * k) as real / n as real), Root(cis, Forward, j * k, n)) == Root(cis, Inverse, (m - j) * k, n)
  {
    hide IsCis, Mul;
    RootConj(cis, Inverse, j * k, n);
    RootAdd(cis, Inverse, m * k, -(j * k), n);
    assert m * k + -(j * k) == (m - j) * k;
  }

  lemma ImpulseBin(cis: real -> Complex, dir: Direction, m: nat, x: seq<Complex>, j: int)
    requires IsCis(cis) && IsImpulse(m, x)
    ensures Bin(cis, dir, x, j) == Root(cis, dir, j * m, |x|)
  {
    hide IsCis, Mul, Root;
    var f := BlockTerms(cis, dir, x, 1, 0, |x|, j);
    forall k | 0 <= k < |x| && k != m
      ensures f(k) == ZERO
    {
      assert At(x, 0 + 1 * k) == ZERO;
      MulUnit(Root(cis, dir, j * k, |x|));
    }
    SumSingle(f, |x|, m);
    assert At(x, 0 + 1 * m) == ONE;
    MulUnit(Root(cis, dir, j * m, |x|));
  }

  // FORWARD makes of an impulse the tone that turns the other way, at every size.
  lemma ForwardImpulse(cis: real -> Complex, m: int, x: seq<Complex>)
    requires IsCis(cis) && 0 <= m && IsImpulse(m, x)
    ensures IsTone(cis, -m, Transform(cis, Forward, x))
  {
    hide IsCis, Bin;
    var n := |x|;
    forall j | 0 <= j < n
      ensures Transform(cis, Forward, x)[j] == cis((-m * j) as real / n as real)
    {
      ImpulseBin(cis, Forward, m, x, j);
      OtherWay(m, j);
    }
  }

  lemma OtherWay(m: int, j: int)
    ensures -(j * m) == -m * j && j * m == m * j
  {}

  // INVERSE makes of an impulse its tone, divided by the size.
  lemma InverseImpulse(cis: real -> Complex, m: nat, x: seq<Complex>)
    requires IsCis(cis) && IsImpulse(m, x)
    ensures forall k :: 0 <= k < |x| ==>
              Transform(cis, Inverse, x)[k] == Scale(1.0 / |x| as real, cis((m * k) as real / |x| as real))
  {
    hide IsCis, Bin, Scale;
    var n := |x|;
    forall k | 0 <= k < n
      ensures Transform(cis, Inverse, x)[k] == Scale(1.0 / n as real, cis((m * k) as real / n as real))
    {
      ImpulseBin(cis, Inverse, m, x, k);
      OtherWay(m, k);
    }
  }
}
