// What a second kernel leaves to be heard. SetKernel of src/dsp/jfft.cpp resizes the buffers of
// JFastFir but clears nothing, so what they kept comes out of the filter again.

module Echoes {
  import opened Complexes
  import opened Dft
  import opened Convolution

  // What `sigspace` and `remainder` hold when a kernel is set, resized.
  datatype Kept = Kept(signal: seq<Complex>, remainder: seq<Complex>)

  ghost predicate Fits(kept: Kept, taps: seq<Complex>, block: int) {
    1 <= |taps| && 0 <= |taps| - 1 <= block && |kept.remainder| == |taps| - 1 && |kept.signal| == block + |taps| - 1 && 1 <= block
  }

  // The kept values that lie where a block is padded with zeros.
  function Tail(kept: Kept, block: int): seq<Complex> {
    if 0 <= block <= |kept.signal| then kept.signal[block..] else []
  }

  // What is heard of it in the output number t: first the kept block as it is, then what its
  // tail wraps round to together with the kept remainder, then what the tail reaches directly.
  ghost function Echo(taps: seq<Complex>, kept: Kept, block: int, t: int): Complex {
    if 0 <= t < block then At(kept.signal, t)
    else if block <= t < block + |taps| - 1 then
      Add(Conv(taps, Tail(kept, block), t - block + |taps| - 1), At(kept.remainder, t - block))
    else if 2 * block <= t < 2 * block + |taps| - 1 then Conv(taps, Tail(kept, block), t - 2 * block)
    else ZERO
  }

  // ---- Silence -----------------------------------------------------------------

  predicate AllZero(x: seq<Complex>) {
    forall j :: 0 <= j < |x| ==> x[j] == ZERO
  }

  predicate IsSilent(kept: Kept) {
    AllZero(kept.signal) && AllZero(kept.remainder)
  }

  // Nothing is heard: the block is zero, and the tail convolved with the new taps cancels the
  // remainder and vanishes before it.
  ghost predicate IsQuiet(taps: seq<Complex>, kept: Kept, block: int)
    requires Fits(kept, taps, block)
  {
    && (forall j :: 0 <= j < block ==> kept.signal[j] == ZERO)
    && (forall k :: 0 <= k < |taps| - 1 ==> Conv(taps, Tail(kept, block), k) == ZERO)
    && forall k :: 0 <= k < |taps| - 1 ==> Add(Conv(taps, Tail(kept, block), k + |taps| - 1), kept.remainder[k]) == ZERO
  }

  // The exact condition, on every output there will ever be.
  lemma NoEchoIffQuiet(taps: seq<Complex>, kept: Kept, block: int)
    requires Fits(kept, taps, block)
    ensures (forall t: nat :: Echo(taps, kept, block, t) == ZERO) <==> IsQuiet(taps, kept, block)
  {
    hide Conv, Tail;
    if forall t: nat :: Echo(taps, kept, block, t) == ZERO {
      forall j | 0 <= j < block
        ensures kept.signal[j] == ZERO
      {
        assert Echo(taps, kept, block, j) == ZERO;
      }
      forall k | 0 <= k < |taps| - 1
        ensures Conv(taps, Tail(kept, block), k) == ZERO
        ensures Add(Conv(taps, Tail(kept, block), k + |taps| - 1), kept.remainder[k]) == ZERO
      {
        assert Echo(taps, kept, block, 2 * block + k) == ZERO;
        assert Echo(taps, kept, block, block + k) == ZERO;
      }
    }
    if IsQuiet(taps, kept, block) {
      forall t: nat
        ensures Echo(taps, kept, block, t) == ZERO
      {
        if block <= t < block + |taps| - 1 {
          QuietAt(taps, kept, block, t - block);
        } else if 2 * block <= t < 2 * block + |taps| - 1 {
          QuietAt(taps, kept, block, t - 2 * block);
        }
      }
    }
  }

  lemma QuietAt(taps: seq<Complex>, kept: Kept, block: int, k: nat)
    requires Fits(kept, taps, block) && IsQuiet(taps, kept, block) && k < |taps| - 1
    ensures Conv(taps, Tail(kept, block), k) == ZERO
    ensures Add(Conv(taps, Tail(kept, block), k + |taps| - 1), At(kept.remainder, k)) == ZERO
  {}

  lemma ZeroInput(taps: seq<Complex>, x: seq<Complex>, t: int)
    requires AllZero(x)
    ensures Conv(taps, x, t) == ZERO
  {
    assert x == Zeros(|x|);
    ConvOfZeros(taps, |x|, t);
  }

  // Kept zeros are never heard.
  lemma SilentIsQuiet(taps: seq<Complex>, kept: Kept, block: int)
    requires Fits(kept, taps, block) && IsSilent(kept)
    ensures IsQuiet(taps, kept, block)
  {
    hide Conv;
    forall k | 0 <= k < |taps| - 1
      ensures Conv(taps, Tail(kept, block), k) == ZERO
      ensures Add(Conv(taps, Tail(kept, block), k + |taps| - 1), kept.remainder[k]) == ZERO
    {
      ZeroInput(taps, Tail(kept, block), k);
      ZeroInput(taps, Tail(kept, block), k + |taps| - 1);
    }
  }

  lemma NoDivisors(a: Complex, b: Complex)
    requires Mul(a, b) == ZERO && a != ZERO
    ensures b == ZERO
  {
    hide Mul, Scale, Conj, Norm;
    PositiveNorm(a);
    TimesConjugate(a, b);
    MulUnit(Conj(a));
    assert Mul(Conj(a), Mul(a, b)) == ZERO;
    ScaledToZero(Norm(a), b);
  }

  function Norm(a: Complex): real {
    Square(a.re) + Square(a.im)
  }

  function Square(x: real): real {
    x * x
  }

  lemma ScaledToZero(n: real, b: Complex)
    requires n > 0.0 && Scale(n, b) == ZERO
    ensures b == ZERO
  {
    Cancel(n, b.re);
    Cancel(n, b.im);
  }

  lemma TimesConjugate(a: Complex, b: Complex)
    ensures Mul(Conj(a), Mul(a, b)) == Scale(Norm(a), b)
  {
    MulAssoc(Conj(a), a, b);
    var n := Norm(a);
    assert Mul(Conj(a), a) == Real(n);
    ScaleIsMul(n, b);
  }

  lemma PositiveNorm(a: Complex)
    requires a != ZERO
    ensures Norm(a) > 0.0
  {
    hide Square;
    SquareIsPositive(a.re);
    SquareIsPositive(a.im);
    assert a == Complex(a.re, a.im);
  }

  lemma SquareIsPositive(x: real)
    ensures x != 0.0 ==> Square(x) > 0.0
    ensures x == 0.0 ==> Square(x) == 0.0
  {
    if x != 0.0 {
      Quotient(x, Square(x));
    }
  }

  lemma Quotient(x: real, s: real)
    requires x != 0.0 && s == x * x
    ensures s / x == x
  {
    assert s / x * x == s;
  }

  lemma Cancel(n: real, x: real)
    requires n > 0.0 && n * x == 0.0
    ensures x == 0.0
  {}

  // Output k of a stretch that starts with k zeros is the first tap times sample k.
  lemma FirstSample(taps: seq<Complex>, x: seq<Complex>, k: nat)
    requires 1 <= |taps| && k < |x| && forall i :: 0 <= i < k ==> x[i] == ZERO
    ensures Conv(taps, x, k) == Mul(x[k], taps[0])
  {
    hide Mul;
    var f := ConvTerms(taps, x, k);
    forall i | 0 <= i < |x| && i != k
      ensures f(i) == ZERO
    {
      MulUnit(At(taps, k - i));
      MulUnit(At(x, i));
    }
    SumSingle(f, |x|, k);
  }

  lemma {:induction false} TailIsZero(taps: seq<Complex>, x: seq<Complex>, n: nat)
    requires 1 <= |taps| && taps[0] != ZERO && n <= |x|
    requires forall k :: 0 <= k < n ==> Conv(taps, x, k) == ZERO
    ensures forall k :: 0 <= k < n ==> x[k] == ZERO
  {
    hide Conv, Mul;
    if n > 0 {
      TailIsZero(taps, x, n - 1);
      FirstSample(taps, x, n - 1);
      MulComm(x[n - 1], taps[0]);
      NoDivisors(taps[0], x[n - 1]);
    }
  }

  // With a first tap that is not zero only kept zeros are quiet.
  lemma QuietIsSilent(taps: seq<Complex>, kept: Kept, block: int)
    requires Fits(kept, taps, block) && taps[0] != ZERO && IsQuiet(taps, kept, block)
    ensures IsSilent(kept)
  {
    hide Conv;
    var tail := Tail(kept, block);
    TailIsZero(taps, tail, |tail|);
    forall j | 0 <= j < |kept.signal|
      ensures kept.signal[j] == ZERO
    {
      assert j >= block ==> tail[j - block] == kept.signal[j];
    }
    forall k | 0 <= k < |kept.remainder|
      ensures kept.remainder[k] == ZERO
    {
      ZeroInput(taps, tail, k + |taps| - 1);
      AddLaws(ZERO, kept.remainder[k], ZERO);
    }
  }

  // With all taps zero the tail is never heard, whatever it holds.
  lemma QuietZeroTaps(taps: seq<Complex>, kept: Kept, block: int)
    requires Fits(kept, taps, block) && AllZero(taps)
    ensures IsQuiet(taps, kept, block) <==> AllZero(kept.signal[..block]) && AllZero(kept.remainder)
  {
    hide Conv;
    forall t
      ensures Conv(taps, Tail(kept, block), t) == ZERO
    {
      ConvOverTaps(taps, Tail(kept, block), t);
      ZeroInput(Tail(kept, block), taps, t);
    }
    assert forall j :: 0 <= j < block ==> kept.signal[..block][j] == kept.signal[j];
    forall k | 0 <= k < |kept.remainder|
      ensures Add(ZERO, kept.remainder[k]) == kept.remainder[k]
    {
      AddLaws(ZERO, kept.remainder[k], ZERO);
    }
    if IsQuiet(taps, kept, block) {
      forall j | 0 <= j < block
        ensures kept.signal[..block][j] == ZERO
      {
        assert kept.signal[j] == ZERO;
      }
    }
  }
}
