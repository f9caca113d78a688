// Direct linear convolution, the reference for every filter here.

module Convolution {
  import opened Complexes
  import opened Dft
  import opened Inversion

  // x[k] * taps[t - k]
  ghost function ConvTerms(taps: seq<Complex>, x: seq<Complex>, t: int): int -> Complex {
    k => Mul(At(x, k), At(taps, t - k))
  }

  // The linear convolution of the taps with x, at time t; zero samples before the stream.
  ghost function Conv(taps: seq<Complex>, x: seq<Complex>, t: int): Complex {
    Sum(ConvTerms(taps, x, t), |x|)
  }

  // A stretch of input reaches no output before it starts or |taps| after it ends.
  lemma ConvOutside(taps: seq<Complex>, x: seq<Complex>, t: int)
    requires t < 0 || t >= |x| + |taps| - 1
    ensures Conv(taps, x, t) == ZERO
  {
    forall k | 0 <= k < |x|
      ensures ConvTerms(taps, x, t)(k) == ZERO
    {
      MulUnit(At(x, k));
    }
    SumZero(ConvTerms(taps, x, t), |x|);
  }

  // Convolution is additive in consecutive stretches of input.
  lemma ConvSplit(taps: seq<Complex>, x: seq<Complex>, y: seq<Complex>, t: int)
    ensures Conv(taps, x + y, t) == Add(Conv(taps, x, t), Conv(taps, y, t - |x|))
  {
    hide Mul;
    var f, g := ConvTerms(taps, x + y, t), ConvTerms(taps, y, t - |x|);
    forall k | 0 <= k < |y|
      ensures g(k) == f(|x| + k)
    {
      assert At(x + y, |x| + k) == At(y, k);
    }
    SumSplit(f, g, |x|, |y|);
    SumExt(f, ConvTerms(taps, x, t), |x|);
  }

  // Later input does not reach back.
  lemma ConvCausal(taps: seq<Complex>, x: seq<Complex>, s: nat, t: int)
    requires s <= |x| && t < s
    ensures Conv(taps, x, t) == Conv(taps, x[..s], t)
  {
    assert x == x[..s] + x[s..];
    ConvSplit(taps, x[..s], x[s..], t);
    ConvOutside(taps, x[s..], t - s);
    AddLaws(Conv(taps, x[..s], t), ZERO, ZERO);
  }

  function Zeros(n: nat): (z: seq<Complex>)
    ensures |z| == n
  {
    seq(n, _ => ZERO)
  }

  // Behind the block x the tail still wraps round: it reaches the last places directly and the
  // first ones from the end.
  ghost function Wrapped(taps: seq<Complex>, tail: seq<Complex>, block: int, m: int): Complex {
    Add(Conv(taps, tail, m - block), Conv(taps, tail, m + |taps| - 1))
  }

  lemma BlockTerm(taps: seq<Complex>, x: seq<Complex>, tail: seq<Complex>, m: nat, k: nat)
    requires 1 <= |taps| == |tail| + 1 && m < |x| + |tail| && k < |x|
    ensures CyclicTerms(x + tail, taps + Zeros(|x| - 1), m)(k) == ConvTerms(taps, x, m)(k)
  {
    hide Mul;
    RotateIndex(m, k, |x| + |tail|);
    assert At(taps + Zeros(|x| - 1), (m - k) % (|x| + |tail|)) == At(taps, m - k);
  }

  lemma TailTerm(taps: seq<Complex>, x: seq<Complex>, tail: seq<Complex>, m: nat, i: nat)
    requires 1 <= |taps| == |tail| + 1 && m < |x| + |tail| && 1 <= |x| && i < |tail|
    ensures CyclicTerms(x + tail, taps + Zeros(|x| - 1), m)(|x| + i)
         == Add(ConvTerms(taps, tail, m - |x|)(i), ConvTerms(taps, tail, m + |taps| - 1)(i))
  {
    hide Mul;
    var size, direct, wrapped := |x| + |tail|, m - |x| - i, m + |taps| - 1 - i;
    RotateIndex(m, |x| + i, size);
    MulUnit(tail[i]);
    AddLaws(Mul(tail[i], At(taps, direct)), ZERO, ZERO);
    AddLaws(Mul(tail[i], At(taps, wrapped)), ZERO, ZERO);
    if direct < 0 {
      assert At(taps + Zeros(|x| - 1), wrapped) == At(taps, wrapped);
    } else {
      assert At(taps + Zeros(|x| - 1), direct) == At(taps, direct);
    }
  }

  // Cyclic convolution is the linear one folded at the size.
  lemma CyclicFolds(taps: seq<Complex>, x: seq<Complex>, tail: seq<Complex>, m: nat)
    requires 1 <= |taps| == |tail| + 1 && m < |x| + |tail| && 1 <= |x|
    ensures Cyclic(x + tail, taps + Zeros(|x| - 1), m) == Add(Conv(taps, x, m), Wrapped(taps, tail, |x|, m))
  {
    hide Mul, Add, CyclicTerms, ConvTerms;
    var f := CyclicTerms(x + tail, taps + Zeros(|x| - 1), m);
    var rest := i => f(|x| + i);
    var direct, wrapped := ConvTerms(taps, tail, m - |x|), ConvTerms(taps, tail, m + |taps| - 1);
    forall k | 0 <= k < |x|
      ensures f(k) == ConvTerms(taps, x, m)(k)
    {
      BlockTerm(taps, x, tail, m, k);
    }
    SumExt(f, ConvTerms(taps, x, m), |x|);
    forall i | 0 <= i < |tail|
      ensures rest(i) == Add(direct(i), wrapped(i))
    {
      TailTerm(taps, x, tail, m, i);
    }
    SumAdd(direct, wrapped, rest, |tail|);
    SumSplit(f, rest, |x|, |tail|);
  }

  lemma ConvOfZeros(taps: seq<Complex>, n: nat, t: int)
    ensures Conv(taps, Zeros(n), t) == ZERO
  {
    forall k | 0 <= k < n
      ensures ConvTerms(taps, Zeros(n), t)(k) == ZERO
    {
      MulUnit(At(taps, t - k));
    }
    SumZero(ConvTerms(taps, Zeros(n), t), n);
  }

  // With enough zeros behind both, cyclic convolution does not wrap round.
  lemma CyclicIsLinear(taps: seq<Complex>, x: seq<Complex>, m: nat)
    requires 1 <= |taps| && 1 <= |x| && m < |x| + |taps| - 1
    ensures Cyclic(x + Zeros(|taps| - 1), taps + Zeros(|x| - 1), m) == Conv(taps, x, m)
  {
    hide Conv, Cyclic, Wrapped, Add, Zeros;
    CyclicFolds(taps, x, Zeros(|taps| - 1), m);
    WrappedZeros(taps, |taps| - 1, |x|, m);
    AddLaws(Conv(taps, x, m), ZERO, ZERO);
  }

  lemma WrappedZeros(taps: seq<Complex>, n: nat, block: int, m: int)
    ensures Wrapped(taps, Zeros(n), block, m) == ZERO
  {
    hide Conv, Zeros;
    ConvOfZeros(taps, n, m - block);
    ConvOfZeros(taps, n, m + |taps| - 1);
  }

  // The same sum taken over the taps instead of over the input.
  lemma {:induction false} ConvOverTaps(taps: seq<Complex>, x: seq<Complex>, t: int)
    ensures Conv(taps, x, t) == Conv(x, taps, t)
    decreases |x|
  {
    hide Mul;
    if x == [] {
      assert Conv(taps, [], t) == ZERO;
      forall k | 0 <= k < |taps|
        ensures ConvTerms([], taps, t)(k) == ZERO
      {
        MulUnit(At(taps, k));
      }
      SumZero(ConvTerms([], taps, t), |taps|);
    } else {
      var last := |x| - 1;
      assert x == x[..last] + [x[last]];
      ConvOverTaps(taps, x[..last], t);
      ConvSplit(taps, x[..last], [x[last]], t);
      ConvAppendTap(x[..last], x[last], taps, t);
      ConvOne(taps, x[last], t - last);
    }
  }

  lemma ConvOne(taps: seq<Complex>, v: Complex, t: int)
    ensures Conv(taps, [v], t) == Mul(v, At(taps, t))
  {
    hide Mul;
    var f := ConvTerms(taps, [v], t);
    assert Sum(f, 1) == Add(Sum(f, 0), f(0));
    assert f(0) == Mul(At([v], 0), At(taps, t - 0));
    AddLaws(ZERO, f(0), ZERO);
  }

  lemma AppendedTap(taps: seq<Complex>, v: Complex, x: seq<Complex>, t: int, k: int)
    ensures k != t - |taps| ==> ConvTerms(taps + [v], x, t)(k) == ConvTerms(taps, x, t)(k)
    ensures k == t - |taps| ==>
              ConvTerms(taps + [v], x, t)(k) == Mul(v, At(x, k)) && ConvTerms(taps, x, t)(k) == ZERO
  {
    hide Mul;
    if k == t - |taps| {
      assert At(taps + [v], t - k) == v && At(taps, t - k) == ZERO;
      MulUnit(At(x, k));
      MulComm(At(x, k), v);
    } else {
      assert At(taps + [v], t - k) == At(taps, t - k);
    }
  }

  lemma ConvAppendTap(taps: seq<Complex>, v: Complex, x: seq<Complex>, t: int)
    ensures Conv(taps + [v], x, t) == Add(Conv(taps, x, t), Mul(v, At(x, t - |taps|)))
  {
    hide Mul, Add;
    var f, g := ConvTerms(taps, x, t), ConvTerms(taps + [v], x, t);
    var k0 := t - |taps|;
    var h := k => if k == k0 then Mul(v, At(x, k0)) else ZERO;
    forall k | 0 <= k < |x|
      ensures g(k) == Add(f(k), h(k))
    {
      AppendedTap(taps, v, x, t, k);
      AddLaws(f(k), ZERO, ZERO);
      AddLaws(h(k), ZERO, ZERO);
    }
    SumAdd(f, h, g, |x|);
    if 0 <= k0 < |x| {
      SumSingle(h, |x|, k0);
    } else {
      SumZero(h, |x|);
      MulUnit(v);
    }
  }
}
