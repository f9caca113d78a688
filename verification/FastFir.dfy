// The overlap-add filter JFastFir of src/dsp/jfft.cpp: a state machine fed one sample or one
// block at a time, against direct convolution with the whole input stream.

module FastFir {
  import opened Complexes
  import opened PowersOfTwo
  import opened Roots
  import opened Dft
  import opened Inversion
  import opened Jfft
  import opened RealDft
  import opened Convolution
  import opened Echoes

  // What the buffers hold when the taps, the samples received since and what was kept from
  // before are given: the current block of input, behind it the outputs not yet handed out,
  // then zeros; and in `remainder` the part of the response that reaches past the blocks
  // already transformed.
  ghost predicate IsCore(cis: real -> Complex, taps: seq<Complex>, kept: Kept, history: seq<Complex>, nfft: nat,
                         kernel: seq<Complex>, sigspace: seq<Complex>, remainder: seq<Complex>, ptr: int)
  {
    var block := nfft + 1 - |taps|;
    && Fits(kept, taps, block)
    && 2 <= nfft <= MaxSize() && nfft == Pow2(CeilLog2(nfft))
    && kernel == Transform(cis, Forward, taps + Zeros(nfft - |taps|))
    && |sigspace| == nfft && |remainder| == |taps| - 1
    && 0 <= ptr <= block && ptr <= |history|
    && var start := |history| - ptr;
       && start % block == 0
       && IsBuffer(taps, kept, history, start, block, sigspace)
       && IsRemainder(taps, kept, history[..start], block, remainder)
  }

  // Between calls a full block waits for the next sample before it is transformed.
  ghost predicate IsState(cis: real -> Complex, taps: seq<Complex>, kept: Kept, history: seq<Complex>, nfft: nat,
                          kernel: seq<Complex>, sigspace: seq<Complex>, remainder: seq<Complex>, ptr: int)
  {
    && IsCore(cis, taps, kept, history, nfft, kernel, sigspace, remainder, ptr)
    && (history != [] ==> ptr >= 1)
  }

  // Output number t: the convolution one block late, and what is still heard from before.
  ghost function OutputAt(taps: seq<Complex>, kept: Kept, history: seq<Complex>, block: nat, t: int): Complex {
    Add(Conv(taps, history, t - block), Echo(taps, kept, block, t))
  }

  ghost predicate IsBuffer(taps: seq<Complex>, kept: Kept, history: seq<Complex>, start: nat, block: nat, sigspace: seq<Complex>)
    requires start <= |history|
  {
    forall j :: 0 <= j < |sigspace| ==> sigspace[j] == BufferAt(taps, kept, history, start, block, j)
  }

  ghost function BufferAt(taps: seq<Complex>, kept: Kept, history: seq<Complex>, start: nat, block: nat, j: nat): Complex
    requires start <= |history|
  {
    if j < |history| - start then history[start + j]
    else if j < block then OutputAt(taps, kept, history[..start], block, start + j)
    else if start == 0 then At(kept.signal, j)
    else ZERO
  }

  ghost predicate IsRemainder(taps: seq<Complex>, kept: Kept, past: seq<Complex>, block: nat, remainder: seq<Complex>) {
    forall k :: 0 <= k < |remainder| ==> remainder[k] == RemainderAt(taps, kept, past, block, k)
  }

  ghost function RemainderAt(taps: seq<Complex>, kept: Kept, past: seq<Complex>, block: nat, k: nat): Complex {
    if past == [] then At(kept.remainder, k) else OutputAt(taps, kept, past, block, |past| + block + k)
  }

  // The whole state is a function of the taps, of the samples and of what was kept: it does not
  // depend on which entry point received the samples, or in which pieces.
  lemma StateIsDetermined(cis: real -> Complex, taps: seq<Complex>, kept: Kept, history: seq<Complex>, nfft: nat,
                          kernel: seq<Complex>, sigspace: seq<Complex>, remainder: seq<Complex>, ptr: int,
                          kernel': seq<Complex>, sigspace': seq<Complex>, remainder': seq<Complex>, ptr': int)
    requires IsState(cis, taps, kept, history, nfft, kernel, sigspace, remainder, ptr)
    requires IsState(cis, taps, kept, history, nfft, kernel', sigspace', remainder', ptr')
    ensures kernel == kernel' && sigspace == sigspace' && remainder == remainder' && ptr == ptr'
  {
    hide OutputAt, Transform;
    var block := nfft + 1 - |taps|;
    if history != [] {
      LastOfBlock(|history|, block, ptr);
      LastOfBlock(|history|, block, ptr');
    }
    assert sigspace == sigspace';
    assert remainder == remainder';
  }

  lemma LastOfBlock(length: nat, block: int, ptr: int)
    requires 1 <= ptr <= block && ptr <= length && (length - ptr) % block == 0
    ensures ptr == (length - 1) % block + 1
  {
    var start := length - ptr;
    assert start == start / block * block;
    DivModUnique(length - 1, block, start / block, ptr - 1);
  }

  // ---- One block through the transform -------------------------------------------------

  // What the loops of the overlap step leave, whichever way they are written.
  function OverlapAt(block: nat, product: seq<Complex>, remainder: seq<Complex>, j: nat): Complex
    requires j < |product|
  {
    if j < |remainder| then Add(product[j], remainder[j]) else if j < block then product[j] else ZERO
  }

  ghost predicate IsOverlapped(block: nat, product: seq<Complex>, remainder: seq<Complex>,
                               sigspace': seq<Complex>, remainder': seq<Complex>)
  {
    && |sigspace'| == |product| == block + |remainder| && |remainder'| == |remainder| <= block
    && (forall j :: 0 <= j < |product| ==> sigspace'[j] == OverlapAt(block, product, remainder, j))
    && forall k :: 0 <= k < |remainder| ==> remainder'[k] == product[block + k]
  }

  // The same after the first k places.
  ghost predicate PartOverlapped(block: nat, product: seq<Complex>, before: seq<Complex>,
                                 sigspace: seq<Complex>, remainder: seq<Complex>, k: nat)
  {
    && |sigspace| == |product| == block + |before| && |remainder| == |before| && k <= |before| <= block
    && (forall j :: 0 <= j < |product| ==> sigspace[j] == PartAt(block, product, before, k, j))
    && forall j :: 0 <= j < |before| ==> remainder[j] == if j < k then product[block + j] else before[j]
  }

  function PartAt(block: nat, product: seq<Complex>, before: seq<Complex>, k: nat, j: nat): Complex
    requires j < |product| && k <= |before|
  {
    if j < k then Add(product[j], before[j]) else if block <= j < block + k then ZERO else product[j]
  }

  lemma NotOverlapped(block: nat, product: seq<Complex>, remainder: seq<Complex>)
    requires |product| == block + |remainder| && |remainder| <= block
    ensures PartOverlapped(block, product, remainder, product, remainder, 0)
  {}

  lemma OverlapStep(block: nat, product: seq<Complex>, before: seq<Complex>, sigspace: seq<Complex>, remainder: seq<Complex>, k: nat)
    requires PartOverlapped(block, product, before, sigspace, remainder, k) && k < |before|
    ensures block + k < |sigspace|
    ensures var added := sigspace[k := Add(sigspace[k], remainder[k])];
      PartOverlapped(block, product, before, added[block + k := ZERO], remainder[k := added[block + k]], k + 1)
  {
    hide Add;
    assert sigspace[k] == PartAt(block, product, before, k, k) && sigspace[block + k] == PartAt(block, product, before, k, block + k);
  }

  lemma AllOverlapped(block: nat, product: seq<Complex>, before: seq<Complex>, sigspace: seq<Complex>, remainder: seq<Complex>)
    requires PartOverlapped(block, product, before, sigspace, remainder, |before|)
    ensures IsOverlapped(block, product, before, sigspace, remainder)
  {
    hide Add;
  }

  // What multiplying the spectra gives: the cyclic convolution with the padded taps.
  ghost predicate IsProduct(taps: seq<Complex>, sigspace: seq<Complex>, product: seq<Complex>) {
    && 1 <= |taps| <= |sigspace| == |product|
    && forall m :: 0 <= m < |product| ==> product[m] == Cyclic(sigspace, taps + Zeros(|sigspace| - |taps|), m)
  }

  lemma ProductIsCyclic(cis: real -> Complex, taps: seq<Complex>, nfft: nat, kernel: seq<Complex>, sigspace: seq<Complex>,
                        product: seq<Complex>)
    requires IsCis(cis) && 1 <= |taps| <= nfft == |sigspace| && nfft == Pow2(CeilLog2(nfft))
    requires kernel == Transform(cis, Forward, taps + Zeros(nfft - |taps|))
    requires product == Transform(cis, Inverse, PointwiseProduct(Transform(cis, Forward, sigspace), kernel))
    ensures IsProduct(taps, sigspace, product)
  {
    hide IsCis, Cyclic;
    FastConvolution(cis, sigspace, taps + Zeros(nfft - |taps|), CeilLog2(nfft));
  }

  // The part of a full buffer that lies behind the block: kept before the first flush, then zero.
  ghost function Padding(taps: seq<Complex>, kept: Kept, block: nat, start: nat): (tail: seq<Complex>)
    requires Fits(kept, taps, block)
    ensures |tail| == |taps| - 1
  {
    if start == 0 then Tail(kept, block) else Zeros(|taps| - 1)
  }

  lemma FullBuffer(taps: seq<Complex>, kept: Kept, history: seq<Complex>, block: nat, sigspace: seq<Complex>)
    requires Fits(kept, taps, block) && block <= |history| && |sigspace| == |kept.signal|
    requires IsBuffer(taps, kept, history, |history| - block, block, sigspace)
    ensures sigspace == history[|history| - block..] + Padding(taps, kept, block, |history| - block)
  {
    hide OutputAt;
    var start := |history| - block;
    var full := history[start..] + Padding(taps, kept, block, start);
    forall j | 0 <= j < |sigspace|
      ensures sigspace[j] == full[j]
    {
      assert sigspace[j] == BufferAt(taps, kept, history, start, block, j);
    }
  }

  // What the tail and the remainder of one block add to the next two is the echo.
  lemma TailIsHeard(taps: seq<Complex>, kept: Kept, block: nat, start: nat, m: nat)
    requires Fits(kept, taps, block) && (start == 0 || start >= block) && m < block + |taps| - 1
    ensures var w := Wrapped(taps, Padding(taps, kept, block, start), block, m);
      && (start == 0 && m < |taps| - 1 ==> Add(w, At(kept.remainder, m)) == Echo(taps, kept, block, block + m))
      && (start > 0 && m < |taps| - 1 ==> w == ZERO)
      && (|taps| - 1 <= m < block ==> w == ZERO == Echo(taps, kept, block, start + block + m))
      && (m >= block ==> w == Echo(taps, kept, block, start + block + m))
  {
    hide Conv;
    if start == 0 {
      var tail := Tail(kept, block);
      if m < block {
        ConvOutside(taps, tail, m - block);
        AddLaws(Conv(taps, tail, m + |taps| - 1), ZERO, ZERO);
      }
      if m >= |taps| - 1 {
        ConvOutside(taps, tail, m + |taps| - 1);
        AddLaws(Conv(taps, tail, m - block), ZERO, ZERO);
      }
    } else {
      WrappedZeros(taps, |taps| - 1, block, m);
    }
  }

  lemma Regroup(a: Complex, b: Complex, c: Complex, d: Complex)
    ensures Add(Add(a, b), Add(c, d)) == Add(Add(c, a), Add(b, d))
    ensures Add(Add(a, b), c) == Add(a, Add(b, c))
    ensures Add(a, ZERO) == a == Add(ZERO, a)
  {}

  lemma ConvNothing(taps: seq<Complex>, t: int)
    ensures Conv(taps, [], t) == ZERO
  {}

  // Slot j of a flushed buffer is the output that is due next.
  lemma FlushedSlot(taps: seq<Complex>, kept: Kept, past: seq<Complex>, x: seq<Complex>, product: seq<Complex>,
                    remainder: seq<Complex>, j: nat)
    requires 1 <= |x| && Fits(kept, taps, |x|) && |past| % |x| == 0 && |remainder| == |taps| - 1
    requires |product| == |x| + |taps| - 1 && j < |product|
    requires product[j] == Add(Conv(taps, x, j), Wrapped(taps, Padding(taps, kept, |x|, |past|), |x|, j))
    requires IsRemainder(taps, kept, past, |x|, remainder)
    ensures OverlapAt(|x|, product, remainder, j) == BufferAt(taps, kept, past + x, |past| + |x|, |x|, j)
  {
    hide Conv, Add, Echo, Wrapped, Padding;
    var block, all := |x|, past + x;
    WholeBlocks(|past|, block);
    assert all[..|all|] == all;
    if j < block {
      TailIsHeard(taps, kept, block, |past|, j);
      ConvSplit(taps, past, x, |past| + j);
      var w, e := Wrapped(taps, Padding(taps, kept, block, |past|), block, j), Echo(taps, kept, block, |past| + block + j);
      var cp, cx := Conv(taps, past, |past| + j), Conv(taps, x, j);
      if j < |remainder| {
        assert remainder[j] == RemainderAt(taps, kept, past, block, j);
        if past == [] {
          ConvNothing(taps, j);
          Regroup(cx, w, At(kept.remainder, j), ZERO);
          Regroup(cx, ZERO, ZERO, ZERO);
        } else {
          Regroup(cx, w, cp, e);
          Regroup(e, ZERO, ZERO, ZERO);
        }
      } else {
        ConvOutside(taps, past, |past| + j);
        Regroup(cx, ZERO, ZERO, ZERO);
      }
    }
  }

  // What lies behind the block is what the next flush has to add.
  lemma FlushedRemainder(taps: seq<Complex>, kept: Kept, past: seq<Complex>, x: seq<Complex>, product: seq<Complex>, k: nat)
    requires 1 <= |x| && Fits(kept, taps, |x|) && |past| % |x| == 0 && k < |taps| - 1
    requires |product| == |x| + |taps| - 1
    requires product[|x| + k] == Add(Conv(taps, x, |x| + k), Wrapped(taps, Padding(taps, kept, |x|, |past|), |x|, |x| + k))
    ensures product[|x| + k] == RemainderAt(taps, kept, past + x, |x|, k)
  {
    hide Conv, Add, Echo, Wrapped, Padding;
    WholeBlocks(|past|, |x|);
    TailIsHeard(taps, kept, |x|, |past|, |x| + k);
    ConvSplit(taps, past, x, |past| + |x| + k);
    ConvOutside(taps, past, |past| + |x| + k);
    Regroup(Conv(taps, x, |x| + k), ZERO, ZERO, ZERO);
  }

  lemma WholeBlocks(start: nat, block: nat)
    requires block >= 1 && start % block == 0
    ensures start == 0 || start >= block
  {}

  // A full buffer, transformed and overlapped, is the buffer of the outputs that are due next.
  lemma OverlapMeansConvolution(taps: seq<Complex>, kept: Kept, past: seq<Complex>, x: seq<Complex>, product: seq<Complex>,
                                remainder: seq<Complex>, sigspace': seq<Complex>, remainder': seq<Complex>)
    requires 1 <= |x| && Fits(kept, taps, |x|) && |past| % |x| == 0 && |remainder| == |taps| - 1
    requires IsProduct(taps, x + Padding(taps, kept, |x|, |past|), product)
    requires IsRemainder(taps, kept, past, |x|, remainder)
    requires IsOverlapped(|x|, product, remainder, sigspace', remainder')
    ensures IsBuffer(taps, kept, past + x, |past| + |x|, |x|, sigspace')
    ensures IsRemainder(taps, kept, past + x, |x|, remainder')
  {
    hide Conv, Add, Wrapped, Padding, OverlapAt, BufferAt, RemainderAt, Cyclic;
    var tail := Padding(taps, kept, |x|, |past|);
    forall m | 0 <= m < |product|
      ensures product[m] == Add(Conv(taps, x, m), Wrapped(taps, tail, |x|, m))
    {
      CyclicFolds(taps, x, tail, m);
    }
    forall j | 0 <= j < |product|
      ensures sigspace'[j] == BufferAt(taps, kept, past + x, |past| + |x|, |x|, j)
    {
      FlushedSlot(taps, kept, past, x, product, remainder, j);
    }
    forall k | 0 <= k < |remainder'|
      ensures remainder'[k] == RemainderAt(taps, kept, past + x, |x|, k)
    {
      FlushedRemainder(taps, kept, past, x, product, k);
    }
  }

  lemma FlushMeansConvolution(cis: real -> Complex, taps: seq<Complex>, kept: Kept, history: seq<Complex>, nfft: nat,
                              kernel: seq<Complex>, sigspace: seq<Complex>, remainder: seq<Complex>,
                              product: seq<Complex>, sigspace': seq<Complex>, remainder': seq<Complex>)
    requires 1 <= |taps| <= nfft
    requires IsCore(cis, taps, kept, history, nfft, kernel, sigspace, remainder, nfft + 1 - |taps|)
    requires IsProduct(taps, sigspace, product)
    requires IsOverlapped(nfft + 1 - |taps|, product, remainder, sigspace', remainder')
    ensures IsCore(cis, taps, kept, history, nfft, kernel, sigspace', remainder', 0)
  {
    hide Transform, IsBuffer, IsRemainder, IsProduct, IsOverlapped, Pow2, CeilLog2, MaxSize;
    var block := nfft + 1 - |taps|;
    var past, x := history[..|history| - block], history[|history| - block..];
    assert history == past + x && |past| == |history| - block;
    FlushBuffers(taps, kept, past, x, sigspace, remainder, product, sigspace', remainder');
    NextBlock(|history|, block);
    assert history[..|history| - 0] == history;
  }

  lemma FlushBuffers(taps: seq<Complex>, kept: Kept, past: seq<Complex>, x: seq<Complex>, sigspace: seq<Complex>,
                     remainder: seq<Complex>, product: seq<Complex>, sigspace': seq<Complex>, remainder': seq<Complex>)
    requires 1 <= |x| && Fits(kept, taps, |x|) && |past| % |x| == 0
    requires |sigspace| == |kept.signal| && |remainder| == |taps| - 1
    requires IsBuffer(taps, kept, past + x, |past|, |x|, sigspace) && IsRemainder(taps, kept, past, |x|, remainder)
    requires IsProduct(taps, sigspace, product) && IsOverlapped(|x|, product, remainder, sigspace', remainder')
    ensures |sigspace'| == |sigspace| && |remainder'| == |remainder|
    ensures IsBuffer(taps, kept, past + x, |past| + |x|, |x|, sigspace')
    ensures IsRemainder(taps, kept, past + x, |x|, remainder')
  {
    assert |sigspace'| == |sigspace| && |remainder'| == |remainder|;
    hide Conv, IsBuffer, IsRemainder, IsProduct, IsOverlapped, Padding;
    FullBuffer(taps, kept, past + x, |x|, sigspace);
    assert (past + x)[|past|..] == x;
    OverlapMeansConvolution(taps, kept, past, x, product, remainder, sigspace', remainder');
  }

  lemma NextBlock(length: nat, block: int)
    requires 0 < block <= length && (length - block) % block == 0
    ensures length % block == 0
  {
    var q := (length - block) / block;
    assert length - block == q * block;
    DivModUnique(length, block, q + 1, 0);
  }

  // A run of samples that ends no later than the block takes the places of as many outputs.
  lemma RunStep(cis: real -> Complex, taps: seq<Complex>, kept: Kept, history: seq<Complex>, nfft: nat,
                kernel: seq<Complex>, sigspace: seq<Complex>, remainder: seq<Complex>, ptr: int, run: seq<Complex>)
    requires IsCore(cis, taps, kept, history, nfft, kernel, sigspace, remainder, ptr)
    requires 1 <= |run| && ptr + |run| <= nfft + 1 - |taps| <= nfft
    ensures IsState(cis, taps, kept, history + run, nfft, kernel,
                    sigspace[..ptr] + run + sigspace[ptr + |run|..], remainder, ptr + |run|)
    ensures forall j :: ptr <= j < ptr + |run| ==>
              sigspace[j] == OutputAt(taps, kept, history + run, nfft + 1 - |taps|, |history| + j - ptr)
  {
    hide Conv, Transform, IsRemainder, Echo, Add;
    var block := nfft + 1 - |taps|;
    var start := |history| - ptr;
    var all := history + run;
    var after := sigspace[..ptr] + run + sigspace[ptr + |run|..];
    assert all[..start] == history[..start];
    forall j | 0 <= j < nfft
      ensures after[j] == BufferAt(taps, kept, all, start, block, j)
    {
      assert sigspace[j] == BufferAt(taps, kept, history, start, block, j);
    }
    forall j | ptr <= j < ptr + |run|
      ensures sigspace[j] == OutputAt(taps, kept, all, block, |history| + j - ptr)
    {
      assert sigspace[j] == BufferAt(taps, kept, history, start, block, j);
      ConvCausal(taps, all, start, |history| + j - ptr - block);
    }
  }

  lemma OutputIsCausal(taps: seq<Complex>, kept: Kept, x: seq<Complex>, s: nat, block: nat, t: int)
    requires s <= |x| && t - block < s
    ensures OutputAt(taps, kept, x, block, t) == OutputAt(taps, kept, x[..s], block, t)
  {
    hide Conv;
    ConvCausal(taps, x, s, t - block);
  }

  // ---- Real signals ----------------------------------------------------------------------

  ghost predicate IsReal(x: seq<Complex>) {
    forall i :: 0 <= i < |x| ==> x[i].im == 0.0
  }

  lemma CyclicOfReals(x: seq<real>, b: seq<Complex>, m: int)
    requires |b| > 0 && IsReal(b)
    ensures Cyclic(Lift(x), b, m).im == 0.0
  {
    SumOfReals(CyclicTerms(Lift(x), b, m), |x|);
  }

  lemma {:induction false} SumOfReals(f: int -> Complex, n: nat)
    requires forall i :: 0 <= i < n ==> f(i).im == 0.0
    ensures Sum(f, n).im == 0.0
  {
    if n > 0 {
      SumOfReals(f, n - 1);
    }
  }

  // Multiplying bins 0 to nfft / 2 is enough when signal and taps are real.
  lemma RealProduct(cis: real -> Complex, taps: seq<Complex>, nfft: nat, kernel: seq<Complex>, sigspace: seq<real>,
                    bins: seq<Complex>) returns (y: seq<real>)
    requires IsCis(cis) && IsReal(taps) && 1 <= |taps| <= nfft == |sigspace| == |bins|
    requires kernel == Transform(cis, Forward, taps + Zeros(nfft - |taps|))
    requires forall k :: 0 <= k <= nfft / 2 && k < nfft ==> bins[k] == Mul(Bin(cis, Forward, Lift(sigspace), k), kernel[k])
    ensures |y| == nfft && HasBins(cis, y, bins) && IsProduct(taps, Lift(sigspace), Lift(y))
  {
    hide IsCis, Cyclic, Mul, Bin;
    var padded := taps + Zeros(nfft - |taps|);
    y := seq(nfft, m => Cyclic(Lift(sigspace), padded, m).re);
    forall m | 0 <= m < nfft
      ensures Lift(y)[m] == Cyclic(Lift(sigspace), padded, m)
    {
      CyclicOfReals(sigspace, padded, m);
    }
    forall k | 0 <= k <= nfft / 2 && k < nfft
      ensures bins[k] == Bin(cis, Forward, Lift(y), k)
    {
      SpectrumOfCyclic(cis, Lift(sigspace), padded, Lift(y), k);
      assert kernel[k] == Bin(cis, Forward, padded, k);
    }
  }

  // ---- A second kernel -------------------------------------------------------------------

  // On outputs, for every stream and every time: the filter computes the new convolution and
  // nothing else exactly when what was kept is quiet.
  lemma PlainIffQuiet(taps: seq<Complex>, kept: Kept, block: nat)
    requires Fits(kept, taps, block)
    ensures (forall history: seq<Complex>, t: nat {:trigger OutputAt(taps, kept, history, block, t)} ::
               OutputAt(taps, kept, history, block, t) == Conv(taps, history, t - block))
       <==> IsQuiet(taps, kept, block)
  {
    hide Conv, Echo, IsQuiet;
    NoEchoIffQuiet(taps, kept, block);
    if forall history: seq<Complex>, t: nat {:trigger OutputAt(taps, kept, history, block, t)} ::
         OutputAt(taps, kept, history, block, t) == Conv(taps, history, t - block) {
      forall t: nat
        ensures Echo(taps, kept, block, t) == ZERO
      {
        assert OutputAt(taps, kept, [], block, t) == Conv(taps, [], t - block);
      }
    }
  }

  // The first block of outputs is what was kept; the new kernel owes only zeros there.
  lemma FirstBlockIsKept(taps: seq<Complex>, kept: Kept, history: seq<Complex>, block: nat, t: nat)
    requires Fits(kept, taps, block) && t < block
    ensures OutputAt(taps, kept, history, block, t) == kept.signal[t] && Conv(taps, history, t - block) == ZERO
  {
    hide Conv;
    ConvOutside(taps, history, t - block);
    AddLaws(kept.signal[t], ZERO, ZERO);
  }

  lemma StartsWith(cis: real -> Complex, taps: seq<Complex>, nfft: nat, kernel: seq<Complex>, kept: Kept)
    requires 2 <= nfft <= MaxSize() && nfft == Pow2(CeilLog2(nfft)) && |taps| <= nfft
    requires Fits(kept, taps, nfft + 1 - |taps|)
    requires kernel == Transform(cis, Forward, taps + Zeros(nfft - |taps|))
    ensures IsState(cis, taps, kept, [], nfft, kernel, kept.signal, kept.remainder, 0)
  {
    hide Conv, Transform, Pow2, CeilLog2, MaxSize;
    var block, none := nfft + 1 - |taps|, [];
    assert none[..0] == none;
    DivModUnique(0, block, 0, 0);
    forall j | 0 <= j < |kept.signal|
      ensures kept.signal[j] == BufferAt(taps, kept, none, 0, block, j)
    {
      if j < block {
        FirstBlockIsKept(taps, kept, none, block, j);
      }
    }
  }

  // Where the block that is not yet full began.
  function BlockStart(length: nat, block: int): (start: nat)
    requires block >= 1
    ensures start <= length
  {
    if length == 0 then 0
    else
      QuotientBound(length - 1, block, 0);
      assert (length - 1) / block * block <= length - 1 by { assert length - 1 == (length - 1) / block * block + (length - 1) % block; }
      MulOrder(0, (length - 1) / block, block);
      (length - 1) / block * block
  }

  // Since the last flush only zeros came in, and the convolution of what came before has only
  // zeros left to give.
  ghost predicate OwesNothing(taps: seq<Complex>, history: seq<Complex>, block: int)
    requires block >= 1
  {
    var start := BlockStart(|history|, block);
    && AllZero(history[start..])
    && forall t :: |history| - block <= t < start + |taps| - 1 ==> Conv(taps, history[..start], t) == ZERO
  }

  lemma StartOfBlock(length: nat, block: int, ptr: int)
    requires 1 <= block && 0 <= ptr <= block && ptr <= length && (length - ptr) % block == 0 && (length > 0 ==> ptr >= 1)
    ensures length - ptr == BlockStart(length, block)
  {
    if length > 0 {
      LastOfBlock(length, block, ptr);
      assert length - 1 == (length - 1) / block * block + (length - 1) % block;
    }
  }

  // Without an echo of its own, what a state holds is its stream's.
  lemma SilentState(taps: seq<Complex>, kept: Kept, history: seq<Complex>, block: nat, start: nat,
                    sigspace: seq<Complex>, remainder: seq<Complex>)
    requires Fits(kept, taps, block) && IsSilent(kept) && start <= |history| <= start + block
    requires |sigspace| == |kept.signal| && |remainder| == |taps| - 1
    requires IsBuffer(taps, kept, history, start, block, sigspace) && IsRemainder(taps, kept, history[..start], block, remainder)
    ensures forall j :: 0 <= j < |history| - start ==> sigspace[j] == history[start + j]
    ensures forall j :: |history| - start <= j < block ==> sigspace[j] == Conv(taps, history[..start], start + j - block)
    ensures forall j :: block <= j < |sigspace| ==> sigspace[j] == ZERO
    ensures forall k :: 0 <= k < |remainder| ==> remainder[k] == Conv(taps, history[..start], start + k)
  {
    hide Conv, Echo, IsQuiet;
    SilentIsQuiet(taps, kept, block);
    NoEchoIffQuiet(taps, kept, block);
    var past := history[..start];
    forall t: nat
      ensures OutputAt(taps, kept, past, block, t) == Conv(taps, past, t - block)
    {
      assert Echo(taps, kept, block, t) == ZERO;
      AddLaws(Conv(taps, past, t - block), ZERO, ZERO);
    }
    hide OutputAt;
    forall j | 0 <= j < |sigspace|
      ensures sigspace[j] == BufferAt(taps, kept, history, start, block, j)
    {}
    forall k | 0 <= k < |remainder|
      ensures remainder[k] == Conv(taps, past, start + k)
    {
      assert remainder[k] == RemainderAt(taps, kept, past, block, k);
      if past == [] {
        ConvNothing(taps, start + k);
      }
    }
  }

  // A caller's own condition for a second kernel of the same size.
  lemma SameSizeIsQuiet(cis: real -> Complex, taps: seq<Complex>, kept: Kept, history: seq<Complex>, nfft: nat,
                        kernel: seq<Complex>, sigspace: seq<Complex>, remainder: seq<Complex>, ptr: int, newTaps: seq<Complex>)
    requires IsState(cis, taps, kept, history, nfft, kernel, sigspace, remainder, ptr) && IsSilent(kept)
    requires |newTaps| == |taps|
    ensures Fits(Kept(sigspace, remainder), newTaps, nfft + 1 - |taps|)
    ensures IsQuiet(newTaps, Kept(sigspace, remainder), nfft + 1 - |taps|) <==> OwesNothing(taps, history, nfft + 1 - |taps|)
  {
    hide Conv, Transform, IsBuffer, IsRemainder, IsSilent, BlockStart;
    var block, start := nfft + 1 - |taps|, |history| - ptr;
    StartOfBlock(|history|, block, ptr);
    SilentState(taps, kept, history, block, start, sigspace, remainder);
    QuietBeforeZeros(newTaps, Kept(sigspace, remainder), block);
    OwesWhatItHolds(taps, history, block, start, sigspace, remainder);
  }

  lemma QuietBeforeZeros(taps: seq<Complex>, kept: Kept, block: nat)
    requires Fits(kept, taps, block) && forall j :: block <= j < |kept.signal| ==> kept.signal[j] == ZERO
    ensures IsQuiet(taps, kept, block) <==> AllZero(kept.signal[..block]) && AllZero(kept.remainder)
  {
    hide Conv;
    forall t
      ensures Conv(taps, Tail(kept, block), t) == ZERO
    {
      ZeroInput(taps, Tail(kept, block), t);
    }
    forall k | 0 <= k < |kept.remainder|
      ensures Add(ZERO, kept.remainder[k]) == kept.remainder[k]
    {
      AddLaws(ZERO, kept.remainder[k], ZERO);
    }
    forall j | 0 <= j < block
      ensures kept.signal[..block][j] == kept.signal[j]
    {}
    if IsQuiet(taps, kept, block) {
      forall j | 0 <= j < block
        ensures kept.signal[..block][j] == ZERO
      {
        assert kept.signal[j] == ZERO;
      }
    }
  }

  lemma OwesWhatItHolds(taps: seq<Complex>, history: seq<Complex>, block: nat, start: nat,
                        sigspace: seq<Complex>, remainder: seq<Complex>)
    requires 1 <= block && start == BlockStart(|history|, block) && |history| <= start + block <= start + |sigspace|
    requires 1 <= |taps| && |remainder| == |taps| - 1
    requires forall j :: 0 <= j < |history| - start ==> sigspace[j] == history[start + j]
    requires forall j :: |history| - start <= j < block ==> sigspace[j] == Conv(taps, history[..start], start + j - block)
    requires forall k :: 0 <= k < |remainder| ==> remainder[k] == Conv(taps, history[..start], start + k)
    ensures AllZero(sigspace[..block]) && AllZero(remainder) <==> OwesNothing(taps, history, block)
  {
    hide Conv, BlockStart;
    var past, held := history[..start], sigspace[..block];
    if AllZero(held) && AllZero(remainder) {
      forall i | 0 <= i < |history[start..]|
        ensures history[start..][i] == ZERO
      {
        assert held[i] == sigspace[i] == history[start + i];
      }
      forall t | |history| - block <= t < start + |taps| - 1
        ensures Conv(taps, past, t) == ZERO
      {
        if t < start {
          assert held[t - start + block] == Conv(taps, past, start + (t - start + block) - block);
        } else {
          assert remainder[t - start] == Conv(taps, past, start + (t - start));
        }
      }
    }
    if OwesNothing(taps, history, block) {
      forall j | 0 <= j < block
        ensures held[j] == ZERO
      {
        if j < |history| - start {
          assert history[start..][j] == ZERO;
        } else {
          assert Conv(taps, past, start + j - block) == ZERO;
        }
      }
    }
  }

  // Nothing but zeros in, nothing but zeros held.
  lemma ZeroStream(cis: real -> Complex, taps: seq<Complex>, kept: Kept, history: seq<Complex>, nfft: nat,
                   kernel: seq<Complex>, sigspace: seq<Complex>, remainder: seq<Complex>, ptr: int)
    requires IsState(cis, taps, kept, history, nfft, kernel, sigspace, remainder, ptr) && IsSilent(kept) && AllZero(history)
    ensures AllZero(sigspace) && AllZero(remainder)
  {
    hide Conv, Transform, IsBuffer, IsRemainder, IsSilent;
    var start := |history| - ptr;
    SilentState(taps, kept, history, nfft + 1 - |taps|, start, sigspace, remainder);
    forall t
      ensures Conv(taps, history[..start], t) == ZERO
    {
      ZeroInput(taps, history[..start], t);
    }
    assert forall j :: 0 <= j < |history| - start ==> sigspace[j] == history[start + j] == ZERO;
  }

  lemma NoneAreZero()
    ensures AllZero([]) && Lift([]) == []
  {}

  class JFastFir {
    const fft: JFFT
    var kernel: seq<Complex>
    var sigspace: seq<Complex>
    var remainder: seq<Complex>
    var kernelNonZeroSize: nat
    var remainderSize: nat
    var signalNonZeroSize: int
    var sigspacePtr: int
    var nfft: nat
    var sigspaceReal: seq<real>
    var remainderReal: seq<real>
    // The taps given to SetKernel, and every sample received since.
    ghost var taps: seq<Complex>
    ghost var history: seq<Complex>
    ghost var historyReal: seq<real>
    // What the buffers held when SetKernel was called, resized to fit.
    ghost var kept: Kept
    ghost var keptReal: Kept

    ghost predicate Sized()
      reads this, fft
    {
      && fft.Valid()
      && kernelNonZeroSize == |taps|
      && (taps == [] ==>
            && signalNonZeroSize == sigspacePtr == 0
            && sigspace == remainder == [] && sigspaceReal == remainderReal == [])
      && (taps != [] ==>
            && signalNonZeroSize == nfft + 1 - |taps| >= 1
            && remainderSize == |taps| - 1 <= signalNonZeroSize
            && |kernel| == |sigspace| == |sigspaceReal| == nfft
            && |remainder| == |remainderReal| == remainderSize
            && 0 <= sigspacePtr <= signalNonZeroSize)
    }

    ghost predicate Valid()
      reads this, fft
    {
      && Sized()
      && (taps != [] ==> IsState(fft.cis, taps, kept, history, nfft, kernel, sigspace, remainder, sigspacePtr))
    }

    // The same for the real buffers: update(double) keeps its own pair and uses the complex
    // one as scratch space, so a filter serves complex samples or real ones, not both.
    ghost predicate ValidReal()
      reads this, fft
    {
      && Sized()
      && (taps != [] ==>
            && IsReal(taps)
            && IsState(fft.cis, taps, keptReal, Lift(historyReal), nfft, kernel, Lift(sigspaceReal), Lift(remainderReal), sigspacePtr))
    }

    constructor (cis: real -> Complex)
      requires IsCis(cis)
      ensures Valid() && ValidReal() && taps == [] && fresh(fft) && fft.cis == cis
      ensures sigspace == remainder == [] && sigspaceReal == remainderReal == []
    {
      fft := new JFFT(cis);
      kernel, sigspace, remainder := [], [], [];
      sigspaceReal, remainderReal, historyReal := [], [], [];
      kernelNonZeroSize, remainderSize, signalNonZeroSize, sigspacePtr, nfft := 0, 0, 0, 0, 0;
      taps, history := [], [];
      kept, keptReal := Kept([], []), Kept([], []);
    }

    // The size that SetKernel picks for a requested one; four times the taps by default.
    static function RequestedSize(kernelSize: nat, approxFftSize: int): int {
      if approxFftSize <= 0 then 4 * kernelSize else approxFftSize
    }

    // The assertion of line 373 is a demand on the caller, as is a transform of two points or
    // more. std::vector::resize keeps what the buffers held, so a second kernel may be heard
    // through an echo; NoEchoIffQuiet says exactly when it is not. It never is in a filter through
    // which only zeros have gone, and for a kernel of the same size it is not exactly when the
    // samples since the last flush were zeros and so is all that the old kernel still owes.
    method SetKernel(newTaps: seq<Complex>, approxFftSize: int)
      requires fft.Valid() && 1 <= |newTaps|
      requires var size := RequestedSize(|newTaps|, approxFftSize);
               2 <= size <= MaxSize() && 2 * (|newTaps| - 1) <= Pow2(CeilLog2(size))
      modifies this, fft
      ensures taps == newTaps && history == [] && historyReal == []
      ensures nfft == Pow2(CeilLog2(RequestedSize(|newTaps|, approxFftSize)))
      ensures approxFftSize <= 0 ==> 4 * |newTaps| <= nfft < 8 * |newTaps|
      ensures approxFftSize > 0 ==> approxFftSize <= nfft < 2 * approxFftSize
      ensures signalNonZeroSize == nfft + 1 - |newTaps|
      ensures kept == Kept(Resized(old(sigspace), nfft, ZERO), Resized(old(remainder), |newTaps| - 1, ZERO))
      ensures keptReal == Kept(Lift(Resized(old(sigspaceReal), nfft, 0.0)), Lift(Resized(old(remainderReal), |newTaps| - 1, 0.0)))
      ensures Valid() && (ValidReal() <==> IsReal(newTaps)) && Fits(kept, taps, signalNonZeroSize)
      ensures old(Valid()) && old(taps) == [] ==> IsSilent(kept) && IsSilent(keptReal)
      ensures old(Valid()) && old(OnlyZeros()) ==> IsSilent(kept)
      ensures old(ValidReal()) && old(OnlyZeroReals()) ==> IsSilent(keptReal)
      ensures old(Valid()) && old(IsSilent(kept)) && |old(taps)| == |newTaps| && old(nfft) == nfft ==>
                (IsQuiet(newTaps, kept, signalNonZeroSize) <==> OwesNothing(old(taps), old(history), signalNonZeroSize))
    {
      hide Conv, Transform, IsState, IsCis, Pow2, CeilLog2, Resized, IsQuiet, OwesNothing, IsSilent;
      OldState(newTaps);
      ResizeBuffers(newTaps, approxFftSize);
      kept, keptReal := Kept(sigspace, remainder), Kept(Lift(sigspaceReal), Lift(remainderReal));
      JFFT.ExactPower(CeilLog2(nfft));
      kernel := fft.FftVector(newTaps + Zeros(nfft - |newTaps|), Forward);
      StartsWith(fft.cis, newTaps, nfft, kernel, kept);
      StartsWith(fft.cis, newTaps, nfft, kernel, keptReal);
      ResizedSilent(old(sigspace), old(remainder), nfft, |newTaps| - 1);
      ResizedSilent(Lift(old(sigspaceReal)), Lift(old(remainderReal)), nfft, |newTaps| - 1);
      LiftResized(old(sigspaceReal), nfft);
      LiftResized(old(remainderReal), |newTaps| - 1);
    }

    // Nothing but zeros ever went in.
    ghost predicate OnlyZeros()
      reads this
    {
      taps == [] || (IsSilent(kept) && AllZero(history))
    }

    ghost predicate OnlyZeroReals()
      reads this
    {
      taps == [] || (IsSilent(keptReal) && AllZero(Lift(historyReal)))
    }

    static lemma LiftResized(x: seq<real>, n: nat)
      ensures Lift(Resized(x, n, 0.0)) == Resized(Lift(x), n, ZERO)
    {}

    static lemma ResizedSilent(x: seq<Complex>, y: seq<Complex>, n: nat, m: nat)
      ensures AllZero(x) && AllZero(y) ==> IsSilent(Kept(Resized(x, n, ZERO), Resized(y, m, ZERO)))
    {}

    // What the buffers hold before a kernel is set.
    lemma OldState(newTaps: seq<Complex>)
      ensures Valid() && OnlyZeros() ==> AllZero(sigspace) && AllZero(remainder)
      ensures ValidReal() && OnlyZeroReals() ==> AllZero(Lift(sigspaceReal)) && AllZero(Lift(remainderReal))
      ensures Valid() && taps != [] && IsSilent(kept) && |newTaps| == |taps| ==>
                && |sigspace| == nfft && |remainder| == |taps| - 1 && Fits(Kept(sigspace, remainder), newTaps, signalNonZeroSize)
                && (IsQuiet(newTaps, Kept(sigspace, remainder), signalNonZeroSize) <==> OwesNothing(taps, history, signalNonZeroSize))
    {
      hide Conv, Transform, IsState, IsCis, IsQuiet, OwesNothing, IsSilent, AllZero;
      if Valid() && taps == [] {
        NoneAreZero();
      }
      if ValidReal() && taps == [] {
        NoneAreZero();
      }
      if Valid() && taps != [] && IsSilent(kept) {
        if AllZero(history) {
          ZeroStream(fft.cis, taps, kept, history, nfft, kernel, sigspace, remainder, sigspacePtr);
        }
        if |newTaps| == |taps| {
          SameSizeIsQuiet(fft.cis, taps, kept, history, nfft, kernel, sigspace, remainder, sigspacePtr, newTaps);
        }
      }
      if ValidReal() && taps != [] && IsSilent(keptReal) && AllZero(Lift(historyReal)) {
        ZeroStream(fft.cis, taps, keptReal, Lift(historyReal), nfft, kernel, Lift(sigspaceReal), Lift(remainderReal), sigspacePtr);
      }
    }

    // Lines 342-367, with the zero padding of the kernel left to the caller.
    method ResizeBuffers(newTaps: seq<Complex>, approxFftSize: int)
      requires 1 <= |newTaps|
      requires var size := RequestedSize(|newTaps|, approxFftSize);
               2 <= size <= MaxSize() && 2 * (|newTaps| - 1) <= Pow2(CeilLog2(size))
      modifies this
      ensures taps == newTaps && history == [] && historyReal == [] && kernelNonZeroSize == |newTaps| && sigspacePtr == 0
      ensures nfft == Pow2(CeilLog2(RequestedSize(|newTaps|, approxFftSize))) == Pow2(CeilLog2(nfft))
      ensures approxFftSize <= 0 ==> 4 * |newTaps| <= nfft < 8 * |newTaps|
      ensures approxFftSize > 0 ==> approxFftSize <= nfft < 2 * approxFftSize
      ensures 2 <= nfft <= MaxSize() && |newTaps| <= nfft
      ensures signalNonZeroSize == nfft + 1 - |newTaps| >= 1 && remainderSize == |newTaps| - 1 <= signalNonZeroSize
      ensures sigspace == Resized(old(sigspace), nfft, ZERO)
      ensures remainder == Resized(old(remainder), |newTaps| - 1, ZERO)
      ensures sigspaceReal == Resized(old(sigspaceReal), nfft, 0.0)
      ensures remainderReal == Resized(old(remainderReal), |newTaps| - 1, 0.0)
    {
      hide Pow2, CeilLog2, Resized, Lift, MaxSize;
      kernelNonZeroSize := |newTaps|;
      var approx := if approxFftSize <= 0 then 4 * kernelNonZeroSize else approxFftSize;
      nfft := PowerAtLeast(approx);
      JFFT.ExactPower(CeilLog2(approx));
      sigspace := Resized(sigspace, nfft, ZERO);
      sigspacePtr := 0;
      signalNonZeroSize := nfft + 1 - kernelNonZeroSize;
      remainderSize := nfft - signalNonZeroSize;
      remainder := Resized(remainder, remainderSize, ZERO);
      sigspaceReal := Resized(sigspaceReal, nfft, 0.0);
      remainderReal := Resized(remainderReal, remainderSize, 0.0);
      taps, history, historyReal := newTaps, [], [];
    }

    static lemma ExactMax()
      ensures forall n: nat :: n <= MaxSize() ==> CeilLog2(n) <= 30
    {
      forall n: nat | n <= MaxSize()
        ensures CeilLog2(n) <= 30
      {
        CeilLog2Bounds(n);
      }
    }

    method PowerAtLeast(approx: int) returns (size: nat)
      requires 2 <= approx <= MaxSize()
      ensures size == Pow2(CeilLog2(approx)) && approx <= size <= MaxSize() && size < 2 * approx
    {
      hide MaxSize;
      size := 1;
      ghost var e := 0;
      ExactMax();
      while size < approx
        invariant size == Pow2(e) && (e > 0 ==> Pow2(e - 1) < approx)
        decreases approx - size
      {
        size := size * 2;
        e := e + 1;
      }
      LeastPower(approx, e);
      CeilLog2Bounds(approx);
      BelowMaxSize(e);
    }

    // Lines 458-487: the transform, the product and the inverse transform, then the overlap.
    method Flush()
      requires Valid() && taps != [] && sigspacePtr >= signalNonZeroSize
      modifies this`sigspace, this`remainder, this`sigspacePtr, fft
      ensures Sized() && sigspacePtr == 0
      ensures IsCore(fft.cis, taps, kept, history, nfft, kernel, sigspace, remainder, 0)
    {
      hide Conv, Transform, IsCore, IsCis, IsProduct, IsOverlapped;
      ghost var before, oldRemainder := sigspace, remainder;
      sigspace := ConvolveBlock();
      ghost var product := sigspace;
      OverlapByPointers();
      sigspacePtr := 0;
      FlushMeansConvolution(fft.cis, taps, kept, history, nfft, kernel, before, oldRemainder, product, sigspace, remainder);
    }

    // One loop over three pointers.
    method OverlapByPointers()
      requires |sigspace| == signalNonZeroSize + remainderSize
      requires |remainder| == remainderSize <= signalNonZeroSize
      modifies this`sigspace, this`remainder
      ensures |sigspace| == |old(sigspace)| && |remainder| == |old(remainder)|
      ensures IsOverlapped(signalNonZeroSize, old(sigspace), old(remainder), sigspace, remainder)
    {
      hide PartOverlapped;
      ghost var product, oldRemainder := sigspace, remainder;
      var psigspace, premainder, poverlap := 0, 0, signalNonZeroSize;
      var k := 0;
      NotOverlapped(signalNonZeroSize, product, oldRemainder);
      while k < remainderSize
        invariant 0 <= k <= remainderSize && psigspace == premainder == k && poverlap == signalNonZeroSize + k
        invariant |sigspace| == |product| && |remainder| == remainderSize
        invariant PartOverlapped(signalNonZeroSize, product, oldRemainder, sigspace, remainder, k)
      {
        OverlapStep(signalNonZeroSize, product, oldRemainder, sigspace, remainder, k);
        sigspace := sigspace[psigspace := Add(sigspace[psigspace], remainder[premainder])];
        remainder := remainder[premainder := sigspace[poverlap]];
        sigspace := sigspace[poverlap := ZERO];
        psigspace, premainder, poverlap := psigspace + 1, premainder + 1, poverlap + 1;
        k := k + 1;
      }
      AllOverlapped(signalNonZeroSize, product, oldRemainder, sigspace, remainder);
    }

    // Lines 508-534: the same with one loop for each of the three jobs.
    method FlushEasyToUnderstand()
      requires Valid() && taps != [] && sigspacePtr >= signalNonZeroSize
      modifies this`sigspace, this`remainder, this`sigspacePtr, fft
      ensures Sized() && sigspacePtr == 0
      ensures IsCore(fft.cis, taps, kept, history, nfft, kernel, sigspace, remainder, 0)
    {
      hide Conv, Transform, IsCore, IsCis, IsProduct, IsOverlapped;
      ghost var before, oldRemainder := sigspace, remainder;
      sigspace := ConvolveBlock();
      ghost var product := sigspace;
      OverlapByLoops();
      sigspacePtr := 0;
      FlushMeansConvolution(fft.cis, taps, kept, history, nfft, kernel, before, oldRemainder, product, sigspace, remainder);
    }

    method OverlapByLoops()
      requires |sigspace| == signalNonZeroSize + remainderSize
      requires |remainder| == remainderSize <= signalNonZeroSize
      modifies this`sigspace, this`remainder
      ensures |sigspace| == |old(sigspace)| && |remainder| == |old(remainder)|
      ensures IsOverlapped(signalNonZeroSize, old(sigspace), old(remainder), sigspace, remainder)
    {
      hide Add;
      ghost var product, oldRemainder := sigspace, remainder;
      for k := 0 to remainderSize
        invariant |sigspace| == |product| && remainder == oldRemainder
        invariant forall j :: 0 <= j < |product| ==>
                    sigspace[j] == if j < k then Add(product[j], remainder[j]) else product[j]
      {
        sigspace := sigspace[k := Add(sigspace[k], remainder[k])];
      }
      ghost var added := sigspace;
      for k := 0 to remainderSize
        invariant |remainder| == remainderSize && sigspace == added
        invariant forall j :: 0 <= j < k ==> remainder[j] == product[signalNonZeroSize + j]
      {
        remainder := remainder[k := sigspace[k + signalNonZeroSize]];
      }
      ghost var saved := remainder;
      for k := 0 to remainderSize
        invariant |sigspace| == |product| && remainder == saved
        invariant forall j :: 0 <= j < |product| ==>
                    sigspace[j] == if signalNonZeroSize <= j < signalNonZeroSize + k then ZERO else added[j]
      {
        sigspace := sigspace[k + signalNonZeroSize := ZERO];
      }
    }

    method ConvolveBlock() returns (product: seq<Complex>)
      requires Valid() && taps != []
      modifies fft
      ensures fft.Valid() && |product| == nfft && IsProduct(taps, sigspace, product)
    {
      hide IsProduct;
      JFFT.ExactPower(CeilLog2(nfft));
      product := fft.FftVector(sigspace, Forward);
      ghost var spectrum := product;
      for k := 0 to nfft
        invariant |product| == nfft
        invariant forall j :: 0 <= j < nfft ==> product[j] == if j < k then Mul(spectrum[j], kernel[j]) else spectrum[j]
      {
        product := product[k := Mul(product[k], kernel[k])];
      }
      assert product == PointwiseProduct(spectrum, kernel);
      product := fft.FftVector(product, Inverse);
      ProductIsCyclic(fft.cis, taps, nfft, kernel, sigspace, product);
    }

    // One sample in, the output of one block length ago out.
    method Update(sample: Complex) returns (out: Complex)
      requires Valid()
      modifies this`sigspace, this`remainder, this`sigspacePtr, this`history, fft
      ensures Valid()
      ensures taps == [] ==> out == sample && history == old(history)
      ensures taps != [] ==>
                && history == old(history) + [sample]
                && out == OutputAt(taps, kept, history, signalNonZeroSize, |old(history)|)
    {
      hide Conv, IsCore, IsCis;
      if sigspacePtr >= signalNonZeroSize {
        if signalNonZeroSize <= 0 {
          return sample;
        }
        Flush();
      }
      out := Exchange(sample);
    }

    method UpdateEasyToUnderstand(sample: Complex) returns (out: Complex)
      requires Valid()
      modifies this`sigspace, this`remainder, this`sigspacePtr, this`history, fft
      ensures Valid()
      ensures taps == [] ==> out == sample && history == old(history)
      ensures taps != [] ==>
                && history == old(history) + [sample]
                && out == OutputAt(taps, kept, history, signalNonZeroSize, |old(history)|)
    {
      hide Conv, IsCore, IsCis;
      if sigspacePtr >= signalNonZeroSize {
        if signalNonZeroSize <= 0 {
          return sample;
        }
        FlushEasyToUnderstand();
      }
      out := Exchange(sample);
    }

    // Pop the old value, push the new one.
    method Exchange(sample: Complex) returns (out: Complex)
      requires Sized() && taps != [] && sigspacePtr < signalNonZeroSize
      requires IsCore(fft.cis, taps, kept, history, nfft, kernel, sigspace, remainder, sigspacePtr)
      modifies this`sigspace, this`sigspacePtr, this`history
      ensures Valid()
      ensures history == old(history) + [sample]
      ensures out == OutputAt(taps, kept, history, signalNonZeroSize, |old(history)|)
    {
      hide Conv, IsCore, IsState;
      RunStep(fft.cis, taps, kept, history, nfft, kernel, sigspace, remainder, sigspacePtr, [sample]);
      assert sigspace[sigspacePtr := sample] == sigspace[..sigspacePtr] + [sample] + sigspace[sigspacePtr + 1..];
      out := sigspace[sigspacePtr];
      sigspace := sigspace[sigspacePtr := sample];
      sigspacePtr := sigspacePtr + 1;
      history := history + [sample];
    }

    // The three memcpy of lines 437-441.
    method CopyOver(buffer: array<Complex>, from: nat, n: nat)
      requires Sized() && taps != []
      requires IsCore(fft.cis, taps, kept, history, nfft, kernel, sigspace, remainder, sigspacePtr)
      requires 1 <= n <= signalNonZeroSize - sigspacePtr && from + n <= buffer.Length
      modifies this`sigspace, this`sigspacePtr, this`history, buffer
      ensures Valid()
      ensures history == old(history) + old(buffer[from..from + n])
      ensures forall i :: 0 <= i < buffer.Length && !(from <= i < from + n) ==> buffer[i] == old(buffer[i])
      ensures forall i :: from <= i < from + n ==>
                buffer[i] == OutputAt(taps, kept, history, signalNonZeroSize, |old(history)| + i - from)
    {
      hide Conv, IsCore, IsState;
      ghost var h0 := history;
      ghost var before := sigspace;
      var p := sigspacePtr;
      var tmpSpace := buffer[from..from + n];
      RunStep(fft.cis, taps, kept, history, nfft, kernel, sigspace, remainder, p, tmpSpace);
      forall i | 0 <= i < n {
        buffer[from + i] := sigspace[p + i];
      }
      sigspace := sigspace[..p] + tmpSpace + sigspace[p + n..];
      sigspacePtr := sigspacePtr + n;
      history := history + tmpSpace;
      forall i | from <= i < from + n
        ensures buffer[i] == OutputAt(taps, kept, history, signalNonZeroSize, |h0| + i - from)
      {
        assert buffer[from + (i - from)] == before[p + (i - from)];
        assert before[p + (i - from)] == OutputAt(taps, kept, history, signalNonZeroSize, |h0| + (p + (i - from)) - p);
      }
    }

    // A whole block in place, copied in runs that end where the buffer or the block ends.
    method UpdateBlock(buffer: array<Complex>)
      requires Valid()
      modifies this`sigspace, this`remainder, this`sigspacePtr, this`history, fft, buffer
      ensures Valid()
      ensures taps == [] ==> buffer[..] == old(buffer[..]) && history == old(history)
      ensures taps != [] ==>
                && history == old(history) + old(buffer[..])
                && forall i :: 0 <= i < buffer.Length ==>
                     buffer[i] == OutputAt(taps, kept, history, signalNonZeroSize, |old(history)| + i)
    {
      hide OutputAt, IsCore, IsState, IsCis;
      ghost var input := buffer[..];
      ghost var h0 := history;
      ghost var full := h0 + input;
      var done := 0;
      while done < buffer.Length
        invariant 0 <= done <= buffer.Length && Valid()
        invariant forall i :: done <= i < buffer.Length ==> buffer[i] == input[i]
        invariant taps == [] ==> done == 0 && history == h0
        invariant taps != [] ==> history == h0 + input[..done]
        invariant taps != [] ==> forall i :: 0 <= i < done ==>
                    buffer[i] == OutputAt(taps, kept, full, signalNonZeroSize, |h0| + i)
      {
        if sigspacePtr >= signalNonZeroSize && signalNonZeroSize <= 0 {
          return;
        }
        var n := ProcessRun(buffer, done);
        assert input[..done + n] == input[..done] + input[done..done + n];
        assert full[..|history|] == history;
        forall i | done <= i < done + n
          ensures buffer[i] == OutputAt(taps, kept, full, signalNonZeroSize, |h0| + i)
        {
          OutputIsCausal(taps, kept, full, |history|, signalNonZeroSize, |h0| + i);
        }
        done := done + n;
      }
    }

    // One pass of the loop: a flush if the block is full, then as many samples as still fit.
    method ProcessRun(buffer: array<Complex>, done: nat) returns (n: nat)
      requires Valid() && taps != [] && done < buffer.Length
      modifies this`sigspace, this`remainder, this`sigspacePtr, this`history, fft, buffer
      ensures Valid() && 1 <= n <= buffer.Length - done
      ensures history == old(history) + old(buffer[done..done + n])
      ensures forall i :: 0 <= i < buffer.Length && !(done <= i < done + n) ==> buffer[i] == old(buffer[i])
      ensures forall i :: done <= i < done + n ==>
                buffer[i] == OutputAt(taps, kept, history, signalNonZeroSize, |old(history)| + i - done)
    {
      hide OutputAt, IsCore, IsCis;
      if sigspacePtr >= signalNonZeroSize {
        Flush();
      }
      n := if signalNonZeroSize - sigspacePtr < buffer.Length - done
           then signalNonZeroSize - sigspacePtr else buffer.Length - done;
      CopyOver(buffer, done, n);
    }

    // Lines 555-577: only the bins up to nfft / 2 are multiplied.
    method FlushReal()
      requires ValidReal() && taps != [] && nfft >= 4 && sigspacePtr >= signalNonZeroSize
      modifies this`sigspace, this`sigspaceReal, this`remainderReal, this`sigspacePtr, fft
      ensures Sized() && sigspacePtr == 0
      ensures IsCore(fft.cis, taps, keptReal, Lift(historyReal), nfft, kernel, Lift(sigspaceReal), Lift(remainderReal), 0)
    {
      hide Conv, Transform, IsCore, IsCis;
      ghost var before, oldRemainder := sigspaceReal, remainderReal;
      ghost var y := ConvolveBlockReal();
      OverlapReal();
      sigspacePtr := 0;
      FlushMeansConvolution(fft.cis, taps, keptReal, Lift(historyReal), nfft, kernel, Lift(before), Lift(oldRemainder), Lift(y),
                            Lift(sigspaceReal), Lift(remainderReal));
    }

    method ConvolveBlockReal() returns (ghost y: seq<real>)
      requires ValidReal() && taps != [] && nfft >= 4 && sigspacePtr >= signalNonZeroSize
      modifies this`sigspace, this`sigspaceReal, fft
      ensures fft.Valid() && |sigspace| == nfft
      ensures sigspaceReal == y && |y| == nfft && IsProduct(taps, Lift(old(sigspaceReal)), Lift(y))
    {
      hide Conv, IsProduct, IsCore, IsState, IsReal, IsCis, HasBins, CeilLog2, Pow2, MaxSize, Lift;
      hide IsTwiddleTable, DiddleA, DiddleB, Sized, Mul, Bin, JFFT.Valid;
      ProductReady();
      ProductBins();
      y := RealProduct(fft.cis, taps, nfft, kernel, sigspaceReal, sigspace);
      sigspace, sigspaceReal := fft.IfftRealVector(sigspace);
    }

    lemma ProductReady()
      requires ValidReal() && taps != [] && nfft >= 4 && sigspacePtr >= signalNonZeroSize
      ensures IsReal(taps) && 1 <= |taps| <= nfft && kernel == Transform(fft.cis, Forward, taps + Zeros(nfft - |taps|))
      ensures fft.Valid() && IsCis(fft.cis) && nfft <= MaxSize() && |kernel| == |sigspaceReal| == nfft
      ensures nfft == Pow2(CeilLog2(nfft)) && nfft % 2 == 0 && nfft == 2 * Pow2(CeilLog2(nfft / 2))
    {
      hide Conv, IsProduct, IsCis, CeilLog2, Pow2, MaxSize, Mul, Lift;
      HalfPower(nfft);
    }

    // The spectrum of the block times the spectrum of the taps, on the bins that count.
    method ProductBins()
      requires fft.Valid() && |kernel| == |sigspaceReal| == nfft && 4 <= nfft <= MaxSize()
      requires nfft % 2 == 0 && nfft == 2 * Pow2(CeilLog2(nfft / 2))
      modifies this`sigspace, fft
      ensures fft.Valid() && |sigspace| == nfft
      ensures forall k :: 0 <= k <= nfft / 2 ==> sigspace[k] == Mul(Bin(fft.cis, Forward, Lift(sigspaceReal), k), kernel[k])
    {
      hide Bin, CeilLog2, Pow2, MaxSize, Mul, Lift, JFFT.Valid, JFFT.Initialised;
      var padded, spectrum := fft.FftRealVector(sigspaceReal);
      assert padded == sigspaceReal;
      var bins := MultiplyHalf(spectrum);
      HalfProduct(fft.cis, sigspaceReal, spectrum, kernel, bins);
      sigspace := bins;
    }

    static lemma HalfProduct(cis: real -> Complex, x: seq<real>, spectrum: seq<Complex>, kernel: seq<Complex>, bins: seq<Complex>)
      requires x != [] && spectrum == Transform(cis, Forward, Lift(x)) && |bins| == |spectrum| == |kernel| >= 2
      requires forall k :: 0 <= k <= |bins| / 2 ==> bins[k] == Mul(spectrum[k], kernel[k])
      ensures forall k :: 0 <= k <= |bins| / 2 ==> bins[k] == Mul(Bin(cis, Forward, Lift(x), k), kernel[k])
    {
      hide Mul, Bin, Lift;
    }

    method MultiplyHalf(spectrum: seq<Complex>) returns (bins: seq<Complex>)
      requires |spectrum| == |kernel| == nfft && nfft >= 2
      ensures |bins| == nfft
      ensures forall k :: 0 <= k <= nfft / 2 ==> bins[k] == Mul(spectrum[k], kernel[k])
    {
      hide Mul;
      bins := spectrum;
      for k := 0 to nfft / 2 + 1
        invariant |bins| == nfft
        invariant forall j :: k <= j < nfft ==> bins[j] == spectrum[j]
        invariant forall j :: 0 <= j < k ==> bins[j] == Mul(spectrum[j], kernel[j])
      {
        bins := bins[k := Mul(bins[k], kernel[k])];
      }
    }

    static lemma HalfPower(n: nat)
      requires n == Pow2(CeilLog2(n)) && n >= 4
      ensures n % 2 == 0 && n == 2 * Pow2(CeilLog2(n / 2))
    {
      hide CeilLog2;
      HalfOfPower(CeilLog2(n));
    }

    static lemma HalfOfPower(e: nat)
      requires Pow2(e) >= 2
      ensures Pow2(e) % 2 == 0 && e > 0 && Pow2(e) / 2 == Pow2(e - 1) && CeilLog2(Pow2(e - 1)) == e - 1
    {
      hide CeilLog2;
      assert Pow2(e) == 2 * Pow2(e - 1);
      JFFT.ExactPower(e - 1);
    }

    method OverlapReal()
      requires |sigspaceReal| == signalNonZeroSize + remainderSize
      requires |remainderReal| == remainderSize <= signalNonZeroSize
      modifies this`sigspaceReal, this`remainderReal
      ensures IsOverlapped(signalNonZeroSize, Lift(old(sigspaceReal)), Lift(old(remainderReal)), Lift(sigspaceReal), Lift(remainderReal))
    {
      ghost var product, oldRemainder := sigspaceReal, remainderReal;
      for k := 0 to remainderSize
        invariant |sigspaceReal| == |product| && |remainderReal| == remainderSize
        invariant forall j :: 0 <= j < k ==> sigspaceReal[j] == product[j] + oldRemainder[j]
        invariant forall j :: k <= j < signalNonZeroSize ==> sigspaceReal[j] == product[j]
        invariant forall j :: signalNonZeroSize <= j < signalNonZeroSize + k ==> sigspaceReal[j] == 0.0
        invariant forall j :: signalNonZeroSize + k <= j < |product| ==> sigspaceReal[j] == product[j]
        invariant forall j :: 0 <= j < remainderSize ==>
                    remainderReal[j] == if j < k then product[signalNonZeroSize + j] else oldRemainder[j]
      {
        sigspaceReal := sigspaceReal[k := sigspaceReal[k] + remainderReal[k]];
        remainderReal := remainderReal[k := sigspaceReal[k + signalNonZeroSize]];
        sigspaceReal := sigspaceReal[k + signalNonZeroSize := 0.0];
      }
    }

    // One real sample through the packed transforms; they need four points or more.
    method UpdateReal(sample: real) returns (out: real)
      requires ValidReal() && (taps != [] ==> nfft >= 4)
      modifies this`sigspace, this`sigspaceReal, this`remainderReal, this`sigspacePtr, this`historyReal, fft
      ensures ValidReal()
      ensures taps == [] ==> out == sample && historyReal == old(historyReal)
      ensures taps != [] ==>
                && historyReal == old(historyReal) + [sample]
                && Real(out) == OutputAt(taps, keptReal, Lift(historyReal), signalNonZeroSize, |old(historyReal)|)
    {
      hide Conv, IsCore, IsCis;
      if sigspacePtr >= signalNonZeroSize {
        if signalNonZeroSize <= 0 {
          return sample;
        }
        FlushReal();
      }
      RunStep(fft.cis, taps, keptReal, Lift(historyReal), nfft, kernel, Lift(sigspaceReal), Lift(remainderReal), sigspacePtr,
              Lift([sample]));
      assert Lift(historyReal + [sample]) == Lift(historyReal) + Lift([sample]);
      assert Lift(sigspaceReal[sigspacePtr := sample])
          == Lift(sigspaceReal)[..sigspacePtr] + Lift([sample]) + Lift(sigspaceReal)[sigspacePtr + 1..];
      out := sigspaceReal[sigspacePtr];
      assert Real(out) == Lift(sigspaceReal)[sigspacePtr];
      sigspaceReal := sigspaceReal[sigspacePtr := sample];
      sigspacePtr := sigspacePtr + 1;
      historyReal := historyReal + [sample];
    }
  }

  // One sample, the same kernel again, one more sample: the first one comes out at once, although
  // the convolution of the new stream owes a zero.
  method FirstKernelIsHeard(cis: real -> Complex, sample: Complex) returns (out: Complex)
    requires IsCis(cis)
    ensures out == ONE && Conv([ONE], [sample], 0 - 4) == ZERO
  {
    hide Conv, Transform, IsCis, IsState, OutputAt, IsQuiet, OwesNothing, Pow2, CeilLog2, MaxSize;
    FourPoints();
    var filter := new JFastFir(cis);
    filter.SetKernel([ONE], 4);
    var first := filter.Update(ONE);
    assert filter.history == [ONE];
    OneSample(cis, filter.kept, filter.kernel, filter.sigspace, filter.remainder, filter.sigspacePtr);
    filter.SetKernel([ONE], 4);
    out := filter.Update(sample);
    assert filter.history == [sample];
    FirstBlockIsKept([ONE], filter.kept, [sample], 4, 0);
  }

  lemma FourPoints()
    ensures Pow2(CeilLog2(4)) == 4 && 4 <= MaxSize() && 0 <= Pow2(CeilLog2(4))
  {
    assert Pow2(2) == 4 && Pow2(1) == 2;
    LeastPower(4, 2);
    BelowMaxSize(2);
  }

  lemma OneSample(cis: real -> Complex, kept: Kept, kernel: seq<Complex>, sigspace: seq<Complex>, remainder: seq<Complex>, ptr: int)
    requires IsState(cis, [ONE], kept, [ONE], 4, kernel, sigspace, remainder, ptr)
    ensures |sigspace| == 4 && sigspace[0] == ONE
  {
    hide Conv, Transform;
    assert sigspace[0] == BufferAt([ONE], kept, [ONE], 0, 4, 0);
  }
}
