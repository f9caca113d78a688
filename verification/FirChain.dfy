// The filters of src/dsp/ddc.h, lines 15-76 and 188-222: a decimating filter on a masked ring
// buffer, and the chain of them behind the oscillator, against one filter in direct form.

module FirFilter {
  import opened PowersOfTwo
  import opened Complexes
  import opened Dft
  import opened RealDft
  import opened Convolution

  // The direct form: the sum over the taps h[k] of h[k] * x[t - k], zero before the stream.
  ghost function Fir(h: seq<Complex>, x: seq<Complex>, t: int): Complex {
    Conv(x, h, t)
  }

  // One output for every `factor` inputs.
  ghost function Decimated(h: seq<Complex>, factor: int, x: seq<Complex>): (y: seq<Complex>)
    requires factor >= 1
    ensures |y| == |x| / factor
  {
    QuotientBound(|x|, factor, 0);
    seq(|x| / factor, m => Fir(h, x, (m + 1) * factor - 1))
  }

  // What the filter gives only depends on the samples up to the time asked for.
  lemma FirPrefix(h: seq<Complex>, x: seq<Complex>, y: seq<Complex>, t: int)
    requires t < |x|
    ensures Fir(h, x + y, t) == Fir(h, x, t)
  {
    hide Mul;
    forall k | 0 <= k < |h|
      ensures ConvTerms(x + y, h, t)(k) == ConvTerms(x, h, t)(k)
    {
      assert At(x + y, t - k) == At(x, t - k);
    }
    SumExt(ConvTerms(x + y, h, t), ConvTerms(x, h, t), |h|);
  }

  lemma NextQuotient(n: nat, d: int)
    requires d >= 1
    ensures (n + 1) % d == 0 ==> (n + 1) / d == n / d + 1 && (n / d + 1) * d == n + 1
    ensures (n + 1) % d != 0 ==> (n + 1) / d == n / d && (n + 1) % d == n % d + 1
    ensures (n + 1) % d == 0 <==> n % d + 1 == d
    ensures n / d >= 0
  {
    QuotientBound(n, d, 0);
    var q, r := n / d, n % d;
    assert n == q * d + r;
    if r + 1 == d {
      assert n + 1 == (q + 1) * d;
      DivModUnique(n + 1, d, q + 1, 0);
    } else {
      DivModUnique(n + 1, d, q, r + 1);
    }
  }

  lemma WithinInput(n: nat, d: int, m: nat)
    requires d >= 1 && m < n / d
    ensures 0 <= (m + 1) * d - 1 < n
  {
    MulOrder(m + 1, n / d, d);
    assert n == n / d * d + n % d;
    MulOrder(1, m + 1, d);
  }

  // One more input gives one more output or none.
  lemma DecimatedAppend(h: seq<Complex>, factor: int, x: seq<Complex>, s: Complex)
    requires factor >= 1
    ensures Decimated(h, factor, x + [s])
         == Decimated(h, factor, x) + (if |x + [s]| % factor == 0 then [Fir(h, x + [s], |x|)] else [])
  {
    hide Fir, Conv;
    NextQuotient(|x|, factor);
    var more := Decimated(h, factor, x + [s]);
    forall m | 0 <= m < |x| / factor
      ensures more[m] == Decimated(h, factor, x)[m]
    {
      WithinInput(|x|, factor, m);
      FirPrefix(h, x, [s], (m + 1) * factor - 1);
    }
  }

  // ---- The ring ----------------------------------------------------------------

  const WORD := 0x1_0000_0000_0000_0000

  lemma ByteIsPow2()
    ensures Pow2(8) == 0x100
  {
    assert Pow2(4) == 16;
    hide Pow2;
    Pow2Add(4, 4);
  }

  lemma WordIsPow2()
    ensures Pow2(64) == WORD
  {
    hide Pow2;
    ByteIsPow2();
    Pow2Add(8, 8);
    Pow2Add(16, 16);
    Pow2Add(32, 32);
  }

  lemma ModOfMultiple(n: int, big: int, rest: int, cap: int)
    requires cap >= 1 && big >= 1 && big == cap * rest
    ensures n % big % cap == n % cap
  {
    var w := n % big;
    var q, r := w / cap, w % cap;
    assert n == n / big * big + w;
    assert n / big * (cap * rest) == n / big * rest * cap;
    assert n == (n / big * rest + q) * cap + r;
    DivModUnique(n, cap, n / big * rest + q, r);
  }

  // A 64-bit counter and a mask pick the same slot as the unbounded counter does.
  lemma WrapThenMask(n: int, e: nat)
    requires e <= 64
    ensures n % WORD % Pow2(e) == n % Pow2(e)
  {
    hide Pow2;
    Pow2Add(e, 64 - e);
    WordIsPow2();
    ModOfMultiple(n, WORD, Pow2(64 - e), Pow2(e));
  }

  lemma NextWord(n: nat)
    ensures (n % WORD + 1) % WORD == (n + 1) % WORD
  {}

  // The slot read for tap k, once n samples were written.
  lemma TapSlot(n: nat, k: nat, e: nat)
    requires e <= 64
    ensures ((n % WORD + WORD - 1) % WORD - k) % WORD % Pow2(e) == (n - 1 - k) % Pow2(e)
  {
    assert ((n % WORD + WORD - 1) % WORD - k) % WORD == (n - 1 - k) % WORD;
    WrapThenMask(n - 1 - k, e);
  }

  lemma SlotsDiffer(i: int, n: int, cap: int)
    requires n - cap < i < n && cap >= 1
    ensures i % cap != n % cap
  {
    var d := n / cap - i / cap;
    if i % cap == n % cap {
      assert n - i == d * cap by {
        assert n == n / cap * cap + n % cap;
        assert i == i / cap * cap + i % cap;
        assert (n / cap - i / cap) * cap == n / cap * cap - i / cap * cap;
      }
      MulOrder(1, d, cap);
      MulOrder(d, 0, cap);
    }
  }

  lemma DoubledPower(e: nat)
    ensures Pow2(0) == 1 && Pow2(e + 1) == 2 * Pow2(e)
  {}

  class FirDecimator {
    const factor: int
    const h: seq<real>
    const exponent: nat
    const delay: array<Complex>
    var count: int
    var wpos: nat
    ghost var history: seq<Complex>

    // Slot i of the ring, counted modulo its length, holds sample i for the last samples.
    ghost predicate Valid()
      reads this, delay
      ensures Valid() ==> 1 <= factor
    {
      && 1 <= factor && exponent <= 31 && |h| <= delay.Length == Pow2(exponent)
      && wpos == |history| % WORD
      && count == |history| % factor
      && HoldsLast(delay[..], history, |history| - delay.Length)
    }

    // The outputs so far.
    ghost function Output(): (y: seq<Complex>)
      requires factor >= 1
      reads this
    {
      Decimated(Lift(h), factor, history)
    }

    // design() with the coefficients given. The ring is the next power of two, all zero.
    constructor (factor: int, coefficients: seq<real>)
      requires factor >= 1 && |coefficients| <= Pow2(31)
      ensures Valid() && this.factor == factor && h == coefficients && history == [] && fresh(delay)
    {
      hide Pow2, HoldsLast;
      var e, capacity := RingSize(|coefficients|);
      this.factor := factor;
      h := coefficients;
      exponent := e;
      delay := new Complex[capacity](_ => ZERO);
      count, wpos := 0, 0;
      history := [];
      new;
      DivModUnique(0, factor, 0, 0);
      EmptyRing(delay[..]);
    }

    // Lines 42-44: the least power of two that holds all taps.
    static method RingSize(taps: nat) returns (e: nat, capacity: nat)
      requires taps <= Pow2(31)
      ensures e <= 31 && taps <= capacity == Pow2(e) && (e > 0 ==> Pow2(e - 1) < taps)
    {
      hide Pow2;
      e, capacity := 0, 1;
      DoubledPower(0);
      while capacity < taps
        invariant e <= 31 && capacity == Pow2(e) && (e > 0 ==> Pow2(e - 1) < taps)
        decreases 31 - e
      {
        DoubledPower(e);
        e, capacity := e + 1, 2 * capacity;
      }
    }

    // Lines 52-67. `index % delay.Length` is the source's `index & mask_`.
    method Push(sample: Complex) returns (produced: bool, out: Complex)
      requires Valid()
      modifies this, delay
      ensures Valid() && history == old(history) + [sample]
      ensures produced == (|history| % factor == 0)
      ensures produced ==> out == Fir(Lift(h), history, |history| - 1)
      ensures Output() == old(Output()) + (if produced then [out] else [])
    {
      hide Fir, HoldsLast, Pow2, Decimated;
      out, produced := ZERO, false;
      DecimatedAppend(Lift(h), factor, history, sample);
      Advance(sample);
      if count < factor {
        return;
      }
      count := 0;
      out := Accumulate();
      produced := true;
    }

    // The write, the two increments, and where the count then stands.
    method Advance(sample: Complex)
      requires Valid()
      modifies this, delay
      ensures history == old(history) + [sample]
      ensures 1 <= factor && exponent <= 31 && |h| <= delay.Length == Pow2(exponent)
      ensures wpos == |history| % WORD && HoldsLast(delay[..], history, |history| - delay.Length)
      ensures count < factor ==> count == |history| % factor && |history| % factor != 0
      ensures count >= factor ==> |history| % factor == 0
    {
      hide HoldsLast, Pow2;
      var slot := wpos % delay.Length;
      WrapThenMask(|history|, exponent);
      assert slot == |history| % delay.Length;
      HoldsAfter(delay[..], history, sample);
      NextQuotient(|history|, factor);
      delay[slot] := sample;
      assert delay[..] == old(delay[..])[slot := sample];
      NextWord(|history|);
      wpos := (wpos + 1) % WORD;
      count := count + 1;
      history := history + [sample];
    }

    method Accumulate() returns (acc: Complex)
      requires 1 <= factor && exponent <= 31 && |h| <= delay.Length == Pow2(exponent)
      requires wpos == |history| % WORD && HoldsLast(delay[..], history, |history| - delay.Length)
      ensures acc == Fir(Lift(h), history, |history| - 1)
    {
      hide Mul, Add, Scale, HoldsLast, Pow2, ConvTerms, At, Lift;
      acc := ZERO;
      var idx := (wpos + WORD - 1) % WORD;
      var k := 0;
      ghost var terms := ConvTerms(history, Lift(h), |history| - 1);
      while k < |h|
        invariant 0 <= k <= |h| && acc == Sum(terms, k)
      {
        TapTerm(delay[..], history, h, k, exponent);
        var slot := (idx - k) % WORD % delay.Length;
        acc := Add(acc, Scale(h[k], delay[slot]));
        k := k + 1;
      }
    }
  }

  ghost predicate HoldsLast(ring: seq<Complex>, history: seq<Complex>, first: int) {
    |ring| >= 1 && forall i {:trigger At(history, i)} :: first <= i < |history| ==> ring[i % |ring|] == At(history, i)
  }

  // Before the first sample every slot is zero, as is the stream.
  lemma EmptyRing(ring: seq<Complex>)
    requires |ring| >= 1 && forall i :: 0 <= i < |ring| ==> ring[i] == ZERO
    ensures HoldsLast(ring, [], -|ring|)
  {}

  lemma HeldSample(ring: seq<Complex>, history: seq<Complex>, first: int, i: int)
    requires HoldsLast(ring, history, first) && first <= i < |history|
    ensures ring[i % |ring|] == At(history, i)
  {}

  // What tap k adds, read from the slot that the counter and the mask give.
  lemma TapTerm(ring: seq<Complex>, history: seq<Complex>, h: seq<real>, k: nat, e: nat)
    requires e <= 31 && k < |h| <= |ring| == Pow2(e) && HoldsLast(ring, history, |history| - |ring|)
    ensures var slot := ((|history| % WORD + WORD - 1) % WORD - k) % WORD % |ring|;
      Scale(h[k], ring[slot]) == ConvTerms(history, Lift(h), |history| - 1)(k)
  {
    hide Mul, Scale, HoldsLast, Pow2;
    var t := |history| - 1 - k;
    TapSlot(|history|, k, e);
    HeldSample(ring, history, |history| - |ring|, t);
    ScaleIsMul(h[k], ring[t % |ring|]);
    assert At(Lift(h), k) == Real(h[k]);
  }

  lemma HoldsAfter(ring: seq<Complex>, history: seq<Complex>, s: Complex)
    requires HoldsLast(ring, history, |history| - |ring|)
    ensures HoldsLast(ring[|history| % |ring| := s], history + [s], |history| + 1 - |ring|)
  {
    var n := |history|;
    var after := ring[n % |ring| := s];
    forall i {:trigger At(history + [s], i)} | n + 1 - |ring| <= i < n + 1
      ensures after[i % |ring|] == At(history + [s], i)
    {
      if i < n {
        SlotsDiffer(i, n, |ring|);
        HeldSample(ring, history, n - |ring|, i);
        assert At(history + [s], i) == At(history, i);
      }
    }
  }
}

// Cascades of decimating filters, and the single filter each is equal to.
module Cascades {
  import opened Complexes
  import opened PowersOfTwo
  import opened Dft
  import opened Convolution
  import opened FirFilter
  import opened Decimation

  datatype Stage = Stage(h: seq<Complex>, factor: int)

  // What the stages give, each fed with the output of the one before it.
  ghost function Through(stages: seq<Stage>, x: seq<Complex>): seq<Complex>
    requires forall s :: s in stages ==> s.factor >= 1
  {
    if stages == [] then x
    else
      var last := stages[|stages| - 1];
      Decimated(last.h, last.factor, Through(stages[..|stages| - 1], x))
  }

  // g at the slow rate seen from the fast rate: tap n is the sum over j of g[j] * h[n - factor * j].
  ghost function CombinedTerms(h: seq<Complex>, factor: int, g: seq<Complex>, n: int): int -> Complex {
    j => Mul(At(g, j), At(h, n - factor * j))
  }

  ghost function CombinedTap(h: seq<Complex>, factor: int, g: seq<Complex>, n: int): Complex {
    Sum(CombinedTerms(h, factor, g, n), |g|)
  }

  function CombinedLength(h: seq<Complex>, factor: int, g: seq<Complex>): (n: int)
    requires factor >= 1
    ensures n >= |h|
  {
    MulOrder(0, |g|, factor);
    |h| + factor * |g|
  }

  ghost function Combined(h: seq<Complex>, factor: int, g: seq<Complex>): (c: seq<Complex>)
    requires factor >= 1
    ensures |c| == CombinedLength(h, factor, g)
  {
    seq(CombinedLength(h, factor, g), n => CombinedTap(h, factor, g, n))
  }

  // Row j, column n of the double sum behind a filter with the combined taps.
  ghost function Cell(h: seq<Complex>, factor: int, g: seq<Complex>, x: seq<Complex>, t: int): (int, int) -> Complex {
    (j, n) => Mul(Mul(At(g, j), At(h, n - factor * j)), At(x, t - n))
  }

  lemma Column(h: seq<Complex>, factor: int, g: seq<Complex>, x: seq<Complex>, t: int, n: nat)
    requires factor >= 1 && n < CombinedLength(h, factor, g)
    ensures ColumnSums(Cell(h, factor, g, x, t), |g|)(n) == ConvTerms(x, Combined(h, factor, g), t)(n)
  {
    hide Mul;
    var cell := Cell(h, factor, g, x, t);
    var f := j => cell(j, n);
    forall j | 0 <= j < |g|
      ensures f(j) == Mul(At(x, t - n), CombinedTerms(h, factor, g, n)(j))
    {
      MulComm(Mul(At(g, j), At(h, n - factor * j)), At(x, t - n));
    }
    SumMul(At(x, t - n), CombinedTerms(h, factor, g, n), f, |g|);
    MulComm(At(x, t - n), CombinedTap(h, factor, g, n));
  }

  // A sum whose terms vanish outside a window is the sum over the window.
  lemma Window(f: int -> Complex, inner: int -> Complex, from: nat, len: nat, width: nat)
    requires from + len <= width
    requires forall n :: 0 <= n < from || from + len <= n < width ==> f(n) == ZERO
    requires forall n :: 0 <= n < len ==> inner(n) == f(from + n)
    ensures Sum(f, width) == Sum(inner, len)
  {
    hide Sum, Add;
    var tail, rest := n => f(from + n), n => f(from + len + n);
    SumZero(f, from);
    SumSplit(f, tail, from, width - from);
    SumZero(rest, width - from - len);
    SumSplit(tail, rest, len, width - from - len);
    SumExt(inner, tail, len);
    AddLaws(Sum(inner, len), ZERO, ZERO);
  }

  lemma CellValue(h: seq<Complex>, factor: int, g: seq<Complex>, x: seq<Complex>, t: int, j: nat, n: int)
    ensures n < factor * j || factor * j + |h| <= n ==> Cell(h, factor, g, x, t)(j, n) == ZERO
    ensures Cell(h, factor, g, x, t)(j, n) == Mul(At(g, j), ConvTerms(x, h, t - factor * j)(n - factor * j))
  {
    hide Mul;
    if n < factor * j || factor * j + |h| <= n {
      assert At(h, n - factor * j) == ZERO;
      MulUnit(At(g, j));
      MulUnit(At(x, t - n));
    }
    MulAssoc(At(g, j), At(h, n - factor * j), At(x, t - n));
  }

  lemma Fits(h: seq<Complex>, factor: int, g: seq<Complex>, j: nat)
    requires factor >= 1 && j < |g|
    ensures 0 <= factor * j && factor * j + |h| <= CombinedLength(h, factor, g)
  {
    MulOrder(0, j, factor);
    MulOrder(j + 1, |g|, factor);
  }

  // Shifting the taps by factor * j delays the output by as much.
  lemma Row(h: seq<Complex>, factor: int, g: seq<Complex>, x: seq<Complex>, t: int, j: nat)
    requires factor >= 1 && j < |g|
    ensures RowSums(Cell(h, factor, g, x, t), CombinedLength(h, factor, g))(j) == Mul(At(g, j), Fir(h, x, t - factor * j))
  {
    hide Mul, Cell, ConvTerms, At, Sum, CombinedLength;
    var cell, width := Cell(h, factor, g, x, t), CombinedLength(h, factor, g);
    var f := n => cell(j, n);
    Fits(h, factor, g, j);
    RowIn(h, factor, g, x, t, j, factor * j, width, f);
    assert RowSums(cell, width)(j) == Sum(n => cell(j, n), width);
    SumExt(f, n => cell(j, n), width);
  }

  lemma RowIn(h: seq<Complex>, factor: int, g: seq<Complex>, x: seq<Complex>, t: int, j: nat, shift: nat, width: nat,
        f: int -> Complex)
    requires factor >= 1 && j < |g| && shift == factor * j && shift + |h| <= width
    requires forall n :: f(n) == Cell(h, factor, g, x, t)(j, n)
    ensures Sum(f, width) == Mul(At(g, j), Fir(h, x, t - shift))
  {
    hide Mul, Cell, ConvTerms, At, Sum;
    var terms := ConvTerms(x, h, t - shift);
    var inner := n => Mul(At(g, j), terms(n));
    forall n | 0 <= n < shift || shift + |h| <= n < width
      ensures f(n) == ZERO
    {
      CellValue(h, factor, g, x, t, j, n);
    }
    forall n | 0 <= n < |h|
      ensures inner(n) == f(shift + n)
    {
      CellValue(h, factor, g, x, t, j, shift + n);
      assert shift + n - shift == n;
    }
    SumMul(At(g, j), terms, inner, |h|);
    Window(f, inner, shift, |h|, width);
  }

  ghost function Delayed(h: seq<Complex>, factor: int, g: seq<Complex>, x: seq<Complex>, t: int): int -> Complex {
    j => Mul(At(g, j), Fir(h, x, t - factor * j))
  }

  // The combined filter at time t: g over the outputs of h, `factor` apart.
  lemma CombinedIsBoth(h: seq<Complex>, factor: int, g: seq<Complex>, x: seq<Complex>, t: int)
    requires factor >= 1
    ensures Fir(Combined(h, factor, g), x, t) == Sum(Delayed(h, factor, g, x, t), |g|)
  {
    hide Mul, Add, Cell, ConvTerms, At, Sum, RowSums, ColumnSums, CombinedLength;
    var cell, width := Cell(h, factor, g, x, t), CombinedLength(h, factor, g);
    forall j | 0 <= j < |g|
      ensures RowSums(cell, width)(j) == Delayed(h, factor, g, x, t)(j)
    {
      Row(h, factor, g, x, t, j);
    }
    SumExt(RowSums(cell, width), Delayed(h, factor, g, x, t), |g|);
    SumSwap(cell, |g|, width);
    forall n | 0 <= n < width
      ensures ColumnSums(cell, |g|)(n) == ConvTerms(x, Combined(h, factor, g), t)(n)
    {
      Column(h, factor, g, x, t, n);
    }
    SumExt(ColumnSums(cell, |g|), ConvTerms(x, Combined(h, factor, g), t), width);
  }

  // Zero before the stream, as the ring starts.
  lemma OutputOf(h: seq<Complex>, factor: int, x: seq<Complex>, p: int)
    requires factor >= 1 && p < |x| / factor
    ensures At(Decimated(h, factor, x), p) == Fir(h, x, (p + 1) * factor - 1)
  {
    if p < 0 {
      MulOrder(p + 1, 0, factor);
      ConvOutside(x, h, (p + 1) * factor - 1);
    }
  }

  lemma DivideTwice(n: nat, a: int, b: int)
    requires a >= 1 && b >= 1
    ensures a * b >= 1 && n / a >= 0 && n / a / b == n / (a * b)
  {
    MulOrder(1, a, b);
    QuotientBound(n, a, 0);
    var p := n / a;
    var q, r, s := p / b, n % a, p % b;
    MulOrder(s + 1, b, a);
    MulOrder(0, s, a);
    NestedDivision(n, a, b, p, q, r, s);
    DivModUnique(n, a * b, q, s * a + r);
  }

  lemma NestedDivision(n: int, a: int, b: int, p: int, q: int, r: int, s: int)
    requires n == p * a + r && p == q * b + s
    ensures n == q * (a * b) + (s * a + r)
  {
    assert (q * b + s) * a == q * b * a + s * a;
    assert q * b * a == q * (a * b);
  }

  lemma FirIsSum(h: seq<Complex>, x: seq<Complex>, t: int)
    ensures Fir(h, x, t) == Sum(ConvTerms(x, h, t), |h|)
  {}

  lemma SameTime(m: int, a: int, b: int, j: int)
    ensures ((m + 1) * b - 1 - j + 1) * a - 1 == (m + 1) * (a * b) - 1 - a * j
  {}

  // Two stages in a row are one stage with the combined taps and the product of the factors.
  lemma TwoStages(h: seq<Complex>, a: int, g: seq<Complex>, b: int, x: seq<Complex>)
    requires a >= 1 && b >= 1
    ensures a * b >= 1
    ensures Decimated(g, b, Decimated(h, a, x)) == Decimated(Combined(h, a, g), a * b, x)
  {
    hide Mul, Add, At, Combined, Fir;
    DivideTwice(|x|, a, b);
    var y := Decimated(h, a, x);
    forall m | 0 <= m < |x| / (a * b)
      ensures Decimated(g, b, y)[m] == Decimated(Combined(h, a, g), a * b, x)[m]
    {
      var u, t := (m + 1) * b - 1, (m + 1) * (a * b) - 1;
      WithinInput(|y|, b, m);
      forall j | 0 <= j < |g|
        ensures ConvTerms(y, g, u)(j) == Delayed(h, a, g, x, t)(j)
      {
        OutputOf(h, a, x, u - j);
        SameTime(m, a, b, j);
      }
      SumExt(ConvTerms(y, g, u), Delayed(h, a, g, x, t), |g|);
      CombinedIsBoth(h, a, g, x, t);
      FirIsSum(g, y, u);
    }
  }

  function Factors(stages: seq<Stage>): (f: seq<int>)
    ensures |f| == |stages|
  {
    seq(|stages|, i requires 0 <= i < |stages| => stages[i].factor)
  }

  function Total(stages: seq<Stage>): (d: int) {
    Product(Factors(stages))
  }

  lemma {:induction false} TotalPositive(stages: seq<Stage>)
    requires forall s :: s in stages ==> s.factor >= 1
    ensures Total(stages) >= 1
  {
    if stages != [] {
      TotalStep(stages);
      TotalPositive(stages[..|stages| - 1]);
      MulOrder(1, Total(stages[..|stages| - 1]), stages[|stages| - 1].factor);
    }
  }

  lemma TotalStep(stages: seq<Stage>)
    requires stages != []
    ensures Total(stages) == Total(stages[..|stages| - 1]) * stages[|stages| - 1].factor
  {
    assert Factors(stages)[..|stages| - 1] == Factors(stages[..|stages| - 1]);
  }

  // The combined impulse response of a cascade.
  ghost function Response(stages: seq<Stage>): seq<Complex>
    requires forall s :: s in stages ==> s.factor >= 1
  {
    if stages == [] then [ONE]
    else
      var rest := stages[..|stages| - 1];
      TotalPositive(rest);
      Combined(Response(rest), Total(rest), stages[|stages| - 1].h)
  }

  lemma NoStage(x: seq<Complex>)
    ensures Decimated([ONE], 1, x) == x
  {
    forall m | 0 <= m < |x|
      ensures Fir([ONE], x, (m + 1) * 1 - 1) == x[m]
    {
      ConvOne(x, ONE, m);
      MulUnit(x[m]);
    }
  }

  // A cascade of any length is one filter, decimated by the product of the factors.
  lemma {:induction false} CascadeIsOneFilter(stages: seq<Stage>, x: seq<Complex>)
    requires forall s :: s in stages ==> s.factor >= 1
    ensures Total(stages) >= 1
    ensures Through(stages, x) == Decimated(Response(stages), Total(stages), x)
  {
    hide Decimated, Combined;
    TotalPositive(stages);
    if stages == [] {
      NoStage(x);
    } else {
      var rest, last := stages[..|stages| - 1], stages[|stages| - 1];
      CascadeIsOneFilter(rest, x);
      TotalStep(stages);
      TwoStages(Response(rest), Total(rest), last.h, last.factor, x);
    }
  }

  // ---- Gain --------------------------------------------------------------------

  ghost function Gain(h: seq<Complex>): Complex {
    Sum(i => At(h, i), |h|)
  }

  function Constant(c: Complex, n: nat): (x: seq<Complex>)
    ensures |x| == n && forall i :: 0 <= i < n ==> x[i] == c
  {
    seq(n, _ => c)
  }

  // Once filled with a constant, a filter gives the constant times its gain.
  lemma ConstantInput(h: seq<Complex>, c: Complex, n: nat, t: int)
    requires |h| - 1 <= t < n
    ensures Fir(h, Constant(c, n), t) == Mul(c, Gain(h))
  {
    hide Mul;
    var f := i => At(h, i);
    forall k | 0 <= k < |h|
      ensures ConvTerms(Constant(c, n), h, t)(k) == Mul(c, f(k))
    {
      MulComm(At(h, k), c);
    }
    SumMul(c, f, ConvTerms(Constant(c, n), h, t), |h|);
    SumExt(f, i => At(h, i), |h|);
  }

  lemma GainCombined(h: seq<Complex>, factor: int, g: seq<Complex>)
    requires factor >= 1
    ensures Gain(Combined(h, factor, g)) == Mul(Gain(h), Gain(g))
  {
    hide Mul, Fir, Combined;
    var width := CombinedLength(h, factor, g);
    var x, f := Constant(ONE, width + 1), i => At(g, i);
    forall j | 0 <= j < |g|
      ensures Delayed(h, factor, g, x, width)(j) == Mul(Gain(h), f(j))
    {
      Fits(h, factor, g, j);
      ConstantInput(h, ONE, width + 1, width - factor * j);
      MulUnit(Gain(h));
      MulComm(At(g, j), Gain(h));
    }
    SumMul(Gain(h), f, Delayed(h, factor, g, x, width), |g|);
    SumExt(f, i => At(g, i), |g|);
    CombinedIsBoth(h, factor, g, x, width);
    ConstantInput(Combined(h, factor, g), ONE, width + 1, width);
    MulUnit(Gain(Combined(h, factor, g)));
  }

  // Stages of unit gain at zero frequency make a cascade of unit gain.
  lemma {:induction false} UnitGain(stages: seq<Stage>)
    requires forall s :: s in stages ==> s.factor >= 1 && Gain(s.h) == ONE
    ensures Gain(Response(stages)) == ONE
  {
    if stages == [] {
      assert Sum(i => At([ONE], i), 1) == Add(Sum(i => At([ONE], i), 0), At([ONE], 0));
    } else {
      var rest, last := stages[..|stages| - 1], stages[|stages| - 1];
      UnitGain(rest);
      TotalPositive(rest);
      GainCombined(Response(rest), Total(rest), last.h);
      MulUnit(ONE);
    }
  }
}
