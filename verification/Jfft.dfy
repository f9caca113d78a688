// The in-place transforms of src/dsp/jfft.cpp and the vector wrappers of src/dsp/jfft.h.
// A pointer-and-size argument is an array; a std::vector is a sequence held in a variable.

module Jfft {
  import opened Complexes
  import opened PowersOfTwo
  import opened Roots
  import opened BitReversal
  import opened Dft
  import opened Inversion
  import opened RealDft

  // Row s of the table, from entry 2^s - 1 on: the roots of order 2^(s + 1) that are "not
  // quite half way around the cake".
  ghost predicate IsTwiddleRow(cis: real -> Complex, dir: Direction, table: seq<Complex>, s: nat) {
    && 2 * Pow2(s) - 1 <= |table|
    && forall w :: Pow2(s) - 1 <= w < 2 * Pow2(s) - 1 ==>
         table[w] == Root(cis, dir, w - (Pow2(s) - 1), 2 * Pow2(s))
  }

  ghost predicate IsTwiddleTable(cis: real -> Complex, dir: Direction, table: seq<Complex>, levels: nat) {
    forall s: nat :: s < levels ==> IsTwiddleRow(cis, dir, table, s)
  }

  // Writing at or beyond a row leaves the rows before it alone.
  lemma EarlierRows(cis: real -> Complex, dir: Direction, table: seq<Complex>, s: nat, w: nat, v: Complex)
    requires IsTwiddleTable(cis, dir, table, s) && Pow2(s) - 1 <= w < |table|
    ensures IsTwiddleTable(cis, dir, table[w := v], s)
  {
    var after := table[w := v];
    forall t: nat | t < s
      ensures IsTwiddleRow(cis, dir, after, t)
    {
      assert IsTwiddleRow(cis, dir, table, t);
      Pow2Grows(t, s);
    }
  }

  // std::vector::resize: cut off, or filled up with v.
  function Resized<T>(x: seq<T>, n: nat, v: T): (y: seq<T>)
    ensures |y| == n
    ensures forall i :: 0 <= i < n ==> y[i] == if i < |x| then x[i] else v
    ensures |x| == n ==> y == x
  {
    if n <= |x| then x[..n] else x + seq(n - |x|, _ => v)
  }

  // k & mask for non-negative ints.
  function BitAnd(k: nat, mask: nat): nat {
    if mask == 0 then 0 else (if k % 2 == 1 && mask % 2 == 1 then 1 else 0) + 2 * BitAnd(k / 2, mask / 2)
  }

  lemma ModDouble(k: nat, h: int)
    requires h > 0
    ensures k % (2 * h) == 2 * (k / 2 % h) + k % 2
  {
    var q, r := k / 2 / h, k / 2 % h;
    assert k / 2 == q * h + r;
    assert k == q * (2 * h) + (2 * r + k % 2);
    DivModUnique(k, 2 * h, q, 2 * r + k % 2);
  }

  lemma BitAndStep(k: nat, mask: nat)
    ensures BitAnd(k, 2 * mask + 1) == k % 2 + 2 * BitAnd(k / 2, mask)
  {
    assert (2 * mask + 1) / 2 == mask && (2 * mask + 1) % 2 == 1;
  }

  lemma BitAndDouble(k: nat, h: nat)
    requires h > 0 && BitAnd(k / 2, h - 1) == k / 2 % h
    ensures BitAnd(k, 2 * h - 1) == k % (2 * h)
  {
    hide BitAnd;
    BitAndStep(k, h - 1);
    ModDouble(k, h);
  }

  lemma BitAndZero(k: nat)
    ensures BitAnd(k, Pow2(0) - 1) == k % Pow2(0)
  {
    assert Pow2(0) == 1;
  }

  lemma {:induction false} BitAndMask(k: nat, s: nat)
    ensures BitAnd(k, Pow2(s) - 1) == k % Pow2(s)
  {
    hide BitAnd;
    if s == 0 {
      BitAndZero(k);
    } else {
      BitAndMask(k / 2, s - 1);
      BitAndDouble(k, Pow2(s - 1));
    }
  }

  // The state of the exchange loop before index i: a pair is exchanged once its smaller
  // index has been passed.
  ghost predicate Exchanged(x: seq<Complex>, y: seq<Complex>, p: nat, i: int) {
    && |x| == |y| == Pow2(p)
    && forall q {:trigger y[q]} :: 0 <= q < |x| ==>
         var r := Reverse(p, q);
         y[q] == At(x, if q < i || r < i then r else q)
  }

  lemma ExchangeStep(x: seq<Complex>, y: seq<Complex>, p: nat, i: nat)
    requires Exchanged(x, y, p, i) && i < |x|
    ensures var r := Reverse(p, i);
            r < |x| && Exchanged(x, if r > i then y[i := y[r]][r := y[i]] else y, p, i + 1)
  {
    hide Reverse, Pow2;
    var r := Reverse(p, i);
    ReverseInvolution(p, i);
    var z := if r > i then y[i := y[r]][r := y[i]] else y;
    forall q | 0 <= q < |x|
      ensures z[q] == At(x, if q < i + 1 || Reverse(p, q) < i + 1 then Reverse(p, q) else q)
    {
      ExchangeAt(x, y, p, i, q);
    }
  }

  lemma ExchangeAt(x: seq<Complex>, y: seq<Complex>, p: nat, i: nat, q: nat)
    requires Exchanged(x, y, p, i) && i < |x| && q < |x|
    ensures var r := Reverse(p, i);
      r < |x| && (if r > i then y[i := y[r]][r := y[i]] else y)[q]
                 == At(x, if q < i + 1 || Reverse(p, q) < i + 1 then Reverse(p, q) else q)
  {
    hide Reverse, Pow2, At;
    var r := Reverse(p, i);
    ReverseInvolution(p, i);
    ReverseInvolution(p, q);
    assert y[q] == At(x, if q < i || Reverse(p, q) < i then Reverse(p, q) else q);
    assert y[i] == At(x, if i < i || r < i then r else i);
    assert y[r] == At(x, if r < i || Reverse(p, r) < i then Reverse(p, r) else r);
  }

  class JFFT {
    const cis: real -> Complex
    var nfft: nat
    var nfft_2power: nat
    var twiddle: seq<Complex>
    var twiddleInv: seq<Complex>
    var diddleA: seq<Complex>
    var diddleB: seq<Complex>

    // Either not initialised yet, or every table belongs to the current size.
    ghost predicate Valid()
      reads this
    {
      && IsCis(cis)
      && (nfft == 0 || Initialised())
    }

    ghost predicate Initialised()
      reads this
    {
      && nfft == Pow2(nfft_2power)
      && nfft_2power <= 30
      && |twiddle| == |twiddleInv| == nfft
      && IsTwiddleTable(cis, Forward, twiddle, nfft_2power)
      && IsTwiddleTable(cis, Inverse, twiddleInv, nfft_2power)
      && |diddleA| == |diddleB| == nfft
      && (forall i :: 0 <= i < nfft ==> diddleA[i] == DiddleA(cis, nfft, i))
      && (forall i :: 0 <= i < nfft ==> diddleB[i] == DiddleB(cis, nfft, i))
    }

    constructor (cis: real -> Complex)
      requires IsCis(cis)
      ensures Valid() && nfft == 0 && this.cis == cis
    {
      this.cis := cis;
      nfft, nfft_2power := 0, 0;
      twiddle, twiddleInv, diddleA, diddleB := [], [], [], [];
    }

    // The next power of two becomes the size. A size over 2^30 would overflow `int`.
    method Init(fftSize: int) returns (size: nat)
      requires Valid() && fftSize <= MaxSize()
      modifies this
      ensures Valid() && Initialised() && size == nfft
      ensures nfft_2power == CeilLog2(fftSize)
    {
      hide MaxSize;
      nfft, nfft_2power := 1, 0;
      while nfft < fftSize
        invariant nfft == Pow2(nfft_2power) && nfft_2power <= 30
        invariant nfft_2power > 0 ==> Pow2(nfft_2power - 1) < fftSize
        decreases fftSize - nfft
      {
        BelowMaxSize(nfft_2power);
        nfft, nfft_2power := nfft * 2, nfft_2power + 1;
      }
      size := nfft;
      LeastPower(fftSize, nfft_2power);
      LoadTwiddles();
      LoadDiddles();
    }

    // W^0_2, W^0_4, W^1_4, W^0_8, W^1_8, W^2_8, W^3_8, ...
    method LoadTwiddles()
      requires nfft == Pow2(nfft_2power)
      modifies this`twiddle, this`twiddleInv
      ensures |twiddle| == |twiddleInv| == nfft
      ensures IsTwiddleTable(cis, Forward, twiddle, nfft_2power)
      ensures IsTwiddleTable(cis, Inverse, twiddleInv, nfft_2power)
    {
      hide Root;
      twiddle := seq(nfft, _ => ZERO);
      twiddleInv := seq(nfft, _ => ZERO);
      var w := 0;
      var pieces := 2;
      ghost var s := 0;
      while pieces <= nfft
        invariant s <= nfft_2power && pieces == 2 * Pow2(s) && w == Pow2(s) - 1
        invariant pieces <= nfft <==> s < nfft_2power
        invariant |twiddle| == |twiddleInv| == nfft
        invariant IsTwiddleTable(cis, Forward, twiddle, s)
        invariant IsTwiddleTable(cis, Inverse, twiddleInv, s)
        decreases nfft_2power - s
      {
        w := LoadRow(w, pieces, s);
        if s + 1 < nfft_2power {
          Pow2Grows(s + 1, nfft_2power);
        }
        s := s + 1;
        pieces := pieces * 2;
      }
    }

    // The roots of one size, behind those of the smaller ones.
    method LoadRow(start: nat, pieces: nat, ghost s: nat) returns (w: nat)
      requires pieces == 2 * Pow2(s) <= nfft && start == Pow2(s) - 1 && |twiddle| == |twiddleInv| == nfft
      requires IsTwiddleTable(cis, Forward, twiddle, s) && IsTwiddleTable(cis, Inverse, twiddleInv, s)
      modifies this`twiddle, this`twiddleInv
      ensures w == 2 * Pow2(s) - 1 && |twiddle| == |twiddleInv| == nfft
      ensures IsTwiddleTable(cis, Forward, twiddle, s + 1) && IsTwiddleTable(cis, Inverse, twiddleInv, s + 1)
    {
      hide Root, Pow2;
      w := start;
      var i := 0;
      while i < pieces / 2
        invariant 0 <= i <= pieces / 2 == Pow2(s) && w == Pow2(s) - 1 + i
        invariant |twiddle| == |twiddleInv| == nfft
        invariant IsTwiddleTable(cis, Forward, twiddle, s)
        invariant IsTwiddleTable(cis, Inverse, twiddleInv, s)
        invariant forall v :: Pow2(s) - 1 <= v < w ==> twiddle[v] == Root(cis, Forward, v - (Pow2(s) - 1), pieces)
        invariant forall v :: Pow2(s) - 1 <= v < w ==> twiddleInv[v] == Root(cis, Inverse, v - (Pow2(s) - 1), pieces)
      {
        EarlierRows(cis, Forward, twiddle, s, w, Root(cis, Forward, i, pieces));
        EarlierRows(cis, Inverse, twiddleInv, s, w, Root(cis, Inverse, i, pieces));
        twiddle := twiddle[w := Root(cis, Forward, i, pieces)];
        twiddleInv := twiddleInv[w := Root(cis, Inverse, i, pieces)];
        w := w + 1;
        i := i + 1;
      }
      assert IsTwiddleRow(cis, Forward, twiddle, s) && IsTwiddleRow(cis, Inverse, twiddleInv, s);
    }

    method LoadDiddles()
      requires nfft > 0
      modifies this`diddleA, this`diddleB
      ensures |diddleA| == |diddleB| == nfft
      ensures forall i :: 0 <= i < nfft ==> diddleA[i] == DiddleA(cis, nfft, i)
      ensures forall i :: 0 <= i < nfft ==> diddleB[i] == DiddleB(cis, nfft, i)
    {
      diddleA := seq(nfft, _ => ZERO);
      diddleB := seq(nfft, _ => ZERO);
      for i := 0 to nfft
        invariant |diddleA| == |diddleB| == nfft
        invariant forall j :: 0 <= j < i ==> diddleA[j] == DiddleA(cis, nfft, j)
        invariant forall j :: 0 <= j < i ==> diddleB[j] == DiddleB(cis, nfft, j)
      {
        diddleA := diddleA[i := DiddleA(cis, nfft, i)];
        diddleB := diddleB[i := DiddleB(cis, nfft, i)];
      }
    }

    // Mask bit reversal, then butterflies reached by stepping three pointers.
    method Fft(x: array<Complex>, dir: Direction)
      requires Valid() && nfft >= 2 && x.Length == nfft
      modifies x
      ensures x[..] == Transform(cis, dir, old(x[..]))
    {
      hide IsCis, AfterStages, Transform, Bin;
      ghost var x0 := x[..];
      ExchangeByMask(x);
      BitReversedIsStart(cis, dir, x0, x[..], nfft_2power);
      var nfill := 0;
      var n := 1;
      ghost var s := 0;
      SizeOrder(0, nfft_2power);
      while n < nfft
        invariant s <= nfft_2power && n == Pow2(s) && nfill == n - 1
        invariant n < nfft <==> s < nfft_2power
        invariant AfterStages(cis, dir, x0, x[..], nfft_2power, s)
        decreases nfft_2power - s
      {
        PointerStage(x, dir, n, nfill, x0, s);
        nfill := nfill * 2 + 1;
        n := n * 2;
        s := s + 1;
        SizeOrder(s, nfft_2power);
      }
      LastStage(cis, dir, x0, x[..], nfft_2power);
      ScaleIfInverse(x, dir, x0);
    }

    method ExchangeByMask(x: array<Complex>)
      requires nfft == x.Length == Pow2(nfft_2power) && 1 <= nfft_2power <= 30
      modifies x
      ensures forall q :: 0 <= q < nfft ==> x[q] == At(old(x[..]), Reverse(nfft_2power, q))
    {
      hide MaskReverse;
      ghost var x0 := x[..];
      var i := 0;
      while i < nfft
        invariant 0 <= i <= nfft
        invariant Exchanged(x0, x[..], nfft_2power, i)
      {
        MaskReverseIsReverse(nfft_2power, i, 32);
        ExchangeStep(x0, x[..], nfft_2power, i);
        var y := Value(ShiftRight(MaskReverse(Word(i)), 32 - nfft_2power), 32);
        if y > i {
          x[i], x[y] := x[y], x[i];
        }
        i := i + 1;
      }
    }

    method PointerStage(x: array<Complex>, dir: Direction, n: nat, nfill: nat, ghost x0: seq<Complex>, ghost s: nat)
      requires Valid() && Initialised() && x.Length == nfft
      requires s < nfft_2power && n == Pow2(s) && nfill == n - 1
      requires AfterStages(cis, dir, x0, x[..], nfft_2power, s)
      modifies x
      ensures AfterStages(cis, dir, x0, x[..], nfft_2power, s + 1)
    {
      hide IsCis, Mul, Root, Add, Sub, StageAt, AfterStages, Partial, NextTop, BitAnd, Pow2;
      ghost var before := x[..];
      var k := 0;
      var wp := n - 1;
      var xkp := 0;
      var xlp := k + n;
      var table := if dir == Forward then twiddle else twiddleInv;
      assert IsTwiddleRow(cis, dir, table, s);
      FirstTop(cis, dir, before, n);
      while k < nfft
        invariant Partial(cis, dir, before, x[..], n, k)
        invariant 0 <= k && k / n % 2 == 0
        invariant xkp == k && xlp == k + n && wp == n - 1 + k % n
        decreases nfft - k
      {
        PairInRange(k, nfft_2power, s);
        PointersAdvance(k, s);
        ButterflyStep(cis, dir, before, x[..], n, k);
        var y := Mul(table[wp], x[xlp]);
        x[xlp] := Sub(x[xkp], y);
        x[xkp] := Add(x[xkp], y);
        xkp, xlp, k := xkp + 1, xlp + 1, k + 1;
        if BitAnd(k, nfill) != 0 {
          wp := wp + 1;
        } else {
          k := k + n;
          xkp, xlp := xkp + n, xlp + n;
          wp := n - 1;
        }
      }
      StageAdvances(cis, dir, x0, before, x[..], nfft_2power, s, k);
    }

    // The same transform with the bits reversed one by one and the twiddles counted by k % n.
    method FftEasyToUnderstand(x: array<Complex>, dir: Direction)
      requires Valid() && nfft >= 1 && x.Length == nfft
      modifies x
      ensures x[..] == Transform(cis, dir, old(x[..]))
    {
      hide IsCis, AfterStages, Transform, Bin;
      ghost var x0 := x[..];
      ExchangeBitByBit(x);
      BitReversedIsStart(cis, dir, x0, x[..], nfft_2power);
      var n := 1;
      ghost var s := 0;
      SizeOrder(0, nfft_2power);
      while n < nfft
        invariant s <= nfft_2power && n == Pow2(s)
        invariant n < nfft <==> s < nfft_2power
        invariant AfterStages(cis, dir, x0, x[..], nfft_2power, s)
        decreases nfft_2power - s
      {
        IndexedStage(x, dir, n, x0, s);
        n := n * 2;
        s := s + 1;
        SizeOrder(s, nfft_2power);
      }
      LastStage(cis, dir, x0, x[..], nfft_2power);
      ScaleIfInverse(x, dir, x0);
    }

    method ExchangeBitByBit(x: array<Complex>)
      requires nfft == x.Length == Pow2(nfft_2power)
      modifies x
      ensures forall q :: 0 <= q < nfft ==> x[q] == At(old(x[..]), Reverse(nfft_2power, q))
    {
      ghost var x0 := x[..];
      var i := 0;
      while i < nfft
        invariant 0 <= i <= nfft
        invariant Exchanged(x0, x[..], nfft_2power, i)
      {
        var ti2 := ReverseBitByBit(i);
        ExchangeStep(x0, x[..], nfft_2power, i);
        if ti2 > i {
          x[i], x[ti2] := x[ti2], x[i];
        }
        i := i + 1;
      }
    }

    method ReverseBitByBit(i: nat) returns (ti2: nat)
      ensures ti2 == Reverse(nfft_2power, i)
    {
      assert Pow2(0) == 1 && forall b: nat :: Reverse(0, b) == 0;
      hide Pow2, Reverse;
      var ti := i;
      ti2 := 0;
      var j := 0;
      while j < nfft_2power
        invariant 0 <= j <= nfft_2power && ti >= 0
        invariant ti2 * Pow2(nfft_2power - j) + Reverse(nfft_2power - j, ti) == Reverse(nfft_2power, i)
      {
        ReverseStep(ti2, nfft_2power - j, ti);
        ti2 := ti2 * 2;
        ti2 := ti2 + ti % 2;
        ti := ti / 2;
        j := j + 1;
      }
    }

    method IndexedStage(x: array<Complex>, dir: Direction, n: nat, ghost x0: seq<Complex>, ghost s: nat)
      requires Valid() && Initialised() && x.Length == nfft
      requires s < nfft_2power && n == Pow2(s)
      requires AfterStages(cis, dir, x0, x[..], nfft_2power, s)
      modifies x
      ensures AfterStages(cis, dir, x0, x[..], nfft_2power, s + 1)
    {
      hide IsCis, Mul, Root, Add, Sub, StageAt, AfterStages, Partial, NextTop, Pow2, DiddleA, DiddleB;
      ghost var before := x[..];
      var k := 0;
      var l := k + n;
      var w := n - 1;
      var table := if dir == Forward then twiddle else twiddleInv;
      assert IsTwiddleRow(cis, dir, table, s);
      FirstTop(cis, dir, before, n);
      while k < nfft
        invariant Partial(cis, dir, before, x[..], n, k)
        invariant 0 <= k && k / n % 2 == 0
        invariant l == k + n && w == n - 1 + k % n
        decreases nfft - k
      {
        PairInRange(k, nfft_2power, s);
        ButterflyStep(cis, dir, before, x[..], n, k);
        IndexesAdvance(k, n);
        ghost var now := x[..];
        var y := Sub(x[k], Mul(table[w], x[l]));
        x[k] := Add(x[k], Mul(table[w], x[l]));
        x[l] := y;
        ghost var t := Mul(table[w], now[k + n]);
        assert x[..] == now[k + n := Sub(now[k], t)][k := Add(now[k], t)];
        k, l := k + 1, l + 1;
        if k % n == 0 {
          k, l := k + n, l + n;
          w := n - 1;
        } else {
          w := w + 1;
        }
      }
      StageAdvances(cis, dir, x0, before, x[..], nfft_2power, s, k);
    }

    static lemma SizeOrder(s: nat, p: nat)
      ensures s < p ==> Pow2(s) < Pow2(p)
    {
      if s < p {
        Pow2Grows(s, p);
      }
    }

    static lemma FirstTop(cis: real -> Complex, dir: Direction, before: seq<Complex>, n: int)
      requires n > 0
      ensures Partial(cis, dir, before, before, n, 0) && 0 / n % 2 == 0 && 0 % n == 0
    {
      DivModUnique(0, n, 0, 0);
      forall q | 0 <= q < |before|
        ensures Top(q, n) >= 0
      {
        TopIsEvenBlock(q, n);
        QuotientBound(q, n, 0);
        assert q / n / 2 * 2 * n >= 0;
      }
    }

    // k % n tells where a block ends.
    static lemma IndexesAdvance(k: nat, n: int)
      requires n > 0 && k / n % 2 == 0
      ensures var l := NextTop(k, n);
        && l / n % 2 == 0
        && (if (k + 1) % n == 0 then l == k + 1 + n && l % n == 0 else l == k + 1 && l % n == k % n + 1)
    {
      NextTopFacts(k, n);
    }

    // k & nfill tells where a block ends.
    static lemma PointersAdvance(k: nat, s: nat)
      requires k / Pow2(s) % 2 == 0
      ensures var n, l := Pow2(s), NextTop(k, Pow2(s));
        && l / n % 2 == 0 && (BitAnd(k + 1, n - 1) != 0 <==> (k + 1) % n != 0)
        && (if (k + 1) % n != 0 then l == k + 1 && l % n == k % n + 1 else l == k + 1 + n && l % n == 0)
    {
      NextTopFacts(k, Pow2(s));
      BitAndMask(k + 1, s);
    }

    static lemma PairInRange(k: nat, p: nat, s: nat)
      requires s < p && k < Pow2(p) && k / Pow2(s) % 2 == 0
      ensures k + Pow2(s) < Pow2(p) && 0 <= k % Pow2(s) < Pow2(s) && 2 * Pow2(s) <= Pow2(p)
    {
      TopInRange(k, p, s);
      Pow2Grows(s, p);
    }

    method ScaleIfInverse(x: array<Complex>, dir: Direction, ghost x0: seq<Complex>)
      requires nfft == |x0| == x.Length > 0
      requires forall j :: 0 <= j < nfft ==> x[j] == Bin(cis, dir, x0, j)
      modifies x
      ensures x[..] == Transform(cis, dir, x0)
    {
      hide Block, Bin;
      if dir == Inverse {
        for i := 0 to nfft
          invariant forall j :: 0 <= j < i ==> x[j] == Scale(1.0 / nfft as real, Bin(cis, dir, x0, j))
          invariant forall j :: i <= j < nfft ==> x[j] == Bin(cis, dir, x0, j)
        {
          x[i] := Scale(1.0 / nfft as real, x[i]);
        }
      }
    }

    // The transform from the definition; any positive size.
    method Sft(x: array<Complex>, dir: Direction)
      requires IsCis(cis) && x.Length > 0
      modifies x
      ensures x[..] == Transform(cis, dir, old(x[..]))
    {
      hide IsCis, Root, Mul, Add;
      var size := x.Length;
      ghost var x0 := x[..];
      var W := Root(cis, dir, 1, size);
      var Wf := seq(size, i requires 0 <= i => Power(W, i));
      var F := seq(size, _ => ZERO);
      for n := 0 to size
        invariant |F| == size && x[..] == x0
        invariant forall j :: 0 <= j < n ==> F[j] == Bin(cis, dir, x0, j)
        invariant forall j :: n <= j < size ==> F[j] == ZERO
      {
        ghost var terms := BlockTerms(cis, dir, x0, 1, 0, size, n);
        for k := 0 to size
          invariant |F| == size && x[..] == x0
          invariant forall j :: 0 <= j < n ==> F[j] == Bin(cis, dir, x0, j)
          invariant forall j :: n < j < size ==> F[j] == ZERO
          invariant F[n] == Sum(terms, k)
        {
          SftTerm(x0, dir, n, k);
          F := F[n := Add(F[n], Mul(x[k], Wf[(n * k) % size]))];
        }
      }
      hide Bin;
      if dir == Inverse {
        for i := 0 to size
          invariant forall j :: 0 <= j < i ==> x[j] == Scale(1.0 / size as real, F[j])
        {
          x[i] := Scale(1.0 / size as real, F[i]);
        }
      } else {
        for i := 0 to size
          invariant forall j :: 0 <= j < i ==> x[j] == F[j]
        {
          x[i] := F[i];
        }
      }
    }

    lemma SftTerm(x: seq<Complex>, dir: Direction, n: nat, k: nat)
      requires IsCis(cis) && k < |x|
      ensures BlockTerms(cis, dir, x, 1, 0, |x|, n)(k)
           == Mul(x[k], Power(Root(cis, dir, 1, |x|), (n * k) % |x|))
    {
      hide IsCis, Root, Mul;
      PowerIsRoot(cis, dir, (n * k) % |x|, |x|);
      RootMod(cis, dir, n * k, |x|);
    }

    // The std::vector forms: re-initialise when the length is not the current size, and pad
    // the vector with zeros up to the power of two chosen.
    method FftVector(x: seq<Complex>, dir: Direction) returns (y: seq<Complex>)
      requires Valid() && 2 <= |x| <= MaxSize()
      modifies this
      ensures Valid() && Initialised() && nfft_2power == CeilLog2(|x|)
      ensures y == Transform(cis, dir, Resized(x, Pow2(CeilLog2(|x|)), ZERO))
    {
      y := x;
      if |x| != nfft {
        var size := Init(|x|);
        y := Resized(x, size, ZERO);
      } else {
        ExactPower(nfft_2power);
      }
      CeilLog2Bounds(|x|);
      var data := new Complex[|y|](i requires 0 <= i < |y| => y[i]);
      assert data[..] == y;
      Fft(data, dir);
      y := data[..];
    }

    static lemma ExactPower(p: nat)
      ensures CeilLog2(Pow2(p)) == p
    {
      LeastPower(Pow2(p), p);
    }

    // The std::vector forms of the real transforms take vectors of any length: unless half of it
    // is the current size, both vectors are cut off or padded to twice the power of two chosen.
    // With the current size nothing is resized, and the transform asserts an even length.
    method FftRealVector(signal: seq<real>) returns (padded: seq<real>, bins: seq<Complex>)
      requires Valid() && 4 <= |signal| < 2 * MaxSize() + 2
      requires |signal| / 2 == nfft ==> |signal| % 2 == 0
      modifies this
      ensures Valid() && Initialised() && nfft_2power == CeilLog2(|signal| / 2)
      ensures padded == Resized(signal, 2 * Pow2(CeilLog2(|signal| / 2)), 0.0)
      ensures bins == Transform(cis, Forward, Lift(padded))
    {
      hide Transform, Lift, Resized, IsCis, IsTwiddleTable, DiddleA, DiddleB, CeilLog2, MaxSize;
      var half := |signal| / 2;
      CeilLog2Bounds(half);
      padded := signal;
      if half != nfft {
        var size := Init(half);
        padded := Resized(signal, 2 * size, 0.0);
      } else {
        ExactPower(nfft_2power);
      }
      var input := new real[|padded|](i requires 0 <= i < |padded| => padded[i]);
      var output := new Complex[|padded|](_ => ZERO);
      assert input[..] == padded;
      FftReal(input, output);
      bins := output[..];
    }

    method IfftRealVector(bins: seq<Complex>) returns (padded: seq<Complex>, signal: seq<real>)
      requires Valid() && 4 <= |bins| < 2 * MaxSize() + 2
      requires |bins| / 2 == nfft ==> |bins| % 2 == 0
      modifies this
      ensures Valid() && Initialised() && nfft_2power == CeilLog2(|bins| / 2)
      ensures padded == Resized(bins, 2 * Pow2(CeilLog2(|bins| / 2)), ZERO) && |signal| == |padded|
      ensures forall k :: 0 <= k <= |padded| / 2 ==> k < |bins| && padded[k] == bins[k]
      ensures HasBins(cis, signal, Realised(padded))
      ensures forall x: seq<real> ::
                |x| == |padded| && HasBins(cis, x, padded) ==> signal == x
    {
      hide Bin, HasBins, Realised, Lift, Resized, IsCis, IsTwiddleTable, DiddleA, DiddleB, CeilLog2, MaxSize;
      var half := |bins| / 2;
      CeilLog2Bounds(half);
      LowerBinsStay(bins);
      padded := bins;
      if half != nfft {
        var size := Init(half);
        padded := Resized(bins, 2 * size, ZERO);
      } else {
        ExactPower(nfft_2power);
      }
      OuterBinsRealised(padded, nfft);
      var input := new Complex[|padded|](i requires 0 <= i < |padded| => padded[i]);
      var output := new real[|padded|](_ => 0.0);
      assert input[..] == padded;
      IfftReal(input, output);
      signal := output[..];
    }

    // The bins that the inverse reads are never padding.
    static lemma LowerBinsStay(bins: seq<Complex>)
      requires |bins| >= 4
      ensures var n := Pow2(CeilLog2(|bins| / 2));
              n < |bins| && forall k :: 0 <= k <= n ==> Resized(bins, 2 * n, ZERO)[k] == bins[k]
    {
      var half := |bins| / 2;
      var e := CeilLog2(half);
      CeilLog2Bounds(half);
      assert e > 0;
      if Pow2(e - 1) >= half {
        assert false;
      }
    }

    // The packed real transform: a signal of twice the size in, all of its bins out.
    method FftReal(signal: array<real>, bins: array<Complex>)
      requires Valid() && nfft >= 2 && signal.Length == bins.Length == 2 * nfft
      modifies bins
      ensures bins[..] == Transform(cis, Forward, Lift(signal[..]))
    {
      hide IsCis, Bin, Lift, Packed;
      ghost var x := signal[..];
      var F := Pack(signal);
      Fft(F, Forward);
      Diddle(F, bins, x);
    }

    // Even samples into the real parts, odd samples into the imaginary parts.
    method Pack(signal: array<real>) returns (F: array<Complex>)
      requires signal.Length == 2 * nfft
      ensures fresh(F) && F[..] == Packed(signal[..])
    {
      F := new Complex[nfft](_ => ZERO);
      for i := 0 to nfft
        invariant forall k :: 0 <= k < i ==> F[k] == Complex(signal[2 * k], signal[2 * k + 1])
      {
        F[i] := Complex(signal[2 * i], signal[2 * i + 1]);
      }
    }

    method Diddle(F: array<Complex>, bins: array<Complex>, ghost x: seq<real>)
      requires Valid() && nfft >= 2 && F.Length == nfft && bins.Length == |x| == 2 * nfft && F != bins
      requires forall k :: 0 <= k < nfft ==> F[k] == Bin(cis, Forward, Packed(x), k)
      modifies bins
      ensures forall k :: 0 <= k < 2 * nfft ==> bins[k] == Bin(cis, Forward, Lift(x), k)
    {
      hide IsCis, Root, Mul, Add, Conj, DiddleA, DiddleB, Bin, Lift, Packed;
      var N := nfft;
      CombinedBin(cis, x, 0, F[0], F[0]);
      MiddleBin(cis, x, F[0]);
      bins[0] := Add(Mul(F[0], diddleA[0]), Mul(diddleB[0], Conj(F[0])));
      bins[N] := Add(Mul(F[0], diddleB[0]), Mul(diddleA[0], Conj(F[0])));
      for i := 1 to N
        invariant bins[N] == Bin(cis, Forward, Lift(x), N)
        invariant forall k :: 0 <= k < i ==> bins[k] == Bin(cis, Forward, Lift(x), k)
        invariant forall k :: 2 * N - i < k < 2 * N ==> bins[k] == Bin(cis, Forward, Lift(x), k)
      {
        CombinedBin(cis, x, i, F[i], F[N - i]);
        MirroredBin(cis, x, i);
        bins[i] := Add(Mul(F[i], diddleA[i]), Mul(diddleB[i], Conj(F[N - i])));
        bins[2 * N - i] := Conj(bins[i]);
      }
    }

    // Its inverse reads bins 0 to nfft only. It returns the real signal that has these bins,
    // so that it undoes FftReal. No real signal has outer bins that are not real; then it returns
    // the one that has the other bins and the outer ones realised.
    method IfftReal(bins: array<Complex>, signal: array<real>)
      requires Valid() && nfft >= 2 && signal.Length == bins.Length == 2 * nfft
      modifies signal
      ensures HasBins(cis, signal[..],
                      bins[..][nfft := Real(bins[nfft].re - bins[0].im)][0 := Real(bins[0].re - bins[nfft].im)])
      ensures forall x: seq<real> ::
                |x| == 2 * nfft && HasBins(cis, x, bins[..]) ==> signal[..] == x
    {
      hide IsCis, Root, Mul, Add, Conj, DiddleA, DiddleB, Bin, Lift, Packed, Split, Transform, HasBins, Realised;
      OuterBinsRealised(bins[..], nfft);
      var F := Undiddle(bins);
      ghost var spectrum := F[..];
      Fft(F, Inverse);
      Unpack(F, signal);
      UnpackedPacks(signal[..], F[..]);
      SignalHasBins(cis, signal[..], bins[..], spectrum, nfft_2power);
      forall x: seq<real> |
        |x| == 2 * nfft && HasBins(cis, x, bins[..])
        ensures signal[..] == x
      {
        UndiddledIs(x, bins[..], spectrum);
        UnpackedIs(signal[..], x, F[..]);
      }
    }

    static lemma UnpackedPacks(y: seq<real>, z: seq<Complex>)
      requires |y| == 2 * |z| && forall k :: 0 <= k < |z| ==> y[2 * k] == z[k].re && y[2 * k + 1] == z[k].im
      ensures Packed(y) == z
    {
      forall k | 0 <= k < |z|
        ensures Packed(y)[k] == z[k]
      {}
    }

    method Undiddle(bins: array<Complex>) returns (F: array<Complex>)
      requires Valid() && nfft >= 2 && bins.Length == 2 * nfft
      ensures fresh(F) && F.Length == nfft
      ensures forall k :: 0 <= k < nfft ==> F[k] == Split(cis, nfft, k, bins[k], bins[nfft - k])
    {
      hide IsCis, Mul, Add, Conj, DiddleA, DiddleB;
      F := new Complex[nfft](_ => ZERO);
      for i := 0 to nfft
        invariant forall k :: 0 <= k < i ==> F[k] == Split(cis, nfft, k, bins[k], bins[nfft - k])
      {
        F[i] := Add(Mul(bins[i], Conj(diddleA[i])), Mul(Conj(diddleB[i]), Conj(bins[nfft - i])));
      }
    }

    method Unpack(F: array<Complex>, signal: array<real>)
      requires F.Length == nfft && signal.Length == 2 * nfft
      modifies signal
      ensures forall k :: 0 <= k < nfft ==> signal[2 * k] == F[k].re && signal[2 * k + 1] == F[k].im
    {
      for i := 0 to nfft
        invariant forall k :: 0 <= k < i ==> signal[2 * k] == F[k].re && signal[2 * k + 1] == F[k].im
      {
        signal[2 * i] := F[i].re;
        signal[2 * i + 1] := F[i].im;
      }
    }

    lemma UndiddledIs(x: seq<real>, bins: seq<Complex>, spectrum: seq<Complex>)
      requires Valid() && Initialised() && |x| == |bins| == 2 * nfft && |spectrum| == nfft
      requires HasBins(cis, x, bins)
      requires forall k :: 0 <= k < nfft ==> spectrum[k] == Split(cis, nfft, k, bins[k], bins[nfft - k])
      ensures Transform(cis, Inverse, spectrum) == Packed(x)
    {
      hide IsCis, Bin, Lift, Packed, Split, Transform;
      forall k | 0 <= k < nfft
        ensures spectrum[k] == Bin(cis, Forward, Packed(x), k)
      {
        SplitBin(cis, x, k, bins[k], bins[nfft - k]);
      }
      PackedDetermines(cis, x, spectrum, nfft_2power);
    }

    static lemma UnpackedIs(y: seq<real>, x: seq<real>, z: seq<Complex>)
      requires |y| == |x| == 2 * |z| && z == Packed(x)
      requires forall k :: 0 <= k < |z| ==> y[2 * k] == z[k].re && y[2 * k + 1] == z[k].im
      ensures y == x
    {
      forall i | 0 <= i < |x|
        ensures y[i] == x[i]
      {
        var k := i / 2;
        assert z[k] == Complex(x[2 * k], x[2 * k + 1]);
        assert i == 2 * k || i == 2 * k + 1;
      }
    }
  }
}
