// The transform that src/dsp/jfft.cpp computes, stated once: the sum from the definition,
// its recursion by decimation in time, and its inverse.

module Dft {
  import opened Complexes
  import opened PowersOfTwo
  import opened Roots
  import opened BitReversal

  function At(x: seq<Complex>, i: int): Complex {
    if 0 <= i < |x| then x[i] else ZERO
  }

  // The terms of bin j of the n-point transform of x[offset], x[offset + stride], ...
  ghost function BlockTerms(cis: real -> Complex, dir: Direction, x: seq<Complex>,
                            stride: int, offset: int, n: int, j: int): int -> Complex
    requires n > 0
  {
    t => Mul(At(x, offset + stride * t), Root(cis, dir, j * t, n))
  }

  ghost function Block(cis: real -> Complex, dir: Direction, x: seq<Complex>,
                       stride: int, offset: int, n: int, j: int): Complex
    requires n > 0
  {
    Sum(BlockTerms(cis, dir, x, stride, offset, n, j), n)
  }

  // Bin j of the discrete Fourier transform of x, from the definition.
  ghost function Bin(cis: real -> Complex, dir: Direction, x: seq<Complex>, j: int): Complex
    requires |x| > 0
  {
    Block(cis, dir, x, 1, 0, |x|, j)
  }

  // The whole transform; only the inverse is scaled, by 1/size.
  ghost function Transform(cis: real -> Complex, dir: Direction, x: seq<Complex>): (r: seq<Complex>)
    requires |x| > 0
    ensures |r| == |x|
  {
    seq(|x|, j => if dir == Forward then Bin(cis, dir, x, j)
                  else Scale(1.0 / |x| as real, Bin(cis, dir, x, j)))
  }

  // ---- Decimation in time --------------------------------------------------------------

  lemma BlockEven(cis: real -> Complex, dir: Direction, x: seq<Complex>,
                  stride: int, offset: int, n: int, j: int, t: int)
    requires IsCis(cis) && n > 0
    ensures BlockTerms(cis, dir, x, stride, offset, 2 * n, j)(2 * t)
         == BlockTerms(cis, dir, x, 2 * stride, offset, n, j)(t)
  {
    hide IsCis, Mul, Root;
    RootScale(cis, dir, 2, j * t, n);
    assert j * (2 * t) == 2 * (j * t);
    assert stride * (2 * t) == 2 * stride * t;
  }

  lemma BlockOdd(cis: real -> Complex, dir: Direction, x: seq<Complex>,
                 stride: int, offset: int, n: int, j: int, t: int)
    requires IsCis(cis) && n > 0
    ensures BlockTerms(cis, dir, x, stride, offset, 2 * n, j)(2 * t + 1)
         == Mul(Root(cis, dir, j, 2 * n), BlockTerms(cis, dir, x, 2 * stride, offset + stride, n, j)(t))
  {
    hide IsCis, Mul, Root;
    var r, a, w := Root(cis, dir, j * t, n), At(x, offset + stride + 2 * stride * t), Root(cis, dir, j, 2 * n);
    RootScale(cis, dir, 2, j * t, n);
    RootAdd(cis, dir, 2 * (j * t), j, 2 * n);
    assert j * (2 * t + 1) == 2 * (j * t) + j;
    assert offset + stride * (2 * t + 1) == offset + stride + 2 * stride * t;
    MulAssoc(a, r, w);
    MulComm(Mul(a, r), w);
  }

  // A transform of 2n points is two transforms of n points and one butterfly.
  lemma Decimate(cis: real -> Complex, dir: Direction, x: seq<Complex>,
                 stride: int, offset: int, n: int, j: int)
    requires IsCis(cis) && n > 0
    ensures Block(cis, dir, x, stride, offset, 2 * n, j)
         == Add(Block(cis, dir, x, 2 * stride, offset, n, j),
                Mul(Root(cis, dir, j, 2 * n), Block(cis, dir, x, 2 * stride, offset + stride, n, j)))
  {
    hide IsCis, Mul, Root;
    var f := BlockTerms(cis, dir, x, stride, offset, 2 * n, j);
    var e := BlockTerms(cis, dir, x, 2 * stride, offset, n, j);
    var o := BlockTerms(cis, dir, x, 2 * stride, offset + stride, n, j);
    var w := Root(cis, dir, j, 2 * n);
    var wo := t => Mul(w, o(t));
    forall t | 0 <= t < n
      ensures e(t) == f(2 * t) && wo(t) == f(2 * t + 1)
    {
      BlockEven(cis, dir, x, stride, offset, n, j, t);
      BlockOdd(cis, dir, x, stride, offset, n, j, t);
    }
    hide BlockTerms;
    SumEvenOdd(f, e, wo, n);
    SumMul(w, o, wo, n);
  }

  // Bins repeat with period n.
  lemma BlockPeriod(cis: real -> Complex, dir: Direction, x: seq<Complex>,
                    stride: int, offset: int, n: int, j: int)
    requires IsCis(cis) && n > 0
    ensures Block(cis, dir, x, stride, offset, n, j + n) == Block(cis, dir, x, stride, offset, n, j)
  {
    hide IsCis, Mul, Root;
    var f := BlockTerms(cis, dir, x, stride, offset, n, j);
    var g := BlockTerms(cis, dir, x, stride, offset, n, j + n);
    forall t | 0 <= t < n
      ensures g(t) == f(t)
    {
      RootPeriod(cis, dir, j * t, t, n);
      assert (j + n) * t == j * t + t * n;
    }
    SumExt(g, f, n);
  }

  // Both outputs of one butterfly.
  lemma Butterfly(cis: real -> Complex, dir: Direction, x: seq<Complex>,
                  stride: int, offset: int, n: int, j: int)
    requires IsCis(cis) && n > 0
    ensures var e := Block(cis, dir, x, 2 * stride, offset, n, j);
            var wo := Mul(Root(cis, dir, j, 2 * n), Block(cis, dir, x, 2 * stride, offset + stride, n, j));
            && Block(cis, dir, x, stride, offset, 2 * n, j) == Add(e, wo)
            && Block(cis, dir, x, stride, offset, 2 * n, j + n) == Sub(e, wo)
  {
    hide IsCis, Mul, Root, Block;
    var o := Block(cis, dir, x, 2 * stride, offset + stride, n, j);
    var w := Root(cis, dir, j, 2 * n);
    Decimate(cis, dir, x, stride, offset, n, j);
    Decimate(cis, dir, x, stride, offset, n, j + n);
    BlockPeriod(cis, dir, x, 2 * stride, offset, n, j);
    BlockPeriod(cis, dir, x, 2 * stride, offset + stride, n, j);
    RootAdd(cis, dir, n, j, 2 * n);
    RootHalf(cis, dir, n);
    MulAssoc(MINUS_ONE, w, o);
    MulUnit(Mul(w, o));
  }

  // ---- One stage of butterflies on a whole array -----------------------------------------

  // The upper input of the butterfly that position q takes part in.
  function Top(q: int, n: int): int
    requires n > 0
  {
    if q / n % 2 == 0 then q else q - n
  }

  ghost function StageAt(cis: real -> Complex, dir: Direction, y: seq<Complex>, n: int, q: int): Complex
    requires n > 0
  {
    var k := Top(q, n);
    var t := Mul(Root(cis, dir, q % n, 2 * n), At(y, k + n));
    if q == k then Add(At(y, k), t) else Sub(At(y, k), t)
  }

  // Every butterfly whose upper input lies below k is done, the others are untouched.
  ghost predicate Partial(cis: real -> Complex, dir: Direction, before: seq<Complex>, now: seq<Complex>, n: int, k: int)
    requires n > 0
  {
    && |now| == |before|
    && forall q :: 0 <= q < |now| ==>
         now[q] == if Top(q, n) < k then StageAt(cis, dir, before, n, q) else before[q]
  }

  lemma TopFacts(q: int, n: int)
    requires n > 0
    ensures Top(q, n) / n % 2 == 0 && Top(q, n) % n == q % n
    ensures q == Top(q, n) || q == Top(q, n) + n
    ensures Top(Top(q, n), n) == Top(q, n) == Top(Top(q, n) + n, n)
  {
    if q / n % 2 != 0 {
      assert q == q / n * n + q % n;
      DivModUnique(q - n, n, q / n - 1, q % n);
    }
    var k := Top(q, n);
    assert k == k / n * n + k % n;
    DivModUnique(k + n, n, k / n + 1, k % n);
  }

  // The upper input that follows k: the next one in the block, or the first of the next block.
  function NextTop(k: int, n: int): int
    requires n > 0
  {
    if (k + 1) % n != 0 then k + 1 else k + 1 + n
  }

  lemma NextTopFacts(k: int, n: int)
    requires n > 0 && k / n % 2 == 0
    ensures var l := NextTop(k, n);
            && l / n % 2 == 0
            && (if (k + 1) % n != 0 then l % n == k % n + 1 else l % n == 0)
            && (l != k + 1 ==> (k + 1) / n == k / n + 1)
  {
    var j := k % n;
    assert k == k / n * n + j;
    if j + 1 < n {
      DivModUnique(k + 1, n, k / n, j + 1);
    } else {
      DivModUnique(k + 1, n, k / n + 1, 0);
      DivModUnique(k + 1 + n, n, k / n + 2, 0);
    }
  }

  // No upper input is skipped on the way from k to the next.
  lemma TopGap(q: int, k: int, n: int)
    requires n > 0 && k / n % 2 == 0
    ensures Top(q, n) < NextTop(k, n) <==> Top(q, n) <= k
  {
    TopFacts(q, n);
    NextTopFacts(k, n);
    var l, t := NextTop(k, n), Top(q, n);
    if k < t < l {
      assert l == k + 1 + n;
      assert k + 1 == (k + 1) / n * n + (k + 1) % n;
      DivModUnique(t, n, (k + 1) / n, t - (k + 1));
      assert false;
    }
  }

  // One butterfly, whatever the loop looks like that reached it.
  lemma ButterflyStep(cis: real -> Complex, dir: Direction, before: seq<Complex>, now: seq<Complex>, n: int, k: int)
    requires n > 0 && Partial(cis, dir, before, now, n, k)
    requires 0 <= k && k / n % 2 == 0 && k + n < |now|
    ensures var t := Mul(Root(cis, dir, k % n, 2 * n), now[k + n]);
            Partial(cis, dir, before, now[k + n := Sub(now[k], t)][k := Add(now[k], t)], n, NextTop(k, n))
  {
    hide Mul, Add, Sub, Root;
    var t := Mul(Root(cis, dir, k % n, 2 * n), now[k + n]);
    var after := now[k + n := Sub(now[k], t)][k := Add(now[k], t)];
    TopFacts(k, n);
    assert Top(k, n) == k;
    assert now[k] == before[k] && now[k + n] == before[k + n];
    forall q | 0 <= q < |now|
      ensures after[q] == if Top(q, n) < NextTop(k, n) then StageAt(cis, dir, before, n, q) else before[q]
    {
      TopGap(q, k, n);
      TopFacts(q, n);
    }
  }

  // ---- What the array holds between stages ---------------------------------------------

  // Each block of 2^s values is the transform of the subsequence that starts at the
  // bit-reversed block number and takes every 2^(m - s)-th sample.
  ghost predicate AfterStages(cis: real -> Complex, dir: Direction, x: seq<Complex>, y: seq<Complex>, m: nat, s: nat)
  {
    && s <= m
    && |x| == |y| == Pow2(m)
    && forall q :: 0 <= q < |y| ==> y[q] == StageValue(cis, dir, x, m, s, q)
  }

  ghost function StageValue(cis: real -> Complex, dir: Direction, x: seq<Complex>, m: nat, s: nat, q: nat): Complex
    requires s <= m
  {
    QuotientBound(q, Pow2(s), 0);
    Block(cis, dir, x, Pow2(m - s), Reverse(m - s, q / Pow2(s)), Pow2(s), q % Pow2(s))
  }

  lemma BlockOfOne(cis: real -> Complex, dir: Direction, x: seq<Complex>, stride: nat, start: nat)
    requires IsCis(cis)
    ensures Block(cis, dir, x, stride, start, 1, 0) == At(x, start)
  {
    hide IsCis, Mul, Root;
    var f := BlockTerms(cis, dir, x, stride, start, 1, 0);
    assert Sum(f, 1) == Add(Sum(f, 0), f(0));
    RootZero(cis, dir, 1);
    MulUnit(At(x, start));
  }

  lemma BitReversedIsStart(cis: real -> Complex, dir: Direction, x: seq<Complex>, y: seq<Complex>, m: nat)
    requires IsCis(cis) && |x| == |y| == Pow2(m)
    requires forall q :: 0 <= q < |y| ==> y[q] == At(x, Reverse(m, q))
    ensures AfterStages(cis, dir, x, y, m, 0)
  {
    hide IsCis, Block, Reverse;
    assert Pow2(0) == 1;
    forall q | 0 <= q < |y|
      ensures y[q] == StageValue(cis, dir, x, m, 0, q)
    {
      BlockOfOne(cis, dir, x, Pow2(m), Reverse(m, q));
    }
  }

  lemma DivModDouble(q: nat, n: int)
    requires n > 0
    ensures q / (2 * n) == q / n / 2
    ensures q % (2 * n) == q % n + (if q / n % 2 == 0 then 0 else n)
  {
    var b := q / n;
    assert q == b * n + q % n;
    assert b == b / 2 * 2 + b % 2;
    assert b * n == b / 2 * (2 * n) + b % 2 * n;
    DivModUnique(q, 2 * n, b / 2, q % n + (if b % 2 == 0 then 0 else n));
  }

  lemma TopInRange(q: nat, m: nat, s: nat)
    requires s < m && q < Pow2(m)
    ensures var n := Pow2(s);
            var k := Top(q, n);
            && 0 <= k && k + n < Pow2(m)
            && (k + n) / n == k / n + 1 && (k + n) % n == k % n
            && 0 <= k / n == q / n / 2 * 2
  {
    Pow2Add(s, m - s);
    TopInBlocks(q, Pow2(s), Pow2(m - s - 1), Top(q, Pow2(s)));
  }

  lemma TopInBlocks(q: nat, n: int, c: nat, k: int)
    requires n > 0 && q < n * (2 * c) && k == Top(q, n)
    ensures && 0 <= k && k + n < n * (2 * c)
            && (k + n) / n == k / n + 1 && (k + n) % n == k % n
            && 0 <= k / n == q / n / 2 * 2
  {
    TopIsEvenBlock(q, n);
    QuotientBound(q, n, 2 * c);
    var a, r := q / n, q % n;
    EvenBlock(a, r, n, c);
  }

  lemma TopIsEvenBlock(q: nat, n: int)
    requires n > 0
    ensures Top(q, n) == q / n / 2 * 2 * n + q % n
  {
    var a, r := q / n, q % n;
    assert q == a * n + r;
    if a % 2 == 1 {
      assert a / 2 * 2 == a - 1;
      assert (a - 1) * n == a * n - n;
    }
  }

  // The block pair of block a, for c pairs of blocks of n positions.
  lemma EvenBlock(a: nat, r: nat, n: int, c: nat)
    requires r < n && a < 2 * c
    ensures var b := a / 2 * 2;
            && 0 <= b * n + r && b * n + r + n < n * (2 * c)
            && (b * n + r) / n == b && (b * n + r) % n == r
            && (b * n + r + n) / n == b + 1 && (b * n + r + n) % n == r
  {
    var b := a / 2 * 2;
    assert b + 2 <= 2 * c;
    MulMonotone(b + 2, 2 * c, n);
    assert (b + 2) * n == b * n + n + n;
    assert b * n >= 0;
    DivModUnique(b * n + r, n, b, r);
    assert (b + 1) * n == b * n + n;
    DivModUnique(b * n + r + n, n, b + 1, r);
  }

  lemma MulMonotone(a: int, b: int, n: nat)
    requires a <= b
    ensures a * n <= b * n == n * b
  {}

  // The butterflies of an even block b and of the block after it.
  lemma ButterflyOfBlocks(cis: real -> Complex, dir: Direction, x: seq<Complex>, m: nat, s: nat, b: nat, j: int)
    requires IsCis(cis) && s < m && b % 2 == 0
    ensures var n := Pow2(s);
            var e := Block(cis, dir, x, Pow2(m - s), Reverse(m - s, b), n, j);
            var wo := Mul(Root(cis, dir, j, 2 * n), Block(cis, dir, x, Pow2(m - s), Reverse(m - s, b + 1), n, j));
            && Block(cis, dir, x, Pow2(m - s - 1), Reverse(m - s - 1, b / 2), 2 * n, j) == Add(e, wo)
            && Block(cis, dir, x, Pow2(m - s - 1), Reverse(m - s - 1, b / 2), 2 * n, j + n) == Sub(e, wo)
  {
    hide IsCis, Mul, Root, Block, Add, Sub, Reverse;
    ReverseNeighbours(m - s, b);
    Butterfly(cis, dir, x, Pow2(m - s - 1), Reverse(m - s - 1, b / 2), Pow2(s), j);
  }

  lemma StageValueIs(cis: real -> Complex, dir: Direction, x: seq<Complex>, m: nat, s: nat, q: nat, b: nat, j: nat)
    requires s <= m && q / Pow2(s) == b && q % Pow2(s) == j
    ensures StageValue(cis, dir, x, m, s, q) == Block(cis, dir, x, Pow2(m - s), Reverse(m - s, b), Pow2(s), j)
  {}

  lemma PairOfBlocks(q: nat, m: nat, s: nat)
    requires s < m && q < Pow2(m)
    ensures var n := Pow2(s);
            var k, b, j := Top(q, n), Top(q, n) / n, q % n;
            && 0 <= k && 0 <= b && b % 2 == 0 && k + n < Pow2(m)
            && k / n == b && k % n == j && (k + n) / n == b + 1 && (k + n) % n == j
            && q / Pow2(s + 1) == b / 2 && q % Pow2(s + 1) == (if q == k then j else j + n)
            && (q == k || q == k + n)
  {
    TopFacts(q, Pow2(s));
    TopInRange(q, m, s);
    DivModDouble(q, Pow2(s));
  }

  lemma StageValueAdvances(cis: real -> Complex, dir: Direction, x: seq<Complex>, y: seq<Complex>, m: nat, s: nat, q: nat)
    requires IsCis(cis) && s < m && AfterStages(cis, dir, x, y, m, s) && q < |y|
    ensures StageAt(cis, dir, y, Pow2(s), q) == StageValue(cis, dir, x, m, s + 1, q)
  {
    hide IsCis, Mul, Root, Block, Add, Sub, Reverse, StageValue, Top;
    var n := Pow2(s);
    var k, b, j := Top(q, n), Top(q, n) / n, q % n;
    assert Pow2(s + 1) == 2 * n;
    PairOfBlocks(q, m, s);
    ButterflyOfBlocks(cis, dir, x, m, s, b, j);
    StageValueIs(cis, dir, x, m, s, k, b, j);
    StageValueIs(cis, dir, x, m, s, k + n, b + 1, j);
    StageValueIs(cis, dir, x, m, s + 1, q, b / 2, if q == k then j else j + n);
  }

  // A finished stage doubles the length of the transforms held in the array.
  lemma StageAdvances(cis: real -> Complex, dir: Direction, x: seq<Complex>, before: seq<Complex>, now: seq<Complex>,
                      m: nat, s: nat, k: int)
    requires IsCis(cis) && s < m && AfterStages(cis, dir, x, before, m, s)
    requires Partial(cis, dir, before, now, Pow2(s), k) && k >= |now|
    ensures AfterStages(cis, dir, x, now, m, s + 1)
  {
    hide IsCis, StageAt, StageValue;
    forall q | 0 <= q < |now|
      ensures now[q] == StageValue(cis, dir, x, m, s + 1, q)
    {
      TopFacts(q, Pow2(s));
      StageValueAdvances(cis, dir, x, before, m, s, q);
    }
  }

  // After the last stage the array is the transform.
  lemma LastStage(cis: real -> Complex, dir: Direction, x: seq<Complex>, y: seq<Complex>, m: nat)
    requires AfterStages(cis, dir, x, y, m, m)
    ensures forall j :: 0 <= j < |y| ==> y[j] == Bin(cis, dir, x, j)
  {
    forall j | 0 <= j < |y|
      ensures y[j] == Bin(cis, dir, x, j)
    {
      DivModUnique(j, Pow2(m), 0, j);
      assert Reverse(0, 0) == 0;
    }
  }
}
