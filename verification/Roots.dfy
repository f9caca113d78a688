// The roots of unity behind the transforms of src/dsp/jfft.cpp.
// The exponential is a parameter: `cis(t)` stands for std::exp(2.0 * imag * M_PI * t),
// and IsCis lists the only three facts about it that any proof uses.

module Roots {
  import opened Complexes
  import opened PowersOfTwo

  datatype Direction = Forward | Inverse {
    function Opposite(): Direction {
      if Forward? then Inverse else Forward
    }
  }

  // A full turn is t == 1: a homomorphism from (real, +) that maps a half turn to -1
  // and the opposite angle to the conjugate.
  ghost predicate IsCis(cis: real -> Complex) {
    && cis(0.5) == MINUS_ONE
    && (forall s, t {:trigger Mul(cis(s), cis(t))} :: cis(s + t) == Mul(cis(s), cis(t)))
    && (forall t {:trigger Conj(cis(t))} :: cis(-t) == Conj(cis(t)))
  }

  // The angle -k/n going forward, k/n going back, in turns.
  function Angle(dir: Direction, k: int, n: int): real
    requires n > 0
  {
    (if dir == Forward then -k else k) as real / n as real
  }

  // exp(-2 pi i k / n) going forward, exp(2 pi i k / n) going back.
  function Root(cis: real -> Complex, dir: Direction, k: int, n: int): Complex
    requires n > 0
  {
    cis(Angle(dir, k, n))
  }

  lemma AngleScale(dir: Direction, c: int, k: int, n: int)
    requires n > 0 && c > 0
    ensures c * n > 0 && Angle(dir, c * k, c * n) == Angle(dir, k, n)
  {
    assert c * n > 0;
    var s := if dir == Forward then -k else k;
    assert (if dir == Forward then -(c * k) else c * k) == c * s;
    CancelFactor(c as real, s as real, n as real);
    assert (c * s) as real == c as real * s as real;
    assert (c * n) as real == c as real * n as real;
  }

  lemma CancelFactor(c: real, s: real, n: real)
    requires c > 0.0 && n > 0.0
    ensures c * n > 0.0 && (c * s) / (c * n) == s / n
  {
    var q := s / n;
    assert q * n == s;
    assert q * (c * n) == c * s;
    assert (c * s) / (c * n) == q;
  }

  lemma AngleAdd(dir: Direction, j: int, k: int, n: int)
    requires n > 0
    ensures Angle(dir, j + k, n) == Angle(dir, j, n) + Angle(dir, k, n)
  {
    var s, t := (if dir == Forward then -j else j) as real, (if dir == Forward then -k else k) as real;
    assert (if dir == Forward then -(j + k) else j + k) as real == s + t;
    assert (s + t) / n as real == s / n as real + t / n as real;
  }

  lemma AngleNegate(dir: Direction, k: int, n: int)
    requires n > 0
    ensures Angle(dir, -k, n) == -Angle(dir, k, n) == Angle(dir.Opposite(), k, n)
  {
    var t := k as real / n as real;
    assert (-k) as real / n as real == -t;
  }

  lemma CisAdd(cis: real -> Complex, s: real, t: real)
    requires IsCis(cis)
    ensures cis(s + t) == Mul(cis(s), cis(t))
  {}

  lemma CisNegate(cis: real -> Complex, t: real)
    requires IsCis(cis)
    ensures cis(-t) == Conj(cis(t))
  {}

  lemma CisHalf(cis: real -> Complex)
    requires IsCis(cis)
    ensures cis(0.5) == MINUS_ONE == cis(-0.5)
  {
    CisNegate(cis, 0.5);
  }

  lemma RootZero(cis: real -> Complex, dir: Direction, n: int)
    requires IsCis(cis) && n > 0
    ensures Root(cis, dir, 0, n) == ONE
  {
    hide IsCis, Angle;
    AngleAdd(dir, 0, 0, n);
    assert Angle(dir, 0, n) == 0.0 == 0.5 + -0.5;
    CisHalf(cis);
    CisAdd(cis, 0.5, -0.5);
  }

  lemma RootAdd(cis: real -> Complex, dir: Direction, j: int, k: int, n: int)
    requires IsCis(cis) && n > 0
    ensures Root(cis, dir, j + k, n) == Mul(Root(cis, dir, j, n), Root(cis, dir, k, n))
  {
    hide IsCis, Mul, Angle;
    AngleAdd(dir, j, k, n);
    CisAdd(cis, Angle(dir, j, n), Angle(dir, k, n));
  }

  lemma RootScale(cis: real -> Complex, dir: Direction, c: int, k: int, n: int)
    requires n > 0 && c > 0
    ensures c * n > 0 && Root(cis, dir, c * k, c * n) == Root(cis, dir, k, n)
  {
    hide Angle;
    AngleScale(dir, c, k, n);
  }

  lemma RootHalf(cis: real -> Complex, dir: Direction, n: int)
    requires IsCis(cis) && n > 0
    ensures Root(cis, dir, n, 2 * n) == MINUS_ONE
  {
    hide IsCis;
    RootScale(cis, dir, n, 1, 2);
    CisHalf(cis);
    assert 1 as real / 2 as real == 0.5 && -1 as real / 2 as real == -0.5;
  }

  lemma RootFull(cis: real -> Complex, dir: Direction, n: int)
    requires IsCis(cis) && n > 0
    ensures Root(cis, dir, n, n) == ONE
  {
    hide IsCis;
    RootScale(cis, dir, 2, n, n);
    RootAdd(cis, dir, n, n, 2 * n);
    RootHalf(cis, dir, n);
  }

  lemma {:induction false} RootPeriod(cis: real -> Complex, dir: Direction, k: int, q: int, n: int)
    requires IsCis(cis) && n > 0
    ensures Root(cis, dir, k + q * n, n) == Root(cis, dir, k, n)
    decreases if q < 0 then -q else q
  {
    hide IsCis, Root, Mul;
    if q > 0 {
      RootPeriod(cis, dir, k, q - 1, n);
      OnePeriod(cis, dir, k + (q - 1) * n, n);
      assert (q - 1) * n == q * n - n;
    } else if q < 0 {
      RootPeriod(cis, dir, k, q + 1, n);
      OnePeriod(cis, dir, k + q * n, n);
      assert (q + 1) * n == q * n + n;
    } else {
      assert q * n == 0;
    }
  }

  lemma OnePeriod(cis: real -> Complex, dir: Direction, k: int, n: int)
    requires IsCis(cis) && n > 0
    ensures Root(cis, dir, k + n, n) == Root(cis, dir, k, n)
  {
    hide IsCis, Root, Mul;
    RootAdd(cis, dir, k, n, n);
    RootFull(cis, dir, n);
    MulUnit(Root(cis, dir, k, n));
  }

  // Only the exponent modulo n matters.
  lemma RootMod(cis: real -> Complex, dir: Direction, k: int, n: int)
    requires IsCis(cis) && n > 0
    ensures Root(cis, dir, k % n, n) == Root(cis, dir, k, n)
  {
    hide IsCis;
    RootPeriod(cis, dir, k % n, k / n, n);
    assert k % n + k / n * n == k;
  }

  lemma RootConj(cis: real -> Complex, dir: Direction, k: int, n: int)
    requires IsCis(cis) && n > 0
    ensures Conj(Root(cis, dir, k, n)) == Root(cis, dir, -k, n) == Root(cis, dir.Opposite(), k, n)
  {
    hide IsCis, Angle;
    AngleNegate(dir, k, n);
    CisNegate(cis, Angle(dir, k, n));
  }

  // std::pow(W, e) for a natural exponent.
  function Power(w: Complex, e: nat): Complex {
    if e == 0 then ONE else Mul(Power(w, e - 1), w)
  }

  lemma {:induction false} PowerIsRoot(cis: real -> Complex, dir: Direction, e: nat, n: int)
    requires IsCis(cis) && n > 0
    ensures Power(Root(cis, dir, 1, n), e) == Root(cis, dir, e, n)
  {
    hide IsCis;
    if e == 0 {
      RootZero(cis, dir, n);
    } else {
      PowerIsRoot(cis, dir, e - 1, n);
      RootAdd(cis, dir, e - 1, 1, n);
    }
  }

  // ---- Orthogonality ---------------------------------------------------------------

  // n |-> exp(-+2 pi i d n / size)
  ghost function Turns(cis: real -> Complex, dir: Direction, d: int, size: int): int -> Complex
    requires size > 0
  {
    n => Root(cis, dir, d * n, size)
  }

  // Unless d is a multiple of 2^m, some multiple of d is half a turn.
  lemma {:induction false} HalfTurn(cis: real -> Complex, dir: Direction, d: int, m: nat) returns (h: nat)
    requires IsCis(cis) && d % Pow2(m) != 0
    ensures Root(cis, dir, d * h, Pow2(m)) == MINUS_ONE
    decreases m
  {
    hide IsCis;
    assert m > 0;
    var half := Pow2(m - 1);
    if d % 2 == 0 {
      var e := d / 2;
      if e % half == 0 {
        var q := e / half;
        assert d == q * Pow2(m) + 0;
        DivModUnique(d, Pow2(m), q, 0);
      }
      h := HalfTurn(cis, dir, e, m - 1);
      RootScale(cis, dir, 2, e * h, half);
      assert 2 * (e * h) == d * h;
    } else {
      h := half;
      RootScale(cis, dir, half, d, 2);
      assert half * 2 == Pow2(m) && half * d == d * half;
      RootPeriod(cis, dir, 1, d / 2, 2);
      assert d == 1 + d / 2 * 2;
      RootHalf(cis, dir, 1);
    }
  }

  lemma {:induction false} SumIsInvariant(cis: real -> Complex, dir: Direction, d: int, size: int, h: nat)
    requires IsCis(cis) && size > 0
    ensures var s := Sum(Turns(cis, dir, d, size), size);
            Mul(Root(cis, dir, d * h, size), s) == s
  {
    hide IsCis;
    var f := Turns(cis, dir, d, size);
    var s := Sum(f, size);
    if h == 0 {
      RootZero(cis, dir, size);
      MulUnit(s);
    } else {
      SumIsInvariant(cis, dir, d, size, h - 1);
      assert d * h == d * (h - 1) + d;
      RootAdd(cis, dir, d * (h - 1), d, size);
      RotateOnce(cis, dir, d, size);
      MulAssoc(Root(cis, dir, d * (h - 1), size), Root(cis, dir, d, size), s);
    }
  }

  lemma RotateOnce(cis: real -> Complex, dir: Direction, d: int, size: int)
    requires IsCis(cis) && size > 0
    ensures var s := Sum(Turns(cis, dir, d, size), size);
            Mul(Root(cis, dir, d, size), s) == s
  {
    hide IsCis, Root, Mul;
    var f := Turns(cis, dir, d, size);
    var g := n => Root(cis, dir, d * (n + 1), size);
    forall n | 0 <= n < size
      ensures g(n) == Mul(Root(cis, dir, d, size), f(n))
    {
      RootAdd(cis, dir, d, d * n, size);
      assert d * (n + 1) == d + d * n;
    }
    RootPeriod(cis, dir, 0, d, size);
    assert f(size) == f(0);
    ShiftedSum(f, g, size);
    SumMul(Root(cis, dir, d, size), f, g, size);
  }

  lemma ShiftedSum(f: int -> Complex, g: int -> Complex, size: nat)
    requires forall n {:trigger g(n)} :: 0 <= n < size ==> g(n) == f(n + 1)
    requires f(size) == f(0)
    ensures Sum(g, size) == Sum(f, size)
  {
    SumSplit(f, g, 1, size);
    var s, t := Sum(f, size), Sum(f, 1 + size);
    assert t == Add(s, f(size));
    assert Sum(f, 1) == Add(Sum(f, 0), f(0)) == f(0);
  }

  lemma FullTurns(cis: real -> Complex, dir: Direction, d: int, size: int)
    requires IsCis(cis) && size > 0 && d % size == 0
    ensures forall n :: Turns(cis, dir, d, size)(n) == ONE
  {
    hide IsCis, Root;
    var q := d / size;
    forall n ensures Root(cis, dir, d * n, size) == ONE {
      assert d == q * size;
      assert q * size * n == 0 + q * n * size;
      RootPeriod(cis, dir, 0, q * n, size);
      RootZero(cis, dir, size);
    }
  }

  // The roots of unity of a power-of-two order are orthogonal.
  lemma Orthogonality(cis: real -> Complex, dir: Direction, d: int, m: nat)
    requires IsCis(cis)
    ensures Sum(Turns(cis, dir, d, Pow2(m)), Pow2(m))
         == if d % Pow2(m) == 0 then Real(Pow2(m) as real) else ZERO
  {
    hide IsCis, Root;
    var size := Pow2(m);
    var f := Turns(cis, dir, d, size);
    if d % size == 0 {
      FullTurns(cis, dir, d, size);
      SumOnes(f, size);
    } else {
      hide Turns;
      var h := HalfTurn(cis, dir, d, m);
      SumIsInvariant(cis, dir, d, size, h);
      MulUnit(Sum(f, size));
    }
  }

  lemma {:induction false} SumOnes(f: int -> Complex, n: nat)
    requires forall i :: 0 <= i < n ==> f(i) == ONE
    ensures Sum(f, n) == Real(n as real)
  {
    if n > 0 {
      SumOnes(f, n - 1);
    }
  }
}
