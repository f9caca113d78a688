// Exact complex numbers and finite sums of them: the arithmetic every signal-path
// module is stated in. Rounding is not modelled, so `double` becomes `real`.

module Complexes {

  datatype Complex = Complex(re: real, im: real)

  const ZERO := Complex(0.0, 0.0)
  const ONE := Complex(1.0, 0.0)
  const MINUS_ONE := Complex(-1.0, 0.0)
  const IMAG := Complex(0.0, 1.0)

  function Add(a: Complex, b: Complex): Complex {
    Complex(a.re + b.re, a.im + b.im)
  }

  function Sub(a: Complex, b: Complex): Complex {
    Complex(a.re - b.re, a.im - b.im)
  }

  function Mul(a: Complex, b: Complex): Complex {
    Complex(a.re * b.re - a.im * b.im, a.re * b.im + a.im * b.re)
  }

  function Conj(a: Complex): Complex {
    Complex(a.re, -a.im)
  }

  function Real(r: real): Complex {
    Complex(r, 0.0)
  }

  // Multiplication by a real factor.
  function Scale(r: real, a: Complex): Complex {
    Complex(r * a.re, r * a.im)
  }

  lemma MulComm(a: Complex, b: Complex)
    ensures Mul(a, b) == Mul(b, a)
  {}

  lemma MulAssoc(a: Complex, b: Complex, c: Complex)
    ensures Mul(Mul(a, b), c) == Mul(a, Mul(b, c))
  {}

  lemma MulUnit(a: Complex)
    ensures Mul(ONE, a) == a == Mul(a, ONE)
    ensures Mul(ZERO, a) == ZERO == Mul(a, ZERO)
    ensures Mul(MINUS_ONE, a) == Sub(ZERO, a) == Mul(a, MINUS_ONE)
  {}

  lemma Distribute(a: Complex, b: Complex, c: Complex)
    ensures Mul(a, Add(b, c)) == Add(Mul(a, b), Mul(a, c))
    ensures Mul(Add(b, c), a) == Add(Mul(b, a), Mul(c, a))
  {}

  lemma AddLaws(a: Complex, b: Complex, c: Complex)
    ensures Add(a, b) == Add(b, a)
    ensures Add(Add(a, b), c) == Add(a, Add(b, c))
    ensures Add(a, ZERO) == a == Add(ZERO, a)
    ensures Add(a, Sub(ZERO, b)) == Sub(a, b)
  {}

  lemma ConjLaws(a: Complex, b: Complex)
    ensures Conj(Add(a, b)) == Add(Conj(a), Conj(b))
    ensures Conj(Sub(a, b)) == Sub(Conj(a), Conj(b))
    ensures Conj(Mul(a, b)) == Mul(Conj(a), Conj(b))
    ensures Conj(Conj(a)) == a
  {}

  lemma ScaleIsMul(r: real, a: Complex)
    ensures Scale(r, a) == Mul(Real(r), a)
  {}

  // ---- Finite sums -------------------------------------------------------------

  // f(0) + f(1) + ... + f(n - 1)
  ghost function Sum(f: int -> Complex, n: nat): Complex {
    if n == 0 then ZERO else Add(Sum(f, n - 1), f(n - 1))
  }

  lemma {:induction false} SumExt(f: int -> Complex, g: int -> Complex, n: nat)
    requires forall i :: 0 <= i < n ==> f(i) == g(i)
    ensures Sum(f, n) == Sum(g, n)
  {
    if n > 0 {
      SumExt(f, g, n - 1);
    }
  }

  lemma {:induction false} SumZero(f: int -> Complex, n: nat)
    requires forall i :: 0 <= i < n ==> f(i) == ZERO
    ensures Sum(f, n) == ZERO
  {
    if n > 0 {
      SumZero(f, n - 1);
    }
  }

  // Only one term differs from zero.
  lemma {:induction false} SumSingle(f: int -> Complex, n: nat, k: nat)
    requires k < n
    requires forall i :: 0 <= i < n && i != k ==> f(i) == ZERO
    ensures Sum(f, n) == f(k)
  {
    if k == n - 1 {
      SumZero(f, n - 1);
    } else {
      SumSingle(f, n - 1, k);
    }
  }

  lemma {:induction false} SumAdd(f: int -> Complex, g: int -> Complex, h: int -> Complex, n: nat)
    requires forall i :: 0 <= i < n ==> h(i) == Add(f(i), g(i))
    ensures Sum(h, n) == Add(Sum(f, n), Sum(g, n))
  {
    if n > 0 {
      SumAdd(f, g, h, n - 1);
    }
  }

  lemma {:induction false} SumMul(c: Complex, f: int -> Complex, h: int -> Complex, n: nat)
    requires forall i :: 0 <= i < n ==> h(i) == Mul(c, f(i))
    ensures Sum(h, n) == Mul(c, Sum(f, n))
  {
    hide Mul;
    if n == 0 {
      MulUnit(c);
    } else {
      SumMul(c, f, h, n - 1);
      Distribute(c, Sum(f, n - 1), f(n - 1));
    }
  }

  lemma {:induction false} SumConj(f: int -> Complex, h: int -> Complex, n: nat)
    requires forall i :: 0 <= i < n ==> h(i) == Conj(f(i))
    ensures Sum(h, n) == Conj(Sum(f, n))
  {
    if n > 0 {
      SumConj(f, h, n - 1);
    }
  }

  // A sum of m + n terms is the sum of its first m terms and of its last n.
  lemma {:induction false} SumSplit(f: int -> Complex, g: int -> Complex, m: nat, n: nat)
    requires forall i :: 0 <= i < n ==> g(i) == f(m + i)
    ensures Sum(f, m + n) == Add(Sum(f, m), Sum(g, n))
  {
    if n > 0 {
      SumSplit(f, g, m, n - 1);
    }
  }

  // A sum of 2 n terms is the sum of its even terms and of its odd terms.
  lemma {:induction false} SumEvenOdd(f: int -> Complex, even: int -> Complex, odd: int -> Complex, n: nat)
    requires forall i {:trigger even(i)} :: 0 <= i < n ==> even(i) == f(2 * i)
    requires forall i {:trigger odd(i)} :: 0 <= i < n ==> odd(i) == f(2 * i + 1)
    ensures Sum(f, 2 * n) == Add(Sum(even, n), Sum(odd, n))
  {
    if n > 0 {
      var e, o := even(n - 1), odd(n - 1);
      SumEvenOdd(f, even, odd, n - 1);
      calc {
        Sum(f, 2 * n);
        Add(Sum(f, 2 * n - 1), o);
        Add(Add(Sum(f, 2 * n - 2), e), o);
        Add(Add(Add(Sum(even, n - 1), Sum(odd, n - 1)), e), o);
        Add(Sum(even, n), Sum(odd, n));
      }
    }
  }

  // Inner sums of a double sum, taken by rows and by columns.
  ghost function RowSums(f: (int, int) -> Complex, cols: nat): int -> Complex {
    i => Sum(j => f(i, j), cols)
  }

  ghost function ColumnSums(f: (int, int) -> Complex, rows: nat): int -> Complex {
    j => Sum(i => f(i, j), rows)
  }

  lemma {:induction false} SumSwap(f: (int, int) -> Complex, rows: nat, cols: nat)
    ensures Sum(RowSums(f, cols), rows) == Sum(ColumnSums(f, rows), cols)
  {
    if rows == 0 {
      SumZero(ColumnSums(f, 0), cols);
    } else {
      SumSwap(f, rows - 1, cols);
      var lastRow := j => f(rows - 1, j);
      forall j | 0 <= j < cols
        ensures ColumnSums(f, rows)(j) == Add(ColumnSums(f, rows - 1)(j), lastRow(j))
      {
        assert Sum(i => f(i, j), rows) == Add(Sum(i => f(i, j), rows - 1), f(rows - 1, j));
      }
      SumAdd(ColumnSums(f, rows - 1), lastRow, ColumnSums(f, rows), cols);
      SumExt(lastRow, j => f(rows - 1, j), cols);
    }
  }
}
