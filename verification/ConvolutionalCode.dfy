// The rate-1/2, K=7 code of tools/egc_decode.cpp: the branch table at lines 418-420 and the
// encoder it belongs to. Bits are bools; a string of bits is read most significant bit first.

module Bits {
  import opened PowersOfTwo

  function Value(u: seq<bool>): (v: nat)
    ensures v < Pow2(|u|)
  {
    if u == [] then 0 else 2 * Value(u[..|u| - 1]) + (if u[|u| - 1] then 1 else 0)
  }

  // Appending a bit on the right, or the top bit on the left.
  lemma ValueSnoc(u: seq<bool>, b: bool)
    ensures Value(u + [b]) == 2 * Value(u) + (if b then 1 else 0)
  {
    assert (u + [b])[..|u|] == u;
  }

  lemma ValueTake(u: seq<bool>, k: nat)
    requires k < |u|
    ensures Value(u[..k + 1]) == 2 * Value(u[..k]) + (if u[k] then 1 else 0)
  {
    assert u[..k + 1] == u[..k] + [u[k]];
    ValueSnoc(u[..k], u[k]);
  }

  lemma {:induction false} ValueCons(b: bool, u: seq<bool>)
    ensures Value([b] + u) == (if b then Pow2(|u|) else 0) + Value(u)
  {
    if u == [] {
      assert [b] + u == [] + [b];
      ValueSnoc([], b);
    } else {
      var last := |u| - 1;
      ValueCons(b, u[..last]);
      ValueTake(u, last);
      assert u[..last + 1] == u;
      assert [b] + u == ([b] + u[..last]) + [u[last]];
      ValueSnoc([b] + u[..last], u[last]);
    }
  }

  lemma {:induction false} ValueAppend(u: seq<bool>, v: seq<bool>)
    ensures Value(u + v) == Value(u) * Pow2(|v|) + Value(v)
  {
    if v == [] {
      assert u + v == u;
    } else {
      var last := |v| - 1;
      ValueAppend(u, v[..last]);
      ValueTake(v, last);
      assert v[..last + 1] == v;
      assert u + v == (u + v[..last]) + [v[last]];
      ValueSnoc(u + v[..last], v[last]);
      TwiceProduct(Value(u), Pow2(last));
    }
  }

  lemma TwiceProduct(a: int, b: int)
    ensures a * (2 * b) == 2 * (a * b)
  {}

  // The low and the high digits of a number.
  lemma ValueSplit(u: seq<bool>, n: nat)
    requires n <= |u|
    ensures Value(u) % Pow2(n) == Value(u[|u| - n..]) && Value(u) / Pow2(n) == Value(u[..|u| - n])
  {
    var high, low := u[..|u| - n], u[|u| - n..];
    assert u == high + low;
    ValueAppend(high, low);
    ValueBound(low);
    DivModUnique(Value(u), Pow2(n), Value(high), Value(low));
  }

  // A number of n binary digits has one way to be written.
  lemma {:induction false} ValueInjective(u: seq<bool>, v: seq<bool>)
    requires |u| == |v| && Value(u) == Value(v)
    ensures u == v
  {
    if u != [] {
      ValueInjective(u[..|u| - 1], v[..|v| - 1]);
      assert u == u[..|u| - 1] + [u[|u| - 1]];
      assert v == v[..|v| - 1] + [v[|v| - 1]];
    }
  }

  lemma ValueBound(u: seq<bool>)
    ensures Value(u) < Pow2(|u|)
  {}

  // The n-digit binary form of v.
  function BitsOf(v: nat, n: nat): (u: seq<bool>)
    requires v < Pow2(n)
    ensures |u| == n && Value(u) == v
  {
    if n == 0 then []
    else
      var rest := BitsOf(v / 2, n - 1);
      ValueSnoc(rest, v % 2 == 1);
      rest + [v % 2 == 1]
  }

  function Zeros(n: nat): (z: seq<bool>)
    ensures |z| == n && forall i :: 0 <= i < n ==> !z[i]
  {
    seq(n, _ => false)
  }

  lemma {:induction false} ValueZeros(n: nat)
    ensures Value(Zeros(n)) == 0
  {
    if n > 0 {
      assert Zeros(n)[..n - 1] == Zeros(n - 1);
      ValueZeros(n - 1);
    }
  }

  // Bitwise exclusive or.
  function Xor(u: seq<bool>, v: seq<bool>): (x: seq<bool>)
    requires |u| == |v|
    ensures |x| == |u| && forall i :: 0 <= i < |u| ==> x[i] == (u[i] != v[i])
  {
    seq(|u|, i requires 0 <= i < |u| => u[i] != v[i])
  }
}

module ConvolutionalCode {
  import opened PowersOfTwo
  import opened Bits

  const PARTAB_INDEX := [
    0, 1, 3, 2, 3, 2, 0, 1, 0, 1, 3, 2, 3, 2, 0, 1,
    2, 3, 1, 0, 1, 0, 2, 3, 2, 3, 1, 0, 1, 0, 2, 3]

  function TableAt(i: nat): (sym: nat)
    requires i < 32
    ensures sym < 4
  {
    PARTAB_INDEX[i]
  }

  datatype Pair = Pair(first: bool, second: bool)

  function Parity5(a: bool, b: bool, c: bool, d: bool, e: bool): bool {
    ((((a != b) != c) != d) != e)
  }

  // The two output bits for a window of seven input bits, oldest first: the parities of the
  // bits selected by the generators 0x6d and 0x4f.
  function Output(x: seq<bool>): Pair
    requires |x| == 7
  {
    Pair(Parity5(x[0], x[1], x[3], x[4], x[6]), Parity5(x[0], x[3], x[4], x[5], x[6]))
  }

  // The symbol the decoder reads from its table: the lower five bits of the state select the
  // entry, and 3 ^ sym is taken when exactly one of the oldest and the newest bit is set.
  function Symbol(state: nat, bit: bool): (sym: nat)
    requires state < 64
    ensures sym < 4
  {
    var sym := TableAt(state % 32);
    if (state >= 32) != bit then 3 - sym else sym
  }

  function PairNumber(p: Pair): nat {
    (if p.first then 2 else 0) + if p.second then 1 else 0
  }

  // The table is that of the generators.
  lemma TableIsCode(x: seq<bool>)
    requires |x| == 7
    ensures Value(x[..6]) < 64 && Symbol(Value(x[..6]), x[6]) == PairNumber(Output(x))
  {
    var low := x[1..6];
    var n := Number5(x[1], x[2], x[3], x[4], x[5]);
    LowBits(low);
    ValueCons(x[0], low);
    assert x[..6] == [x[0]] + low;
    assert Pow2(5) == 32;
    hide Value, Number5, Symbol, TableAt, PairNumber, Output;
    SymbolParts(x[0], n, x[6]);
    TableEntry(x[1], x[2], x[3], x[4], x[5]);
    OutputNumber(x);
  }

  lemma SymbolParts(top: bool, low: nat, bit: bool)
    requires low < 32
    ensures Symbol((if top then 32 else 0) + low, bit)
         == if top != bit then 3 - TableAt(low) else TableAt(low)
  {
    hide TableAt;
  }

  lemma OutputNumber(x: seq<bool>)
    requires |x| == 7
    ensures var entry := (if (x[1] != x[3]) != x[4] then 2 else 0) + if (x[3] != x[4]) != x[5] then 1 else 0;
            PairNumber(Output(x)) == if x[0] != x[6] then 3 - entry else entry
  {}

  lemma LowBits(u: seq<bool>)
    requires |u| == 5
    ensures Value(u) == Number5(u[0], u[1], u[2], u[3], u[4]) < 32
  {
    assert u[..0] == [] && u[..5] == u;
    ValueTake(u, 0);
    ValueTake(u, 1);
    ValueTake(u, 2);
    ValueTake(u, 3);
    ValueTake(u, 4);
  }

  function Number5(a: bool, b: bool, c: bool, d: bool, e: bool): nat {
    (if a then 16 else 0) + (if b then 8 else 0) + (if c then 4 else 0) + (if d then 2 else 0) + if e then 1 else 0
  }

  lemma TableEntry(a: bool, b: bool, c: bool, d: bool, e: bool)
    ensures TableAt(Number5(a, b, c, d, e))
         == (if (a != c) != d then 2 else 0) + if (c != d) != e then 1 else 0
  {}

  // ---- The encoder ---------------------------------------------------------------------

  // The bits the encoder's register has seen: six zeros, then the message.
  function Register(message: seq<bool>): (w: seq<bool>)
    ensures |w| == |message| + 6
  {
    Zeros(6) + message
  }

  function Encode(message: seq<bool>): (sy: seq<bool>)
    ensures |sy| == 2 * |message|
  {
    var w := Register(message);
    seq(2 * |message|, i requires 0 <= i < 2 * |message| =>
      var p := Output(w[i / 2..i / 2 + 7]); if i % 2 == 0 then p.first else p.second)
  }

  lemma EncodedPair(message: seq<bool>, j: nat)
    requires j < |message|
    ensures Pair(Encode(message)[2 * j], Encode(message)[2 * j + 1]) == Output(Register(message)[j..j + 7])
  {
    assert (2 * j) / 2 == j && (2 * j + 1) / 2 == j;
  }

  // Bit i of the message, zero before its beginning.
  predicate BitAt(message: seq<bool>, i: int) {
    0 <= i < |message| && message[i]
  }

  // The two symbols of step t, by the generators 171 and 133 (octal) in the order in which they
  // are sent: the second polynomial first.
  lemma EncodedSymbols(message: seq<bool>, t: nat)
    requires t < |message|
    ensures Encode(message)[2 * t] ==
      ((((BitAt(message, t) != BitAt(message, t - 2)) != BitAt(message, t - 3)) != BitAt(message, t - 5)) != BitAt(message, t - 6))
    ensures Encode(message)[2 * t + 1] ==
      ((((BitAt(message, t) != BitAt(message, t - 1)) != BitAt(message, t - 2)) != BitAt(message, t - 3)) != BitAt(message, t - 6))
  {
    hide Encode, Output;
    EncodedPair(message, t);
    var x := Register(message)[t..t + 7];
    forall i | 0 <= i < 7
      ensures x[i] == BitAt(message, t - 6 + i)
    {}
    WindowOutput(x);
  }

  lemma WindowOutput(x: seq<bool>)
    requires |x| == 7
    ensures Output(x).first == ((((x[6] != x[4]) != x[3]) != x[1]) != x[0])
    ensures Output(x).second == ((((x[6] != x[5]) != x[4]) != x[3]) != x[0])
  {}

  // The code is linear.
  lemma OutputLinear(x: seq<bool>, y: seq<bool>)
    requires |x| == |y| == 7
    ensures Output(Xor(x, y)) == Pair(Output(x).first != Output(y).first, Output(x).second != Output(y).second)
  {}

  function Weight(p: Pair): nat {
    (if p.first then 1 else 0) + if p.second then 1 else 0
  }

  function PairDistance(p: Pair, q: Pair): nat {
    Weight(Pair(p.first != q.first, p.second != q.second))
  }
}
