// The two bit reversals of src/dsp/jfft.cpp: the mask-and-shift form on uint32_t words
// (lines 163-168) and the bit-by-bit form (lines 237-244), against one definition.

module BitReversal {
  import opened PowersOfTwo

  // The low p bits of b, read in the opposite order.
  function Reverse(p: nat, b: nat): (r: nat) {
    if p == 0 then 0 else Reverse(p - 1, b / 2) + if b % 2 == 1 then Pow2(p - 1) else 0
  }

  lemma {:induction false} ReverseRange(p: nat, b: nat)
    ensures Reverse(p, b) < Pow2(p)
  {
    if p > 0 {
      ReverseRange(p - 1, b / 2);
    }
  }

  // Peeling off the top bit instead of the bottom one.
  lemma {:induction false} ReverseTop(p: nat, high: bool, low: nat)
    requires low < Pow2(p)
    ensures Reverse(p + 1, low + if high then Pow2(p) else 0) == 2 * Reverse(p, low) + if high then 1 else 0
  {
    var b := low + if high then Pow2(p) else 0;
    if p == 0 {
      assert Reverse(1, b) == Reverse(0, b / 2) + if b % 2 == 1 then 1 else 0;
    } else {
      var half := if high then Pow2(p - 1) else 0;
      assert b == low + 2 * half;
      assert b / 2 == low / 2 + half && b % 2 == low % 2;
      ReverseTop(p - 1, high, low / 2);
    }
  }

  // An even number and the odd one after it differ in the top bit of their reversals.
  lemma ReverseNeighbours(p: nat, b: nat)
    requires p > 0 && b % 2 == 0
    ensures Reverse(p, b) == Reverse(p - 1, b / 2)
    ensures Reverse(p, b + 1) == Reverse(p - 1, b / 2) + Pow2(p - 1)
  {
    assert (b + 1) / 2 == b / 2 && (b + 1) % 2 == 1;
  }

  // Digit k from below becomes digit k from above.
  lemma {:induction false} ReverseBit(p: nat, b: nat, k: nat)
    requires k < p
    ensures b / Pow2(k) % 2 == Reverse(p, b) / Pow2(p - 1 - k) % 2
    decreases p
  {
    hide Pow2, Reverse;
    var rest := Reverse(p - 1, b / 2);
    ReverseOnce(p, b);
    ReverseRange(p - 1, b / 2);
    if k == 0 {
      PowerZero();
      DivModUnique(Reverse(p, b), Pow2(p - 1), b % 2, rest);
    } else {
      ReverseBit(p - 1, b / 2, k - 1);
      var w := Pow2(p - 1 - k);
      PowerStep(k - 1);
      Pow2Add(p - 1 - k, k);
      TopDigit(b % 2, Pow2(p - 1), w, Pow2(k - 1));
      SameDigit(Reverse(p, b), b % 2 * Pow2(k - 1), w, rest);
      HalfFirst(b, Pow2(k - 1));
    }
  }

  lemma ReverseOnce(p: nat, b: nat)
    requires p > 0
    ensures Reverse(p, b) == b % 2 * Pow2(p - 1) + Reverse(p - 1, b / 2)
  {}

  lemma TopDigit(bit: int, top: int, w: int, m: int)
    requires top == w * (2 * m)
    ensures bit * top == 2 * (bit * m) * w
  {}

  lemma PowerZero()
    ensures Pow2(0) == 1
  {}

  lemma PowerStep(k: nat)
    ensures Pow2(k + 1) == 2 * Pow2(k)
  {}

  lemma SameDigit(x: int, c: int, w: int, rest: int)
    requires w > 0 && rest >= 0 && x == 2 * c * w + rest
    ensures x / w % 2 == rest / w % 2
  {
    DivModUnique(x, w, 2 * c + rest / w, rest % w);
  }

  lemma HalfFirst(b: int, n: int)
    requires n > 0 && b >= 0
    ensures b / (2 * n) == b / 2 / n
  {
    var q, r := b / 2 / n, b / 2 % n;
    DivModUnique(b, 2 * n, q, 2 * r + b % 2);
  }

  // Reversing twice restores the word: what makes the in-place exchange of pairs right.
  lemma {:induction false} ReverseInvolution(p: nat, b: nat)
    requires b < Pow2(p)
    ensures Reverse(p, b) < Pow2(p) && Reverse(p, Reverse(p, b)) == b
  {
    ReverseRange(p, b);
    if p > 0 {
      ReverseInvolution(p - 1, b / 2);
      ReverseTop(p - 1, b % 2 == 1, Reverse(p - 1, b / 2));
    }
  }

  // One step of the bit-by-bit loop moves the lowest bit of `rest` to the bottom of `done`.
  lemma ReverseStep(done: nat, q: nat, rest: nat)
    requires q > 0
    ensures (done * 2 + rest % 2) * Pow2(q - 1) + Reverse(q - 1, rest / 2) == done * Pow2(q) + Reverse(q, rest)
  {
    var half := Pow2(q - 1);
    assert (done * 2 + rest % 2) * half == done * (2 * half) + rest % 2 * half;
    assert rest % 2 * half == if rest % 2 == 1 then half else 0;
  }

  // ---- uint32_t words ----------------------------------------------------------------

  // The word that holds i modulo 2^32.
  function Word(i: nat): bv32 {
    if i == 0 then 0 else Append(Word(i / 2), i % 2 == 1)
  }

  function Append(w: bv32, low: bool): bv32 {
    (w << 1) | (if low then 1 else 0)
  }

  // The number in the low `bits` bits of a word.
  function Value(y: bv32, bits: nat): nat {
    if bits == 0 then 0 else 2 * Value(Half(y), bits - 1) + (if IsOdd(y) then 1 else 0)
  }

  predicate IsOdd(y: bv32) {
    y & 1 == 1
  }

  function Half(y: bv32): bv32 {
    y >> 1
  }

  function Or(x: bv32, y: bv32): bv32 {
    x | y
  }

  function ShiftRight(y: bv32, k: nat): bv32
    decreases k
  {
    if k == 0 then y else ShiftRight(Half(y), k - 1)
  }

  function ShiftLeft(y: bv32, k: nat): bv32
    decreases k
  {
    if k == 0 then y else ShiftLeft(y << 1, k - 1)
  }

  // The five exchange steps, without the final shift.
  function MaskReverse(y0: bv32): bv32 {
    var y := ((y0 & 0xaaaaaaaa) >> 1) | ((y0 & 0x55555555) << 1);
    var y := ((y & 0xcccccccc) >> 2) | ((y & 0x33333333) << 2);
    var y := ((y & 0xf0f0f0f0) >> 4) | ((y & 0x0f0f0f0f) << 4);
    var y := ((y & 0xff00ff00) >> 8) | ((y & 0x00ff00ff) << 8);
    (y >> 16) | (y << 16)
  }

  lemma MaskReverseStep(w: bv32, low: bool)
    ensures MaskReverse(Append(w, low)) == Or(Half(MaskReverse(w)), if low then 0x8000_0000 else 0)
  {}

  lemma HalfOr(x: bv32, y: bv32)
    ensures Half(Or(x, y)) == Or(Half(x), Half(y))
  {}

  lemma {:induction false} ShiftRightOr(x: bv32, y: bv32, k: nat)
    ensures ShiftRight(Or(x, y), k) == Or(ShiftRight(x, k), ShiftRight(y, k))
    decreases k
  {
    hide Or, Half;
    if k > 0 {
      HalfOr(x, y);
      ShiftRightOr(Half(x), Half(y), k - 1);
    }
  }

  lemma {:induction false} ShiftRightAdd(y: bv32, j: nat, k: nat)
    ensures ShiftRight(ShiftRight(y, j), k) == ShiftRight(y, j + k)
    decreases j
  {
    if j > 0 {
      ShiftRightAdd(Half(y), j - 1, k);
    }
  }

  lemma ShiftRightBy8(y: bv32)
    ensures ShiftRight(y, 8) == y >> 8
  {
    ShiftRightAdd(y, 2, 6);
    ShiftRightAdd(y >> 2, 2, 4);
    ShiftRightAdd(y >> 4, 2, 2);
    assert forall z: bv32 {:trigger ShiftRight(z, 2)} :: ShiftRight(z, 2) == ShiftRight(z >> 1, 1);
    assert forall z: bv32 {:trigger ShiftRight(z, 1)} :: ShiftRight(z, 1) == ShiftRight(z >> 1, 0);
  }

  lemma ShiftRightAll(y: bv32)
    ensures ShiftRight(y, 32) == 0
  {
    ShiftRightAdd(y, 8, 24);
    ShiftRightAdd(y >> 8, 8, 16);
    ShiftRightAdd(y >> 16, 8, 8);
    ShiftRightBy8(y);
    ShiftRightBy8(y >> 8);
    ShiftRightBy8(y >> 16);
    ShiftRightBy8(y >> 24);
  }

  // 2^k as a word.
  function Bit(k: nat): bv32
  {
    ShiftLeft(1, k)
  }

  lemma {:induction false} ShiftLeftAdd(y: bv32, j: nat, k: nat)
    ensures ShiftLeft(ShiftLeft(y, j), k) == ShiftLeft(y, j + k)
    decreases j
  {
    if j > 0 {
      ShiftLeftAdd(y << 1, j - 1, k);
    }
  }

  lemma {:induction false} SingleBit(y: bv32, k: nat)
    requires y & (y - 1) == 0
    ensures var z := ShiftLeft(y, k); z & (z - 1) == 0
    decreases k
  {
    if k > 0 {
      SingleBit(y << 1, k - 1);
    }
  }

  lemma {:induction false} ShiftLeftZero(k: nat)
    ensures ShiftLeft(0, k) == 0
  {
    if k > 0 {
      ShiftLeftZero(k - 1);
    }
  }

  lemma ShiftLeftBy4(y: bv32)
    ensures ShiftLeft(y, 4) == y << 4
  {
    ShiftLeftAdd(y, 2, 2);
    assert forall z: bv32 {:trigger ShiftLeft(z, 2)} :: ShiftLeft(z, 2) == ShiftLeft(z << 1, 1);
    assert forall z: bv32 {:trigger ShiftLeft(z, 1)} :: ShiftLeft(z, 1) == ShiftLeft(z << 1, 0);
  }

  lemma TopBit()
    ensures Bit(31) == 0x8000_0000
  {
    ShiftLeftAdd(0x8, 4, 24);
    ShiftLeftAdd(0x80, 4, 20);
    ShiftLeftAdd(0x800, 4, 16);
    ShiftLeftAdd(0x8000, 4, 12);
    ShiftLeftAdd(0x8_0000, 4, 8);
    ShiftLeftAdd(0x80_0000, 4, 4);
    ShiftLeftBy4(0x8);
    ShiftLeftBy4(0x80);
    ShiftLeftBy4(0x800);
    ShiftLeftBy4(0x8000);
    ShiftLeftBy4(0x8_0000);
    ShiftLeftBy4(0x80_0000);
    ShiftLeftBy4(0x800_0000);
    ShiftLeftAdd(1, 3, 28);
    assert ShiftLeft(1, 3) == ShiftLeft(2, 2) == ShiftLeft(4, 1) == ShiftLeft(8, 0);
  }

  lemma BitSteps(k: nat)
    requires k < 31
    ensures Half(Bit(k + 1)) == Bit(k) && !IsOdd(Bit(k + 1))
  {
    ShiftLeftAdd(1, k, 1);
    assert ShiftLeft(Bit(k), 1) == ShiftLeft(Bit(k) << 1, 0);
    SingleBit(1, k);
    ShiftLeftAdd(1, k + 1, 30 - k);
    TopBit();
    ShiftLeftZero(30 - k);
    DoubleSingleBit(Bit(k));
  }

  lemma DoubleSingleBit(z: bv32)
    requires z & (z - 1) == 0 && z << 1 != 0
    ensures Half(z << 1) == z && !IsOdd(z << 1)
  {}

  lemma {:induction false} TopBitShifted(k: nat)
    requires k < 32
    ensures ShiftRight(0x8000_0000, k) == Bit(31 - k)
  {
    hide Half, Bit, IsOdd;
    TopBit();
    if k > 0 {
      TopBitShifted(k - 1);
      ShiftRightAdd(0x8000_0000, k - 1, 1);
      assert ShiftRight(Bit(32 - k), 1) == ShiftRight(Half(Bit(32 - k)), 0);
      BitSteps(31 - k);
    }
  }

  lemma {:induction false} ValueZero(bits: nat)
    ensures Value(0, bits) == 0
  {
    if bits > 0 {
      ValueZero(bits - 1);
    }
  }

  // Setting a bit above all the others adds its weight.
  lemma {:induction false} ValueSetBit(y: bv32, k: nat, bits: nat)
    requires k < 32 && k < bits && ShiftRight(y, k) == 0
    ensures Value(Or(y, Bit(k)), bits) == Value(y, bits) + Pow2(k)
    decreases k
  {
    hide Half, Or, Bit, IsOdd;
    if k == 0 {
      SetLowest();
      ValueZero(bits - 1);
    } else {
      BitSteps(k - 1);
      HalfOr(y, Bit(k));
      OrKeepsLow(y, Bit(k));
      ValueSetBit(Half(y), k - 1, bits - 1);
    }
  }

  lemma SetLowest()
    ensures IsOdd(Or(0, Bit(0))) && Half(Or(0, Bit(0))) == 0 && Half(0) == 0 && !IsOdd(0)
  {}

  lemma OrKeepsLow(y: bv32, z: bv32)
    requires !IsOdd(z)
    ensures IsOdd(Or(y, z)) == IsOdd(y)
  {}

  // The masks and the final shift compute the reversal of a p-bit index.
  lemma {:induction false} MaskReverseIsReverse(p: nat, i: nat, bits: nat)
    requires p <= 32 && p <= bits && i < Pow2(p)
    ensures Value(ShiftRight(MaskReverse(Word(i)), 32 - p), bits) == Reverse(p, i)
    decreases p
  {
    hide MaskReverse, Half, Or, Append, IsOdd, Word, Value, ShiftRight;
    if p == 0 {
      ShiftRightAll(MaskReverse(Word(i)));
      ValueZero(bits);
    } else {
      var h := i / 2;
      var r := MaskReverse(Word(h));
      MaskReverseIsReverse(p - 1, h, bits);
      WordStep(i);
      MaskReverseStep(Word(h), i % 2 == 1);
      AppendTopBit(r, p, i % 2 == 1, bits);
    }
  }

  lemma AppendTopBit(r: bv32, p: nat, low: bool, bits: nat)
    requires 0 < p <= 32 && p <= bits
    ensures Value(ShiftRight(Or(Half(r), if low then 0x8000_0000 else 0), 32 - p), bits)
         == Value(ShiftRight(r, 33 - p), bits) + (if low then Pow2(p - 1) else 0)
  {
    hide Half, Or, Bit, IsOdd, Pow2, Value;
    ShiftRightOr(Half(r), if low then 0x8000_0000 else 0, 32 - p);
    ShiftHalf(r, 32 - p);
    if low {
      AppendTopOne(r, p, bits);
    } else {
      OrZero(ShiftRight(r, 33 - p));
      ShiftRightZero(32 - p);
    }
  }

  lemma ShiftHalf(r: bv32, k: nat)
    ensures ShiftRight(Half(r), k) == ShiftRight(r, k + 1)
  {}

  lemma AppendTopOne(r: bv32, p: nat, bits: nat)
    requires 0 < p <= 32 && p <= bits
    ensures Value(Or(ShiftRight(r, 33 - p), ShiftRight(0x8000_0000, 32 - p)), bits)
         == Value(ShiftRight(r, 33 - p), bits) + Pow2(p - 1)
  {
    hide Half, Or, Bit, IsOdd, Pow2, Value, ShiftRight;
    ShiftRightAdd(r, 33 - p, p - 1);
    ShiftRightAll(r);
    TopBitShifted(32 - p);
    ValueSetBit(ShiftRight(r, 33 - p), p - 1, bits);
  }

  lemma OrZero(v: bv32)
    ensures Or(v, 0) == v
  {}

  lemma WordStep(i: nat)
    ensures Word(i) == Append(Word(i / 2), i % 2 == 1)
  {
    if i == 0 {
      assert Append(0, false) == 0;
    }
  }

  lemma {:induction false} ShiftRightZero(k: nat)
    ensures ShiftRight(0, k) == 0
  {
    if k > 0 {
      ShiftRightZero(k - 1);
    }
  }
}
