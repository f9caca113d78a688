// How many wrong symbols the decoder of tools/egc_decode.cpp puts right: two different
// messages stay at least nine symbols apart wherever a byte is decided, so four are repaired.

module FreeDistance {
  import opened Bits
  import opened ConvolutionalCode

  // Row n holds a lower bound for each state: the number of ones in the output of any input
  // that leaves the zero state n steps ago and is in that state now, counted up to 9. The
  // digit for state s is the s-th from the right.
  function Row(n: nat): bv256 {
    match n
    case 1 => 0x9999999999999999_9999999999999999_9999999999999999_9999999999999929
    case 2 => 0x9999999999999999_9999999999999999_9999999999999999_9999999999993399
    case 3 => 0x9999999999999999_9999999999999999_9999999999999999_9999999944359999
    case 4 => 0x9999999999999999_9999999999999999_9999999999999999_5564445799999999
    case 5 => 0x9999999999999999_9999999999999999_6675774655466697_9999999999999999
    case 6 => 0x6877976697884677_5766647786779988_9999999999999999_9999999999999999
    case 7 => 0x8699798899888677_9988899946779788_6679778677648879_9968889799999989
    case 8 => 0x6877979977888877_7988865588777788_9999778899899997_5568889799979989
    case 9 => 0x8699798897888999_9788889989999788_6675778899866657_9989887788979989
    case 10 => 0x6877976677888899_9988887786775788_9979999899888897_9998997999979989
    case 11 => 0x8699778899888677_9788889988999988_9999998899988879_9968887766979989
    case 12 => 0x9877999979888899_9999899988777788_9979778899888897_7786997999999989
    case 13 => 0x9999778897888999_9799889988999988_8897996899998899_9989889788979989
    case 14 => 0x8999998879886899_9988899988999999_9979999999889997_9988997999999989
    case 15 => 0x9899979999999899_9799889968999988_9999998899998899_9989999999999999
    case 16 => 0x9999999999888999_9999999998999999_9979999999989999_7789999999999989
    case 17 => 0x9999979999999999_9999899989999999_8897999999999999_9989999999999999
    case 18 => 0x8999998899889999_9999999999999999_9999999999999999_9999999999999999
    case 19 => 0x9899999999999899_9999899999999999_9999999999999999_9999999999999999
    case _ => 0x9999999999999999_9999999999999999_9999999999999999_9999999999999999
  }

  // The digit for the state with the bits a to f, oldest first.
  function DigitAt(row: bv256, a: bool, b: bool, c: bool, d: bool, e: bool, f: bool): bv4 {
    var r0: bv128 := if a then (row >> 128) as bv128 else (row & 0xFFFF_FFFF_FFFF_FFFF_FFFF_FFFF_FFFF_FFFF) as bv128;
    var r1: bv64 := if b then (r0 >> 64) as bv64 else (r0 & 0xFFFF_FFFF_FFFF_FFFF) as bv64;
    var r2: bv32 := if c then (r1 >> 32) as bv32 else (r1 & 0xFFFF_FFFF) as bv32;
    var r3: bv16 := if d then (r2 >> 16) as bv16 else (r2 & 0xFFFF) as bv16;
    var r4: bv8 := if e then (r3 >> 8) as bv8 else (r3 & 0xFF) as bv8;
    if f then (r4 >> 4) as bv4 else (r4 & 0xF) as bv4
  }

  function OutputWeight(a: bool, b: bool, c: bool, d: bool, e: bool, f: bool, g: bool): bv4 {
    (if Parity5(a, b, d, e, g) then 1 else 0) + if Parity5(a, d, e, f, g) then 1 else 0
  }

  // One input bit g, behind the state a to f, cannot undercut the next row.
  predicate Follows(row: bv256, next: bv256, a: bool, b: bool, c: bool, d: bool, e: bool, f: bool, g: bool) {
    && DigitAt(row, a, b, c, d, e, f) <= 9 && DigitAt(next, b, c, d, e, f, g) <= 9
    && DigitAt(next, b, c, d, e, f, g) <= DigitAt(row, a, b, c, d, e, f) + OutputWeight(a, b, c, d, e, f, g)
  }

  lemma Rows1(a: bool, b: bool, c: bool, d: bool, e: bool, f: bool, g: bool)
    ensures Follows(Row(1), Row(2), a, b, c, d, e, f, g)
    ensures Follows(Row(2), Row(3), a, b, c, d, e, f, g)
    ensures Follows(Row(3), Row(4), a, b, c, d, e, f, g)
  {}

  lemma Rows4(a: bool, b: bool, c: bool, d: bool, e: bool, f: bool, g: bool)
    ensures Follows(Row(4), Row(5), a, b, c, d, e, f, g)
    ensures Follows(Row(5), Row(6), a, b, c, d, e, f, g)
    ensures Follows(Row(6), Row(7), a, b, c, d, e, f, g)
  {}

  lemma Rows7(a: bool, b: bool, c: bool, d: bool, e: bool, f: bool, g: bool)
    ensures Follows(Row(7), Row(8), a, b, c, d, e, f, g)
    ensures Follows(Row(8), Row(9), a, b, c, d, e, f, g)
    ensures Follows(Row(9), Row(10), a, b, c, d, e, f, g)
  {}

  lemma Rows10(a: bool, b: bool, c: bool, d: bool, e: bool, f: bool, g: bool)
    ensures Follows(Row(10), Row(11), a, b, c, d, e, f, g)
    ensures Follows(Row(11), Row(12), a, b, c, d, e, f, g)
    ensures Follows(Row(12), Row(13), a, b, c, d, e, f, g)
  {}

  lemma Rows13(a: bool, b: bool, c: bool, d: bool, e: bool, f: bool, g: bool)
    ensures Follows(Row(13), Row(14), a, b, c, d, e, f, g)
    ensures Follows(Row(14), Row(15), a, b, c, d, e, f, g)
    ensures Follows(Row(15), Row(16), a, b, c, d, e, f, g)
  {}

  lemma Rows16(a: bool, b: bool, c: bool, d: bool, e: bool, f: bool, g: bool)
    ensures Follows(Row(16), Row(17), a, b, c, d, e, f, g)
    ensures Follows(Row(17), Row(18), a, b, c, d, e, f, g)
  {}

  lemma Rows18(a: bool, b: bool, c: bool, d: bool, e: bool, f: bool, g: bool)
    ensures Follows(Row(18), Row(19), a, b, c, d, e, f, g)
    ensures Follows(Row(19), Row(20), a, b, c, d, e, f, g)
  {}

  lemma EarlyStep(n: nat, next: nat, a: bool, b: bool, c: bool, d: bool, e: bool, f: bool, g: bool)
    requires 1 <= n < 10 && next == n + 1
    ensures Follows(Row(n), Row(next), a, b, c, d, e, f, g)
  {
    hide Follows, Row;
    match n {
      case 1 => Rows1(a, b, c, d, e, f, g);
      case 2 => Rows1(a, b, c, d, e, f, g);
      case 3 => Rows1(a, b, c, d, e, f, g);
      case 4 => Rows4(a, b, c, d, e, f, g);
      case 5 => Rows4(a, b, c, d, e, f, g);
      case 6 => Rows4(a, b, c, d, e, f, g);
      case 7 => Rows7(a, b, c, d, e, f, g);
      case 8 => Rows7(a, b, c, d, e, f, g);
      case 9 => Rows7(a, b, c, d, e, f, g);
    }
  }

  lemma LateStep(n: nat, next: nat, a: bool, b: bool, c: bool, d: bool, e: bool, f: bool, g: bool)
    requires 10 <= n < 20 && next == n + 1
    ensures Follows(Row(n), Row(next), a, b, c, d, e, f, g)
  {
    hide Follows, Row;
    match n {
      case 10 => Rows10(a, b, c, d, e, f, g);
      case 11 => Rows10(a, b, c, d, e, f, g);
      case 12 => Rows10(a, b, c, d, e, f, g);
      case 13 => Rows13(a, b, c, d, e, f, g);
      case 14 => Rows13(a, b, c, d, e, f, g);
      case 15 => Rows13(a, b, c, d, e, f, g);
      case 16 => Rows16(a, b, c, d, e, f, g);
      case 17 => Rows16(a, b, c, d, e, f, g);
      case 18 => Rows18(a, b, c, d, e, f, g);
      case 19 => Rows18(a, b, c, d, e, f, g);
    }
  }

  lemma RowStep(n: nat, next: nat, a: bool, b: bool, c: bool, d: bool, e: bool, f: bool, g: bool)
    requires 1 <= n < 20 && next == n + 1
    ensures Follows(Row(n), Row(next), a, b, c, d, e, f, g)
  {
    hide Follows, Row;
    if n < 10 {
      EarlyStep(n, next, a, b, c, d, e, f, g);
    } else {
      LateStep(n, next, a, b, c, d, e, f, g);
    }
  }

  function DigitNumber(d: bv4): nat {
    if d == 0 then 0 else if d == 1 then 1 else if d == 2 then 2 else if d == 3 then 3 else if d == 4 then 4
    else if d == 5 then 5 else if d == 6 then 6 else if d == 7 then 7 else if d == 8 then 8 else 9
  }

  lemma DigitOrder(d: bv4, next: bv4, first: bool, second: bool)
    requires d <= 9 && next <= 9
    requires next <= d + ((if first then 1 else 0) + if second then 1 else 0)
    ensures DigitNumber(next) <= DigitNumber(d) + (if first then 1 else 0) + if second then 1 else 0
  {}

  // The bound of row n for a state.
  function Bound(n: nat, a: bool, b: bool, c: bool, d: bool, e: bool, f: bool): nat {
    DigitNumber(DigitAt(Row(n), a, b, c, d, e, f))
  }

  lemma FollowsBound(row: bv256, next: bv256, a: bool, b: bool, c: bool, d: bool, e: bool, f: bool, g: bool)
    requires Follows(row, next, a, b, c, d, e, f, g)
    ensures DigitNumber(DigitAt(next, b, c, d, e, f, g))
         <= DigitNumber(DigitAt(row, a, b, c, d, e, f)) + Weight(Pair(Parity5(a, b, d, e, g), Parity5(a, d, e, f, g)))
  {
    var now, later := DigitAt(row, a, b, c, d, e, f), DigitAt(next, b, c, d, e, f, g);
    hide DigitAt;
    DigitOrder(now, later, Parity5(a, b, d, e, g), Parity5(a, d, e, f, g));
  }

  lemma BoundStep(n: nat, a: bool, b: bool, c: bool, d: bool, e: bool, f: bool, g: bool)
    requires 1 <= n < 20
    ensures Bound(n + 1, b, c, d, e, f, g)
         <= Bound(n, a, b, c, d, e, f) + Weight(Pair(Parity5(a, b, d, e, g), Parity5(a, d, e, f, g)))
  {
    hide Row, DigitAt, DigitNumber, Parity5, Follows, Weight;
    RowStep(n, n + 1, a, b, c, d, e, f, g);
    FollowsBound(Row(n), Row(n + 1), a, b, c, d, e, f, g);
  }

  lemma BoundAtStart()
    ensures Bound(1, false, false, false, false, false, true) == 2
  {}

  // Nobody returns to state 0 for less than 9, and after 20 steps every state costs 9.
  lemma BoundAtZero(n: nat)
    requires 1 <= n <= 20
    ensures Bound(n, false, false, false, false, false, false) == 9
  {}

  lemma BoundAtEnd(a: bool, b: bool, c: bool, d: bool, e: bool, f: bool)
    ensures Bound(20, a, b, c, d, e, f) == 9
  {}

  // The bound for a string of n bits since it left the zero state.
  function LowerBound(n: nat, x: seq<bool>): nat
    requires |x| >= 6
  {
    var k := |x| - 6;
    Bound(n, x[k], x[k + 1], x[k + 2], x[k + 3], x[k + 4], x[k + 5])
  }

  // The ones in the output for the input x, whose first six bits are the start.
  function CodeWeight(x: seq<bool>): nat
    requires |x| >= 6
  {
    if |x| == 6 then 0 else CodeWeight(x[..|x| - 1]) + Weight(Output(x[|x| - 7..]))
  }

  lemma LowerBoundStep(n: nat, x: seq<bool>)
    requires 1 <= n < 20 && |x| >= 7
    ensures LowerBound(n + 1, x) <= LowerBound(n, x[..|x| - 1]) + Weight(Output(x[|x| - 7..]))
  {
    hide Bound;
    var y := x[|x| - 7..];
    BoundStep(n, y[0], y[1], y[2], y[3], y[4], y[5], y[6]);
  }

  lemma {:induction false} ZeroWeight(x: seq<bool>)
    requires |x| >= 6 && forall i :: 0 <= i < |x| ==> !x[i]
    ensures CodeWeight(x) == 0
  {
    if |x| > 6 {
      ZeroWeight(x[..|x| - 1]);
    }
  }

  lemma WeightGrows(x: seq<bool>, k: nat)
    requires 6 <= k <= |x|
    ensures CodeWeight(x[..k]) <= CodeWeight(x)
    decreases |x|
  {
    if k < |x| {
      WeightGrows(x[..|x| - 1], k);
      assert x[..|x| - 1][..k] == x[..k];
    } else {
      assert x[..k] == x;
    }
  }

  lemma WeightStep(x: seq<bool>)
    requires |x| >= 7
    ensures CodeWeight(x) == CodeWeight(x[..|x| - 1]) + Weight(Output(x[|x| - 7..]))
  {}

  lemma FirstStep(x: seq<bool>, f: nat)
    requires 6 <= f && |x| == f + 1 && x[f] && forall i :: 0 <= i < f ==> !x[i]
    ensures CodeWeight(x) == 2 == LowerBound(1, x)
  {
    hide Bound;
    ZeroWeight(x[..f]);
    BoundAtStart();
    assert x[f - 6..] == [false, false, false, false, false, false, true];
  }

  // Leaving the zero state at position f costs at least the bound.
  lemma {:induction false} DivergedWeight(x: seq<bool>, f: nat)
    requires 6 <= f < |x| <= f + 20
    requires x[f] && forall i :: 0 <= i < f ==> !x[i]
    ensures CodeWeight(x) >= LowerBound(|x| - f, x)
    decreases |x|
  {
    hide LowerBound, Weight, Output, CodeWeight;
    if |x| == f + 1 {
      FirstStep(x, f);
    } else {
      var init := x[..|x| - 1];
      assert init[f] && forall i :: 0 <= i < f ==> !init[i];
      DivergedWeight(init, f);
      LowerBoundStep(|init| - f, x);
      WeightStep(x);
    }
  }

  // Nine after twenty steps, whatever follows; or nine by the time of a return to zero.
  lemma NineApart(x: seq<bool>, f: nat)
    requires 6 <= f < |x| && x[f] && forall i :: 0 <= i < f ==> !x[i]
    requires |x| >= f + 20 || forall i :: |x| - 6 <= i < |x| ==> !x[i]
    ensures CodeWeight(x) >= 9
  {
    hide Bound, CodeWeight;
    if |x| >= f + 20 {
      var y := x[..f + 20];
      DivergedWeight(y, f);
      WeightGrows(x, f + 20);
      BoundAtEnd(y[f + 14], y[f + 15], y[f + 16], y[f + 17], y[f + 18], y[f + 19]);
    } else {
      DivergedWeight(x, f);
      BoundAtZero(|x| - f);
    }
  }
}

module ErrorCorrection {
  import opened PowersOfTwo
  import opened Bits
  import opened ConvolutionalCode
  import opened Scores
  import opened Viterbi
  import opened FreeDistance

  // A matching symbol scores a fixed margin above a mismatching one.
  ghost predicate IsUniform(m: Mettab, margin: int) {
    margin > 0 && m(true, true) - m(false, true) == margin && m(false, false) - m(true, false) == margin
  }

  // The symbols in which the codeword of w differs from those received.
  function Mismatches(sy: seq<bool>, w: seq<bool>): nat
    requires 6 <= |w| && 2 * (|w| - 6) <= |sy|
    decreases |w|
  {
    if |w| == 6 then 0
    else
      var j := |w| - 7;
      Mismatches(sy, w[..j + 6]) + PairDistance(Output(w[j..]), Pair(sy[2 * j], sy[2 * j + 1]))
  }

  // The score of a perfect match.
  function Perfect(m: Mettab, sy: seq<bool>, t: nat): int
    requires 2 * t <= |sy|
  {
    if t == 0 then 0
    else Perfect(m, sy, t - 1) + m(sy[2 * t - 2], sy[2 * t - 2]) + m(sy[2 * t - 1], sy[2 * t - 1])
  }

  lemma {:induction false} ScoreCountsMismatches(m: Mettab, margin: int, sy: seq<bool>, w: seq<bool>)
    requires IsUniform(m, margin) && 6 <= |w| && 2 * (|w| - 6) <= |sy|
    ensures Score(m, sy, w)
         == Perfect(m, sy, |w| - 6) - margin * Mismatches(sy, w) + (if Start(w) == 0 then 0 else START_PENALTY)
    decreases |w|
  {
    hide Output, PairDistance, Branch, IsUniform;
    if |w| > 6 {
      var j := |w| - 7;
      var p := Output(w[j..]);
      ScoreCountsMismatches(m, margin, sy, w[..j + 6]);
      assert w[..j + 6][..6] == w[..6];
      BranchCountsMismatches(m, margin, p, sy[2 * j], sy[2 * j + 1]);
      Distributes(margin, Mismatches(sy, w[..j + 6]), PairDistance(p, Pair(sy[2 * j], sy[2 * j + 1])));
    }
  }

  lemma Distributes(a: int, b: int, c: int)
    ensures a * (b + c) == a * b + a * c
  {}

  lemma BranchCountsMismatches(m: Mettab, margin: int, p: Pair, a: bool, b: bool)
    requires IsUniform(m, margin)
    ensures Branch(m, p, a, b) == m(a, a) + m(b, b) - margin * PairDistance(p, Pair(a, b))
  {}

  // Two strings cannot both be close to what was received when their codewords are far apart.
  lemma {:induction false} Triangle(sy: seq<bool>, v: seq<bool>, w: seq<bool>)
    requires 6 <= |w| == |v| && 2 * (|w| - 6) <= |sy|
    ensures Mismatches(sy, v) + Mismatches(sy, w) >= CodeWeight(Xor(v, w))
    decreases |w|
  {
    hide Output, Weight, PairDistance;
    if |w| > 6 {
      var j := |w| - 7;
      var x := Xor(v, w);
      Triangle(sy, v[..j + 6], w[..j + 6]);
      assert x[..|x| - 1] == Xor(v[..j + 6], w[..j + 6]);
      assert x[|x| - 7..] == Xor(v[j..], w[j..]);
      TriangleStep(v[j..], w[j..], Pair(sy[2 * j], sy[2 * j + 1]));
    }
  }

  lemma TriangleStep(v: seq<bool>, w: seq<bool>, r: Pair)
    requires |v| == |w| == 7
    ensures PairDistance(Output(v), r) + PairDistance(Output(w), r) >= Weight(Output(Xor(v, w)))
  {
    OutputLinear(v, w);
    PairTriangle(Output(v), Output(w), r);
  }

  lemma PairTriangle(p: Pair, q: Pair, r: Pair)
    ensures PairDistance(p, r) + PairDistance(q, r) >= Weight(Pair(p.first != q.first, p.second != q.second))
  {}

  // The number of received symbols that differ from those sent.
  function Errors(sent: seq<bool>, received: seq<bool>): nat
    requires |sent| == |received|
  {
    if sent == [] then 0
    else Errors(sent[..|sent| - 1], received[..|sent| - 1]) + if sent[|sent| - 1] != received[|sent| - 1] then 1 else 0
  }

  // As a set: the places where a symbol is wrong.
  function WrongPlaces(sent: seq<bool>, received: seq<bool>): set<nat>
    requires |sent| == |received|
  {
    set i: nat | i < |sent| && sent[i] != received[i]
  }

  lemma {:induction false} ErrorsAreWrongPlaces(sent: seq<bool>, received: seq<bool>)
    requires |sent| == |received|
    ensures Errors(sent, received) == |WrongPlaces(sent, received)|
    decreases |sent|
  {
    if sent == [] {
      assert WrongPlaces(sent, received) == {};
    } else {
      var n: nat := |sent| - 1;
      ErrorsAreWrongPlaces(sent[..n], received[..n]);
      var before := WrongPlaces(sent[..n], received[..n]);
      assert WrongPlaces(sent, received) == before + (if sent[n] != received[n] then {n} else {});
    }
  }

  lemma {:induction false} ErrorsGrow(sent: seq<bool>, received: seq<bool>, k: nat)
    requires |sent| == |received| && k <= |sent|
    ensures Errors(sent[..k], received[..k]) <= Errors(sent, received)
    decreases |sent|
  {
    if k < |sent| {
      ErrorsGrow(sent[..|sent| - 1], received[..|sent| - 1], k);
      assert sent[..|sent| - 1][..k] == sent[..k] && received[..|sent| - 1][..k] == received[..k];
    } else {
      assert sent[..k] == sent && received[..k] == received;
    }
  }

  lemma NoErrors()
    ensures Errors([], []) == 0
  {}

  lemma ErrorsStep(sent: seq<bool>, received: seq<bool>, k: nat)
    requires |sent| == |received| && k < |sent|
    ensures Errors(sent[..k + 1], received[..k + 1])
         == Errors(sent[..k], received[..k]) + if sent[k] != received[k] then 1 else 0
  {
    assert sent[..k + 1][..k] == sent[..k] && received[..k + 1][..k] == received[..k];
  }

  lemma MismatchesStep(sy: seq<bool>, w: seq<bool>, j: nat)
    requires j + 7 <= |w| && 2 * (|w| - 6) <= |sy|
    ensures Mismatches(sy, w[..j + 7])
         == Mismatches(sy, w[..j + 6]) + PairDistance(Output(w[j..j + 7]), Pair(sy[2 * j], sy[2 * j + 1]))
  {
    hide Output, PairDistance;
    assert w[..j + 7][..j + 6] == w[..j + 6] && w[..j + 7][j..] == w[j..j + 7];
  }

  // The true string mismatches exactly where the channel changed a symbol.
  lemma {:induction false} TrueMismatches(message: seq<bool>, received: seq<bool>, t: nat)
    requires |received| == 2 * |message| && t <= |message|
    ensures Mismatches(received, Register(message)[..t + 6]) == Errors(Encode(message)[..2 * t], received[..2 * t])
    decreases t
  {
    hide Output, Encode, Errors, Mismatches, Register, PairDistance;
    var w, sent := Register(message), Encode(message);
    if t == 0 {
      assert sent[..0] == [] && received[..0] == [];
      NoErrors();
      NoMismatches(received, w[..6]);
    } else {
      var j := t - 1;
      TrueMismatches(message, received, j);
      TrueStep(message, received, j);
      assert j + 7 == t + 6 && 2 * j + 2 == 2 * t;
    }
  }

  lemma NoMismatches(sy: seq<bool>, w: seq<bool>)
    requires |w| == 6
    ensures Mismatches(sy, w) == 0
  {}

  lemma TrueStep(message: seq<bool>, received: seq<bool>, j: nat)
    requires |received| == 2 * |message| && j < |message|
    ensures var w, sent := Register(message), Encode(message);
            Mismatches(received, w[..j + 7]) - Mismatches(received, w[..j + 6])
            == Errors(sent[..2 * j + 2], received[..2 * j + 2]) - Errors(sent[..2 * j], received[..2 * j])
  {
    hide Output, Encode, Errors, Mismatches, Register;
    var w, sent := Register(message), Encode(message);
    MismatchesStep(received, w, j);
    EncodedPair(message, j);
    ErrorsStep(sent, received, 2 * j);
    ErrorsStep(sent, received, 2 * j + 1);
  }

  lemma TrueScore(m: Mettab, margin: int, message: seq<bool>, received: seq<bool>, t: nat)
    requires IsUniform(m, margin) && |received| == 2 * |message| && t <= |message|
    ensures Score(m, received, Register(message)[..t + 6])
         >= Perfect(m, received, t) - margin * Errors(Encode(message), received)
  {
    var v := Register(message)[..t + 6];
    ScoreCountsMismatches(m, margin, received, v);
    TrueMismatches(message, received, t);
    ErrorsGrow(Encode(message), received, 2 * t);
    ValueZeros(6);
    assert v[..6] == Zeros(6);
    MulOrder(Errors(Encode(message)[..2 * t], received[..2 * t]), Errors(Encode(message), received), margin);
  }

  // At most four wrong symbols, which together cost less than a wrong start.
  predicate IsTolerable(margin: int, errors: nat) {
    errors <= 4 && margin * errors < 999999
  }

  // Where two strings first differ.
  lemma FirstDifference(v: seq<bool>, w: seq<bool>) returns (f: nat)
    requires |v| == |w| && v != w
    ensures f < |v| && v[f] != w[f] && v[..f] == w[..f]
  {
    f := 0;
    while f < |v| && v[f] == w[f]
      invariant f <= |v| && v[..f] == w[..f]
    {
      f := f + 1;
    }
  }

  lemma StartsOrMismatches(message: seq<bool>, received: seq<bool>, t: nat, w: seq<bool>, f: nat)
    requires |received| == 2 * |message| && t <= |message| && |w| == t + 6
    requires Errors(Encode(message), received) <= 4
    requires var v := Register(message)[..t + 6];
             f < |w| && v[f] != w[f] && v[..f] == w[..f] && (f + 20 <= |w| || End(w) == End(v))
    ensures Start(w) != 0 || Mismatches(received, w) >= 5
  {
    hide Mismatches, CodeWeight, Encode, Errors;
    var v := Register(message)[..t + 6];
    if f < 6 {
      assert v[..6] == Zeros(6);
      StartDiffers(v, w, f);
    } else {
      MismatchesBounded(message, received, t);
      Triangle(received, v, w);
      DifferenceWeight(v, w, f);
    }
  }

  lemma Gap(margin: int, errors: nat, mine: nat)
    requires margin > 0 && errors <= 4
    ensures 0 <= margin * mine
    ensures mine >= 5 ==> margin * errors < margin * mine
  {
    MulOrder(0, mine, margin);
    MulOrder(errors + 1, mine, margin);
  }

  // A string that leaves the true one in time, or in its start, scores less.
  lemma DifferentIsWorse(m: Mettab, margin: int, message: seq<bool>, received: seq<bool>, t: nat, w: seq<bool>, f: nat)
    requires IsUniform(m, margin)
    requires |received| == 2 * |message| && t <= |message| && |w| == t + 6
    requires IsTolerable(margin, Errors(Encode(message), received))
    requires var v := Register(message)[..t + 6];
             f < |w| && v[f] != w[f] && v[..f] == w[..f] && (f + 20 <= |w| || End(w) == End(v))
    ensures Score(m, received, w) < Score(m, received, Register(message)[..t + 6])
  {
    assert margin > 0;
    hide Score, Errors, Encode, Mismatches, Perfect, Start, End, IsUniform;
    TrueScore(m, margin, message, received, t);
    ScoreCountsMismatches(m, margin, received, w);
    StartsOrMismatches(message, received, t, w, f);
    Gap(margin, Errors(Encode(message), received), Mismatches(received, w));
  }

  // A string that scores at least as much as the true one agrees with it up to 20 bits before
  // the end, and everywhere when both end in the same state.
  lemma BestAgrees(m: Mettab, margin: int, message: seq<bool>, received: seq<bool>, t: nat, w: seq<bool>)
    requires IsUniform(m, margin)
    requires |received| == 2 * |message| && t <= |message| && |w| == t + 6
    requires IsTolerable(margin, Errors(Encode(message), received))
    requires Score(m, received, w) >= Score(m, received, Register(message)[..t + 6])
    ensures forall i :: 0 <= i <= t - 14 ==> w[i] == Register(message)[i]
    ensures End(w) == End(Register(message)[..t + 6]) ==> w == Register(message)[..t + 6]
  {
    hide Score, Errors, Encode, IsUniform, End;
    var v := Register(message)[..t + 6];
    if w != v {
      var f := FirstDifference(v, w);
      if f + 20 <= |w| || End(w) == End(v) {
        DifferentIsWorse(m, margin, message, received, t, w, f);
      }
      forall i | 0 <= i <= t - 14
        ensures w[i] == v[i]
      {
        assert w[i] == w[..f][i] && v[i] == v[..f][i];
      }
    }
  }

  lemma MismatchesBounded(message: seq<bool>, received: seq<bool>, t: nat)
    requires |received| == 2 * |message| && t <= |message|
    ensures Mismatches(received, Register(message)[..t + 6]) <= Errors(Encode(message), received)
  {
    TrueMismatches(message, received, t);
    ErrorsGrow(Encode(message), received, 2 * t);
  }

  lemma StartDiffers(v: seq<bool>, w: seq<bool>, f: nat)
    requires |v| == |w| && f < 6 <= |v| && v[..6] == Zeros(6) && v[f] != w[f]
    ensures Start(w) != 0
  {
    ValueZeros(6);
    assert w[f] == w[..6][f] && v[f] == v[..6][f];
    if Start(w) == 0 {
      ValueInjective(w[..6], Zeros(6));
      assert false;
    }
  }

  lemma DifferenceWeight(v: seq<bool>, w: seq<bool>, f: nat)
    requires 6 <= f < |v| == |w| && v[f] != w[f] && v[..f] == w[..f]
    requires f + 20 <= |w| || End(w) == End(v)
    ensures CodeWeight(Xor(v, w)) >= 9
  {
    var x := Xor(v, w);
    forall i | 0 <= i < f
      ensures !x[i]
    {
      assert v[i] == v[..f][i] && w[i] == w[..f][i];
    }
    if f + 20 > |w| {
      ValueInjective(v[|v| - 6..], w[|w| - 6..]);
      forall i | |x| - 6 <= i < |x|
        ensures !x[i]
      {
        assert v[i] == v[|v| - 6..][i - (|v| - 6)] && w[i] == w[|w| - 6..][i - (|w| - 6)];
      }
    }
    NineApart(x, f);
  }

  // ---- What the decoder guarantees --------------------------------------------------------

  // 640 bytes, most significant bit first.
  function MessageBits(bytes: seq<Byte>): (message: seq<bool>)
    ensures |message| == 8 * |bytes|
  {
    if bytes == [] then []
    else MessageBits(bytes[..|bytes| - 1]) + ByteBits(bytes[|bytes| - 1])
  }

  function ByteBits(b: Byte): (u: seq<bool>)
    ensures |u| == 8 && Value(u) == b
  {
    assert Pow2(8) == 256;
    BitsOf(b, 8)
  }

  lemma {:induction false} MessageBitsByte(bytes: seq<Byte>, k: nat)
    requires k < |bytes|
    ensures MessageBits(bytes)[8 * k..8 * k + 8] == ByteBits(bytes[k])
    decreases |bytes|
  {
    hide ByteBits;
    var last := |bytes| - 1;
    var head, tail := MessageBits(bytes[..last]), ByteBits(bytes[last]);
    assert MessageBits(bytes) == head + tail;
    hide MessageBits;
    if k < last {
      MessageBitsByte(bytes[..last], k);
      SliceOfHead(head, tail, 8 * k);
    } else {
      assert (head + tail)[|head|..|head| + 8] == tail;
    }
  }

  // Bit b of byte k, counted from the top, is the digit of weight 2^(7 - b).
  lemma MessageBit(bytes: seq<Byte>, k: nat, b: nat)
    requires k < |bytes| && b < 8
    ensures MessageBits(bytes)[8 * k + b] <==> bytes[k] / Pow2(7 - b) % 2 == 1
  {
    hide MessageBits, BitsOf;
    MessageBitsByte(bytes, k);
    assert MessageBits(bytes)[8 * k + b] == MessageBits(bytes)[8 * k..8 * k + 8][b];
    assert Pow2(8) == 256;
    DigitOf(bytes[k], 8, b);
  }

  lemma {:induction false} DigitOf(v: nat, n: nat, b: nat)
    requires v < Pow2(n) && b < n
    ensures BitsOf(v, n)[b] <==> v / Pow2(n - 1 - b) % 2 == 1
  {
    if b < n - 1 {
      DigitOf(v / 2, n - 1, b);
      HalfThen(v, Pow2(n - 2 - b));
    } else {
      assert Pow2(0) == 1;
    }
  }

  lemma HalfThen(v: nat, p: int)
    requires p > 0
    ensures v / (2 * p) == v / 2 / p
  {
    var q, r := v / 2 / p, v / 2 % p;
    DivModUnique(v, 2 * p, q, 2 * r + v % 2);
  }

  lemma SliceOfHead(head: seq<bool>, tail: seq<bool>, from: nat)
    requires from + 8 <= |head|
    ensures (head + tail)[from..from + 8] == head[from..from + 8]
  {}

  lemma DecidedByte(m: Mettab, margin: int, message: seq<bool>, received: seq<bool>, k: nat, byte: int)
    requires IsUniform(m, margin)
    requires |message| == STEPS && |received| == SYMBOLS && IsTolerable(margin, Errors(Encode(message), received))
    requires k < 636 && IsDecided(m, received, k, byte)
    ensures byte == Value(message[8 * k..8 * k + 8])
  {
    hide Score, Errors, Encode, IsUniform, End;
    var t := 8 * k + 38;
    var w :| IsChosen(m, received, t, w) && byte == MessageByte(w, k);
    var v := Register(message);
    assert |v[..t + 6]| == t + 6;
    BestAgrees(m, margin, message, received, t, w);
    assert w[8 * k + 6..8 * k + 14] == v[8 * k + 6..8 * k + 14] == message[8 * k..8 * k + 8];
  }

  lemma TailIsTrue(m: Mettab, margin: int, message: seq<bool>, received: seq<bool>, w: seq<bool>)
    requires IsUniform(m, margin)
    requires |message| == STEPS && message[STEPS - 6..] == Zeros(6)
    requires |received| == SYMBOLS && IsTolerable(margin, Errors(Encode(message), received))
    requires IsBestTail(m, received, STEPS, w)
    ensures w == Register(message)
  {
    hide Score, Errors, Encode, IsUniform;
    var v := Register(message);
    assert v[..STEPS + 6] == v;
    assert v[|v| - 6..] == message[STEPS - 6..];
    ValueZeros(6);
    BestAgrees(m, margin, message, received, STEPS, w);
  }

  // Any message that ends in six zeros survives any four wrong symbols, although every byte is
  // decided from 32-bit survivors as soon as its bits reach the top of the path.
  lemma CorrectsFourErrors(m: Mettab, margin: int, bytes: seq<Byte>, received: seq<bool>, output: seq<Byte>)
    requires IsUniform(m, margin)
    requires |bytes| == 640 && MessageBits(bytes)[STEPS - 6..] == Zeros(6)
    requires |received| == SYMBOLS && IsTolerable(margin, Errors(Encode(MessageBits(bytes)), received))
    requires IsDecoding(m, received, output)
    ensures output == bytes
  {
    hide Errors, Encode, IsUniform, IsDecided, IsBestTail, MessageBits, ByteBits;
    var message := MessageBits(bytes);
    var w :| IsTailOf(m, received, output[636..], w);
    TailIsTrue(m, margin, message, received, w);
    forall k | 0 <= k < 640
      ensures output[k] == bytes[k]
    {
      MessageBitsByte(bytes, k);
      if k < 636 {
        DecidedByte(m, margin, message, received, k, output[k]);
      } else {
        assert output[k] == output[636..][k - 636];
        assert w[8 * k + 6..8 * k + 14] == message[8 * k..8 * k + 8];
      }
    }
  }
}
