// The decoder of tools/egc_decode.cpp, lines 324-421: add, compare, select over 64 states with
// 32-bit survivors, against the best score over all input strings.

module Scores {
  import opened PowersOfTwo
  import opened Bits
  import opened ConvolutionalCode

  // mettab_[code bit][received symbol]; the received symbols are hard, 28 or 228.
  type Mettab = (bool, bool) -> int

  const START_PENALTY := -999999

  // A string of input bits: its first six are the state the register starts in, every later
  // one is a step. Its last six are the state it ends in.
  function Start(w: seq<bool>): (state: nat)
    requires |w| >= 6
  {
    Value(w[..6])
  }

  function End(w: seq<bool>): (state: nat)
    requires |w| >= 6
  {
    Value(w[|w| - 6..])
  }

  function Branch(m: Mettab, p: Pair, a: bool, b: bool): int {
    m(p.first, a) + m(p.second, b)
  }

  // Start metric plus branch metrics.
  ghost function Score(m: Mettab, sy: seq<bool>, w: seq<bool>): int
    requires 6 <= |w| && 2 * (|w| - 6) <= |sy|
    decreases |w|
  {
    if |w| == 6 then (if Start(w) == 0 then 0 else START_PENALTY)
    else
      var j := |w| - 7;
      Score(m, sy, w[..j + 6]) + Branch(m, Output(w[j..]), sy[2 * j], sy[2 * j + 1])
  }

  // The bits that have left the register, as the 32-bit path word keeps them.
  function PathWord(w: seq<bool>): nat
    requires |w| >= 6
  {
    Value(w[..|w| - 6]) % 0x1_0000_0000
  }

  datatype St = St(path: nat, metric: int)

  // Of strings with one score and one end the decoder keeps the one that has a one at the last
  // place where they differ.
  predicate Outranks(w: seq<bool>, v: seq<bool>)
    requires |w| == |v|
  {
    w != [] && (if w[|w| - 1] != v[|v| - 1] then w[|w| - 1] else Outranks(w[..|w| - 1], v[..|v| - 1]))
  }

  lemma {:induction false} OutranksAt(w: seq<bool>, v: seq<bool>, f: nat)
    requires f < |w| == |v| && w[f] && !v[f] && w[f + 1..] == v[f + 1..]
    ensures Outranks(w, v)
    decreases |w|
  {
    var n := |w| - 1;
    if f < n {
      assert w[n] == w[f + 1..][n - f - 1] && v[n] == v[f + 1..][n - f - 1];
      assert w[..n][f + 1..] == w[f + 1..][..n - f - 1] && v[..n][f + 1..] == v[f + 1..][..n - f - 1];
      OutranksAt(w[..n], v[..n], f);
    }
  }

  lemma {:induction false} OutranksOneWay(w: seq<bool>, v: seq<bool>)
    requires |w| == |v|
    ensures !(Outranks(w, v) && Outranks(v, w))
    ensures w == v ==> !Outranks(w, v)
  {
    if w != [] {
      OutranksOneWay(w[..|w| - 1], v[..|v| - 1]);
    }
  }

  // The survivor of a state: the best score of the strings that end there, and the path of the
  // one that attains it and outranks all others that do.
  ghost predicate IsSurvivor(m: Mettab, sy: seq<bool>, t: nat, state: nat, st: St)
    requires 2 * t <= |sy|
  {
    && (forall w :: |w| == t + 6 && End(w) == state ==> Score(m, sy, w) <= st.metric)
    && exists w :: IsWitness(m, sy, t, state, st, w)
  }

  ghost predicate IsWitness(m: Mettab, sy: seq<bool>, t: nat, state: nat, st: St, w: seq<bool>)
    requires 2 * t <= |sy|
  {
    |w| == t + 6 && End(w) == state && Score(m, sy, w) == st.metric && PathWord(w) == st.path && IsFirst(m, sy, t, w)
  }

  // No other string of the same end and score outranks w.
  ghost predicate IsFirst(m: Mettab, sy: seq<bool>, t: nat, w: seq<bool>)
    requires 2 * t <= |sy| && |w| == t + 6
  {
    forall v :: |v| == t + 6 && End(v) == End(w) && Score(m, sy, v) == Score(m, sy, w) && v != w ==> Outranks(w, v)
  }

  lemma FirstOutranks(m: Mettab, sy: seq<bool>, t: nat, w: seq<bool>, v: seq<bool>)
    requires 2 * t <= |sy| && |w| == |v| == t + 6 && IsFirst(m, sy, t, w)
    requires End(v) == End(w) && Score(m, sy, v) == Score(m, sy, w) && v != w
    ensures Outranks(w, v)
  {}

  ghost predicate AreSurvivors(m: Mettab, sy: seq<bool>, t: nat, states: seq<St>)
    requires 2 * t <= |sy|
  {
    |states| == 64 && forall i :: 0 <= i < 64 ==> IsSurvivor(m, sy, t, i, states[i])
  }

  // ---- Extending a string by one bit ------------------------------------------------------

  lemma EndBound(w: seq<bool>)
    requires |w| >= 6
    ensures End(w) < 64
  {
    ValueBound(w[|w| - 6..]);
    assert Pow2(6) == 64;
  }

  lemma EndSnoc(w: seq<bool>, b: bool)
    requires |w| >= 6
    ensures End(w) < 64
    ensures End(w + [b]) == (2 * End(w) + if b then 1 else 0) % 64
    ensures w[|w| - 6] == (End(w) >= 32)
  {
    hide Value;
    var u := w[|w| - 6..];
    SixBits(u[0], u[1..], b);
    assert u == [u[0]] + u[1..];
    assert (w + [b])[|w| - 5..] == u[1..] + [b];
    assert w[|w| - 6] == u[0];
  }

  lemma SixBits(top: bool, low: seq<bool>, b: bool)
    requires |low| == 5
    ensures Value([top] + low) < 64 && top == (Value([top] + low) >= 32)
    ensures Value(low + [b]) == (2 * Value([top] + low) + if b then 1 else 0) % 64
  {
    hide Value, Pow2;
    ThirtyTwo();
    ValueCons(top, low);
    ValueBound(low);
    ValueSnoc(low, b);
    LowSix(Value(low), top, b, Value([top] + low), Value(low + [b]));
  }

  lemma ThirtyTwo()
    ensures Pow2(5) == 32
  {}

  lemma LowSix(v: nat, top: bool, b: bool, whole: nat, next: nat)
    requires v < 32 && whole == (if top then 32 else 0) + v && next == 2 * v + (if b then 1 else 0)
    ensures whole < 64 && top == (whole >= 32)
    ensures next == (2 * whole + if b then 1 else 0) % 64
  {}

  lemma PathSnoc(w: seq<bool>, b: bool)
    requires |w| >= 6
    ensures PathWord(w + [b]) == (2 * PathWord(w) + if w[|w| - 6] then 1 else 0) % 0x1_0000_0000
  {
    var t := |w| - 6;
    assert (w + [b])[..t + 1] == w[..t] + [w[t]];
    ValueSnoc(w[..t], w[t]);
    ModStep(Value(w[..t]), if w[t] then 1 else 0, 0x1_0000_0000);
  }

  lemma ModStep(v: nat, bit: nat, size: nat)
    requires size > 0
    ensures (2 * v + bit) % size == (2 * (v % size) + bit) % size
  {
    var rest := 2 * (v % size) + bit;
    assert v == v / size * size + v % size && rest == rest / size * size + rest % size;
    DivModUnique(2 * v + bit, size, 2 * (v / size) + rest / size, rest % size);
  }

  lemma ScoreSnoc(m: Mettab, sy: seq<bool>, w: seq<bool>, b: bool)
    requires 6 <= |w| && 2 * (|w| - 5) <= |sy|
    ensures var t := |w| - 6;
            Score(m, sy, w + [b]) == Score(m, sy, w) + Branch(m, Output(w[t..] + [b]), sy[2 * t], sy[2 * t + 1])
  {
    var t := |w| - 6;
    assert (w + [b])[..t + 6] == w && (w + [b])[t..] == w[t..] + [b];
  }

  // The four branch metrics of one step.
  function Mets(m: Mettab, a: bool, b: bool): (mets: seq<int>)
    ensures |mets| == 4
  {
    [m(false, a) + m(false, b), m(false, a) + m(true, b), m(true, a) + m(false, b), m(true, a) + m(true, b)]
  }

  lemma BranchIsTableEntry(m: Mettab, w: seq<bool>, b: bool, r0: bool, r1: bool)
    requires |w| >= 6
    ensures End(w) < 64 && Symbol(End(w), b) < 4
    ensures Branch(m, Output(w[|w| - 6..] + [b]), r0, r1) == Mets(m, r0, r1)[Symbol(End(w), b)]
  {
    var x := w[|w| - 6..] + [b];
    TableIsCode(x);
    assert x[..6] == w[|w| - 6..];
    hide Output, Symbol, Value;
  }

  // Add, compare, select: m0 wins only when it is greater.
  function Select(lower: St, upper: St, low: int, high: int): St {
    var m0, m1 := lower.metric + low, upper.metric + high;
    if m0 > m1 then St(2 * lower.path % 0x1_0000_0000, m0) else St((2 * upper.path + 1) % 0x1_0000_0000, m1)
  }

  // The two states that lead to a next state.
  lemma Predecessors(e: nat, c: bool, i: nat, b: bool)
    requires e < 64 && i < 32
    ensures (2 * e + (if c then 1 else 0)) % 64 == 2 * i + (if b then 1 else 0) <==> c == b && (e == i || e == i + 32)
  {}

  lemma UpperBound(m: Mettab, sy: seq<bool>, t: nat, state: nat, st: St, w: seq<bool>)
    requires 2 * t <= |sy| && IsSurvivor(m, sy, t, state, st) && |w| == t + 6 && End(w) == state
    ensures Score(m, sy, w) <= st.metric
  {}

  lemma SelectIsUpperBound(m: Mettab, sy: seq<bool>, t: nat, i: nat, b: bool, lower: St, upper: St, w: seq<bool>)
    requires 2 * (t + 1) <= |sy| && i < 32
    requires IsSurvivor(m, sy, t, i, lower) && IsSurvivor(m, sy, t, i + 32, upper)
    requires |w| == t + 7 && End(w) == 2 * i + (if b then 1 else 0)
    ensures var mets := Mets(m, sy[2 * t], sy[2 * t + 1]);
            Score(m, sy, w) <= Select(lower, upper, mets[Symbol(i, b)], mets[Symbol(i + 32, b)]).metric
  {
    hide Score, Output, Symbol, Branch, Mets, End, PathWord, IsSurvivor;
    var init := w[..t + 6];
    assert w == init + [w[t + 6]];
    Extend(m, sy, init, w[t + 6]);
    Predecessors(End(init), w[t + 6], i, b);
    UpperBound(m, sy, t, End(init), if End(init) == i then lower else upper, init);
  }

  lemma SelectIsAttained(m: Mettab, sy: seq<bool>, t: nat, i: nat, b: bool, lower: St, upper: St) returns (w: seq<bool>)
    requires 2 * (t + 1) <= |sy| && i < 32
    requires IsSurvivor(m, sy, t, i, lower) && IsSurvivor(m, sy, t, i + 32, upper)
    ensures var mets := Mets(m, sy[2 * t], sy[2 * t + 1]);
            IsWitness(m, sy, t + 1, 2 * i + (if b then 1 else 0),
                      Select(lower, upper, mets[Symbol(i, b)], mets[Symbol(i + 32, b)]), w)
  {
    hide Score, Output, Symbol, Branch, Mets, End, PathWord, IsSurvivor, IsFirst;
    var mets := Mets(m, sy[2 * t], sy[2 * t + 1]);
    var lowerWins := lower.metric + mets[Symbol(i, b)] > upper.metric + mets[Symbol(i + 32, b)];
    var init := Witness(m, sy, t, if lowerWins then i else i + 32, if lowerWins then lower else upper);
    Extend(m, sy, init, b);
    Predecessors(End(init), b, i, b);
    w := init + [b];
    SelectIsFirst(m, sy, t, i, b, lower, upper, init);
  }

  // Ties go to the upper predecessor, the one whose oldest bit is set.
  lemma SelectIsFirst(m: Mettab, sy: seq<bool>, t: nat, i: nat, b: bool, lower: St, upper: St, init: seq<bool>)
    requires 2 * (t + 1) <= |sy| && i < 32
    requires IsSurvivor(m, sy, t, i, lower) && IsSurvivor(m, sy, t, i + 32, upper)
    requires var mets := Mets(m, sy[2 * t], sy[2 * t + 1]);
      var lowerWins := lower.metric + mets[Symbol(i, b)] > upper.metric + mets[Symbol(i + 32, b)];
      IsWitness(m, sy, t, if lowerWins then i else i + 32, if lowerWins then lower else upper, init)
    ensures IsFirst(m, sy, t + 1, init + [b])
  {
    hide Score, Output, Symbol, Branch, Mets, End, PathWord, IsSurvivor, Outranks;
    var w := init + [b];
    forall v | |v| == t + 7 && End(v) == End(w) && Score(m, sy, v) == Score(m, sy, w) && v != w
      ensures Outranks(w, v)
    {
      hide IsFirst;
      var other, c := v[..t + 6], v[t + 6];
      assert v == other + [c];
      Extend(m, sy, init, b);
      Extend(m, sy, other, c);
      Predecessors(End(init), b, i, b);
      Predecessors(End(other), c, i, b);
      if End(other) == End(init) {
        FirstOutranks(m, sy, t, init, other);
        OutranksBefore(init, other, b);
      } else {
        UpperBound(m, sy, t, End(other), if End(other) == i then lower else upper, other);
        OldestBitDecides(init, other, i);
        OutranksBefore(init, other, b);
      }
    }
  }

  lemma OutranksBefore(w: seq<bool>, v: seq<bool>, b: bool)
    requires |w| == |v| && Outranks(w, v)
    ensures Outranks(w + [b], v + [b])
  {
    assert (w + [b])[..|w|] == w && (v + [b])[..|v|] == v;
  }

  lemma OldestBitDecides(w: seq<bool>, v: seq<bool>, i: nat)
    requires |w| == |v| >= 6 && i < 32 && End(w) == i + 32 && End(v) == i
    ensures Outranks(w, v)
  {
    hide Value, Outranks;
    var f := |w| - 6;
    EndParts(w);
    EndParts(v);
    ValueInjective(w[f + 1..], v[f + 1..]);
    OutranksAt(w, v, f);
  }

  lemma EndParts(w: seq<bool>)
    requires |w| >= 6
    ensures End(w) == (if w[|w| - 6] then 32 else 0) + Value(w[|w| - 5..]) && Value(w[|w| - 5..]) < 32
  {
    var u := w[|w| - 6..];
    assert u == [u[0]] + w[|w| - 5..];
    ValueCons(u[0], w[|w| - 5..]);
    ValueBound(w[|w| - 5..]);
    assert Pow2(5) == 32;
  }

  lemma SelectKeepsSurvivor(m: Mettab, sy: seq<bool>, t: nat, i: nat, b: bool, lower: St, upper: St)
    requires 2 * (t + 1) <= |sy| && i < 32
    requires IsSurvivor(m, sy, t, i, lower) && IsSurvivor(m, sy, t, i + 32, upper)
    ensures var mets := Mets(m, sy[2 * t], sy[2 * t + 1]);
            IsSurvivor(m, sy, t + 1, 2 * i + (if b then 1 else 0),
                       Select(lower, upper, mets[Symbol(i, b)], mets[Symbol(i + 32, b)]))
  {
    var best := SelectIsAttained(m, sy, t, i, b, lower, upper);
    hide Score, Output, Symbol, Branch, Mets, End, PathWord, Select, IsWitness;
    forall w | |w| == t + 7 && End(w) == 2 * i + (if b then 1 else 0)
      ensures var mets := Mets(m, sy[2 * t], sy[2 * t + 1]);
              Score(m, sy, w) <= Select(lower, upper, mets[Symbol(i, b)], mets[Symbol(i + 32, b)]).metric
    {
      SelectIsUpperBound(m, sy, t, i, b, lower, upper, w);
    }
  }

  lemma Witness(m: Mettab, sy: seq<bool>, t: nat, state: nat, st: St) returns (w: seq<bool>)
    requires 2 * t <= |sy| && IsSurvivor(m, sy, t, state, st)
    ensures IsWitness(m, sy, t, state, st, w)
  {
    w :| IsWitness(m, sy, t, state, st, w);
  }

  lemma Extend(m: Mettab, sy: seq<bool>, w: seq<bool>, b: bool)
    requires 6 <= |w| && 2 * (|w| - 5) <= |sy|
    ensures var t := |w| - 6;
            && End(w) < 64
            && End(w + [b]) == (2 * End(w) + if b then 1 else 0) % 64
            && Score(m, sy, w + [b]) == Score(m, sy, w) + Mets(m, sy[2 * t], sy[2 * t + 1])[Symbol(End(w), b)]
            && PathWord(w + [b]) == (2 * PathWord(w) + if End(w) >= 32 then 1 else 0) % 0x1_0000_0000
  {
    hide Score, Output, Symbol, Value, Branch, Mets;
    var t := |w| - 6;
    EndSnoc(w, b);
    PathSnoc(w, b);
    ScoreSnoc(m, sy, w, b);
    BranchIsTableEntry(m, w, b, sy[2 * t], sy[2 * t + 1]);
  }

  // Before the first step every state is its own start.
  lemma InitialSurvivors(m: Mettab, sy: seq<bool>, states: seq<St>)
    requires |states| == 64
    requires forall i :: 0 <= i < 64 ==> states[i] == St(0, if i == 0 then 0 else START_PENALTY)
    ensures AreSurvivors(m, sy, 0, states)
  {
    forall i | 0 <= i < 64
      ensures IsSurvivor(m, sy, 0, i, states[i])
    {
      forall w: seq<bool> | |w| == 6
        ensures w[..6] == w && w[0..] == w
      {}
      var w := BitsOf(i, 6);
      assert Pow2(6) == 64;
      assert w[..6] == w && w[0..] == w && w[..0] == [];
      forall v: seq<bool> | |v| == 6 && End(v) == End(w)
        ensures v == w
      {
        assert v[0..] == v;
        ValueInjective(v, w);
      }
      assert IsWitness(m, sy, 0, i, states[i], w);
    }
  }
}

module Viterbi {
  import opened PowersOfTwo
  import opened Bits
  import opened ConvolutionalCode
  import opened Scores

  type Byte = b: int | 0 <= b < 256

  // A string of greatest score, over all strings of its length.
  ghost predicate IsBest(m: Mettab, sy: seq<bool>, t: nat, w: seq<bool>)
    requires 2 * t <= |sy|
  {
    |w| == t + 6 && forall v :: |v| == t + 6 ==> Score(m, sy, v) <= Score(m, sy, w)
  }

  // Of several such strings the decoder takes the one with the lowest end state, and of those the
  // one that outranks the others.
  ghost predicate IsChosen(m: Mettab, sy: seq<bool>, t: nat, w: seq<bool>)
    requires 2 * t <= |sy|
  {
    && IsBest(m, sy, t, w) && IsFirst(m, sy, t, w)
    && forall v :: |v| == t + 6 && Score(m, sy, v) == Score(m, sy, w) ==> End(w) <= End(v)
  }

  // The same over the strings that end in state 0.
  ghost predicate IsBestTail(m: Mettab, sy: seq<bool>, t: nat, w: seq<bool>)
    requires 2 * t <= |sy|
  {
    && |w| == t + 6 && End(w) == 0 && IsFirst(m, sy, t, w)
    && forall v :: |v| == t + 6 && End(v) == 0 ==> Score(m, sy, v) <= Score(m, sy, w)
  }

  // Byte k of the message that w stands for; the first six bits are not part of it.
  function MessageByte(w: seq<bool>, k: nat): nat
    requires 8 * k + 14 <= |w|
  {
    Value(w[8 * k + 6..8 * k + 14])
  }

  // Byte k as decided after step 8 k + 38, with 24 younger bits still in the survivor.
  ghost predicate IsDecided(m: Mettab, sy: seq<bool>, k: nat, byte: int)
    requires 2 * (8 * k + 38) <= |sy|
  {
    exists w :: IsChosen(m, sy, 8 * k + 38, w) && byte == MessageByte(w, k)
  }

  const SYMBOLS := 10240
  const STEPS := 5120

  // The last four bytes, from the survivor of state 0.
  ghost predicate IsTail(m: Mettab, sy: seq<bool>, tail: seq<int>)
    requires |sy| == SYMBOLS
  {
    exists w :: IsTailOf(m, sy, tail, w)
  }

  ghost predicate IsTailOf(m: Mettab, sy: seq<bool>, tail: seq<int>, w: seq<bool>)
    requires |sy| == SYMBOLS
  {
    |tail| == 4 && IsBestTail(m, sy, STEPS, w) && forall i :: 0 <= i < 4 ==> tail[i] == MessageByte(w, 636 + i)
  }

  ghost predicate IsDecoding(m: Mettab, sy: seq<bool>, output: seq<int>)
    requires |sy| == SYMBOLS
  {
    && |output| == 640
    && (forall k :: 0 <= k < 636 ==> IsDecided(m, sy, k, output[k]))
    && IsTail(m, sy, output[636..])
  }

  lemma OneIsChosen(m: Mettab, sy: seq<bool>, t: nat, w: seq<bool>, v: seq<bool>)
    requires 2 * t <= |sy| && IsChosen(m, sy, t, w) && IsChosen(m, sy, t, v)
    ensures w == v
  {
    hide Score, End, Outranks;
    OutranksOneWay(w, v);
    assert Score(m, sy, v) <= Score(m, sy, w) <= Score(m, sy, v);
  }

  lemma OneBestTail(m: Mettab, sy: seq<bool>, t: nat, w: seq<bool>, v: seq<bool>)
    requires 2 * t <= |sy| && IsBestTail(m, sy, t, w) && IsBestTail(m, sy, t, v)
    ensures w == v
  {
    hide Score, End, Outranks;
    OutranksOneWay(w, v);
  }

  // What the decoder returns is settled by the symbols and the metric, ties included.
  lemma DecodingIsUnique(m: Mettab, sy: seq<bool>, x: seq<int>, y: seq<int>)
    requires |sy| == SYMBOLS && IsDecoding(m, sy, x) && IsDecoding(m, sy, y)
    ensures x == y
  {
    hide IsChosen, IsBestTail, MessageByte;
    var w :| IsTailOf(m, sy, x[636..], w);
    var v :| IsTailOf(m, sy, y[636..], v);
    OneBestTail(m, sy, STEPS, w, v);
    forall k | 0 <= k < 640
      ensures x[k] == y[k]
    {
      if k < 636 {
        OneDecision(m, sy, k, x[k], y[k]);
      } else {
        assert x[k] == x[636..][k - 636] && y[k] == y[636..][k - 636];
      }
    }
  }

  lemma OneDecision(m: Mettab, sy: seq<bool>, k: nat, a: int, b: int)
    requires 2 * (8 * k + 38) <= |sy| && IsDecided(m, sy, k, a) && IsDecided(m, sy, k, b)
    ensures a == b
  {
    hide Score, End, IsFirst, MessageByte;
    var w :| IsChosen(m, sy, 8 * k + 38, w) && a == MessageByte(w, k);
    var v :| IsChosen(m, sy, 8 * k + 38, v) && b == MessageByte(v, k);
    OneIsChosen(m, sy, 8 * k + 38, w, v);
  }

  // ---- Reading bytes off a path word -------------------------------------------------------

  lemma Powers()
    ensures Pow2(8) == 0x100 && Pow2(16) == 0x1_0000 && Pow2(24) == 0x100_0000 && Pow2(32) == 0x1_0000_0000
    ensures Pow2(6) == 64
  {
    assert Pow2(8) == 0x100;
    Pow2Add(8, 8);
    Pow2Add(16, 8);
    Pow2Add(16, 16);
  }

  // The top byte of the path holds the eight oldest of the last 32 bits that left the register.
  lemma TopByte(w: seq<bool>, k: nat)
    requires |w| == 8 * k + 44
    ensures PathWord(w) / 0x100_0000 == MessageByte(w, k) < 256
  {
    Powers();
    hide Pow2;
    var u := w[..|w| - 6];
    var last := u[|u| - 32..];
    ValueSplit(u, 32);
    ValueSplit(last, 24);
    assert last[..8] == w[8 * k + 6..8 * k + 14];
    ValueBound(last[..8]);
  }

  // Six zeros pushed behind the path of a string that ends in state 0.
  lemma TailWord(w: seq<bool>)
    requires |w| == STEPS + 6 && End(w) == 0
    ensures PathWord(w) * 64 % 0x1_0000_0000 == Value(w[|w| - 32..])
  {
    Powers();
    hide Pow2;
    var u, v := w[..|w| - 6], w[|w| - 6..];
    var last := u[|u| - 32..];
    ValueSplit(u, 32);
    ValueAppend(last, v);
    ValueSplit(last + v, 32);
    assert (last + v)[6..] == w[|w| - 32..];
  }

  lemma TailBytes(w: seq<bool>)
    requires |w| == STEPS + 6 && End(w) == 0
    ensures var p := PathWord(w) * 64 % 0x1_0000_0000;
            && p / 0x100_0000 == MessageByte(w, 636) < 256
            && p / 0x1_0000 % 256 == MessageByte(w, 637)
            && p / 0x100 % 256 == MessageByte(w, 638)
            && p % 256 == MessageByte(w, 639)
  {
    TailWord(w);
    Powers();
    hide Pow2;
    var last := w[|w| - 32..];
    ValueSplit(last, 24);
    ValueSplit(last, 16);
    ValueSplit(last, 8);
    ValueSplit(last[..16], 8);
    ValueSplit(last[..24], 8);
    assert last[..8] == w[5094..5102] && last[..16][8..] == w[5102..5110];
    assert last[..24][16..] == w[5110..5118] && last[24..] == w[5118..5126];
    ValueBound(last[..8]);
  }

  // ---- The decoder -------------------------------------------------------------------------

  class Decoder {
    const mettab: Mettab

    constructor (mettab: Mettab)
      ensures this.mettab == mettab
    {
      this.mettab := mettab;
    }

    // One trellis step: next[2 i] and next[2 i + 1] from state[i] and state[i + 32].
    method Step(state: array<St>, next: array<St>, a: bool, b: bool)
      requires state.Length == next.Length == 64 && state != next
      modifies next
      ensures IsStep(state[..], next[..], Mets(mettab, a, b), 32)
    {
      hide Mets, TableAt, Symbol, Select;
      var mets := Mets(mettab, a, b);
      for i := 0 to 32
        invariant IsStep(state[..], next[..], mets, i)
      {
        var sym := TableAt(i);
        PairSymbols(i);
        next[2 * i] := AddCompareSelect(state[i], state[i + 32], mets[sym], mets[3 - sym]);
        next[2 * i + 1] := AddCompareSelect(state[i], state[i + 32], mets[3 - sym], mets[sym]);
      }
    }

    static lemma PairSymbols(i: nat)
      requires i < 32
      ensures Symbol(i, false) == Symbol(i + 32, true) == TableAt(i)
      ensures Symbol(i, true) == Symbol(i + 32, false) == 3 - TableAt(i)
    {
      hide TableAt;
    }

    // The first n of the 32 pairs of next states are the selections the table asks for.
    static ghost predicate IsStep(state: seq<St>, next: seq<St>, mets: seq<int>, n: nat)
      requires |state| == |next| == 64 && |mets| == 4 && n <= 32
    {
      forall i :: 0 <= i < n ==>
        && next[2 * i] == Select(state[i], state[i + 32], mets[Symbol(i, false)], mets[Symbol(i + 32, false)])
        && next[2 * i + 1] == Select(state[i], state[i + 32], mets[Symbol(i, true)], mets[Symbol(i + 32, true)])
    }

    static method AddCompareSelect(lower: St, upper: St, low: int, high: int) returns (st: St)
      ensures st == Select(lower, upper, low, high)
    {
      var m0 := lower.metric + low;
      var m1 := upper.metric + high;
      if m0 > m1 {
        st := St(2 * lower.path % 0x1_0000_0000, m0);
      } else {
        st := St((2 * upper.path + 1) % 0x1_0000_0000, m1);
      }
    }

    lemma StepKeepsSurvivors(sy: seq<bool>, t: nat, state: seq<St>, next: seq<St>)
      requires 2 * (t + 1) <= |sy| && AreSurvivors(mettab, sy, t, state) && |next| == 64
      requires IsStep(state, next, Mets(mettab, sy[2 * t], sy[2 * t + 1]), 32)
      ensures AreSurvivors(mettab, sy, t + 1, next)
    {
      hide IsSurvivor, Mets, Symbol, Select;
      forall j | 0 <= j < 64
        ensures IsSurvivor(mettab, sy, t + 1, j, next[j])
      {
        var i := j / 2;
        SelectKeepsSurvivor(mettab, sy, t, i, j % 2 == 1, state[i], state[i + 32]);
      }
    }

    // The state with the greatest metric, the first one on ties.
    static method BestState(state: array<St>) returns (bs: nat)
      requires state.Length == 64
      ensures bs < 64 && forall i :: 0 <= i < 64 ==> state[i].metric <= state[bs].metric
      ensures forall i :: 0 <= i < bs ==> state[i].metric < state[bs].metric
    {
      var best := state[0].metric;
      bs := 0;
      for i := 1 to 64
        invariant bs < i && best == state[bs].metric
        invariant forall j :: 0 <= j < i ==> state[j].metric <= best
        invariant forall j :: 0 <= j < bs ==> state[j].metric < best
      {
        if state[i].metric > best {
          best, bs := state[i].metric, i;
        }
      }
    }

    lemma BestStateDecides(sy: seq<bool>, k: nat, state: seq<St>, bs: nat)
      requires 2 * (8 * k + 38) <= |sy| && AreSurvivors(mettab, sy, 8 * k + 38, state)
      requires bs < 64 && forall i :: 0 <= i < 64 ==> state[i].metric <= state[bs].metric
      requires forall i :: 0 <= i < bs ==> state[i].metric < state[bs].metric
      ensures IsDecided(mettab, sy, k, state[bs].path / 0x100_0000) && 0 <= state[bs].path / 0x100_0000 < 256
    {
      hide Score, End, PathWord, MessageByte;
      var t := 8 * k + 38;
      var w := Witness(mettab, sy, t, bs, state[bs]);
      TopByte(w, k);
      forall v | |v| == t + 6
        ensures Score(mettab, sy, v) <= Score(mettab, sy, w)
        ensures End(v) < bs ==> Score(mettab, sy, v) < Score(mettab, sy, w)
      {
        EndBound(v);
        UpperBound(mettab, sy, t, End(v), state[End(v)], v);
      }
      assert IsChosen(mettab, sy, t, w);
    }

    lemma StateZeroDecides(sy: seq<bool>, state: seq<St>)
      requires |sy| == SYMBOLS && AreSurvivors(mettab, sy, STEPS, state)
      ensures var p := state[0].path * 64 % 0x1_0000_0000;
              && IsTail(mettab, sy, [p / 0x100_0000, p / 0x1_0000 % 256, p / 0x100 % 256, p % 256])
              && 0 <= p / 0x100_0000 < 256
    {
      hide Score, End, PathWord, MessageByte;
      var w := Witness(mettab, sy, STEPS, 0, state[0]);
      TailBytes(w);
      forall v | |v| == STEPS + 6 && End(v) == 0
        ensures Score(mettab, sy, v) <= Score(mettab, sy, w)
      {
        UpperBound(mettab, sy, STEPS, 0, state[0], v);
      }
      var p := state[0].path * 64 % 0x1_0000_0000;
      assert IsTailOf(mettab, sy, [p / 0x100_0000, p / 0x1_0000 % 256, p / 0x100 % 256, p % 256], w);
    }

    // Lines 376-385: the last four bytes, out of state zero.
    method Flush(deint: seq<bool>, state: seq<St>, decided: seq<Byte>) returns (output: seq<Byte>)
      requires |deint| == SYMBOLS && |decided| == 640 && |state| == 64 && AreSurvivors(mettab, deint, STEPS, state)
      requires forall k :: 0 <= k < 636 ==> IsDecided(mettab, deint, k, decided[k])
      ensures |output| == 640 && IsDecoding(mettab, deint, output)
    {
      hide AreSurvivors, IsDecided, IsTail;
      StateZeroDecides(deint, state);
      // The number of steps is a multiple of eight, so the shift is by six.
      var path := state[0].path * 64 % 0x1_0000_0000;
      output := decided;
      output := output[636 := path / 0x100_0000];
      output := output[637 := path / 0x1_0000 % 256];
      output := output[638 := path / 0x100 % 256];
      output := output[639 := path % 256];
      assert output[636..] == [path / 0x100_0000, path / 0x1_0000 % 256, path / 0x100 % 256, path % 256];
    }

    method Decode(deint: seq<bool>) returns (output: seq<Byte>)
      requires |deint| == SYMBOLS
      ensures |output| == 640 && IsDecoding(mettab, deint, output)
    {
      hide AreSurvivors, IsDecided, IsTail, IsDecoding, Mets, Symbol, Select;
      var length := |deint|;
      var nbits := length / 16;
      var state := new St[64](i => St(0, if i == 0 then 0 else START_PENALTY));
      var next := new St[64](i => St(0, 0));
      InitialSurvivors(mettab, deint, state[..]);
      output := seq(640, _ => 0);
      var inputCounter, j := 0, 0;
      var bitcnt := 0;
      while bitcnt < nbits * 8
        invariant 0 <= bitcnt <= nbits * 8 == STEPS && inputCounter == 2 * bitcnt
        invariant fresh(state) && fresh(next) && state != next && state.Length == next.Length == 64
        invariant AreSurvivors(mettab, deint, bitcnt, state[..])
        invariant |output| == 640 && 0 <= j && bitcnt < 8 * j + 38 && (j > 0 ==> 8 * j + 30 <= bitcnt)
        invariant forall k :: 0 <= k < j ==> IsDecided(mettab, deint, k, output[k])
      {
        Step(state, next, deint[inputCounter], deint[inputCounter + 1]);
        StepKeepsSurvivors(deint, bitcnt, state[..], next[..]);
        inputCounter := inputCounter + 2;
        state, next := next, state;
        if bitcnt > length - 7 {
          // Lines 369-370 would rule out the odd states here.
          assert false;
        }
        if bitcnt % 8 == 5 && bitcnt > 32 {
          var bs := BestState(state);
          BestStateDecides(deint, j, state[..], bs);
          output := output[j := state[bs].path / 0x100_0000];
          j := j + 1;
        }
        bitcnt := bitcnt + 1;
      }
      output := Flush(deint, state[..], output);
    }
  }
}
