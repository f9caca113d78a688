// The frame layer of tools/egc_decode.cpp, lines 213-319 and 423-456: frame sync on the unique
// word, row permutation, interleaving and scrambling.

module FrameSync {
  import opened Bits
  import opened PowersOfTwo

  const FRAME_LENGTH := 10368
  const ROWS := 64
  const ROW_LENGTH := 162
  const MAX_UW_ERRORS := 25

  // Four lines of sixteen symbols, as the source has them.
  const POLARITY_0 := [false, false, false, false, false, true, true, true, true, true, true, false, true, false, true, false]
  const POLARITY_1 := [true, true, false, false, true, true, false, true, true, true, false, true, true, false, true, false]
  const POLARITY_2 := [false, true, false, false, true, true, true, false, false, false, true, false, true, true, true, true]
  const POLARITY_3 := [false, false, true, false, true, false, false, false, true, true, false, false, false, false, true, false]
  const NORMAL_POLARITY := POLARITY_0 + POLARITY_1 + POLARITY_2 + POLARITY_3

  // The unique-word symbol of a row, upright or inverted.
  function UniqueWord(row: nat, inverted: bool): bool
    requires row < ROWS
  {
    NORMAL_POLARITY[row] != inverted
  }

  // The 64 symbols read as a number are the unique word of Inmarsat-C.
  lemma UniqueWordNumber()
    ensures Value(NORMAL_POLARITY) == 0x07EA_CDDA_4E2F_28C2
  {
    hide Value;
    Quarters();
    SixteenBits();
    ValueAppend(POLARITY_0, POLARITY_1);
    ValueAppend(POLARITY_0 + POLARITY_1, POLARITY_2);
    ValueAppend(POLARITY_0 + POLARITY_1 + POLARITY_2, POLARITY_3);
  }

  lemma Quarters()
    ensures Value(POLARITY_0) == 0x07EA && Value(POLARITY_1) == 0xCDDA
    ensures Value(POLARITY_2) == 0x4E2F && Value(POLARITY_3) == 0x28C2
  {
    hide Value;
    QuarterValue(POLARITY_0);
    QuarterValue(POLARITY_1);
    QuarterValue(POLARITY_2);
    QuarterValue(POLARITY_3);
  }

  lemma SixteenBits()
    ensures Pow2(16) == 0x1_0000
  {
    assert Pow2(4) == 16;
    hide Pow2;
    Pow2Add(4, 4);
    Pow2Add(8, 8);
  }

  function Nibble(a: bool, b: bool, c: bool, d: bool): nat {
    (if a then 8 else 0) + (if b then 4 else 0) + (if c then 2 else 0) + if d then 1 else 0
  }

  lemma QuarterValue(w: seq<bool>)
    requires |w| == 16
    ensures Value(w) == 0x1000 * Nibble(w[0], w[1], w[2], w[3]) + 0x100 * Nibble(w[4], w[5], w[6], w[7])
                        + 0x10 * Nibble(w[8], w[9], w[10], w[11]) + Nibble(w[12], w[13], w[14], w[15])
  {
    hide Value, Nibble;
    EmptyStart(w);
    TakeNibble(w, 0, 4);
    TakeNibble(w, 4, 8);
    TakeNibble(w, 8, 12);
    TakeNibble(w, 12, 16);
  }

  lemma EmptyStart(w: seq<bool>)
    ensures Value(w[..0]) == 0 && w[..|w|] == w
  {}

  lemma TakeNibble(w: seq<bool>, k: nat, end: nat)
    requires k + 4 == end <= |w|
    ensures Value(w[..end]) == 16 * Value(w[..k]) + Nibble(w[k], w[k + 1], w[k + 2], w[k + 3])
  {
    hide Value;
    ValueTake(w, k);
    ValueTake(w, k + 1);
    ValueTake(w, k + 2);
    ValueTake(w, k + 3);
  }

  // The wrong unique-word symbols of a frame in order of arrival: the first two of each row of
  // 162 carry the row's symbol of the word.
  function WrongSymbols(arrived: seq<bool>, inverted: bool): (wrong: set<nat>)
    requires |arrived| == FRAME_LENGTH
  {
    set a: nat | a < FRAME_LENGTH && a % 162 < 2 && arrived[a] != UniqueWord(a / 162, inverted)
  }

  datatype UWFrame = UWFrame(frame: seq<bool>, reversedPolarity: bool, ber: nat)

  // Wrong unique-word symbols in the first k rows of a frame that is stored newest first.
  function UWErrors(reg: seq<bool>, inverted: bool, k: nat): (errors: nat)
    requires |reg| >= FRAME_LENGTH && k <= ROWS
    ensures errors <= 2 * k
  {
    if k == 0 then 0
    else
      var p := FRAME_LENGTH - 1 - ROW_LENGTH * (k - 1);
      UWErrors(reg, inverted, k - 1)
      + (if UniqueWord(k - 1, inverted) != reg[p] then 1 else 0)
      + (if UniqueWord(k - 1, inverted) != reg[p - 1] then 1 else 0)
  }

  // A symbol is wrong in exactly one of the two polarities.
  lemma {:induction false} PolaritiesAddUp(reg: seq<bool>, k: nat)
    requires |reg| >= FRAME_LENGTH && k <= ROWS
    ensures UWErrors(reg, false, k) + UWErrors(reg, true, k) == 2 * k
  {
    hide UniqueWord;
    if k > 0 {
      PolaritiesAddUp(reg, k - 1);
      OppositeWords(k - 1);
    }
  }

  lemma OppositeWords(row: nat)
    requires row < ROWS
    ensures UniqueWord(row, true) == !UniqueWord(row, false)
  {}

  // The first n symbols of a frame alone.
  function WrongBefore(arrived: seq<bool>, inverted: bool, n: nat): (wrong: set<nat>)
    requires |arrived| == FRAME_LENGTH
  {
    set a | a in WrongSymbols(arrived, inverted) && a < n
  }

  // The loop counts the places at which a symbol is wrong.
  lemma {:induction false} ErrorsAreCounted(arrived: seq<bool>, inverted: bool, k: nat)
    requires |arrived| == FRAME_LENGTH && k <= ROWS
    ensures UWErrors(Reversed(arrived), inverted, k) == |WrongBefore(arrived, inverted, 162 * k)|
  {
    hide Reversed, UniqueWord;
    if k == 0 {
      assert WrongBefore(arrived, inverted, 0) == {};
    } else {
      ErrorsAreCounted(arrived, inverted, k - 1);
      RowIsCounted(arrived, inverted, k - 1);
    }
  }

  lemma RowIsCounted(arrived: seq<bool>, inverted: bool, row: nat)
    requires |arrived| == FRAME_LENGTH && row < ROWS
    ensures |WrongBefore(arrived, inverted, 162 * row + 162)| == |WrongBefore(arrived, inverted, 162 * row)|
      + (if arrived[162 * row] != UniqueWord(row, inverted) then 1 else 0)
      + (if arrived[162 * row + 1] != UniqueWord(row, inverted) then 1 else 0)
  {
    hide UniqueWord, WrongBefore;
    var a := 162 * row;
    var before, after := WrongBefore(arrived, inverted, a), WrongBefore(arrived, inverted, a + 162);
    var first, second := arrived[a] != UniqueWord(row, inverted), arrived[a + 1] != UniqueWord(row, inverted);
    forall b: nat
      ensures b in after <==> b in before + TwoOf(a, first, second)
    {
      WrongInRow(arrived, inverted, row, b);
    }
    forall b | b in before
      ensures b < a
    {
      WrongInRow(arrived, inverted, row, b);
    }
    AddTwo(before, after, a, first, second);
  }

  function TwoOf(a: nat, first: bool, second: bool): set<nat> {
    (if first then {a} else {}) + (if second then {a + 1} else {})
  }

  lemma WrongInRow(arrived: seq<bool>, inverted: bool, row: nat, b: nat)
    requires |arrived| == FRAME_LENGTH && row < ROWS
    ensures var a := 162 * row;
      && (b in WrongBefore(arrived, inverted, a) ==> b < a)
      && (b in WrongBefore(arrived, inverted, a + 162) <==>
            || b in WrongBefore(arrived, inverted, a)
            || (b == a && arrived[a] != UniqueWord(row, inverted))
            || (b == a + 1 && arrived[a + 1] != UniqueWord(row, inverted)))
  {
    hide UniqueWord;
    if 162 * row <= b < 162 * row + 162 {
      InRow(row, b);
    }
  }

  lemma AddTwo(before: set<nat>, after: set<nat>, a: nat, first: bool, second: bool)
    requires forall b :: b in before ==> b < a
    requires forall b: nat :: b in after <==> b in before + TwoOf(a, first, second)
    ensures |after| == |before| + (if first then 1 else 0) + (if second then 1 else 0)
  {
    assert after == before + TwoOf(a, first, second);
    assert before !! TwoOf(a, first, second);
  }

  lemma InRow(row: nat, b: nat)
    requires 162 * row <= b < 162 * row + 162
    ensures b / 162 == row && b % 162 == b - 162 * row
  {}

  // Over a whole frame.
  lemma AllErrorsAreCounted(arrived: seq<bool>, inverted: bool)
    requires |arrived| == FRAME_LENGTH
    ensures UWErrors(Reversed(arrived), inverted, ROWS) == |WrongSymbols(arrived, inverted)|
  {
    hide UWErrors;
    ErrorsAreCounted(arrived, inverted, ROWS);
    assert WrongBefore(arrived, inverted, FRAME_LENGTH) == WrongSymbols(arrived, inverted);
  }

  datatype SyncState = SyncState(reg: seq<bool>, symbolCount: nat)

  function Invert(x: seq<bool>): (y: seq<bool>)
    ensures |y| == |x| && forall i :: 0 <= i < |x| ==> y[i] == !x[i]
  {
    seq(|x|, i requires 0 <= i < |x| => !x[i])
  }

  // One symbol: the shift, the count, and the frame that is found, if one is.
  function PushState(s: SyncState, sym: bool): SyncState
    requires |s.reg| == 2 * FRAME_LENGTH
  {
    var reg := [sym] + s.reg[..|s.reg| - 1];
    if s.symbolCount + 1 >= FRAME_LENGTH && IsFrame(reg) then SyncState(reg, 0) else SyncState(reg, s.symbolCount + 1)
  }

  function PushFrames(s: SyncState, sym: bool): seq<UWFrame>
    requires |s.reg| == 2 * FRAME_LENGTH
  {
    var reg := [sym] + s.reg[..|s.reg| - 1];
    if s.symbolCount + 1 >= FRAME_LENGTH && IsFrame(reg) then [FoundFrame(reg)] else []
  }

  predicate IsFrame(reg: seq<bool>)
    requires |reg| >= FRAME_LENGTH
  {
    UWErrors(reg, false, ROWS) <= MAX_UW_ERRORS || UWErrors(reg, true, ROWS) <= MAX_UW_ERRORS
  }

  function FoundFrame(reg: seq<bool>): UWFrame
    requires |reg| >= FRAME_LENGTH
  {
    var n, r := UWErrors(reg, false, ROWS), UWErrors(reg, true, ROWS);
    UWFrame(if r <= MAX_UW_ERRORS then Invert(reg[..FRAME_LENGTH]) else reg[..FRAME_LENGTH],
            r <= MAX_UW_ERRORS, if n < r then n else r)
  }

  class UWFinder {
    var reg: seq<bool>
    var symbolCount: nat

    ghost predicate Valid()
      reads this
    {
      |reg| == 2 * FRAME_LENGTH
    }

    ghost function State(): SyncState
      reads this
    {
      SyncState(reg, symbolCount)
    }

    constructor ()
      ensures Valid() && State() == SyncState(seq(2 * FRAME_LENGTH, _ => false), FRAME_LENGTH - 1)
    {
      reg := seq(2 * FRAME_LENGTH, _ => false);
      symbolCount := FRAME_LENGTH - 1;
    }

    method Push(sym: bool, out: seq<UWFrame>) returns (out': seq<UWFrame>)
      requires Valid()
      modifies this
      ensures Valid() && State() == PushState(old(State()), sym)
      ensures out' == out + PushFrames(old(State()), sym)
    {
      hide UWErrors, Invert;
      reg := [sym] + reg[..|reg| - 1];
      symbolCount := symbolCount + 1;
      out' := out;
      if symbolCount < FRAME_LENGTH {
        return;
      }
      var detected, nUW, rUW, revPol := Detect();
      if detected {
        var frame := reg[..FRAME_LENGTH];
        if revPol {
          frame := Invert(frame);
        }
        out' := out' + [UWFrame(frame, revPol, if nUW < rUW then nUW else rUW)];
        symbolCount := 0;
      }
    }

    // detect(true, ...): the frame in the newer half of the register.
    method Detect() returns (detected: bool, nUW: nat, rUW: nat, revPol: bool)
      requires Valid()
      ensures nUW == |WrongSymbols(Newest(reg), false)| && rUW == |WrongSymbols(Newest(reg), true)|
      ensures nUW == UWErrors(reg, false, ROWS) && rUW == UWErrors(reg, true, ROWS)
      ensures revPol == (rUW <= MAX_UW_ERRORS) && detected == IsFrame(reg)
    {
      hide UniqueWord;
      NewestErrors(reg, false);
      NewestErrors(reg, true);
      nUW, rUW := 0, 0;
      var patternPos := 0;
      var symbolPos := FRAME_LENGTH - 1;
      while symbolPos >= 0
        invariant 0 <= patternPos <= ROWS && symbolPos == FRAME_LENGTH - 1 - ROW_LENGTH * patternPos
        invariant nUW == UWErrors(reg, false, patternPos) && rUW == UWErrors(reg, true, patternPos)
      {
        nUW := nUW + (if UniqueWord(patternPos, false) != reg[symbolPos] then 1 else 0);
        nUW := nUW + (if UniqueWord(patternPos, false) != reg[symbolPos - 1] then 1 else 0);
        rUW := rUW + (if UniqueWord(patternPos, true) != reg[symbolPos] then 1 else 0);
        rUW := rUW + (if UniqueWord(patternPos, true) != reg[symbolPos - 1] then 1 else 0);
        patternPos := patternPos + 1;
        symbolPos := symbolPos - ROW_LENGTH;
      }
      revPol := rUW <= MAX_UW_ERRORS;
      detected := nUW <= MAX_UW_ERRORS || rUW <= MAX_UW_ERRORS;
    }

    // The loop of main over the demodulated bits.
    method PushAll(bits: seq<bool>) returns (frames: seq<UWFrame>)
      requires Valid()
      modifies this
      ensures Valid() && State() == RunState(old(State()), bits) && frames == RunFrames(old(State()), bits)
    {
      hide PushState, PushFrames;
      frames := [];
      ghost var s := State();
      for i := 0 to |bits|
        invariant Valid() && State() == RunState(s, bits[..i]) && frames == RunFrames(s, bits[..i])
      {
        RunStep(s, bits, i);
        frames := Push(bits[i], frames);
      }
      assert bits[..|bits|] == bits;
    }
  }

  // ---- Many symbols ------------------------------------------------------------------------

  function RunState(s: SyncState, bits: seq<bool>): (s': SyncState)
    requires |s.reg| == 2 * FRAME_LENGTH
    ensures |s'.reg| == 2 * FRAME_LENGTH
  {
    if bits == [] then s else PushState(RunState(s, bits[..|bits| - 1]), bits[|bits| - 1])
  }

  function RunFrames(s: SyncState, bits: seq<bool>): seq<UWFrame>
    requires |s.reg| == 2 * FRAME_LENGTH
  {
    if bits == [] then []
    else RunFrames(s, bits[..|bits| - 1]) + PushFrames(RunState(s, bits[..|bits| - 1]), bits[|bits| - 1])
  }

  lemma RunStep(s: SyncState, bits: seq<bool>, i: nat)
    requires |s.reg| == 2 * FRAME_LENGTH && i < |bits|
    ensures RunState(s, bits[..i + 1]) == PushState(RunState(s, bits[..i]), bits[i])
    ensures RunFrames(s, bits[..i + 1]) == RunFrames(s, bits[..i]) + PushFrames(RunState(s, bits[..i]), bits[i])
  {
    assert bits[..i + 1][..i] == bits[..i];
  }

  lemma {:induction false} RunSplit(s: SyncState, x: seq<bool>, y: seq<bool>)
    requires |s.reg| == 2 * FRAME_LENGTH
    ensures RunState(s, x + y) == RunState(RunState(s, x), y)
    ensures RunFrames(s, x + y) == RunFrames(s, x) + RunFrames(RunState(s, x), y)
  {
    hide PushState, PushFrames;
    if y == [] {
      assert x + y == x;
    } else {
      var init := y[..|y| - 1];
      RunSplit(s, x, init);
      assert (x + y)[..|x + y| - 1] == x + init;
    }
  }

  function Reversed(x: seq<bool>): (y: seq<bool>)
    ensures |y| == |x| && forall i :: 0 <= i < |x| ==> y[i] == x[|x| - 1 - i]
  {
    seq(|x|, i requires 0 <= i < |x| => x[|x| - 1 - i])
  }

  // In sync nothing is reported before a whole frame has been shifted in.
  lemma {:induction false} NothingBeforeTheEnd(s: SyncState, bits: seq<bool>)
    requires |s.reg| == 2 * FRAME_LENGTH && s.symbolCount == 0 && |bits| < FRAME_LENGTH
    ensures RunFrames(s, bits) == [] && RunState(s, bits).symbolCount == |bits|
    ensures RunState(s, bits).reg[..|bits|] == Reversed(bits)
  {
    hide IsFrame, FoundFrame, Reversed;
    if bits == [] {
      assert Reversed(bits) == [];
    } else {
      var init, last := bits[..|bits| - 1], bits[|bits| - 1];
      NothingBeforeTheEnd(s, init);
      assert bits == init + [last];
      ShiftIn(RunState(s, init).reg, init, last);
    }
  }

  // One more symbol in front of those shifted in so far.
  lemma ShiftIn(reg: seq<bool>, bits: seq<bool>, last: bool)
    requires |bits| < |reg| && reg[..|bits|] == Reversed(bits)
    ensures ([last] + reg[..|reg| - 1])[..|bits| + 1] == Reversed(bits + [last])
  {
    var all := bits + [last];
    var after := [last] + reg[..|reg| - 1];
    forall i | 0 <= i < |all|
      ensures after[i] == Reversed(all)[i]
    {
      if i > 0 {
        assert after[i] == reg[i - 1] == reg[..|bits|][i - 1] == Reversed(bits)[i - 1];
      }
    }
  }

  // The frame in the newer half of a register, in order of arrival.
  function Newest(reg: seq<bool>): (arrived: seq<bool>)
    requires |reg| >= FRAME_LENGTH
    ensures |arrived| == FRAME_LENGTH
  {
    Reversed(reg[..FRAME_LENGTH])
  }

  lemma NewestErrors(reg: seq<bool>, inverted: bool)
    requires |reg| >= FRAME_LENGTH
    ensures UWErrors(reg, inverted, ROWS) == |WrongSymbols(Newest(reg), inverted)|
  {
    hide UWErrors, WrongSymbols;
    var arrived := Newest(reg);
    AllErrorsAreCounted(arrived, inverted);
    assert Reversed(arrived) == reg[..FRAME_LENGTH];
    UWErrorsLocal(reg, Reversed(arrived), inverted, ROWS);
  }

  // Up to 25 wrong symbols in the unique word, in one of the polarities.
  ghost predicate IsMarked(arrived: seq<bool>)
    requires |arrived| == FRAME_LENGTH
  {
    |WrongSymbols(arrived, false)| <= 25 || |WrongSymbols(arrived, true)| <= 25
  }

  // The register decides as the set of wrong symbols does, and the frame reported is the one that
  // arrived, upright and newest first, with the number of its wrong symbols.
  lemma FoundIsMarked(reg: seq<bool>)
    requires |reg| >= FRAME_LENGTH
    ensures IsFrame(reg) <==> IsMarked(Newest(reg))
    ensures forall inverted {:trigger WrongSymbols(Newest(reg), inverted)} ::
              |WrongSymbols(Newest(reg), inverted)| <= 25 ==>
                FoundFrame(reg) == UWFrame(if inverted then Invert(Reversed(Newest(reg))) else Reversed(Newest(reg)),
                                           inverted, |WrongSymbols(Newest(reg), inverted)|)
  {
    hide UWErrors, WrongSymbols;
    NewestErrors(reg, false);
    NewestErrors(reg, true);
    PolaritiesAddUp(reg, ROWS);
    assert Reversed(Newest(reg)) == reg[..FRAME_LENGTH];
  }

  // The register is the end of the stream that went into it, backwards.
  lemma {:induction false} RegisterIsStream(s: SyncState, bits: seq<bool>)
    requires |s.reg| == 2 * FRAME_LENGTH
    ensures RunState(s, bits).reg == Reversed((Reversed(s.reg) + bits)[|bits|..])
  {
    hide IsFrame;
    if bits == [] {
      assert Reversed(Reversed(s.reg)) == s.reg;
      assert (Reversed(s.reg) + bits)[0..] == Reversed(s.reg);
    } else {
      var n := |bits| - 1;
      RegisterIsStream(s, bits[..n]);
      ShiftStream(Reversed(s.reg), bits[..n], bits[n]);
      assert bits[..n] + [bits[n]] == bits;
    }
  }

  lemma ShiftStream(before: seq<bool>, bits: seq<bool>, last: bool)
    requires before != []
    ensures var reg := Reversed((before + bits)[|bits|..]);
      [last] + reg[..|reg| - 1] == Reversed((before + (bits + [last]))[|bits| + 1..])
  {
    var x, y := (before + bits)[|bits|..], (before + (bits + [last]))[|bits| + 1..];
    assert y == x[1..] + [last];
  }

  // The last frame length of symbols once i of the bits are in.
  function WindowAt(s: SyncState, bits: seq<bool>, i: nat): (arrived: seq<bool>)
    requires |s.reg| == 2 * FRAME_LENGTH && i <= |bits|
    ensures |arrived| == FRAME_LENGTH
  {
    (Reversed(s.reg) + bits)[FRAME_LENGTH + i..2 * FRAME_LENGTH + i]
  }

  lemma WindowIsNewest(s: SyncState, bits: seq<bool>, i: nat)
    requires |s.reg| == 2 * FRAME_LENGTH && i <= |bits|
    ensures Newest(RunState(s, bits[..i]).reg) == WindowAt(s, bits, i)
  {
    hide RunState;
    RegisterIsStream(s, bits[..i]);
    var stream := Reversed(s.reg) + bits;
    assert (Reversed(s.reg) + bits[..i])[i..] == stream[i..2 * FRAME_LENGTH + i];
  }

  // Out of sync every symbol is looked at, and nothing is reported before a marked frame is in.
  lemma {:induction false} SearchGoesOn(s: SyncState, bits: seq<bool>, n: nat)
    requires |s.reg| == 2 * FRAME_LENGTH && s.symbolCount >= FRAME_LENGTH - 1 && n <= |bits|
    requires forall i :: 0 < i <= n ==> !IsMarked(WindowAt(s, bits, i))
    ensures RunFrames(s, bits[..n]) == [] && RunState(s, bits[..n]).symbolCount == s.symbolCount + n
  {
    hide IsFrame, FoundFrame, IsMarked, WindowAt;
    if n == 0 {
      assert bits[..0] == [];
    } else {
      SearchGoesOn(s, bits, n - 1);
      RunStep(s, bits, n - 1);
      WindowIsNewest(s, bits, n);
      FoundIsMarked(RunState(s, bits[..n]).reg);
      PushShifts(RunState(s, bits[..n - 1]), bits[n - 1]);
    }
  }

  lemma PushShifts(s: SyncState, sym: bool)
    requires |s.reg| == 2 * FRAME_LENGTH && s.symbolCount + 1 >= FRAME_LENGTH
    ensures var after := PushState(s, sym);
      if IsFrame(after.reg) then PushFrames(s, sym) == [FoundFrame(after.reg)] && after.symbolCount == 0
      else PushFrames(s, sym) == [] && after.symbolCount == s.symbolCount + 1
  {
    hide IsFrame, FoundFrame;
  }

  // From whatever stands in the register, the first marked frame of the stream is reported at its
  // last symbol, upright, and the finder is in sync.
  lemma FirstFrameIsFound(s: SyncState, bits: seq<bool>, inverted: bool)
    requires |s.reg| == 2 * FRAME_LENGTH && s.symbolCount >= FRAME_LENGTH - 1 && bits != []
    requires forall i :: 0 < i < |bits| ==> !IsMarked(WindowAt(s, bits, i))
    requires |WrongSymbols(WindowAt(s, bits, |bits|), inverted)| <= 25
    ensures RunState(s, bits).symbolCount == 0
    ensures var upright := Reversed(WindowAt(s, bits, |bits|));
      RunFrames(s, bits) == [UWFrame(if inverted then Invert(upright) else upright, inverted,
                                     |WrongSymbols(WindowAt(s, bits, |bits|), inverted)|)]
  {
    hide IsFrame, FoundFrame, WindowAt, WrongSymbols;
    var n := |bits| - 1;
    assert bits[..n + 1] == bits;
    SearchGoesOn(s, bits, n);
    RunStep(s, bits, n);
    WindowIsNewest(s, bits, n + 1);
    FoundIsMarked(RunState(s, bits).reg);
    PushShifts(RunState(s, bits[..n]), bits[n]);
  }

  // In sync, a frame with up to 25 wrong unique-word symbols in one polarity is found as its last
  // symbol arrives, is turned upright, and leaves the finder in sync.
  lemma FrameIsFound(s: SyncState, bits: seq<bool>, inverted: bool)
    requires |s.reg| == 2 * FRAME_LENGTH && s.symbolCount == 0 && |bits| == FRAME_LENGTH
    requires |WrongSymbols(bits, inverted)| <= 25
    ensures RunState(s, bits).symbolCount == 0
    ensures RunFrames(s, bits) == [UWFrame(if inverted then Invert(Reversed(bits)) else Reversed(bits), inverted,
                                           |WrongSymbols(bits, inverted)|)]
  {
    hide IsFrame, FoundFrame, WrongSymbols, WindowAt;
    var n := FRAME_LENGTH - 1;
    assert bits[..n + 1] == bits;
    NothingBeforeTheEnd(s, bits[..n]);
    RunStep(s, bits, n);
    WindowIsNewest(s, bits, FRAME_LENGTH);
    WholeWindow(s, bits);
    FoundIsMarked(RunState(s, bits).reg);
    PushShifts(RunState(s, bits[..n]), bits[n]);
  }

  lemma WholeWindow(s: SyncState, bits: seq<bool>)
    requires |s.reg| == 2 * FRAME_LENGTH && |bits| == FRAME_LENGTH
    ensures WindowAt(s, bits, FRAME_LENGTH) == bits
  {}

  lemma {:induction false} UWErrorsLocal(x: seq<bool>, y: seq<bool>, inverted: bool, k: nat)
    requires |x| >= FRAME_LENGTH && |y| >= FRAME_LENGTH && x[..FRAME_LENGTH] == y[..FRAME_LENGTH] && k <= ROWS
    ensures UWErrors(x, inverted, k) == UWErrors(y, inverted, k)
  {
    hide UniqueWord;
    if k > 0 {
      UWErrorsLocal(x, y, inverted, k - 1);
      var p := FRAME_LENGTH - 1 - ROW_LENGTH * (k - 1);
      assert x[p] == x[..FRAME_LENGTH][p] && y[p] == y[..FRAME_LENGTH][p];
      assert x[p - 1] == x[..FRAME_LENGTH][p - 1] && y[p - 1] == y[..FRAME_LENGTH][p - 1];
    }
  }
}

module Interleaving {
  import opened PowersOfTwo
  import opened FrameSync

  const COLUMNS := 160
  const DATA_SYMBOLS := 10240

  // Where row i of the frame is sent.
  function SentRow(i: nat): (row: nat)
    requires i < ROWS
    ensures row < ROWS
  {
    i * 23 % 64
  }

  // The place, in order of arrival, of symbol q of the code word.
  function Place(q: nat): (place: nat)
    requires q < DATA_SYMBOLS
    ensures place < FRAME_LENGTH
  {
    ROW_LENGTH * SentRow(q % ROWS) + 2 + q / ROWS
  }

  // The code word carried by a frame given in order of arrival.
  function DataSymbols(arrived: seq<bool>): (data: seq<bool>)
    requires |arrived| == FRAME_LENGTH
    ensures |data| == DATA_SYMBOLS
  {
    seq(DATA_SYMBOLS, q requires 0 <= q < DATA_SYMBOLS => arrived[Place(q)])
  }

  // 39 undoes 23 modulo 64.
  lemma SentRowInverse(row: nat)
    requires row < ROWS
    ensures SentRow(row * 39 % 64) == row && SentRow(row) * 39 % 64 == row
  {
    DivModUnique(row * 39 % 64 * 23, 64, 14 * row - 23 * (row * 39 / 64), row);
    DivModUnique(row * 23 % 64 * 39, 64, 14 * row - 39 * (row * 23 / 64), row);
  }

  // The symbol of the code word that arrives at a place outside the two leading columns.
  function Source(place: nat): (q: nat)
    requires place < FRAME_LENGTH && place % ROW_LENGTH >= 2
    ensures q < DATA_SYMBOLS
  {
    ROWS * (place % ROW_LENGTH - 2) + place / ROW_LENGTH * 39 % 64
  }

  // De-interleaving reads every symbol outside the unique word exactly once, and no symbol of
  // the unique word.
  lemma PlacesAreABijection(q: nat, place: nat)
    requires q < DATA_SYMBOLS && place < FRAME_LENGTH
    ensures Place(q) % ROW_LENGTH >= 2 && Source(Place(q)) == q
    ensures place % ROW_LENGTH >= 2 ==> Place(Source(place)) == place
  {
    var r, c := q % ROWS, q / ROWS;
    SentRowInverse(r);
    PlaceParts(SentRow(r), c);
    if place % ROW_LENGTH >= 2 {
      var row, column := place / ROW_LENGTH, place % ROW_LENGTH - 2;
      SentRowInverse(row);
      SourceParts(row * 39 % 64, column);
    }
  }

  lemma PlaceParts(row: nat, column: nat)
    requires column < COLUMNS
    ensures (ROW_LENGTH * row + 2 + column) / ROW_LENGTH == row
    ensures (ROW_LENGTH * row + 2 + column) % ROW_LENGTH == 2 + column
  {}

  lemma SourceParts(r: nat, c: nat)
    requires r < ROWS
    ensures (ROWS * c + r) / ROWS == c && (ROWS * c + r) % ROWS == r
  {}

  // The two symbols of each row that detection compares are the ones left out.
  lemma UniqueWordPlaces(k: nat)
    requires k < ROWS
    ensures var p := FRAME_LENGTH - 1 - ROW_LENGTH * k;
            var arrival, next := FRAME_LENGTH - 1 - p, FRAME_LENGTH - 1 - (p - 1);
            arrival % ROW_LENGTH == 0 && next % ROW_LENGTH == 1 && arrival / ROW_LENGTH == next / ROW_LENGTH == k
  {}

  // std::reverse, then 64 copies of 162 symbols.
  method Depermute(frame: seq<bool>) returns (dst: array<bool>)
    requires |frame| == FRAME_LENGTH
    ensures fresh(dst) && dst.Length == FRAME_LENGTH
    ensures forall p :: 0 <= p < FRAME_LENGTH ==>
              dst[p] == Reversed(frame)[SentRow(p / ROW_LENGTH) * ROW_LENGTH + p % ROW_LENGTH]
    ensures forall p :: 0 <= p < 10368 ==> dst[p] == frame[10367 - (p / 162 * 23 % 64 * 162 + p % 162)]
  {
    var reversed := Reversed(frame);
    dst := new bool[FRAME_LENGTH];
    for i := 0 to ROWS
      invariant forall p :: 0 <= p < i * ROW_LENGTH ==>
                  dst[p] == reversed[SentRow(p / ROW_LENGTH) * ROW_LENGTH + p % ROW_LENGTH]
    {
      var perm := SentRow(i) * ROW_LENGTH;
      for c := 0 to ROW_LENGTH
        invariant forall p :: 0 <= p < i * ROW_LENGTH + c ==>
                    dst[p] == reversed[SentRow(p / ROW_LENGTH) * ROW_LENGTH + p % ROW_LENGTH]
      {
        dst[i * ROW_LENGTH + c] := reversed[perm + c];
      }
    }
  }

  // One index walks over the rows and jumps over their first two symbols; then the matrix is
  // read by columns.
  method Deinterleave(perm: array<bool>) returns (dst: seq<bool>)
    requires perm.Length == FRAME_LENGTH
    ensures |dst| == DATA_SYMBOLS
    ensures forall q :: 0 <= q < DATA_SYMBOLS ==> dst[q] == perm[q % ROWS * ROW_LENGTH + 2 + q / ROWS]
  {
    var mat := FillMatrix(perm);
    var out := new bool[DATA_SYMBOLS];
    var pos, row, column := 0, 0, 0;
    while row < ROWS
      invariant 0 <= row < ROWS && 0 <= column < COLUMNS && pos == ROWS * column + row
      invariant forall r, c :: 0 <= r < ROWS && 0 <= c < COLUMNS ==> mat[r, c] == perm[r * ROW_LENGTH + 2 + c]
      invariant forall q :: 0 <= q < pos ==> out[q] == perm[q % ROWS * ROW_LENGTH + 2 + q / ROWS]
      decreases DATA_SYMBOLS - pos
    {
      out[pos] := mat[row, column];
      row := row + 1;
      if row % 64 == 0 {
        row := 0;
        column := column + 1;
        if column == 160 {
          break;
        }
      }
      pos := pos + 1;
    }
    assert pos == DATA_SYMBOLS - 1;
    dst := out[..];
  }

  method FillMatrix(perm: array<bool>) returns (mat: array2<bool>)
    requires perm.Length == FRAME_LENGTH
    ensures fresh(mat) && mat.Length0 == ROWS && mat.Length1 == COLUMNS
    ensures forall r, c :: 0 <= r < ROWS && 0 <= c < COLUMNS ==> mat[r, c] == perm[r * ROW_LENGTH + 2 + c]
  {
    mat := new bool[ROWS, COLUMNS];
    var row, column := -1, 0;
    var i := 0;
    while i < FRAME_LENGTH
      invariant -1 <= row < ROWS
      invariant (i == ROW_LENGTH * (row + 1) && (row == -1 || column == COLUMNS))
             || (row >= 0 && 1 <= column < COLUMNS && i == ROW_LENGTH * row + 2 + column)
      invariant forall r, c :: 0 <= r < row && 0 <= c < COLUMNS ==> mat[r, c] == perm[r * ROW_LENGTH + 2 + c]
      invariant row >= 0 ==> forall c :: 0 <= c < column ==> mat[row, c] == perm[row * ROW_LENGTH + 2 + c]
    {
      if i % 162 == 0 {
        column := 0;
        row := row + 1;
        i := i + 2;
      }
      if row < 64 && column < 160 {
        mat[row, column] := perm[i];
      }
      column := column + 1;
      i := i + 1;
    }
  }

  // Both steps together pick the code word out of the frame.
  method ReadFrame(frame: seq<bool>) returns (deint: seq<bool>)
    requires |frame| == FRAME_LENGTH
    ensures deint == DataSymbols(Reversed(frame))
    ensures forall q :: 0 <= q < 10240 ==> deint[q] == frame[10367 - (q % 64 * 23 % 64 * 162 + 2 + q / 64)]
  {
    var perm := Depermute(frame);
    deint := Deinterleave(perm);
    forall q | 0 <= q < DATA_SYMBOLS
      ensures deint[q] == Reversed(frame)[Place(q)]
    {
      RowParts(q % ROWS, 2 + q / ROWS);
    }
    DataInFrame(frame);
  }

  lemma DataInFrame(frame: seq<bool>)
    requires |frame| == FRAME_LENGTH
    ensures forall q :: 0 <= q < 10240 ==>
              DataSymbols(Reversed(frame))[q] == frame[10367 - (q % 64 * 23 % 64 * 162 + 2 + q / 64)]
  {
    forall q | 0 <= q < 10240
      ensures DataSymbols(Reversed(frame))[q] == frame[10367 - (q % 64 * 23 % 64 * 162 + 2 + q / 64)]
    {
      assert DataSymbols(Reversed(frame))[q] == Reversed(frame)[Place(q)];
    }
  }

  lemma RowParts(row: nat, k: nat)
    requires k < ROW_LENGTH
    ensures (row * ROW_LENGTH + k) / ROW_LENGTH == row && (row * ROW_LENGTH + k) % ROW_LENGTH == k
  {}
}

module Scrambling {
  import opened PowersOfTwo
  import opened BitReversal
  import opened Viterbi

  // The shift register with taps X3, X4, X5 and X7, before group i of four bytes.
  function Lfsr(i: nat): (reg: Byte)
  {
    if i == 0 then 0x80 else NextLfsr(Lfsr(i - 1))
  }

  function NextLfsr(reg: Byte): Byte {
    var x7, x5, x4, x3 := reg % 2, reg / 4 % 2, reg / 8 % 2, reg / 16 % 2;
    reg / 2 + (x7 + x5 + x4 + x3) % 2 * 128
  }

  predicate IsComplemented(i: nat) {
    Lfsr(i / 4) % 2 == 1
  }

  // The digit of weight w in the binary form of x.
  function BitOf(x: int, w: int): int
    requires w > 0
  {
    x / w % 2
  }

  // Each step moves every bit of the register down by one and puts the sum of four of them on top.
  lemma RegisterShifts(i: nat)
    ensures ShiftsTo(Lfsr(i), Lfsr(i + 1))
  {
    ByteShifts(Lfsr(i));
  }

  predicate ShiftsTo(now: int, next: int) {
    && BitOf(next, 1) == BitOf(now, 2) && BitOf(next, 2) == BitOf(now, 4) && BitOf(next, 4) == BitOf(now, 8)
    && BitOf(next, 8) == BitOf(now, 16) && BitOf(next, 16) == BitOf(now, 32) && BitOf(next, 32) == BitOf(now, 64)
    && BitOf(next, 64) == BitOf(now, 128)
    && BitOf(next, 128) == (BitOf(now, 1) + BitOf(now, 4) + BitOf(now, 8) + BitOf(now, 16)) % 2
  }

  lemma ByteShifts(now: int)
    requires 0 <= now < 256
    ensures ShiftsTo(now, NextLfsr(now))
  {
    var top := (BitOf(now, 1) + BitOf(now, 4) + BitOf(now, 8) + BitOf(now, 16)) % 2;
    assert NextLfsr(now) == now / 2 + top * 128;
    hide NextLfsr, BitOf;
    HalfBits(now);
    TopBit(now / 2, top);
  }

  lemma HalfBits(now: int)
    ensures BitOf(now / 2, 1) == BitOf(now, 2) && BitOf(now / 2, 2) == BitOf(now, 4) && BitOf(now / 2, 4) == BitOf(now, 8)
    ensures BitOf(now / 2, 8) == BitOf(now, 16) && BitOf(now / 2, 16) == BitOf(now, 32) && BitOf(now / 2, 32) == BitOf(now, 64)
    ensures BitOf(now / 2, 64) == BitOf(now, 128)
  {}

  lemma TopBit(h: int, top: int)
    requires 0 <= h < 128 && 0 <= top <= 1
    ensures var x := h + top * 128;
      && BitOf(x, 1) == BitOf(h, 1) && BitOf(x, 2) == BitOf(h, 2) && BitOf(x, 4) == BitOf(h, 4) && BitOf(x, 8) == BitOf(h, 8)
      && BitOf(x, 16) == BitOf(h, 16) && BitOf(x, 32) == BitOf(h, 32) && BitOf(x, 64) == BitOf(h, 64) && BitOf(x, 128) == top
  {
    var x := h + top * 128;
    SameDigit(x, top * 64, 1, h);
    SameDigit(x, top * 32, 2, h);
    SameDigit(x, top * 16, 4, h);
    SameDigit(x, top * 8, 8, h);
    SameDigit(x, top * 4, 16, h);
    SameDigit(x, top * 2, 32, h);
    SameDigit(x, top, 64, h);
    DivModUnique(x, 128, top, h);
  }

  // Whether group i of four bytes is complemented.
  predicate Flag(i: nat) {
    IsComplemented(4 * i)
  }

  // The flags as a sequence: seven groups are left alone, the eighth is not, and from then on
  // each flag is the sum of those eight, six, five and four groups before it.
  lemma FlagsFollow(i: nat)
    ensures !Flag(0) && !Flag(1) && !Flag(2) && !Flag(3) && !Flag(4) && !Flag(5) && !Flag(6) && Flag(7)
    ensures Flag(i + 8) == (Flag(i) != (Flag(i + 2) != (Flag(i + 3) != Flag(i + 4))))
  {
    FirstFlags();
    BitAhead(i);
    hide Flag, LfsrBit;
    FlagIs(i);
    FlagIs(i + 2);
    FlagIs(i + 3);
    FlagIs(i + 4);
    FlagIs(i + 8);
  }

  lemma FirstFlags()
    ensures !Flag(0) && !Flag(1) && !Flag(2) && !Flag(3) && !Flag(4) && !Flag(5) && !Flag(6) && Flag(7)
  {
    FirstBits();
    hide Flag, LfsrBit;
    BitAhead(0);
    FlagIs(0);
    FlagIs(1);
    FlagIs(2);
    FlagIs(3);
    FlagIs(4);
    FlagIs(5);
    FlagIs(6);
    FlagIs(7);
  }

  lemma FirstBits()
    ensures LfsrBit(0, 1) == LfsrBit(0, 2) == LfsrBit(0, 4) == LfsrBit(0, 8) == 0
    ensures LfsrBit(0, 16) == LfsrBit(0, 32) == LfsrBit(0, 64) == 0 && LfsrBit(0, 128) == 1
  {
    assert Lfsr(0) == 0x80;
  }

  lemma FlagIs(i: nat)
    ensures Flag(i) <==> LfsrBit(i, 1) == 1
    ensures 0 <= LfsrBit(i, 1) <= 1
  {
    assert 4 * i / 4 == i;
  }

  // The digit of weight w of the register before group i.
  function LfsrBit(i: nat, w: int): int
    requires w > 0
  {
    BitOf(Lfsr(i), w)
  }

  lemma LfsrShifts(i: nat)
    ensures LfsrBit(i + 1, 1) == LfsrBit(i, 2) && LfsrBit(i + 1, 2) == LfsrBit(i, 4) && LfsrBit(i + 1, 4) == LfsrBit(i, 8)
    ensures LfsrBit(i + 1, 8) == LfsrBit(i, 16) && LfsrBit(i + 1, 16) == LfsrBit(i, 32) && LfsrBit(i + 1, 32) == LfsrBit(i, 64)
    ensures LfsrBit(i + 1, 64) == LfsrBit(i, 128)
    ensures LfsrBit(i + 1, 128) == (LfsrBit(i, 1) + LfsrBit(i, 4) + LfsrBit(i, 8) + LfsrBit(i, 16)) % 2
  {
    hide BitOf, Lfsr;
    RegisterShifts(i);
  }

  // The bits of the register are the flags to come.
  lemma BitAhead(i: nat)
    ensures LfsrBit(i, 2) == LfsrBit(i + 1, 1)
    ensures LfsrBit(i, 4) == LfsrBit(i + 2, 1)
    ensures LfsrBit(i, 8) == LfsrBit(i + 3, 1)
    ensures LfsrBit(i, 16) == LfsrBit(i + 4, 1)
    ensures LfsrBit(i, 32) == LfsrBit(i + 5, 1)
    ensures LfsrBit(i, 64) == LfsrBit(i + 6, 1)
    ensures LfsrBit(i, 128) == LfsrBit(i + 7, 1)
    ensures LfsrBit(i + 8, 1) == (LfsrBit(i, 1) + LfsrBit(i, 4) + LfsrBit(i, 8) + LfsrBit(i, 16)) % 2
  {
    hide LfsrBit;
    LfsrShifts(i);
    LfsrShifts(i + 1);
    LfsrShifts(i + 2);
    LfsrShifts(i + 3);
    LfsrShifts(i + 4);
    LfsrShifts(i + 5);
    LfsrShifts(i + 6);
    LfsrShifts(i + 7);
  }

  // Bit for bit in the opposite order.
  predicate AreMirrored(a: int, b: int) {
    && BitOf(a, 1) == BitOf(b, 128) && BitOf(a, 2) == BitOf(b, 64) && BitOf(a, 4) == BitOf(b, 32)
    && BitOf(a, 8) == BitOf(b, 16) && BitOf(a, 16) == BitOf(b, 8) && BitOf(a, 32) == BitOf(b, 4)
    && BitOf(a, 64) == BitOf(b, 2) && BitOf(a, 128) == BitOf(b, 1)
  }

  lemma MirroredBits(b: int)
    requires 0 <= b < 256
    ensures AreMirrored(b, Mirrored(b))
  {
    hide Reverse;
    BytePowers();
    ReverseBit(8, b, 0);
    ReverseBit(8, b, 1);
    ReverseBit(8, b, 2);
    ReverseBit(8, b, 3);
    ReverseBit(8, b, 4);
    ReverseBit(8, b, 5);
    ReverseBit(8, b, 6);
    ReverseBit(8, b, 7);
  }

  lemma BytePowers()
    ensures Pow2(0) == 1 && Pow2(1) == 2 && Pow2(2) == 4 && Pow2(3) == 8 && Pow2(4) == 16
    ensures Pow2(5) == 32 && Pow2(6) == 64 && Pow2(7) == 128
  {}

  // The bits of a byte in the opposite order.
  function Mirrored(b: Byte): Byte {
    MirrorRange(b);
    Reverse(8, b)
  }

  lemma MirrorRange(b: Byte)
    ensures Reverse(8, b) < 256
  {
    ReverseRange(8, b);
    assert Pow2(8) == 256;
  }

  function Descrambled(vit: seq<Byte>): (frame: seq<Byte>)
    ensures |frame| == |vit|
  {
    seq(|vit|, i requires 0 <= i < |vit| => if IsComplemented(i) then 255 - Mirrored(vit[i]) else Mirrored(vit[i]))
  }

  function Scrambled(frame: seq<Byte>): (vit: seq<Byte>)
    ensures |vit| == |frame|
  {
    seq(|frame|, i requires 0 <= i < |frame| => Mirrored(if IsComplemented(i) then 255 - frame[i] else frame[i]))
  }

  lemma DescrambleUndoesScramble(frame: seq<Byte>)
    ensures Descrambled(Scrambled(frame)) == frame
  {
    hide Lfsr;
    forall i | 0 <= i < |frame|
      ensures Descrambled(Scrambled(frame))[i] == frame[i]
    {
      MirrorTwice(if IsComplemented(i) then 255 - frame[i] else frame[i]);
    }
  }

  lemma MirrorTwice(b: Byte)
    ensures Mirrored(Mirrored(b)) == b
  {
    assert Pow2(8) == 256;
    ReverseInvolution(8, b);
  }

  // r |= ((in >> b) & 1) << (7 - b), for each b.
  method InvertBits(in_: Byte) returns (r: Byte)
    ensures r == Mirrored(in_)
  {
    MirrorRange(in_);
    assert Pow2(7) == 128;
    var sum := 0;
    var rest: nat := in_;
    var weight := 128;
    for b := 0 to 8
      invariant weight == (if b == 8 then 0 else Pow2(7 - b))
      invariant rest >= 0 && sum + Reverse(8 - b, rest) == Reverse(8, in_)
    {
      sum := sum + rest % 2 * weight;
      rest := rest / 2;
      weight := weight / 2;
    }
    r := sum;
  }

  method Descramble(vit: seq<Byte>) returns (dst: seq<Byte>)
    requires |vit| == 640
    ensures dst == Descrambled(vit)
    ensures forall k :: 0 <= k < 640 ==> AreMirrored(vit[k], if Flag(k / 4) then 255 - dst[k] else dst[k])
  {
    hide Mirrored, AreMirrored, Flag, Lfsr;
    dst := seq(640, _ => 0);
    for i := 0 to 640
      invariant |dst| == 640
      invariant forall k :: 0 <= k < i ==> dst[k] == Mirrored(vit[k])
    {
      var b := InvertBits(vit[i]);
      dst := dst[i := b];
    }
    ghost var mirrored := dst;
    var descram := ShiftRegisterBits();
    var jj := 0;
    for i := 0 to 160
      invariant |dst| == 640 && jj == 4 * i
      invariant forall k :: 0 <= k < 640 ==>
                  dst[k] == if k < jj && IsComplemented(k) then 255 - mirrored[k] else mirrored[k]
    {
      if descram[i] == 1 {
        for k := 0 to 4
          invariant |dst| == 640
          invariant forall j :: 0 <= j < 640 ==>
                      dst[j] == if j < jj + k && IsComplemented(j) then 255 - mirrored[j] else mirrored[j]
        {
          assert (jj + k) / 4 == i;
          dst := dst[jj + k := 255 - dst[jj + k]];
        }
      }
      jj := jj + 4;
    }
    DescrambledBits(vit);
  }

  lemma DescrambledBits(vit: seq<Byte>)
    ensures var dst := Descrambled(vit);
      forall k :: 0 <= k < |vit| ==> AreMirrored(vit[k], if Flag(k / 4) then 255 - dst[k] else dst[k])
  {
    hide AreMirrored, Lfsr, Mirrored;
    forall k | 0 <= k < |vit|
      ensures var d := Descrambled(vit)[k]; AreMirrored(vit[k], if Flag(k / 4) then 255 - d else d)
    {
      MirroredBits(vit[k]);
      assert 4 * (k / 4) / 4 == k / 4;
    }
  }

  method ShiftRegisterBits() returns (descram: seq<int>)
    ensures |descram| == 160 && forall i :: 0 <= i < 160 ==> descram[i] == Lfsr(i) % 2
  {
    hide NextLfsr;
    descram := [];
    var reg: Byte := 0x80;
    for i := 0 to 160
      invariant |descram| == i && reg == Lfsr(i)
      invariant forall k :: 0 <= k < i ==> descram[k] == Lfsr(k) % 2
    {
      descram := descram + [reg % 2];
      reg := NextLfsr(reg);
    }
  }
}

module ReceiveChain {
  import opened Bits
  import opened ConvolutionalCode
  import opened Scores
  import opened Viterbi
  import opened ErrorCorrection
  import opened FrameSync
  import opened Interleaving
  import opened Scrambling

  // The encoder's input for a frame: the scrambled bytes, most significant bit first. Only
  // frames whose scrambled form ends in six zeros leave the encoder in state 0.
  function MessageOf(frame: seq<Byte>): (message: seq<bool>)
    ensures |message| == 8 * |frame|
  {
    MessageBits(Scrambled(frame))
  }

  ghost predicate EndsInZeros(frame: seq<Byte>) {
    |frame| == 640 && MessageOf(frame)[STEPS - 6..] == Zeros(6)
  }

  // The code word read from 10368 symbols has at most four wrong symbols.
  ghost predicate Carries(margin: int, frame: seq<Byte>, arrived: seq<bool>) {
    |arrived| == FRAME_LENGTH && EndsInZeros(frame) && IsTolerable(margin, Errors(Encode(MessageOf(frame)), DataSymbols(arrived)))
  }

  // A frame as it arrives: upright or inverted, up to 25 wrong symbols in the unique word and
  // up to four elsewhere.
  ghost predicate IsReception(margin: int, frame: seq<Byte>, arrived: seq<bool>, inverted: bool) {
    && |arrived| == FRAME_LENGTH
    && |WrongSymbols(arrived, inverted)| <= 25
    && Carries(margin, frame, if inverted then Invert(arrived) else arrived)
  }

  ghost predicate Arrives(margin: int, frame: seq<Byte>, arrived: seq<bool>) {
    IsReception(margin, frame, arrived, false) || IsReception(margin, frame, arrived, true)
  }

  // A gap-free run of frames.
  ghost predicate IsRun(margin: int, frames: seq<seq<Byte>>, bits: seq<bool>) {
    && |bits| == FRAME_LENGTH * |frames|
    && (frames != [] ==>
          && Arrives(margin, frames[|frames| - 1], bits[|bits| - FRAME_LENGTH..])
          && IsRun(margin, frames[..|frames| - 1], bits[..|bits| - FRAME_LENGTH]))
  }

  // What a transmitter sends, in order.
  function Transmit(frame: seq<Byte>, inverted: bool): (sent: seq<bool>)
    requires |frame| == 640
    ensures |sent| == FRAME_LENGTH
  {
    var code := Encode(MessageOf(frame));
    seq(FRAME_LENGTH, p requires 0 <= p < FRAME_LENGTH =>
      if p % ROW_LENGTH < 2 then UniqueWord(p / ROW_LENGTH, inverted) else code[Source(p)] != inverted)
  }

  lemma TransmitIsReception(margin: int, frame: seq<Byte>, inverted: bool)
    requires EndsInZeros(frame)
    ensures IsReception(margin, frame, Transmit(frame, inverted), inverted)
    ensures WrongSymbols(Transmit(frame, inverted), inverted) == {}
  {
    hide Encode, MessageOf, Source, Place, UniqueWord;
    var sent, code := Transmit(frame, inverted), Encode(MessageOf(frame));
    var upright := if inverted then Invert(sent) else sent;
    forall q | 0 <= q < DATA_SYMBOLS
      ensures DataSymbols(upright)[q] == code[q]
    {
      PlacesAreABijection(q, 0);
    }
    assert DataSymbols(upright) == code;
    NoDifference(code);
  }

  lemma {:induction false} NoDifference(x: seq<bool>)
    ensures Errors(x, x) == 0
  {
    if x != [] {
      NoDifference(x[..|x| - 1]);
    }
  }

  // ---- The whole chain ---------------------------------------------------------------------

  lemma InvertReversed(x: seq<bool>)
    ensures Invert(Reversed(x)) == Reversed(Invert(x)) && Reversed(Reversed(x)) == x
  {}

  lemma OneFrame(margin: int, s: SyncState, frame: seq<Byte>, arrived: seq<bool>)
    requires |s.reg| == 2 * FRAME_LENGTH && s.symbolCount == 0 && Arrives(margin, frame, arrived)
    ensures RunState(s, arrived).symbolCount == 0 && |RunFrames(s, arrived)| == 1
    ensures |RunFrames(s, arrived)[0].frame| == FRAME_LENGTH && Carries(margin, frame, Reversed(RunFrames(s, arrived)[0].frame))
  {
    hide WrongSymbols, Carries, Reversed, Invert;
    var inverted := IsReception(margin, frame, arrived, true);
    FrameIsFound(s, arrived, inverted);
    InvertReversed(arrived);
    InvertReversed(Invert(arrived));
  }

  ghost predicate AllCarry(margin: int, frames: seq<seq<Byte>>, found: seq<UWFrame>) {
    |found| == |frames| && forall k :: 0 <= k < |frames| ==>
      |found[k].frame| == FRAME_LENGTH && Carries(margin, frames[k], Reversed(found[k].frame))
  }

  lemma {:induction false} RunIsFound(margin: int, s: SyncState, frames: seq<seq<Byte>>, bits: seq<bool>)
    requires |s.reg| == 2 * FRAME_LENGTH && s.symbolCount == 0 && IsRun(margin, frames, bits)
    ensures RunState(s, bits).symbolCount == 0 && AllCarry(margin, frames, RunFrames(s, bits))
    decreases |frames|
  {
    hide Carries, Arrives, Reversed, RunState, RunFrames, AllCarry;
    if frames == [] {
      assert bits == [];
      RunNothing(margin, s);
    } else {
      var init, last := bits[..|bits| - FRAME_LENGTH], bits[|bits| - FRAME_LENGTH..];
      RunIsFound(margin, s, frames[..|frames| - 1], init);
      OneFrame(margin, RunState(s, init), frames[|frames| - 1], last);
      assert bits == init + last;
      RunSplit(s, init, last);
      AllCarryAppend(margin, frames, RunFrames(s, init), RunFrames(RunState(s, init), last));
    }
  }

  // The first frame of a run, and the run behind it.
  lemma {:induction false} RunBegins(margin: int, frames: seq<seq<Byte>>, bits: seq<bool>)
    requires IsRun(margin, frames, bits) && frames != []
    ensures |bits| >= FRAME_LENGTH && Arrives(margin, frames[0], bits[..FRAME_LENGTH])
    ensures IsRun(margin, frames[1..], bits[FRAME_LENGTH..])
    decreases |frames|
  {
    hide Arrives, IsRun;
    RunLength(margin, frames, bits);
    RunEnds(margin, frames, bits);
    var n := |frames| - 1;
    var init := bits[..|bits| - FRAME_LENGTH];
    if n == 0 {
      assert bits[..FRAME_LENGTH] == bits[|bits| - FRAME_LENGTH..];
      EmptyRun(margin, frames[1..], bits[FRAME_LENGTH..]);
    } else {
      RunBegins(margin, frames[..n], init);
      assert init[..FRAME_LENGTH] == bits[..FRAME_LENGTH];
      var rest := bits[FRAME_LENGTH..];
      assert rest[..|rest| - FRAME_LENGTH] == init[FRAME_LENGTH..];
      assert rest[|rest| - FRAME_LENGTH..] == bits[|bits| - FRAME_LENGTH..];
      assert frames[1..][..n - 1] == frames[..n][1..];
      RunEnds(margin, frames[1..], rest);
    }
  }

  lemma RunEnds(margin: int, frames: seq<seq<Byte>>, bits: seq<bool>)
    requires frames != [] && |bits| == FRAME_LENGTH * |frames|
    ensures IsRun(margin, frames, bits) <==>
              && Arrives(margin, frames[|frames| - 1], bits[|bits| - FRAME_LENGTH..])
              && IsRun(margin, frames[..|frames| - 1], bits[..|bits| - FRAME_LENGTH])
  {
    hide Arrives;
  }

  lemma EmptyRun(margin: int, frames: seq<seq<Byte>>, bits: seq<bool>)
    requires frames == [] && bits == []
    ensures IsRun(margin, frames, bits)
  {}

  lemma RunLength(margin: int, frames: seq<seq<Byte>>, bits: seq<bool>)
    requires IsRun(margin, frames, bits)
    ensures |bits| == FRAME_LENGTH * |frames|
  {}

  lemma FirstOfRun(margin: int, s: SyncState, frame: seq<Byte>, lead: seq<bool>, arrived: seq<bool>)
    requires |s.reg| == 2 * FRAME_LENGTH && s.symbolCount >= FRAME_LENGTH - 1 && Arrives(margin, frame, arrived)
    requires forall i :: 0 < i < |lead| + FRAME_LENGTH ==> !IsMarked(WindowAt(s, lead + arrived, i))
    ensures RunState(s, lead + arrived).symbolCount == 0 && AllCarry(margin, [frame], RunFrames(s, lead + arrived))
  {
    hide WrongSymbols, Carries, Reversed, Invert, RunState, RunFrames, IsMarked;
    var inverted := IsReception(margin, frame, arrived, true);
    LastWindow(s, lead, arrived);
    FirstFrameIsFound(s, lead + arrived, inverted);
    InvertReversed(arrived);
    InvertReversed(Invert(arrived));
  }

  lemma LastWindow(s: SyncState, lead: seq<bool>, arrived: seq<bool>)
    requires |s.reg| == 2 * FRAME_LENGTH && |arrived| == FRAME_LENGTH
    ensures WindowAt(s, lead + arrived, |lead + arrived|) == arrived
  {}

  lemma EarlyWindow(s: SyncState, bits: seq<bool>, more: seq<bool>, i: nat)
    requires |s.reg| == 2 * FRAME_LENGTH && i <= |bits|
    ensures WindowAt(s, bits + more, i) == WindowAt(s, bits, i)
  {}

  // A run that comes out of sync, behind whatever symbols: no window before the end of its first
  // frame is taken for a frame.
  ghost predicate IsLate(margin: int, s: SyncState, lead: seq<bool>, frames: seq<seq<Byte>>, run: seq<bool>)
    requires |s.reg| == 2 * FRAME_LENGTH
  {
    && s.symbolCount >= FRAME_LENGTH - 1 && frames != [] && IsRun(margin, frames, run)
    && forall i :: 0 < i < |lead| + FRAME_LENGTH ==> i <= |lead + run| && !IsMarked(WindowAt(s, lead + run, i))
  }

  // It is found frame by frame as well.
  lemma LateRunIsFound(margin: int, s: SyncState, lead: seq<bool>, frames: seq<seq<Byte>>, bits: seq<bool>)
    requires |s.reg| == 2 * FRAME_LENGTH && IsLate(margin, s, lead, frames, bits)
    ensures RunState(s, lead + bits).symbolCount == 0 && AllCarry(margin, frames, RunFrames(s, lead + bits))
  {
    hide IsRun, Arrives, AllCarry, RunState, RunFrames, IsMarked, WindowAt;
    RunBegins(margin, frames, bits);
    var first, rest := bits[..FRAME_LENGTH], bits[FRAME_LENGTH..];
    assert lead + bits == (lead + first) + rest;
    forall i | 0 < i < |lead| + FRAME_LENGTH
      ensures !IsMarked(WindowAt(s, lead + first, i))
    {
      EarlyWindow(s, lead + first, rest, i);
    }
    FirstOfRun(margin, s, frames[0], lead, first);
    var middle := RunState(s, lead + first);
    RunIsFound(margin, middle, frames[1..], rest);
    RunSplit(s, lead + first, rest);
    CarryBoth(margin, frames[0], frames[1..], RunFrames(s, lead + first), RunFrames(middle, rest));
    assert frames == [frames[0]] + frames[1..];
  }

  lemma CarryBoth(margin: int, frame: seq<Byte>, frames: seq<seq<Byte>>, found: seq<UWFrame>, more: seq<UWFrame>)
    requires AllCarry(margin, [frame], found) && AllCarry(margin, frames, more)
    ensures AllCarry(margin, [frame] + frames, found + more)
  {
    hide Carries, Reversed;
  }

  lemma RunNothing(margin: int, s: SyncState)
    requires |s.reg| == 2 * FRAME_LENGTH
    ensures RunState(s, []) == s && RunFrames(s, []) == [] && AllCarry(margin, [], RunFrames(s, []))
  {}

  lemma AllCarryAppend(margin: int, frames: seq<seq<Byte>>, found: seq<UWFrame>, more: seq<UWFrame>)
    requires frames != [] && AllCarry(margin, frames[..|frames| - 1], found) && |more| == 1
    requires |more[0].frame| == FRAME_LENGTH && Carries(margin, frames[|frames| - 1], Reversed(more[0].frame))
    ensures AllCarry(margin, frames, found + more)
  {
    hide Carries, Reversed;
  }

  method ReceiveFrame(decoder: Decoder, found: seq<bool>) returns (bytes: seq<Byte>)
    requires |found| == FRAME_LENGTH
    ensures |bytes| == 640
    ensures forall margin, frame ::
              IsUniform(decoder.mettab, margin) && Carries(margin, frame, Reversed(found)) ==> bytes == frame
  {
    hide Errors, IsDecoding, IsUniform, Reversed, DataSymbols, MessageBits;
    var deint := ReadFrame(found);
    var vit := decoder.Decode(deint);
    bytes := Descramble(vit);
    forall margin, frame |
      IsUniform(decoder.mettab, margin) && Carries(margin, frame, Reversed(found))
      ensures bytes == frame
    {
      CorrectsFourErrors(decoder.mettab, margin, Scrambled(frame), deint, vit);
      DescrambleUndoesScramble(frame);
    }
    assert |vit| == 640;
  }

  // A run of frames as it may reach the finder: in sync from the first symbol, or out of sync
  // behind other symbols with no window taken for a frame too early.
  ghost predicate Reaches(margin: int, s: SyncState, frames: seq<seq<Byte>>, bits: seq<bool>) {
    && |s.reg| == 2 * FRAME_LENGTH
    && (s.symbolCount == 0 ==> IsRun(margin, frames, bits))
    && (s.symbolCount != 0 ==> frames != [] && exists lead, run :: IsLate(margin, s, lead, frames, run) && bits == lead + run)
  }

  lemma ReachingIsFound(margin: int, s: SyncState, frames: seq<seq<Byte>>, bits: seq<bool>)
    requires Reaches(margin, s, frames, bits)
    ensures RunState(s, bits).symbolCount == 0 && AllCarry(margin, frames, RunFrames(s, bits))
  {
    hide IsRun, AllCarry, RunState, RunFrames, IsLate;
    if s.symbolCount == 0 {
      RunIsFound(margin, s, frames, bits);
    } else {
      var lead, run :| IsLate(margin, s, lead, frames, run) && bits == lead + run;
      LateRunIsFound(margin, s, lead, frames, run);
    }
  }

  // Lines 678-697: find the frames, then decode them in order.
  method Receive(finder: UWFinder, decoder: Decoder, margin: int, bits: seq<bool>) returns (outFrames: seq<seq<Byte>>)
    requires finder.Valid() && IsUniform(decoder.mettab, margin)
    modifies finder
    ensures finder.Valid()
    ensures forall frames :: Reaches(margin, old(finder.State()), frames, bits) ==>
              outFrames == frames && finder.symbolCount == 0
  {
    hide IsUniform, RunState, RunFrames, Reaches, Carries;
    ghost var s := finder.State();
    var found := finder.PushAll(bits);
    FoundFramesAreWhole(s, bits);
    outFrames := [];
    for i := 0 to |found|
      invariant |outFrames| == i && finder.Valid() && finder.State() == RunState(s, bits)
      invariant forall k, frame :: 0 <= k < i && Carries(margin, frame, Reversed(found[k].frame)) ==> outFrames[k] == frame
    {
      var bytes := ReceiveFrame(decoder, found[i].frame);
      outFrames := outFrames + [bytes];
    }
    forall frames | Reaches(margin, s, frames, bits)
      ensures outFrames == frames && finder.symbolCount == 0
    {
      ReachingIsFound(margin, s, frames, bits);
    }
  }

  lemma {:induction false} FoundFramesAreWhole(s: SyncState, bits: seq<bool>)
    requires |s.reg| == 2 * FRAME_LENGTH
    ensures forall k :: 0 <= k < |RunFrames(s, bits)| ==> |RunFrames(s, bits)[k].frame| == FRAME_LENGTH
    decreases |bits|
  {
    if bits != [] {
      FoundFramesAreWhole(s, bits[..|bits| - 1]);
    }
  }
}
