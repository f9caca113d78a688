// The down-converter of src/dsp/ddc.h, lines 77-222: an oscillator that shifts a channel to zero
// frequency and the cascade of decimating filters behind it. The exponential, the magnitude and
// the filter design are parameters; IsCis, IsMagnitude and IsDesign list what is used of them.

module DownConverter {
  import opened PowersOfTwo
  import opened Complexes
  import opened Roots
  import opened RealDft
  import opened SmoothNumbers
  import opened Decimation
  import opened FirFilter
  import opened Cascades

  // All that is used of std::abs: one on the unit circle.
  ghost predicate IsMagnitude(magnitude: Complex -> real) {
    forall z: Complex {:trigger magnitude(z)} :: z.re * z.re + z.im * z.im == 1.0 ==> magnitude(z) == 1.0
  }

  // The length design() settles on: the least odd one that is at least twice the factor.
  function TapCount(factor: int, taps: int): (n: int)
    ensures n % 2 == 1 && taps <= n && 2 * factor <= n
    ensures forall m :: m % 2 == 1 && taps <= m && 2 * factor <= m ==> n <= m
  {
    var t := if taps < factor * 2 then factor * 2 else taps;
    if t % 2 == 0 then t + 1 else t
  }

  type Design = (int, real, real, int) -> seq<real>

  // Coefficients normalised to unit gain at zero frequency.
  ghost predicate IsDesign(design: Design) {
    forall factor, rate, cutoff, taps {:trigger design(factor, rate, cutoff, taps)} ::
      TapCount(factor, taps) >= 0 ==>
        |design(factor, rate, cutoff, taps)| == TapCount(factor, taps) && Gain(Lift(design(factor, rate, cutoff, taps))) == ONE
  }

  lemma OnUnitCircle(cis: real -> Complex, t: real)
    requires IsCis(cis)
    ensures cis(t).re * cis(t).re + cis(t).im * cis(t).im == 1.0
  {
    hide IsCis;
    CisNegate(cis, t);
    CisAdd(cis, t, -t);
    ZeroAngle(cis);
    assert t + -t == 0.0;
  }

  lemma RenormaliseKeeps(cis: real -> Complex, magnitude: Complex -> real, t: real)
    requires IsCis(cis) && IsMagnitude(magnitude)
    ensures var z := cis(t); magnitude(z) != 0.0 && Complex(z.re / magnitude(z), z.im / magnitude(z)) == z
  {
    hide IsCis;
    OnUnitCircle(cis, t);
  }

  lemma ZeroAngle(cis: real -> Complex)
    requires IsCis(cis)
    ensures cis(0.0) == ONE
  {
    hide IsCis;
    CisHalf(cis);
    CisAdd(cis, 0.5, -0.5);
    assert 0.5 + -0.5 == 0.0;
  }

  // std::lround
  function Lround(x: real): int {
    if x < 0.0 then -((0.5 - x).Floor) else (x + 0.5).Floor
  }

  // The whole number nearest to x; of two equally near ones the one further from zero.
  predicate IsRounded(x: real, n: int) {
    && -0.5 <= n as real - x <= 0.5
    && (n as real - x == 0.5 ==> n > 0) && (n as real - x == -0.5 ==> n < 0)
  }

  lemma LroundRounds(x: real)
    ensures forall n :: IsRounded(x, n) <==> n == Lround(x)
  {
    var m := Lround(x);
    assert IsRounded(x, m);
    forall n | IsRounded(x, n)
      ensures n == m
    {
      assert -1.0 <= n as real - m as real <= 1.0;
      assert n - m in {-1, 0, 1};
    }
  }

  lemma NearestIsSmooth(n: int, d: int)
    requires IsNearestSmooth(n, d)
    ensures d >= 1 && IsSmooth(d)
  {}

  // The decimation asked for by a ratio of rates, at least one.
  ghost predicate IsDecimation(ratio: real, total: int) {
    forall n :: IsRounded(ratio, n) ==> IsNearestSmooth(if n < 1 then 1 else n, total)
  }

  // ---- A linked row of stages --------------------------------------------------

  ghost predicate Apart(stages: seq<FirDecimator>) {
    forall i, k :: 0 <= i < k < |stages| ==> stages[i] != stages[k] && stages[i].delay != stages[k].delay
  }

  ghost function Footprint(stages: seq<FirDecimator>, from: nat): set<object> {
    (set i | from <= i < |stages| :: stages[i]) + (set i | from <= i < |stages| :: stages[i].delay)
  }

  ghost predicate Linked(stages: seq<FirDecimator>, i: nat, emitted: seq<Complex>)
    requires i < |stages|
    reads Footprint(stages, 0)
  {
    && stages[i].Valid()
    && stages[i].Output() == if i + 1 < |stages| then stages[i + 1].history else emitted
  }

  // Each stage from `from` on has been fed with the output of the one before it.
  ghost predicate LinkedFrom(stages: seq<FirDecimator>, from: nat, emitted: seq<Complex>)
    reads Footprint(stages, 0)
  {
    forall i :: from <= i < |stages| ==> Linked(stages, i, emitted)
  }

  ghost function Specs(stages: seq<FirDecimator>): (specs: seq<Stage>)
    ensures |specs| == |stages|
  {
    seq(|stages|, i requires 0 <= i < |stages| => Stage(Lift(stages[i].h), stages[i].factor))
  }

  lemma {:induction false} HistoriesAreThrough(stages: seq<FirDecimator>, i: nat, emitted: seq<Complex>)
    requires stages != [] && i < |stages| && LinkedFrom(stages, 0, emitted)
    ensures forall s :: s in Specs(stages) ==> s.factor >= 1
    ensures forall s :: s in Specs(stages)[..i] ==> s.factor >= 1
    ensures stages[i].history == Through(Specs(stages)[..i], stages[0].history)
  {
    hide Decimated;
    forall s | s in Specs(stages)
      ensures s.factor >= 1
    {
      var k :| 0 <= k < |stages| && s == Specs(stages)[k];
      assert Linked(stages, k, emitted);
    }
    if i > 0 {
      HistoriesAreThrough(stages, i - 1, emitted);
      assert Specs(stages)[..i][..i - 1] == Specs(stages)[..i - 1];
      assert Linked(stages, i - 1, emitted);
    }
  }

  // So everything sent out is one filter over everything taken in.
  lemma LinkedIsOneFilter(stages: seq<FirDecimator>, emitted: seq<Complex>)
    requires stages != [] && LinkedFrom(stages, 0, emitted)
    ensures forall s :: s in Specs(stages) ==> s.factor >= 1
    ensures Total(Specs(stages)) >= 1
    ensures emitted == Decimated(Response(Specs(stages)), Total(Specs(stages)), stages[0].history)
  {
    hide Decimated;
    var last := |stages| - 1;
    HistoriesAreThrough(stages, last, emitted);
    assert Linked(stages, last, emitted);
    assert emitted == Through(Specs(stages), stages[0].history);
    CascadeIsOneFilter(Specs(stages), stages[0].history);
  }

  // The filter of a stage: 40% of its output rate is let through, or, in the last stage, the
  // channel or 45% if that is less; and the number of taps asked for.
  ghost predicate IsStage(design: Design, h: seq<real>, before: seq<int>, factor: int, sampleRate: real, channelWidth: real,
                          last: bool) {
    exists rate, cutoff {:trigger design(factor, rate, cutoff, if last then 24 * factor + 128 else 16 * factor + 64)} ::
      && IsRate(rate, before, sampleRate)
      && IsCutoff(rate / (if factor == 0 then 1 else factor) as real, channelWidth, last, cutoff)
      && h == design(factor, rate, cutoff, if last then 24 * factor + 128 else 16 * factor + 64)
  }

  predicate IsCutoff(outRate: real, channelWidth: real, last: bool, cutoff: real) {
    if last then cutoff <= outRate * 0.45 && cutoff <= channelWidth * 0.5 && (cutoff == outRate * 0.45 || cutoff == channelWidth * 0.5)
    else cutoff == outRate * 0.40
  }

  // All stages of a row, for the factors as a whole.
  ghost predicate AreStages(design: Design, row: seq<FirDecimator>, factors: seq<int>, sampleRate: real, channelWidth: real) {
    |row| <= |factors| && forall i :: 0 <= i < |row| ==>
      IsStage(design, row[i].h, factors[..i], factors[i], sampleRate, channelWidth, i + 1 == |factors|)
  }

  lemma MoreStages(design: Design, row: seq<FirDecimator>, factors: seq<int>, sampleRate: real, channelWidth: real, stage: FirDecimator)
    requires AreStages(design, row, factors, sampleRate, channelWidth) && |row| < |factors|
    requires IsStage(design, stage.h, factors[..|row|], factors[|row|], sampleRate, channelWidth, |row| + 1 == |factors|)
    ensures AreStages(design, row + [stage], factors, sampleRate, channelWidth)
  {
    hide IsStage;
  }

  // Fresh stages of unit gain with the given factors.
  ghost predicate Built(row: seq<FirDecimator>, factors: seq<int>)
    reads Footprint(row, 0)
  {
    && |row| == |factors| && Apart(row)
    && forall i :: 0 <= i < |row| ==>
         row[i].Valid() && row[i].factor == factors[i] && row[i].history == [] && Gain(Lift(row[i].h)) == ONE
  }

  lemma BuiltIsLinked(row: seq<FirDecimator>, factors: seq<int>)
    requires Built(row, factors) && row != []
    ensures LinkedFrom(row, 0, []) && row[0].history == [] && Apart(row)
    ensures Factors(Specs(row)) == factors
    ensures forall s :: s in Specs(row) ==> s.factor >= 1 && s.factor in factors && Gain(s.h) == ONE
    ensures Gain(Response(Specs(row))) == ONE
  {
    hide Gain, Lift, HoldsLast, Pow2;
    forall i | 0 <= i < |row|
      ensures Linked(row, i, [])
    {
      NoInput(Lift(row[i].h), row[i].factor);
    }
    UnitGain(Specs(row));
  }

  lemma NoInput(h: seq<Complex>, factor: int)
    requires factor >= 1
    ensures Decimated(h, factor, []) == []
  {
    DivModUnique(0, factor, 0, 0);
  }

  class Ddc {
    const cis: real -> Complex
    const magnitude: Complex -> real
    const sampleRate: real
    const stages: seq<FirDecimator>
    const outRate: real
    var rot: Complex
    var osc: Complex
    var oscCount: nat
    ghost var step: real
    ghost var phase: real
    ghost var mixed: seq<Complex>
    ghost var emitted: seq<Complex>

    ghost predicate Valid()
      reads this, Footprint(stages, 0)
    {
      && IsCis(cis) && IsMagnitude(magnitude) && sampleRate != 0.0
      && rot == cis(step) && osc == cis(phase)
      && stages != [] && Apart(stages) && this !in Footprint(stages, 0)
      && LinkedFrom(stages, 0, emitted) && stages[0].history == mixed
    }

    // Lines 83-163 behind the filter design.
    constructor (cis: real -> Complex, magnitude: Complex -> real, design: Design,
                 sampleRate: real, offset: real, targetRate: real, channelWidth: real)
      requires IsCis(cis) && IsMagnitude(magnitude) && IsDesign(design) && sampleRate != 0.0 && targetRate != 0.0
      ensures Valid() && mixed == [] && emitted == [] && phase == 0.0 && step == -(offset / sampleRate)
      ensures this.cis == cis && fresh(Footprint(stages, 0))
      ensures IsDecimation(sampleRate / targetRate, Total(Specs(stages)))
      ensures IsGreedy(Factors(Specs(stages)), 1)
      ensures AreStages(design, stages, Factors(Specs(stages)), sampleRate, channelWidth)
      ensures IsRate(outRate, Factors(Specs(stages)), sampleRate)
      ensures forall s :: s in Specs(stages) ==> 1 <= s.factor <= 8
      ensures Gain(Response(Specs(stages))) == ONE
    {
      hide IsSmooth, Gain, HoldsLast, Pow2, IsRate, IsDesign, Lround, IsNearestSmooth, Response, Product, Lift, IsCis, IsMagnitude, Decimated,
        Built, Apart, Specs, Factors, LinkedFrom, AreStages, IsGreedy, IsRounded;
      var ratio := Lround(sampleRate / targetRate);
      LroundRounds(sampleRate / targetRate);
      var totalDecim := ChooseDecimation(ratio);
      NearestIsSmooth(if ratio < 1 then 1 else ratio, totalDecim);
      var factors := Stages(totalDecim);
      var row, rate := Build(design, factors, sampleRate, channelWidth);
      this.cis, this.magnitude, this.sampleRate := cis, magnitude, sampleRate;
      rot := cis(-(offset / sampleRate));
      osc := ONE;
      oscCount := 0;
      step, phase := -(offset / sampleRate), 0.0;
      stages, outRate := row, rate;
      mixed, emitted := [], [];
      new;
      ZeroAngle(cis);
      BuiltIsLinked(stages, factors);
    }

    // Lines 204-215. The sample goes into this stage; what comes out of the last one is appended.
    method FeedStages(sample: Complex, stage: nat, ghost sent: seq<Complex>) returns (more: seq<Complex>)
      requires stage <= |stages| && Apart(stages) && LinkedFrom(stages, stage, sent)
      modifies Footprint(stages, stage)
      ensures LinkedFrom(stages, stage, sent + more)
      ensures if stage == |stages| then more == [sample]
              else stages[stage].history == old(stages[stage].history) + [sample]
      decreases |stages| - stage
    {
      if stage >= |stages| {
        return [sample];
      }
      hide FirDecimator.Valid, FirDecimator.Output, Fir, Lift;
      var filter := stages[stage];
      assert Linked(stages, stage, sent);
      var produced, o := filter.Push(sample);
      more := [];
      forall i | stage + 1 <= i < |stages|
        ensures Linked(stages, i, sent)
      {
        assert old(Linked(stages, i, sent));
        assert filter != stages[i] && filter.delay != stages[i].delay;
        assert i + 1 < |stages| ==> filter != stages[i + 1];
      }
      if produced {
        more := FeedStages(o, stage + 1, sent);
      }
      assert more == [] ==> sent + more == sent;
      assert LinkedFrom(stages, stage + 1, sent + more);
      assert filter.history == old(filter.history) + [sample];
      assert Linked(stages, stage, sent + more);
    }

    // One pass of processT: mix, rotate, renormalise, feed.
    method Step(sample: Complex) returns (more: seq<Complex>)
      requires Valid()
      modifies this, Footprint(stages, 0)
      ensures Valid() && step == old(step) && phase == old(phase) + step && emitted == old(emitted) + more
      ensures mixed == old(mixed) + [Mul(sample, cis(old(phase)))]
    {
      hide LinkedFrom, Apart, IsCis, IsMagnitude, Mul;
      CisAdd(cis, phase, step);
      RenormaliseKeeps(cis, magnitude, phase + step);
      var s := Mul(sample, osc);
      osc := Mul(osc, rot);
      oscCount := (oscCount + 1) % WORD;
      if oscCount % 1024 == 0 {
        var size := magnitude(osc);
        osc := Complex(osc.re / size, osc.im / size);
      }
      more := FeedStages(s, 0, emitted);
      phase := phase + step;
      mixed, emitted := mixed + [s], emitted + more;
    }

    // Everything sent out is one filter over everything mixed.
    lemma ValidIsOneFilter()
      requires Valid()
      ensures forall s :: s in Specs(stages) ==> s.factor >= 1
      ensures Total(Specs(stages)) >= 1
      ensures emitted == Decimated(Response(Specs(stages)), Total(Specs(stages)), mixed)
    {
      hide Decimated;
      LinkedIsOneFilter(stages, emitted);
    }

    // Lines 190-202.
    method Process(iq: seq<Complex>) returns (out: seq<Complex>)
      requires Valid()
      modifies this, Footprint(stages, 0)
      ensures Valid() && step == old(step) && phase == Turned(old(phase), step, |iq|)
      ensures mixed == old(mixed) + Mixed(cis, old(phase), step, iq)
      ensures emitted == old(emitted) + out
      ensures forall s :: s in Specs(stages) ==> s.factor >= 1
      ensures Total(Specs(stages)) >= 1
      ensures emitted == Decimated(Response(Specs(stages)), Total(Specs(stages)), mixed)
    {
      hide Valid, Footprint, Decimated, Response, Total, Specs, Mul, Turned;
      out := [];
      TurnedNext(phase, step, 0);
      assert Mixed(cis, phase, step, []) == [];
      var i := 0;
      while i < |iq|
        invariant 0 <= i <= |iq| && Valid() && step == old(step) && phase == Turned(old(phase), step, i)
        invariant mixed == old(mixed) + Mixed(cis, old(phase), step, iq[..i])
        invariant emitted == old(emitted) + out
      {
        var more := Step(iq[i]);
        out := out + more;
        TurnedNext(old(phase), step, i);
        MixedAppend(cis, old(phase), step, iq[..i], iq[i]);
        assert iq[..i + 1] == iq[..i] + [iq[i]];
        i := i + 1;
      }
      assert iq[..i] == iq;
      ValidIsOneFilter();
    }

    // Lines 169-173: the phase runs on.
    method SetOffset(offset: real)
      requires Valid()
      modifies this`rot, this`step
      ensures Valid() && step == -(offset / sampleRate)
    {
      hide IsCis;
      step := -(offset / sampleRate);
      rot := cis(-(offset / sampleRate));
    }
  }

  // The angle of sample n.
  function Turned(phase: real, step: real, n: int): real {
    phase + n as real * step
  }

  lemma TurnedNext(phase: real, step: real, n: int)
    ensures Turned(phase, step, 0) == phase
    ensures Turned(phase, step, n + 1) == Turned(phase, step, n) + step
  {
    assert (n + 1) as real == n as real + 1.0;
  }

  ghost function Mixed(cis: real -> Complex, phase: real, step: real, iq: seq<Complex>): (m: seq<Complex>)
    ensures |m| == |iq|
  {
    seq(|iq|, n requires 0 <= n < |iq| => Mul(iq[n], cis(Turned(phase, step, n))))
  }

  lemma MixedAppend(cis: real -> Complex, phase: real, step: real, iq: seq<Complex>, s: Complex)
    ensures Mixed(cis, phase, step, iq + [s]) == Mixed(cis, phase, step, iq) + [Mul(s, cis(Turned(phase, step, |iq|)))]
  {
    hide Mul, Turned;
    forall n | 0 <= n < |iq|
      ensures Mixed(cis, phase, step, iq + [s])[n] == Mixed(cis, phase, step, iq)[n]
    {
      assert (iq + [s])[n] == iq[n];
    }
  }

  // A carrier that turns by `turn` from one sample to the next.
  ghost predicate IsCarrier(cis: real -> Complex, start: real, turn: real, x: seq<Complex>) {
    forall n :: 0 <= n < |x| ==> x[n] == cis(start + n as real * turn)
  }

  // What a down-converter is for: tuned to a carrier, its oscillator makes a constant of it, and
  // behind filters of unit gain that constant is what comes out, once they are filled.
  lemma CarrierComesOut(cis: real -> Complex, start: real, turn: real, x: seq<Complex>, h: seq<Complex>, factor: int, m: nat)
    requires IsCis(cis) && IsCarrier(cis, start, turn, x) && Gain(h) == ONE
    requires factor >= 1 && m < |x| / factor && |h| <= (m + 1) * factor
    ensures Decimated(h, factor, Mixed(cis, 0.0, -turn, x))[m] == cis(start)
  {
    hide IsCis, Mul, Gain, Fir;
    var still := Mixed(cis, 0.0, -turn, x);
    forall n | 0 <= n < |x|
      ensures still[n] == cis(start)
    {
      Unturned(start, turn, n);
      CisAdd(cis, start + n as real * turn, Turned(0.0, -turn, n));
    }
    assert still == Constant(cis(start), |x|);
    WithinInput(|x|, factor, m);
    ConstantInput(h, cis(start), |x|, (m + 1) * factor - 1);
    MulUnit(cis(start));
  }

  lemma Unturned(start: real, turn: real, n: int)
    ensures start + n as real * turn + Turned(0.0, -turn, n) == start
  {
    assert n as real * -turn == -(n as real * turn);
  }

  // A rate that the factors have divided down from the sample rate.
  ghost predicate IsRate(rate: real, factors: seq<int>, sampleRate: real) {
    rate * Product(factors) as real == sampleRate
  }

  lemma NothingBuilt()
    ensures Built([], []) && Footprint([], 0) == {}
  {}

  lemma BuiltLength(row: seq<FirDecimator>, factors: seq<int>)
    requires Built(row, factors)
    ensures |row| == |factors|
  {}

  lemma FirstRate(sampleRate: real)
    ensures IsRate(sampleRate, [], sampleRate)
  {}

  // Lines 147-162.
  method Build(design: Design, factors: seq<int>, sampleRate: real, channelWidth: real)
      returns (row: seq<FirDecimator>, rate: real)
    requires IsDesign(design) && factors != [] && forall i :: 0 <= i < |factors| ==> 1 <= factors[i] <= 8
    ensures Built(row, factors) && row != [] && fresh(Footprint(row, 0))
    ensures IsRate(rate, factors, sampleRate) && AreStages(design, row, factors, sampleRate, channelWidth)
  {
    hide Gain, Lift, HoldsLast, Pow2, IsRate, IsDesign, Built, Footprint, Product, IsStage, AreStages;
    row, rate := [], sampleRate;
    NothingBuilt();
    NoStages(design, factors, sampleRate, channelWidth);
    assert factors[..0] == [];
    var i := 0;
    FirstRate(sampleRate);
    while i < |factors|
      invariant 0 <= i <= |factors|
      invariant Built(row, factors[..i]) && fresh(Footprint(row, 0))
      invariant IsRate(rate, factors[..i], sampleRate)
      invariant |row| == i && AreStages(design, row, factors, sampleRate, channelWidth)
    {
      NextRate(factors, i, rate, sampleRate);
      ghost var before := row;
      row, rate := AddStage(design, row, factors[..i], factors[i], rate, channelWidth, i + 1 == |factors|, sampleRate);
      assert row == before + [row[i]];
      MoreStages(design, before, factors, sampleRate, channelWidth, row[i]);
      i := i + 1;
      assert factors[..i] == factors[..i - 1] + [factors[i - 1]];
    }
    assert factors[..i] == factors;
    BuiltLength(row, factors);
  }

  lemma NoStages(design: Design, factors: seq<int>, sampleRate: real, channelWidth: real)
    ensures AreStages(design, [], factors, sampleRate, channelWidth)
  {}

  method AddStage(design: Design, row: seq<FirDecimator>, ghost factors: seq<int>, factor: int, rate: real,
                  channelWidth: real, last: bool, ghost sampleRate: real)
      returns (more: seq<FirDecimator>, outRate: real)
    requires IsDesign(design) && 1 <= factor <= 8 && Built(row, factors) && IsRate(rate, factors, sampleRate)
    ensures Built(more, factors + [factor]) && fresh(Footprint(more, 0) - Footprint(row, 0))
    ensures |more| == |row| + 1 && more[..|row|] == row
    ensures IsStage(design, more[|row|].h, factors, factor, sampleRate, channelWidth, last)
    ensures outRate == rate / factor as real
  {
    hide Gain, Lift, IsDesign, HoldsLast, Pow2;
    var stage: FirDecimator;
    stage, outRate := NewStage(design, factor, rate, channelWidth, last, factors, sampleRate);
    BuiltAppend(row, factors, stage, factor);
    more := row + [stage];
  }

  lemma BuiltAppend(row: seq<FirDecimator>, factors: seq<int>, stage: FirDecimator, factor: int)
    requires Built(row, factors)
    requires stage !in Footprint(row, 0) && stage.delay !in Footprint(row, 0)
    requires stage.Valid() && stage.factor == factor && stage.history == [] && Gain(Lift(stage.h)) == ONE
    ensures Built(row + [stage], factors + [factor])
    ensures Footprint(row + [stage], 0) == Footprint(row, 0) + {stage, stage.delay}
  {
    hide Gain, Lift, HoldsLast, Pow2;
    var more := row + [stage];
    assert more[|row|] == stage;
    assert forall i :: 0 <= i < |row| ==> more[i] == row[i];
    forall o: object | o in Footprint(row, 0) + {stage, stage.delay}
      ensures o in Footprint(more, 0)
    {
      if o in Footprint(row, 0) {
        var i :| 0 <= i < |row| && (o == row[i] || o == row[i].delay);
        assert o == more[i] || o == more[i].delay;
      } else {
        assert o == more[|row|] || o == more[|row|].delay;
      }
    }
    assert Footprint(more, 0) <= Footprint(row, 0) + {stage, stage.delay};
  }

  // One pass of the loop: the cut-off, the number of taps, and the rate behind the stage.
  method NewStage(design: Design, factor: int, rate: real, channelWidth: real, last: bool, ghost before: seq<int>,
                  ghost sampleRate: real)
      returns (stage: FirDecimator, outRate: real)
    requires IsDesign(design) && 1 <= factor <= 8 && IsRate(rate, before, sampleRate)
    ensures IsStage(design, stage.h, before, factor, sampleRate, channelWidth, last)
    ensures stage.Valid() && stage.factor == factor && stage.history == [] && Gain(Lift(stage.h)) == ONE
    ensures fresh(stage) && fresh(stage.delay) && outRate == rate / factor as real
  {
    hide Gain, Lift, HoldsLast, Pow2;
    outRate := rate / factor as real;
    var cutoff := if last then (if outRate * 0.45 < channelWidth * 0.5 then outRate * 0.45 else channelWidth * 0.5)
                  else outRate * 0.40;
    var taps := if last then 24 * factor + 128 else 16 * factor + 64;
    TapsFit(TapCount(factor, taps));
    stage := new FirDecimator(factor, design(factor, rate, cutoff, taps));
  }

  lemma TapsFit(taps: int)
    requires taps <= 512
    ensures taps <= Pow2(31)
  {
    assert Pow2(9) == 512;
    Pow2Grows(9, 31);
  }

  lemma NextRate(factors: seq<int>, i: nat, rate: real, sampleRate: real)
    requires i < |factors| && factors[i] >= 1 && IsRate(rate, factors[..i], sampleRate)
    ensures IsRate(rate / factors[i] as real, factors[..i + 1], sampleRate)
  {
    assert factors[..i + 1][..i] == factors[..i];
    var p, f, q := Product(factors[..i]), factors[i], rate / factors[i] as real;
    assert (p * f) as real == p as real * f as real;
    assert q * f as real == rate;
    assert q * (p as real * f as real) == q * f as real * p as real;
  }
}
