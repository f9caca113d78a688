// Following voice calls with one receiver: src/voice/voice_ops.cpp, lines 57-72 and 167-269.
// The radio may hop to the call and comes home when it ends. The clock, the assignment log, the
// blacklist, the frame counter and the answer of the radio to a request are inputs.

module VoiceFollow {
  import opened PresetLists
  import opened Values

  datatype Held = Held(id: int, preset: Preset)

  datatype Assignment = Assignment(kind: int, rx: real, aes: nat)

  // What one frame of the main loop finds: the assignments logged so far and how many there ever
  // were, the time, the frames decoded on the followed channel, the sample rate in MHz; the two
  // settings as the user has them; and whether the decoder manager takes decoders.
  datatype Input = Input(items: seq<Assignment>, total: nat, now: real, frames: nat, rate: real,
                         follow: bool, holdSec: real, ready: bool)

  const VOICE := 8400
  const ACQUIRE := 12.0

  predicate IsVoiceAssignment(kind: int) {
    0x31 <= kind <= 0x34
  }

  predicate IsUsable(a: Assignment): (usable: bool)
    ensures usable <==> a.kind in {0x31, 0x32, 0x33, 0x34} && a.rx > 1.0
  {
    IsVoiceAssignment(a.kind) && a.rx > 1.0
  }

  // The latest usable assignment.
  ghost predicate IsPick(items: seq<Assignment>, pick: Option<Assignment>) {
    if pick.None? then forall k :: 0 <= k < |items| ==> !IsUsable(items[k])
    else exists k :: 0 <= k < |items| && items[k] == pick.value && IsUsable(items[k])
                     && forall j :: k < j < |items| ==> !IsUsable(items[j])
  }

  // Lines 181-191.
  method PickLatest(items: seq<Assignment>) returns (pick: Option<Assignment>)
    ensures IsPick(items, pick)
  {
    pick := None;
    var k := |items|;
    while k > 0
      invariant 0 <= k <= |items|
      invariant forall j :: k <= j < |items| ==> !IsUsable(items[j])
    {
      k := k - 1;
      if IsUsable(items[k]) {
        return Some(items[k]);
      }
    }
  }

  function Presets(decoders: seq<Held>): (presets: seq<Preset>)
    ensures |presets| == |decoders| && forall k :: 0 <= k < |decoders| ==> presets[k] == decoders[k].preset
  {
    seq(|decoders|, k requires 0 <= k < |decoders| => decoders[k].preset)
  }

  predicate AreBelow(decoders: seq<Held>, id: int) {
    forall k :: 0 <= k < |decoders| ==> decoders[k].id < id
  }

  // The presets in no order.
  ghost function Bag(decoders: seq<Held>): multiset<Preset> {
    multiset(Presets(decoders))
  }

  // Without the first decoder of that id.
  function WithoutId(decoders: seq<Held>, id: int): seq<Held> {
    if decoders == [] then []
    else if decoders[0].id == id then decoders[1..]
    else [decoders[0]] + WithoutId(decoders[1..], id)
  }

  lemma {:induction false} WithoutLast(decoders: seq<Held>, h: Held)
    requires AreBelow(decoders, h.id)
    ensures WithoutId(decoders + [h], h.id) == decoders
  {
    if decoders != [] {
      assert (decoders + [h])[1..] == decoders[1..] + [h];
      WithoutLast(decoders[1..], h);
    }
  }

  // How far off the carrier the radio is put, clear of its own centre.
  function Offset(rate: real): (offset: real)
    ensures offset <= 0.2 && offset <= 0.25 * rate && (offset == 0.2 || offset == 0.25 * rate)
  {
    if 0.25 * rate < 0.2 then 0.25 * rate else 0.2
  }

  // A radio that tunes as asked has the call in its band, and not on its centre.
  lemma HopReaches(rate: real, rx: real)
    requires rate > 0.0
    ensures var center := rx - Offset(rate); 0.0 < rx - center < 0.45 * rate
  {}

  class Follower {
    const canRetune: bool
    const blacklisted: nat -> bool
    // What the radio really tunes to.
    const tune: real -> real
    var voiceFollow: bool
    var holdSec: real
    var center: real
    var sourceCenter: real
    var decoders: seq<Held>
    var nextId: int
    var following: bool
    var channelId: int
    var retuned: bool
    var everLocked: bool
    var voiceFrames: nat
    var activity: real
    var home: seq<Preset>
    var homeCenter: real
    var seenCount: nat
    // The receiver when the current follow began.
    ghost var startCenter: real
    ghost var startDecoders: seq<Held>

    ghost predicate Valid()
      reads this
    {
      && nextId >= 1 && AreBelow(decoders, nextId)
      && (following ==> homeCenter == startCenter && 0 <= channelId < nextId)
      && (following && retuned ==>
            multiset(home) == Bag(startDecoders) && |decoders| == 1 && decoders[0].id == channelId)
      && (following && !retuned ==>
            && center == startCenter && AreBelow(startDecoders, channelId)
            && |decoders| == |startDecoders| + 1 && decoders[..|startDecoders|] == startDecoders
            && decoders[|startDecoders|].id == channelId)
    }

    constructor (canRetune: bool, blacklisted: nat -> bool, tune: real -> real, center: real)
      ensures Valid() && !following && decoders == [] && !voiceFollow
      ensures this.canRetune == canRetune && this.blacklisted == blacklisted && this.tune == tune
      ensures this.center == sourceCenter == center
    {
      this.canRetune, this.blacklisted, this.tune := canRetune, blacklisted, tune;
      voiceFollow, holdSec := false, 6.0;
      this.center, sourceCenter, decoders, nextId := center, center, [], 1;
      following, channelId, retuned, everLocked := false, -1, false, false;
      voiceFrames, activity, home, homeCenter, seenCount := 0, 0.0, [], 0.0, 0;
      startCenter, startDecoders := center, [];
    }

    // Lines 57-72: everything is wiped; callers restore what they need.
    method Retune(request: real)
      modifies this`center, this`sourceCenter, this`decoders
      ensures center == sourceCenter == tune(request) && decoders == []
    {
      center := request;
      sourceCenter := tune(request);
      center := sourceCenter;
      decoders := [];
    }

    // The manager's addDecoder: -1 as long as it is not ready.
    method AddDecoder(preset: Preset, ready: bool) returns (id: int)
      modifies this`decoders, this`nextId
      ensures !ready ==> id == -1 && decoders == old(decoders) && nextId == old(nextId)
      ensures ready ==> id == old(nextId) && nextId == id + 1 && decoders == old(decoders) + [Held(id, preset)]
    {
      if !ready {
        return -1;
      }
      id := nextId;
      nextId := nextId + 1;
      decoders := decoders + [Held(id, preset)];
    }

    // The assignment to follow now, if any.
    ghost predicate Starts(input: Input, a: Assignment)
      reads this
    {
      && voiceFollow && input.total > seenCount && IsPick(input.items, Some(a)) && !blacklisted(a.aes)
      && (canRetune || InBand(input, a.rx))
    }

    predicate InBand(input: Input, rx: real): (inBand: bool)
      reads this
      ensures inBand <==> sourceCenter - 0.45 * input.rate <= rx <= sourceCenter + 0.45 * input.rate
    {
      Distance(rx, sourceCenter) <= input.rate * 0.45
    }

    // Before the first frame at least twelve seconds, then as the user has it.
    function Grace(): (grace: real)
      reads this
      ensures everLocked ==> grace == holdSec
      ensures !everLocked ==> grace >= 12.0 && grace >= holdSec && (grace == 12.0 || grace == holdSec)
    {
      if everLocked then holdSec else Max(holdSec, ACQUIRE)
    }

    // Lines 170-233: no follow is active.
    method Begin(input: Input, ready: bool)
      requires Valid() && !following
      modifies this
      ensures Valid() && voiceFollow == old(voiceFollow) && holdSec == old(holdSec)
      ensures seenCount == if old(voiceFollow) && input.total <= old(seenCount) then old(seenCount) else input.total
      ensures following ==> startCenter == old(center) && startDecoders == old(decoders) && activity == input.now && !everLocked
      ensures (forall a :: !old(Starts(input, a))) ==> !following && center == old(center) && decoders == old(decoders)
      ensures forall a :: old(Starts(input, a)) ==>
                && following == ready && retuned == !old(InBand(input, a.rx))
                && center == (if retuned then tune(a.rx - Offset(input.rate)) else old(center))
                && decoders == (if retuned then [] else old(decoders))
                               + (if ready then [Held(old(nextId), Preset(a.rx, VOICE))] else [])
    {
      hide IsPick, IsUsable, Distance, Offset;
      if !voiceFollow {
        seenCount := input.total;
        return;
      }
      if input.total <= seenCount {
        return;
      }
      var pick := PickLatest(input.items);
      seenCount := input.total;
      if pick.None? {
        NoPick(input.items);
        return;
      }
      var a := pick.value;
      OnlyOnePick(input.items, a);
      if blacklisted(a.aes) {
        return;
      }
      assert old(Starts(input, a)) <==> canRetune || old(InBand(input, a.rx));
      Follow(input, a, ready);
    }

    // Lines 196-232: follow this one, if the radio can reach it.
    method Follow(input: Input, a: Assignment, ready: bool)
      requires Valid() && !following
      modifies this`decoders, this`center, this`sourceCenter, this`nextId, this`following, this`channelId, this`retuned,
        this`everLocked, this`voiceFrames, this`activity, this`home, this`homeCenter, this`startCenter, this`startDecoders
      ensures Valid()
      ensures following ==> startCenter == old(center) && startDecoders == old(decoders) && activity == input.now && !everLocked
      ensures !canRetune && !old(InBand(input, a.rx)) ==> !following && center == old(center) && decoders == old(decoders)
      ensures canRetune || old(InBand(input, a.rx)) ==>
                && following == ready && retuned == !old(InBand(input, a.rx))
                && center == (if retuned then tune(a.rx - Offset(input.rate)) else old(center))
                && decoders == (if retuned then [] else old(decoders))
                               + (if ready then [Held(old(nextId), Preset(a.rx, VOICE))] else [])
    {
      hide Distance, Offset, Presets, InBand;
      ghost var before, beforeCenter := decoders, center;
      var reached := Reach(input, a.rx);
      if !reached {
        return;
      }
      channelId := AddDecoder(Preset(a.rx, VOICE), ready);
      if channelId < 0 {
        return;
      }
      following := true;
      everLocked := false;
      voiceFrames := 0;
      activity := input.now;
      startCenter, startDecoders := beforeCenter, before;
    }

    // Lines 201-218: hop when the carrier is out of band.
    method Reach(input: Input, rx: real) returns (reached: bool)
      modifies this`decoders, this`center, this`sourceCenter, this`retuned, this`home, this`homeCenter
      ensures reached == (canRetune || old(InBand(input, rx))) && homeCenter == old(center)
      ensures retuned == (canRetune && !old(InBand(input, rx)))
      ensures !retuned ==> center == old(center) && decoders == old(decoders)
      ensures retuned ==> center == tune(rx - Offset(input.rate)) && decoders == []
      ensures retuned ==> multiset(home) == Bag(old(decoders)) && IsByFrequency(home)
    {
      hide Distance, Offset, Presets;
      var inBand := InBand(input, rx);
      homeCenter := center;
      retuned := false;
      if !inBand {
        if !canRetune {
          return false;
        }
        home := ByFrequency(Presets(decoders));
        Retune(rx - Offset(input.rate));
        retuned := true;
      }
      reached := true;
    }

    // Lines 235-268: a follow is active. It ends on silence or on request, and only then.
    method Continue(input: Input, ready: bool)
      requires Valid() && following
      modifies this
      ensures Valid() && voiceFollow == old(voiceFollow) && holdSec == old(holdSec)
      ensures startCenter == old(startCenter) && startDecoders == old(startDecoders)
      ensures voiceFrames == if input.frames > old(voiceFrames) then input.frames else old(voiceFrames)
      ensures activity == if input.frames > old(voiceFrames) then input.now else old(activity)
      ensures everLocked == (old(everLocked) || input.frames > old(voiceFrames))
      ensures following <==> voiceFollow && input.now - activity <= Grace()
      ensures following ==> center == old(center) && decoders == old(decoders)
      ensures !following && !old(retuned) ==> center == startCenter && decoders == startDecoders
      ensures !following && old(retuned) ==>
                center == tune(startCenter) && Bag(decoders) == if ready then Bag(startDecoders) else multiset{}
    {
      hide Presets, Max;
      if input.frames > voiceFrames {
        voiceFrames := input.frames;
        activity := input.now;
        everLocked := true;
      }
      var grace := Grace();
      var idle := input.now - activity;
      if idle > grace || !voiceFollow {
        End(ready);
      }
    }

    // Lines 257-266.
    method End(ready: bool)
      requires Valid() && following
      modifies this`center, this`sourceCenter, this`decoders, this`nextId, this`home, this`channelId, this`following
      ensures Valid() && !following
      ensures !retuned ==> center == startCenter && decoders == startDecoders
      ensures retuned ==> center == tune(startCenter) && Bag(decoders) == if ready then Bag(startDecoders) else multiset{}
    {
      hide Presets;
      if !retuned {
        assert decoders == startDecoders + [decoders[|startDecoders|]];
        WithoutLast(startDecoders, decoders[|startDecoders|]);
      }
      decoders := WithoutId(decoders, channelId);
      channelId := -1;
      if retuned {
        ComeHome(ready);
      }
      following := false;
    }

    // Lines 261-264.
    method ComeHome(ready: bool)
      requires nextId >= 1
      modifies this`center, this`sourceCenter, this`decoders, this`nextId, this`home
      ensures center == tune(homeCenter) && home == [] && nextId >= 1
      ensures Presets(decoders) == if ready then old(home) else []
      ensures AreBelow(decoders, nextId)
    {
      Retune(homeCenter);
      var n := 0;
      while n < |home|
        invariant 0 <= n <= |home| && home == old(home) && center == tune(homeCenter) && nextId >= 1
        invariant Presets(decoders) == if ready then home[..n] else []
        invariant AreBelow(decoders, nextId)
      {
        var id := AddDecoder(home[n], ready);
        n := n + 1;
      }
      assert home[..n] == home;
      home := [];
    }

    // Lines 167-269.
    method Update(input: Input)
      requires Valid()
      modifies this
      ensures Valid() && voiceFollow == old(voiceFollow) && holdSec == old(holdSec)
      ensures following ==> voiceFollow && input.now - activity <= Grace()
      ensures following ==> startCenter == (if old(following) then old(startCenter) else old(center))
      ensures following ==> startDecoders == (if old(following) then old(startDecoders) else old(decoders))
      ensures old(following) && !following ==> center == old(startCenter) || center == tune(old(startCenter))
      ensures old(following) && !following && input.ready && tune(old(startCenter)) == old(startCenter) ==>
                center == old(startCenter) && Bag(decoders) == Bag(old(startDecoders))
      ensures !old(following) && !following && input.ready ==> center == old(center) && decoders == old(decoders)
    {
      if following {
        Continue(input, input.ready);
      } else {
        Begin(input, input.ready);
      }
    }

    // The frames of the main loop (src/main.cpp, line 339), one update each, with the settings as
    // they are at the time; a call may end by itself or be cut off. As long as the manager is
    // ready and the radio can tune exactly to where it was, whenever nothing is followed the
    // receiver is where it was in the beginning, with the same decoders.
    method Run(inputs: seq<Input>)
      requires Valid() && !following && tune(center) == center
      modifies this
      ensures Valid()
      ensures following ==>
                inputs != [] && inputs[|inputs| - 1].follow && inputs[|inputs| - 1].now - activity <= Grace()
      ensures (forall n :: 0 <= n < |inputs| ==> inputs[n].ready) && !following ==>
                center == old(center) && Bag(decoders) == Bag(old(decoders))
      ensures (forall n :: 0 <= n < |inputs| ==> inputs[n].ready) && following ==>
                startCenter == old(center) && Bag(startDecoders) == Bag(old(decoders))
    {
      hide Presets;
      var n := 0;
      while n < |inputs|
        invariant 0 <= n <= |inputs| && Valid()
        invariant following ==> n > 0 && inputs[n - 1].follow && inputs[n - 1].now - activity <= Grace()
        invariant (forall k :: 0 <= k < n ==> inputs[k].ready) && !following ==>
                    center == old(center) && Bag(decoders) == Bag(old(decoders))
        invariant (forall k :: 0 <= k < n ==> inputs[k].ready) && following ==>
                    startCenter == old(center) && Bag(startDecoders) == Bag(old(decoders))
      {
        voiceFollow, holdSec := inputs[n].follow, inputs[n].holdSec;
        Update(inputs[n]);
        n := n + 1;
      }
    }
  }

  lemma NoPick(items: seq<Assignment>)
    requires IsPick(items, None)
    ensures forall b :: !IsPick(items, Some(b))
  {}

  lemma OnlyOnePick(items: seq<Assignment>, a: Assignment)
    requires IsPick(items, Some(a))
    ensures forall b :: IsPick(items, Some(b)) ==> b == a
    ensures !IsPick(items, None)
  {
    forall b | IsPick(items, Some(b))
      ensures b == a
    {
      var k :| 0 <= k < |items| && items[k] == a && IsUsable(items[k]) && forall j :: k < j < |items| ==> !IsUsable(items[j]);
      var l :| 0 <= l < |items| && items[l] == b && IsUsable(items[l]) && forall j :: l < j < |items| ==> !IsUsable(items[j]);
      assert k == l;
    }
  }
}
