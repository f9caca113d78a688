// Tuning to a channel group: src/session/session.cpp, lines 102-168. The 45% filter there must
// keep what the 44% bound of the group's centre promises.

module BandTuning {
  import opened BandPlan
  import opened PresetLists
  import opened Values

  // The decoder presets of some channels, each once, in the order in which they first appear.
  ghost predicate ArePresets(entries: seq<Entry>, channels: seq<nat>, presets: seq<Preset>)
    requires forall k :: 0 <= k < |channels| ==> channels[k] < |entries|
  {
    && (forall p :: p in presets ==> p.baud != 0 && IsPresetOf(entries, channels, p))
    && (forall k :: 0 <= k < |channels| && entries[channels[k]].baud != 0 ==> PresetOf(entries[channels[k]]) in presets)
    && (forall j, k :: 0 <= j < k < |presets| ==> presets[j] != presets[k])
    && forall j, k :: 0 <= j < k < |presets| ==> ComesBefore(entries, channels, presets[j], presets[k])
  }

  // p has a channel before any channel of q.
  predicate ComesBefore(entries: seq<Entry>, channels: seq<nat>, p: Preset, q: Preset)
    requires forall k :: 0 <= k < |channels| ==> channels[k] < |entries|
  {
    forall b :: 0 <= b < |channels| && PresetOf(entries[channels[b]]) == q ==> IsPresetOf(entries, channels[..b], p)
  }

  lemma ComesLast(entries: seq<Entry>, channels: seq<nat>, p: Preset)
    requires channels != [] && forall k :: 0 <= k < |channels| ==> channels[k] < |entries|
    ensures var n := |channels| - 1;
      var q := PresetOf(entries[channels[n]]);
      IsPresetOf(entries, channels[..n], p) && !IsPresetOf(entries, channels[..n], q) ==> ComesBefore(entries, channels, p, q)
    ensures var n := |channels| - 1;
      forall q :: ComesBefore(entries, channels[..n], p, q) && IsPresetOf(entries, channels[..n], p) ==> ComesBefore(entries, channels, p, q)
  {
    var n := |channels| - 1;
    forall b, q | 0 <= b < |channels| && PresetOf(entries[channels[b]]) == q && !IsPresetOf(entries, channels[..n], q)
      ensures b == n
    {}
    forall q, b | ComesBefore(entries, channels[..n], p, q) && 0 <= b < n && PresetOf(entries[channels[b]]) == q
      ensures IsPresetOf(entries, channels[..b], p)
    {
      assert PresetOf(entries[channels[..n][b]]) == q;
      assert channels[..n][..b] == channels[..b];
    }
  }

  predicate IsPresetOf(entries: seq<Entry>, channels: seq<nat>, p: Preset)
    requires forall k :: 0 <= k < |channels| ==> channels[k] < |entries|
  {
    exists k :: 0 <= k < |channels| && PresetOf(entries[channels[k]]) == p
  }

  function PresetOf(entry: Entry): Preset {
    Preset(entry.frequency, entry.baud)
  }

  // Lines 149-155.
  method FindPresets(entries: seq<Entry>, channels: seq<nat>) returns (presets: seq<Preset>)
    requires forall k :: 0 <= k < |channels| ==> channels[k] < |entries|
    ensures ArePresets(entries, channels, presets)
  {
    presets := [];
    var n := 0;
    hide ArePresets;
    NoPresets(entries, channels);
    while n < |channels|
      invariant 0 <= n <= |channels| && ArePresets(entries, channels[..n], presets)
    {
      var entry := entries[channels[n]];
      OneMoreChannel(entries, channels, n, presets);
      if entry.baud != 0 && PresetOf(entry) !in presets {
        presets := presets + [PresetOf(entry)];
      }
      n := n + 1;
    }
    assert channels[..n] == channels;
  }

  lemma NoPresets(entries: seq<Entry>, channels: seq<nat>)
    ensures ArePresets(entries, channels[..0], [])
  {}

  lemma OneMoreChannel(entries: seq<Entry>, channels: seq<nat>, n: nat, presets: seq<Preset>)
    requires n < |channels| && forall k :: 0 <= k < |channels| ==> channels[k] < |entries|
    requires ArePresets(entries, channels[..n], presets)
    ensures var entry := entries[channels[n]];
            ArePresets(entries, channels[..n + 1],
                       if entry.baud != 0 && PresetOf(entry) !in presets then presets + [PresetOf(entry)] else presets)
  {
    hide ComesBefore, IsPresetOf;
    var entry, more := entries[channels[n]], channels[..n + 1];
    assert more == channels[..n] + [channels[n]];
    forall k | 0 <= k < n && entries[channels[k]].baud != 0
      ensures PresetOf(entries[channels[k]]) in presets
    {
      assert channels[..n][k] == channels[k];
    }
    AllStay(entries, channels, n, presets);
    PresetsGrow(entries, channels, n);
    forall k | 0 <= k < |more| && entries[more[k]].baud != 0
      ensures PresetOf(entries[more[k]]) in presets || PresetOf(entries[more[k]]) == PresetOf(entry)
    {
      assert more[k] == channels[k];
    }
  }

  lemma PresetsGrow(entries: seq<Entry>, channels: seq<nat>, n: nat)
    requires n < |channels| && forall k :: 0 <= k < |channels| ==> channels[k] < |entries|
    ensures IsPresetOf(entries, channels[..n + 1], PresetOf(entries[channels[n]]))
    ensures forall p :: IsPresetOf(entries, channels[..n], p) ==> IsPresetOf(entries, channels[..n + 1], p)
  {
    var more := channels[..n + 1];
    assert PresetOf(entries[more[n]]) == PresetOf(entries[channels[n]]);
    forall p | IsPresetOf(entries, channels[..n], p)
      ensures IsPresetOf(entries, more, p)
    {
      var k :| 0 <= k < n && PresetOf(entries[channels[..n][k]]) == p;
      assert more[k] == channels[..n][k];
    }
  }

  // One more channel: those before each other stay so, and its own preset, if new, comes last.
  lemma AllStay(entries: seq<Entry>, channels: seq<nat>, n: nat, presets: seq<Preset>)
    requires n < |channels| && forall k :: 0 <= k < |channels| ==> channels[k] < |entries|
    requires forall p :: p in presets ==> IsPresetOf(entries, channels[..n], p)
    requires forall k :: 0 <= k < n && entries[channels[k]].baud != 0 ==> PresetOf(entries[channels[k]]) in presets
    requires forall j, k :: 0 <= j < k < |presets| ==> ComesBefore(entries, channels[..n], presets[j], presets[k])
    ensures forall j, k :: 0 <= j < k < |presets| ==> ComesBefore(entries, channels[..n + 1], presets[j], presets[k])
    ensures var q := PresetOf(entries[channels[n]]);
      q.baud != 0 && q !in presets ==> forall j :: 0 <= j < |presets| ==> ComesBefore(entries, channels[..n + 1], presets[j], q)
  {
    hide ComesBefore;
    assert channels[..n + 1][..n] == channels[..n];
    forall j | 0 <= j < |presets|
      ensures forall k :: j < k < |presets| ==> ComesBefore(entries, channels[..n + 1], presets[j], presets[k])
      ensures var q := PresetOf(entries[channels[n]]);
        q.baud != 0 && q !in presets ==> ComesBefore(entries, channels[..n + 1], presets[j], q)
    {
      ComesLast(entries, channels[..n + 1], presets[j]);
      assert presets[j] in presets;
    }
  }

  // What a group (or one channel) is tuned to keeps all its carriers in the 44% band.
  predicate InBand(entries: seq<Entry>, channels: seq<nat>, center: real, rate: real)
    requires forall k :: 0 <= k < |channels| ==> channels[k] < |entries|
  {
    forall k :: 0 <= k < |channels| ==> Distance(entries[channels[k]].frequency, center) <= rate * 0.44
  }

  ghost predicate InSomeService(entries: seq<Entry>, rate: real, group: Group) {
    exists service :: IsGroup(entries, service, rate, group)
  }

  lemma GroupInBand(entries: seq<Entry>, rate: real, group: Group)
    requires InSomeService(entries, rate, group)
    ensures forall k :: 0 <= k < |group.channels| ==> group.channels[k] < |entries|
    ensures InBand(entries, group.channels, group.center, rate)
  {
    var service :| IsGroup(entries, service, rate, group);
    var freqs := Frequencies(entries, group.channels);
    assert InWindow(freqs, rate, group.center);
  }

  // The receiver's part of the application state. A source answers a request for a centre with
  // the centre it really has.
  class Receiver {
    var group: int
    var channel: int
    var center: real
    var decoders: seq<Preset>

    constructor ()
      ensures group == 0 && channel == -1 && decoders == []
    {
      group, channel, center, decoders := 0, -1, 0.0, [];
    }

    // Lines 102-130. `rate` is the captured bandwidth in MHz.
    // A manager that is not ready adds nothing.
    method TuneBandPlan(request: real, presets: Option<seq<Preset>>, wav: bool, running: bool, ready: bool, rate: real,
                        tune: real -> real)
      modifies this`center, this`decoders
      ensures wav || request <= 0.0 ==> center == old(center) && decoders == old(decoders)
      ensures !wav && request > 0.0 && !running ==> center == request && decoders == old(decoders)
      ensures !wav && request > 0.0 && running ==> center == tune(request)
      ensures !wav && request > 0.0 && running && !ready ==> decoders == []
      ensures !wav && request > 0.0 && running && ready && presets.Some? ==> decoders == Kept(presets.value, center, rate)
      ensures !wav && request > 0.0 && running && ready && presets.None? ==>
                multiset(decoders) == multiset(Kept(old(decoders), center, rate))
    {
      hide Kept;
      if wav || request <= 0.0 {
        return;
      }
      center := request;
      if running {
        center := tune(request);
        if presets.Some? {
          AddKept(presets.value, ready, rate);
        } else {
          var keep := ByFrequency(decoders);
          KeptOfList(keep, decoders, center, rate);
          AddKept(keep, ready, rate);
        }
      }
    }

    // Lines 117-121: everything goes, and what lies well inside the band comes back.
    method AddKept(keep: seq<Preset>, ready: bool, rate: real)
      modifies this`decoders
      ensures decoders == if ready then Kept(keep, center, rate) else []
    {
      hide Distance;
      decoders := [];
      var n := 0;
      while n < |keep|
        invariant 0 <= n <= |keep| && decoders == if ready then Kept(keep[..n], center, rate) else []
      {
        KeptAppend(keep[..n], keep[n], center, rate);
        assert keep[..n + 1] == keep[..n] + [keep[n]];
        if Distance(keep[n].frequency, center) < rate * 0.45 && ready {
          decoders := decoders + [keep[n]];
        }
        n := n + 1;
      }
      assert keep[..n] == keep;
    }

    // Lines 132-168. Beside the outcome: the groups it chose from, and the channels and the
    // centre it chose.
    method ActivateBandPlan(valid: bool, entries: seq<Entry>, sampleRate: real, wav: bool, running: bool, ready: bool,
                            decode: bool, tune: real -> real)
        returns (ok: bool, ghost groups: seq<Group>, ghost chosen: seq<nat>, ghost request: real, ghost presets: seq<Preset>)
      modifies this
      ensures !ok ==> group == old(group) && channel == old(channel) && center == old(center) && decoders == old(decoders)
      ensures ok <==> !wav && valid && sampleRate > 0.0 && exists i :: IsChannel(entries, i)
      ensures ok ==> 0 <= group < |groups| && IsWholePlan(entries, sampleRate / 1_000_000.0, groups)
      ensures ok ==> group == if old(group) < 0 then 0 else if old(group) < |groups| then old(group) else |groups| - 1
      ensures ok ==> channel == if IsChannel(entries, old(channel)) then old(channel) else -1
      ensures ok && channel == -1 ==> chosen == groups[group].channels && request == groups[group].center
      ensures ok && channel != -1 ==>
                chosen == [channel] && request == entries[channel].frequency + sampleRate / 1_000_000.0 * 0.04
      ensures ok ==> (forall k :: 0 <= k < |chosen| ==> chosen[k] < |entries|)
      ensures ok ==> InBand(entries, chosen, request, sampleRate / 1_000_000.0) && ArePresets(entries, chosen, presets)
      ensures ok && request <= 0.0 ==> center == old(center) && decoders == old(decoders)
      ensures ok && request > 0.0 && !running ==> center == request && decoders == old(decoders)
      ensures ok && request > 0.0 && running ==> center == tune(request)
      ensures ok && request > 0.0 && running && !ready ==> decoders == []
      ensures ok && request > 0.0 && running && ready ==>
                if decode && presets != [] then decoders == Kept(presets, center, sampleRate / 1_000_000.0)
                else multiset(decoders) == multiset(Kept(old(decoders), center, sampleRate / 1_000_000.0))
      ensures ok && request > 0.0 && Distance(tune(request), request) < sampleRate / 1_000_000.0 * 0.01 ==>
                Kept(presets, tune(request), sampleRate / 1_000_000.0) == presets
    {
      hide IsWholePlan, InSomeService, InBand, ArePresets;
      groups, chosen, request, presets := [], [], 0.0, [];
      if wav {
        return false, groups, chosen, request, presets;
      }
      var list := Groups(valid, entries, sampleRate);
      groups := list;
      if list == [] {
        return false, groups, chosen, request, presets;
      }
      var rate := sampleRate / 1_000_000.0;
      var indices, target := Choose(entries, list, rate);
      var channels := FindPresets(entries, indices);
      chosen, request, presets := indices, target, channels;
      TuneBandPlan(target, if decode && channels != [] then Some(channels) else None, wav, running, ready, rate, tune);
      if Distance(tune(target), target) < rate * 0.01 {
        PresetsInBand(entries, indices, target, tune(target), rate, channels);
      }
      ok := true;
    }

    // Lines 139-148.
    method Choose(entries: seq<Entry>, groups: seq<Group>, rate: real) returns (indices: seq<nat>, target: real)
      requires rate > 0.0 && groups != []
      requires forall g :: 0 <= g < |groups| ==> InSomeService(entries, rate, groups[g])
      modifies this`group, this`channel
      ensures group == if old(group) < 0 then 0 else if old(group) < |groups| then old(group) else |groups| - 1
      ensures channel == if IsChannel(entries, old(channel)) then old(channel) else -1
      ensures channel == -1 ==> indices == groups[group].channels && target == groups[group].center
      ensures channel != -1 ==> indices == [channel] && target == entries[channel].frequency + rate * 0.04
      ensures forall k :: 0 <= k < |indices| ==> indices[k] < |entries|
      ensures InBand(entries, indices, target, rate)
    {
      hide InSomeService;
      group := if group < 0 then 0 else if group < |groups| then group else |groups| - 1;
      indices, target := groups[group].channels, groups[group].center;
      GroupInBand(entries, rate, groups[group]);
      if IsChannel(entries, channel) {
        indices, target := [channel], entries[channel].frequency + rate * 0.04;
      } else {
        channel := -1;
      }
    }
  }

  lemma PresetsInBand(entries: seq<Entry>, channels: seq<nat>, request: real, center: real, rate: real, presets: seq<Preset>)
    requires forall k :: 0 <= k < |channels| ==> channels[k] < |entries|
    requires InBand(entries, channels, request, rate) && ArePresets(entries, channels, presets)
    requires Distance(center, request) < rate * 0.01
    ensures Kept(presets, center, rate) == presets
  {
    forall p | p in presets
      ensures Distance(p.frequency, center) < rate * 0.45
    {
      var k :| 0 <= k < |channels| && PresetOf(entries[channels[k]]) == p;
      assert Distance(entries[channels[k]].frequency, request) <= rate * 0.44;
    }
    AllKept(presets, center, rate);
  }

  // The groups of every service, as the band plan gives them.
  ghost predicate IsWholePlan(entries: seq<Entry>, rate: real, groups: seq<Group>) {
    exists services, parts {:trigger IsPlan(entries, rate, services, parts)} ::
      IsServiceOrder(entries, services) && IsPlan(entries, rate, services, parts) && groups == Joined(parts)
  }

  lemma PlanIsWhole(entries: seq<Entry>, rate: real, services: seq<string>, parts: seq<seq<Group>>)
    requires IsServiceOrder(entries, services) && IsPlan(entries, rate, services, parts)
    ensures IsWholePlan(entries, rate, Joined(parts))
  {}

  // The groups of a plan, with what is needed of them here.
  method Groups(valid: bool, entries: seq<Entry>, sampleRate: real)
      returns (groups: seq<Group>)
    ensures valid && sampleRate > 0.0 ==> IsWholePlan(entries, sampleRate / 1_000_000.0, groups)
    ensures groups != [] <==> valid && sampleRate > 0.0 && exists i :: IsChannel(entries, i)
    ensures forall g :: 0 <= g < |groups| ==> InSomeService(entries, sampleRate / 1_000_000.0, groups[g])
  {
    hide IsGroup, IsPlan, IsChannel, IsServiceOrder, Joined, Listed, IsWholePlan, InSomeService;
    ghost var services, parts;
    groups, services, parts := BandPlanGroups(valid, entries, sampleRate);
    if valid && sampleRate > 0.0 {
      PlanIsWhole(entries, sampleRate / 1_000_000.0, services, parts);
      PlanGroups(entries, sampleRate / 1_000_000.0, services, parts);
    }
  }

  // A plan has a group as soon as there is a channel.
  lemma PlanGroups(entries: seq<Entry>, rate: real, services: seq<string>, parts: seq<seq<Group>>)
    requires IsServiceOrder(entries, services) && IsPlan(entries, rate, services, parts)
    ensures Joined(parts) != [] <==> exists i :: IsChannel(entries, i)
    ensures forall g :: 0 <= g < |Joined(parts)| ==> InSomeService(entries, rate, Joined(parts)[g])
  {
    hide IsGroup, IsPlan, IsChannel, Joined, IsServiceOrder, OnlyOnce, Listed;
    PlanListsChannelsOnce(entries, rate, services, parts);
    EachInSomeService(entries, rate, services, parts);
    NonEmptyGroups(entries, rate, Joined(parts));
  }

  lemma EachInSomeService(entries: seq<Entry>, rate: real, services: seq<string>, parts: seq<seq<Group>>)
    requires IsServiceOrder(entries, services) && IsPlan(entries, rate, services, parts)
    ensures forall g :: 0 <= g < |Joined(parts)| ==> InSomeService(entries, rate, Joined(parts)[g])
  {
    hide IsGroup, IsPlan, Joined, IsServiceOrder, OnlyOnce, Listed;
    Distinguished(entries, services);
    JoinedListsOnce(entries, rate, services, parts);
  }

  lemma NotEmpty(entries: seq<Entry>, rate: real, group: Group)
    requires InSomeService(entries, rate, group)
    ensures group.channels != []
  {}

  lemma NonEmptyGroups(entries: seq<Entry>, rate: real, groups: seq<Group>)
    requires forall i :: Listed(groups, i) <==> IsChannel(entries, i)
    requires forall g :: 0 <= g < |groups| ==> InSomeService(entries, rate, groups[g])
    ensures groups != [] <==> exists i :: IsChannel(entries, i)
  {
    hide IsGroup, IsChannel;
    if groups != [] {
      assert InSomeService(entries, rate, groups[0]);
      var channels := groups[0].channels;
      NotEmpty(entries, rate, groups[0]);
      assert channels[0] in channels;
      assert Listed(groups, channels[0]);
    }
  }

  lemma Distinguished(entries: seq<Entry>, services: seq<string>)
    requires IsServiceOrder(entries, services)
    ensures forall j, k :: 0 <= j < k < |services| ==> services[j] != services[k]
  {}
}
