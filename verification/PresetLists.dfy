// The presets of running decoders, as DecoderManager::status() of src/decode/decoder_manager.cpp,
// lines 556-572, lists them: by frequency.

module PresetLists {
  import opened Values

  // Frequency in MHz and baud of one decoder.
  datatype Preset = Preset(frequency: real, baud: int)

  predicate IsByFrequency(presets: seq<Preset>) {
    forall j, k :: 0 <= j < k < |presets| ==> presets[j].frequency <= presets[k].frequency
  }

  // Decoders on one frequency may come in any order.
  method ByFrequency(presets: seq<Preset>) returns (list: seq<Preset>)
    ensures multiset(list) == multiset(presets) && IsByFrequency(list)
  {
    list := [];
    var n := 0;
    while n < |presets|
      invariant 0 <= n <= |presets| && multiset(list) == multiset(presets[..n]) && IsByFrequency(list)
    {
      assert presets[..n + 1] == presets[..n] + [presets[n]];
      list := Insert(list, presets[n]);
      n := n + 1;
    }
    assert presets[..n] == presets;
  }

  method Insert(list: seq<Preset>, p: Preset) returns (more: seq<Preset>)
    requires IsByFrequency(list)
    ensures multiset(more) == multiset(list) + multiset{p} && IsByFrequency(more)
  {
    var n := |list|;
    while n > 0 && list[n - 1].frequency > p.frequency
      invariant 0 <= n <= |list|
      invariant forall k :: n <= k < |list| ==> list[k].frequency >= p.frequency
    {
      n := n - 1;
    }
    InsertAt(list, n, p);
    more := list[..n] + [p] + list[n..];
  }

  lemma InsertAt(list: seq<Preset>, n: nat, p: Preset)
    requires IsByFrequency(list) && n <= |list| && (n > 0 ==> list[n - 1].frequency <= p.frequency)
    requires forall k :: n <= k < |list| ==> list[k].frequency >= p.frequency
    ensures multiset(list[..n] + [p] + list[n..]) == multiset(list) + multiset{p}
    ensures IsByFrequency(list[..n] + [p] + list[n..])
  {
    CountAt(list, n, p);
    InOrderAt(list, n, p);
  }

  lemma CountAt(list: seq<Preset>, n: nat, p: Preset)
    requires n <= |list|
    ensures multiset(list[..n] + [p] + list[n..]) == multiset(list) + multiset{p}
  {
    assert list == list[..n] + list[n..];
  }

  lemma InOrderAt(list: seq<Preset>, n: nat, p: Preset)
    requires IsByFrequency(list) && n <= |list| && (n > 0 ==> list[n - 1].frequency <= p.frequency)
    requires forall k :: n <= k < |list| ==> list[k].frequency >= p.frequency
    ensures IsByFrequency(list[..n] + [p] + list[n..])
  {
    var more := list[..n] + [p] + list[n..];
    forall j, k | 0 <= j < k < |more|
      ensures more[j].frequency <= more[k].frequency
    {
      var a, b := if j <= n then j else j - 1, if k <= n then k else k - 1;
      if j != n && k != n {
        assert more[j] == list[a] && more[k] == list[b];
      } else if k == n {
        assert more[j] == list[j] && more[k] == p;
        InOrder(list, j, n - 1);
      } else {
        assert more[j] == p && more[k] == list[b];
      }
    }
  }

  lemma InOrder(list: seq<Preset>, j: nat, k: nat)
    requires IsByFrequency(list) && j <= k < |list|
    ensures list[j].frequency <= list[k].frequency
  {}

  // The decoders that lie well inside the captured band.
  function Kept(presets: seq<Preset>, center: real, rate: real): (kept: seq<Preset>)
    ensures forall p :: p in kept <==> p in presets && Distance(p.frequency, center) < rate * 0.45
  {
    if presets == [] then []
    else
      var head, last := Kept(presets[..|presets| - 1], center, rate), presets[|presets| - 1];
      assert presets == presets[..|presets| - 1] + [last];
      if Distance(last.frequency, center) < rate * 0.45 then head + [last] else head
  }

  lemma KeptAppend(presets: seq<Preset>, p: Preset, center: real, rate: real)
    ensures Kept(presets + [p], center, rate)
         == Kept(presets, center, rate) + (if Distance(p.frequency, center) < rate * 0.45 then [p] else [])
  {
    assert (presets + [p])[..|presets|] == presets;
  }

  lemma {:induction false} AllKept(presets: seq<Preset>, center: real, rate: real)
    requires forall p :: p in presets ==> Distance(p.frequency, center) < rate * 0.45
    ensures Kept(presets, center, rate) == presets
  {
    if presets != [] {
      AllKept(presets[..|presets| - 1], center, rate);
    }
  }

  lemma {:induction false} KeptCount(presets: seq<Preset>, center: real, rate: real, p: Preset)
    ensures multiset(Kept(presets, center, rate))[p]
         == if Distance(p.frequency, center) < rate * 0.45 then multiset(presets)[p] else 0
  {
    hide Distance;
    if presets != [] {
      var head := presets[..|presets| - 1];
      assert presets == head + [presets[|presets| - 1]];
      KeptCount(head, center, rate, p);
    }
  }

  // What is kept does not depend on the order of the list.
  lemma KeptOfList(list: seq<Preset>, presets: seq<Preset>, center: real, rate: real)
    requires multiset(list) == multiset(presets)
    ensures multiset(Kept(list, center, rate)) == multiset(Kept(presets, center, rate))
  {
    hide Kept, Distance;
    forall p: Preset
      ensures multiset(Kept(list, center, rate))[p] == multiset(Kept(presets, center, rate))[p]
    {
      KeptCount(list, center, rate, p);
      KeptCount(presets, center, rate, p);
    }
  }
}
