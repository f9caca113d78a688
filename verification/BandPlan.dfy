// The channel groups of src/decode/band_plan.cpp, lines 100-155: services, windows, centres.
// Frequencies are in MHz, sample rates in Hz, both exact.

module BandPlan {
  import opened Values

  // frequency 0 is a broad allocation and never a channel; baud 0 is no decoder preset.
  datatype Entry = Entry(frequency: real, service: string, baud: int)

  datatype Group = Group(service: string, lo: real, hi: real, center: real, channels: seq<nat>)

  predicate IsChannel(entries: seq<Entry>, i: int) {
    0 <= i < |entries| && entries[i].frequency > 0.0
  }

  predicate IsChannelOf(entries: seq<Entry>, service: string, i: int) {
    IsChannel(entries, i) && entries[i].service == service
  }

  // ---- Centres -----------------------------------------------------------------

  predicate IsSorted(freqs: seq<real>) {
    forall i, j :: 0 <= i < j < |freqs| ==> freqs[i] <= freqs[j]
  }

  // At least `guard` away from every carrier.
  predicate Clears(freqs: seq<real>, guard: real, c: real) {
    forall k :: 0 <= k < |freqs| ==> Distance(c, freqs[k]) >= guard
  }

  // How far a carrier is kept from the centre: 10 kHz, or 2% of the rate if that is less.
  function Guard(rate: real): (guard: real)
    ensures guard <= 0.010 && guard <= rate * 0.02 && (guard == 0.010 || guard == rate * 0.02)
  {
    Min(0.010, rate * 0.02)
  }

  lemma GuardIsPositive(rate: real)
    requires rate > 0.0
    ensures Guard(rate) > 0.0
  {}

  // As far above the lowest carrier as below the highest.
  function Midpoint(freqs: seq<real>): (mid: real)
    requires freqs != []
    ensures mid - freqs[0] == freqs[|freqs| - 1] - mid
  {
    (freqs[0] + freqs[|freqs| - 1]) * 0.5
  }

  // Every carrier stays within 44% of the rate.
  predicate InWindow(freqs: seq<real>, rate: real, c: real)
    requires freqs != []
  {
    freqs[|freqs| - 1] - rate * 0.44 <= c <= freqs[0] + rate * 0.44
  }

  const TOLERANCE := 0.000_000_001

  // What a centre is for: all carriers in the pass band, none on it, as near the middle as can be.
  ghost predicate IsCenter(freqs: seq<real>, rate: real, center: real)
    requires freqs != []
  {
    var guard, mid := Guard(rate), Midpoint(freqs);
    && freqs[|freqs| - 1] - rate * 0.44 <= center <= freqs[0] + rate * 0.44
    && (Clears(freqs, guard, mid) ==> center == mid)
    && (Clears(freqs, guard - TOLERANCE, center) || center == mid)
    && forall c: real :: freqs[|freqs| - 1] - rate * 0.44 <= c <= freqs[0] + rate * 0.44 && Clears(freqs, guard, c) ==>
         Distance(center, mid) <= Distance(c, mid) && Clears(freqs, guard - TOLERANCE, center)
  }

  lemma ClearsAppend(freqs: seq<real>, f: real, guard: real, c: real)
    ensures Clears(freqs + [f], guard, c) <==> Clears(freqs, guard, c) && Distance(c, f) >= guard
  {
    hide Distance;
    var more := freqs + [f];
    assert more[|freqs|] == f;
    assert forall k :: 0 <= k < |freqs| ==> more[k] == freqs[k];
  }

  // The distance to the nearest carrier, as far as guards up to the rate can tell.
  ghost predicate Measures(freqs: seq<real>, rate: real, c: real, distance: real) {
    forall guard: real :: guard <= rate ==> (distance >= guard <==> Clears(freqs, guard, c))
  }

  lemma MeasuresAppend(freqs: seq<real>, rate: real, c: real, distance: real, f: real)
    requires Measures(freqs, rate, c, distance)
    ensures Measures(freqs + [f], rate, c, Min(distance, Distance(c, f)))
  {
    hide Clears, Distance;
    forall guard: real {:trigger Clears(freqs + [f], guard, c)} | guard <= rate
      ensures Min(distance, Distance(c, f)) >= guard <==> Clears(freqs + [f], guard, c)
    {
      ClearsAppend(freqs, f, guard, c);
    }
  }

  // The lambda `clearance`, lines 126-131.
  method Clearance(freqs: seq<real>, rate: real, c: real) returns (distance: real)
    ensures Measures(freqs, rate, c, distance)
  {
    hide Distance;
    distance := rate;
    var i := 0;
    while i < |freqs|
      invariant 0 <= i <= |freqs| && Measures(freqs[..i], rate, c, distance)
    {
      MeasuresAppend(freqs[..i], rate, c, distance, freqs[i]);
      assert freqs[..i + 1] == freqs[..i] + [freqs[i]];
      distance := Min(distance, Distance(c, freqs[i]));
      i := i + 1;
    }
    assert freqs[..i] == freqs;
  }

  // Candidate 2 k is guard below carrier k, candidate 2 k + 1 guard above it.
  function Candidate(freqs: seq<real>, guard: real, n: nat): real
    requires n < 2 * |freqs|
  {
    if n % 2 == 0 then freqs[n / 2] - guard else freqs[n / 2] + guard
  }

  predicate Accepted(freqs: seq<real>, rate: real, c: real)
    requires freqs != []
  {
    InWindow(freqs, rate, c) && Clears(freqs, Guard(rate) - TOLERANCE, c)
  }

  // Candidate b is the accepted one nearest to the midpoint, the first of several.
  ghost predicate IsFirstBest(freqs: seq<real>, rate: real, n: nat, b: nat, center: real)
    requires freqs != [] && n <= 2 * |freqs|
  {
    var mid := Midpoint(freqs);
    && b < n && center == Candidate(freqs, Guard(rate), b) && Accepted(freqs, rate, center)
    && forall k: nat :: k < n && Accepted(freqs, rate, Candidate(freqs, Guard(rate), k)) ==>
         var shift := Distance(Candidate(freqs, Guard(rate), k), mid);
         Distance(center, mid) <= shift && (k < b ==> Distance(center, mid) < shift)
  }

  // Which centre it is: the midpoint if it is clear or no candidate is accepted, else the first
  // of the nearest.
  ghost predicate IsFirstCenter(freqs: seq<real>, rate: real, center: real)
    requires freqs != []
  {
    if Clears(freqs, Guard(rate), Midpoint(freqs))
       || forall k: nat :: k < 2 * |freqs| ==> !Accepted(freqs, rate, Candidate(freqs, Guard(rate), k))
    then center == Midpoint(freqs)
    else exists b :: IsFirstBest(freqs, rate, 2 * |freqs|, b, center)
  }

  lemma AcceptedIsNear(freqs: seq<real>, rate: real, c: real)
    requires rate > 0.0 && freqs != [] && IsSorted(freqs) && Accepted(freqs, rate, c)
    ensures Distance(c, Midpoint(freqs)) < rate
  {
    hide Clears;
    assert freqs[0] <= freqs[|freqs| - 1];
  }

  // The best of the first n candidates; the midpoint as long as none is accepted.
  ghost predicate BestOf(freqs: seq<real>, rate: real, n: nat, center: real, bestShift: real)
    requires freqs != [] && n <= 2 * |freqs|
  {
    var mid := Midpoint(freqs);
    && bestShift <= rate
    && (if bestShift == rate then center == mid
        else bestShift == Distance(center, mid) && exists b :: IsFirstBest(freqs, rate, n, b, center))
    && forall k: nat :: k < n && Accepted(freqs, rate, Candidate(freqs, Guard(rate), k)) ==>
         bestShift <= Distance(Candidate(freqs, Guard(rate), k), mid)
  }

  // The last carrier below c, when c is right of the midpoint and a carrier sits on the midpoint:
  // guard above it is clear as well, and no further out.
  lemma {:induction false} LastBelow(freqs: seq<real>, c: real, g: nat) returns (k: nat)
    requires IsSorted(freqs) && g < |freqs| && freqs[g] < c
    ensures g <= k < |freqs| && freqs[k] < c
    ensures forall i :: k < i < |freqs| ==> freqs[i] >= c
    decreases |freqs| - g
  {
    if g + 1 < |freqs| && freqs[g + 1] < c {
      k := LastBelow(freqs, c, g + 1);
    } else {
      k := g;
    }
  }

  lemma {:induction false} FirstAbove(freqs: seq<real>, c: real, g: nat) returns (k: nat)
    requires IsSorted(freqs) && g < |freqs| && freqs[g] > c
    ensures k <= g && freqs[k] > c
    ensures forall i :: 0 <= i < k ==> freqs[i] <= c
    decreases g
  {
    if g > 0 && freqs[g - 1] > c {
      k := FirstAbove(freqs, c, g - 1);
    } else {
      k := g;
    }
  }

  // Whatever clear point there is, some candidate is clear too and no further from the midpoint.
  lemma CandidatesSuffice(freqs: seq<real>, rate: real, c: real) returns (n: nat)
    requires rate > 0.0 && freqs != [] && IsSorted(freqs) && InWindow(freqs, rate, Midpoint(freqs))
    requires !Clears(freqs, Guard(rate), Midpoint(freqs))
    requires InWindow(freqs, rate, c) && Clears(freqs, Guard(rate), c)
    ensures n < 2 * |freqs| && Accepted(freqs, rate, Candidate(freqs, Guard(rate), n))
    ensures Distance(Candidate(freqs, Guard(rate), n), Midpoint(freqs)) <= Distance(c, Midpoint(freqs))
  {
    hide Guard, Midpoint, Candidate, IsSorted, Clears;
    var guard, mid := Guard(rate), Midpoint(freqs);
    GuardIsPositive(rate);
    var g := CarrierInTheWay(freqs, guard, mid);
    if c > mid {
      var k := RightCandidate(freqs, guard, mid, c, g);
      n := 2 * k + 1;
      CandidateAt(freqs, guard, k);
      ClearsLess(freqs, guard, Candidate(freqs, guard, n));
    } else {
      var k := LeftCandidate(freqs, guard, mid, c, g);
      n := 2 * k;
      CandidateAt(freqs, guard, k);
      ClearsLess(freqs, guard, Candidate(freqs, guard, n));
    }
  }

  lemma CarrierInTheWay(freqs: seq<real>, guard: real, mid: real) returns (g: nat)
    requires !Clears(freqs, guard, mid)
    ensures g < |freqs| && Distance(mid, freqs[g]) < guard
  {
    g :| 0 <= g < |freqs| && Distance(mid, freqs[g]) < guard;
  }

  lemma CandidateAt(freqs: seq<real>, guard: real, k: nat)
    requires k < |freqs|
    ensures Candidate(freqs, guard, 2 * k) == freqs[k] - guard
    ensures Candidate(freqs, guard, 2 * k + 1) == freqs[k] + guard
  {}

  lemma ClearsLess(freqs: seq<real>, guard: real, c: real)
    requires Clears(freqs, guard, c)
    ensures Clears(freqs, guard - TOLERANCE, c)
  {}

  lemma RightCandidate(freqs: seq<real>, guard: real, mid: real, c: real, g: nat) returns (k: nat)
    requires IsSorted(freqs) && guard > 0.0 && g < |freqs| && Distance(mid, freqs[g]) < guard
    requires mid < c && Clears(freqs, guard, c)
    ensures k < |freqs| && mid < freqs[k] + guard <= c && Clears(freqs, guard, freqs[k] + guard)
  {
    assert Distance(c, freqs[g]) >= guard;
    k := LastBelow(freqs, c, g);
    assert Distance(c, freqs[k]) >= guard;
    forall i | 0 <= i < |freqs|
      ensures Distance(freqs[k] + guard, freqs[i]) >= guard
    {
      assert Distance(c, freqs[i]) >= guard;
    }
  }

  lemma LeftCandidate(freqs: seq<real>, guard: real, mid: real, c: real, g: nat) returns (k: nat)
    requires IsSorted(freqs) && guard > 0.0 && g < |freqs| && Distance(mid, freqs[g]) < guard
    requires c <= mid && Clears(freqs, guard, c)
    ensures k < |freqs| && c <= freqs[k] - guard < mid && Clears(freqs, guard, freqs[k] - guard)
  {
    assert Distance(c, freqs[g]) >= guard;
    k := FirstAbove(freqs, c, g);
    assert Distance(c, freqs[k]) >= guard;
    forall i | 0 <= i < |freqs|
      ensures Distance(freqs[k] - guard, freqs[i]) >= guard
    {
      assert Distance(c, freqs[i]) >= guard;
    }
  }

  lemma NoneYet(freqs: seq<real>, rate: real)
    requires freqs != []
    ensures BestOf(freqs, rate, 0, Midpoint(freqs), rate)
  {}

  lemma BestNext(freqs: seq<real>, rate: real, n: nat, center: real, bestShift: real, candidate: real)
    requires freqs != [] && n < 2 * |freqs| && candidate == Candidate(freqs, Guard(rate), n)
    requires BestOf(freqs, rate, n, center, bestShift)
    ensures var shift := Distance(candidate, Midpoint(freqs));
      if Accepted(freqs, rate, candidate) && shift < bestShift then BestOf(freqs, rate, n + 1, candidate, shift)
      else BestOf(freqs, rate, n + 1, center, bestShift)
  {
    hide Candidate, Accepted, Guard, Midpoint, Distance;
    var shift := Distance(candidate, Midpoint(freqs));
    if Accepted(freqs, rate, candidate) && shift < bestShift {
      assert IsFirstBest(freqs, rate, n + 1, n, candidate);
    } else if bestShift != rate {
      var b :| IsFirstBest(freqs, rate, n, b, center);
      assert IsFirstBest(freqs, rate, n + 1, b, center);
    }
  }

  // Lines 122-147.
  method ChooseCenter(freqs: seq<real>, rate: real) returns (center: real)
    requires rate > 0.0 && freqs != [] && IsSorted(freqs) && freqs[|freqs| - 1] - freqs[0] <= rate * 0.8
    ensures IsCenter(freqs, rate, center) && IsFirstCenter(freqs, rate, center)
  {
    hide Clears, BestOf, Distance, Candidate, IsFirstBest;
    center := Midpoint(freqs);
    var guard := Guard(rate);
    var distance := Clearance(freqs, rate, center);
    if distance < guard {
      var bestShift := rate;
      var nominal := center;
      var n := 0;
      NoneYet(freqs, rate);
      while n < 2 * |freqs|
        invariant 0 <= n <= 2 * |freqs|
        invariant BestOf(freqs, rate, n, center, bestShift)
      {
        var candidate := Candidate(freqs, guard, n);
        var shift := Distance(candidate, nominal);
        var clear := Clearance(freqs, rate, candidate);
        BestNext(freqs, rate, n, center, bestShift, candidate);
        if InWindow(freqs, rate, candidate) && clear >= guard - TOLERANCE && shift < bestShift {
          center, bestShift := candidate, shift;
        }
        n := n + 1;
      }
      BestIsCenter(freqs, rate, center, bestShift);
    }
  }

  lemma BestIsCenter(freqs: seq<real>, rate: real, center: real, bestShift: real)
    requires rate > 0.0 && freqs != [] && IsSorted(freqs) && freqs[|freqs| - 1] - freqs[0] <= rate * 0.8
    requires !Clears(freqs, Guard(rate), Midpoint(freqs))
    requires BestOf(freqs, rate, 2 * |freqs|, center, bestShift)
    ensures IsCenter(freqs, rate, center) && IsFirstCenter(freqs, rate, center)
  {
    BestIsFirst(freqs, rate, center, bestShift);
    forall c: real | freqs[|freqs| - 1] - rate * 0.44 <= c <= freqs[0] + rate * 0.44 && Clears(freqs, Guard(rate), c)
      ensures Distance(center, Midpoint(freqs)) <= Distance(c, Midpoint(freqs))
      ensures Clears(freqs, Guard(rate) - TOLERANCE, center)
    {
      var n := CandidatesSuffice(freqs, rate, c);
    }
  }

  lemma BestIsFirst(freqs: seq<real>, rate: real, center: real, bestShift: real)
    requires rate > 0.0 && freqs != [] && IsSorted(freqs) && !Clears(freqs, Guard(rate), Midpoint(freqs))
    requires BestOf(freqs, rate, 2 * |freqs|, center, bestShift)
    ensures IsFirstCenter(freqs, rate, center)
    ensures bestShift != rate ==> Accepted(freqs, rate, center)
  {
    hide Candidate, Accepted, Guard, Midpoint, Distance, Clears;
    if bestShift == rate {
      forall k: nat | k < 2 * |freqs|
        ensures !Accepted(freqs, rate, Candidate(freqs, Guard(rate), k))
      {
        if Accepted(freqs, rate, Candidate(freqs, Guard(rate), k)) {
          AcceptedIsNear(freqs, rate, Candidate(freqs, Guard(rate), k));
          assert false;
        }
      }
    } else {
      var b :| IsFirstBest(freqs, rate, 2 * |freqs|, b, center);
      assert Accepted(freqs, rate, Candidate(freqs, Guard(rate), b));
    }
  }

  // ---- Windows -----------------------------------------------------------------

  function Frequencies(entries: seq<Entry>, order: seq<nat>): (freqs: seq<real>)
    requires forall k :: 0 <= k < |order| ==> order[k] < |entries|
    ensures |freqs| == |order| && forall k :: 0 <= k < |order| ==> freqs[k] == entries[order[k]].frequency
  {
    seq(|order|, k requires 0 <= k < |order| => entries[order[k]].frequency)
  }

  // The channels of one service, each once, in order of frequency.
  ghost predicate IsOrder(entries: seq<Entry>, service: string, order: seq<nat>) {
    && (forall k :: 0 <= k < |order| ==> IsChannelOf(entries, service, order[k]))
    && (forall i :: IsChannelOf(entries, service, i) ==> i in order)
    && (forall j, k :: 0 <= j < k < |order| ==> order[j] != order[k])
    && IsSorted(Frequencies(entries, order))
  }

  method FindChannels(entries: seq<Entry>, service: string) returns (indices: seq<nat>)
    ensures forall k :: 0 <= k < |indices| ==> IsChannelOf(entries, service, indices[k])
    ensures forall i :: IsChannelOf(entries, service, i) ==> i in indices
    ensures forall j, k :: 0 <= j < k < |indices| ==> indices[j] < indices[k]
  {
    indices := [];
    for i := 0 to |entries|
      invariant forall k :: 0 <= k < |indices| ==> indices[k] < i && IsChannelOf(entries, service, indices[k])
      invariant forall n :: n < i && IsChannelOf(entries, service, n) ==> n in indices
      invariant forall j, k :: 0 <= j < k < |indices| ==> indices[j] < indices[k]
    {
      if entries[i].frequency > 0.0 && entries[i].service == service {
        indices := indices + [i];
      }
    }
  }

  // Lines 113-116. Channels on one frequency may come in any order; nothing below depends on it.
  method SortedChannels(entries: seq<Entry>, service: string) returns (order: seq<nat>)
    ensures IsOrder(entries, service, order)
  {
    hide InOrder, Distinct;
    var indices := FindChannels(entries, service);
    order := [];
    var n := 0;
    NothingInOrder(entries);
    while n < |indices|
      invariant 0 <= n <= |indices|
      invariant forall i :: i in order <==> i in indices[..n]
      invariant Distinct(order) && InOrder(entries, order)
    {
      assert indices[..n + 1] == indices[..n] + [indices[n]];
      assert indices[n] !in indices[..n];
      order := Insert(entries, order, indices[n]);
      n := n + 1;
    }
    assert indices[..n] == indices;
    forall k | 0 <= k < |order|
      ensures IsChannelOf(entries, service, order[k])
    {
      assert order[k] in order;
    }
    AreInOrder(entries, service, order);
  }

  ghost predicate InOrder(entries: seq<Entry>, order: seq<nat>) {
    (forall k :: 0 <= k < |order| ==> order[k] < |entries|) && IsSorted(Frequencies(entries, order))
  }

  ghost predicate Distinct(channels: seq<nat>) {
    forall j, k :: 0 <= j < k < |channels| ==> channels[j] != channels[k]
  }

  lemma NothingInOrder(entries: seq<Entry>)
    ensures InOrder(entries, []) && Distinct([])
  {}

  lemma AreInOrder(entries: seq<Entry>, service: string, order: seq<nat>)
    requires InOrder(entries, order) && Distinct(order)
    requires forall k :: 0 <= k < |order| ==> IsChannelOf(entries, service, order[k])
    requires forall i :: IsChannelOf(entries, service, i) ==> i in order
    ensures IsOrder(entries, service, order)
  {}

  method Insert(entries: seq<Entry>, order: seq<nat>, i: nat) returns (more: seq<nat>)
    requires i < |entries| && i !in order && Distinct(order) && InOrder(entries, order)
    ensures Distinct(more) && InOrder(entries, more)
    ensures forall n :: n in more <==> n == i || n in order
  {
    var p := |order|;
    while p > 0 && entries[order[p - 1]].frequency > entries[i].frequency
      invariant 0 <= p <= |order|
      invariant forall k :: p <= k < |order| ==> entries[order[k]].frequency >= entries[i].frequency
    {
      p := p - 1;
    }
    InsertElements(order, p, i);
    InsertInOrder(entries, order, p, i);
    more := order[..p] + [i] + order[p..];
  }

  lemma InsertElements(order: seq<nat>, p: nat, i: nat)
    requires p <= |order| && i !in order && Distinct(order)
    ensures Distinct(order[..p] + [i] + order[p..])
    ensures forall n :: n in order[..p] + [i] + order[p..] <==> n == i || n in order
  {
    assert order == order[..p] + order[p..];
    var more := order[..p] + [i] + order[p..];
    forall j, k | 0 <= j < k < |more|
      ensures more[j] != more[k]
    {
      if j != p && k != p {
        DistinctAt(order, if j < p then j else j - 1, if k < p then k else k - 1);
      }
    }
  }

  lemma DistinctAt(order: seq<nat>, j: nat, k: nat)
    requires Distinct(order) && j < k < |order|
    ensures order[j] != order[k]
  {}

  lemma InsertInOrder(entries: seq<Entry>, order: seq<nat>, p: nat, i: nat)
    requires i < |entries| && p <= |order| && InOrder(entries, order)
    requires p > 0 ==> entries[order[p - 1]].frequency <= entries[i].frequency
    requires forall k :: p <= k < |order| ==> entries[order[k]].frequency >= entries[i].frequency
    ensures InOrder(entries, order[..p] + [i] + order[p..])
  {
    hide IsSorted;
    var freqs, head, tail := Frequencies(entries, order), order[..p], order[p..];
    InsertSorted(freqs, p, entries[i].frequency);
    assert Frequencies(entries, head) == freqs[..p];
    assert Frequencies(entries, tail) == freqs[p..];
    assert Frequencies(entries, [i]) == [entries[i].frequency];
    JoinFrequencies(entries, head, [i]);
    JoinFrequencies(entries, head + [i], tail);
  }

  lemma JoinFrequencies(entries: seq<Entry>, a: seq<nat>, b: seq<nat>)
    requires forall k :: 0 <= k < |a| ==> a[k] < |entries|
    requires forall k :: 0 <= k < |b| ==> b[k] < |entries|
    ensures forall k :: 0 <= k < |a + b| ==> (a + b)[k] < |entries|
    ensures Frequencies(entries, a + b) == Frequencies(entries, a) + Frequencies(entries, b)
  {}

  lemma InsertSorted(freqs: seq<real>, p: nat, f: real)
    requires IsSorted(freqs) && p <= |freqs| && (p > 0 ==> freqs[p - 1] <= f)
    requires forall k :: p <= k < |freqs| ==> freqs[k] >= f
    ensures IsSorted(freqs[..p] + [f] + freqs[p..])
  {
    assert forall k :: 0 <= k < p ==> freqs[k] <= f;
  }

  ghost predicate Listed(groups: seq<Group>, i: int) {
    exists g :: 0 <= g < |groups| && i in groups[g].channels
  }

  // No channel stands in two places.
  ghost predicate OnlyOnce(groups: seq<Group>) {
    && (forall g, h :: 0 <= g < h < |groups| ==> forall i :: i in groups[g].channels ==> i !in groups[h].channels)
    && (forall g :: 0 <= g < |groups| ==> Distinct(groups[g].channels))
  }

  // A window of one service, with the rate in MHz.
  ghost predicate IsGroup(entries: seq<Entry>, service: string, rate: real, group: Group) {
    && group.channels != [] && group.service == (if service == "" then "Channels" else service)
    && (forall k :: 0 <= k < |group.channels| ==> IsChannelOf(entries, service, group.channels[k]))
    && var freqs := Frequencies(entries, group.channels);
    && IsSorted(freqs) && group.lo == freqs[0] && group.hi == freqs[|freqs| - 1]
    && group.hi - group.lo <= rate * 0.8 && IsCenter(freqs, rate, group.center) && IsFirstCenter(freqs, rate, group.center)
  }

  // Each window starts beyond the reach of the one before it.
  ghost predicate Greedy(groups: seq<Group>, rate: real) {
    forall g, h :: 0 <= g < h < |groups| ==> groups[h].lo - groups[g].lo > rate * 0.8
  }

  ghost predicate IsServicePlan(entries: seq<Entry>, service: string, rate: real, groups: seq<Group>) {
    && (forall g :: 0 <= g < |groups| ==> IsGroup(entries, service, rate, groups[g]))
    && Greedy(groups, rate) && OnlyOnce(groups)
    && forall i :: IsChannelOf(entries, service, i) ==> Listed(groups, i)
  }

  // Windows over the first `begin` channels, all starting more than a width before the next one.
  ghost predicate CoversTo(entries: seq<Entry>, service: string, rate: real, order: seq<nat>, begin: nat, groups: seq<Group>)
    requires begin <= |order| && forall k :: 0 <= k < |order| ==> order[k] < |entries|
  {
    && (forall g :: 0 <= g < |groups| ==> IsGroup(entries, service, rate, groups[g]))
    && Greedy(groups, rate) && OnlyOnce(groups)
    && (forall i :: i in order[..begin] ==> Listed(groups, i))
    && (forall g, i :: 0 <= g < |groups| && i in groups[g].channels ==> i in order[..begin])
    && (begin < |order| ==> forall g :: 0 <= g < |groups| ==>
          entries[order[begin]].frequency - groups[g].lo > rate * 0.8)
  }

  lemma NoGroups(rate: real)
    ensures Greedy([], rate) && OnlyOnce([])
  {}

  lemma AllCovered(entries: seq<Entry>, service: string, rate: real, order: seq<nat>, groups: seq<Group>)
    requires IsOrder(entries, service, order) && CoversTo(entries, service, rate, order, |order|, groups)
    ensures IsServicePlan(entries, service, rate, groups)
  {
    hide IsGroup;
    assert order[..|order|] == order;
  }

  // Lines 113-152 for one service.
  method ServiceGroups(entries: seq<Entry>, service: string, rate: real) returns (groups: seq<Group>)
    requires rate > 0.0
    ensures IsServicePlan(entries, service, rate, groups)
  {
    hide IsCenter, IsFirstCenter, OnlyOnce, Greedy, IsServicePlan;
    var order := SortedChannels(entries, service);
    groups := [];
    var begin := 0;
    NoGroups(rate);
    while begin < |order|
      invariant 0 <= begin <= |order|
      invariant CoversTo(entries, service, rate, order, begin, groups)
    {
      var end := begin + 1;
      var lo := entries[order[begin]].frequency;
      while end < |order| && entries[order[end]].frequency - lo <= rate * 0.8
        invariant begin < end <= |order|
        invariant entries[order[end - 1]].frequency - lo <= rate * 0.8
      {
        end := end + 1;
      }
      var group := MakeGroup(entries, service, rate, order, begin, end);
      CoverMore(entries, service, rate, order, begin, end, groups, group);
      groups := groups + [group];
      begin := end;
    }
    assert order[..begin] == order;
    AllCovered(entries, service, rate, order, groups);
  }

  method MakeGroup(entries: seq<Entry>, service: string, rate: real, order: seq<nat>, begin: nat, end: nat)
      returns (group: Group)
    requires rate > 0.0 && IsOrder(entries, service, order) && begin < end <= |order|
    requires entries[order[end - 1]].frequency - entries[order[begin]].frequency <= rate * 0.8
    ensures IsGroup(entries, service, rate, group) && group.channels == order[begin..end]
    ensures group.lo == entries[order[begin]].frequency
  {
    hide IsCenter, IsFirstCenter, IsOrder, Frequencies, IsSorted, IsChannelOf, IsChannel;
    var channels := order[begin..end];
    SliceInOrder(entries, service, order, begin, end);
    var freqs := Frequencies(entries, channels);
    var center := ChooseCenter(freqs, rate);
    group := Group(if service == "" then "Channels" else service, freqs[0], freqs[|freqs| - 1], center, channels);
  }

  lemma SliceInOrder(entries: seq<Entry>, service: string, order: seq<nat>, begin: nat, end: nat)
    requires IsOrder(entries, service, order) && begin < end <= |order|
    ensures forall k :: 0 <= k < |order[begin..end]| ==> IsChannelOf(entries, service, order[begin..end][k])
    ensures forall k :: 0 <= k < |order[begin..end]| ==> order[begin..end][k] < |entries|
    ensures order[begin] < |entries| && order[end - 1] < |entries|
    ensures var freqs := Frequencies(entries, order[begin..end]);
      && IsSorted(freqs) && |freqs| == end - begin && freqs[0] == entries[order[begin]].frequency
      && freqs[end - begin - 1] == entries[order[end - 1]].frequency
  {
    assert Frequencies(entries, order[begin..end]) == Frequencies(entries, order)[begin..end];
  }

  lemma ListedInMore(groups: seq<Group>, group: Group)
    ensures forall i :: Listed(groups, i) || i in group.channels ==> Listed(groups + [group], i)
  {
    var more := groups + [group];
    forall i | Listed(groups, i) || i in group.channels
      ensures Listed(more, i)
    {
      if i in group.channels {
        assert i in more[|groups|].channels;
      } else {
        var g :| 0 <= g < |groups| && i in groups[g].channels;
        assert more[g] == groups[g];
      }
    }
  }

  lemma OnlyOnceMore(groups: seq<Group>, group: Group)
    requires OnlyOnce(groups) && Distinct(group.channels)
    requires forall g, i :: 0 <= g < |groups| && i in groups[g].channels ==> i !in group.channels
    ensures OnlyOnce(groups + [group])
  {}

  // A piece of an order holds what is not before it, and ends at or below what is behind.
  lemma PieceOfOrder(entries: seq<Entry>, service: string, order: seq<nat>, begin: nat, end: nat)
    requires IsOrder(entries, service, order) && begin < end <= |order|
    ensures order[..end] == order[..begin] + order[begin..end] && Distinct(order[begin..end])
    ensures forall i :: i in order[..begin] ==> i !in order[begin..end]
    ensures forall k :: 0 <= k < |order| ==> order[k] < |entries|
    ensures end < |order| ==> entries[order[begin]].frequency <= entries[order[end]].frequency
  {
    if end < |order| {
      assert Frequencies(entries, order)[begin] <= Frequencies(entries, order)[end];
    }
  }

  lemma CoverMore(entries: seq<Entry>, service: string, rate: real, order: seq<nat>, begin: nat, end: nat,
        groups: seq<Group>, group: Group)
    requires rate > 0.0 && IsOrder(entries, service, order) && begin < end <= |order|
    requires CoversTo(entries, service, rate, order, begin, groups)
    requires IsGroup(entries, service, rate, group) && group.channels == order[begin..end]
    requires group.lo == entries[order[begin]].frequency
    requires end < |order| ==> entries[order[end]].frequency - group.lo > rate * 0.8
    ensures CoversTo(entries, service, rate, order, end, groups + [group])
  {
    hide IsGroup, Listed, OnlyOnce, Distinct, IsOrder;
    PieceOfOrder(entries, service, order, begin, end);
    var more := groups + [group];
    assert more[|groups|] == group;
    assert forall g :: 0 <= g < |groups| ==> more[g] == groups[g];
    ListedInMore(groups, group);
    OnlyOnceMore(groups, group);
  }

  // ---- Fewest windows ----------------------------------------------------------

  // Window w reaches from w to w + width.
  predicate Holds(w: real, width: real, f: real) {
    w <= f <= w + width
  }

  predicate Held(windows: seq<real>, width: real, f: real) {
    exists k :: 0 <= k < |windows| && Holds(windows[k], width, f)
  }

  // Starts more than a width apart need a window each, however the windows are laid.
  lemma {:induction false} PointsNeedWindows(points: seq<real>, width: real, windows: seq<real>)
    requires forall g, h :: 0 <= g < h < |points| ==> points[h] - points[g] > width
    requires forall g :: 0 <= g < |points| ==> Held(windows, width, points[g])
    ensures |points| <= |windows|
    decreases |points|
  {
    if points != [] {
      var last := |points| - 1;
      var k :| 0 <= k < |windows| && Holds(windows[k], width, points[last]);
      var rest := windows[..k] + windows[k + 1..];
      forall g | 0 <= g < last
        ensures Held(rest, width, points[..last][g])
      {
        var j :| 0 <= j < |windows| && Holds(windows[j], width, points[g]);
        assert j != k;
        assert rest[if j < k then j else j - 1] == windows[j];
      }
      PointsNeedWindows(points[..last], width, rest);
    }
  }

  // Windows that together hold every channel of a service.
  ghost predicate IsCover(entries: seq<Entry>, service: string, width: real, windows: seq<real>) {
    forall i :: IsChannelOf(entries, service, i) ==> Held(windows, width, entries[i].frequency)
  }

  lemma FewestWindows(entries: seq<Entry>, service: string, rate: real, groups: seq<Group>, windows: seq<real>)
    requires IsServicePlan(entries, service, rate, groups) && IsCover(entries, service, rate * 0.8, windows)
    ensures |groups| <= |windows|
  {
    hide IsCenter, IsFirstCenter;
    var starts := seq(|groups|, g requires 0 <= g < |groups| => groups[g].lo);
    forall g | 0 <= g < |groups|
      ensures Held(windows, rate * 0.8, starts[g])
    {
      assert IsGroup(entries, service, rate, groups[g]);
      assert IsChannelOf(entries, service, groups[g].channels[0]);
    }
    PointsNeedWindows(starts, rate * 0.8, windows);
  }

  // ---- Services and the whole plan ---------------------------------------------

  ghost predicate HasChannel(entries: seq<Entry>, service: string) {
    exists i :: IsChannelOf(entries, service, i)
  }

  const PREFERRED: seq<string> := ["Aero data", "Aero voice", "STD-C"]

  // The preferred services that have a channel, in that order.
  ghost function Present(entries: seq<Entry>, names: seq<string>): (services: seq<string>)
    ensures forall s :: s in services <==> s in names && HasChannel(entries, s)
  {
    if names == [] then []
    else
      var head, last := Present(entries, names[..|names| - 1]), names[|names| - 1];
      assert names == names[..|names| - 1] + [last];
      if HasChannel(entries, last) then head + [last] else head
  }

  // a has a channel before any channel of b.
  ghost predicate AppearsBefore(entries: seq<Entry>, a: string, b: string) {
    forall i :: IsChannelOf(entries, b, i) ==> Seen(entries, a, i)
  }

  ghost predicate Seen(entries: seq<Entry>, service: string, i: int) {
    exists j :: j < i && IsChannelOf(entries, service, j)
  }

  // Every service with a channel once: the preferred ones, then the others as they appear.
  ghost predicate IsServiceOrder(entries: seq<Entry>, services: seq<string>) {
    && (forall s :: s in services <==> HasChannel(entries, s))
    && (forall j, k :: 0 <= j < k < |services| ==> services[j] != services[k])
    && Present(entries, PREFERRED) <= services
    && forall j, k :: |Present(entries, PREFERRED)| <= j < k < |services| ==>
         AppearsBefore(entries, services[j], services[k])
  }

  // Lines 103-107.
  method PreferredServices(entries: seq<Entry>) returns (services: seq<string>)
    ensures services == Present(entries, PREFERRED)
    ensures forall j, k :: 0 <= j < k < |services| ==> services[j] != services[k]
  {
    services := [];
    var n := 0;
    while n < |PREFERRED|
      invariant 0 <= n <= |PREFERRED| && services == Present(entries, PREFERRED[..n])
      invariant forall j, k :: 0 <= j < k < |services| ==> services[j] != services[k]
    {
      var found := false;
      var i := 0;
      while i < |entries| && !found
        invariant 0 <= i <= |entries|
        invariant found ==> HasChannel(entries, PREFERRED[n])
        invariant !found ==> forall k :: k < i ==> !IsChannelOf(entries, PREFERRED[n], k)
      {
        if entries[i].frequency > 0.0 && entries[i].service == PREFERRED[n] {
          assert IsChannelOf(entries, PREFERRED[n], i);
          found := true;
        }
        i := i + 1;
      }
      assert PREFERRED[..n + 1][..n] == PREFERRED[..n];
      PreferredDiffer(n);
      if found {
        services := services + [PREFERRED[n]];
      }
      n := n + 1;
    }
    assert PREFERRED[..n] == PREFERRED;
  }

  lemma PreferredDiffer(n: nat)
    requires n < |PREFERRED|
    ensures PREFERRED[n] !in PREFERRED[..n]
  {
    assert PREFERRED[0][0] == 'A' == PREFERRED[1][0] && PREFERRED[2][0] == 'S';
    assert |PREFERRED[0]| == 9 && |PREFERRED[1]| == 10;
  }

  // Lines 103-110.
  method FindServices(entries: seq<Entry>) returns (services: seq<string>)
    ensures IsServiceOrder(entries, services)
  {
    services := PreferredServices(entries);
    ghost var p := |services|;
    for i := 0 to |entries|
      invariant Present(entries, PREFERRED) <= services && |Present(entries, PREFERRED)| == p <= |services|
      invariant forall s :: s in services ==> HasChannel(entries, s)
      invariant forall k :: k < i && IsChannel(entries, k) ==> entries[k].service in services
      invariant forall j, k :: 0 <= j < k < |services| ==> services[j] != services[k]
      invariant forall j :: p <= j < |services| ==> Seen(entries, services[j], i)
      invariant forall j, k :: p <= j < k < |services| ==> AppearsBefore(entries, services[j], services[k])
    {
      var service := entries[i].service;
      if entries[i].frequency > 0.0 && service !in services {
        assert IsChannelOf(entries, service, i);
        forall j | p <= j < |services|
          ensures AppearsBefore(entries, services[j], service)
        {
          var k :| k < i && IsChannelOf(entries, services[j], k);
          forall m | IsChannelOf(entries, service, m)
            ensures Seen(entries, services[j], m)
          {
            assert k < m;
          }
        }
        assert Seen(entries, service, i + 1);
        services := services + [service];
      }
    }
  }

  lemma PresentStep(entries: seq<Entry>, names: seq<string>, last: string)
    ensures Present(entries, names + [last]) == Present(entries, names) + (if HasChannel(entries, last) then [last] else [])
    ensures Present(entries, []) == []
  {
    assert (names + [last])[..|names|] == names;
  }

  // The preferred services by name, of those that have a channel.
  ghost function FirstServices(entries: seq<Entry>): seq<string> {
    (if HasChannel(entries, "Aero data") then ["Aero data"] else [])
    + (if HasChannel(entries, "Aero voice") then ["Aero voice"] else [])
    + (if HasChannel(entries, "STD-C") then ["STD-C"] else [])
  }

  lemma PresentIsFirst(entries: seq<Entry>)
    ensures Present(entries, PREFERRED) == FirstServices(entries)
  {
    hide HasChannel, Present;
    PresentStep(entries, ["Aero data", "Aero voice"], "STD-C");
    PresentStep(entries, ["Aero data"], "Aero voice");
    PresentStep(entries, [], "Aero data");
    assert [] + ["Aero data"] == ["Aero data"] && ["Aero data"] + ["Aero voice"] == ["Aero data", "Aero voice"];
    assert PREFERRED == ["Aero data", "Aero voice"] + ["STD-C"];
  }

  // Aero data is always the first, Aero voice comes next, then STD-C, and then the others.
  lemma PreferredFirst(entries: seq<Entry>, services: seq<string>)
    requires IsServiceOrder(entries, services)
    ensures FirstServices(entries) <= services
    ensures forall k :: |FirstServices(entries)| <= k < |services| ==> services[k] !in PREFERRED
  {
    hide FirstServices, AppearsBefore;
    PresentIsFirst(entries);
    forall k | |FirstServices(entries)| <= k < |services| && HasChannel(entries, services[k])
      ensures services[k] !in PREFERRED
    {}
  }

  function Joined(parts: seq<seq<Group>>): seq<Group> {
    if parts == [] then [] else Joined(parts[..|parts| - 1]) + parts[|parts| - 1]
  }

  // One part for each service, one after the other.
  ghost predicate IsPlan(entries: seq<Entry>, rate: real, services: seq<string>, parts: seq<seq<Group>>) {
    |parts| == |services| && forall n :: 0 <= n < |parts| ==> IsServicePlan(entries, services[n], rate, parts[n])
  }

  // Lines 100-155, with the rate in Hz.
  method BandPlanGroups(valid: bool, entries: seq<Entry>, sampleRate: real)
      returns (groups: seq<Group>, ghost services: seq<string>, ghost parts: seq<seq<Group>>)
    ensures groups == Joined(parts)
    ensures !valid || sampleRate <= 0.0 ==> groups == []
    ensures valid && sampleRate > 0.0 ==>
              IsServiceOrder(entries, services) && IsPlan(entries, sampleRate / 1_000_000.0, services, parts)
  {
    hide IsServiceOrder, IsPlan;
    groups, services, parts := [], [], [];
    if valid && sampleRate > 0.0 {
      var list := FindServices(entries);
      services := list;
      groups, parts := GroupServices(entries, list, sampleRate / 1_000_000.0);
    }
  }

  method GroupServices(entries: seq<Entry>, services: seq<string>, rate: real)
      returns (groups: seq<Group>, ghost parts: seq<seq<Group>>)
    requires rate > 0.0
    ensures groups == Joined(parts) && IsPlan(entries, rate, services, parts)
  {
    hide IsServicePlan;
    groups, parts := [], [];
    var n := 0;
    while n < |services|
      invariant 0 <= n <= |services| && groups == Joined(parts)
      invariant IsPlan(entries, rate, services[..n], parts)
    {
      var part := ServiceGroups(entries, services[n], rate);
      assert (parts + [part])[..|parts|] == parts;
      groups := groups + part;
      parts := parts + [part];
      n := n + 1;
    }
    assert services[..n] == services;
  }

  lemma {:induction false} JoinedListsOnce(entries: seq<Entry>, rate: real, services: seq<string>, parts: seq<seq<Group>>)
    requires IsPlan(entries, rate, services, parts)
    requires forall j, k :: 0 <= j < k < |services| ==> services[j] != services[k]
    ensures OnlyOnce(Joined(parts))
    ensures forall i :: Listed(Joined(parts), i) <==> IsChannel(entries, i) && entries[i].service in services
    ensures forall g :: 0 <= g < |Joined(parts)| ==>
              exists n :: 0 <= n < |services| && IsGroup(entries, services[n], rate, Joined(parts)[g])
  {
    hide IsGroup, IsServicePlan, OnlyOnce;
    if parts == [] {
      NoGroups(rate);
    } else {
      var n := |parts| - 1;
      assert services == services[..n] + [services[n]];
      JoinedListsOnce(entries, rate, services[..n], parts[..n]);
      PartListsService(entries, services[n], rate, parts[n]);
      ListedInEither(Joined(parts[..n]), parts[n]);
      assert IsServicePlan(entries, services[n], rate, parts[n]);
      forall g | 0 <= g < |Joined(parts)|
        ensures exists m :: 0 <= m < |services| && IsGroup(entries, services[m], rate, Joined(parts)[g])
      {
        if g < |Joined(parts[..n])| {
          var m :| 0 <= m < n && IsGroup(entries, services[..n][m], rate, Joined(parts[..n])[g]);
        } else {
          assert IsGroup(entries, services[n], rate, parts[n][g - |Joined(parts[..n])|]);
        }
      }
    }
  }

  lemma PartListsService(entries: seq<Entry>, service: string, rate: real, groups: seq<Group>)
    requires IsServicePlan(entries, service, rate, groups)
    ensures OnlyOnce(groups)
    ensures forall i :: Listed(groups, i) <==> IsChannelOf(entries, service, i)
    ensures forall g :: 0 <= g < |groups| ==> IsGroup(entries, service, rate, groups[g])
  {
    hide IsCenter, IsFirstCenter, OnlyOnce, Greedy;
    forall i | Listed(groups, i)
      ensures IsChannelOf(entries, service, i)
    {
      var g :| 0 <= g < |groups| && i in groups[g].channels;
      assert IsGroup(entries, service, rate, groups[g]);
    }
  }

  lemma ListedInEither(a: seq<Group>, b: seq<Group>)
    ensures forall i :: Listed(a + b, i) <==> Listed(a, i) || Listed(b, i)
    ensures OnlyOnce(a) && OnlyOnce(b) && (forall i :: Listed(a, i) ==> !Listed(b, i)) ==> OnlyOnce(a + b)
  {
    assert forall g :: 0 <= g < |a| ==> (a + b)[g] == a[g];
    assert forall g :: 0 <= g < |b| ==> (a + b)[|a| + g] == b[g];
    forall i | Listed(b, i)
      ensures Listed(a + b, i)
    {
      var g :| 0 <= g < |b| && i in b[g].channels;
      assert i in (a + b)[|a| + g].channels;
    }
    forall i | Listed(a, i)
      ensures Listed(a + b, i)
    {
      var g :| 0 <= g < |a| && i in a[g].channels;
      assert i in (a + b)[g].channels;
    }
    if OnlyOnce(a) && OnlyOnce(b) && (forall i :: Listed(a, i) ==> !Listed(b, i)) {
      forall g, h, i | 0 <= g < h < |a + b| && i in (a + b)[g].channels
        ensures i !in (a + b)[h].channels
      {
        if g < |a| <= h {
          assert i in a[g].channels && Listed(a, i);
          assert (a + b)[h] == b[h - |a|];
        } else if g >= |a| {
          assert i in b[g - |a|].channels && (a + b)[h] == b[h - |a|];
        }
      }
      assert forall g :: 0 <= g < |a + b| ==> (a + b)[g] == if g < |a| then a[g] else b[g - |a|];
    }
  }

  // Every channel stands in exactly one group of the plan, and nothing else in any.
  lemma PlanListsChannelsOnce(entries: seq<Entry>, rate: real, services: seq<string>, parts: seq<seq<Group>>)
    requires IsServiceOrder(entries, services) && IsPlan(entries, rate, services, parts)
    ensures OnlyOnce(Joined(parts))
    ensures forall i :: Listed(Joined(parts), i) <==> IsChannel(entries, i)
  {
    hide IsPlan, OnlyOnce, Listed;
    JoinedListsOnce(entries, rate, services, parts);
    forall i | IsChannel(entries, i)
      ensures entries[i].service in services
    {
      assert IsChannelOf(entries, entries[i].service, i);
    }
  }
}
