// The decoder manager of src/decode/decoder_manager.cpp and .h: decoders grouped in sub-bands,
// sub-bands spread over workers. First the records and what one critical section does to them,
// then every interleaving of those sections, then the calls one after the other.

module DecoderRecords {
  import opened Values

  const EGC_BAUD := 1

  datatype Decoder = Decoder(id: int, frequency: real, baud: int, aes: nat, monitored: bool) {
    predicate IsVoice() {
      baud == 8400
    }
  }

  // `key` is the identity of the shared sub-band object: never used twice.
  datatype SubBand = SubBand(key: nat, center: real, rate: real, decoders: seq<Decoder>)

  datatype Worker = Worker(bands: seq<SubBand>, count: int, weight: int)

  function DecoderWeight(baud: int): nat {
    if baud == EGC_BAUD then 1 else if baud == 8400 || baud == 10500 then 2 else 3
  }

  predicate Covers(band: SubBand, frequency: real) {
    Distance(frequency, band.center) < 0.40 * band.rate
  }

  // ---- What a worker holds -----------------------------------------------------

  function Ids(decoders: seq<Decoder>): (ids: multiset<int>)
    ensures |ids| == |decoders|
  {
    if decoders == [] then multiset{} else Ids(decoders[..|decoders| - 1]) + multiset{decoders[|decoders| - 1].id}
  }

  function BandIds(bands: seq<SubBand>): multiset<int> {
    if bands == [] then multiset{} else BandIds(bands[..|bands| - 1]) + Ids(bands[|bands| - 1].decoders)
  }

  function AllIds(workers: seq<Worker>): multiset<int> {
    if workers == [] then multiset{} else AllIds(workers[..|workers| - 1]) + BandIds(workers[|workers| - 1].bands)
  }

  lemma SumAssoc(x: multiset<int>, y: multiset<int>, z: multiset<int>)
    ensures x + y + z == x + (y + z)
  {}

  lemma {:induction false} IdsConcat(a: seq<Decoder>, b: seq<Decoder>)
    ensures Ids(a + b) == Ids(a) + Ids(b)
  {
    if b == [] {
      assert a + b == a;
    } else {
      var n := |b| - 1;
      IdsConcat(a, b[..n]);
      assert (a + b)[..|a + b| - 1] == a + b[..n];
      assert Ids(a + b) == Ids(a + b[..n]) + multiset{b[n].id};
      SumAssoc(Ids(a), Ids(b[..n]), multiset{b[n].id});
    }
  }

  lemma {:induction false} BandIdsConcat(a: seq<SubBand>, b: seq<SubBand>)
    ensures BandIds(a + b) == BandIds(a) + BandIds(b)
  {
    hide Ids;
    if b == [] {
      assert a + b == a;
    } else {
      var n := |b| - 1;
      BandIdsConcat(a, b[..n]);
      assert (a + b)[..|a + b| - 1] == a + b[..n];
      assert BandIds(a + b) == BandIds(a + b[..n]) + Ids(b[n].decoders);
      SumAssoc(BandIds(a), BandIds(b[..n]), Ids(b[n].decoders));
    }
  }

  lemma {:induction false} AllIdsConcat(a: seq<Worker>, b: seq<Worker>)
    ensures AllIds(a + b) == AllIds(a) + AllIds(b)
  {
    hide BandIds;
    if b == [] {
      assert a + b == a;
    } else {
      var n := |b| - 1;
      AllIdsConcat(a, b[..n]);
      assert (a + b)[..|a + b| - 1] == a + b[..n];
      assert AllIds(a + b) == AllIds(a + b[..n]) + BandIds(b[n].bands);
      SumAssoc(AllIds(a), AllIds(b[..n]), BandIds(b[n].bands));
    }
  }

  lemma OneBand(band: SubBand)
    ensures BandIds([band]) == Ids(band.decoders)
  {}

  lemma OneWorker(worker: Worker)
    ensures AllIds([worker]) == BandIds(worker.bands)
  {}

  // The ids beside band b.
  lemma SplitBands(bands: seq<SubBand>, b: nat) returns (rest: multiset<int>)
    requires b < |bands|
    ensures BandIds(bands) == rest + Ids(bands[b].decoders)
    ensures BandIds(bands[..b] + bands[b + 1..]) == rest
    ensures forall x: SubBand :: BandIds(bands[b := x]) == rest + Ids(x.decoders)
  {
    hide BandIds, Ids;
    rest := BandIds(bands[..b]) + BandIds(bands[b + 1..]);
    BandIdsConcat(bands[..b], bands[b + 1..]);
    forall x: SubBand
      ensures BandIds(bands[b := x]) == rest + Ids(x.decoders)
    {
      assert bands[b := x] == bands[..b] + [x] + bands[b + 1..];
      BandIdsConcat(bands[..b], [x]);
      BandIdsConcat(bands[..b] + [x], bands[b + 1..]);
      OneBand(x);
    }
    assert bands == bands[b := bands[b]];
  }

  // The ids beside worker w.
  lemma SplitWorkers(workers: seq<Worker>, w: nat) returns (rest: multiset<int>)
    requires w < |workers|
    ensures AllIds(workers) == rest + BandIds(workers[w].bands)
    ensures forall x: Worker :: AllIds(workers[w := x]) == rest + BandIds(x.bands)
  {
    hide AllIds, BandIds;
    rest := AllIds(workers[..w]) + AllIds(workers[w + 1..]);
    forall x: Worker
      ensures AllIds(workers[w := x]) == rest + BandIds(x.bands)
    {
      assert workers[w := x] == workers[..w] + [x] + workers[w + 1..];
      AllIdsConcat(workers[..w], [x]);
      AllIdsConcat(workers[..w] + [x], workers[w + 1..]);
      OneWorker(x);
    }
    assert workers == workers[w := workers[w]];
  }

  // ---- What a worker weighs ----------------------------------------------------

  function Weigh(decoders: seq<Decoder>): nat {
    if decoders == [] then 0 else Weigh(decoders[..|decoders| - 1]) + DecoderWeight(decoders[|decoders| - 1].baud)
  }

  function BandsWeight(bands: seq<SubBand>): nat {
    if bands == [] then 0 else BandsWeight(bands[..|bands| - 1]) + Weigh(bands[|bands| - 1].decoders)
  }

  lemma {:induction false} WeighConcat(a: seq<Decoder>, b: seq<Decoder>)
    ensures Weigh(a + b) == Weigh(a) + Weigh(b)
  {
    if b == [] {
      assert a + b == a;
    } else {
      var n := |b| - 1;
      WeighConcat(a, b[..n]);
      assert (a + b)[..|a + b| - 1] == a + b[..n];
    }
  }

  lemma {:induction false} BandsWeightConcat(a: seq<SubBand>, b: seq<SubBand>)
    ensures BandsWeight(a + b) == BandsWeight(a) + BandsWeight(b)
  {
    if b == [] {
      assert a + b == a;
    } else {
      var n := |b| - 1;
      BandsWeightConcat(a, b[..n]);
      assert (a + b)[..|a + b| - 1] == a + b[..n];
    }
  }

  lemma WeighOne(d: Decoder, band: SubBand)
    ensures Weigh([d]) == DecoderWeight(d.baud) && BandsWeight([band]) == Weigh(band.decoders)
  {}

  // The weight beside band b.
  lemma SplitWeights(bands: seq<SubBand>, b: nat) returns (rest: nat)
    requires b < |bands|
    ensures BandsWeight(bands) == rest + Weigh(bands[b].decoders)
    ensures BandsWeight(bands[..b] + bands[b + 1..]) == rest
    ensures forall x: SubBand :: BandsWeight(bands[b := x]) == rest + Weigh(x.decoders)
  {
    hide BandsWeight, Weigh;
    rest := BandsWeight(bands[..b]) + BandsWeight(bands[b + 1..]);
    BandsWeightConcat(bands[..b], bands[b + 1..]);
    forall x: SubBand
      ensures BandsWeight(bands[b := x]) == rest + Weigh(x.decoders)
    {
      assert bands[b := x] == bands[..b] + [x] + bands[b + 1..];
      BandsWeightConcat(bands[..b], [x]);
      BandsWeightConcat(bands[..b] + [x], bands[b + 1..]);
      WeighOne(Decoder(0, 0.0, 0, 0, false), x);
    }
    assert bands == bands[b := bands[b]];
  }

  // A worker never counts less than its decoders weigh; more, once all were removed at a stroke.
  ghost predicate IsHeavy(worker: Worker) {
    worker.weight >= BandsWeight(worker.bands)
  }

  // ---- What holds of every worker between two critical sections ----------------

  // The counter is right, no sub-band is empty, and every decoder lies in its sub-band.
  ghost predicate IsSound(worker: Worker) {
    && worker.count == |BandIds(worker.bands)| && IsHeavy(worker)
    && forall b :: 0 <= b < |worker.bands| ==> IsSoundBand(worker.bands[b])
  }

  ghost predicate IsSoundBand(band: SubBand) {
    band.decoders != [] && band.rate > 0.0 && forall d :: d in band.decoders ==> Covers(band, d.frequency)
  }

  // ---- Choosing a sub-band -----------------------------------------------------

  datatype Choice = NoChoice | Choice(worker: nat, key: nat)

  const NO_LOAD := 0x7FFF_FFFF

  // Four decoders make a sub-band overloaded; its whole worker then counts.
  function Load(worker: Worker, band: SubBand): int {
    var cnt := |band.decoders|;
    if cnt >= 4 then worker.weight + |worker.bands| * 10 + cnt * 8 else cnt
  }

  datatype Best = Best(choice: Choice, load: int)

  function ScanBand(w: nat, worker: Worker, band: SubBand, frequency: real, best: Best): Best {
    if Covers(band, frequency) && Load(worker, band) < best.load then Best(Choice(w, band.key), Load(worker, band)) else best
  }

  // Lines 109-141 under the lock of worker w.
  function ScanBands(w: nat, worker: Worker, n: nat, frequency: real, best: Best): Best
    requires n <= |worker.bands|
  {
    if n == 0 then best else ScanBand(w, worker, worker.bands[n - 1], frequency, ScanBands(w, worker, n - 1, frequency, best))
  }

  function ScanWorker(w: nat, worker: Worker, frequency: real, best: Best): Best {
    ScanBands(w, worker, |worker.bands|, frequency, best)
  }

  // Fewer decoders are less load, and any overloaded sub-band is more load than any other.
  lemma LoadOrders(worker: Worker, band: SubBand, other: Worker, otherBand: SubBand)
    requires worker.weight >= 0 && other.weight >= 0
    requires |worker.bands| > 0 && |other.bands| > 0
    ensures |band.decoders| < 4 && |otherBand.decoders| < 4 ==>
              (Load(worker, band) < Load(other, otherBand) <==> |band.decoders| < |otherBand.decoders|)
    ensures |band.decoders| < 4 <= |otherBand.decoders| ==> Load(worker, band) < Load(other, otherBand)
  {}

  // A scan leaves the choice or makes it a covering sub-band of this worker.
  lemma {:induction false} ScanChooses(w: nat, worker: Worker, n: nat, frequency: real, best: Best)
    requires n <= |worker.bands|
    ensures var r := ScanBands(w, worker, n, frequency, best);
      r == best || exists b :: 0 <= b < n && Covers(worker.bands[b], frequency) && r.choice == Choice(w, worker.bands[b].key)
  {
    if n > 0 {
      ScanChooses(w, worker, n - 1, frequency, best);
    }
  }

  // ---- Critical sections -------------------------------------------------------

  function FindKey(bands: seq<SubBand>, key: nat): (b: nat)
    ensures b <= |bands| && (b < |bands| ==> bands[b].key == key)
    ensures forall i :: 0 <= i < b ==> bands[i].key != key
  {
    FindKeyFrom(bands, key, 0)
  }

  function FindKeyFrom(bands: seq<SubBand>, key: nat, from: nat): (b: nat)
    requires from <= |bands|
    ensures from <= b <= |bands| && (b < |bands| ==> bands[b].key == key)
    ensures forall i :: from <= i < b ==> bands[i].key != key
    decreases |bands| - from
  {
    if from == |bands| || bands[from].key == key then from else FindKeyFrom(bands, key, from + 1)
  }

  function FindId(decoders: seq<Decoder>, id: int, from: nat): (i: nat)
    requires from <= |decoders|
    ensures from <= i <= |decoders| && (i < |decoders| ==> decoders[i].id == id)
    ensures forall k :: from <= k < i ==> decoders[k].id != id
    decreases |decoders| - from
  {
    if from == |decoders| || decoders[from].id == id then from else FindId(decoders, id, from + 1)
  }

  // The first sub-band from `from` on with a decoder of that id.
  function FindBand(bands: seq<SubBand>, id: int, from: nat): (b: nat)
    requires from <= |bands|
    ensures from <= b <= |bands| && (b < |bands| ==> FindId(bands[b].decoders, id, 0) < |bands[b].decoders|)
    ensures forall k :: from <= k < b ==> FindId(bands[k].decoders, id, 0) == |bands[k].decoders|
    decreases |bands| - from
  {
    if from == |bands| || FindId(bands[from].decoders, id, 0) < |bands[from].decoders| then from
    else FindBand(bands, id, from + 1)
  }

  // Lines 145-165: into sub-band b of this worker.
  function WithDecoder(worker: Worker, b: nat, d: Decoder): Worker
    requires b < |worker.bands|
  {
    var band := worker.bands[b];
    Worker(worker.bands[b := band.(decoders := band.decoders + [d])], worker.count + 1, worker.weight + DecoderWeight(d.baud))
  }

  // Lines 179-196: a sub-band of its own.
  function WithBand(worker: Worker, key: nat, rate: real, d: Decoder): Worker {
    Worker(worker.bands + [SubBand(key, d.frequency, rate, [d])], worker.count + 1, worker.weight + DecoderWeight(d.baud))
  }

  function Without<T>(s: seq<T>, i: nat): seq<T>
    requires i < |s|
  {
    s[..i] + s[i + 1..]
  }

  // Lines 216-221: without decoder i of sub-band b, and without the sub-band once it is empty.
  function WithoutAt(worker: Worker, b: nat, i: nat): Worker
    requires b < |worker.bands| && i < |worker.bands[b].decoders|
  {
    var band := worker.bands[b];
    var left := Without(band.decoders, i);
    Worker(if left == [] then Without(worker.bands, b) else worker.bands[b := band.(decoders := left)],
           worker.count - 1, worker.weight - DecoderWeight(band.decoders[i].baud))
  }

  // Lines 203-225 under the lock of one worker.
  function WithoutDecoder(worker: Worker, id: int): Option<Worker> {
    var b := FindBand(worker.bands, id, 0);
    if b == |worker.bands| then None else Some(WithoutAt(worker, b, FindId(worker.bands[b].decoders, id, 0)))
  }

  // Lines 528-530. The weight stays as it is.
  function Cleared(worker: Worker): Worker {
    Worker([], 0, worker.weight)
  }

  lemma InsertIsSound(worker: Worker, b: nat, d: Decoder)
    requires IsSound(worker) && b < |worker.bands| && Covers(worker.bands[b], d.frequency)
    ensures IsSound(WithDecoder(worker, b, d))
    ensures BandIds(WithDecoder(worker, b, d).bands) == BandIds(worker.bands) + multiset{d.id}
  {
    hide BandIds, Ids, Covers, IsHeavy;
    var rest := SplitBands(worker.bands, b);
    var band := worker.bands[b];
    IdsConcat(band.decoders, [d]);
    OneId(d);
    var more := band.(decoders := band.decoders + [d]);
    assert IsSoundBand(band);
    SameCover(band, more.decoders);
    assert IsSoundBand(more);
    InsertIsHeavy(worker, b, d);
  }

  lemma InsertIsHeavy(worker: Worker, b: nat, d: Decoder)
    requires IsHeavy(worker) && b < |worker.bands|
    ensures IsHeavy(WithDecoder(worker, b, d))
  {
    hide BandsWeight, Weigh;
    var rest := SplitWeights(worker.bands, b);
    WeighConcat(worker.bands[b].decoders, [d]);
    WeighOne(d, worker.bands[b]);
  }

  lemma CreateIsHeavy(worker: Worker, key: nat, rate: real, d: Decoder)
    requires IsHeavy(worker)
    ensures IsHeavy(WithBand(worker, key, rate, d))
  {
    hide BandsWeight, Weigh;
    var band := SubBand(key, d.frequency, rate, [d]);
    BandsWeightConcat(worker.bands, [band]);
    WeighOne(d, band);
  }

  lemma RemoveIsHeavy(worker: Worker, b: nat, i: nat)
    requires IsHeavy(worker) && b < |worker.bands| && i < |worker.bands[b].decoders|
    ensures IsHeavy(WithoutAt(worker, b, i))
  {
    hide BandsWeight, Weigh;
    var decoders := worker.bands[b].decoders;
    var rest := SplitWeights(worker.bands, b);
    assert decoders == decoders[..i] + [decoders[i]] + decoders[i + 1..];
    WeighConcat(decoders[..i], [decoders[i]]);
    WeighConcat(decoders[..i] + [decoders[i]], decoders[i + 1..]);
    WeighConcat(decoders[..i], decoders[i + 1..]);
    WeighOne(decoders[i], worker.bands[b]);
  }

  lemma OneId(d: Decoder)
    ensures Ids([d]) == multiset{d.id}
  {}

  lemma SameCover(band: SubBand, decoders: seq<Decoder>)
    ensures forall f: real :: Covers(band.(decoders := decoders), f) <==> Covers(band, f)
  {}

  lemma CreateIsSound(worker: Worker, key: nat, rate: real, d: Decoder)
    requires IsSound(worker) && rate > 0.0
    ensures IsSound(WithBand(worker, key, rate, d))
    ensures BandIds(WithBand(worker, key, rate, d).bands) == BandIds(worker.bands) + multiset{d.id}
  {
    var band := SubBand(key, d.frequency, rate, [d]);
    BandIdsConcat(worker.bands, [band]);
    OneBand(band);
    assert Ids([d]) == multiset{d.id};
    CreateIsHeavy(worker, key, rate, d);
  }

  lemma {:induction false} InIds(decoders: seq<Decoder>, i: nat)
    requires i < |decoders|
    ensures decoders[i].id in Ids(decoders)
    ensures Ids(Without(decoders, i)) == Ids(decoders) - multiset{decoders[i].id}
  {
    var d := decoders[i];
    assert decoders == decoders[..i] + [d] + decoders[i + 1..];
    IdsConcat(decoders[..i], [d]);
    IdsConcat(decoders[..i] + [d], decoders[i + 1..]);
    IdsConcat(decoders[..i], decoders[i + 1..]);
    assert Ids([d]) == multiset{d.id};
  }

  lemma RemoveAtIsSound(worker: Worker, b: nat, i: nat)
    requires IsSound(worker) && b < |worker.bands| && i < |worker.bands[b].decoders|
    ensures forall k :: 0 <= k < |WithoutAt(worker, b, i).bands| ==> IsSoundBand(WithoutAt(worker, b, i).bands[k])
  {
    hide BandIds, Covers;
    var band := worker.bands[b];
    var left := Without(band.decoders, i);
    assert IsSoundBand(band);
    assert forall d :: d in left ==> d in band.decoders;
    SameCover(band, left);
    assert left != [] ==> IsSoundBand(band.(decoders := left));
  }

  lemma NoIds()
    ensures Ids([]) == multiset{}
  {}

  lemma RemoveAtIds(worker: Worker, b: nat, i: nat)
    requires b < |worker.bands| && i < |worker.bands[b].decoders|
    ensures worker.bands[b].decoders[i].id in BandIds(worker.bands)
    ensures BandIds(WithoutAt(worker, b, i).bands) == BandIds(worker.bands) - multiset{worker.bands[b].decoders[i].id}
  {
    hide BandIds, Ids;
    var band := worker.bands[b];
    var rest := SplitBands(worker.bands, b);
    InIds(band.decoders, i);
    NoIds();
  }

  lemma RemoveIsSound(worker: Worker, id: int)
    requires IsSound(worker) && WithoutDecoder(worker, id).Some?
    ensures IsSound(WithoutDecoder(worker, id).value)
    ensures id in BandIds(worker.bands)
    ensures BandIds(WithoutDecoder(worker, id).value.bands) == BandIds(worker.bands) - multiset{id}
  {
    hide BandIds, Ids, IsSoundBand, IsHeavy;
    var b := FindBand(worker.bands, id, 0);
    var i := FindId(worker.bands[b].decoders, id, 0);
    RemoveAtIsSound(worker, b, i);
    RemoveAtIds(worker, b, i);
    RemoveIsHeavy(worker, b, i);
  }

  lemma {:induction false} NotInIds(decoders: seq<Decoder>, id: int)
    requires FindId(decoders, id, 0) == |decoders|
    ensures id !in Ids(decoders)
  {
    if decoders != [] {
      var head := decoders[..|decoders| - 1];
      assert FindId(head, id, 0) == |head|;
      NotInIds(head, id);
    }
  }

  // A search that finds nothing means the id is not there.
  lemma {:induction false} NotInBands(bands: seq<SubBand>, id: int)
    requires FindBand(bands, id, 0) == |bands|
    ensures id !in BandIds(bands)
  {
    if bands != [] {
      var head := bands[..|bands| - 1];
      assert FindBand(head, id, 0) == |head|;
      NotInBands(head, id);
      NotInIds(bands[|bands| - 1].decoders, id);
    }
  }
}

// Every interleaving of addDecoder, removeDecoder and removeAll. One action is one critical
// section: the id, one worker's lock in a scan, the second lock of an add, a new sub-band.
// The flags a new decoder is given are not claimed anything of here.
module DecoderProtocol {
  import opened DecoderRecords
  import opened Values

  datatype Thread =
    | Scanning(id: int, frequency: real, baud: int, next: nat, best: Best)
    | Creating(id: int, frequency: real, baud: int)
    | Added(id: int)
    | Removing(id: int, next: nat)
    | Clearing(next: nat)
    | Finished
  {
    predicate IsAdder() {
      Scanning? || Creating? || Added?
    }

    predicate IsDone() {
      Added? || Finished?
    }
  }

  // `inserted` and `removed` log the ids of the decoders that ever came and went.
  datatype State = State(workers: seq<Worker>, nextId: int, nextKey: nat, threads: seq<Thread>,
                         inserted: multiset<int>, removed: multiset<int>)

  datatype Action =
    | BeginAdd(frequency: real, baud: int)
    | Scan(t: nat)
    | Insert(t: nat, aes: nat, monitored: bool)
    | Create(t: nat, w: nat, rate: real, aes: nat, monitored: bool)
    | BeginRemove(id: int)
    | Remove(t: nat)
    | BeginClear
    | Clear(t: nat)

  predicate Enabled(s: State, a: Action) {
    match a
    case BeginAdd(_, _) => s.workers != []
    case Scan(t) => t < |s.threads| && s.threads[t].Scanning? && s.threads[t].next < |s.workers|
    case Insert(t, _, _) =>
      t < |s.threads| && s.threads[t].Scanning? && s.threads[t].next == |s.workers|
      && (s.threads[t].best.choice.Choice? ==> s.threads[t].best.choice.worker < |s.workers|)
    case Create(t, w, rate, _, _) => t < |s.threads| && s.threads[t].Creating? && w < |s.workers| && rate > 0.0
    case BeginRemove(_) => true
    case Remove(t) => t < |s.threads| && s.threads[t].Removing? && s.threads[t].next <= |s.workers|
    case BeginClear => true
    case Clear(t) => t < |s.threads| && s.threads[t].Clearing? && s.threads[t].next <= |s.workers|
  }

  function Apply(s: State, a: Action): State
    requires Enabled(s, a)
  {
    match a
    case BeginAdd(frequency, baud) =>
      s.(nextId := s.nextId + 1, threads := s.threads + [Scanning(s.nextId, frequency, baud, 0, Best(NoChoice, NO_LOAD))])
    case Scan(t) =>
      var me := s.threads[t];
      s.(threads := s.threads[t := me.(next := me.next + 1, best := ScanWorker(me.next, s.workers[me.next], me.frequency, me.best))])
    case Insert(t, aes, monitored) => ApplyInsert(s, t, aes, monitored)
    case Create(t, w, rate, aes, monitored) =>
      var me := s.threads[t];
      var d := Decoder(me.id, me.frequency, me.baud, aes, monitored);
      s.(workers := s.workers[w := WithBand(s.workers[w], s.nextKey, rate, d)], nextKey := s.nextKey + 1,
         threads := s.threads[t := Added(me.id)], inserted := s.inserted + multiset{me.id})
    case BeginRemove(id) => s.(threads := s.threads + [Removing(id, 0)])
    case Remove(t) =>
      var me := s.threads[t];
      if me.next == |s.workers| then s.(threads := s.threads[t := Finished])
      else
        var left := WithoutDecoder(s.workers[me.next], me.id);
        if left.None? then s.(threads := s.threads[t := me.(next := me.next + 1)])
        else s.(workers := s.workers[me.next := left.value], threads := s.threads[t := Finished],
                removed := s.removed + multiset{me.id})
    case BeginClear => s.(threads := s.threads + [Clearing(0)])
    case Clear(t) =>
      var me := s.threads[t];
      if me.next == |s.workers| then s.(threads := s.threads[t := Finished])
      else s.(workers := s.workers[me.next := Cleared(s.workers[me.next])], threads := s.threads[t := me.(next := me.next + 1)],
              removed := s.removed + BandIds(s.workers[me.next].bands))
  }

  // The second lock of an add: the sub-band chosen in the scan may be gone by now.
  function ApplyInsert(s: State, t: nat, aes: nat, monitored: bool): State
    requires Enabled(s, Insert(t, aes, monitored))
  {
    var me := s.threads[t];
    if me.best.choice.NoChoice? then s.(threads := s.threads[t := Creating(me.id, me.frequency, me.baud)])
    else
      var w := me.best.choice.worker;
      var b := FindKey(s.workers[w].bands, me.best.choice.key);
      if b == |s.workers[w].bands| then s.(threads := s.threads[t := Creating(me.id, me.frequency, me.baud)])
      else
        var d := Decoder(me.id, me.frequency, me.baud, aes, monitored);
        s.(workers := s.workers[w := WithDecoder(s.workers[w], b, d)], threads := s.threads[t := Added(me.id)],
           inserted := s.inserted + multiset{me.id})
  }

  ghost predicate IsInitial(s: State) {
    && s.nextId == 1 && s.threads == [] && s.inserted == multiset{} && s.removed == multiset{}
    && s.nextKey == 0 && forall w :: 0 <= w < |s.workers| ==> s.workers[w] == Worker([], 0, 0)
  }

  // ---- The invariant -----------------------------------------------------------

  ghost predicate KeysAreFresh(worker: Worker, nextKey: nat) {
    && (forall b :: 0 <= b < |worker.bands| ==> worker.bands[b].key < nextKey)
    && forall b, c :: 0 <= b < c < |worker.bands| ==> worker.bands[b].key != worker.bands[c].key
  }

  // Whatever sub-band of that key the worker still has covers the frequency.
  ghost predicate Promised(worker: Worker, key: nat, frequency: real) {
    forall b :: 0 <= b < |worker.bands| && worker.bands[b].key == key ==> Covers(worker.bands[b], frequency)
  }

  ghost predicate ChoiceIsGood(workers: seq<Worker>, nextKey: nat, choice: Choice, frequency: real) {
    choice.Choice? ==>
      choice.worker < |workers| && choice.key < nextKey && Promised(workers[choice.worker], choice.key, frequency)
  }

  ghost predicate ThreadIsGood(s: State, me: Thread) {
    match me
    case Scanning(id, frequency, _, next, best) =>
      1 <= id < s.nextId && s.inserted[id] == 0 && next <= |s.workers|
      && ChoiceIsGood(s.workers, s.nextKey, best.choice, frequency)
    case Creating(id, _, _) => 1 <= id < s.nextId && s.inserted[id] == 0
    case Added(id) => 1 <= id < s.nextId && s.inserted[id] == 1
    case Removing(_, next) => next <= |s.workers|
    case Clearing(next) => next <= |s.workers|
    case Finished => true
  }

  ghost predicate IdsAreGood(inserted: multiset<int>, nextId: int) {
    1 <= nextId && forall id :: inserted[id] <= 1 && (inserted[id] > 0 ==> 1 <= id < nextId)
  }

  ghost predicate AddersDiffer(threads: seq<Thread>) {
    forall t, u :: 0 <= t < u < |threads| && threads[t].IsAdder() && threads[u].IsAdder() ==> threads[t].id != threads[u].id
  }

  ghost predicate Inv(s: State) {
    && (forall w :: 0 <= w < |s.workers| ==> IsSound(s.workers[w]) && KeysAreFresh(s.workers[w], s.nextKey))
    && s.inserted == AllIds(s.workers) + s.removed
    && IdsAreGood(s.inserted, s.nextId)
    && (forall t :: 0 <= t < |s.threads| ==> ThreadIsGood(s, s.threads[t]))
    && AddersDiffer(s.threads)
  }

  // ---- One worker at a time ----------------------------------------------------

  // What no critical section takes back: the keys and what was promised of them.
  ghost predicate KeepsPromises(before: Worker, after: Worker, nextKey: nat, laterKey: nat) {
    && KeysAreFresh(after, laterKey)
    && forall key: nat, frequency: real :: key < nextKey && Promised(before, key, frequency) ==> Promised(after, key, frequency)
  }

  lemma InsertKeeps(worker: Worker, b: nat, d: Decoder, nextKey: nat)
    requires KeysAreFresh(worker, nextKey) && b < |worker.bands|
    ensures KeepsPromises(worker, WithDecoder(worker, b, d), nextKey, nextKey)
  {
    hide Covers;
    var band := worker.bands[b];
    SameCover(band, band.decoders + [d]);
    var after := WithDecoder(worker, b, d);
    forall key: nat, frequency: real | key < nextKey && Promised(worker, key, frequency)
      ensures Promised(after, key, frequency)
    {
      assert band.key == key ==> Covers(band, frequency);
    }
  }

  lemma CreateKeeps(worker: Worker, key: nat, rate: real, d: Decoder)
    requires KeysAreFresh(worker, key)
    ensures KeepsPromises(worker, WithBand(worker, key, rate, d), key, key + 1)
  {
    hide Covers;
  }

  lemma RemoveKeeps(worker: Worker, b: nat, i: nat, nextKey: nat)
    requires KeysAreFresh(worker, nextKey) && b < |worker.bands| && i < |worker.bands[b].decoders|
    ensures KeepsPromises(worker, WithoutAt(worker, b, i), nextKey, nextKey)
  {
    hide Covers;
    var band := worker.bands[b];
    var left := Without(band.decoders, i);
    SameCover(band, left);
    var after := WithoutAt(worker, b, i);
    forall key: nat, frequency: real | key < nextKey && Promised(worker, key, frequency)
      ensures Promised(after, key, frequency)
    {
      assert band.key == key ==> Covers(band, frequency);
      forall c | 0 <= c < |after.bands| && after.bands[c].key == key
        ensures Covers(after.bands[c], frequency)
      {
        if left == [] {
          assert after.bands[c] == worker.bands[if c < b then c else c + 1];
        }
      }
    }
  }

  // A worker replaced by one that keeps its promises keeps every thread's choice good.
  lemma ChoicesStayGood(workers: seq<Worker>, w: nat, after: Worker, nextKey: nat, laterKey: nat, choice: Choice, frequency: real)
    requires w < |workers| && nextKey <= laterKey && KeepsPromises(workers[w], after, nextKey, laterKey)
    requires ChoiceIsGood(workers, nextKey, choice, frequency)
    ensures ChoiceIsGood(workers[w := after], laterKey, choice, frequency)
  {}

  lemma ScanIsGood(workers: seq<Worker>, w: nat, nextKey: nat, best: Best, frequency: real)
    requires w < |workers| && KeysAreFresh(workers[w], nextKey) && ChoiceIsGood(workers, nextKey, best.choice, frequency)
    ensures ChoiceIsGood(workers, nextKey, ScanWorker(w, workers[w], frequency, best).choice, frequency)
  {
    hide Covers;
    ScanChooses(w, workers[w], |workers[w].bands|, frequency, best);
  }

  // ---- Every step keeps the invariant ------------------------------------------

  // What a section may do to the shared state as far as the other threads are concerned.
  ghost predicate OnlyThread(s: State, r: State, t: nat) {
    && t < |s.threads| == |r.threads| && r.nextId == s.nextId
    && r.threads == s.threads[t := r.threads[t]]
    && (r.threads[t].IsAdder() ==> s.threads[t].IsAdder() && r.threads[t].id == s.threads[t].id)
    && forall u :: 0 <= u < |s.threads| && u != t && s.threads[u].IsAdder() ==>
         r.inserted[s.threads[u].id] == s.inserted[s.threads[u].id]
  }

  ghost predicate OnlyWorker(s: State, r: State, w: nat) {
    && w < |s.workers| == |r.workers| && s.nextKey <= r.nextKey
    && r.workers == s.workers[w := r.workers[w]]
    && KeepsPromises(s.workers[w], r.workers[w], s.nextKey, r.nextKey)
  }

  lemma ThreadsStayGood(s: State, r: State, w: nat, t: nat)
    requires Inv(s) && OnlyThread(s, r, t) && OnlyWorker(s, r, w) && ThreadIsGood(r, r.threads[t])
    ensures forall u :: 0 <= u < |r.threads| ==> ThreadIsGood(r, r.threads[u])
    ensures AddersDiffer(r.threads)
  {
    hide IsSound, KeepsPromises, ChoiceIsGood, AllIds, IdsAreGood;
    forall u | 0 <= u < |r.threads|
      ensures ThreadIsGood(r, r.threads[u])
    {
      var me := s.threads[u];
      assert ThreadIsGood(s, me);
      if u != t && me.Scanning? {
        ChoicesStayGood(s.workers, w, r.workers[w], s.nextKey, r.nextKey, me.best.choice, me.frequency);
      }
    }
  }

  lemma WorkersStayGood(s: State, r: State, w: nat)
    requires Inv(s) && OnlyWorker(s, r, w) && IsSound(r.workers[w])
    ensures forall v :: 0 <= v < |r.workers| ==> IsSound(r.workers[v]) && KeysAreFresh(r.workers[v], r.nextKey)
  {
    hide IsSound, AllIds, IdsAreGood, ThreadIsGood, AddersDiffer;
    forall v | 0 <= v < |r.workers|
      ensures IsSound(r.workers[v]) && KeysAreFresh(r.workers[v], r.nextKey)
    {
      if v != w {
        assert KeysAreFresh(s.workers[v], s.nextKey);
      }
    }
  }

  // A decoder goes into worker w.
  lemma PutKeeps(s: State, r: State, w: nat, t: nat)
    requires Inv(s) && OnlyWorker(s, r, w) && t < |s.threads| && s.threads[t].IsAdder() && !s.threads[t].Added?
    requires r.threads == s.threads[t := Added(s.threads[t].id)] && r.nextId == s.nextId
    requires r.inserted == s.inserted + multiset{s.threads[t].id} && r.removed == s.removed
    requires IsSound(r.workers[w])
    requires BandIds(r.workers[w].bands) == BandIds(s.workers[w].bands) + multiset{s.threads[t].id}
    ensures Inv(r)
  {
    hide IsSound, KeepsPromises, ChoiceIsGood, AllIds, BandIds;
    var rest := SplitWorkers(s.workers, w);
    assert ThreadIsGood(s, s.threads[t]);
    ThreadsStayGood(s, r, w, t);
    WorkersStayGood(s, r, w);
  }

  // Some decoders leave worker w.
  lemma TakeKeeps(s: State, r: State, w: nat, t: nat, gone: multiset<int>)
    requires Inv(s) && OnlyWorker(s, r, w) && OnlyThread(s, r, t) && !r.threads[t].IsAdder()
    requires ThreadIsGood(r, r.threads[t]) && r.inserted == s.inserted && r.removed == s.removed + gone
    requires IsSound(r.workers[w]) && gone <= BandIds(s.workers[w].bands)
    requires BandIds(r.workers[w].bands) == BandIds(s.workers[w].bands) - gone
    ensures Inv(r)
  {
    hide IsSound, KeepsPromises, ChoiceIsGood, AllIds, BandIds;
    var rest := SplitWorkers(s.workers, w);
    ThreadsStayGood(s, r, w, t);
    WorkersStayGood(s, r, w);
  }

  // Only one thread moves on.
  lemma MoveKeeps(s: State, r: State, t: nat)
    requires Inv(s) && OnlyThread(s, r, t) && ThreadIsGood(r, r.threads[t])
    requires r == s.(threads := r.threads)
    ensures Inv(r)
  {
    hide IsSound, KeysAreFresh, ChoiceIsGood, AllIds, BandIds;
    forall u | 0 <= u < |r.threads|
      ensures ThreadIsGood(r, r.threads[u])
    {
      assert ThreadIsGood(s, s.threads[u]);
    }
  }

  lemma NoChoiceIsGood(workers: seq<Worker>, nextKey: nat, frequency: real)
    ensures ChoiceIsGood(workers, nextKey, NoChoice, frequency)
  {}

  lemma BeginKeeps(s: State, a: Action)
    requires Inv(s) && Enabled(s, a) && (a.BeginAdd? || a.BeginRemove? || a.BeginClear?)
    ensures Inv(Apply(s, a))
  {
    hide IsSound, KeysAreFresh, ChoiceIsGood, AllIds, BandIds;
    var r := Apply(s, a);
    forall u | 0 <= u < |r.threads|
      ensures ThreadIsGood(r, r.threads[u])
    {
      if u < |s.threads| {
        assert ThreadIsGood(s, s.threads[u]);
      } else if a.BeginAdd? {
        assert s.inserted[s.nextId] == 0;
        NoChoiceIsGood(r.workers, r.nextKey, a.frequency);
      }
    }
    forall t, u | 0 <= t < u < |r.threads| && r.threads[t].IsAdder() && r.threads[u].IsAdder()
      ensures r.threads[t].id != r.threads[u].id
    {
      assert ThreadIsGood(s, s.threads[t]);
    }
  }

  lemma ScanKeeps(s: State, t: nat)
    requires Inv(s) && Enabled(s, Scan(t))
    ensures Inv(Apply(s, Scan(t)))
  {
    hide IsSound, ChoiceIsGood, AllIds, BandIds, ScanWorker;
    var me := s.threads[t];
    assert ThreadIsGood(s, me);
    assert KeysAreFresh(s.workers[me.next], s.nextKey);
    ScanIsGood(s.workers, me.next, s.nextKey, me.best, me.frequency);
    MoveKeeps(s, Apply(s, Scan(t)), t);
  }

  lemma InsertKeepsInv(s: State, t: nat, aes: nat, monitored: bool)
    requires Inv(s) && Enabled(s, Insert(t, aes, monitored))
    ensures Inv(Apply(s, Insert(t, aes, monitored)))
  {
    hide IsSound, AllIds, BandIds, Covers, WithDecoder, KeepsPromises;
    var me, r := s.threads[t], Apply(s, Insert(t, aes, monitored));
    assert ThreadIsGood(s, me);
    if r.threads[t].Creating? {
      MoveKeeps(s, r, t);
    } else {
      var w := me.best.choice.worker;
      var b := FindKey(s.workers[w].bands, me.best.choice.key);
      var d := Decoder(me.id, me.frequency, me.baud, aes, monitored);
      assert Promised(s.workers[w], me.best.choice.key, me.frequency);
      assert Covers(s.workers[w].bands[b], d.frequency);
      InsertIsSound(s.workers[w], b, d);
      InsertKeeps(s.workers[w], b, d, s.nextKey);
      PutKeeps(s, r, w, t);
    }
  }

  lemma CreateKeepsInv(s: State, t: nat, w: nat, rate: real, aes: nat, monitored: bool)
    requires Inv(s) && Enabled(s, Create(t, w, rate, aes, monitored))
    ensures Inv(Apply(s, Create(t, w, rate, aes, monitored)))
  {
    hide IsSound, AllIds, BandIds, WithBand, KeepsPromises;
    var me, r := s.threads[t], Apply(s, Create(t, w, rate, aes, monitored));
    var d := Decoder(me.id, me.frequency, me.baud, aes, monitored);
    CreateIsSound(s.workers[w], s.nextKey, rate, d);
    CreateKeeps(s.workers[w], s.nextKey, rate, d);
    PutKeeps(s, r, w, t);
  }

  lemma RemoveKeepsInv(s: State, t: nat)
    requires Inv(s) && Enabled(s, Remove(t))
    ensures Inv(Apply(s, Remove(t)))
  {
    hide IsSound, AllIds, BandIds, WithoutAt, KeepsPromises;
    var me, r := s.threads[t], Apply(s, Remove(t));
    if r.workers == s.workers && r.removed == s.removed {
      MoveKeeps(s, r, t);
    } else {
      var worker := s.workers[me.next];
      var b := FindBand(worker.bands, me.id, 0);
      RemoveIsSound(worker, me.id);
      RemoveKeeps(worker, b, FindId(worker.bands[b].decoders, me.id, 0), s.nextKey);
      TakeKeeps(s, r, me.next, t, multiset{me.id});
    }
  }

  lemma ClearKeepsInv(s: State, t: nat)
    requires Inv(s) && Enabled(s, Clear(t))
    ensures Inv(Apply(s, Clear(t)))
  {
    hide AllIds;
    var me, r := s.threads[t], Apply(s, Clear(t));
    if me.next == |s.workers| {
      MoveKeeps(s, r, t);
    } else {
      TakeKeeps(s, r, me.next, t, BandIds(s.workers[me.next].bands));
    }
  }

  lemma StepKeeps(s: State, a: Action)
    requires Inv(s) && Enabled(s, a)
    ensures Inv(Apply(s, a))
  {
    hide Inv, Apply, Enabled;
    match a
    case Scan(t) => ScanKeeps(s, t);
    case Insert(t, aes, monitored) => InsertKeepsInv(s, t, aes, monitored);
    case Create(t, w, rate, aes, monitored) => CreateKeepsInv(s, t, w, rate, aes, monitored);
    case Remove(t) => RemoveKeepsInv(s, t);
    case Clear(t) => ClearKeepsInv(s, t);
    case _ => BeginKeeps(s, a);
  }

  // ---- Runs --------------------------------------------------------------------

  ghost predicate Legal(s: State, run: seq<Action>)
    decreases |run|
  {
    run == [] || (Enabled(s, run[0]) && Legal(Apply(s, run[0]), run[1..]))
  }

  ghost function After(s: State, run: seq<Action>): State
    requires Legal(s, run)
    decreases |run|
  {
    if run == [] then s else After(Apply(s, run[0]), run[1..])
  }

  lemma {:induction false} RunKeeps(s: State, run: seq<Action>)
    requires Inv(s) && Legal(s, run)
    ensures Inv(After(s, run))
    decreases |run|
  {
    hide Inv, Apply, Enabled;
    if run != [] {
      StepKeeps(s, run[0]);
      RunKeeps(Apply(s, run[0]), run[1..]);
    }
  }

  lemma {:induction false} NothingYet(workers: seq<Worker>)
    requires forall w :: 0 <= w < |workers| ==> workers[w] == Worker([], 0, 0)
    ensures AllIds(workers) == multiset{}
  {
    if workers != [] {
      NothingYet(workers[..|workers| - 1]);
    }
  }

  // Every reachable state: each id is held by at most one decoder, and what came in is what is
  // there and what was taken out; each counter is right and no sub-band is empty.
  lemma EveryInterleaving(s: State, run: seq<Action>)
    requires IsInitial(s) && Legal(s, run)
    ensures var r := After(s, run);
      && (forall w :: 0 <= w < |r.workers| ==> IsSound(r.workers[w]))
      && (forall id :: AllIds(r.workers)[id] <= 1)
      && r.inserted == AllIds(r.workers) + r.removed
      && (forall t :: 0 <= t < |r.threads| && r.threads[t].IsAdder() ==>
            r.inserted[r.threads[t].id] == if r.threads[t].Added? then 1 else 0)
      && (forall t, u :: 0 <= t < u < |r.threads| && r.threads[t].IsAdder() && r.threads[u].IsAdder() ==>
            r.threads[t].id != r.threads[u].id)
  {
    hide Apply, Enabled, AllIds;
    NothingYet(s.workers);
    RunKeeps(s, run);
    var r := After(s, run);
    assert Inv(r);
    forall id
      ensures AllIds(r.workers)[id] <= 1
    {
      assert r.inserted[id] <= 1;
    }
    forall t | 0 <= t < |r.threads| && r.threads[t].IsAdder()
      ensures r.inserted[r.threads[t].id] == if r.threads[t].Added? then 1 else 0
    {
      assert ThreadIsGood(r, r.threads[t]);
    }
  }

  // A call keeps its id until the end, and what it adds it adds once.
  lemma {:induction false} AddersKeepTheirIds(s: State, run: seq<Action>, t: nat)
    requires Legal(s, run) && t < |s.threads| && s.threads[t].IsAdder()
    ensures t < |After(s, run).threads| && After(s, run).threads[t].IsAdder() && After(s, run).threads[t].id == s.threads[t].id
    ensures s.threads[t].Added? ==> After(s, run).threads[t].Added?
    decreases |run|
  {
    hide Apply, Enabled;
    if run != [] {
      AdderKeepsId(s, run[0], t);
      AddersKeepTheirIds(Apply(s, run[0]), run[1..], t);
    }
  }

  lemma AdderKeepsId(s: State, a: Action, t: nat)
    requires Enabled(s, a) && t < |s.threads| && s.threads[t].IsAdder()
    ensures var r := Apply(s, a);
      && t < |r.threads| && r.threads[t].IsAdder() && r.threads[t].id == s.threads[t].id
      && (s.threads[t].Added? ==> r.threads[t].Added?)
  {
    hide WithDecoder, WithBand, ScanWorker, WithoutDecoder;
  }

  // No call is ever stuck: whatever the others did, its next section can be entered. An add
  // whose sub-band vanished goes on to make one.
  lemma NoCallIsStuck(s: State, t: nat) returns (a: Action)
    requires Inv(s) && s.workers != [] && t < |s.threads| && !s.threads[t].IsDone()
    ensures Enabled(s, a)
    ensures var r := Apply(s, a);
      t < |r.threads| && (r.threads[t].IsDone() || Remaining(r, t) < Remaining(s, t))
  {
    hide IsSound, KeysAreFresh, AllIds, BandIds, WithDecoder, WithBand, ScanWorker, WithoutDecoder;
    var me := s.threads[t];
    assert ThreadIsGood(s, me);
    match me
    case Scanning(_, _, _, next, _) => a := if next < |s.workers| then Scan(t) else Insert(t, 0, false);
    case Creating(_, _, _) => a := Create(t, 0, 1.0, 0, false);
    case Removing(_, _) => a := Remove(t);
    case Clearing(_) => a := Clear(t);
  }

  // How many sections a call has left at most.
  function Remaining(s: State, t: nat): int
    requires t < |s.threads|
  {
    match s.threads[t]
    case Scanning(_, _, _, next, _) => |s.workers| - next + 2
    case Creating(_, _, _) => 1
    case Added(_) => 0
    case Removing(_, next) => |s.workers| - next + 1
    case Clearing(next) => |s.workers| - next + 1
    case Finished => 0
  }
}
