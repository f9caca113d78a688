// The calls of src/decode/decoder_manager.cpp one after the other: what each leaves behind, which
// decoder is heard, and what becomes of every block that is fed.

// The queue of one worker, lines 69-90, 531-532 and 595-607. Every block ever fed has at most one
// fate, and the fates come in the order of feeding.
module BlockQueues {

  const MAX_QUEUE := 192

  datatype Fate = Consumed | Dropped | Cleared

  datatype Log<T> = Log(fed: seq<T>, fates: seq<Fate>)

  // The queue holds exactly the blocks without a fate, oldest first; a block is dropped only
  // after MAX_QUEUE later ones.
  ghost predicate IsLogged<T>(queue: seq<T>, log: Log<T>) {
    && |queue| <= MAX_QUEUE && |log.fates| <= |log.fed| && queue == log.fed[|log.fates|..]
    && forall k :: 0 <= k < |log.fates| && log.fates[k] == Dropped ==> k + MAX_QUEUE < |log.fed|
  }

  function Count(fates: seq<Fate>, fate: Fate): nat {
    if fates == [] then 0 else Count(fates[..|fates| - 1], fate) + (if fates[|fates| - 1] == fate then 1 else 0)
  }

  // The blocks of one fate, in the order they were fed.
  function Those<T>(log: Log<T>, n: nat, fate: Fate): (blocks: seq<T>)
    requires n <= |log.fates| <= |log.fed|
    ensures |blocks| == Count(log.fates[..n], fate)
  {
    if n == 0 then []
    else
      assert log.fates[..n][..n - 1] == log.fates[..n - 1];
      Those(log, n - 1, fate) + (if log.fates[n - 1] == fate then [log.fed[n - 1]] else [])
  }

  lemma {:induction false} CountAppend(fates: seq<Fate>, more: seq<Fate>, fate: Fate)
    ensures Count(fates + more, fate) == Count(fates, fate) + Count(more, fate)
  {
    if more == [] {
      assert fates + more == fates;
    } else {
      var n := |more| - 1;
      CountAppend(fates, more[..n], fate);
      assert (fates + more)[..|fates + more| - 1] == fates + more[..n];
    }
  }

  lemma {:induction false} EveryFateCounts(fates: seq<Fate>)
    ensures Count(fates, Consumed) + Count(fates, Dropped) + Count(fates, Cleared) == |fates|
  {
    if fates != [] {
      EveryFateCounts(fates[..|fates| - 1]);
    }
  }

  // Fed is consumed, queued, dropped and cleared together.
  lemma NothingIsLost<T>(queue: seq<T>, log: Log<T>)
    requires IsLogged(queue, log)
    ensures |log.fed| == Count(log.fates, Consumed) + |queue| + Count(log.fates, Dropped) + Count(log.fates, Cleared)
    ensures log.fates[..|log.fates|] == log.fates
    ensures |Those(log, |log.fates|, Consumed)| == Count(log.fates, Consumed)
  {
    EveryFateCounts(log.fates);
    assert log.fates[..|log.fates|] == log.fates;
  }

  // Where the blocks of one fate stand among those that were fed.
  function Positions(fates: seq<Fate>, n: nat, fate: Fate): (positions: seq<nat>)
    requires n <= |fates|
  {
    if n == 0 then [] else Positions(fates, n - 1, fate) + (if fates[n - 1] == fate then [n - 1] else [])
  }

  lemma {:induction false} PositionsIncrease<T>(log: Log<T>, n: nat, fate: Fate)
    requires n <= |log.fates| <= |log.fed|
    ensures var at, blocks := Positions(log.fates, n, fate), Those(log, n, fate);
      && |at| == |blocks| && (forall i :: 0 <= i < |at| ==> at[i] < n && log.fates[at[i]] == fate && blocks[i] == log.fed[at[i]])
      && forall i, j :: 0 <= i < j < |at| ==> at[i] < at[j]
  {
    if n > 0 {
      PositionsIncrease(log, n - 1, fate);
    }
  }

  // More fed and more fates leave the blocks found so far.
  lemma {:induction false} ThoseStay<T>(log: Log<T>, later: Log<T>, n: nat, fate: Fate)
    requires n <= |log.fates| <= |log.fed| && |later.fates| <= |later.fed|
    requires log.fed <= later.fed && log.fates <= later.fates
    ensures Those(later, n, fate) == Those(log, n, fate)
  {
    if n > 0 {
      ThoseStay(log, later, n - 1, fate);
    }
  }

  lemma {:induction false} OthersAddNone<T>(log: Log<T>, n: nat, m: nat, fate: Fate)
    requires n <= m <= |log.fates| <= |log.fed| && forall k :: n <= k < m ==> log.fates[k] != fate
    ensures Those(log, m, fate) == Those(log, n, fate)
    decreases m
  {
    if n < m {
      OthersAddNone(log, n, m - 1, fate);
    }
  }

  lemma {:induction false} AllPositions(fates: seq<Fate>, n: nat, fate: Fate)
    requires n <= |fates|
    ensures forall k :: 0 <= k < n && fates[k] == fate ==> k in Positions(fates, n, fate)
  {
    if n > 0 {
      AllPositions(fates, n - 1, fate);
    }
  }

  // What the worker was handed is what the log calls consumed.
  ghost predicate IsServed<T>(queue: seq<T>, log: Log<T>, taken: seq<T>) {
    IsLogged(queue, log) && taken == Those(log, |log.fates|, Consumed)
  }

  // Feeding, dropping and clearing hand out nothing.
  lemma StillServed<T>(queue: seq<T>, log: Log<T>, taken: seq<T>, queue': seq<T>, later: Log<T>)
    requires IsServed(queue, log, taken) && IsLogged(queue', later)
    requires log.fed <= later.fed && log.fates <= later.fates
    requires forall k :: |log.fates| <= k < |later.fates| ==> later.fates[k] != Consumed
    ensures IsServed(queue', later, taken)
  {
    hide Those;
    ThoseStay(log, later, |log.fates|, Consumed);
    OthersAddNone(later, |log.fates|, |later.fates|, Consumed);
  }

  lemma NowServed<T>(queue: seq<T>, log: Log<T>, taken: seq<T>)
    requires IsServed(queue, log, taken) && queue != []
    ensures IsServed(queue[1..], Log(log.fed, log.fates + [Consumed]), taken + [queue[0]])
  {
    var later := Log(log.fed, log.fates + [Consumed]);
    assert log.fed[|log.fates| + 1..] == queue[1..];
    ThoseStay(log, later, |log.fates|, Consumed);
  }

  function AllCleared(n: nat): (fates: seq<Fate>)
    ensures |fates| == n && forall k :: 0 <= k < n ==> fates[k] == Cleared
  {
    seq(n, _ => Cleared)
  }

  lemma {:induction false} NoneDropped(fates: seq<Fate>)
    requires forall k :: 0 <= k < |fates| ==> fates[k] != Dropped
    ensures Count(fates, Dropped) == 0
  {
    if fates != [] {
      NoneDropped(fates[..|fates| - 1]);
    }
  }

  lemma OneDropped()
    ensures Count([Dropped], Dropped) == 1
  {}

  // The counter all workers share.
  function TotalDropped<T>(logs: seq<Log<T>>): nat {
    if logs == [] then 0 else TotalDropped(logs[..|logs| - 1]) + Count(logs[|logs| - 1].fates, Dropped)
  }

  lemma {:induction false} TotalAfter<T>(logs: seq<Log<T>>, w: nat, log: Log<T>)
    requires w < |logs|
    ensures TotalDropped(logs[w := log]) == TotalDropped(logs) - Count(logs[w].fates, Dropped) + Count(log.fates, Dropped)
  {
    var n := |logs| - 1;
    if w == n {
      assert logs[w := log][..n] == logs[..n];
    } else {
      assert logs[w := log][..n] == logs[..n][w := log];
      TotalAfter(logs[..n], w, log);
    }
  }

  lemma PushIsLogged<T>(queue: seq<T>, log: Log<T>, block: T)
    requires IsLogged(queue, log)
    ensures |queue| < MAX_QUEUE ==> IsLogged(queue + [block], log.(fed := log.fed + [block]))
    ensures |queue| >= MAX_QUEUE ==>
              IsLogged(queue[1..] + [block], Log(log.fed + [block], log.fates + [Dropped]))
  {
    var fed := log.fed + [block];
    assert fed[|log.fates|..] == queue + [block];
    if |queue| >= MAX_QUEUE {
      assert fed[|log.fates| + 1..] == queue[1..] + [block];
    }
  }

  // The log after one more block, given how many were waiting.
  function Pushed<T>(log: Log<T>, waiting: nat, block: T): Log<T> {
    Log(log.fed + [block], log.fates + (if waiting >= MAX_QUEUE then [Dropped] else []))
  }

  class Queues<T> {
    var queues: seq<seq<T>>
    var drops: nat
    ghost var logs: seq<Log<T>>
    // Every block that Pop ever handed out, worker by worker.
    ghost var taken: seq<seq<T>>

    ghost predicate Valid()
      reads this
    {
      && |logs| == |queues| == |taken| && drops == TotalDropped(logs)
      && forall w :: 0 <= w < |queues| ==> IsServed(queues[w], logs[w], taken[w])
    }

    constructor (workers: nat)
      ensures Valid() && |queues| == workers && drops == 0
      ensures forall w :: 0 <= w < workers ==> queues[w] == [] && logs[w] == Log([], []) && taken[w] == []
    {
      queues := seq(workers, _ => []);
      drops := 0;
      logs := seq(workers, _ => Log([], []));
      taken := seq(workers, _ => []);
      new;
      NoLogs(logs);
    }

    static lemma {:induction false} NoLogs(logs: seq<Log<T>>)
      requires forall w :: 0 <= w < |logs| ==> logs[w] == Log([], [])
      ensures TotalDropped(logs) == 0
    {
      if logs != [] {
        NoLogs(logs[..|logs| - 1]);
      }
    }

    // Whatever calls came before: the blocks handed to a worker were fed to it, each at a later
    // place than the one before, and every block that was neither dropped nor cleared nor is
    // still waiting is among them.
    lemma ConsumedInOrder(w: nat) returns (at: seq<nat>)
      requires Valid() && w < |queues|
      ensures |at| == |taken[w]| && forall i :: 0 <= i < |at| ==> at[i] < |logs[w].fed| && taken[w][i] == logs[w].fed[at[i]]
      ensures forall i, j :: 0 <= i < j < |at| ==> at[i] < at[j]
      ensures forall k :: 0 <= k < |logs[w].fates| && logs[w].fates[k] == Consumed ==> k in at
      ensures |logs[w].fed| == |taken[w]| + |queues[w]| + Count(logs[w].fates, Dropped) + Count(logs[w].fates, Cleared)
    {
      hide Those, Count;
      var log := logs[w];
      assert IsServed(queues[w], log, taken[w]);
      at := Positions(log.fates, |log.fates|, Consumed);
      PositionsIncrease(log, |log.fates|, Consumed);
      AllPositions(log.fates, |log.fates|, Consumed);
      NothingIsLost(queues[w], log);
    }

    // One worker's share of feed, under its queue lock: the oldest block makes room.
    method Push(w: nat, block: T)
      requires Valid() && w < |queues|
      modifies this
      ensures Valid() && |queues| == old(|queues|)
      ensures queues == old(queues)[w := queues[w]] && logs == old(logs)[w := logs[w]] && taken == old(taken)
      ensures logs[w] == Pushed(old(logs[w]), |old(queues[w])|, block)
      ensures queues[w] == (if |old(queues[w])| >= 192 then old(queues[w])[1..] else old(queues[w])) + [block]
      ensures drops == old(drops) + if |old(queues[w])| >= 192 then 1 else 0
    {
      hide IsLogged, Count, TotalDropped, Those;
      var queue := queues[w];
      ghost var log := logs[w];
      PushIsLogged(queue, log, block);
      CountAppend(log.fates, [Dropped], Dropped);
      OneDropped();
      ghost var fates := log.fates;
      if |queue| >= MAX_QUEUE {
        queue := queue[1..];
        drops := drops + 1;
        fates := fates + [Dropped];
      }
      assert log.fates + [] == log.fates;
      TotalAfter(logs, w, Log(log.fed + [block], fates));
      StillServed(queues[w], log, taken[w], queue + [block], Log(log.fed + [block], fates));
      queues := queues[w := queue + [block]];
      logs := logs[w := Log(log.fed + [block], fates)];
    }

    // The worker takes the oldest block that is left.
    method Pop(w: nat) returns (block: T)
      requires Valid() && w < |queues| && queues[w] != []
      modifies this
      ensures Valid() && drops == old(drops) && queues == old(queues)[w := old(queues[w])[1..]]
      ensures |old(logs[w]).fates| < |old(logs[w]).fed| && block == old(logs[w]).fed[|old(logs[w]).fates|]
      ensures logs == old(logs)[w := Log(old(logs[w]).fed, old(logs[w]).fates + [Consumed])]
      ensures taken == old(taken)[w := old(taken[w]) + [block]]
    {
      hide Those, Count, TotalDropped;
      ghost var log := logs[w];
      CountAppend(log.fates, [Consumed], Dropped);
      NoneDropped([Consumed]);
      TotalAfter(logs, w, Log(log.fed, log.fates + [Consumed]));
      block := queues[w][0];
      NowServed(queues[w], log, taken[w]);
      taken := taken[w := taken[w] + [block]];
      queues := queues[w := queues[w][1..]];
      logs := logs[w := Log(log.fed, log.fates + [Consumed])];
    }

    method Clear(w: nat)
      requires Valid() && w < |queues|
      modifies this
      ensures Valid() && drops == old(drops) && queues == old(queues)[w := []] && taken == old(taken)
      ensures logs == old(logs)[w := Log(old(logs[w]).fed, old(logs[w]).fates + AllCleared(|old(queues[w])|))]
    {
      hide Those, Count, TotalDropped;
      ghost var log, n := logs[w], |queues[w]|;
      CountAppend(log.fates, AllCleared(n), Dropped);
      NoneDropped(AllCleared(n));
      TotalAfter(logs, w, Log(log.fed, log.fates + AllCleared(n)));
      StillServed(queues[w], log, taken[w], [], Log(log.fed, log.fates + AllCleared(n)));
      queues := queues[w := []];
      logs := logs[w := Log(log.fed, log.fates + AllCleared(n))];
    }

    // feed, lines 69-90: every worker that has decoders gets the block.
    method Feed(block: T, counts: seq<int>)
      requires Valid() && |counts| == |queues|
      modifies this
      ensures Valid() && |queues| == old(|queues|) && taken == old(taken)
      ensures forall w :: 0 <= w < |queues| ==>
                logs[w] == if counts[w] == 0 then old(logs[w]) else Pushed(old(logs[w]), |old(queues[w])|, block)
      ensures forall w :: 0 <= w < |queues| && counts[w] == 0 ==> queues[w] == old(queues[w])
    {
      hide IsServed, TotalDropped;
      var w := 0;
      while w < |queues|
        invariant Valid() && 0 <= w <= |queues| == old(|queues|) && taken == old(taken)
        invariant forall v :: 0 <= v < |queues| ==>
                    logs[v] == if v < w && counts[v] != 0 then Pushed(old(logs[v]), |old(queues[v])|, block) else old(logs[v])
        invariant forall v :: 0 <= v < |queues| && (v >= w || counts[v] == 0) ==> queues[v] == old(queues[v])
      {
        if counts[w] != 0 {
          Push(w, block);
        }
        w := w + 1;
      }
    }
  }
}

module DecoderCalls {
  import opened DecoderRecords
  import opened DecoderProtocol
  import opened Values

  const VOICE := 8400

  // ---- Scanning all workers ----------------------------------------------------

  function ScanAll(workers: seq<Worker>, n: nat, frequency: real): Best
    requires n <= |workers|
  {
    if n == 0 then Best(NoChoice, NO_LOAD) else ScanWorker(n - 1, workers[n - 1], frequency, ScanAll(workers, n - 1, frequency))
  }

  // The choice made from the sub-bands seen so far: a covering one with the least load, the first
  // of several.
  ghost predicate IsLeast(workers: seq<Worker>, n: nat, frequency: real, best: Best)
    requires n <= |workers|
  {
    && best.load <= NO_LOAD
    && (best.choice.NoChoice? ==> best.load == NO_LOAD)
    && (best.choice.Choice? ==> best.choice.worker < n && exists b :: IsFirstLeast(workers, frequency, best, b))
    && forall w, b :: 0 <= w < n && 0 <= b < |workers[w].bands| && Covers(workers[w].bands[b], frequency) ==>
         best.load <= Load(workers[w], workers[w].bands[b])
  }

  // The choice is sub-band b of its worker, and every covering one before it has more load.
  ghost predicate IsFirstLeast(workers: seq<Worker>, frequency: real, best: Best, b: nat)
    requires best.choice.Choice? && best.choice.worker < |workers|
  {
    var w := best.choice.worker;
    && b < |workers[w].bands| && HasLoad(workers[w], b, best.choice.key, frequency, best.load) && best.load < NO_LOAD
    && forall v, c :: 0 <= v <= w && 0 <= c < |workers[v].bands| && (v < w || c < b) && Covers(workers[v].bands[c], frequency) ==>
         best.load < Load(workers[v], workers[v].bands[c])
  }

  ghost predicate HasLoad(worker: Worker, b: nat, key: nat, frequency: real, load: int) {
    b < |worker.bands| && worker.bands[b].key == key && Covers(worker.bands[b], frequency) && load == Load(worker, worker.bands[b])
  }

  // One worker's sub-bands: nothing better, or the first of the best.
  ghost predicate IsLeastHere(w: nat, worker: Worker, n: nat, frequency: real, best: Best, r: Best)
    requires n <= |worker.bands|
  {
    && (forall b :: 0 <= b < n && Covers(worker.bands[b], frequency) ==> r.load <= Load(worker, worker.bands[b]))
    && (r == best || (r.load < best.load && r.choice.Choice? && r.choice.worker == w && exists b: nat ::
          b < n && HasLoad(worker, b, r.choice.key, frequency, r.load)
          && forall c :: 0 <= c < b && Covers(worker.bands[c], frequency) ==> r.load < Load(worker, worker.bands[c])))
  }

  lemma {:induction false} ScanBandsIsLeast(w: nat, worker: Worker, n: nat, frequency: real, best: Best)
    requires n <= |worker.bands|
    ensures IsLeastHere(w, worker, n, frequency, best, ScanBands(w, worker, n, frequency, best))
  {
    hide Covers, Load;
    if n > 0 {
      ScanBandsIsLeast(w, worker, n - 1, frequency, best);
      var before, r := ScanBands(w, worker, n - 1, frequency, best), ScanBands(w, worker, n, frequency, best);
      if r != before {
        assert HasLoad(worker, n - 1, r.choice.key, frequency, r.load);
      } else if before != best {
        var b: nat :| b < n - 1 && HasLoad(worker, b, before.choice.key, frequency, before.load)
                 && forall c :: 0 <= c < b && Covers(worker.bands[c], frequency) ==> before.load < Load(worker, worker.bands[c]);
        assert HasLoad(worker, b, r.choice.key, frequency, r.load);
      }
    }
  }

  lemma {:induction false} ScanAllIsLeast(workers: seq<Worker>, n: nat, frequency: real)
    requires n <= |workers|
    ensures IsLeast(workers, n, frequency, ScanAll(workers, n, frequency))
  {
    hide Covers, Load, HasLoad, ScanBands, IsFirstLeast, IsLeastHere;
    if n > 0 {
      ScanAllIsLeast(workers, n - 1, frequency);
      var best, worker := ScanAll(workers, n - 1, frequency), workers[n - 1];
      ScanBandsIsLeast(n - 1, worker, |worker.bands|, frequency, best);
      LeastOfAll(workers, n, frequency, best, ScanAll(workers, n, frequency));
    }
  }

  lemma LeastOfAll(workers: seq<Worker>, n: nat, frequency: real, best: Best, r: Best)
    requires 0 < n <= |workers| && IsLeast(workers, n - 1, frequency, best)
    requires IsLeastHere(n - 1, workers[n - 1], |workers[n - 1].bands|, frequency, best, r)
    ensures IsLeast(workers, n, frequency, r)
  {
    hide Covers, Load, HasLoad;
    var worker := workers[n - 1];
    if r != best {
      var b: nat :| b < |worker.bands| && HasLoad(worker, b, r.choice.key, frequency, r.load)
               && forall c :: 0 <= c < b && Covers(worker.bands[c], frequency) ==> r.load < Load(worker, worker.bands[c]);
      assert IsFirstLeast(workers, frequency, r, b);
    }
  }

  // ---- What the scan means -----------------------------------------------------

  // A sub-band that a decoder of this frequency may join: within 40% of its rate, and not
  // beyond what an int can count.
  ghost predicate MayJoin(workers: seq<Worker>, frequency: real, w: int, b: int) {
    && 0 <= w < |workers| && 0 <= b < |workers[w].bands|
    && -0.40 * workers[w].bands[b].rate < frequency - workers[w].bands[b].center < 0.40 * workers[w].bands[b].rate
    && (|workers[w].bands[b].decoders| >= 4 ==> Total(workers, w, b) < 0x7FFF_FFFF)
  }

  // What counts of an overloaded sub-band: all its worker has to do.
  function Total(workers: seq<Worker>, w: int, b: int): int
    requires 0 <= w < |workers| && 0 <= b < |workers[w].bands|
  {
    workers[w].weight + 10 * |workers[w].bands| + 8 * |workers[w].bands[b].decoders|
  }

  // The one rather than the other: below four decoders the number decides, from four on the
  // total, and one below four always beats one that is not.
  predicate IsLighter(workers: seq<Worker>, w: int, b: int, v: int, c: int)
    requires 0 <= w < |workers| && 0 <= b < |workers[w].bands| && 0 <= v < |workers| && 0 <= c < |workers[v].bands|
  {
    var mine, other := |workers[w].bands[b].decoders|, |workers[v].bands[c].decoders|;
    if mine < 4 && other < 4 then mine < other
    else if mine >= 4 && other >= 4 then Total(workers, w, b) < Total(workers, v, c)
    else mine < 4
  }

  // No other is lighter, and none that the scan meets earlier is as light.
  ghost predicate IsBestBand(workers: seq<Worker>, frequency: real, w: int, b: int) {
    && MayJoin(workers, frequency, w, b)
    && forall v, c :: MayJoin(workers, frequency, v, c) ==>
         !IsLighter(workers, v, c, w, b) && (v < w || (v == w && c < b) ==> IsLighter(workers, w, b, v, c))
  }

  lemma LoadMeans(workers: seq<Worker>, w: int, b: int, v: int, c: int)
    requires 0 <= w < |workers| && 0 <= b < |workers[w].bands| && 0 <= v < |workers| && 0 <= c < |workers[v].bands|
    requires workers[w].weight >= 0 && workers[v].weight >= 0
    ensures Load(workers[w], workers[w].bands[b]) < Load(workers[v], workers[v].bands[c]) <==> IsLighter(workers, w, b, v, c)
  {
    LoadOrders(workers[w], workers[w].bands[b], workers[v], workers[v].bands[c]);
    LoadOrders(workers[v], workers[v].bands[c], workers[w], workers[w].bands[b]);
  }

  lemma CoverMeans(workers: seq<Worker>, frequency: real, w: int, b: int)
    requires 0 <= w < |workers| && 0 <= b < |workers[w].bands|
    ensures MayJoin(workers, frequency, w, b) <==>
              Covers(workers[w].bands[b], frequency) && Load(workers[w], workers[w].bands[b]) < NO_LOAD
  {}

  // What the scan finds is the best sub-band there is, or there is none.
  lemma ScanFindsBest(workers: seq<Worker>, frequency: real, best: Best)
    requires IsLeast(workers, |workers|, frequency, best) && forall w :: 0 <= w < |workers| ==> workers[w].weight >= 0
    ensures best.choice.NoChoice? ==> forall w, b :: !MayJoin(workers, frequency, w, b)
    ensures best.choice.Choice? ==> best.choice.worker < |workers|
    ensures best.choice.Choice? ==>
              forall b: nat :: IsFirstLeast(workers, frequency, best, b) ==> IsBestBand(workers, frequency, best.choice.worker, b)
  {
    hide Covers, Load, MayJoin, IsLighter;
    forall w, b | 0 <= w < |workers| && 0 <= b < |workers[w].bands|
      ensures MayJoin(workers, frequency, w, b) <==>
                Covers(workers[w].bands[b], frequency) && Load(workers[w], workers[w].bands[b]) < NO_LOAD
    {
      CoverMeans(workers, frequency, w, b);
    }
    OnlyPlacesJoin(workers, frequency);
    if best.choice.Choice? {
      var w := best.choice.worker;
      forall b: nat | IsFirstLeast(workers, frequency, best, b)
        ensures IsBestBand(workers, frequency, w, b)
      {
        FirstIsBest(workers, frequency, best, b);
      }
    }
  }

  lemma OnlyPlacesJoin(workers: seq<Worker>, frequency: real)
    ensures forall w, b :: MayJoin(workers, frequency, w, b) ==> 0 <= w < |workers| && 0 <= b < |workers[w].bands|
  {}

  lemma FirstIsBest(workers: seq<Worker>, frequency: real, best: Best, b: nat)
    requires IsLeast(workers, |workers|, frequency, best) && forall w :: 0 <= w < |workers| ==> workers[w].weight >= 0
    requires best.choice.Choice? && IsFirstLeast(workers, frequency, best, b)
    ensures IsBestBand(workers, frequency, best.choice.worker, b)
  {
    hide Covers, Load, MayJoin, IsLighter;
    var w := best.choice.worker;
    OnlyPlacesJoin(workers, frequency);
    CoverMeans(workers, frequency, w, b);
    forall v, c | MayJoin(workers, frequency, v, c)
      ensures !IsLighter(workers, v, c, w, b) && (v < w || (v == w && c < b) ==> IsLighter(workers, w, b, v, c))
    {
      CoverMeans(workers, frequency, v, c);
      LoadMeans(workers, w, b, v, c);
      LoadMeans(workers, v, c, w, b);
    }
  }

  // What a worker has to do: a sub-band counts like five decoders of weight one.
  function Effort(worker: Worker): int {
    worker.weight + |worker.bands| * 5
  }

  // ---- The monitored decoder ---------------------------------------------------

  // Only the voice decoder of that id may be heard.
  ghost predicate OnlyMonitor(worker: Worker, id: int) {
    forall b, i :: 0 <= b < |worker.bands| && 0 <= i < |worker.bands[b].decoders| && worker.bands[b].decoders[i].monitored ==>
      worker.bands[b].decoders[i].IsVoice() && worker.bands[b].decoders[i].id == id
  }

  ghost predicate IsAt(workers: seq<Worker>, w: int, b: int, i: int) {
    0 <= w < |workers| && 0 <= b < |workers[w].bands| && 0 <= i < |workers[w].bands[b].decoders|
  }

  function DecoderAt(workers: seq<Worker>, w: int, b: int, i: int): Decoder
    requires IsAt(workers, w, b, i)
  {
    workers[w].bands[b].decoders[i]
  }

  ghost predicate Unique(workers: seq<Worker>) {
    forall id :: AllIds(workers)[id] <= 1
  }

  lemma {:induction false} TwiceInBand(decoders: seq<Decoder>, i: nat, k: nat)
    requires i < k < |decoders| && decoders[i].id == decoders[k].id
    ensures Ids(decoders)[decoders[i].id] >= 2
  {
    InIds(decoders, k);
    var left := Without(decoders, k);
    assert left[i] == decoders[i];
    InIds(left, i);
  }

  lemma {:induction false} InBandIds(bands: seq<SubBand>, b: nat, i: nat)
    requires b < |bands| && i < |bands[b].decoders|
    ensures BandIds(bands)[bands[b].decoders[i].id] >= Ids(bands[b].decoders)[bands[b].decoders[i].id] >= 1
  {
    hide BandIds, Ids;
    InIds(bands[b].decoders, i);
    var rest := SplitBands(bands, b);
  }

  lemma InAllIds(workers: seq<Worker>, w: nat, b: nat, i: nat)
    requires IsAt(workers, w, b, i)
    ensures DecoderAt(workers, w, b, i).id in AllIds(workers)
  {
    hide AllIds, BandIds, Ids;
    InBandIds(workers[w].bands, b, i);
    var rest := SplitWorkers(workers, w);
  }

  lemma TwiceInBands(bands: seq<SubBand>, b: nat, i: nat, c: nat, k: nat)
    requires b < |bands| && i < |bands[b].decoders| && c < |bands| && k < |bands[c].decoders|
    requires b < c || (b == c && i < k)
    requires bands[b].decoders[i].id == bands[c].decoders[k].id
    ensures BandIds(bands)[bands[b].decoders[i].id] >= 2
  {
    hide BandIds, Ids;
    InIds(bands[c].decoders, k);
    var rest := SplitBands(bands, c);
    if b == c {
      TwiceInBand(bands[b].decoders, i, k);
    } else {
      InBandIds(bands[..c] + bands[c + 1..], b, i);
    }
  }

  lemma NoBands()
    ensures BandIds([]) == multiset{}
  {}

  lemma TwiceInWorkers(workers: seq<Worker>, w: nat, b: nat, i: nat, v: nat, c: nat, k: nat)
    requires IsAt(workers, w, b, i) && IsAt(workers, v, c, k)
    requires w < v || (w == v && (b < c || (b == c && i < k)))
    requires DecoderAt(workers, w, b, i).id == DecoderAt(workers, v, c, k).id
    ensures AllIds(workers)[DecoderAt(workers, w, b, i).id] >= 2
  {
    hide AllIds, BandIds, Ids;
    var rest := SplitWorkers(workers, v);
    if w == v {
      TwiceInBands(workers[v].bands, b, i, c, k);
    } else {
      InBandIds(workers[v].bands, c, k);
      var empty := Worker([], 0, 0);
      InAllIds(workers[v := empty], w, b, i);
      NoBands();
    }
  }

  // At most one decoder is ever heard.
  lemma AtMostOneMonitored(workers: seq<Worker>, monitor: int, w: nat, b: nat, i: nat, v: nat, c: nat, k: nat)
    requires Unique(workers) && forall u :: 0 <= u < |workers| ==> OnlyMonitor(workers[u], monitor)
    requires IsAt(workers, w, b, i) && DecoderAt(workers, w, b, i).monitored
    requires IsAt(workers, v, c, k) && DecoderAt(workers, v, c, k).monitored
    ensures w == v && b == c && i == k
    ensures DecoderAt(workers, w, b, i).IsVoice() && DecoderAt(workers, w, b, i).id == monitor
  {
    hide AllIds;
    assert OnlyMonitor(workers[w], monitor) && OnlyMonitor(workers[v], monitor);
    if w < v || (w == v && (b < c || (b == c && i < k))) {
      TwiceInWorkers(workers, w, b, i, v, c, k);
    } else if v < w || (w == v && (c < b || (b == c && k < i))) {
      TwiceInWorkers(workers, v, c, k, w, b, i);
    }
  }

  // ---- Flags -------------------------------------------------------------------

  function FlaggedDecoder(d: Decoder, id: int): Decoder {
    d.(monitored := d.IsVoice() && d.id == id)
  }

  function FlaggedBand(band: SubBand, id: int): (f: SubBand)
    ensures |f.decoders| == |band.decoders|
  {
    band.(decoders := seq(|band.decoders|, i requires 0 <= i < |band.decoders| => FlaggedDecoder(band.decoders[i], id)))
  }

  function Flagged(worker: Worker, id: int): (f: Worker)
    ensures |f.bands| == |worker.bands|
  {
    worker.(bands := seq(|worker.bands|, b requires 0 <= b < |worker.bands| => FlaggedBand(worker.bands[b], id)))
  }

  // The same decoders in the same places, whatever their flags.
  ghost predicate SameDecoders(a: seq<Decoder>, b: seq<Decoder>) {
    |a| == |b| && forall i :: 0 <= i < |a| ==> a[i].(monitored := false) == b[i].(monitored := false)
  }

  ghost predicate SamePlaces(a: Worker, b: Worker) {
    && a.count == b.count && a.weight == b.weight && |a.bands| == |b.bands|
    && forall k :: 0 <= k < |a.bands| ==>
         a.bands[k].key == b.bands[k].key && a.bands[k].center == b.bands[k].center && a.bands[k].rate == b.bands[k].rate
         && SameDecoders(a.bands[k].decoders, b.bands[k].decoders)
  }

  lemma {:induction false} SameIds(a: seq<Decoder>, b: seq<Decoder>)
    requires SameDecoders(a, b)
    ensures Ids(a) == Ids(b)
  {
    if a != [] {
      SameIds(a[..|a| - 1], b[..|b| - 1]);
    }
  }

  lemma {:induction false} SameBandIds(a: seq<SubBand>, b: seq<SubBand>)
    requires |a| == |b| && forall k :: 0 <= k < |a| ==> SameDecoders(a[k].decoders, b[k].decoders)
    ensures BandIds(a) == BandIds(b)
  {
    hide SameDecoders;
    if a != [] {
      SameBandIds(a[..|a| - 1], b[..|b| - 1]);
      SameIds(a[|a| - 1].decoders, b[|b| - 1].decoders);
    }
  }

  lemma {:induction false} SameWeigh(a: seq<Decoder>, b: seq<Decoder>)
    requires SameDecoders(a, b)
    ensures Weigh(a) == Weigh(b)
  {
    if a != [] {
      SameWeigh(a[..|a| - 1], b[..|b| - 1]);
      assert a[|a| - 1].(monitored := false) == b[|b| - 1].(monitored := false);
    }
  }

  lemma {:induction false} SameBandsWeight(a: seq<SubBand>, b: seq<SubBand>)
    requires |a| == |b| && forall k :: 0 <= k < |a| ==> SameDecoders(a[k].decoders, b[k].decoders)
    ensures BandsWeight(a) == BandsWeight(b)
  {
    hide SameDecoders;
    if a != [] {
      SameBandsWeight(a[..|a| - 1], b[..|b| - 1]);
      SameWeigh(a[|a| - 1].decoders, b[|b| - 1].decoders);
    }
  }

  lemma SamePlacesIsSound(a: Worker, b: Worker, nextKey: nat)
    requires SamePlaces(a, b) && IsSound(a) && KeysAreFresh(a, nextKey)
    ensures IsSound(b) && KeysAreFresh(b, nextKey) && BandIds(b.bands) == BandIds(a.bands)
  {
    hide BandIds, Covers;
    SameBandIds(a.bands, b.bands);
    SameBandsWeight(a.bands, b.bands);
    forall k | 0 <= k < |b.bands|
      ensures IsSoundBand(b.bands[k])
    {
      assert IsSoundBand(a.bands[k]);
      SameCover(a.bands[k], b.bands[k].decoders);
      assert b.bands[k] == a.bands[k].(decoders := b.bands[k].decoders);
      forall d | d in b.bands[k].decoders
        ensures Covers(b.bands[k], d.frequency)
      {
        var i :| 0 <= i < |b.bands[k].decoders| && b.bands[k].decoders[i] == d;
        assert a.bands[k].decoders[i] in a.bands[k].decoders;
      }
    }
  }

  lemma FlaggedIsSame(worker: Worker, id: int)
    ensures SamePlaces(worker, Flagged(worker, id)) && OnlyMonitor(Flagged(worker, id), id)
  {}

  // One decoder switched on.
  function SwitchedOn(worker: Worker, b: nat, i: nat): Worker
    requires b < |worker.bands| && i < |worker.bands[b].decoders|
  {
    var band := worker.bands[b];
    worker.(bands := worker.bands[b := band.(decoders := band.decoders[i := band.decoders[i].(monitored := true)])])
  }

  // ---- What holds between calls ------------------------------------------------

  // Sound workers, every id once and below the next one, and nobody heard but the voice decoder
  // of the monitor's id.
  ghost predicate IsValid(workers: seq<Worker>, nextId: int, nextKey: nat, monitor: int) {
    && nextId >= 1 && AreSound(workers, nextKey) && AreQuiet(workers, monitor)
    && AreIds(AllIds(workers), nextId)
  }

  ghost predicate AreSound(workers: seq<Worker>, nextKey: nat) {
    forall w :: 0 <= w < |workers| ==> IsSound(workers[w]) && KeysAreFresh(workers[w], nextKey)
  }

  ghost predicate AreQuiet(workers: seq<Worker>, monitor: int) {
    forall w :: 0 <= w < |workers| ==> OnlyMonitor(workers[w], monitor)
  }

  ghost predicate AreIds(ids: multiset<int>, nextId: int) {
    forall id :: ids[id] <= 1 && (id in ids ==> 1 <= id < nextId)
  }

  lemma ReplacedAreSound(workers: seq<Worker>, nextKey: nat, w: nat, after: Worker, laterKey: nat)
    requires AreSound(workers, nextKey) && w < |workers| && nextKey <= laterKey
    requires IsSound(after) && KeysAreFresh(after, laterKey)
    ensures AreSound(workers[w := after], laterKey)
  {
    hide IsSound;
    var all := workers[w := after];
    forall v | 0 <= v < |workers|
      ensures IsSound(all[v]) && KeysAreFresh(all[v], laterKey)
    {
      if v != w {
        assert KeysAreFresh(workers[v], nextKey);
      }
    }
  }

  // Without a monitor nobody is heard.
  lemma NobodyHeard(workers: seq<Worker>, nextId: int, monitor: int, other: int)
    requires AreQuiet(workers, monitor) && AreIds(AllIds(workers), nextId) && monitor !in AllIds(workers)
    ensures AreQuiet(workers, other)
  {
    hide AllIds;
    forall w, b, i | IsAt(workers, w, b, i)
      ensures !DecoderAt(workers, w, b, i).monitored
    {
      assert OnlyMonitor(workers[w], monitor);
      InAllIds(workers, w, b, i);
    }
    forall w | 0 <= w < |workers|
      ensures OnlyMonitor(workers[w], other)
    {
      forall b, i | 0 <= b < |workers[w].bands| && 0 <= i < |workers[w].bands[b].decoders|
        ensures !workers[w].bands[b].decoders[i].monitored
      {
        assert IsAt(workers, w, b, i);
        assert !DecoderAt(workers, w, b, i).monitored;
      }
    }
  }

  // The monitor after a decoder came, with the decoder's own flag.
  function MonitorWith(monitor: int, d: Decoder): int {
    if d.monitored then d.id else monitor
  }

  // A new decoder is heard only when nobody was, and only if it is a voice decoder.
  predicate MayBeHeard(monitor: int, d: Decoder) {
    d.monitored ==> d.IsVoice() && monitor < 0
  }

  lemma QuietWith(workers: seq<Worker>, nextId: int, monitor: int, w: nat, after: Worker, d: Decoder)
    requires AreQuiet(workers, monitor) && AreIds(AllIds(workers), nextId) && w < |workers| && MayBeHeard(monitor, d)
    requires OnlyMonitor(workers[w], MonitorWith(monitor, d)) ==> OnlyMonitor(after, MonitorWith(monitor, d))
    ensures AreQuiet(workers[w := after], MonitorWith(monitor, d))
  {
    hide AllIds, OnlyMonitor;
    if d.monitored {
      NobodyHeard(workers, nextId, monitor, d.id);
    }
  }

  lemma JoinIsQuiet(worker: Worker, b: nat, d: Decoder, later: int)
    requires b < |worker.bands| && (d.monitored ==> d.IsVoice() && d.id == later)
    ensures OnlyMonitor(worker, later) ==> OnlyMonitor(WithDecoder(worker, b, d), later)
  {}

  lemma OpenIsQuiet(worker: Worker, key: nat, rate: real, d: Decoder, later: int)
    requires d.monitored ==> d.IsVoice() && d.id == later
    ensures OnlyMonitor(worker, later) ==> OnlyMonitor(WithBand(worker, key, rate, d), later)
  {}

  lemma JoinIsValid(workers: seq<Worker>, nextKey: nat, monitor: int, w: nat, b: nat, d: Decoder)
    requires IsValid(workers, d.id, nextKey, monitor) && w < |workers| && b < |workers[w].bands|
    requires Covers(workers[w].bands[b], d.frequency) && MayBeHeard(monitor, d)
    ensures var after := workers[w := WithDecoder(workers[w], b, d)];
      AllIds(after) == AllIds(workers) + multiset{d.id} && IsValid(after, d.id + 1, nextKey, MonitorWith(monitor, d))
  {
    hide IsSound, AllIds, BandIds, Covers, WithDecoder;
    var after := WithDecoder(workers[w], b, d);
    assert KeysAreFresh(workers[w], nextKey);
    InsertIsSound(workers[w], b, d);
    InsertKeeps(workers[w], b, d, nextKey);
    ReplacedAreSound(workers, nextKey, w, after, nextKey);
    JoinIsQuiet(workers[w], b, d, MonitorWith(monitor, d));
    QuietWith(workers, d.id, monitor, w, after, d);
    var rest := SplitWorkers(workers, w);
  }

  lemma OpenIsValid(workers: seq<Worker>, nextKey: nat, monitor: int, w: nat, rate: real, d: Decoder)
    requires IsValid(workers, d.id, nextKey, monitor) && w < |workers| && rate > 0.0 && MayBeHeard(monitor, d)
    ensures var after := workers[w := WithBand(workers[w], nextKey, rate, d)];
      AllIds(after) == AllIds(workers) + multiset{d.id} && IsValid(after, d.id + 1, nextKey + 1, MonitorWith(monitor, d))
  {
    hide IsSound, AllIds, BandIds, WithBand;
    var after := WithBand(workers[w], nextKey, rate, d);
    assert KeysAreFresh(workers[w], nextKey);
    CreateIsSound(workers[w], nextKey, rate, d);
    CreateKeeps(workers[w], nextKey, rate, d);
    ReplacedAreSound(workers, nextKey, w, after, nextKey + 1);
    OpenIsQuiet(workers[w], nextKey, rate, d, MonitorWith(monitor, d));
    QuietWith(workers, d.id, monitor, w, after, d);
    var rest := SplitWorkers(workers, w);
  }

  lemma RemovedIsValid(workers: seq<Worker>, nextId: int, nextKey: nat, monitor: int, w: nat, id: int)
    requires IsValid(workers, nextId, nextKey, monitor) && w < |workers| && WithoutDecoder(workers[w], id).Some?
    ensures id in AllIds(workers)
    ensures var after := workers[w := WithoutDecoder(workers[w], id).value];
      AllIds(after) == AllIds(workers) - multiset{id} && IsValid(after, nextId, nextKey, if id == monitor then -1 else monitor)
  {
    hide IsSound, AllIds, BandIds, WithoutAt;
    var worker, after := workers[w], WithoutDecoder(workers[w], id).value;
    var b := FindBand(worker.bands, id, 0);
    var i := FindId(worker.bands[b].decoders, id, 0);
    assert KeysAreFresh(worker, nextKey);
    RemoveIsSound(worker, id);
    RemoveKeeps(worker, b, i, nextKey);
    ReplacedAreSound(workers, nextKey, w, after, nextKey);
    RemovedIsQuiet(worker, b, i, monitor);
    var rest := SplitWorkers(workers, w);
    assert AreQuiet(workers[w := after], monitor);
    assert AllIds(workers[w := after]) == AllIds(workers) - multiset{id};
    assert AllIds(workers)[id] <= 1;
    assert AreIds(AllIds(workers[w := after]), nextId);
    if id == monitor {
      NobodyHeard(workers[w := after], nextId, monitor, -1);
    }
  }

  lemma RemovedIsQuiet(worker: Worker, b: nat, i: nat, monitor: int)
    requires b < |worker.bands| && i < |worker.bands[b].decoders| && OnlyMonitor(worker, monitor)
    ensures OnlyMonitor(WithoutAt(worker, b, i), monitor)
  {
    var after := WithoutAt(worker, b, i);
    var gone := Without(worker.bands[b].decoders, i) == [];
    forall c, k | 0 <= c < |after.bands| && 0 <= k < |after.bands[c].decoders| && after.bands[c].decoders[k].monitored
      ensures after.bands[c].decoders[k].IsVoice() && after.bands[c].decoders[k].id == monitor
    {
      var c' := if gone && c >= b then c + 1 else c;
      var k' := if !gone && c == b && k >= i then k + 1 else k;
      assert worker.bands[c'].decoders[k'] == after.bands[c].decoders[k];
    }
  }

  lemma {:induction false} NobodyHasIt(workers: seq<Worker>, id: int)
    requires forall w :: 0 <= w < |workers| ==> WithoutDecoder(workers[w], id).None?
    ensures id !in AllIds(workers)
  {
    if workers != [] {
      NobodyHasIt(workers[..|workers| - 1], id);
      NotInBands(workers[|workers| - 1].bands, id);
    }
  }

  lemma {:induction false} SameAllIds(a: seq<Worker>, b: seq<Worker>)
    requires |a| == |b| && forall w :: 0 <= w < |a| ==> SamePlaces(a[w], b[w])
    ensures AllIds(a) == AllIds(b)
  {
    if a != [] {
      SameAllIds(a[..|a| - 1], b[..|b| - 1]);
      SameBandIds(a[|a| - 1].bands, b[|b| - 1].bands);
    }
  }

  // Flags aside nothing changed.
  lemma ReflaggedIsValid(before: seq<Worker>, after: seq<Worker>, nextId: int, nextKey: nat, monitor: int, later: int)
    requires IsValid(before, nextId, nextKey, monitor) && AreQuiet(after, later)
    requires |before| == |after| && forall w :: 0 <= w < |before| ==> SamePlaces(before[w], after[w])
    ensures AllIds(after) == AllIds(before) && IsValid(after, nextId, nextKey, later)
  {
    hide IsSound, AllIds, SamePlaces, OnlyMonitor, KeysAreFresh;
    SameAllIds(before, after);
    forall w | 0 <= w < |after|
      ensures IsSound(after[w]) && KeysAreFresh(after[w], nextKey)
    {
      assert IsSound(before[w]) && SamePlaces(before[w], after[w]);
      SamePlacesIsSound(before[w], after[w], nextKey);
    }
  }

  // ---- Where a decoder goes ----------------------------------------------------

  // What a decoder weighs.
  function WeightOf(baud: int): int {
    if baud == 1 then 1 else if baud == 8400 || baud == 10500 then 2 else 3
  }

  // The decoder is one more in its worker, behind those of sub-band b.
  ghost predicate JoinsAt(before: Worker, after: Worker, b: nat, d: Decoder) {
    && b < |before.bands| == |after.bands| && after.bands == before.bands[b := after.bands[b]]
    && after.bands[b] == before.bands[b].(decoders := before.bands[b].decoders + [d])
    && after.count == before.count + 1 && after.weight == before.weight + WeightOf(d.baud)
  }

  // The decoder is one more in its worker, alone in a new last sub-band on its frequency.
  ghost predicate OpensBand(before: Worker, after: Worker, key: nat, rate: real, d: Decoder) {
    && after.bands == before.bands + [SubBand(key, d.frequency, rate, [d])]
    && after.count == before.count + 1 && after.weight == before.weight + WeightOf(d.baud)
  }

  // Where addDecoder puts a decoder: with the best sub-band it may join, or, if there is none, in a
  // new one on the worker with the least to do, a sub-band counted like five.
  ghost predicate IsPlaced(before: seq<Worker>, after: seq<Worker>, w: nat, nextKey: nat, rate: real, d: Decoder) {
    && w < |before| == |after| && after == before[w := after[w]]
    && (if exists v, c :: MayJoin(before, d.frequency, v, c)
        then exists b :: IsBestBand(before, d.frequency, w, b) && JoinsAt(before[w], after[w], b, d)
        else OpensBand(before[w], after[w], nextKey, rate, d) && IsIdlest(before, w))
  }

  // No worker has less to do, and none before it as little.
  ghost predicate IsIdlest(workers: seq<Worker>, w: nat) {
    && w < |workers|
    && (forall v :: 0 <= v < |workers| ==> workers[w].weight + 5 * |workers[w].bands| <= workers[v].weight + 5 * |workers[v].bands|)
    && forall v :: 0 <= v < w ==> workers[w].weight + 5 * |workers[w].bands| < workers[v].weight + 5 * |workers[v].bands|
  }

  lemma JoinIsPlaced(workers: seq<Worker>, best: Best, b: nat, nextKey: nat, rate: real, d: Decoder)
    requires IsLeast(workers, |workers|, d.frequency, best) && forall w :: 0 <= w < |workers| ==> workers[w].weight >= 0
    requires best.choice.Choice? && best.choice.worker < |workers| && IsFirstLeast(workers, d.frequency, best, b)
    ensures var w := best.choice.worker; IsPlaced(workers, workers[w := WithDecoder(workers[w], b, d)], w, nextKey, rate, d)
  {
    hide IsLeast, MayJoin, IsLighter;
    var w := best.choice.worker;
    FirstIsBest(workers, d.frequency, best, b);
    assert JoinsAt(workers[w], WithDecoder(workers[w], b, d), b, d);
    assert MayJoin(workers, d.frequency, w, b);
  }

  lemma OpenIsPlaced(workers: seq<Worker>, best: Best, w: nat, nextKey: nat, rate: real, d: Decoder)
    requires IsLeast(workers, |workers|, d.frequency, best) && forall v :: 0 <= v < |workers| ==> workers[v].weight >= 0
    requires best.choice.NoChoice? && w < |workers| && IsIdlest(workers, w)
    ensures IsPlaced(workers, workers[w := WithBand(workers[w], nextKey, rate, d)], w, nextKey, rate, d)
  {
    hide IsLeast, MayJoin, IsIdlest;
    ScanFindsBest(workers, d.frequency, best);
    assert OpensBand(workers[w], WithBand(workers[w], nextKey, rate, d), nextKey, rate, d);
  }

  // One decoder fewer, at place i of sub-band b, which goes with its last one.
  ghost predicate LeavesFrom(before: Worker, after: Worker, b: nat, i: nat) {
    && b < |before.bands| && i < |before.bands[b].decoders|
    && after.count == before.count - 1 && after.weight == before.weight - WeightOf(before.bands[b].decoders[i].baud)
    && (if |before.bands[b].decoders| == 1 then after.bands == before.bands[..b] + before.bands[b + 1..]
        else |after.bands| == |before.bands| && after.bands == before.bands[b := after.bands[b]]
             && after.bands[b] == before.bands[b].(decoders := before.bands[b].decoders[..i] + before.bands[b].decoders[i + 1..]))
  }

  lemma RemovalLeaves(worker: Worker, id: int)
    requires WithoutDecoder(worker, id).Some?
    ensures exists b: nat, i: nat :: LeavesFrom(worker, WithoutDecoder(worker, id).value, b, i) && worker.bands[b].decoders[i].id == id
  {
    var b := FindBand(worker.bands, id, 0);
    var i := FindId(worker.bands[b].decoders, id, 0);
    var left := Without(worker.bands[b].decoders, i);
    assert left == [] <==> |worker.bands[b].decoders| == 1;
    assert LeavesFrom(worker, WithoutAt(worker, b, i), b, i);
  }

  // ---- The calls as runs of critical sections ----------------------------------

  function Scans(t: nat, n: nat): (run: seq<Action>) {
    if n == 0 then [] else [Scan(t)] + Scans(t, n - 1)
  }

  // A scan that nobody disturbs has seen all workers as they are.
  lemma {:induction false} ScansAlone(s: State, t: nat, id: int, frequency: real, baud: int, next: nat)
    requires t < |s.threads| && next <= |s.workers|
    requires s.threads[t] == Scanning(id, frequency, baud, next, ScanAll(s.workers, next, frequency))
    ensures var n := |s.workers|;
      && Legal(s, Scans(t, n - next))
      && After(s, Scans(t, n - next))
           == s.(threads := s.threads[t := Scanning(id, frequency, baud, n, ScanAll(s.workers, n, frequency))])
    decreases |s.workers| - next
  {
    hide ScanWorker;
    var n := |s.workers|;
    if next == n {
      assert s.threads[t := s.threads[t]] == s.threads;
    } else {
      var later := Apply(s, Scan(t));
      ScansAlone(later, t, id, frequency, baud, next + 1);
      assert Scans(t, n - next)[1..] == Scans(t, n - next - 1);
    }
  }

  lemma {:induction false} RunsJoin(s: State, first: seq<Action>, second: seq<Action>)
    requires Legal(s, first) && Legal(After(s, first), second)
    ensures Legal(s, first + second) && After(s, first + second) == After(After(s, first), second)
    decreases |first|
  {
    hide Apply, Enabled;
    if first == [] {
      assert first + second == second;
    } else {
      RunsJoin(Apply(s, first[0]), first[1..], second);
      assert (first + second)[1..] == first[1..] + second;
    }
  }

  lemma OneAction(s: State, a: Action)
    requires Enabled(s, a)
    ensures Legal(s, [a]) && After(s, [a]) == Apply(s, a)
  {
    hide Apply, Enabled;
    assert [a][1..] == [];
  }

  // Run alone, the sections of an add do what the call does: one legal run of them places the
  // decoder as addDecoder promises.
  lemma AddAlone(s: State, frequency: real, baud: int, rate: real, aes: nat, monitored: bool, idlest: nat)
      returns (run: seq<Action>, w: nat)
    requires Inv(s) && rate > 0.0 && IsIdlest(s.workers, idlest)
    ensures Legal(s, run)
    ensures var r := After(s, run);
      && IsPlaced(s.workers, r.workers, w, s.nextKey, rate, Decoder(s.nextId, frequency, baud, aes, monitored))
      && r.nextId == s.nextId + 1 && r.threads == s.threads + [Added(s.nextId)]
  {
    hide Inv, Apply, Enabled, IsPlaced, IsIdlest, ScanAll;
    var t, id := |s.threads|, s.nextId;
    IdlestIsThere(s.workers, idlest);
    var begun, first := Begun(s, frequency, baud);
    ScansAlone(begun, t, id, frequency, baud, 0);
    var scans := Scans(t, |s.workers|);
    var scanned := After(begun, scans);
    RunsJoin(s, [first], scans);
    run := [first] + scans;
    var more: seq<Action>;
    more, w := Placing(s, scanned, frequency, baud, rate, aes, monitored, idlest);
    RunsJoin(s, run, more);
    run := run + more;
  }

  lemma Begun(s: State, frequency: real, baud: int) returns (begun: State, a: Action)
    requires s.workers != []
    ensures a == BeginAdd(frequency, baud) && Legal(s, [a]) && begun == After(s, [a])
    ensures begun == s.(nextId := s.nextId + 1, threads := s.threads + [Scanning(s.nextId, frequency, baud, 0, ScanAll(s.workers, 0, frequency))])
  {
    a := BeginAdd(frequency, baud);
    OneAction(s, a);
    begun := Apply(s, a);
  }

  // The second lock, and the new sub-band if there was nothing to join.
  lemma Placing(s: State, scanned: State, frequency: real, baud: int, rate: real, aes: nat, monitored: bool, idlest: nat)
      returns (run: seq<Action>, w: nat)
    requires Inv(s) && rate > 0.0 && IsIdlest(s.workers, idlest) && IsScanned(s, scanned, frequency, baud)
    ensures Legal(scanned, run) && IsAdded(s, After(scanned, run), w, rate, Decoder(s.nextId, frequency, baud, aes, monitored))
  {
    hide IsAdded, IsIdlest, IsScanned, IsLeast, Inv;
    SoundWeights(s);
    ScanAllIsLeast(s.workers, |s.workers|, frequency);
    if ScanAll(s.workers, |s.workers|, frequency).choice.Choice? {
      run, w := JoiningAlone(s, scanned, frequency, baud, rate, aes, monitored);
    } else {
      run := OpeningAlone(s, scanned, frequency, baud, rate, aes, monitored, idlest);
      w := idlest;
    }
  }

  ghost predicate IsScanned(s: State, scanned: State, frequency: real, baud: int) {
    scanned == s.(nextId := s.nextId + 1, threads := s.threads +
      [Scanning(s.nextId, frequency, baud, |s.workers|, ScanAll(s.workers, |s.workers|, frequency))])
  }

  ghost predicate IsAdded(s: State, r: State, w: nat, rate: real, d: Decoder) {
    IsPlaced(s.workers, r.workers, w, s.nextKey, rate, d) && r.nextId == s.nextId + 1 && r.threads == s.threads + [Added(s.nextId)]
  }

  lemma JoiningAlone(s: State, scanned: State, frequency: real, baud: int, rate: real, aes: nat, monitored: bool)
      returns (run: seq<Action>, w: nat)
    requires Inv(s) && IsScanned(s, scanned, frequency, baud) && forall v :: 0 <= v < |s.workers| ==> s.workers[v].weight >= 0
    requires ScanAll(s.workers, |s.workers|, frequency).choice.Choice?
    ensures Legal(scanned, run) && IsAdded(s, After(scanned, run), w, rate, Decoder(s.nextId, frequency, baud, aes, monitored))
  {
    hide IsPlaced, ScanAll, IsLeast, IsFirstLeast, WithDecoder, AllIds, IsSound;
    var best := ScanAll(s.workers, |s.workers|, frequency);
    var d := Decoder(s.nextId, frequency, baud, aes, monitored);
    ScanAllIsLeast(s.workers, |s.workers|, frequency);
    var b: nat;
    w, b := ChosenBand(s, best, frequency);
    var insert := Insert(|s.threads|, aes, monitored);
    OneAction(scanned, insert);
    run := [insert];
    JoinIsPlaced(s.workers, best, b, s.nextKey, rate, d);
  }

  lemma OpeningAlone(s: State, scanned: State, frequency: real, baud: int, rate: real, aes: nat, monitored: bool, w: nat)
      returns (run: seq<Action>)
    requires rate > 0.0 && IsIdlest(s.workers, w) && IsScanned(s, scanned, frequency, baud)
    requires forall v :: 0 <= v < |s.workers| ==> s.workers[v].weight >= 0
    requires ScanAll(s.workers, |s.workers|, frequency).choice.NoChoice?
    ensures Legal(scanned, run) && IsAdded(s, After(scanned, run), w, rate, Decoder(s.nextId, frequency, baud, aes, monitored))
  {
    hide IsPlaced, IsIdlest, ScanAll, IsLeast, WithBand, AllIds;
    var best := ScanAll(s.workers, |s.workers|, frequency);
    var d := Decoder(s.nextId, frequency, baud, aes, monitored);
    ScanAllIsLeast(s.workers, |s.workers|, frequency);
    IdlestIsThere(s.workers, w);
    var insert, create := Insert(|s.threads|, aes, monitored), Create(|s.threads|, w, rate, aes, monitored);
    OneAction(scanned, insert);
    var creating := Apply(scanned, insert);
    OneAction(creating, create);
    RunsJoin(scanned, [insert], [create]);
    run := [insert] + [create];
    OpenIsPlaced(s.workers, best, w, s.nextKey, rate, d);
  }

  lemma IdlestIsThere(workers: seq<Worker>, w: nat)
    requires IsIdlest(workers, w)
    ensures w < |workers|
  {}

  lemma SoundWeights(s: State)
    requires Inv(s)
    ensures forall w :: 0 <= w < |s.workers| ==> s.workers[w].weight >= 0
  {
    forall w | 0 <= w < |s.workers|
      ensures s.workers[w].weight >= 0
    {
      assert IsSound(s.workers[w]);
    }
  }

  lemma ChosenBand(s: State, best: Best, frequency: real) returns (w: nat, b: nat)
    requires Inv(s) && IsLeast(s.workers, |s.workers|, frequency, best) && best.choice.Choice?
    ensures w == best.choice.worker < |s.workers| && IsFirstLeast(s.workers, frequency, best, b)
    ensures b < |s.workers[w].bands| && b == FindKey(s.workers[w].bands, best.choice.key)
  {
    hide IsSound, Covers, Load;
    w := best.choice.worker;
    assert KeysAreFresh(s.workers[w], s.nextKey);
    b :| IsFirstLeast(s.workers, frequency, best, b);
    assert s.workers[w].bands[b].key == best.choice.key;
  }

  // A removal that nobody disturbs takes the first decoder of that id, or finds none.
  lemma {:induction false} RemovesAlone(s: State, t: nat, id: int, next: nat) returns (run: seq<Action>, w: nat)
    requires t < |s.threads| && next <= |s.workers| && s.threads[t] == Removing(id, next)
    ensures Legal(s, run) && next <= w <= |s.workers|
    ensures forall v :: next <= v < w ==> WithoutDecoder(s.workers[v], id).None?
    ensures After(s, run).threads == s.threads[t := Finished]
    ensures w == |s.workers| ==> After(s, run).workers == s.workers
    ensures w < |s.workers| ==> WithoutDecoder(s.workers[w], id).Some?
    ensures w < |s.workers| ==> After(s, run).workers == s.workers[w := WithoutDecoder(s.workers[w], id).value]
    decreases |s.workers| - next
  {
    hide WithoutDecoder;
    var a := Remove(t);
    var later := Apply(s, a);
    OneAction(s, a);
    if next < |s.workers| && WithoutDecoder(s.workers[next], id).None? {
      run, w := RemovesAlone(later, t, id, next + 1);
      RunsJoin(s, [a], run);
      run := [a] + run;
    } else {
      run, w := [a], next;
    }
  }

  // Run alone, the sections of a removal do what the call does.
  lemma RemoveAlone(s: State, id: int) returns (run: seq<Action>)
    requires Inv(s)
    ensures Legal(s, run)
    ensures id !in AllIds(s.workers) ==> After(s, run).workers == s.workers
    ensures id in AllIds(s.workers) ==>
              exists w, b: nat, i: nat :: 0 <= w < |s.workers| == |After(s, run).workers|
                && LeavesFrom(s.workers[w], After(s, run).workers[w], b, i) && s.workers[w].bands[b].decoders[i].id == id
                && After(s, run).workers == s.workers[w := After(s, run).workers[w]]
  {
    hide AllIds, BandIds, WithoutDecoder;
    var a := BeginRemove(id);
    var begun := Apply(s, a);
    OneAction(s, a);
    var w: nat;
    run, w := RemovesAlone(begun, |s.threads|, id, 0);
    RunsJoin(s, [a], run);
    run := [a] + run;
    if w < |s.workers| {
      RemovalLeaves(s.workers[w], id);
      assert IsSound(s.workers[w]);
      IsThere(s.workers, w, id);
    } else {
      NobodyHasIt(s.workers, id);
    }
  }

  lemma IsThere(workers: seq<Worker>, w: nat, id: int)
    requires w < |workers| && IsSound(workers[w]) && WithoutDecoder(workers[w], id).Some?
    ensures id in AllIds(workers)
  {
    hide AllIds, BandIds, WithoutDecoder, IsSound;
    RemoveIsSound(workers[w], id);
    var rest := SplitWorkers(workers, w);
  }

  // ---- The class ---------------------------------------------------------------

  class DecoderManager {
    var workers: seq<Worker>
    var nextId: int
    var nextKey: nat
    var voiceMonitorId: int

    ghost predicate Valid()
      reads this
    {
      IsValid(workers, nextId, nextKey, voiceMonitorId)
    }

    constructor (count: nat)
      ensures Valid() && |workers| == count && voiceMonitorId == -1 && AllIds(workers) == multiset{}
    {
      workers := seq(count, _ => Worker([], 0, 0));
      nextId, nextKey, voiceMonitorId := 1, 0, -1;
      new;
      NothingYet(workers);
    }

    // Lines 103-141.
    method Scan(frequency: real) returns (best: Best)
      ensures best == ScanAll(workers, |workers|, frequency)
    {
      best := Best(NoChoice, NO_LOAD);
      var w := 0;
      while w < |workers|
        invariant 0 <= w <= |workers| && best == ScanAll(workers, w, frequency)
      {
        var worker := workers[w];
        ghost var before := best;
        var b := 0;
        while b < |worker.bands|
          invariant 0 <= b <= |worker.bands| && best == ScanBands(w, worker, b, frequency, before)
        {
          var band := worker.bands[b];
          if Covers(band, frequency) {
            var load := Load(worker, band);
            if load < best.load {
              best := Best(Choice(w, band.key), load);
            }
          }
          b := b + 1;
        }
        w := w + 1;
      }
    }

    // Lines 170-177: the worker with the least to do, the first of several.
    method Lightest() returns (w: nat)
      requires workers != []
      ensures IsIdlest(workers, w)
    {
      w := 0;
      var v := 0;
      while v < |workers|
        invariant 0 <= v <= |workers| && w < |workers| && (w < v || w == 0)
        invariant forall u :: 0 <= u < v ==> Effort(workers[w]) <= Effort(workers[u])
        invariant forall u :: 0 <= u < w ==> Effort(workers[w]) < Effort(workers[u])
      {
        if Effort(workers[v]) < Effort(workers[w]) {
          w := v;
        }
        v := v + 1;
      }
    }

    // Lines 92-197. `ready` says that a sample rate is set; `rate` is that of a new sub-band.
    method AddDecoder(frequency: real, baud: int, aes: nat, ready: bool, rate: real) returns (id: int, ghost w: nat)
      requires Valid() && rate > 0.0
      modifies this
      ensures Valid() && |workers| == |old(workers)|
      ensures !ready || workers == [] ==>
                id == -1 && workers == old(workers) && nextId == old(nextId) && voiceMonitorId == old(voiceMonitorId)
      ensures ready && workers != [] ==>
                var d := Decoder(old(nextId), frequency, baud, aes, baud == VOICE && old(voiceMonitorId) < 0);
                && id == old(nextId) && nextId == id + 1 && AllIds(workers) == old(AllIds(workers)) + multiset{id}
                && voiceMonitorId == (if d.monitored then id else old(voiceMonitorId))
                && IsPlaced(old(workers), workers, w, old(nextKey), rate, d)
    {
      hide IsValid, IsPlaced;
      w := 0;
      if !ready || workers == [] {
        return -1, w;
      }
      id := nextId;
      var d := Decoder(id, frequency, baud, aes, baud == VOICE && voiceMonitorId < 0);
      w := Place(d, rate);
      nextId := nextId + 1;
      if d.monitored {
        voiceMonitorId := id;
      }
    }

    // Lines 143-196: into the chosen sub-band, or into a new one.
    method Place(d: Decoder, rate: real) returns (ghost w: nat)
      requires Valid() && rate > 0.0 && workers != [] && d.id == nextId && MayBeHeard(voiceMonitorId, d)
      modifies this`workers, this`nextKey
      ensures |workers| == |old(workers)| && AllIds(workers) == old(AllIds(workers)) + multiset{d.id}
      ensures IsValid(workers, d.id + 1, nextKey, MonitorWith(voiceMonitorId, d))
      ensures IsPlaced(old(workers), workers, w, old(nextKey), rate, d)
    {
      hide IsValid, Covers, Load, ScanAll, WithDecoder, WithBand, AllIds, IsPlaced, IsLeast, IsFirstLeast, IsIdlest;
      var best := Scan(d.frequency);
      WeightsStay(workers, nextId, nextKey, voiceMonitorId);
      ScanAllIsLeast(workers, |workers|, d.frequency);
      if best.choice.Choice? {
        var v, b := Chosen(best, d.frequency);
        w := v;
        JoinIsPlaced(workers, best, b, nextKey, rate, d);
        JoinIsValid(workers, nextKey, voiceMonitorId, v, b, d);
        workers := workers[v := WithDecoder(workers[v], b, d)];
      } else {
        var v := Lightest();
        w := v;
        OpenIsPlaced(workers, best, v, nextKey, rate, d);
        OpenIsValid(workers, nextKey, voiceMonitorId, v, rate, d);
        workers := workers[v := WithBand(workers[v], nextKey, rate, d)];
        nextKey := nextKey + 1;
      }
    }

    // Lines 143-149: nobody came between the two locks, so the sub-band is still there.
    method Chosen(best: Best, frequency: real) returns (w: nat, b: nat)
      requires Valid() && best == ScanAll(workers, |workers|, frequency) && best.choice.Choice?
      ensures w < |workers| && b < |workers[w].bands| && w == best.choice.worker
      ensures Covers(workers[w].bands[b], frequency) && IsFirstLeast(workers, frequency, best, b)
    {
      hide IsSound, Covers, Load, ScanAll;
      ScanAllIsLeast(workers, |workers|, frequency);
      w := best.choice.worker;
      assert KeysAreFresh(workers[w], nextKey);
      b := FindKey(workers[w].bands, best.choice.key);
      ghost var first :| IsFirstLeast(workers, frequency, best, first);
      assert first == b;
    }

    // Lines 199-228.
    method RemoveDecoder(id: int)
      requires Valid()
      modifies this`workers, this`voiceMonitorId
      ensures Valid() && |workers| == |old(workers)| && AllIds(workers) == old(AllIds(workers)) - multiset{id}
      ensures id !in old(AllIds(workers)) ==> workers == old(workers) && voiceMonitorId == old(voiceMonitorId)
      ensures id in old(AllIds(workers)) ==>
                && voiceMonitorId == (if id == old(voiceMonitorId) then -1 else old(voiceMonitorId))
                && exists w, b: nat, i: nat :: 0 <= w < |workers| && LeavesFrom(old(workers[w]), workers[w], b, i)
                                     && old(workers[w]).bands[b].decoders[i].id == id
                                     && workers == old(workers)[w := workers[w]]
    {
      hide IsValid, AllIds, WithoutAt;
      var w := 0;
      while w < |workers|
        invariant 0 <= w <= |workers| && workers == old(workers) && voiceMonitorId == old(voiceMonitorId)
        invariant forall v :: 0 <= v < w ==> WithoutDecoder(workers[v], id).None?
      {
        var left := WithoutDecoder(workers[w], id);
        if left.Some? {
          RemovedIsValid(workers, nextId, nextKey, voiceMonitorId, w, id);
          RemovalLeaves(workers[w], id);
          workers := workers[w := left.value];
          if id == voiceMonitorId {
            voiceMonitorId := -1;
          }
          return;
        }
        w := w + 1;
      }
      NobodyHasIt(workers, id);
    }

    // Lines 524-535, the queues aside.
    method RemoveAll()
      requires Valid()
      modifies this`workers, this`voiceMonitorId
      ensures Valid() && |workers| == |old(workers)| && AllIds(workers) == multiset{} && voiceMonitorId == -1
      ensures forall w :: 0 <= w < |workers| ==>
                workers[w].bands == [] && workers[w].count == 0 && workers[w].weight == old(workers[w]).weight
    {
      hide IsValid, AllIds;
      var w := 0;
      while w < |workers|
        invariant 0 <= w <= |workers| == |old(workers)|
        invariant forall v :: 0 <= v < |workers| ==> workers[v] == if v < w then Cleared(old(workers[v])) else old(workers[v])
      {
        workers := workers[w := Cleared(workers[w])];
        w := w + 1;
      }
      voiceMonitorId := -1;
      NoDecoders(workers);
      WeightsStay(old(workers), nextId, nextKey, old(voiceMonitorId));
      IdsStartAtOne(old(workers), nextId, nextKey, old(voiceMonitorId));
      EmptyIsValid(workers, nextId, nextKey, -1);
    }

    // Lines 230-241.
    method SetVoiceMonitor(id: int)
      requires Valid()
      modifies this`workers, this`voiceMonitorId
      ensures Valid() && voiceMonitorId == id && |workers| == |old(workers)| && AllIds(workers) == old(AllIds(workers))
      ensures forall w :: 0 <= w < |workers| ==> SamePlaces(old(workers[w]), workers[w])
      ensures forall w, b, i :: IsAt(workers, w, b, i) ==>
                (DecoderAt(workers, w, b, i).monitored <==>
                   DecoderAt(workers, w, b, i).baud == 8400 && DecoderAt(workers, w, b, i).id == id)
    {
      hide IsValid, AllIds, Flagged;
      voiceMonitorId := id;
      var w := 0;
      while w < |workers|
        invariant 0 <= w <= |workers| == |old(workers)| && voiceMonitorId == id
        invariant forall v :: 0 <= v < |workers| ==> workers[v] == if v < w then Flagged(old(workers[v]), id) else old(workers[v])
      {
        workers := workers[w := Flagged(workers[w], id)];
        w := w + 1;
      }
      FlaggedAreQuiet(old(workers), workers, id);
      FlagsMean(old(workers), workers, id);
      ReflaggedIsValid(old(workers), workers, nextId, nextKey, old(voiceMonitorId), id);
    }

    // The first decoder, worker by worker, that a search of lines 245-285 stops at.
    method Find(pick: Decoder -> bool) returns (found: Option<(nat, nat, nat)>)
      ensures found.Some? ==> var (w, b, i) := found.value; IsFirst(workers, w, b, i, pick)
      ensures found.None? ==> forall w, b, i :: IsAt(workers, w, b, i) ==> !pick(DecoderAt(workers, w, b, i))
    {
      var w := 0;
      while w < |workers|
        invariant 0 <= w <= |workers|
        invariant forall v, b, i :: IsAt(workers, v, b, i) && v < w ==> !pick(DecoderAt(workers, v, b, i))
      {
        var b := 0;
        while b < |workers[w].bands|
          invariant 0 <= b <= |workers[w].bands|
          invariant forall v, c, i :: IsAt(workers, v, c, i) && (v < w || (v == w && c < b)) ==> !pick(DecoderAt(workers, v, c, i))
        {
          var i := 0;
          while i < |workers[w].bands[b].decoders|
            invariant 0 <= i <= |workers[w].bands[b].decoders|
            invariant forall v, c, k :: IsAt(workers, v, c, k) && (v < w || (v == w && (c < b || (c == b && k < i)))) ==>
                        !pick(DecoderAt(workers, v, c, k))
          {
            if pick(workers[w].bands[b].decoders[i]) {
              assert IsAt(workers, w, b, i);
              assert IsFirst(workers, w, b, i, pick);
              return Some((w, b, i));
            }
            i := i + 1;
          }
          b := b + 1;
        }
        w := w + 1;
      }
      found := None;
    }

    // Lines 243-288. `acceptable` says of an aircraft id that its country is known not to be on
    // the list; without a list every voice decoder will do.
    method AutoMonitor(listed: bool, acceptable: nat -> bool)
      requires Valid()
      modifies this`workers, this`voiceMonitorId
      ensures Valid() && AllIds(workers) == old(AllIds(workers)) && |workers| == |old(workers)|
      ensures forall w :: 0 <= w < |workers| ==> SamePlaces(old(workers[w]), workers[w])
      ensures IsLive(old(workers), old(voiceMonitorId)) ==> workers == old(workers) && voiceMonitorId == old(voiceMonitorId)
      ensures !IsLive(old(workers), old(voiceMonitorId)) && !IsWanted(old(workers), listed, acceptable) ==>
                workers == old(workers) && voiceMonitorId == -1
      ensures !IsLive(old(workers), old(voiceMonitorId)) && IsWanted(old(workers), listed, acceptable) ==>
                exists w, b, i :: IsAt(workers, w, b, i) && DecoderAt(workers, w, b, i).monitored
                                  && DecoderAt(workers, w, b, i).id == voiceMonitorId
                                  && IsFirst(old(workers), w, b, i,
                                             (d: Decoder) => d.baud == 8400 && (listed ==> d.aes != 0 && acceptable(d.aes)))
    {
      hide IsValid, AllIds;
      var monitor := voiceMonitorId;
      if monitor >= 0 {
        var live := Find((d: Decoder) => d.IsVoice() && d.id == monitor);
        if live.Some? {
          assert IsLive(workers, monitor);
          SamePlacesReflexive(workers);
          return;
        }
      }
      MonitorIsGone(workers, nextId, nextKey, monitor);
      var found := Find((d: Decoder) => Wanted(d, listed, acceptable));
      if found.Some? {
        var (w, b, i) := found.value;
        SwitchOn(w, b, i);
        assert Wanted(DecoderAt(workers, w, b, i), listed, acceptable);
      } else {
        voiceMonitorId := -1;
        SamePlacesReflexive(workers);
        ReflaggedIsValid(old(workers), workers, nextId, nextKey, monitor, -1);
      }
    }

    method SwitchOn(w: nat, b: nat, i: nat)
      requires Valid() && IsAt(workers, w, b, i) && DecoderAt(workers, w, b, i).IsVoice()
      requires forall other: int :: AreQuiet(workers, other)
      modifies this`workers, this`voiceMonitorId
      ensures Valid() && AllIds(workers) == old(AllIds(workers)) && |workers| == |old(workers)|
      ensures forall v :: 0 <= v < |workers| ==> SamePlaces(old(workers[v]), workers[v])
      ensures IsAt(workers, w, b, i)
      ensures DecoderAt(workers, w, b, i) == old(DecoderAt(workers, w, b, i)).(monitored := true)
      ensures DecoderAt(workers, w, b, i).id == voiceMonitorId
    {
      hide IsValid, AllIds;
      var id := workers[w].bands[b].decoders[i].id;
      SwitchedOnIsQuiet(workers[w], b, i);
      assert AreQuiet(workers, id);
      SamePlacesReflexive(workers);
      ghost var monitor := voiceMonitorId;
      voiceMonitorId := id;
      workers := workers[w := SwitchedOn(workers[w], b, i)];
      ReflaggedIsValid(old(workers), workers, nextId, nextKey, monitor, id);
    }
  }

  // The first place, in the order of the loops, whose decoder is picked.
  ghost predicate IsFirst(workers: seq<Worker>, w: nat, b: nat, i: nat, pick: Decoder -> bool) {
    && IsAt(workers, w, b, i) && pick(DecoderAt(workers, w, b, i))
    && forall v, c, k :: IsAt(workers, v, c, k) && (v < w || (v == w && (c < b || (c == b && k < i)))) ==>
         !pick(DecoderAt(workers, v, c, k))
  }

  ghost predicate IsLive(workers: seq<Worker>, id: int) {
    id >= 0 && exists w, b, i :: IsAt(workers, w, b, i) && DecoderAt(workers, w, b, i).IsVoice() && DecoderAt(workers, w, b, i).id == id
  }

  predicate Wanted(d: Decoder, listed: bool, acceptable: nat -> bool) {
    d.IsVoice() && (listed ==> d.aes != 0 && acceptable(d.aes))
  }

  ghost predicate IsWanted(workers: seq<Worker>, listed: bool, acceptable: nat -> bool) {
    exists w, b, i :: IsAt(workers, w, b, i) && Wanted(DecoderAt(workers, w, b, i), listed, acceptable)
  }

  lemma {:induction false} NoDecoders(workers: seq<Worker>)
    requires forall w :: 0 <= w < |workers| ==> workers[w].bands == []
    ensures AllIds(workers) == multiset{}
  {
    if workers != [] {
      NoDecoders(workers[..|workers| - 1]);
    }
  }

  lemma WeightsStay(workers: seq<Worker>, nextId: int, nextKey: nat, monitor: int)
    requires IsValid(workers, nextId, nextKey, monitor)
    ensures forall w :: 0 <= w < |workers| ==> workers[w].weight >= 0
  {
    forall w | 0 <= w < |workers|
      ensures workers[w].weight >= 0
    {
      assert IsSound(workers[w]);
    }
  }

  lemma IdsStartAtOne(workers: seq<Worker>, nextId: int, nextKey: nat, monitor: int)
    requires IsValid(workers, nextId, nextKey, monitor)
    ensures nextId >= 1
  {}

  lemma EmptyIsValid(workers: seq<Worker>, nextId: int, nextKey: nat, monitor: int)
    requires nextId >= 1 && AllIds(workers) == multiset{}
    requires forall w :: 0 <= w < |workers| ==> workers[w].bands == [] && workers[w].count == 0 && workers[w].weight >= 0
    ensures IsValid(workers, nextId, nextKey, monitor)
  {
    hide AllIds;
  }

  lemma FlaggedAreQuiet(before: seq<Worker>, after: seq<Worker>, id: int)
    requires |before| == |after| && forall w :: 0 <= w < |before| ==> after[w] == Flagged(before[w], id)
    ensures AreQuiet(after, id)
    ensures forall w :: 0 <= w < |before| ==> SamePlaces(before[w], after[w])
  {
    hide OnlyMonitor, SamePlaces, Flagged;
    forall w | 0 <= w < |before|
      ensures OnlyMonitor(after[w], id) && SamePlaces(before[w], after[w])
    {
      FlaggedIsSame(before[w], id);
    }
  }

  lemma FlagsMean(before: seq<Worker>, after: seq<Worker>, id: int)
    requires |before| == |after| && forall w :: 0 <= w < |before| ==> after[w] == Flagged(before[w], id)
    ensures forall w, b, i :: IsAt(after, w, b, i) ==>
              (DecoderAt(after, w, b, i).monitored <==> DecoderAt(after, w, b, i).baud == 8400 && DecoderAt(after, w, b, i).id == id)
  {
    forall w, b, i | IsAt(after, w, b, i)
      ensures DecoderAt(after, w, b, i).monitored <==> DecoderAt(after, w, b, i).baud == 8400 && DecoderAt(after, w, b, i).id == id
    {
      assert after[w] == Flagged(before[w], id);
      assert after[w].bands[b] == FlaggedBand(before[w].bands[b], id);
      assert after[w].bands[b].decoders[i] == FlaggedDecoder(before[w].bands[b].decoders[i], id);
    }
  }

  lemma SamePlacesReflexive(workers: seq<Worker>)
    ensures forall w :: 0 <= w < |workers| ==> SamePlaces(workers[w], workers[w])
  {}

  lemma SwitchedOnIsQuiet(worker: Worker, b: nat, i: nat)
    requires b < |worker.bands| && i < |worker.bands[b].decoders| && worker.bands[b].decoders[i].IsVoice()
    ensures SamePlaces(worker, SwitchedOn(worker, b, i))
    ensures OnlyMonitor(worker, worker.bands[b].decoders[i].id) ==>
              OnlyMonitor(SwitchedOn(worker, b, i), worker.bands[b].decoders[i].id)
  {}

  // Once the monitored decoder is gone nobody is heard, whoever comes next.
  lemma MonitorIsGone(workers: seq<Worker>, nextId: int, nextKey: nat, monitor: int)
    requires IsValid(workers, nextId, nextKey, monitor) && !IsLive(workers, monitor)
    ensures forall other: int :: AreQuiet(workers, other)
  {
    hide AllIds, IsSound;
    forall w, b, i | IsAt(workers, w, b, i)
      ensures !DecoderAt(workers, w, b, i).monitored
    {
      assert OnlyMonitor(workers[w], monitor);
      InAllIds(workers, w, b, i);
      assert DecoderAt(workers, w, b, i) == workers[w].bands[b].decoders[i];
    }
    forall other: int, w | 0 <= w < |workers|
      ensures OnlyMonitor(workers[w], other)
    {
      forall b, i | 0 <= b < |workers[w].bands| && 0 <= i < |workers[w].bands[b].decoders|
        ensures !workers[w].bands[b].decoders[i].monitored
      {
        assert IsAt(workers, w, b, i);
        assert !DecoderAt(workers, w, b, i).monitored;
      }
    }
  }
}
