/** What the page swapper's records and counters say about the calls that led to them. */
module SwapperHistory {
  import opened Collections
  import opened Types
  import opened Replacement
  import ClockReplacement
  import SwapDevices
  import opened SwapStores
  import opened SwapperSpec

  datatype Access = Access(virtualAddress: nat, time: nat, isWrite: bool)

  /** The call accesses f: it is recorded, or a fault brings it back. */
  predicate Touches(w: World, call: Call, f: Frame) {
    match call
    case Record(_, g, _) => g == f
    case Fault(_, g) => g == f && f in w.store.pages
    case _ => false
  }

  function Made(w: World, call: Call): Access
    requires call.Record? || call.Fault?
  {
    Access(call.virtualAddress, w.pages.time + 1, call.Record? && call.isWrite)
  }

  /** The accesses to f in a run since it was last evicted, oldest first. */
  ghost function History(w: World, calls: seq<Call>, f: Frame): seq<Access> {
    if calls == [] then []
    else
      var init, call := calls[..|calls| - 1], calls[|calls| - 1];
      if f !in Run(w, calls).pages.info then []
      else History(w, init, f) + if Touches(Run(w, init), call, f) then [Made(Run(w, init), call)] else []
  }

  /** The record sums up these accesses. */
  ghost predicate Records(info: Info, accesses: seq<Access>) {
    && accesses != []
    && info.accessCount == |accesses| && info.referenced
    && info.virtualAddress == accesses[0].virtualAddress
    && info.lastAccess == accesses[|accesses| - 1].time
    && (info.dirty <==> exists i :: 0 <= i < |accesses| && accesses[i].isWrite)
  }

  /** A page's record starts with its first access after it was last evicted, and every further access is added. */
  ghost predicate Known(info: map<Frame, Info>, f: Frame, accesses: seq<Access>) {
    if f in info then Records(info[f], accesses) else accesses == []
  }

  lemma RenewedRecords(info: map<Frame, Info>, f: Frame, accesses: seq<Access>, a: Access)
    requires Known(info, f, accesses)
    ensures Records(Renewed(info, a.virtualAddress, f, a.time, a.isWrite), accesses + [a])
  {
    var all := accesses + [a];
    assert all[|accesses|] == a && forall i :: 0 <= i < |accesses| ==> all[i] == accesses[i];
    if f !in info { assert all == [a]; }
  }

  /** The call replaces the record of the page it accesses; what it does not access it leaves alone or evicts. */
  lemma StepRecords(w: World, call: Call, f: Frame)
    requires Inv(w.pages)
    ensures var info := Step(w, call).pages.info;
            if Touches(w, call, f)
            then var a := Made(w, call);
                 f in info && info[f] == Renewed(w.pages.info, a.virtualAddress, f, a.time, a.isWrite)
            else f in info ==> f in w.pages.info && info[f] == w.pages.info[f]
  {
    match call
    case Record(_, _, _) =>
    case UseAlgorithm(_) =>
    case SetThreshold(_) =>
    case Fault(a, g) => FaultedMeaning(w, a, g);
    case SwapOut(n) => var gone := EvictManyMeaning(w, n);
    case Relieve => var gone := RelievedMeaning(w);
  }

  lemma KnownNext(w: World, call: Call, f: Frame, accesses: seq<Access>)
    requires Inv(w.pages) && Known(w.pages.info, f, accesses)
    ensures var info := Step(w, call).pages.info;
            Known(info, f, if f !in info then []
                           else accesses + if Touches(w, call, f) then [Made(w, call)] else [])
  {
    StepRecords(w, call, f);
    if Touches(w, call, f) {
      RenewedRecords(w.pages.info, f, accesses, Made(w, call));
    } else {
      assert accesses + [] == accesses;
    }
  }

  /**
   After every run, evictions and algorithm switches included: a page is recorded exactly if it has been
   accessed since it was last evicted, and its record counts those accesses, holds the time of the last and the
   address of the first, and is dirty exactly if one of them was a write.
   */
  lemma {:induction false} RecordsAreHistory(algorithm: Algorithm, capacity: nat, store: Store, calls: seq<Call>,
                                             f: Frame)
    ensures var w := World(New(algorithm, capacity), store); Known(Run(w, calls).pages.info, f, History(w, calls, f))
  {
    var w := World(New(algorithm, capacity), store);
    if calls == [] {
    } else {
      var init := calls[..|calls| - 1];
      RecordsAreHistory(algorithm, capacity, store, init, f);
      RunKeepsInv(w, init);
      KnownNext(Run(w, init), calls[|calls| - 1], f, History(w, init, f));
    }
  }

  /** Under LFU the victim has been accessed least often since it was last evicted, lowest frame among equals. */
  lemma LfuVictimIsLeastUsed(algorithm: Algorithm, capacity: nat, store: Store, calls: seq<Call>, g: Frame)
    requires var s := Run(World(New(algorithm, capacity), store), calls).pages; s.algorithm == Lfu && g in s.info
    ensures var w := World(New(algorithm, capacity), store); var c := Chooses(Run(w, calls).pages);
            && c.Chosen? && |History(w, calls, c.frame)| <= |History(w, calls, g)|
            && (|History(w, calls, c.frame)| == |History(w, calls, g)| ==> c.frame <= g)
  {
    var w := World(New(algorithm, capacity), store);
    RecordsAreHistory(algorithm, capacity, store, calls, g);
    RecordsAreHistory(algorithm, capacity, store, calls, Chooses(Run(w, calls).pages).frame);
  }

  /**
   A recorded page can be chosen from then on, unless the algorithm has no room for any.  The replacers of the
   other algorithms and the records of other pages do not see the access.
   */
  lemma RecordedIsCandidate(s: Swapper, a: nat, f: Frame, isWrite: bool)
    requires Inv(s)
    ensures f in Candidates(Recorded(s, a, f, isWrite)) <==> s.clock.capacity > 0 || s.algorithm == Lfu
    ensures var s' := Recorded(s, a, f, isWrite);
            && (s.algorithm != Lru ==> s'.lru == s.lru)
            && (s.algorithm != Fifo ==> s'.fifo == s.fifo)
            && (s.algorithm != SecondChance ==> s'.clock == s.clock)
            && s'.algorithm == s.algorithm && s'.threshold == s.threshold
            && forall g :: g in s.info && g != f ==> g in s'.info && s'.info[g] == s.info[g]
  {
    var s' := Recorded(s, a, f, isWrite);
    RecordedKeepsInv(s, a, f, isWrite);
    match s.algorithm
    case Lru => if s.clock.capacity > 0 { assert s'.lru[0] == f; }
    case Fifo => if s.clock.capacity > 0 { AdmitAdmits(s.fifo, f, s.clock.capacity); }
    case SecondChance =>
      AccessedFrames(s.clock, f);
      if s.clock.capacity > 0 { ClockReplacement.AccessSetsBit(s.clock, f); }
    case Lfu =>
  }

  lemma AdmitAdmits(pages: seq<Frame>, f: Frame, capacity: nat)
    requires capacity > 0
    ensures f in Admit(pages, f, capacity)
  {
    if f !in pages {
      var all := Admit(pages, f, capacity);
      assert all[|all| - 1] == f;
    }
  }

  // ---------------------------------------------------------------- counters

  /** Faults, accesses and real switches of algorithm in a run. */
  datatype Tally = Tally(faults: nat, accesses: nat, switches: nat)

  function TallyOf(w: World, call: Call): Tally {
    match call
    case Record(_, _, _) => Tally(0, 1, 0)
    case Fault(_, f) => Tally(1, if f in w.store.pages then 1 else 0, 0)
    case UseAlgorithm(a) => Tally(0, 0, if a != w.pages.algorithm then 1 else 0)
    case _ => Tally(0, 0, 0)
  }

  ghost function RunTally(w: World, calls: seq<Call>): Tally {
    if calls == [] then Tally(0, 0, 0)
    else
      var init := calls[..|calls| - 1];
      var a, b := RunTally(w, init), TallyOf(Run(w, init), calls[|calls| - 1]);
      Tally(a.faults + b.faults, a.accesses + b.accesses, a.switches + b.switches)
  }

  ghost predicate Untouched(s: Swapper, s': Swapper) {
    s'.faults == s.faults && s'.time == s.time && s'.switches == s.switches
  }

  ghost predicate SameCounters(w: World, w': World) {
    Untouched(w.pages, w'.pages)
  }

  lemma {:induction false} RepeatedCounters<W(!new)>(step: W -> (W, Choice), same: (W, W) -> bool, w: W, n: nat)
    requires forall v :: same(v, v) && same(v, step(v).0)
    requires forall a, b, c :: same(a, b) && same(b, c) ==> same(a, c)
    ensures same(w, Repeated(step, w, n).0)
    decreases n
  {
    if n == 0 || !step(w).1.Chosen? {
    } else {
      RepeatedCounters(step, same, step(w).0, n - 1);
    }
  }

  lemma EvictCounters(w: World, n: nat)
    ensures SameCounters(w, EvictMany(w, n).0)
  {
    RepeatedCounters(Evict, SameCounters, w, n);
  }

  lemma StepCounts(w: World, call: Call)
    ensures var s, s', t := w.pages, Step(w, call).pages, TallyOf(w, call);
            s'.faults == s.faults + t.faults && s'.time == s.time + t.accesses && s'.switches == s.switches + t.switches
  {
    match call
    case SwapOut(n) => EvictCounters(w, n);
    case Relieve => EvictCounters(w, Excess(w.pages));
    case _ =>
  }

  /** Over every run the statistics and the clock count what happened. */
  lemma {:induction false} RunCounts(w: World, calls: seq<Call>)
    ensures var s, s', t := w.pages, Run(w, calls).pages, RunTally(w, calls);
            s'.faults == s.faults + t.faults && s'.time == s.time + t.accesses && s'.switches == s.switches + t.switches
  {
    if calls == [] {
    } else {
      RunCounts(w, calls[..|calls| - 1]);
      StepCounts(Run(w, calls[..|calls| - 1]), calls[|calls| - 1]);
    }
  }

  /** A new swapper's statistics are those counts; its pages out less those back are what the store has gained. */
  lemma StatisticsAreCounts(algorithm: Algorithm, capacity: nat, store: Store, calls: seq<Call>)
    ensures var w := World(New(algorithm, capacity), store); var w', t := Run(w, calls), RunTally(w, calls);
            && w'.pages.faults == t.faults && w'.pages.time == t.accesses && w'.pages.switches == t.switches
            && |w'.store.pages| - |store.pages| == w'.pages.out - w'.pages.back
  {
    var w := World(New(algorithm, capacity), store);
    RunCounts(w, calls);
    RunBalance(w, calls);
  }

  // ---------------------------------------------------------------- what is stored

  /** What a store holds was there before, or is nothing but zeros. */
  ghost predicate KeptOrZero(st: Store, st': Store) {
    forall f :: f in st'.pages ==> (f in st.pages && st'.pages[f] == st.pages[f]) || IsZero(st'.pages[f])
  }

  ghost predicate IsZero(page: SwapDevices.Page) {
    forall i :: 0 <= i < |page| ==> page[i] == 0
  }

  lemma StepStoresZeros(w: World, call: Call)
    requires Inv(w.pages)
    ensures KeptOrZero(w.store, Step(w, call).store)
  {
    match call
    case Record(_, _, _) =>
    case UseAlgorithm(_) =>
    case SetThreshold(_) =>
    case Fault(a, g) => FaultedMeaning(w, a, g);
    case SwapOut(n) => var gone := EvictManyMeaning(w, n);
    case Relieve => var gone := RelievedMeaning(w);
  }

  /** The swapper never stores a page's content: over every run whatever it has stored is zeros. */
  lemma {:induction false} RunStoresZeros(w: World, calls: seq<Call>)
    requires Inv(w.pages)
    ensures KeptOrZero(w.store, Run(w, calls).store)
  {
    if calls == [] {
    } else {
      RunStoresZeros(w, calls[..|calls| - 1]);
      RunKeepsInv(w, calls[..|calls| - 1]);
      StepStoresZeros(Run(w, calls[..|calls| - 1]), calls[|calls| - 1]);
    }
  }
}
