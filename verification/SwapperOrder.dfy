/**
 Whether the LRU list of the page swapper is in the order of the access records.  LRU sees an access only
 while it is the current algorithm, so after a switch the two can differ.
 */
module SwapperOrder {
  import opened Collections
  import opened Types
  import opened Replacement
  import ClockReplacement
  import opened SwapStores
  import opened SwapperSpec

  function LastAccess(s: Swapper, f: Frame): nat {
    if f in s.info then s.info[f].lastAccess else 0
  }

  ghost predicate Timely(s: Swapper) {
    forall f :: LastAccess(s, f) <= s.time
  }

  ghost predicate ByAccess(s: Swapper, pages: seq<Frame>) {
    forall i, j {:trigger pages[i], pages[j]} :: 0 <= i < j < |pages| ==>
      LastAccess(s, pages[i]) > LastAccess(s, pages[j])
  }

  /** LRU lists its pages in the order of their access records, latest first. */
  ghost predicate Aligned(s: Swapper) {
    Timely(s) && ByAccess(s, s.lru)
  }

  /** Aligned, the LRU victim has the earliest access record of all pages LRU tracks. */
  lemma AlignedVictim(s: Swapper, g: Frame)
    requires Aligned(s) && s.algorithm == Lru && g in s.lru
    ensures Chooses(s).Chosen? && (g != Chooses(s).frame ==> LastAccess(s, Chooses(s).frame) < LastAccess(s, g))
  {
    var i :| 0 <= i < |s.lru| && s.lru[i] == g;
  }

  // ---------------------------------------------------------------- one record

  lemma AccessCongruent(s: Swapper, s': Swapper, pages: seq<Frame>)
    requires ByAccess(s, pages) && forall f :: f in pages ==> LastAccess(s', f) == LastAccess(s, f)
    ensures ByAccess(s', pages)
  {
    forall i, j | 0 <= i < j < |pages|
      ensures LastAccess(s', pages[i]) > LastAccess(s', pages[j])
    {
      assert pages[i] in pages && pages[j] in pages;
    }
  }

  lemma RemoveKeepsAccess(s: Swapper, pages: seq<Frame>, k: nat)
    requires ByAccess(s, pages) && k < |pages|
    ensures ByAccess(s, RemoveAt(pages, k))
  {
    var rest := RemoveAt(pages, k);
    forall i, j | 0 <= i < j < |rest|
      ensures LastAccess(s, rest[i]) > LastAccess(s, rest[j])
    {
      assert rest[i] == pages[if i < k then i else i + 1] && rest[j] == pages[if j < k then j else j + 1];
    }
  }

  lemma WithoutKeepsAccess(s: Swapper, pages: seq<Frame>, f: Frame)
    requires ByAccess(s, pages) && Distinct(pages)
    ensures ByAccess(s, Without(pages, f))
  {
    if f in pages {
      var k :| 0 <= k < |pages| && pages[k] == f;
      WithoutDistinct(pages, k);
      RemoveKeepsAccess(s, pages, k);
    } else {
      WithoutAbsent(pages, f);
    }
  }

  lemma FrontKeepsAccess(s: Swapper, rest: seq<Frame>, f: Frame)
    requires ByAccess(s, rest) && forall g :: g in rest ==> LastAccess(s, g) < LastAccess(s, f)
    ensures ByAccess(s, [f] + rest)
  {
    var all := [f] + rest;
    forall i, j | 0 <= i < j < |all|
      ensures LastAccess(s, all[i]) > LastAccess(s, all[j])
    {
      assert all[j] == rest[j - 1] && all[j] in rest;
      if i > 0 { assert all[i] == rest[i - 1]; }
    }
  }

  /** The access moves the page to the front of the LRU list, or leaves it there, or is of no page on it. */
  predicate Seen(s: Swapper, f: Frame) {
    s.algorithm == Lru || f !in s.lru || s.lru[0] == f
  }

  /** Only the accessed page's record changes, to the latest time. */
  lemma RecordedTimes(s: Swapper, a: nat, f: Frame, isWrite: bool)
    requires Timely(s)
    ensures var s' := Recorded(s, a, f, isWrite);
            && Timely(s') && s'.time == s.time + 1 && LastAccess(s', f) == s.time + 1
            && forall g :: g != f ==> LastAccess(s', g) == LastAccess(s, g)
  {
    forall g
      ensures LastAccess(Recorded(s, a, f, isWrite), g) <= s.time + 1
    {
      assert LastAccess(s, g) <= s.time;
    }
  }

  lemma RecordedUnderLru(s: Swapper, s': Swapper, f: Frame)
    requires Inv(s) && Aligned(s) && s'.lru == Touch(s.lru, f, s.clock.capacity)
    requires LastAccess(s', f) == s.time + 1 && forall g :: g != f ==> LastAccess(s', g) == LastAccess(s, g)
    ensures ByAccess(s', s'.lru)
  {
    var rest := Without(s.lru, f);
    WithoutElements(s.lru, f);
    WithoutKeepsAccess(s, s.lru, f);
    AccessCongruent(s, s', rest);
    FrontKeepsAccess(s', rest, f);
  }

  lemma RecordedUnseen(s: Swapper, s': Swapper, f: Frame)
    requires Inv(s) && Aligned(s) && s'.lru == s.lru
    requires LastAccess(s', f) == s.time + 1 && forall g :: g != f ==> LastAccess(s', g) == LastAccess(s, g)
    ensures ByAccess(s', s.lru) <==> f !in s.lru || s.lru[0] == f
  {
    if f !in s.lru {
      AccessCongruent(s, s', s.lru);
    } else {
      var i :| 0 <= i < |s.lru| && s.lru[i] == f;
      if i == 0 {
        var rest := s.lru[1..];
        assert forall k :: 0 <= k < |rest| ==> rest[k] == s.lru[k + 1];
        AccessCongruent(s, s', rest);
        FrontKeepsAccess(s', rest, f);
        assert s.lru == [f] + rest;
      } else {
        assert s.lru[0] != f;
        assert LastAccess(s', s.lru[0]) < LastAccess(s', s.lru[i]);
      }
    }
  }

  lemma RecordedAligned(s: Swapper, a: nat, f: Frame, isWrite: bool)
    requires Inv(s) && Aligned(s)
    ensures Aligned(Recorded(s, a, f, isWrite)) <==> Seen(s, f)
  {
    var s' := Recorded(s, a, f, isWrite);
    RecordedTimes(s, a, f, isWrite);
    if s.algorithm == Lru {
      RecordedUnderLru(s, s', f);
    } else {
      RecordedUnseen(s, s', f);
    }
  }

  // ---------------------------------------------------------------- evictions

  lemma FewerRecords(s: Swapper, s': Swapper)
    requires Timely(s) && s'.time == s.time && forall f :: f in s'.info ==> f in s.info && s'.info[f] == s.info[f]
    ensures Timely(s')
  {
    forall f
      ensures LastAccess(s', f) <= s'.time
    {
      assert LastAccess(s, f) <= s.time;
    }
  }

  lemma ForgottenAligned(s: Swapper, f: Frame, n: nat)
    requires Inv(s) && Aligned(s)
    ensures Aligned(Forgotten(s, f).(out := n))
  {
    FewerRecords(s, Forgotten(s, f).(out := n));
    WithoutElements(s.lru, f);
    WithoutKeepsAccess(s, s.lru, f);
    AccessCongruent(s, Forgotten(s, f).(out := n), Without(s.lru, f));
  }

  ghost predicate Ordered(w: World) {
    Inv(w.pages) && Aligned(w.pages)
  }

  lemma EvictAligned(w: World, s: Swapper)
    requires Inv(s) && Aligned(s) && s == Looked(w.pages)
    ensures Aligned(Evict(w).0.pages)
  {
    if Evict(w).1.Chosen? { ForgottenAligned(s, Evict(w).1.frame, s.out + 1); }
  }

  lemma EvictOrdered(w: World)
    requires Ordered(w)
    ensures Ordered(Evict(w).0)
  {
    EvictMeaning(w);
    LookedMeaning(w.pages);
    SettingsAligned(w.pages, Looked(w.pages));
    EvictAligned(w, Looked(w.pages));
  }

  lemma {:induction false} RepeatedKeeps<W(!new)>(step: W -> (W, Choice), inv: W -> bool, w: W, n: nat)
    requires inv(w) && forall v :: inv(v) ==> inv(step(v).0)
    ensures inv(Repeated(step, w, n).0)
    decreases n
  {
    if n == 0 || !step(w).1.Chosen? {
    } else {
      RepeatedKeeps(step, inv, step(w).0, n - 1);
    }
  }

  lemma EvictManyOrdered(w: World, n: nat)
    requires Ordered(w)
    ensures Ordered(EvictMany(w, n).0)
  {
    forall v | Ordered(v)
      ensures Ordered(Evict(v).0)
    {
      EvictOrdered(v);
    }
    RepeatedKeeps(Evict, Ordered, w, n);
  }

  // ---------------------------------------------------------------- whole runs

  predicate SeenBy(w: World, call: Call) {
    match call
    case Record(_, f, _) => Seen(w.pages, f)
    case Fault(_, f) => f in w.store.pages ==> Seen(w.pages, f)
    case _ => true
  }

  lemma SettingsAligned(s: Swapper, s': Swapper)
    requires Aligned(s) && s'.info == s.info && s'.lru == s.lru && s'.time == s.time
    ensures Aligned(s')
  {
    FewerRecords(s, s');
    AccessCongruent(s, s', s.lru);
  }

  lemma BroughtAligned(w: World, a: nat, f: Frame)
    requires Ordered(w)
    ensures Aligned(Brought(w, a, f).pages) <==> Seen(w.pages, f)
  {
    var s := w.pages.(back := w.pages.back + 1);
    CountersKeepInv(w.pages, s);
    SettingsAligned(w.pages, s);
    RecordedAligned(s, a, f, false);
  }

  lemma FaultAligned(w: World, a: nat, f: Frame)
    requires Ordered(w)
    ensures Aligned(Faulted(w, a, f).pages) <==> (f in w.store.pages ==> Seen(w.pages, f))
  {
    var counted := World(Counted(w.pages), w.store);
    CountersKeepInv(w.pages, counted.pages);
    SettingsAligned(w.pages, counted.pages);
    BroughtAligned(counted, a, f);
  }

  lemma StepAligned(w: World, call: Call)
    requires Ordered(w)
    ensures Inv(Step(w, call).pages) && (Aligned(Step(w, call).pages) <==> SeenBy(w, call))
  {
    StepKeepsInv(w, call);
    match call
    case Record(a, f, isWrite) => RecordedAligned(w.pages, a, f, isWrite);
    case UseAlgorithm(_) => SettingsAligned(w.pages, Step(w, call).pages);
    case SetThreshold(_) => SettingsAligned(w.pages, Step(w, call).pages);
    case Fault(a, f) => FaultAligned(w, a, f);
    case SwapOut(n) => EvictManyOrdered(w, n);
    case Relieve => EvictManyOrdered(w, Excess(w.pages));
  }

  ghost predicate AllSeen(w: World, calls: seq<Call>) {
    calls == [] || (AllSeen(w, calls[..|calls| - 1]) && SeenBy(Run(w, calls[..|calls| - 1]), calls[|calls| - 1]))
  }

  ghost predicate AlwaysAligned(w: World, calls: seq<Call>) {
    Aligned(Run(w, calls).pages) && (calls == [] || AlwaysAligned(w, calls[..|calls| - 1]))
  }

  /**
   Over every run of calls: the LRU list stays in the order of the access records throughout exactly if no
   access made under another algorithm is of a page that LRU lists behind another.
   */
  lemma {:induction false} AlignedIffSeen(w: World, calls: seq<Call>)
    requires Ordered(w)
    ensures Inv(Run(w, calls).pages) && (AlwaysAligned(w, calls) <==> AllSeen(w, calls))
  {
    if calls == [] {
    } else {
      var init := calls[..|calls| - 1];
      AlignedIffSeen(w, init);
      RunKeepsInv(w, calls);
      if AllSeen(w, init) { StepAligned(Run(w, init), calls[|calls| - 1]); }
    }
  }

  // ---------------------------------------------------------------- concrete runs

  lemma RunNext(w: World, calls: seq<Call>, call: Call)
    ensures Run(w, calls + [call]) == Step(Run(w, calls), call)
  {
    assert (calls + [call])[..|calls|] == calls;
  }

  lemma RunThree(w: World, calls: seq<Call>)
    requires |calls| == 3
    ensures Run(w, calls) == Step(Step(Step(w, calls[0]), calls[1]), calls[2])
  {
    RunNext(w, [], calls[0]);
    RunNext(w, [calls[0]], calls[1]);
    RunNext(w, [calls[0], calls[1]], calls[2]);
    assert [] + [calls[0]] == [calls[0]] && [calls[0]] + [calls[1]] == [calls[0], calls[1]];
    assert calls == [calls[0], calls[1]] + [calls[2]];
  }

  lemma RunFive(w: World, calls: seq<Call>)
    requires |calls| == 5
    ensures Run(w, calls) == Step(Step(Run(w, calls[..3]), calls[3]), calls[4])
  {
    RunNext(w, calls[..3], calls[3]);
    RunNext(w, calls[..4], calls[4]);
    assert calls[..3] + [calls[3]] == calls[..4] && calls[..4] + [calls[4]] == calls;
  }

  lemma TwoUnderLru(s: Swapper, s1: Swapper, s2: Swapper)
    requires s == New(Lru, 2) && s1 == Recorded(s, 0, 1, false) && s2 == Recorded(s1, 0, 2, false)
    ensures s2.lru == [2, 1] && s2.algorithm == Lru && s2.time == 2 && LastAccess(s2, 2) == 2
  {
    assert Without<Frame>([], 1) == [] && s1.lru == [1];
    assert Without([1], 2) == [1];
  }

  lemma OneUnderFifo(s: Swapper, s': Swapper)
    requires s.lru == [2, 1] && s.algorithm == Lru && s.time == 2 && LastAccess(s, 2) == 2
    requires s' == Switched(Recorded(Switched(s, Fifo), 0, 1, false), Lru)
    ensures s'.lru == [2, 1] && s'.algorithm == Lru && LastAccess(s', 1) == 3 && LastAccess(s', 2) == 2
  {}

  /** Two pages under LRU, the older one accessed again under FIFO: back under LRU it is the victim all the same. */
  lemma SwitchMisleadsLru(store: Store, calls: seq<Call>)
    requires calls == [Record(0, 1, false), Record(0, 2, false), UseAlgorithm(Fifo), Record(0, 1, false),
                       UseAlgorithm(Lru)]
    ensures var s := Run(World(New(Lru, 2), store), calls).pages;
            2 in s.lru && Chooses(s) == Chosen(1) && LastAccess(s, 1) > LastAccess(s, 2)
  {
    var w := World(New(Lru, 2), store);
    RunFive(w, calls);
    RunThree(w, calls[..3]);
    var s1 := Recorded(w.pages, 0, 1, false);
    var s2 := Recorded(s1, 0, 2, false);
    TwoUnderLru(w.pages, s1, s2);
    OneUnderFifo(s2, Run(w, calls).pages);
  }

  lemma OnlyPageGoes(w: World)
    requires w.pages.algorithm == Lru && w.pages.lru == [1] && Storable(w.store, 1)
    ensures 1 in EvictMany(w, 1).0.store.pages
  {
    assert Evict(w).1 == Chosen(1) && 1 in Evict(w).0.store.pages;
    assert EvictMany(w, 1).0 == Repeated(Evict, Evict(w).0, 0).0;
  }

  lemma OneUnderLru(s: Swapper)
    requires s == New(Lru, 1)
    ensures Recorded(s, 0, 1, false).lru == [1] && Recorded(s, 0, 1, false).algorithm == Lru
  {
    assert Without<Frame>([], 1) == [];
  }

  lemma RecordedIsTracked(w: World, f: Frame)
    requires f in w.store.pages
    ensures !Separate(Step(w, Record(0, f, false)))
  {
    var w' := Step(w, Record(0, f, false));
    assert f in w'.pages.info && f in w'.store.pages;
  }

  /** Swapped out and then accessed without a fault: the page is tracked and stored at once. */
  lemma AccessCanOverlap(store: Store, calls: seq<Call>)
    requires calls == [Record(0, 1, false), SwapOut(1), Record(0, 1, false)] && Storable(store, 1)
    ensures !Separate(Run(World(New(Lru, 1), store), calls))
  {
    var w := World(New(Lru, 1), store);
    RunThree(w, calls);
    OneUnderLru(w.pages);
    var w1 := Step(w, calls[0]);
    OnlyPageGoes(w1);
    RecordedIsTracked(EvictMany(w1, 1).0, 1);
  }

  lemma ArmedPanics(w: World)
    requires Inv(w.pages) && w.pages.algorithm == SecondChance && Storable(w.store, 8)
    requires w.pages.clock.pages == [ClockReplacement.Slot(9, true), ClockReplacement.Slot(8, false)]
    requires w.pages.clock.hand == 1
    ensures EvictMany(w, 1).1 == Swapped(1) && EvictMany(w, 2).1 == BatchPanic
  {
    assert w.pages.clock.pages[1].frame == 8;
    assert WillPanic(w, 2) && !WillPanic(w, 1);
    EvictManyPanics(w, 2);
    EvictPanics(w, 2);
    EvictPanics(w, 1);
    assert Evict(w).1.Chosen?;
  }

  lemma RecordedClock(s: Swapper, f: Frame)
    requires s.algorithm == SecondChance
    ensures var s' := Recorded(s, 0, f, false);
            s'.algorithm == SecondChance && s'.clock == ClockReplacement.Accessed(s.clock, f)
  {}

  /** Three accesses under Clock with room for two pages: asked for two, the batch evicts one and panics. */
  lemma BatchCanPanic(store: Store, calls: seq<Call>)
    requires calls == [Record(0, 7, false), Record(0, 8, false), Record(0, 9, false)] && Storable(store, 8)
    ensures var w := Run(World(New(SecondChance, 2), store), calls);
            EvictMany(w, 1).1 == Swapped(1) && EvictMany(w, 2).1 == BatchPanic
  {
    var w := World(New(SecondChance, 2), store);
    RunThree(w, calls);
    RunKeepsInv(w, calls);
    var w1 := Step(w, calls[0]);
    var w2 := Step(w1, calls[1]);
    RecordedClock(w.pages, 7);
    RecordedClock(w1.pages, 8);
    RecordedClock(w2.pages, 9);
    ClockReplacement.ThreeAccesses(w.pages.clock);
    ArmedPanics(Run(w, calls));
  }
}
