/**
 The page swapper as a value: three replacers side by side, the access records, and the swap
 manager behind them.  What every run of calls keeps is proved here.
 */
module SwapperSpec {
  import opened Collections
  import opened Types
  import opened Replacement
  import opened ClockReplacement
  import SwapDevices
  import opened SwapStores

  datatype Algorithm = Lru | Fifo | SecondChance | Lfu

  datatype Info = Info(virtualAddress: nat, lastAccess: nat, accessCount: nat, referenced: bool, dirty: bool)

  datatype Choice = Nothing | Chosen(frame: Frame) | Panicked

  /** How a batch of evictions ended. */
  datatype Batch = Swapped(count: nat) | BatchPanic

  datatype Swapper = Swapper(
    algorithm: Algorithm, lru: seq<Frame>, fifo: seq<Frame>, clock: Clock, info: map<Frame, Info>,
    threshold: nat, time: nat, out: nat, back: nat, faults: nat, switches: nat)

  /** The swapper and what the swap manager behind it stores. */
  datatype World = World(pages: Swapper, store: Store)

  datatype Call =
    | Record(virtualAddress: nat, frame: Frame, isWrite: bool)
    | UseAlgorithm(algorithm: Algorithm)
    | SetThreshold(threshold: nat)
    | Fault(virtualAddress: nat, frame: Frame)
    | SwapOut(count: nat)
    | Relieve

  // ---------------------------------------------------------------- operations

  /** The bytes written for every victim: the source does not read the page's memory. */
  function ZeroPage(): SwapDevices.Page {
    seq(PAGE_SIZE, _ => 0)
  }

  function New(algorithm: Algorithm, capacity: nat): Swapper {
    Swapper(algorithm, [], [], Empty(capacity), map[], capacity, 0, 0, 0, 0, 0)
  }

  function Switched(s: Swapper, a: Algorithm): Swapper {
    if a == s.algorithm then s else s.(algorithm := a, switches := s.switches + 1)
  }

  function Renewed(info: map<Frame, Info>, virtualAddress: nat, f: Frame, time: nat, isWrite: bool): Info {
    var was := if f in info then info[f] else Info(virtualAddress, 0, 0, false, false);
    Info(was.virtualAddress, time, was.accessCount + 1, true, isWrite || was.dirty)
  }

  /** The record is made, and the current algorithm's replacer sees the access. */
  function Recorded(s: Swapper, virtualAddress: nat, f: Frame, isWrite: bool): Swapper {
    var t := s.(time := s.time + 1, info := s.info[f := Renewed(s.info, virtualAddress, f, s.time + 1, isWrite)]);
    match s.algorithm
    case Lru => t.(lru := Touch(s.lru, f, s.clock.capacity))
    case Fifo => t.(fifo := Admit(s.fifo, f, s.clock.capacity))
    case SecondChance => t.(clock := Accessed(s.clock, f))
    case Lfu => t
  }

  /** Fewest accesses, and the lowest frame among equals. */
  ghost predicate LeastIn(info: map<Frame, Info>, f: Frame) {
    && f in info
    && forall g :: g in info ==>
         info[f].accessCount < info[g].accessCount || (info[f].accessCount == info[g].accessCount && f <= g)
  }

  lemma {:induction false} LeastExists(info: map<Frame, Info>)
    requires info != map[]
    ensures exists f :: LeastIn(info, f)
    decreases |info|
  {
    var x :| x in info;
    var rest := info - {x};
    assert forall g :: g in info ==> g == x || (g in rest && rest[g] == info[g]);
    if rest == map[] {
      assert LeastIn(info, x);
    } else {
      LeastExists(rest);
      var y :| LeastIn(rest, y);
      var a, b := info[x].accessCount, info[y].accessCount;
      assert LeastIn(info, if a < b || (a == b && x < y) then x else y);
    }
  }

  ghost function Least(info: map<Frame, Info>): (f: Frame)
    requires info != map[]
    ensures LeastIn(info, f)
  {
    LeastExists(info);
    var f :| LeastIn(info, f);
    f
  }

  /** The victim of the current algorithm: least recent, oldest, second-chance, or least used. */
  ghost function Chooses(s: Swapper): Choice {
    match s.algorithm
    case Lru => if s.lru == [] then Nothing else Chosen(s.lru[|s.lru| - 1])
    case Fifo => if s.fifo == [] then Nothing else Chosen(s.fifo[0])
    case SecondChance =>
      (match Selected(s.clock).1
       case NoPages => Nothing
       case Victim(f) => Chosen(f)
       case Panic => Panicked)
    case Lfu => if s.info == map[] then Nothing else Chosen(Least(s.info))
  }

  /** Choosing moves the clock only. */
  function Looked(s: Swapper): Swapper {
    if s.algorithm == SecondChance then s.(clock := Selected(s.clock).0) else s
  }

  /** The page leaves every replacer and the records. */
  function Forgotten(s: Swapper, f: Frame): Swapper {
    s.(lru := Without(s.lru, f), fifo := Without(s.fifo, f), clock := Removed(s.clock, f), info := s.info - {f})
  }

  /** Choose a victim, store it, and forget it; stop if there is none or it cannot be stored. */
  ghost function Evict(w: World): (World, Choice) {
    var c, s := Chooses(w.pages), Looked(w.pages);
    if !c.Chosen? then (World(s, w.store), c)
    else if !Storable(w.store, c.frame) then (World(s, w.store), Nothing)
    else (World(Forgotten(s, c.frame).(out := s.out + 1), Put(w.store, c.frame, ZeroPage())), c)
  }

  /** Repeat a step up to n times, until it chooses nothing. */
  ghost function Repeated<W>(step: W -> (W, Choice), w: W, n: nat): (W, Batch)
    decreases n
  {
    if n == 0 then (w, Swapped(0))
    else
      var r := step(w);
      if !r.1.Chosen? then (r.0, if r.1.Panicked? then BatchPanic else Swapped(0))
      else
        var rest := Repeated(step, r.0, n - 1);
        (rest.0, if rest.1.Swapped? then Swapped(rest.1.count + 1) else BatchPanic)
  }

  ghost function EvictMany(w: World, n: nat): (World, Batch) {
    Repeated(Evict, w, n)
  }

  /** Pages the current algorithm tracks. */
  function PageCount(s: Swapper): nat {
    match s.algorithm
    case Lru => |s.lru|
    case Fifo => |s.fifo|
    case SecondChance => |s.clock.pages|
    case Lfu => |s.info|
  }

  /** Pages over the threshold. */
  function Excess(s: Swapper): nat {
    if PageCount(s) > s.threshold then PageCount(s) - s.threshold else 0
  }

  ghost function Relieved(w: World): (World, Batch) {
    EvictMany(w, Excess(w.pages))
  }

  /** A page that is out comes back, is counted, and is recorded as accessed. */
  function Brought(w: World, virtualAddress: nat, f: Frame): World {
    World(Recorded(w.pages.(back := w.pages.back + 1), virtualAddress, f, false), Taken(w.store, f))
  }

  function Counted(s: Swapper): Swapper {
    s.(faults := s.faults + 1)
  }

  function Faulted(w: World, virtualAddress: nat, f: Frame): World {
    var counted := World(Counted(w.pages), w.store);
    if f in w.store.pages then Brought(counted, virtualAddress, f) else counted
  }

  ghost function Step(w: World, call: Call): World {
    match call
    case Record(a, f, isWrite) => w.(pages := Recorded(w.pages, a, f, isWrite))
    case UseAlgorithm(a) => w.(pages := Switched(w.pages, a))
    case SetThreshold(n) => w.(pages := w.pages.(threshold := n))
    case Fault(a, f) => Faulted(w, a, f)
    case SwapOut(n) => EvictMany(w, n).0
    case Relieve => Relieved(w).0
  }

  ghost function Run(w: World, calls: seq<Call>): World {
    if calls == [] then w else Step(Run(w, calls[..|calls| - 1]), calls[|calls| - 1])
  }

  // ---------------------------------------------------------------- invariant

  ghost function FramesOf(pages: seq<Slot>): set<Frame> {
    set s | s in pages :: s.frame
  }

  /** Every frame a replacer knows has an access record, and no replacer is over its capacity. */
  ghost predicate Inv(s: Swapper) {
    && Distinct(s.lru) && |s.lru| <= s.clock.capacity && Elements(s.lru) <= s.info.Keys
    && Distinct(s.fifo) && |s.fifo| <= s.clock.capacity && Elements(s.fifo) <= s.info.Keys
    && ClockReplacement.Inv(s.clock) && FramesOf(s.clock.pages) <= s.info.Keys
  }

  /** No page is both tracked and swapped out. */
  ghost predicate Separate(w: World) {
    w.pages.info.Keys !! w.store.pages.Keys
  }

  /** The frames the current algorithm chooses from. */
  ghost function Candidates(s: Swapper): set<Frame> {
    match s.algorithm
    case Lru => Elements(s.lru)
    case Fifo => Elements(s.fifo)
    case SecondChance => FramesOf(s.clock.pages)
    case Lfu => s.info.Keys
  }

  // ---------------------------------------------------------------- what the replacers know

  lemma FrontDistinct(f: Frame, rest: seq<Frame>)
    requires Distinct(rest) && f !in rest
    ensures Distinct([f] + rest)
  {}

  lemma TakeKeeps(all: seq<Frame>, capacity: nat)
    requires Distinct(all)
    ensures Distinct(Take(all, capacity)) && |Take(all, capacity)| <= capacity
    ensures Elements(Take(all, capacity)) <= Elements(all)
  {}

  lemma TouchKeeps(pages: seq<Frame>, f: Frame, capacity: nat)
    requires Distinct(pages)
    ensures Elements(Touch(pages, f, capacity)) <= Elements(pages) + {f}
    ensures Distinct(Touch(pages, f, capacity)) && |Touch(pages, f, capacity)| <= capacity
  {
    WithoutElements(pages, f);
    WithoutKeepsDistinct(pages, f);
    FrontDistinct(f, Without(pages, f));
    TakeKeeps([f] + Without(pages, f), capacity);
  }

  lemma AdmitKeeps(pages: seq<Frame>, f: Frame, capacity: nat)
    requires Distinct(pages) && |pages| <= capacity
    ensures Elements(Admit(pages, f, capacity)) <= Elements(pages) + {f}
    ensures Distinct(Admit(pages, f, capacity)) && |Admit(pages, f, capacity)| <= capacity
  {}

  lemma AccessedFrames(c: Clock, f: Frame)
    ensures FramesOf(Accessed(c, f).pages) <= FramesOf(c.pages) + {f}
    ensures Accessed(c, f).capacity == c.capacity
  {
    var c' := Accessed(c, f);
    forall x | x in FramesOf(c'.pages)
      ensures x in FramesOf(c.pages) + {f}
    {
      var i :| 0 <= i < |c'.pages| && c'.pages[i].frame == x;
      if x != f { assert c.pages[i].frame == x && c.pages[i] in c.pages; }
    }
  }

  lemma SelectedFrames(c: Clock)
    ensures FramesOf(Selected(c).0.pages) == FramesOf(c.pages) && |Selected(c).0.pages| == |c.pages|
    ensures Selected(c).1.Victim? ==> Selected(c).1.frame in FramesOf(c.pages)
  {
    var c' := Selected(c).0;
    assert forall i :: 0 <= i < |c.pages| ==> c'.pages[i].frame == c.pages[i].frame;
    forall x
      ensures x in FramesOf(c'.pages) <==> x in FramesOf(c.pages)
    {
      if x in FramesOf(c.pages) {
        var i :| 0 <= i < |c.pages| && c.pages[i].frame == x;
        assert c'.pages[i] in c'.pages;
      }
      if x in FramesOf(c'.pages) {
        var i :| 0 <= i < |c'.pages| && c'.pages[i].frame == x;
        assert c.pages[i] in c.pages;
      }
    }
  }

  lemma RemovedFrames(c: Clock, f: Frame)
    requires ClockReplacement.Inv(c)
    ensures FramesOf(Removed(c, f).pages) == FramesOf(c.pages) - {f}
  {
    var k := ClockReplacement.IndexOf(c.pages, f);
    if k < |c.pages| {
      assert Distinct(c.pages);
      RemoveAtKeepsDistinct(c.pages, k);
      assert c.pages[k] in c.pages;
      forall s | s in c.pages && s != c.pages[k]
        ensures s.frame != f
      {
        var i :| 0 <= i < |c.pages| && c.pages[i] == s;
      }
    }
  }

  lemma FramesCardinality(c: Clock)
    requires ClockReplacement.Inv(c)
    ensures |FramesOf(c.pages)| == |c.pages|
  {
    var frames := seq(|c.pages|, i requires 0 <= i < |c.pages| => c.pages[i].frame);
    assert Distinct(frames);
    DistinctCardinality(frames);
    assert FramesOf(c.pages) == Elements(frames) by {
      forall x
        ensures x in Elements(frames) <==> x in FramesOf(c.pages)
      {
        if x in FramesOf(c.pages) {
          var i :| 0 <= i < |c.pages| && c.pages[i].frame == x;
          assert frames[i] == x;
        }
        if x in frames {
          var i :| 0 <= i < |frames| && frames[i] == x;
          assert c.pages[i] in c.pages;
        }
      }
    }
  }

  lemma CountIsCandidates(s: Swapper)
    requires Inv(s)
    ensures PageCount(s) == |Candidates(s)|
  {
    DistinctCardinality(s.lru);
    DistinctCardinality(s.fifo);
    FramesCardinality(s.clock);
  }

  /** The counters are no part of the invariant. */
  lemma CountersKeepInv(s: Swapper, s': Swapper)
    requires Inv(s) && s' == s.(back := s'.back, faults := s'.faults)
    ensures Inv(s')
  {}

  lemma RecordedKeepsInv(s: Swapper, a: nat, f: Frame, isWrite: bool)
    requires Inv(s)
    ensures Inv(Recorded(s, a, f, isWrite)) && Recorded(s, a, f, isWrite).info.Keys == s.info.Keys + {f}
  {
    TouchKeeps(s.lru, f, s.clock.capacity);
    AdmitKeeps(s.fifo, f, s.clock.capacity);
    AccessedFrames(s.clock, f);
    ClockReplacement.StepKeepsInv(s.clock, ClockReplacement.Access(f));
  }

  lemma LookedMeaning(s: Swapper)
    requires Inv(s)
    ensures Inv(Looked(s)) && Candidates(Looked(s)) == Candidates(s) && Looked(s).info == s.info
    ensures Chooses(s).Chosen? ==> Chooses(s).frame in Candidates(s) && Chooses(s).frame in s.info
    ensures Chooses(s).Nothing? <==> Candidates(s) == {}
  {
    match s.algorithm
    case Lru => if s.lru != [] { assert s.lru[|s.lru| - 1] in s.lru; }
    case Fifo => if s.fifo != [] { assert s.fifo[0] in s.fifo; }
    case SecondChance =>
      SelectedFrames(s.clock);
      SelectedKeepsInv(s.clock);
      if s.clock.pages != [] { assert s.clock.pages[0].frame in FramesOf(s.clock.pages); }
    case Lfu =>
  }

  lemma ForgottenMeaning(s: Swapper, f: Frame)
    requires Inv(s)
    ensures Inv(Forgotten(s, f)) && Candidates(Forgotten(s, f)) == Candidates(s) - {f}
  {
    WithoutElements(s.lru, f);
    WithoutElements(s.fifo, f);
    WithoutKeepsDistinct(s.lru, f);
    WithoutKeepsDistinct(s.fifo, f);
    WithoutLength(s.lru, f);
    WithoutLength(s.fifo, f);
    RemovedFrames(s.clock, f);
    RemovedKeepsInv(s.clock, f);
  }

  // ---------------------------------------------------------------- evictions

  /** What an eviction can see: records, candidates, stored pages, the count, and what it must not change. */
  datatype View = View(
    info: map<Frame, Info>, candidates: set<Frame>, store: Store, out: nat, settings: (Algorithm, nat, nat, nat))

  ghost function Look(w: World): View {
    View(w.pages.info, Candidates(w.pages), w.store, w.pages.out,
         (w.pages.algorithm, w.pages.threshold, w.pages.clock.capacity, w.pages.back))
  }

  /** b is a less the frames in `gone`, all of them in a. */
  ghost predicate Less(a: set<Frame>, b: set<Frame>, gone: seq<Frame>) {
    && (forall f :: f in gone ==> f in a)
    && (forall f :: f in b <==> f in a && f !in gone)
  }

  ghost predicate Kept(a: map<Frame, Info>, b: map<Frame, Info>) {
    forall f :: f in b && f in a ==> b[f] == a[f]
  }

  /** From st to st' exactly the pages in `gone`, none of them stored before, have been stored. */
  ghost predicate NewlyStored(st: Store, st': Store, gone: seq<Frame>) {
    && st'.slots == st.slots
    && Less(st'.pages.Keys, st.pages.Keys, gone)
    && (forall f :: f in st.pages && f in st'.pages ==> st'.pages[f] == st.pages[f])
    && (forall f :: f in gone && f in st'.pages ==> st'.pages[f] == ZeroPage())
  }

  /** From a to b exactly the pages in `gone` were evicted, in this order: forgotten here, stored there, and counted. */
  ghost predicate Progress(a: View, b: View, gone: seq<Frame>) {
    && b.settings == a.settings && b.out == a.out + |gone| && Distinct(gone)
    && Less(a.info.Keys, b.info.Keys, gone) && Kept(a.info, b.info)
    && Less(a.candidates, b.candidates, gone)
    && NewlyStored(a.store, b.store, gone)
  }

  lemma LessTrans(a: set<Frame>, b: set<Frame>, c: set<Frame>, first: seq<Frame>, second: seq<Frame>)
    requires Less(a, b, first) && Less(b, c, second)
    ensures Less(a, c, first + second)
    ensures forall f :: f in second ==> f !in first
  {}

  lemma StoredTrans(a: Store, b: Store, c: Store, first: seq<Frame>, second: seq<Frame>)
    requires NewlyStored(a, b, first) && NewlyStored(b, c, second)
    ensures NewlyStored(a, c, first + second)
  {
    forall f
      ensures f in a.pages.Keys <==> f in c.pages.Keys && f !in first + second
    {
      assert f in first + second <==> f in first || f in second;
    }
  }

  lemma DistinctConcat(first: seq<Frame>, second: seq<Frame>)
    requires Distinct(first) && Distinct(second) && forall f :: f in second ==> f !in first
    ensures Distinct(first + second)
  {
    assert forall i :: 0 <= i < |second| ==> second[i] in second;
  }

  lemma ProgressTrans(a: View, b: View, c: View, first: seq<Frame>, second: seq<Frame>)
    requires Progress(a, b, first) && Progress(b, c, second)
    ensures Progress(a, c, first + second)
  {
    LessTrans(a.info.Keys, b.info.Keys, c.info.Keys, first, second);
    LessTrans(a.candidates, b.candidates, c.candidates, first, second);
    StoredTrans(a.store, b.store, c.store, first, second);
    DistinctConcat(first, second);
  }

  lemma ProgressNone(a: View)
    ensures Progress(a, a, [])
  {}

  lemma LessCardinality(a: set<Frame>, b: set<Frame>, gone: seq<Frame>)
    requires Less(a, b, gone) && Distinct(gone)
    ensures |b| == |a| - |gone|
  {
    DistinctCardinality(gone);
    assert a == b + Elements(gone) && b !! Elements(gone);
  }

  /** As many records and candidates are gone as pages were evicted, and tracked and stored pages stay apart. */
  lemma ProgressMeaning(a: View, b: View, gone: seq<Frame>)
    requires Progress(a, b, gone)
    ensures |b.info| == |a.info| - |gone| && |b.candidates| == |a.candidates| - |gone|
    ensures |b.store.pages| == |a.store.pages| + |gone|
    ensures a.info.Keys !! a.store.pages.Keys ==> b.info.Keys !! b.store.pages.Keys
  {
    LessCardinality(a.info.Keys, b.info.Keys, gone);
    LessCardinality(a.candidates, b.candidates, gone);
    LessCardinality(b.store.pages.Keys, a.store.pages.Keys, gone);
  }

  ghost function Victims(c: Choice): seq<Frame> {
    if c.Chosen? then [c.frame] else []
  }

  /**
   One eviction takes exactly the algorithm's victim; if there is none, or it cannot be stored, nothing
   changes but the clock.
   */
  lemma EvictMeaning(w: World)
    requires Inv(w.pages)
    ensures Inv(Evict(w).0.pages) && Progress(Look(w), Look(Evict(w).0), Victims(Evict(w).1))
    ensures var c := Chooses(w.pages);
            Evict(w).1 == if c.Chosen? && !Storable(w.store, c.frame) then Nothing else c
  {
    LookedMeaning(w.pages);
    ProgressNone(Look(w));
    var c := Chooses(w.pages);
    if c.Chosen? && Storable(w.store, c.frame) { EvictChosen(w, c.frame, Looked(w.pages)); }
  }

  lemma EvictChosen(w: World, f: Frame, s: Swapper)
    requires Inv(s) && Look(World(s, w.store)) == Look(w)
    requires f in Candidates(s) && f in s.info && Storable(w.store, f)
    ensures var w' := World(Forgotten(s, f).(out := s.out + 1), Put(w.store, f, ZeroPage()));
            Inv(w'.pages) && Progress(Look(w), Look(w'), [f])
  {
    ForgottenMeaning(s, f);
  }

  /** Nothing is left to evict, or some candidate cannot be stored: it is stored already, or there is no room. */
  ghost predicate Stuck(v: View) {
    v.candidates == {} || exists f :: f in v.candidates && !Storable(v.store, f)
  }

  lemma EvictStops(w: World)
    requires Inv(w.pages)
    ensures Evict(w).1.Nothing? ==> Stuck(Look(Evict(w).0))
  {
    LookedMeaning(w.pages);
  }

  /** While tracked and stored pages are apart, a batch that stops short has no candidate left or a full store. */
  lemma StuckMeaning(w: World)
    requires Inv(w.pages) && Separate(w)
    ensures Cornered(w) <==> Candidates(w.pages) == {} || |w.store.pages| >= w.store.slots
  {
    if Candidates(w.pages) != {} {
      var f :| f in Candidates(w.pages);
      assert f in w.pages.info;
    }
  }

  // ---------------------------------------------------------------- when a batch panics

  /** Each page from the hand on can be stored after the ones before it. */
  ghost predicate RestStorable(st: Store, c: Clock) {
    && (forall i :: c.hand <= i < |c.pages| ==> c.pages[i].frame !in st.pages)
    && (c.hand < |c.pages| ==> |st.pages| + |c.pages| - c.hand <= st.slots)
  }

  /**
   n evictions end in the panic: under Clock, with exactly the pages from the hand on unreferenced, all of
   them storable, fewer of them than n, and a page before them.
   */
  ghost predicate WillPanic(w: World, n: nat) {
    && w.pages.algorithm == SecondChance && Armed(w.pages.clock)
    && n > |w.pages.clock.pages| - w.pages.clock.hand && RestStorable(w.store, w.pages.clock)
  }

  lemma RestStorableNext(st: Store, c: Clock, c': Clock)
    requires ClockReplacement.Inv(c) && Armed(c) && c.hand < |c.pages|
    requires c' == c.(pages := RemoveAt(c.pages, c.hand)) && Storable(st, c.pages[c.hand].frame)
    ensures RestStorable(Put(st, c.pages[c.hand].frame, ZeroPage()), c') <==> RestStorable(st, c)
  {
    var f, h := c.pages[c.hand].frame, c.hand;
    var st' := Put(st, f, ZeroPage());
    assert st'.pages.Keys == st.pages.Keys + {f};
    assert forall i :: h <= i < |c'.pages| ==> c'.pages[i] == c.pages[i + 1] && c'.pages[i].frame != f;
    if RestStorable(st', c') {
      forall i | h <= i < |c.pages|
        ensures c.pages[i].frame !in st.pages
      {
        if i > h { assert c'.pages[i - 1].frame !in st'.pages; }
      }
    }
  }

  /** One eviction panics only where a batch does, stops only where it does not, and otherwise leaves it open. */
  lemma EvictPanics(w: World, n: nat)
    requires Inv(w.pages) && n > 0
    ensures var r := Evict(w);
            && (r.1.Panicked? ==> WillPanic(w, n))
            && (r.1.Nothing? ==> !WillPanic(w, n))
            && (r.1.Chosen? ==> (WillPanic(r.0, n - 1) <==> WillPanic(w, n)))
  {
    var c := w.pages.clock;
    if w.pages.algorithm == SecondChance {
      PanicIffArmed(c);
      if Selected(c).1.Victim? {
        TakingKeepsArmed(c);
        var f := Selected(c).1.frame;
        if Armed(c) && Storable(w.store, f) {
          RestStorableNext(w.store, c, Removed(Selected(c).0, f));
        }
      }
    }
  }

  /** What one step does and composes, a repetition does. */
  lemma {:induction false} RepeatedMoves<W(!new)>(
    step: W -> (W, Choice), inv: W -> bool, moves: (W, W, seq<Frame>) -> bool, w: W, n: nat) returns (gone: seq<Frame>)
    requires inv(w)
    requires forall v :: inv(v) ==> inv(step(v).0) && moves(v, step(v).0, Victims(step(v).1))
    requires forall v :: moves(v, v, [])
    requires forall a, b, c, x, y :: moves(a, b, x) && moves(b, c, y) ==> moves(a, c, x + y)
    ensures inv(Repeated(step, w, n).0) && moves(w, Repeated(step, w, n).0, gone) && |gone| <= n
    ensures Repeated(step, w, n).1.Swapped? ==> Repeated(step, w, n).1.count == |gone|
    decreases n
  {
    gone := [];
    if n > 0 && step(w).1.Chosen? {
      var more := RepeatedMoves(step, inv, moves, step(w).0, n - 1);
      gone := Victims(step(w).1) + more;
    }
  }

  /** A repetition that ends early does so where a step did. */
  lemma {:induction false} RepeatedStops<W(!new)>(
    step: W -> (W, Choice), inv: W -> bool, stuck: W -> bool, w: W, n: nat)
    requires inv(w)
    requires forall v :: inv(v) ==> inv(step(v).0) && (step(v).1.Nothing? ==> stuck(step(v).0))
    ensures var r := Repeated(step, w, n); r.1.Swapped? && r.1.count < n ==> stuck(r.0)
    decreases n
  {
    if n > 0 && step(w).1.Chosen? {
      RepeatedStops(step, inv, stuck, step(w).0, n - 1);
    }
  }

  /** A repetition panics exactly where the condition, carried through its steps, says so. */
  lemma {:induction false} RepeatedPanics<W(!new)>(
    step: W -> (W, Choice), inv: W -> bool, panics: (W, nat) -> bool, w: W, n: nat)
    requires inv(w)
    requires forall v :: inv(v) ==> inv(step(v).0)
    requires forall v :: !panics(v, 0)
    requires forall v, k :: inv(v) && k > 0 ==>
               && (step(v).1.Panicked? ==> panics(v, k)) && (step(v).1.Nothing? ==> !panics(v, k))
               && (step(v).1.Chosen? ==> (panics(step(v).0, k - 1) <==> panics(v, k)))
    ensures Repeated(step, w, n).1.BatchPanic? <==> panics(w, n)
    decreases n
  {
    if n > 0 && step(w).1.Chosen? {
      RepeatedPanics(step, inv, panics, step(w).0, n - 1);
    }
  }

  ghost predicate Sound(w: World) {
    Inv(w.pages)
  }

  ghost predicate Cornered(w: World) {
    Stuck(Look(w))
  }

  /** From w to w' exactly these pages were evicted. */
  ghost predicate Moves(w: World, w': World, gone: seq<Frame>) {
    Progress(Look(w), Look(w'), gone)
  }

  /** The pages a batch evicts, and the number it reports. */
  ghost predicate Evicts(w: World, n: nat, r: (World, Batch), gone: seq<Frame>) {
    Sound(r.0) && Moves(w, r.0, gone) && |gone| <= n && (r.1.Swapped? ==> r.1.count == |gone|)
  }

  lemma EvictMoves()
    ensures forall v :: Sound(v) ==> Sound(Evict(v).0) && Moves(v, Evict(v).0, Victims(Evict(v).1))
  {
    forall v | Sound(v)
      ensures Sound(Evict(v).0) && Moves(v, Evict(v).0, Victims(Evict(v).1))
    {
      EvictMeaning(v);
    }
  }

  lemma MovesCompose()
    ensures forall v :: Moves(v, v, [])
    ensures forall a, b, c, x, y :: Moves(a, b, x) && Moves(b, c, y) ==> Moves(a, c, x + y)
  {
    forall v
      ensures Moves(v, v, [])
    {
      ProgressNone(Look(v));
    }
    forall a, b, c, x, y | Moves(a, b, x) && Moves(b, c, y)
      ensures Moves(a, c, x + y)
    {
      ProgressTrans(Look(a), Look(b), Look(c), x, y);
    }
  }

  /** A batch evicts exactly as many pages as it reports, each forgotten here and newly stored there. */
  lemma EvictManyMeaning(w: World, n: nat) returns (gone: seq<Frame>)
    requires Inv(w.pages)
    ensures Evicts(w, n, EvictMany(w, n), gone)
  {
    EvictMoves();
    MovesCompose();
    gone := RepeatedMoves(Evict, Sound, Moves, w, n);
  }

  /** It evicts fewer than asked only when it runs out of candidates or one cannot be stored. */
  lemma EvictManyStops(w: World, n: nat)
    requires Inv(w.pages)
    ensures var r := EvictMany(w, n); r.1.Swapped? && r.1.count < n ==> Cornered(r.0)
  {
    forall v | Sound(v)
      ensures Sound(Evict(v).0) && (Evict(v).1.Nothing? ==> Cornered(Evict(v).0))
    {
      EvictMeaning(v);
      EvictStops(v);
    }
    RepeatedStops(Evict, Sound, Cornered, w, n);
  }

  /** A batch panics if and only if it is asked for more than the run of storable pages at an armed hand. */
  lemma EvictManyPanics(w: World, n: nat)
    requires Inv(w.pages)
    ensures EvictMany(w, n).1.BatchPanic? <==> WillPanic(w, n)
  {
    forall v | Sound(v)
      ensures Sound(Evict(v).0)
    {
      EvictMeaning(v);
    }
    forall v, k: nat | Sound(v) && k > 0
      ensures && (Evict(v).1.Panicked? ==> WillPanic(v, k)) && (Evict(v).1.Nothing? ==> !WillPanic(v, k))
              && (Evict(v).1.Chosen? ==> (WillPanic(Evict(v).0, k - 1) <==> WillPanic(v, k)))
    {
      EvictPanics(v, k);
    }
    RepeatedPanics(Evict, Sound, WillPanic, w, n);
  }

  lemma CountAfter(w: World, w': World, gone: seq<Frame>)
    requires Inv(w.pages) && Inv(w'.pages) && Progress(Look(w), Look(w'), gone)
    ensures PageCount(w'.pages) == PageCount(w.pages) - |gone|
  {
    CountIsCandidates(w.pages);
    CountIsCandidates(w'.pages);
    ProgressMeaning(Look(w), Look(w'), gone);
  }

  /** A batch of as many evictions as there are pages over the threshold: none below it, and never below it after. */
  lemma Relief(w: World, r: (World, Batch), gone: seq<Frame>)
    requires Inv(w.pages) && Evicts(w, Excess(w.pages), r, gone)
    ensures PageCount(w.pages) <= w.pages.threshold ==> gone == []
    ensures PageCount(w.pages) > w.pages.threshold ==>
              PageCount(r.0.pages) == PageCount(w.pages) - |gone| >= w.pages.threshold
  {
    CountAfter(w, r.0, gone);
  }

  lemma RelievedMeaning(w: World) returns (gone: seq<Frame>)
    requires Inv(w.pages)
    ensures Evicts(w, Excess(w.pages), Relieved(w), gone)
    ensures Excess(w.pages) == 0 ==> Relieved(w) == (w, Swapped(0))
  {
    gone := EvictManyMeaning(w, Excess(w.pages));
  }

  /** Fewer than the excess are evicted only when stuck, and when the check panics. */
  lemma RelievedStops(w: World)
    requires Inv(w.pages)
    ensures Relieved(w).1.Swapped? && Relieved(w).1.count < Excess(w.pages) ==> Cornered(Relieved(w).0)
    ensures Relieved(w).1.BatchPanic? <==> WillPanic(w, Excess(w.pages))
  {
    EvictManyStops(w, Excess(w.pages));
    EvictManyPanics(w, Excess(w.pages));
  }

  lemma BroughtMeaning(w: World, a: nat, f: Frame)
    requires Inv(w.pages)
    ensures var w' := Brought(w, a, f);
            && Inv(w'.pages) && w'.pages.info.Keys == w.pages.info.Keys + {f} && w'.pages.back == w.pages.back + 1
            && w'.pages.out == w.pages.out
            && (forall g :: g in w.pages.info && g != f ==> w'.pages.info[g] == w.pages.info[g])
  {
    var s := w.pages.(back := w.pages.back + 1);
    CountersKeepInv(w.pages, s);
    RecordedKeepsInv(s, a, f, false);
  }

  /** A swapped-out page comes back, is recorded as accessed and leaves the store; no other page changes. */
  lemma FaultedMeaning(w: World, a: nat, f: Frame)
    requires Inv(w.pages)
    ensures var w' := Faulted(w, a, f); var was := f in w.store.pages;
            && Inv(w'.pages) && (Separate(w) ==> Separate(w'))
            && w'.pages.info.Keys == w.pages.info.Keys + (if was then {f} else {})
            && w'.pages.back == w.pages.back + (if was then 1 else 0)
            && (forall g :: g in w.pages.info && (g != f || !was) ==> w'.pages.info[g] == w.pages.info[g])
            && w'.store.pages == w.store.pages - {f}
  {
    var counted := World(Counted(w.pages), w.store);
    CountersKeepInv(w.pages, counted.pages);
    if f in w.store.pages {
      BroughtMeaning(counted, a, f);
    } else {
      assert w.store.pages - {f} == w.store.pages;
    }
  }

  // ---------------------------------------------------------------- whole runs

  lemma StepKeepsInv(w: World, call: Call)
    requires Inv(w.pages)
    ensures Inv(Step(w, call).pages)
  {
    match call
    case Record(a, f, isWrite) => RecordedKeepsInv(w.pages, a, f, isWrite);
    case UseAlgorithm(_) =>
    case SetThreshold(_) =>
    case Fault(a, f) => FaultedMeaning(w, a, f);
    case SwapOut(n) => var gone := EvictManyMeaning(w, n);
    case Relieve => var gone := RelievedMeaning(w);
  }

  /** Over every run, algorithm switches included, every replacer's frames stay within the records and its capacity. */
  lemma {:induction false} RunKeepsInv(w: World, calls: seq<Call>)
    requires Inv(w.pages)
    ensures Inv(Run(w, calls).pages)
  {
    if calls == [] {
    } else {
      RunKeepsInv(w, calls[..|calls| - 1]);
      StepKeepsInv(Run(w, calls[..|calls| - 1]), calls[|calls| - 1]);
    }
  }

  /** Accesses are only recorded for pages that are not swapped out. */
  predicate Resident(w: World, call: Call) {
    call.Record? ==> call.frame !in w.store.pages
  }

  lemma StepKeepsSeparate(w: World, call: Call)
    requires Inv(w.pages) && Separate(w)
    ensures Separate(Step(w, call)) <==> Resident(w, call)
  {
    match call
    case Record(a, f, isWrite) =>
      RecordedKeepsInv(w.pages, a, f, isWrite);
      assert f in Step(w, call).pages.info;
    case UseAlgorithm(_) =>
    case SetThreshold(_) =>
    case Fault(a, f) => FaultedMeaning(w, a, f);
    case SwapOut(n) =>
      var gone := EvictManyMeaning(w, n);
      ProgressMeaning(Look(w), Look(EvictMany(w, n).0), gone);
    case Relieve =>
      var gone := RelievedMeaning(w);
      ProgressMeaning(Look(w), Look(Relieved(w).0), gone);
  }

  ghost predicate AllResident(w: World, calls: seq<Call>) {
    if calls == [] then true
    else
      var init := calls[..|calls| - 1];
      AllResident(w, init) && Resident(Run(w, init), calls[|calls| - 1])
  }

  ghost predicate AlwaysSeparate(w: World, calls: seq<Call>) {
    Separate(Run(w, calls)) && (calls == [] || AlwaysSeparate(w, calls[..|calls| - 1]))
  }

  /**
   Over every run of calls, algorithm switches included: tracked and swapped-out pages stay apart
   throughout exactly if accesses are only recorded for pages that are not swapped out.
   */
  lemma {:induction false} SeparateIffResident(w: World, calls: seq<Call>)
    requires Inv(w.pages) && Separate(w)
    ensures AlwaysSeparate(w, calls) <==> AllResident(w, calls)
  {
    if calls == [] {
    } else {
      var init := calls[..|calls| - 1];
      SeparateIffResident(w, init);
      if AllResident(w, init) {
        RunKeepsInv(w, init);
        StepKeepsSeparate(Run(w, init), calls[|calls| - 1]);
      }
    }
  }

  lemma StepBalance(w: World, call: Call)
    requires Inv(w.pages)
    ensures var w' := Step(w, call);
            |w'.store.pages| - |w.store.pages| == (w'.pages.out - w.pages.out) - (w'.pages.back - w.pages.back)
  {
    match call
    case Record(_, _, _) =>
    case UseAlgorithm(_) =>
    case SetThreshold(_) =>
    case Fault(a, f) => assert (w.store.pages - {f}).Keys == w.store.pages.Keys - {f};
    case SwapOut(n) =>
      var gone := EvictManyMeaning(w, n);
      ProgressMeaning(Look(w), Look(EvictMany(w, n).0), gone);
    case Relieve =>
      var gone := RelievedMeaning(w);
      ProgressMeaning(Look(w), Look(Relieved(w).0), gone);
  }

  /** Over every run the pages that are out are those counted out less those counted back. */
  lemma {:induction false} RunBalance(w: World, calls: seq<Call>)
    requires Inv(w.pages)
    ensures var w' := Run(w, calls);
            |w'.store.pages| - |w.store.pages| == (w'.pages.out - w.pages.out) - (w'.pages.back - w.pages.back)
  {
    if calls == [] {
    } else {
      RunBalance(w, calls[..|calls| - 1]);
      RunKeepsInv(w, calls[..|calls| - 1]);
      StepBalance(Run(w, calls[..|calls| - 1]), calls[|calls| - 1]);
    }
  }

  lemma StepKeepsLimits(w: World, call: Call)
    requires Inv(w.pages) && !call.SetThreshold?
    ensures Step(w, call).pages.threshold == w.pages.threshold
    ensures Step(w, call).pages.clock.capacity == w.pages.clock.capacity
  {
    match call
    case Record(a, f, _) => AccessedFrames(w.pages.clock, f);
    case UseAlgorithm(_) =>
    case Fault(a, f) => AccessedFrames(w.pages.clock, f);
    case SwapOut(n) => var gone := EvictManyMeaning(w, n);
    case Relieve => var gone := RelievedMeaning(w);
  }

  lemma {:induction false} RunKeepsLimits(w: World, calls: seq<Call>)
    requires Inv(w.pages) && forall c :: c in calls ==> !c.SetThreshold?
    ensures Run(w, calls).pages.threshold == w.pages.threshold
    ensures Run(w, calls).pages.clock.capacity == w.pages.clock.capacity
  {
    if calls == [] {
    } else {
      RunKeepsLimits(w, calls[..|calls| - 1]);
      RunKeepsInv(w, calls[..|calls| - 1]);
      StepKeepsLimits(Run(w, calls[..|calls| - 1]), calls[|calls| - 1]);
    }
  }

  /**
   With the threshold a swapper is created with, the pressure check never evicts under LRU, FIFO or Clock:
   each tracks at most as many pages as the threshold allows.  Only LFU counts every record.
   */
  lemma DefaultThresholdIsIdle(algorithm: Algorithm, capacity: nat, store: Store, calls: seq<Call>)
    requires forall c :: c in calls ==> !c.SetThreshold?
    ensures var w := Run(World(New(algorithm, capacity), store), calls);
            w.pages.algorithm != Lfu ==> Relieved(w) == (w, Swapped(0))
  {
    RunKeepsLimits(World(New(algorithm, capacity), store), calls);
    RunKeepsInv(World(New(algorithm, capacity), store), calls);
  }
}
