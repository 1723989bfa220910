/** The page swapper over its three replacers and the swap manager, proved against `SwapperSpec`. */
module PageSwapping {
  import opened Collections
  import opened Types
  import opened Replacement
  import opened ClockReplacement
  import opened SwapStores
  import opened SwapperSpec
  import SwapDevices
  import SwapSpace

  lemma ForgottenCounted(s: Swapper, f: Frame)
    requires SwapperSpec.Inv(s)
    ensures SwapperSpec.Inv(Forgotten(s, f).(out := s.out + 1))
  {
    ForgottenMeaning(s, f);
  }

  lemma EvictTakes(w: World, f: Frame, s: Swapper, w': World)
    requires Chooses(w.pages) == Chosen(f) && s == Looked(w.pages) && Storable(w.store, f)
    requires w' == World(Forgotten(s, f).(out := s.out + 1), Put(w.store, f, ZeroPage()))
    ensures Evict(w) == (w', Chosen(f))
  {}

  lemma EvictLeaves(w: World, c: Choice, w': World)
    requires c == Chooses(w.pages) && (c.Chosen? ==> !Storable(w.store, c.frame))
    requires w' == World(Looked(w.pages), w.store)
    ensures Evict(w) == (w', if c.Chosen? then Nothing else c)
  {}

  /** From s to t a page that was out has been counted back and recorded as accessed. */
  ghost predicate Refills(s: Swapper, t: Swapper, a: nat, f: Frame) {
    t == Recorded(s.(back := s.back + 1), a, f, false)
  }

  lemma FaultParts(w: World, a: nat, f: Frame, w': World)
    requires w' == Faulted(w, a, f)
    ensures f !in w.store.pages ==> w' == World(Counted(w.pages), w.store)
    ensures f in w.store.pages ==> w'.store == Taken(w.store, f) && Refills(Counted(w.pages), w'.pages, a, f)
  {}

  /** The swap manager, and the store it represents. */
  class Backing {
    const manager: SwapSpace.SwapManager
    ghost var store: Store

    ghost predicate Valid()
      reads this, manager
    {
      SwapSpace.Represents(manager.State(), store)
    }

    constructor (manager: SwapSpace.SwapManager)
      requires SwapSpace.Inv(manager.State())
      ensures Valid() && this.manager == manager && store == SwapSpace.StoreOf(manager.State())
    {
      this.manager := manager;
      store := SwapSpace.StoreOf(manager.State());
    }

    method SwapOut(f: Frame, page: SwapDevices.Page) returns (stored: bool)
      requires Valid()
      modifies this, manager
      ensures Valid() && store == Put(old(store), f, page) && stored == Storable(old(store), f)
    {
      SwapSpace.OutRepresents(manager.State(), store, f, page);
      var result := manager.SwapOutPage(f, page);
      store := Put(store, f, page);
      stored := result.Ok?;
    }

    predicate IsOut(f: Frame)
      requires Valid()
      reads this, manager
      ensures IsOut(f) <==> f in store.pages
    {
      f in manager.pageToSwap
    }

    /** The bytes are handed back; this never fails for a page that is out. */
    method SwapIn(f: Frame) returns (r: Result<SwapDevices.Page, SwapDevices.Error>)
      requires Valid() && f in store.pages
      modifies this, manager
      ensures Valid() && store == Taken(old(store), f) && r == Ok(old(store).pages[f])
    {
      SwapSpace.InRepresents(manager.State(), store, f);
      SwapSpace.SwapInMeaning(manager.State(), f);
      r := manager.SwapInPage(f);
      store := Taken(store, f);
    }
  }

  /** What one eviction says about the panic of the batch it belongs to, before and after it. */
  ghost predicate Foretells(r: Choice, before: bool, after: bool) {
    match r
    case Panicked => before
    case Nothing => !before
    case Chosen(_) => after <==> before
  }

  /** What `?` passes on. */
  function ErrorOf<T>(r: Result<T, SwapDevices.Error>): Option<SwapDevices.Error> {
    if r.Ok? then None else Some(r.error)
  }

  class PageSwapper {
    var algorithm: Algorithm
    const lru: LRUReplacer
    const fifo: FIFOReplacer
    const clock: ClockReplacer
    var pageInfo: map<Frame, Info>
    var timestamp: nat
    var threshold: nat
    var pagesOut: nat
    var pagesIn: nat
    var faults: nat
    var switches: nat

    ghost function State(): Swapper
      reads this, lru, fifo, clock
    {
      Swapper(algorithm, lru.pages, fifo.pages, clock.State(), pageInfo,
              threshold, timestamp, pagesOut, pagesIn, faults, switches)
    }

    ghost predicate Valid()
      reads this, lru, fifo, clock
    {
      && lru.Valid() && fifo.Valid() && lru.maxPages == fifo.maxPages == clock.maxPages
      && SwapperSpec.Inv(State())
    }

    /** The swapper together with what its swap manager stores. */
    ghost function Here(swap: Backing): World
      reads this, lru, fifo, clock, swap
    {
      World(State(), swap.store)
    }

    constructor (algorithm: Algorithm, maxPages: nat)
      ensures Valid() && State() == New(algorithm, maxPages) && fresh(lru) && fresh(fifo) && fresh(clock)
    {
      this.algorithm := algorithm;
      lru := new LRUReplacer(maxPages);
      fifo := new FIFOReplacer(maxPages);
      clock := new ClockReplacer(maxPages);
      pageInfo, timestamp, threshold := map[], 0, maxPages;
      pagesOut, pagesIn, faults, switches := 0, 0, 0, 0;
    }

    /** Switching keeps every replacer's contents. */
    method SetAlgorithm(a: Algorithm)
      requires Valid()
      modifies this`algorithm, this`switches
      ensures Valid() && State() == Switched(old(State()), a)
    {
      if algorithm != a {
        algorithm := a;
        switches := switches + 1;
      }
    }

    method SetMemoryPressureThreshold(n: nat)
      requires Valid()
      modifies this`threshold
      ensures Valid() && State() == old(State()).(threshold := n)
    {
      threshold := n;
    }

    /** Only the current algorithm's replacer sees the access; Clock panics when it has no room at all. */
    method AccessPage(virtualAddress: nat, f: Frame, isWrite: bool) returns (panicked: bool)
      requires Valid()
      modifies this`pageInfo, this`timestamp, lru, fifo, clock
      ensures Valid() && State() == Recorded(old(State()), virtualAddress, f, isWrite)
      ensures panicked <==> algorithm == SecondChance && clock.maxPages == 0
    {
      RecordedKeepsInv(State(), virtualAddress, f, isWrite);
      timestamp := timestamp + 1;
      pageInfo := pageInfo[f := Renewed(pageInfo, virtualAddress, f, timestamp, isWrite)];
      panicked := false;
      match algorithm {
        case Lru => lru.AccessPage(f);
        case Fifo => fifo.AddPage(f);
        case SecondChance => panicked := clock.AccessPage(f);
        case Lfu =>
      }
    }

    /** The record with the fewest accesses; the lowest frame among equals. */
    method LeastUsed() returns (f: Frame)
      requires pageInfo != map[]
      ensures LeastIn(pageInfo, f)
    {
      f :| f in pageInfo;
      var rest := pageInfo.Keys - {f};
      while rest != {}
        invariant f in pageInfo && rest <= pageInfo.Keys
        invariant forall g :: g in pageInfo && g !in rest ==>
                    pageInfo[f].accessCount < pageInfo[g].accessCount ||
                    (pageInfo[f].accessCount == pageInfo[g].accessCount && f <= g)
        decreases rest
      {
        var g :| g in rest;
        var a, b := pageInfo[g].accessCount, pageInfo[f].accessCount;
        if a < b || (a == b && g < f) {
          f := g;
        }
        rest := rest - {g};
      }
    }

    /** The victim is the current algorithm's; choosing it moves the clock only. */
    method SelectVictimPage() returns (r: Choice)
      requires Valid()
      modifies clock
      ensures Valid() && r == old(Chooses(State())) && State() == Looked(old(State()))
    {
      LookedMeaning(State());
      match algorithm {
        case Lru =>
          var v := lru.GetVictimPage();
          r := if v.Some? then Chosen(v.value) else Nothing;
        case Fifo =>
          var v := fifo.GetVictimPage();
          r := if v.Some? then Chosen(v.value) else Nothing;
        case SecondChance =>
          var v, probes := clock.GetVictimPage();
          r := match v case NoPages => Nothing case Victim(f) => Chosen(f) case Panic => Panicked;
        case Lfu =>
          if pageInfo == map[] {
            r := Nothing;
          } else {
            var f := LeastUsed();
            assert f == Least(pageInfo);
            r := Chosen(f);
          }
      }
    }

    /** Forget a page in every replacer. */
    method RemoveFromTracking(f: Frame)
      requires Valid()
      modifies lru, fifo, clock
      ensures lru.Valid() && fifo.Valid()
      ensures lru.pages == Without(old(lru.pages), f) && fifo.pages == Without(old(fifo.pages), f)
      ensures clock.State() == Removed(old(clock.State()), f)
    {
      lru.RemovePage(f);
      fifo.RemovePage(f);
      clock.RemovePage(f);
    }

    /** Choose a victim, store it, and forget it; stop if there is none or it cannot be stored. */
    method EvictOne(swap: Backing) returns (r: Choice)
      requires Valid() && swap.Valid()
      modifies this`pageInfo, this`pagesOut, lru, fifo, clock, swap, swap.manager
      ensures Valid() && swap.Valid()
      ensures (Here(swap), r) == old(Evict(Here(swap)))
    {
      ghost var before := Here(swap);
      EvictMeaning(before);
      r := SelectVictimPage();
      if !r.Chosen? {
        EvictLeaves(before, r, Here(swap));
        return;
      }
      var evicted := StoreAndForget(r.frame, swap, before);
      if !evicted {
        return Nothing;
      }
    }

    method StoreAndForget(f: Frame, swap: Backing, ghost before: World) returns (evicted: bool)
      requires Valid() && swap.Valid() && Chooses(before.pages) == Chosen(f)
      requires Here(swap) == World(Looked(before.pages), before.store)
      modifies this`pageInfo, this`pagesOut, lru, fifo, clock, swap, swap.manager
      ensures Valid() && swap.Valid()
      ensures (Here(swap), if evicted then Chosen(f) else Nothing) == Evict(before)
    {
      ghost var s := State();
      evicted := swap.SwapOut(f, ZeroPage());
      if !evicted {
        EvictLeaves(before, Chosen(f), Here(swap));
        return;
      }
      Forget(f);
      EvictTakes(before, f, s, Here(swap));
    }

    /** Drop a page's record and every trace of it, and count it. */
    method Forget(f: Frame)
      requires Valid()
      modifies this`pageInfo, this`pagesOut, lru, fifo, clock
      ensures Valid() && State() == Forgotten(old(State()), f).(out := old(pagesOut) + 1)
    {
      ghost var s := State();
      ForgottenCounted(s, f);
      RemoveFromTracking(f);
      pageInfo := pageInfo - {f};
      pagesOut := pagesOut + 1;
      assert State() == Forgotten(s, f).(out := s.out + 1);
    }

    /** One eviction on top of those in `gone`. */
    method EvictNext(swap: Backing, ghost start: World, ghost gone: seq<Frame>)
      returns (r: Choice, ghost all: seq<Frame>)
      requires Valid() && swap.Valid() && Moves(start, Here(swap), gone)
      modifies this`pageInfo, this`pagesOut, lru, fifo, clock, swap, swap.manager
      ensures Valid() && swap.Valid() && Moves(start, Here(swap), all)
      ensures all == gone + Victims(r)
      ensures r.Nothing? ==> Cornered(Here(swap))
      ensures forall k: nat :: k > 0 ==> Foretells(r, old(WillPanic(Here(swap), k)), WillPanic(Here(swap), k - 1))
    {
      ghost var before := Here(swap);
      EvictMeaning(before);
      EvictStops(before);
      forall k: nat | k > 0
        ensures Foretells(Evict(before).1, WillPanic(before, k), WillPanic(Evict(before).0, k - 1))
      {
        EvictPanics(before, k);
      }
      r := EvictOne(swap);
      all := gone + Victims(r);
      ProgressTrans(Look(start), Look(before), Look(Here(swap)), gone, Victims(r));
    }

    /**
     Evict up to `count` pages: those in `gone`, in this order, leave the records and are newly stored.
     Fewer are evicted only when candidates or room run out.
     */
    method SwapOutPages(count: nat, swap: Backing) returns (r: Batch, ghost gone: seq<Frame>)
      requires Valid() && swap.Valid()
      modifies this`pageInfo, this`pagesOut, lru, fifo, clock, swap, swap.manager
      ensures Valid() && swap.Valid()
      ensures Moves(old(Here(swap)), Here(swap), gone) && |gone| <= count
      ensures (r.BatchPanic? <==> old(WillPanic(Here(swap), count))) && (r.Swapped? ==> r.count == |gone|)
      ensures r.Swapped? && r.count < count ==> Cornered(Here(swap))
    {
      ghost var start := Here(swap);
      ProgressNone(Look(start));
      gone := [];
      for swapped := 0 to count
        invariant Valid() && swap.Valid() && Moves(start, Here(swap), gone) && |gone| == swapped
        invariant WillPanic(Here(swap), count - swapped) <==> WillPanic(start, count)
      {
        var victim;
        victim, gone := EvictNext(swap, start, gone);
        if victim.Panicked? {
          return BatchPanic, gone;
        }
        if victim.Nothing? {
          return Swapped(swapped), gone;
        }
      }
      return Swapped(count), gone;
    }

    /** Number of pages the current algorithm tracks. */
    method CurrentPageCount() returns (n: nat)
      requires Valid()
      ensures n == PageCount(State()) == |Candidates(State())|
    {
      CountIsCandidates(State());
      match algorithm {
        case Lru => n := |lru.pages|;
        case Fifo => n := |fifo.pages|;
        case SecondChance => n := |clock.pages|;
        case Lfu => n := |pageInfo|;
      }
    }

    /**
     Evict as many pages as there are over the threshold: none at or below it, never below it, and fewer
     only when candidates or room run out.  Tracked and stored pages stay apart.
     */
    method CheckMemoryPressure(swap: Backing) returns (r: Batch, ghost gone: seq<Frame>)
      requires Valid() && swap.Valid()
      modifies this`pageInfo, this`pagesOut, lru, fifo, clock, swap, swap.manager
      ensures Valid() && swap.Valid()
      ensures Moves(old(Here(swap)), Here(swap), gone) && |gone| <= old(Excess(State()))
      ensures (r.BatchPanic? <==> old(WillPanic(Here(swap), Excess(State())))) && (r.Swapped? ==> r.count == |gone|)
      ensures r.Swapped? && r.count < old(Excess(State())) ==> Cornered(Here(swap))
      ensures old(Separate(Here(swap))) ==> Separate(Here(swap))
    {
      ghost var before := Here(swap);
      var n := CurrentPageCount();
      if n <= threshold {
        ProgressNone(Look(before));
        return Swapped(0), [];
      }
      r, gone := SwapOutPages(n - threshold, swap);
      ProgressMeaning(Look(before), Look(Here(swap)), gone);
    }

    /** A page that is out comes back, is recorded as accessed, and leaves the swap space; this never fails. */
    method HandlePageFault(virtualAddress: nat, f: Frame, swap: Backing)
      returns (error: Option<SwapDevices.Error>, panicked: bool)
      requires Valid() && swap.Valid()
      modifies this`pageInfo, this`timestamp, this`pagesIn, this`faults, lru, fifo, clock, swap, swap.manager
      ensures Valid() && swap.Valid() && error == None
      ensures Here(swap) == old(Faulted(Here(swap), virtualAddress, f))
      ensures panicked <==> old(f in swap.store.pages) && algorithm == SecondChance && clock.maxPages == 0
    {
      ghost var before := Here(swap);
      ghost var after := Faulted(before, virtualAddress, f);
      FaultParts(before, virtualAddress, f, after);
      CountFault();
      error, panicked := None, false;
      if swap.IsOut(f) {
        error, panicked := SwapInAndRefill(virtualAddress, f, swap, Counted(before.pages), after.pages);
      }
    }

    method SwapInAndRefill(virtualAddress: nat, f: Frame, swap: Backing, ghost s: Swapper, ghost t: Swapper)
      returns (error: Option<SwapDevices.Error>, panicked: bool)
      requires Valid() && swap.Valid() && f in swap.store.pages && s == State() && Refills(s, t, virtualAddress, f)
      modifies this`pageInfo, this`timestamp, this`pagesIn, lru, fifo, clock, swap, swap.manager
      ensures Valid() && swap.Valid() && error == None
      ensures State() == t && swap.store == Taken(old(swap.store), f)
      ensures panicked <==> algorithm == SecondChance && clock.maxPages == 0
    {
      error := BringBack(f, swap);
      panicked := Refill(virtualAddress, f, s, t);
    }

    method CountFault()
      requires Valid()
      modifies this`faults
      ensures Valid() && State() == Counted(old(State()))
    {
      CountersKeepInv(State(), Counted(State()));
      faults := faults + 1;
    }

    /** The page leaves the swap space; the swapper itself does not change yet. */
    method BringBack(f: Frame, swap: Backing) returns (error: Option<SwapDevices.Error>)
      requires Valid() && swap.Valid() && f in swap.store.pages
      modifies swap, swap.manager
      ensures Valid() && swap.Valid() && error == None
      ensures State() == old(State()) && swap.store == Taken(old(swap.store), f)
    {
      var page := swap.SwapIn(f);
      error := ErrorOf(page);
    }

    /** The return of the page is counted, and the page is recorded as accessed. */
    method Refill(virtualAddress: nat, f: Frame, ghost s: Swapper, ghost t: Swapper) returns (panicked: bool)
      requires Valid() && s == State() && Refills(s, t, virtualAddress, f)
      modifies this`pageInfo, this`timestamp, this`pagesIn, lru, fifo, clock
      ensures Valid() && State() == t
      ensures panicked <==> algorithm == SecondChance && clock.maxPages == 0
    {
      ghost var counted := s.(back := s.back + 1);
      CountersKeepInv(s, counted);
      pagesIn := pagesIn + 1;
      assert State() == counted;
      panicked := AccessPage(virtualAddress, f, false);
    }
  }
}
