/** The swap manager: pages kept on devices, two maps meant to be inverse, and totals. */
module SwapSpace {
  import opened Collections
  import opened Types
  import opened SwapDevices
  import opened SwapStores

  datatype Entry = Entry(device: nat, slot: nat)

  datatype Stats = Stats(total: int, used: int, free: int)

  datatype Swap = Swap(
    devices: seq<Device>, allocators: seq<Allocator>,
    pageToSwap: map<Frame, Entry>, swapToPage: map<Entry, Frame>, stats: Stats)

  datatype Op =
    | AddDevice(device: Device)
    | RemoveDevice(index: nat)
    | Out(frame: Frame, page: Page)
    | In(frame: Frame)

  // ---------------------------------------------------------------- operations

  const NO_SWAP := Swap([], [], map[], map[], Stats(0, 0, 0))

  function DeviceAdded(s: Swap, d: Device): (Swap, Result<nat, Error>) {
    if !d.available then (s, Err(DeviceUnavailable))
    else
      var n := SlotCount(d);
      (s.(devices := s.devices + [d], allocators := s.allocators + [Fresh(n)],
          stats := Stats(s.stats.total + n, s.stats.used, s.stats.free + n)), Ok(|s.devices|))
  }

  function Down(e: Entry, d: nat): Entry {
    if e.device > d then Entry(e.device - 1, e.slot) else e
  }

  /** Entries of higher devices move down by one; entries of the removed device are dropped. */
  function Renumbered(m: map<Entry, Frame>, d: nat): map<Entry, Frame> {
    map e | e in m && e.device != d :: Down(e, d) := m[e]
  }

  function Retained(m: map<Entry, Frame>, d: nat): map<Entry, Frame> {
    map e | e in m && e.device != d :: m[e]
  }

  /** `page_to_swap` is left as it is. */
  function DeviceRemoved(s: Swap, d: nat): (Swap, Result<(), Error>)
    requires |s.devices| == |s.allocators|
  {
    if d >= |s.devices| then (s, Err(InvalidSlot))
    else
      var a := s.allocators[d];
      if |a.bitmap| > a.free then (s, Err(SlotInUse))
      else
        (s.(devices := RemoveAt(s.devices, d), allocators := RemoveAt(s.allocators, d),
            swapToPage := Renumbered(Retained(s.swapToPage, d), d),
            stats := s.stats.(total := s.stats.total - |a.bitmap|, free := s.stats.free - a.free)), Ok(()))
  }

  /** Try one device: a slot whose write fails is given back. */
  function TryDevice(s: Swap, p: Frame, page: Page, i: nat): (Swap, Option<nat>)
    requires i < |s.devices| == |s.allocators|
  {
    var (a, slot) := Allocated(s.allocators[i]);
    if slot.None? then (s.(allocators := s.allocators[i := a]), None)
    else
      var (d, error) := PageWritten(s.devices[i], slot.value, page);
      if error.Some? then (s.(allocators := s.allocators[i := Deallocated(a, slot.value).0]), None)
      else
        var e := Entry(i, slot.value);
        (s.(allocators := s.allocators[i := a], devices := s.devices[i := d],
            pageToSwap := s.pageToSwap[p := e], swapToPage := s.swapToPage[e := p],
            stats := s.stats.(used := s.stats.used + 1, free := s.stats.free - 1)), slot)
  }

  function TryFrom(s: Swap, p: Frame, page: Page, i: nat): (Swap, Result<nat, Error>)
    requires i <= |s.devices| == |s.allocators|
    decreases |s.devices| - i
  {
    if i == |s.devices| then (s, Err(NoSpace))
    else
      var (s', slot) := TryDevice(s, p, page, i);
      if slot.Some? then (s', Ok(slot.value)) else TryFrom(s', p, page, i + 1)
  }

  function SwappedOut(s: Swap, p: Frame, page: Page): (Swap, Result<nat, Error>)
    requires |s.devices| == |s.allocators|
  {
    if p in s.pageToSwap then (s, Err(SlotInUse)) else TryFrom(s, p, page, 0)
  }

  /** The entry must name an existing device, or the source indexes out of bounds. */
  function SwappedIn(s: Swap, p: Frame): (Swap, Result<Page, Error>)
    requires |s.devices| == |s.allocators|
    requires p in s.pageToSwap ==> s.pageToSwap[p].device < |s.devices|
  {
    if p !in s.pageToSwap then (s, Err(SlotNotInUse))
    else
      var e := s.pageToSwap[p];
      var error := AccessError(s.devices[e.device], e.slot);
      if error.Some? then (s, Err(error.value))
      else
        var (a, e2) := Deallocated(s.allocators[e.device], e.slot);
        if e2.Some? then (s, Err(e2.value))
        else
          (s.(allocators := s.allocators[e.device := a],
              pageToSwap := s.pageToSwap - {p}, swapToPage := s.swapToPage - {e},
              stats := s.stats.(used := s.stats.used - 1, free := s.stats.free + 1)),
           Ok(PageAt(s.devices[e.device].storage, e.slot)))
  }

  // ---------------------------------------------------------------- invariant

  ghost predicate Inverse(pageToSwap: map<Frame, Entry>, swapToPage: map<Entry, Frame>) {
    && (forall p :: p in pageToSwap ==> pageToSwap[p] in swapToPage && swapToPage[pageToSwap[p]] == p)
    && (forall e :: e in swapToPage ==> swapToPage[e] in pageToSwap && pageToSwap[swapToPage[e]] == e)
  }

  /** A slot of device i is taken exactly when a page lives there. */
  ghost predicate DeviceOk(ds: seq<Device>, als: seq<Allocator>, m: map<Entry, Frame>, i: int) {
    0 <= i < |ds| && i < |als| ==>
      && AllocatorOk(als[i]) && |als[i].bitmap| == SlotCount(ds[i])
      && forall slot :: 0 <= slot < |als[i].bitmap| ==> (als[i].bitmap[slot] <==> Entry(i, slot) in m)
  }

  /** Pages live in existing slots of devices that can be read. */
  ghost predicate EntryOk(ds: seq<Device>, als: seq<Allocator>, m: map<Entry, Frame>, e: Entry) {
    e in m ==>
      && e.device < |ds| && e.device < |als| && e.slot < |als[e.device].bitmap|
      && ds[e.device].File? && ds[e.device].available
  }

  ghost predicate SlotsOk(ds: seq<Device>, als: seq<Allocator>, m: map<Entry, Frame>) {
    && |ds| == |als|
    && (forall i {:trigger DeviceOk(ds, als, m, i)} :: DeviceOk(ds, als, m, i))
    && (forall e {:trigger EntryOk(ds, als, m, e)} :: EntryOk(ds, als, m, e))
  }

  function TotalOf(allocators: seq<Allocator>): nat {
    if allocators == [] then 0 else TotalOf(allocators[..|allocators| - 1]) + |allocators[|allocators| - 1].bitmap|
  }

  function FreeOf(allocators: seq<Allocator>): nat {
    if allocators == [] then 0 else FreeOf(allocators[..|allocators| - 1]) + allocators[|allocators| - 1].free
  }

  /** The totals are the sums over the devices, and the used slots are as many as the pages that are out. */
  ghost predicate StatsOk(s: Swap) {
    && s.stats.total == TotalOf(s.allocators)
    && s.stats.free == FreeOf(s.allocators)
    && s.stats.used == |s.pageToSwap|
    && s.stats.used + s.stats.free == s.stats.total
  }

  ghost predicate Inv(s: Swap) {
    Inverse(s.pageToSwap, s.swapToPage) && SlotsOk(s.devices, s.allocators, s.swapToPage) && StatsOk(s)
  }

  /** The bytes kept for a page, if it is swapped out. */
  function Stored(s: Swap, p: Frame): Option<Page> {
    if p !in s.pageToSwap then None
    else
      var e := s.pageToSwap[p];
      if e.device < |s.devices| && s.devices[e.device].File? && InRange(s.devices[e.device].storage, e.slot)
      then Some(PageAt(s.devices[e.device].storage, e.slot)) else None
  }

  /** Two states that keep the same pages with the same bytes. */
  ghost predicate SamePages(s: Swap, s': Swap) {
    forall q: Frame :: Stored(s', q) == Stored(s, q)
  }

  lemma SlotReadable(s: Swap, p: Frame)
    requires Inv(s) && p in s.pageToSwap
    ensures var e := s.pageToSwap[p];
            && e.device < |s.devices| && s.devices[e.device].File?
            && e.slot < |s.allocators[e.device].bitmap| && s.allocators[e.device].bitmap[e.slot]
            && AccessError(s.devices[e.device], e.slot) == None && Stored(s, p).Some?
  {
    var e := s.pageToSwap[p];
    assert EntryOk(s.devices, s.allocators, s.swapToPage, e);
    assert DeviceOk(s.devices, s.allocators, s.swapToPage, e.device);
    SlotInRange(s.devices[e.device], e.slot);
  }

  lemma SlotInRange(d: Device, slot: nat)
    requires d.File? && slot < SlotCount(d)
    ensures InRange(d.storage, slot)
  {}

  // ---------------------------------------------------------------- sums

  lemma {:induction false} SumsUpdate(allocators: seq<Allocator>, i: nat, a: Allocator)
    requires i < |allocators|
    ensures TotalOf(allocators[i := a]) == TotalOf(allocators) + |a.bitmap| - |allocators[i].bitmap|
    ensures FreeOf(allocators[i := a]) == FreeOf(allocators) + a.free - allocators[i].free
  {
    var n := |allocators| - 1;
    if i == n {
      assert allocators[i := a][..n] == allocators[..n];
    } else {
      SumsUpdate(allocators[..n], i, a);
      assert allocators[i := a][..n] == allocators[..n][i := a];
    }
  }

  lemma {:induction false} SumsRemove(allocators: seq<Allocator>, i: nat)
    requires i < |allocators|
    ensures TotalOf(RemoveAt(allocators, i)) == TotalOf(allocators) - |allocators[i].bitmap|
    ensures FreeOf(RemoveAt(allocators, i)) == FreeOf(allocators) - allocators[i].free
  {
    var n := |allocators| - 1;
    var r := RemoveAt(allocators, i);
    if i == n {
      assert r == allocators[..n];
    } else {
      SumsRemove(allocators[..n], i);
      assert r[..|r| - 1] == RemoveAt(allocators[..n], i) && r[|r| - 1] == allocators[n];
    }
  }

  lemma {:induction false} SumsBound(allocators: seq<Allocator>, i: nat)
    requires i < |allocators|
    ensures |allocators[i].bitmap| <= TotalOf(allocators) && allocators[i].free <= FreeOf(allocators)
  {
    var n := |allocators| - 1;
    if i < n { SumsBound(allocators[..n], i); }
  }

  // ---------------------------------------------------------------- swapping out

  lemma HintOnly(s: Swap, i: nat, a: Allocator)
    requires Inv(s) && i < |s.devices| && AllocatorOk(a)
    requires a.bitmap == s.allocators[i].bitmap && a.free == s.allocators[i].free
    ensures Inv(s.(allocators := s.allocators[i := a]))
  {
    SumsUpdate(s.allocators, i, a);
    var s' := s.(allocators := s.allocators[i := a]);
    forall j
      ensures DeviceOk(s'.devices, s'.allocators, s'.swapToPage, j)
    {
      assert DeviceOk(s.devices, s.allocators, s.swapToPage, j);
    }
    forall e
      ensures EntryOk(s'.devices, s'.allocators, s'.swapToPage, e)
    {
      assert EntryOk(s.devices, s.allocators, s.swapToPage, e);
    }
  }

  /** A device that yields no slot, or whose write fails, leaves no trace but its hint. */
  lemma TryDeviceFails(s: Swap, p: Frame, page: Page, i: nat)
    requires Inv(s) && i < |s.devices| && TryDevice(s, p, page, i).1.None?
    ensures var s' := TryDevice(s, p, page, i).0;
            && Inv(s') && SamePages(s, s')
            && s'.devices == s.devices && s'.pageToSwap == s.pageToSwap
            && |s'.allocators| == |s.allocators|
            && forall j :: 0 <= j < |s.allocators| ==> s'.allocators[j].free == s.allocators[j].free
  {
    var a0 := s.allocators[i];
    var (a, slot) := Allocated(a0);
    assert DeviceOk(s.devices, s.allocators, s.swapToPage, i);
    AllocatedMeaning(a0);
    if slot.Some? {
      DeallocatedMeaning(a, slot.value);
      HintOnly(s, i, Deallocated(a, slot.value).0);
    } else {
      HintOnly(s, i, a);
    }
  }

  lemma TakeSlotOk(s: Swap, i: nat, slot: nat, p: Frame, a: Allocator, d: Device)
    requires SlotsOk(s.devices, s.allocators, s.swapToPage) && i < |s.devices| && slot < |s.allocators[i].bitmap|
    requires AllocatorOk(a) && a.bitmap == s.allocators[i].bitmap[slot := true]
    requires d.File? && d.available && SlotCount(d) == SlotCount(s.devices[i])
    ensures SlotsOk(s.devices[i := d], s.allocators[i := a], s.swapToPage[Entry(i, slot) := p])
  {
    var s' := s.(allocators := s.allocators[i := a], devices := s.devices[i := d],
                 swapToPage := s.swapToPage[Entry(i, slot) := p]);
    forall j
      ensures DeviceOk(s'.devices, s'.allocators, s'.swapToPage, j)
    {
      assert DeviceOk(s.devices, s.allocators, s.swapToPage, j);
    }
    forall e
      ensures EntryOk(s'.devices, s'.allocators, s'.swapToPage, e)
    {
      assert EntryOk(s.devices, s.allocators, s.swapToPage, e);
    }
  }

  lemma InverseAdd(pageToSwap: map<Frame, Entry>, swapToPage: map<Entry, Frame>, p: Frame, e: Entry)
    requires Inverse(pageToSwap, swapToPage) && p !in pageToSwap && e !in swapToPage
    ensures Inverse(pageToSwap[p := e], swapToPage[e := p])
  {}

  lemma TryDeviceKeepsInv(s: Swap, p: Frame, page: Page, i: nat)
    requires Inv(s) && i < |s.devices| && p !in s.pageToSwap && TryDevice(s, p, page, i).1.Some?
    ensures Inv(TryDevice(s, p, page, i).0)
  {
    var (a, slot) := Allocated(s.allocators[i]);
    var d := PageWritten(s.devices[i], slot.value, page).0;
    assert DeviceOk(s.devices, s.allocators, s.swapToPage, i);
    AllocatedMeaning(s.allocators[i]);
    SumsUpdate(s.allocators, i, a);
    SumsBound(s.allocators, i);
    WrittenPage(s.devices[i].storage, slot.value, page, slot.value);
    TakeSlotOk(s, i, slot.value, p, a, d);
    InverseAdd(s.pageToSwap, s.swapToPage, p, Entry(i, slot.value));
    assert s.pageToSwap[p := Entry(i, slot.value)].Keys == s.pageToSwap.Keys + {p};
  }

  /** A successful try adds the page and its bytes and disturbs no other page. */
  lemma TryDeviceSucceeds(s: Swap, p: Frame, page: Page, i: nat, q: Frame)
    requires Inv(s) && i < |s.devices| && p !in s.pageToSwap && TryDevice(s, p, page, i).1.Some?
    ensures Stored(TryDevice(s, p, page, i).0, q) == if q == p then Some(page) else Stored(s, q)
  {
    var slot := Allocated(s.allocators[i]).1.value;
    assert DeviceOk(s.devices, s.allocators, s.swapToPage, i);
    AllocatedMeaning(s.allocators[i]);
    WrittenPage(s.devices[i].storage, slot, page, slot);
    if q in s.pageToSwap {
      SlotReadable(s, q);
      var f := s.pageToSwap[q];
      if f.device == i { WrittenPage(s.devices[i].storage, slot, page, f.slot); }
    }
  }

  ghost predicate CanHold(s: Swap, i: nat)
    requires i < |s.devices| == |s.allocators|
  {
    s.devices[i].File? && s.devices[i].available && s.allocators[i].free > 0
  }

  /** Some readable device has a free slot. */
  ghost predicate HasRoom(s: Swap)
    requires |s.devices| == |s.allocators|
  {
    exists i :: 0 <= i < |s.devices| && CanHold(s, i)
  }

  ghost predicate SameRoom(s: Swap, s': Swap)
    requires |s.devices| == |s.allocators|
  {
    && s'.devices == s.devices && |s'.allocators| == |s.allocators|
    && forall i :: 0 <= i < |s.allocators| ==> s'.allocators[i].free == s.allocators[i].free
  }

  lemma TryDeviceIff(s: Swap, p: Frame, page: Page, i: nat)
    requires Inv(s) && i < |s.devices|
    ensures TryDevice(s, p, page, i).1.Some? <==> CanHold(s, i)
  {
    assert DeviceOk(s.devices, s.allocators, s.swapToPage, i);
    AllocatedMeaning(s.allocators[i]);
    var slot := Allocated(s.allocators[i]).1;
    if slot.Some? && s.devices[i].File? { SlotInRange(s.devices[i], slot.value); }
  }

  lemma {:induction false} TryFromMeaning(s: Swap, p: Frame, page: Page, i: nat)
    requires Inv(s) && i <= |s.devices| && p !in s.pageToSwap
    ensures var (s', r) := TryFrom(s, p, page, i);
            && Inv(s') && (r.Ok? || r == Err(NoSpace))
            && (r.Ok? <==> exists j :: i <= j < |s.devices| && CanHold(s, j))
            && (r.Err? ==> SameRoom(s, s'))
            && forall q: Frame :: Stored(s', q) == if r.Ok? && q == p then Some(page) else Stored(s, q)
    decreases |s.devices| - i
  {
    if i < |s.devices| {
      TryDeviceIff(s, p, page, i);
      var (s1, slot) := TryDevice(s, p, page, i);
      if slot.Some? {
        TryDeviceKeepsInv(s, p, page, i);
        forall q: Frame
          ensures Stored(s1, q) == if q == p then Some(page) else Stored(s, q)
        {
          TryDeviceSucceeds(s, p, page, i, q);
        }
      } else {
        TryDeviceFails(s, p, page, i);
        TryFromMeaning(s1, p, page, i + 1);
        assert forall j :: i < j < |s.devices| ==> (CanHold(s1, j) <==> CanHold(s, j));
      }
    }
  }

  /**
   The page is at this slot of the first device from i on that can hold it, and the slot is the first free
   one there, going round from where the last search ended.
   */
  ghost predicate Placed(s: Swap, s': Swap, p: Frame, i: nat, slot: nat)
    requires |s.devices| == |s.allocators|
  {
    && p in s'.pageToSwap
    && var e := s'.pageToSwap[p];
       && e.slot == slot && i <= e.device < |s.devices| && CanHold(s, e.device)
       && (forall j :: i <= j < e.device ==> !CanHold(s, j))
       && FirstFrom(s.allocators[e.device].bitmap, s.allocators[e.device].hint, slot)
       && slot < |s.allocators[e.device].bitmap| && !s.allocators[e.device].bitmap[slot]
  }

  lemma TryDevicePlaces(s: Swap, p: Frame, page: Page, i: nat)
    requires Inv(s) && i < |s.devices| && p !in s.pageToSwap && TryDevice(s, p, page, i).1.Some?
    ensures Placed(s, TryDevice(s, p, page, i).0, p, i, TryDevice(s, p, page, i).1.value)
  {
    TryDeviceIff(s, p, page, i);
    assert DeviceOk(s.devices, s.allocators, s.swapToPage, i);
    AllocatedMeaning(s.allocators[i]);
    AllocatedFirst(s.allocators[i]);
  }

  lemma {:induction false} TryFromPlaces(s: Swap, p: Frame, page: Page, i: nat)
    requires Inv(s) && i <= |s.devices| && p !in s.pageToSwap && TryFrom(s, p, page, i).1.Ok?
    ensures Placed(s, TryFrom(s, p, page, i).0, p, i, TryFrom(s, p, page, i).1.value)
    decreases |s.devices| - i
  {
    TryDeviceIff(s, p, page, i);
    var (s1, slot) := TryDevice(s, p, page, i);
    if slot.Some? {
      TryDevicePlaces(s, p, page, i);
    } else {
      TryDeviceFails(s, p, page, i);
      TryFromPlaces(s1, p, page, i + 1);
      PlacedLater(s, s1, TryFrom(s1, p, page, i + 1).0, p, i, TryFrom(s1, p, page, i + 1).1.value);
    }
  }

  lemma PlacedLater(s: Swap, s1: Swap, s': Swap, p: Frame, i: nat, slot: nat)
    requires |s.devices| == |s.allocators| == |s1.devices| == |s1.allocators| && i < |s.devices|
    requires !CanHold(s, i) && s1.devices == s.devices && Placed(s1, s', p, i + 1, slot)
    requires forall j :: 0 <= j < |s.allocators| ==> s1.allocators[j].free == s.allocators[j].free
    requires forall j :: i < j < |s.allocators| ==> s1.allocators[j] == s.allocators[j]
    ensures Placed(s, s', p, i, slot)
  {
    assert forall j :: 0 <= j < |s.devices| ==> (CanHold(s1, j) <==> CanHold(s, j));
  }

  /**
   Swapping out stores the page's bytes and changes no other page; it fails exactly when the page is
   out already or no readable device has a free slot, and then nothing is stored.  The slot returned is
   where the page is.
   */
  lemma SwapOutMeaning(s: Swap, p: Frame, page: Page)
    requires Inv(s)
    ensures var (s', r) := SwappedOut(s, p, page);
            && Inv(s')
            && (r == Err(SlotInUse) <==> Stored(s, p).Some?)
            && (r.Ok? <==> Stored(s, p).None? && HasRoom(s))
            && (r == Err(NoSpace) <==> Stored(s, p).None? && !HasRoom(s))
            && (r.Err? ==> SameRoom(s, s'))
            && (r.Ok? ==> Placed(s, s', p, 0, r.value))
            && forall q: Frame :: Stored(s', q) == if r.Ok? && q == p then Some(page) else Stored(s, q)
  {
    if p in s.pageToSwap {
      SlotReadable(s, p);
    } else {
      TryFromMeaning(s, p, page, 0);
      if TryFrom(s, p, page, 0).1.Ok? { TryFromPlaces(s, p, page, 0); }
    }
  }

  // ---------------------------------------------------------------- swapping in

  lemma FreeSlotOk(s: Swap, e: Entry, a: Allocator)
    requires SlotsOk(s.devices, s.allocators, s.swapToPage) && e in s.swapToPage && AllocatorOk(a)
    requires e.device < |s.allocators| && e.slot < |s.allocators[e.device].bitmap|
    requires a.bitmap == s.allocators[e.device].bitmap[e.slot := false]
    ensures SlotsOk(s.devices, s.allocators[e.device := a], s.swapToPage - {e})
  {
    var s' := s.(allocators := s.allocators[e.device := a], swapToPage := s.swapToPage - {e});
    forall j
      ensures DeviceOk(s'.devices, s'.allocators, s'.swapToPage, j)
    {
      assert DeviceOk(s.devices, s.allocators, s.swapToPage, j);
    }
    forall f
      ensures EntryOk(s'.devices, s'.allocators, s'.swapToPage, f)
    {
      assert EntryOk(s.devices, s.allocators, s.swapToPage, f);
    }
  }

  lemma InverseRemove(pageToSwap: map<Frame, Entry>, swapToPage: map<Entry, Frame>, p: Frame)
    requires Inverse(pageToSwap, swapToPage) && p in pageToSwap
    ensures Inverse(pageToSwap - {p}, swapToPage - {pageToSwap[p]})
  {}

  lemma SwapInKeepsInv(s: Swap, p: Frame)
    requires Inv(s) && p in s.pageToSwap
    ensures s.pageToSwap[p].device < |s.devices|
    ensures Inv(SwappedIn(s, p).0) && SwappedIn(s, p).1.Ok?
    ensures SwappedIn(s, p).0.devices == s.devices && SwappedIn(s, p).0.pageToSwap == s.pageToSwap - {p}
  {
    SlotReadable(s, p);
    var e := s.pageToSwap[p];
    assert DeviceOk(s.devices, s.allocators, s.swapToPage, e.device);
    var a := Deallocated(s.allocators[e.device], e.slot).0;
    DeallocatedMeaning(s.allocators[e.device], e.slot);
    SumsUpdate(s.allocators, e.device, a);
    assert (s.pageToSwap - {p}).Keys == s.pageToSwap.Keys - {p};
    FreeSlotOk(s, e, a);
    InverseRemove(s.pageToSwap, s.swapToPage, p);
  }

  /**
   Swapping in returns the stored bytes, frees the slot and changes no other page; it fails only for a
   page that is not out.
   */
  lemma SwapInMeaning(s: Swap, p: Frame)
    requires Inv(s)
    ensures p in s.pageToSwap ==> s.pageToSwap[p].device < |s.devices|
    ensures var (s', r) := SwappedIn(s, p);
            && Inv(s')
            && r == (if Stored(s, p).Some? then Ok(Stored(s, p).value) else Err(SlotNotInUse))
            && forall q: Frame :: Stored(s', q) == if q == p then None else Stored(s, q)
  {
    if p in s.pageToSwap {
      SlotReadable(s, p);
      SwapInKeepsInv(s, p);
    }
  }

  /** No subtraction of the totals goes below zero: a page that is out, or a slot about to be taken, is counted. */
  lemma TotalsCover(s: Swap, i: nat)
    requires Inv(s) && i < |s.allocators|
    ensures s.stats.used > 0 || s.pageToSwap == map[]
    ensures s.stats.free >= s.allocators[i].free && s.stats.total >= |s.allocators[i].bitmap|
  {
    SumsBound(s.allocators, i);
    if s.pageToSwap != map[] {
      var p :| p in s.pageToSwap;
      SmallerSet({}, s.pageToSwap.Keys, p);
    }
  }

  // ---------------------------------------------------------------- adding and removing devices

  lemma AddKeepsInv(s: Swap, d: Device)
    requires Inv(s)
    ensures Inv(DeviceAdded(s, d).0) && SamePages(s, DeviceAdded(s, d).0)
  {
    if d.available {
      var s' := DeviceAdded(s, d).0;
      var n := |s.devices|;
      FreshOk(SlotCount(d));
      forall j
        ensures DeviceOk(s'.devices, s'.allocators, s'.swapToPage, j)
      {
        assert DeviceOk(s.devices, s.allocators, s.swapToPage, j);
        assert forall slot :: EntryOk(s.devices, s.allocators, s.swapToPage, Entry(n, slot));
      }
      forall e
        ensures EntryOk(s'.devices, s'.allocators, s'.swapToPage, e)
      {
        assert EntryOk(s.devices, s.allocators, s.swapToPage, e);
      }
      assert s'.allocators[..n] == s.allocators;
      forall q: Frame
        ensures Stored(s', q) == Stored(s, q)
      {
        if q in s.pageToSwap { SlotReadable(s, q); }
      }
    }
  }

  /** No page lives on device d or above it. */
  ghost predicate Below(s: Swap, d: nat) {
    forall p :: p in s.pageToSwap ==> s.pageToSwap[p].device < d
  }

  /** An available file device with a slot makes room: the next page not yet out can be stored. */
  lemma AddedDeviceHolds(s: Swap, d: Device, p: Frame, page: Page)
    requires Inv(s)
    ensures DeviceAdded(s, d).1 == if d.available then Ok(|s.devices|) else Err(DeviceUnavailable)
    ensures Inv(DeviceAdded(s, d).0)
    ensures d.File? && d.available && SlotCount(d) > 0 && Stored(s, p).None? ==>
            SwappedOut(DeviceAdded(s, d).0, p, page).1.Ok?
  {
    AddKeepsInv(s, d);
    var s' := DeviceAdded(s, d).0;
    SwapOutMeaning(s', p, page);
    if d.File? && d.available && SlotCount(d) > 0 {
      assert CanHold(s', |s.devices|);
    }
  }

  /** A device that can be removed holds no page. */
  lemma RemovableIsEmpty(s: Swap, d: nat, e: Entry)
    requires Inv(s) && DeviceRemoved(s, d).1.Ok? && e in s.swapToPage
    ensures e.device != d
  {
    assert EntryOk(s.devices, s.allocators, s.swapToPage, e);
    assert DeviceOk(s.devices, s.allocators, s.swapToPage, e.device);
    var a := s.allocators[e.device];
    assert a.bitmap[e.slot];
    CountFreeUpdate(a.bitmap, e.slot, false);
    CountFreeZero(a.bitmap[e.slot := false]);
  }

  lemma RenumberedNothing(s: Swap, d: nat)
    requires Inv(s) && Below(s, d)
    ensures Renumbered(Retained(s.swapToPage, d), d) == s.swapToPage
  {
    var m := s.swapToPage;
    assert Retained(m, d) == m;
    assert forall e :: e in m ==> e.device < d && Down(e, d) == e;
    assert forall e :: e in Renumbered(m, d) <==> e in m;
  }

  lemma RemovalKeepsSlots(ds: seq<Device>, als: seq<Allocator>, m: map<Entry, Frame>, d: nat)
    requires SlotsOk(ds, als, m) && d < |ds| && forall e :: e in m ==> e.device < d
    ensures SlotsOk(RemoveAt(ds, d), RemoveAt(als, d), m)
  {
    var ds', als' := RemoveAt(ds, d), RemoveAt(als, d);
    forall j
      ensures DeviceOk(ds', als', m, j)
    {
      assert DeviceOk(ds, als, m, if j < d then j else j + 1);
    }
    forall e
      ensures EntryOk(ds', als', m, e)
    {
      assert EntryOk(ds, als, m, e);
    }
  }

  lemma RemovalKeepsInv(s: Swap, d: nat)
    requires Inv(s) && DeviceRemoved(s, d).1.Ok? && Below(s, d)
    ensures Inv(DeviceRemoved(s, d).0) && SamePages(s, DeviceRemoved(s, d).0)
  {
    RenumberedNothing(s, d);
    SumsRemove(s.allocators, d);
    SumsBound(s.allocators, d);
    assert DeviceOk(s.devices, s.allocators, s.swapToPage, d);
    CountFreeZero(s.allocators[d].bitmap);
    RemovalKeepsSlots(s.devices, s.allocators, s.swapToPage, d);
    forall q: Frame
      ensures Stored(DeviceRemoved(s, d).0, q) == Stored(s, q)
    {
      RemovalKeepsStored(s, d, q);
    }
  }

  lemma RemovalKeepsStored(s: Swap, d: nat, q: Frame)
    requires Inv(s) && DeviceRemoved(s, d).1.Ok? && Below(s, d)
    ensures Stored(DeviceRemoved(s, d).0, q) == Stored(s, q)
  {
    if q in s.pageToSwap { SlotReadable(s, q); }
  }

  lemma RemovalMade(s: Swap, d: nat, s': Swap)
    requires d < |s.devices| == |s.allocators| && |s.allocators[d].bitmap| <= s.allocators[d].free
    requires s' == Swap(RemoveAt(s.devices, d), RemoveAt(s.allocators, d),
                        s.pageToSwap, Renumbered(Retained(s.swapToPage, d), d),
                        s.stats.(total := s.stats.total - |s.allocators[d].bitmap|,
                                 free := s.stats.free - s.allocators[d].free))
    ensures DeviceRemoved(s, d) == (s', Ok(()))
  {}

  /** The stale index of a page on a higher device: past the end, or on the device after its own. */
  lemma StrandedPage(s: Swap, d: nat, p: Frame)
    requires Inv(s) && DeviceRemoved(s, d).1.Ok? && p in s.pageToSwap && s.pageToSwap[p].device >= d
    ensures var s' := DeviceRemoved(s, d).0; var e := s.pageToSwap[p];
            && s'.pageToSwap[p] == e && d < e.device <= |s'.devices|
            && (e !in s'.swapToPage || s'.swapToPage[e] != p)
            && (e.device == |s'.devices| || s'.devices[e.device] == s.devices[e.device + 1])
  {
    var s', e := DeviceRemoved(s, d).0, s.pageToSwap[p];
    assert e in s.swapToPage;
    RemovableIsEmpty(s, d, e);
    assert EntryOk(s.devices, s.allocators, s.swapToPage, e);
    if e in s'.swapToPage {
      var f :| f in s.swapToPage && f.device != d && Down(f, d) == e && s'.swapToPage[e] == s.swapToPage[f];
      assert f != e;
    }
  }

  /** The index device i has after device d is gone, and the one it had before. */
  function IndexBefore(i: nat, d: nat): nat {
    if i >= d then i + 1 else i
  }

  lemma RenumberedMeaning(m: map<Entry, Frame>, d: nat, e: Entry, before: Entry)
    requires before == Entry(IndexBefore(e.device, d), e.slot)
    ensures e in Renumbered(Retained(m, d), d) <==> before in m
    ensures e in Renumbered(Retained(m, d), d) ==> Renumbered(Retained(m, d), d)[e] == m[before]
  {
    var kept := Retained(m, d);
    assert before in m <==> before in kept;
    assert forall f: Entry :: f in kept && Down(f, d) == e ==> f == before;
    if before in kept { assert Down(before, d) == e; }
  }

  /**
   After a removal the slot map follows the data: it has an entry exactly where the entry's device had one
   under its old index, for the same page, on the same device with the same bytes.
   */
  lemma RemovalMovesEntries(s: Swap, d: nat, e: Entry, before: Entry)
    requires Inv(s) && DeviceRemoved(s, d).1.Ok? && before == Entry(IndexBefore(e.device, d), e.slot)
    ensures var s' := DeviceRemoved(s, d).0;
            && (e in s'.swapToPage <==> before in s.swapToPage)
            && (e in s'.swapToPage ==>
                  && s'.swapToPage[e] == s.swapToPage[before] && e.device < |s'.devices| && before.device < |s.devices|
                  && s'.devices[e.device] == s.devices[before.device])
  {
    RenumberedMeaning(s.swapToPage, d, e, before);
    if before in s.swapToPage {
      assert EntryOk(s.devices, s.allocators, s.swapToPage, before);
    }
  }

  /** A removal is refused exactly for an index that does not exist, or while a page lives on the device. */
  lemma RemovalRefused(s: Swap, d: nat)
    requires Inv(s)
    ensures var (s', r) := DeviceRemoved(s, d);
            && (r == Err(InvalidSlot) <==> d >= |s.devices|)
            && (r == Err(SlotInUse) <==>
                  d < |s.devices| && exists p :: p in s.pageToSwap && s.pageToSwap[p].device == d)
            && (r.Err? ==> s' == s)
  {
    if d < |s.devices| {
      var a := s.allocators[d];
      assert DeviceOk(s.devices, s.allocators, s.swapToPage, d);
      if |a.bitmap| > a.free {
        if forall i :: 0 <= i < |a.bitmap| ==> !a.bitmap[i] { CountFreeAll(a.bitmap); }
        var slot :| 0 <= slot < |a.bitmap| && a.bitmap[slot];
        assert Entry(d, slot) in s.swapToPage;
      } else if p: Frame :| p in s.pageToSwap && s.pageToSwap[p].device == d {
        RemovableIsEmpty(s, d, s.pageToSwap[p]);
        assert false;
      }
    }
  }

  /**
   Removing a device renumbers one map only: the invariant survives exactly when
   no page lives on a higher-numbered device.
   */
  lemma RemoveDeviceIff(s: Swap, d: nat)
    requires Inv(s) && DeviceRemoved(s, d).1.Ok?
    ensures Inv(DeviceRemoved(s, d).0) <==> Below(s, d)
  {
    if Below(s, d) {
      RemovalKeepsInv(s, d);
    } else {
      var p :| p in s.pageToSwap && s.pageToSwap[p].device >= d;
      StrandedPage(s, d, p);
    }
  }

  // ---------------------------------------------------------------- runs

  /** A removal that succeeds takes away a device above which no page lives: the condition of `RemoveDeviceIff`. */
  ghost predicate Legal(s: Swap, op: Op)
    requires |s.devices| == |s.allocators|
  {
    op.RemoveDevice? && DeviceRemoved(s, op.index).1.Ok? ==> Below(s, op.index)
  }

  ghost function Step(s: Swap, op: Op): Swap
    requires Inv(s) && Legal(s, op)
  {
    match op
    case AddDevice(d) => DeviceAdded(s, d).0
    case RemoveDevice(i) => DeviceRemoved(s, i).0
    case Out(p, page) => SwappedOut(s, p, page).0
    case In(p) => SwapInMeaning(s, p); SwappedIn(s, p).0
  }

  lemma StepMeaning(s: Swap, op: Op)
    requires Inv(s) && Legal(s, op)
    ensures Inv(Step(s, op))
    ensures forall q: Frame :: Stored(s, q).Some? && op != In(q) ==> Stored(Step(s, op), q) == Stored(s, q)
  {
    match op
    case AddDevice(d) => AddKeepsInv(s, d);
    case RemoveDevice(i) => if DeviceRemoved(s, i).1.Ok? { RemovalKeepsInv(s, i); }
    case Out(p, page) => SwapOutMeaning(s, p, page);
    case In(p) => SwapInMeaning(s, p);
  }

  ghost predicate LegalRun(s: Swap, ops: seq<Op>)
    requires Inv(s)
    decreases |ops|
  {
    ops == [] || (Legal(s, ops[0]) && (StepMeaning(s, ops[0]); LegalRun(Step(s, ops[0]), ops[1..])))
  }

  ghost function Run(s: Swap, ops: seq<Op>): Swap
    requires Inv(s) && LegalRun(s, ops)
    decreases |ops|
  {
    if ops == [] then s else StepMeaning(s, ops[0]); Run(Step(s, ops[0]), ops[1..])
  }

  /** Maps, bits and totals agree after every run, and a page that is out keeps its bytes until it is swapped in. */
  lemma {:induction false} RunKeepsPages(s: Swap, ops: seq<Op>)
    requires Inv(s) && LegalRun(s, ops)
    ensures Inv(Run(s, ops))
    ensures forall q: Frame :: Stored(s, q).Some? && In(q) !in ops ==> Stored(Run(s, ops), q) == Stored(s, q)
    decreases |ops|
  {
    if ops == [] {
    } else {
      StepMeaning(s, ops[0]);
      RunKeepsPages(Step(s, ops[0]), ops[1..]);
    }
  }

  lemma NoSwapInv()
    ensures Inv(NO_SWAP)
  {}

  /** After every legal run from boot the maps, bits and totals agree and every page that is out can be read back. */
  lemma RunFromBoot(ops: seq<Op>, p: Frame)
    requires Inv(NO_SWAP) && LegalRun(NO_SWAP, ops)
    ensures Inv(Run(NO_SWAP, ops))
    ensures p in Run(NO_SWAP, ops).pageToSwap <==> Stored(Run(NO_SWAP, ops), p).Some?
  {
    RunKeepsPages(NO_SWAP, ops);
    if p in Run(NO_SWAP, ops).pageToSwap { SlotReadable(Run(NO_SWAP, ops), p); }
  }

  lemma RunOne(s: Swap, ops: seq<Op>)
    requires Inv(s) && ops != [] && Legal(s, ops[0])
    ensures Inv(Step(s, ops[0]))
    ensures LegalRun(s, ops) <==> LegalRun(Step(s, ops[0]), ops[1..])
    ensures LegalRun(s, ops) ==> Run(s, ops) == Run(Step(s, ops[0]), ops[1..])
  {
    StepMeaning(s, ops[0]);
  }

  lemma RunFive(s0: Swap, s1: Swap, s2: Swap, s3: Swap, s4: Swap, ops: seq<Op>)
    requires |ops| == 5 && forall i :: 0 <= i < 5 ==> !ops[i].RemoveDevice?
    requires Inv(s0) && s1 == Step(s0, ops[0]) && Inv(s1) && s2 == Step(s1, ops[1])
    requires Inv(s2) && s3 == Step(s2, ops[2]) && Inv(s3) && s4 == Step(s3, ops[3]) && Inv(s4)
    ensures LegalRun(s0, ops) && Run(s0, ops) == Step(s4, ops[4])
  {
    RunOne(s4, ops[4..]);
    RunOne(s3, ops[3..]);
    RunOne(s2, ops[2..]);
    RunOne(s1, ops[1..]);
    RunOne(s0, ops);
    assert ops[4..][1..] == [] && ops[3..][1..] == ops[4..] && ops[2..][1..] == ops[3..] && ops[1..][1..] == ops[2..];
  }

  /** Two one-slot devices, the given slots taken, holding these pages. */
  function Pair(first: Page, second: Page, used0: bool, used1: bool,
                pages: map<Frame, Entry>, entries: map<Entry, Frame>): Swap
  {
    var free := (if used0 then 0 else 1) + (if used1 then 0 else 1);
    Swap([File(first, true), File(second, true)],
         [Allocator([used0], if used0 then 0 else 1, 0), Allocator([used1], if used1 then 0 else 1, 0)],
         pages, entries, Stats(2, 2 - free, free))
  }

  lemma TwoDevices(page: Page)
    ensures var d := File(page, true);
            DeviceAdded(DeviceAdded(NO_SWAP, d).0, d).0 == Pair(page, page, false, false, map[], map[])
  {
    var d := File(page, true);
    assert SlotCount(d) == 1 && Fresh(1).bitmap == [false];
    var s1 := DeviceAdded(NO_SWAP, d).0;
    assert s1.devices == [d] && s1.allocators == [Fresh(1)];
  }

  lemma OneSlot(used: bool, page: Page, bytes: Page)
    ensures Allocated(Allocator([used], if used then 0 else 1, 0)) ==
            if used then (Allocator([true], 0, 0), None) else (Allocator([true], 0, 0), Some(0))
    ensures PageWritten(File(page, true), 0, bytes) == (File(bytes, true), None)
    ensures Deallocated(Allocator([true], 0, 0), 0) == (Allocator([false], 1, 0), None)
  {
    assert Written(page, 0, bytes) == bytes;
    assert [true][0 := false] == [false] && [false][0 := true] == [true];
    if !used { assert Probe([false], 0, 0) == 0; }
  }

  /** The first page goes to the first device. */
  lemma FillFirst(page: Page, p: Frame)
    ensures SwappedOut(Pair(page, page, false, false, map[], map[]), p, page).0 ==
            Pair(page, page, true, false, map[p := Entry(0, 0)], map[Entry(0, 0) := p])
  {
    OneSlot(false, page, page);
    var s := Pair(page, page, false, false, map[], map[]);
    assert s.devices[0 := File(page, true)] == s.devices;
    assert s.allocators[0 := Allocator([true], 0, 0)] == [Allocator([true], 0, 0), Allocator([false], 1, 0)];
    assert TryDevice(s, p, page, 0).1 == Some(0);
  }

  /** The second page goes to the second device. */
  lemma FillSecond(page: Page, p: Frame, q: Frame)
    requires p != q
    ensures SwappedOut(Pair(page, page, true, false, map[p := Entry(0, 0)], map[Entry(0, 0) := p]), q, page).0 ==
            Pair(page, page, true, true, map[p := Entry(0, 0), q := Entry(1, 0)],
                 map[Entry(0, 0) := p, Entry(1, 0) := q])
  {
    OneSlot(false, page, page);
    OneSlot(true, page, page);
    var s := Pair(page, page, true, false, map[p := Entry(0, 0)], map[Entry(0, 0) := p]);
    var full := Allocator([true], 0, 0);
    assert s.allocators[0 := full] == s.allocators && s.allocators[1 := full] == [full, full];
    assert s.devices[1 := File(page, true)] == s.devices;
    assert TryDevice(s, q, page, 0) == (s, None) && TryDevice(s, q, page, 1).1 == Some(0);
    assert TryFrom(s, q, page, 0) == TryFrom(s, q, page, 1);
  }

  /** Swapping the first page in empties the first device. */
  lemma EmptyFirst(page: Page, p: Frame, q: Frame)
    requires p != q
    ensures var s := Pair(page, page, true, true, map[p := Entry(0, 0), q := Entry(1, 0)],
                          map[Entry(0, 0) := p, Entry(1, 0) := q]);
            SwappedIn(s, p).0 == Pair(page, page, false, true, map[q := Entry(1, 0)], map[Entry(1, 0) := q])
  {
    OneSlot(true, page, page);
    var pages, entries := map[p := Entry(0, 0), q := Entry(1, 0)], map[Entry(0, 0) := p, Entry(1, 0) := q];
    var s := Pair(page, page, true, true, pages, entries);
    assert pages - {p} == map[q := Entry(1, 0)] && entries - {Entry(0, 0)} == map[Entry(1, 0) := q];
    assert s.allocators[0 := Allocator([false], 1, 0)] == [Allocator([false], 1, 0), Allocator([true], 0, 0)];
  }

  lemma StrandDevices(page: Page, op: Op) returns (s1: Swap, s2: Swap)
    requires op == AddDevice(File(page, true))
    ensures Inv(NO_SWAP) && s1 == Step(NO_SWAP, op) && Inv(s1) && s2 == Step(s1, op) && Inv(s2)
    ensures s2 == Pair(page, page, false, false, map[], map[])
  {
    NoSwapInv();
    AddKeepsInv(NO_SWAP, op.device);
    s1 := DeviceAdded(NO_SWAP, op.device).0;
    AddKeepsInv(s1, op.device);
    TwoDevices(page);
    s2 := DeviceAdded(s1, op.device).0;
  }

  lemma StrandPages(page: Page, s2: Swap, a: Op, b: Op) returns (s3: Swap, s4: Swap)
    requires a.Out? && b.Out? && a.page == b.page == page && a.frame != b.frame
    requires Inv(s2) && s2 == Pair(page, page, false, false, map[], map[])
    ensures s3 == Step(s2, a) && Inv(s3) && s4 == Step(s3, b) && Inv(s4)
    ensures s4 == Pair(page, page, true, true, map[a.frame := Entry(0, 0), b.frame := Entry(1, 0)],
                       map[Entry(0, 0) := a.frame, Entry(1, 0) := b.frame])
  {
    SwapOutMeaning(s2, a.frame, page);
    FillFirst(page, a.frame);
    s3 := SwappedOut(s2, a.frame, page).0;
    SwapOutMeaning(s3, b.frame, page);
    FillSecond(page, a.frame, b.frame);
    s4 := SwappedOut(s3, b.frame, page).0;
  }

  lemma StrandLast(page: Page, s4: Swap, q: Frame, op: Op) returns (s5: Swap)
    requires op.In? && op.frame != q
    requires s4 == Pair(page, page, true, true, map[op.frame := Entry(0, 0), q := Entry(1, 0)],
                        map[Entry(0, 0) := op.frame, Entry(1, 0) := q])
    requires Inv(s4)
    ensures s5 == Step(s4, op) && Inv(s5)
    ensures s5 == Pair(page, page, false, true, map[q := Entry(1, 0)], map[Entry(1, 0) := q])
  {
    SwapInMeaning(s4, op.frame);
    EmptyFirst(page, op.frame, q);
    s5 := SwappedIn(s4, op.frame).0;
  }

  lemma StrandRun(page: Page, p: Frame, q: Frame, ops: seq<Op>) returns (s5: Swap)
    requires p != q
    requires ops == [AddDevice(File(page, true)), AddDevice(File(page, true)), Out(p, page), Out(q, page), In(p)]
    ensures Inv(NO_SWAP) && LegalRun(NO_SWAP, ops) && s5 == Run(NO_SWAP, ops) && Inv(s5)
    ensures s5 == Pair(page, page, false, true, map[q := Entry(1, 0)], map[Entry(1, 0) := q])
  {
    var s1, s2 := StrandDevices(page, ops[0]);
    var s3, s4 := StrandPages(page, s2, ops[2], ops[3]);
    s5 := StrandLast(page, s4, q, ops[4]);
    RunFive(NO_SWAP, s1, s2, s3, s4, ops);
  }

  /**
   From boot: two one-slot devices, a page on each, the first page swapped in again.  Removing the first
   device then leaves the second page on a device index that does not exist.
   */
  lemma RemovalCanStrand(page: Page, p: Frame, q: Frame, ops: seq<Op>)
    requires p != q
    requires ops == [AddDevice(File(page, true)), AddDevice(File(page, true)), Out(p, page), Out(q, page), In(p)]
    ensures Inv(NO_SWAP) && LegalRun(NO_SWAP, ops) && Inv(Run(NO_SWAP, ops))
    ensures var (s', r) := DeviceRemoved(Run(NO_SWAP, ops), 0);
            r.Ok? && !Inv(s') && q in s'.pageToSwap && s'.pageToSwap[q].device == |s'.devices|
  {
    var s5 := StrandRun(page, p, q, ops);
    StrandedPage(s5, 0, q);
  }

  // ---------------------------------------------------------------- a bounded store

  predicate Readable(d: Device) {
    d.File? && d.available
  }

  function FileSlots(ds: seq<Device>): nat {
    if ds == [] then 0
    else FileSlots(ds[..|ds| - 1]) + if Readable(ds[|ds| - 1]) then SlotCount(ds[|ds| - 1]) else 0
  }

  ghost predicate Balanced(d: Device, a: Allocator) {
    && |a.bitmap| == SlotCount(d) && a.free <= |a.bitmap|
    && (!Readable(d) ==> a.free == |a.bitmap|)
  }

  function FileFree(ds: seq<Device>, als: seq<Allocator>): nat
    requires |ds| == |als|
  {
    if ds == [] then 0
    else
      var n := |ds| - 1;
      FileFree(ds[..n], als[..n]) + if Readable(ds[n]) then als[n].free else 0
  }

  lemma {:induction false} FileFreeSum(ds: seq<Device>, als: seq<Allocator>)
    requires |ds| == |als| && forall i :: 0 <= i < |ds| ==> Balanced(ds[i], als[i])
    ensures FileFree(ds, als) == FileSlots(ds) - (TotalOf(als) - FreeOf(als))
  {
    if ds == [] {
    } else {
      var n := |ds| - 1;
      FileFreeSum(ds[..n], als[..n]);
      assert Balanced(ds[n], als[n]);
    }
  }

  lemma {:induction false} FileFreeSome(ds: seq<Device>, als: seq<Allocator>)
    requires |ds| == |als|
    ensures FileFree(ds, als) > 0 ==> exists i :: 0 <= i < |ds| && Readable(ds[i]) && als[i].free > 0
  {
    if FileFree(ds, als) > 0 {
      var n := |ds| - 1;
      if !(Readable(ds[n]) && als[n].free > 0) {
        FileFreeSome(ds[..n], als[..n]);
        var i :| 0 <= i < n && Readable(ds[..n][i]) && als[..n][i].free > 0;
        assert Readable(ds[i]) && als[i].free > 0;
      }
    }
  }

  lemma {:induction false} FileFreeAt(ds: seq<Device>, als: seq<Allocator>, i: nat)
    requires i < |ds| == |als| && Readable(ds[i])
    ensures FileFree(ds, als) >= als[i].free
  {
    var n := |ds| - 1;
    if i < n { FileFreeAt(ds[..n], als[..n], i); }
  }

  /** There is room exactly while fewer pages are out than the readable devices have slots. */
  lemma RoomIff(s: Swap)
    requires Inv(s)
    ensures HasRoom(s) <==> |s.pageToSwap| < FileSlots(s.devices)
  {
    forall i | 0 <= i < |s.devices|
      ensures Balanced(s.devices[i], s.allocators[i])
    {
      DeviceBalanced(s, i);
    }
    FileFreeSum(s.devices, s.allocators);
    FileFreeSome(s.devices, s.allocators);
    if HasRoom(s) {
      var i :| 0 <= i < |s.devices| && CanHold(s, i);
      FileFreeAt(s.devices, s.allocators, i);
    }
    if FileFree(s.devices, s.allocators) > 0 {
      var i :| 0 <= i < |s.devices| && Readable(s.devices[i]) && s.allocators[i].free > 0;
      assert CanHold(s, i);
    }
  }

  lemma DeviceBalanced(s: Swap, i: nat)
    requires Inv(s) && i < |s.devices|
    ensures Balanced(s.devices[i], s.allocators[i])
  {
    var a := s.allocators[i];
    assert DeviceOk(s.devices, s.allocators, s.swapToPage, i);
    CountFreeZero(a.bitmap);
    if !Readable(s.devices[i]) {
      forall slot | 0 <= slot < |a.bitmap|
        ensures !a.bitmap[slot]
      {
        assert EntryOk(s.devices, s.allocators, s.swapToPage, Entry(i, slot));
      }
      CountFreeAll(a.bitmap);
    }
  }

  datatype Answer = Added | Gone | Kept | Bytes(page: Page) | Refused(error: Error)

  ghost function AnswerTo(s: Swap, op: Op): Answer
    requires Inv(s)
  {
    match op
    case AddDevice(d) => (var r := DeviceAdded(s, d).1; if r.Ok? then Added else Refused(r.error))
    case RemoveDevice(i) => (var r := DeviceRemoved(s, i).1; if r.Ok? then Gone else Refused(r.error))
    case Out(p, page) => (var r := SwappedOut(s, p, page).1; if r.Ok? then Kept else Refused(r.error))
    case In(p) => SwapInMeaning(s, p); (var r := SwappedIn(s, p).1; if r.Ok? then Bytes(r.value) else Refused(r.error))
  }

  /** What the manager answers to a run without removals. */
  ghost function Answers(s: Swap, ops: seq<Op>): seq<Answer>
    requires Inv(s) && forall op :: op in ops ==> !op.RemoveDevice?
    decreases |ops|
  {
    if ops == [] then []
    else StepMeaning(s, ops[0]); [AnswerTo(s, ops[0])] + Answers(Step(s, ops[0]), ops[1..])
  }

  /** A map of at most `slots` pages. */
  function StoreStep(st: Store, op: Op): (Store, Answer)
    requires !op.RemoveDevice?
  {
    match op
    case AddDevice(d) =>
      if !d.available then (st, Refused(DeviceUnavailable))
      else (st.(slots := st.slots + if d.File? then SlotCount(d) else 0), Added)
    case Out(p, page) =>
      (Put(st, p, page),
       if p in st.pages then Refused(SlotInUse) else if |st.pages| < st.slots then Kept else Refused(NoSpace))
    case In(p) =>
      (Taken(st, p), if p in st.pages then Bytes(st.pages[p]) else Refused(SlotNotInUse))
  }

  function StoreAnswers(st: Store, ops: seq<Op>): seq<Answer>
    requires forall op :: op in ops ==> !op.RemoveDevice?
    decreases |ops|
  {
    if ops == [] then [] else [StoreStep(st, ops[0]).1] + StoreAnswers(StoreStep(st, ops[0]).0, ops[1..])
  }

  ghost predicate Represents(s: Swap, st: Store) {
    && Inv(s)
    && st.slots == FileSlots(s.devices)
    && st.pages.Keys == s.pageToSwap.Keys
    && forall p: Frame :: Stored(s, p) == if p in st.pages then Some(st.pages[p]) else None
  }

  lemma {:induction false} SlotsUpdate(ds: seq<Device>, i: nat, d: Device)
    requires i < |ds| && Readable(d) == Readable(ds[i]) && SlotCount(d) == SlotCount(ds[i])
    ensures FileSlots(ds[i := d]) == FileSlots(ds)
  {
    var n := |ds| - 1;
    if i == n {
      assert ds[i := d][..n] == ds[..n];
    } else {
      SlotsUpdate(ds[..n], i, d);
      assert ds[i := d][..n] == ds[..n][i := d];
    }
  }

  lemma {:induction false} TryFromSlots(s: Swap, p: Frame, page: Page, i: nat)
    requires |s.devices| == |s.allocators| && i <= |s.devices|
    ensures FileSlots(TryFrom(s, p, page, i).0.devices) == FileSlots(s.devices)
    decreases |s.devices| - i
  {
    if i < |s.devices| {
      var (s', slot) := TryDevice(s, p, page, i);
      if slot.Some? {
        WrittenPage(s.devices[i].storage, slot.value, page, slot.value);
        SlotsUpdate(s.devices, i, PageWritten(s.devices[i], slot.value, page).0);
      } else {
        TryFromSlots(s', p, page, i + 1);
      }
    }
  }

  lemma StoredKeys(s: Swap, p: Frame)
    requires Inv(s)
    ensures p in s.pageToSwap <==> Stored(s, p).Some?
  {
    if p in s.pageToSwap { SlotReadable(s, p); }
  }

  lemma SlotsAfter(s: Swap, op: Op)
    requires Inv(s) && !op.RemoveDevice?
    ensures FileSlots(Step(s, op).devices) ==
            FileSlots(s.devices) + if op.AddDevice? && Readable(op.device) then SlotCount(op.device) else 0
  {
    match op
    case AddDevice(d) => if d.available { assert (s.devices + [d])[..|s.devices|] == s.devices; }
    case Out(p, page) => if p !in s.pageToSwap { TryFromSlots(s, p, page, 0); }
    case In(p) => if p in s.pageToSwap { SwapInKeepsInv(s, p); }
  }

  lemma KeepsStored(s: Swap, st: Store, s': Swap, st': Store)
    requires Represents(s, st) && Inv(s') && st'.slots == FileSlots(s'.devices)
    requires forall p: Frame :: Stored(s', p) == if p in st'.pages then Some(st'.pages[p]) else None
    ensures Represents(s', st')
  {
    forall p: Frame
      ensures p in s'.pageToSwap <==> p in st'.pages
    {
      StoredKeys(s', p);
    }
  }

  lemma AddRepresents(s: Swap, st: Store, d: Device)
    requires Represents(s, st)
    ensures Represents(DeviceAdded(s, d).0, StoreStep(st, AddDevice(d)).0)
    ensures AnswerTo(s, AddDevice(d)) == StoreStep(st, AddDevice(d)).1
  {
    AddKeepsInv(s, d);
    SlotsAfter(s, AddDevice(d));
    KeepsStored(s, st, DeviceAdded(s, d).0, StoreStep(st, AddDevice(d)).0);
  }

  lemma OutEffect(s: Swap, st: Store, p: Frame, page: Page, s': Swap, kept: bool)
    requires Represents(s, st) && Inv(s') && FileSlots(s'.devices) == FileSlots(s.devices)
    requires kept <==> p !in st.pages && |st.pages| < st.slots
    requires forall q: Frame :: Stored(s', q) == if kept && q == p then Some(page) else Stored(s, q)
    ensures Represents(s', StoreStep(st, Out(p, page)).0)
  {
    KeepsStored(s, st, s', StoreStep(st, Out(p, page)).0);
  }

  lemma OutRepresents(s: Swap, st: Store, p: Frame, page: Page)
    requires Represents(s, st)
    ensures Represents(SwappedOut(s, p, page).0, StoreStep(st, Out(p, page)).0)
    ensures AnswerTo(s, Out(p, page)) == StoreStep(st, Out(p, page)).1
  {
    RoomIff(s);
    SwapOutMeaning(s, p, page);
    SlotsAfter(s, Out(p, page));
    StoredKeys(s, p);
    assert |st.pages| == |st.pages.Keys| == |s.pageToSwap|;
    var (s', r) := SwappedOut(s, p, page);
    OutEffect(s, st, p, page, s', r.Ok?);
  }

  lemma InRepresents(s: Swap, st: Store, p: Frame)
    requires Represents(s, st)
    ensures Represents(Step(s, In(p)), StoreStep(st, In(p)).0)
    ensures AnswerTo(s, In(p)) == StoreStep(st, In(p)).1
  {
    SwapInMeaning(s, p);
    SlotsAfter(s, In(p));
    KeepsStored(s, st, Step(s, In(p)), StoreStep(st, In(p)).0);
  }

  lemma StepRepresents(s: Swap, st: Store, op: Op)
    requires Represents(s, st) && !op.RemoveDevice?
    ensures Represents(Step(s, op), StoreStep(st, op).0)
    ensures AnswerTo(s, op) == StoreStep(st, op).1
  {
    match op
    case AddDevice(d) => AddRepresents(s, st, d);
    case Out(p, page) => OutRepresents(s, st, p, page);
    case In(p) => InRepresents(s, st, p);
  }

  /** The store a sound manager represents. */
  ghost function StoreOf(s: Swap): (st: Store)
    requires Inv(s)
    ensures Represents(s, st)
  {
    forall p: Frame
      ensures p in s.pageToSwap <==> Stored(s, p).Some?
    {
      StoredKeys(s, p);
    }
    Store(FileSlots(s.devices), map p | p in s.pageToSwap :: Stored(s, p).value)
  }

  /** Without removals the manager answers every run as a map bounded by the slots of its readable devices. */
  lemma {:induction false} SwapIsBoundedStore(s: Swap, st: Store, ops: seq<Op>)
    requires Represents(s, st) && forall op :: op in ops ==> !op.RemoveDevice?
    ensures Answers(s, ops) == StoreAnswers(st, ops)
    decreases |ops|
  {
    if ops == [] {
    } else {
      StepRepresents(s, st, ops[0]);
      SwapIsBoundedStore(Step(s, ops[0]), StoreStep(st, ops[0]).0, ops[1..]);
    }
  }

  /** Swapping a page in returns exactly the bytes swapped out, whatever happened in between to other pages. */
  lemma SwapRoundTrip(s: Swap, p: Frame, page: Page, ops: seq<Op>)
    requires Inv(s) && SwappedOut(s, p, page).1.Ok?
    requires Inv(SwappedOut(s, p, page).0) && LegalRun(SwappedOut(s, p, page).0, ops) && In(p) !in ops
    ensures var t := Run(SwappedOut(s, p, page).0, ops);
            && Inv(t) && (p in t.pageToSwap ==> t.pageToSwap[p].device < |t.devices|)
            && SwappedIn(t, p).1 == Ok(page)
  {
    SwapOutMeaning(s, p, page);
    RunKeepsPages(SwappedOut(s, p, page).0, ops);
    SwapInMeaning(Run(SwappedOut(s, p, page).0, ops), p);
  }

  // ---------------------------------------------------------------- the manager

  class SwapManager {
    var devices: seq<Device>
    var allocators: seq<Allocator>
    var pageToSwap: map<Frame, Entry>
    var swapToPage: map<Entry, Frame>
    var totalStats: Stats

    ghost function State(): Swap
      reads this
    {
      Swap(devices, allocators, pageToSwap, swapToPage, totalStats)
    }

    constructor ()
      ensures State() == NO_SWAP && Inv(State())
    {
      devices, allocators, pageToSwap, swapToPage, totalStats := [], [], map[], map[], Stats(0, 0, 0);
    }

    method AddDevice(d: Device) returns (r: Result<nat, Error>)
      requires Inv(State())
      modifies this
      ensures Inv(State()) && (State(), r) == DeviceAdded(old(State()), d)
    {
      AddKeepsInv(State(), d);
      if !d.available {
        return Err(DeviceUnavailable);
      }
      var index, n := |devices|, SlotCount(d);
      devices := devices + [d];
      allocators := allocators + [Fresh(n)];
      totalStats := Stats(totalStats.total + n, totalStats.used, totalStats.free + n);
      return Ok(index);
    }

    /** The invariant survives exactly when no page lives on a device above the removed one. */
    method RemoveDevice(d: nat) returns (r: Result<(), Error>)
      requires Inv(State())
      modifies this
      ensures (State(), r) == DeviceRemoved(old(State()), d)
      ensures Inv(State()) <==> r.Err? || Below(old(State()), d)
    {
      if d >= |devices| {
        return Err(InvalidSlot);
      }
      var a := allocators[d];
      assert DeviceOk(devices, allocators, swapToPage, d);
      CountFreeZero(a.bitmap);
      if |a.bitmap| - a.free > 0 {
        return Err(SlotInUse);
      }
      ghost var before := State();
      SumsBound(allocators, d);
      swapToPage := Retained(swapToPage, d);
      totalStats := totalStats.(total := totalStats.total - |a.bitmap|, free := totalStats.free - a.free);
      devices := RemoveAt(devices, d);
      allocators := RemoveAt(allocators, d);
      swapToPage := Renumbered(swapToPage, d);
      RemovalMade(before, d, State());
      RemoveDeviceIff(before, d);
      return Ok(());
    }

    method SwapOutPage(p: Frame, page: Page) returns (r: Result<nat, Error>)
      requires Inv(State())
      modifies this
      ensures Inv(State()) && (State(), r) == SwappedOut(old(State()), p, page)
    {
      SwapOutMeaning(State(), p, page);
      if p in pageToSwap {
        return Err(SlotInUse);
      }
      for i := 0 to |devices|
        invariant |devices| == |allocators| == |old(devices)|
        invariant TryFrom(State(), p, page, i) == TryFrom(old(State()), p, page, 0)
      {
        var slot := TryDeviceAt(i, p, page);
        if slot.Some? {
          return Ok(slot.value);
        }
      }
      return Err(NoSpace);
    }

    /** Allocate, write, and on failure give the slot back. */
    method TryDeviceAt(i: nat, p: Frame, page: Page) returns (slot: Option<nat>)
      requires i < |devices| == |allocators|
      modifies this
      ensures (State(), slot) == TryDevice(old(State()), p, page, i)
      ensures |devices| == |allocators| == |old(devices)|
    {
      var (a, found) := Allocated(allocators[i]);
      allocators := allocators[i := a];
      if found.None? {
        return None;
      }
      var (d, error) := PageWritten(devices[i], found.value, page);
      if error.Some? {
        allocators := allocators[i := Deallocated(a, found.value).0];
        assert allocators == old(allocators)[i := Deallocated(a, found.value).0];
        return None;
      }
      devices := devices[i := d];
      var e := Entry(i, found.value);
      pageToSwap := pageToSwap[p := e];
      swapToPage := swapToPage[e := p];
      totalStats := totalStats.(used := totalStats.used + 1, free := totalStats.free - 1);
      return found;
    }

    method SwapInPage(p: Frame) returns (r: Result<Page, Error>)
      requires Inv(State())
      modifies this
      ensures Inv(State())
      ensures p in old(pageToSwap) ==> old(pageToSwap)[p].device < |old(devices)|
      ensures (State(), r) == SwappedIn(old(State()), p)
    {
      SwapInMeaning(State(), p);
      if p !in pageToSwap {
        return Err(SlotNotInUse);
      }
      SlotReadable(State(), p);
      var e := pageToSwap[p];
      assert AccessError(devices[e.device], e.slot) == None;
      var page := PageAt(devices[e.device].storage, e.slot);
      allocators := allocators[e.device := Deallocated(allocators[e.device], e.slot).0];
      pageToSwap := pageToSwap - {p};
      swapToPage := swapToPage - {e};
      totalStats := totalStats.(used := totalStats.used - 1, free := totalStats.free + 1);
      return Ok(page);
    }
  }
}
