/** Swap devices (byte storage addressed by page slots) and the circular slot allocator in front of each. */
module SwapDevices {
  import opened Collections
  import opened Types

  type Page = p: seq<Byte> | |p| == PAGE_SIZE witness seq(PAGE_SIZE, _ => 0)

  datatype Error = DeviceUnavailable | InvalidSlot | IoError | NoSpace | SlotInUse | SlotNotInUse

  // ---------------------------------------------------------------- devices

  /** A file-backed device, or a partition, whose input and output are not implemented and always fail. */
  datatype Device = File(storage: seq<Byte>, available: bool) | Partition(size: nat, available: bool)

  function Size(d: Device): nat {
    if d.File? then |d.storage| else d.size
  }

  function SlotCount(d: Device): nat {
    Size(d) / PAGE_SIZE
  }

  predicate InRange(storage: seq<Byte>, slot: nat) {
    slot * PAGE_SIZE + PAGE_SIZE <= |storage|
  }

  function PageAt(storage: seq<Byte>, slot: nat): Page
    requires InRange(storage, slot)
  {
    storage[slot * PAGE_SIZE..slot * PAGE_SIZE + PAGE_SIZE]
  }

  function Written(storage: seq<Byte>, slot: nat, page: Page): seq<Byte>
    requires InRange(storage, slot)
  {
    storage[..slot * PAGE_SIZE] + page + storage[slot * PAGE_SIZE + PAGE_SIZE..]
  }

  /** Writing a slot reads back what was written and leaves every other slot alone. */
  lemma WrittenPage(storage: seq<Byte>, slot: nat, page: Page, other: nat)
    requires InRange(storage, slot) && InRange(storage, other)
    ensures |Written(storage, slot, page)| == |storage|
    ensures PageAt(Written(storage, slot, page), other) == if other == slot then page else PageAt(storage, other)
  {
    var w := Written(storage, slot, page);
    if other < slot {
      assert other * PAGE_SIZE + PAGE_SIZE <= slot * PAGE_SIZE;
    } else if other > slot {
      assert slot * PAGE_SIZE + PAGE_SIZE <= other * PAGE_SIZE;
    }
  }

  /** Why an access to a slot fails, if it does. */
  function AccessError(d: Device, slot: nat): Option<Error> {
    if !d.available then Some(DeviceUnavailable)
    else if d.Partition? then Some(IoError)
    else if !InRange(d.storage, slot) then Some(InvalidSlot)
    else None
  }

  /** An available file serves exactly the slots its bytes hold in full; an unavailable device names that first. */
  lemma AccessRefused(d: Device, slot: nat)
    ensures AccessError(d, slot) == Some(DeviceUnavailable) <==> !d.available
    ensures AccessError(d, slot) == Some(IoError) <==> d.available && d.Partition?
    ensures AccessError(d, slot) == Some(InvalidSlot) <==> d.available && d.File? && slot >= |d.storage| / PAGE_SIZE
    ensures AccessError(d, slot) == None <==> d.available && d.File? && slot < |d.storage| / PAGE_SIZE
  {
    if d.File? && slot < |d.storage| / PAGE_SIZE {
      assert (slot + 1) * PAGE_SIZE <= |d.storage| / PAGE_SIZE * PAGE_SIZE;
    }
  }

  function PageWritten(d: Device, slot: nat, page: Page): (Device, Option<Error>) {
    var e := AccessError(d, slot);
    (if e.None? then d.(storage := Written(d.storage, slot, page)) else d, e)
  }

  class FileSwapDevice {
    var storage: array<Byte>
    var available: bool

    ghost function State(): Device
      reads this, storage
    {
      File(storage[..], available)
    }

    /** A new device is zero-filled and page-aligned. */
    constructor (sizeMb: nat)
      ensures State().available && |State().storage| == sizeMb * 1024 * 1024 && fresh(storage)
      ensures SlotCount(State()) == sizeMb * 256
      ensures forall i :: 0 <= i < |State().storage| ==> State().storage[i] == 0
    {
      var size := sizeMb * 1024 * 1024;
      storage := new Byte[size](_ => 0);
      available := true;
    }

    static method New(sizeMb: nat) returns (device: FileSwapDevice?, error: Option<Error>)
      ensures error == if sizeMb == 0 then Some(InvalidSlot) else None
      ensures device == null <==> error.Some?
      ensures device != null ==>
                && fresh(device) && fresh(device.storage)
                && device.State() == File(seq(sizeMb * 1024 * 1024, _ => 0), true)
    {
      if sizeMb == 0 {
        return null, Some(InvalidSlot);
      }
      device := new FileSwapDevice(sizeMb);
      return device, None;
    }

    method ReadPage(slot: nat, buffer: array<Byte>) returns (error: Option<Error>)
      requires buffer.Length == PAGE_SIZE && buffer != storage
      modifies buffer
      ensures error == AccessError(State(), slot)
      ensures buffer[..] == if error.None? then PageAt(storage[..], slot) else old(buffer[..])
    {
      if !available {
        return Some(DeviceUnavailable);
      }
      var offset := slot * PAGE_SIZE;
      if offset + PAGE_SIZE > storage.Length {
        return Some(InvalidSlot);
      }
      for i := 0 to PAGE_SIZE
        invariant buffer[..i] == storage[offset..offset + i]
      {
        buffer[i] := storage[offset + i];
      }
      assert buffer[..] == buffer[..PAGE_SIZE];
      return None;
    }

    method WritePage(slot: nat, buffer: Page) returns (error: Option<Error>)
      modifies storage
      ensures (State(), error) == PageWritten(old(State()), slot, buffer)
    {
      if !available {
        return Some(DeviceUnavailable);
      }
      var offset := slot * PAGE_SIZE;
      if offset + PAGE_SIZE > storage.Length {
        return Some(InvalidSlot);
      }
      for i := 0 to PAGE_SIZE
        invariant forall j :: 0 <= j < offset ==> storage[j] == old(storage[j])
        invariant forall j :: 0 <= j < i ==> storage[offset + j] == buffer[j]
        invariant forall j :: offset + i <= j < storage.Length ==> storage[j] == old(storage[j])
      {
        storage[offset + i] := buffer[i];
      }
      assert storage[offset..offset + PAGE_SIZE] == buffer;
      assert storage[..offset] == old(storage[..])[..offset];
      assert storage[offset + PAGE_SIZE..] == old(storage[..])[offset + PAGE_SIZE..];
      assert storage[..] == storage[..offset] + storage[offset..offset + PAGE_SIZE] + storage[offset + PAGE_SIZE..];
      return None;
    }
  }

  // ---------------------------------------------------------------- slots

  /** One bit per slot, and where the next search starts. */
  datatype Allocator = Allocator(bitmap: seq<bool>, free: nat, hint: nat)

  ghost predicate AllocatorOk(a: Allocator) {
    a.free == CountFree(a.bitmap) && (a.hint < |a.bitmap| || (a.bitmap == [] && a.hint == 0))
  }

  function Probe(bitmap: seq<bool>, h: nat, k: nat): (r: nat)
    requires h < |bitmap| && k <= |bitmap|
    ensures k <= r <= |bitmap|
    ensures forall j :: k <= j < r ==> bitmap[Around(h, j, |bitmap|)]
    ensures r < |bitmap| ==> !bitmap[Around(h, r, |bitmap|)]
    decreases |bitmap| - k
  {
    if k == |bitmap| || !bitmap[Around(h, k, |bitmap|)] then k else Probe(bitmap, h, k + 1)
  }

  function Allocated(a: Allocator): (Allocator, Option<nat>) {
    if a.free == 0 || a.hint >= |a.bitmap| then (a, None)
    else
      var n := |a.bitmap|;
      var k := Probe(a.bitmap, a.hint, 0);
      if k == n then (a, None)
      else
        var slot := Around(a.hint, k, n);
        var hint := if slot + 1 == n then 0 else slot + 1;
        (Allocator(a.bitmap[slot := true], if a.free > 0 then a.free - 1 else 0, hint), Some(slot))
  }

  function Deallocated(a: Allocator, slot: nat): (Allocator, Option<Error>) {
    if slot >= |a.bitmap| then (a, Some(InvalidSlot))
    else if !a.bitmap[slot] then (a, Some(SlotNotInUse))
    else (Allocator(a.bitmap[slot := false], a.free + 1, if slot < a.hint then slot else a.hint), None)
  }

  /** Going round from h, every slot before this one is taken. */
  ghost predicate FirstFrom(bitmap: seq<bool>, h: nat, slot: nat) {
    exists k :: 0 <= k < |bitmap| && h < |bitmap| && slot == Around(h, k, |bitmap|)
      && forall j :: 0 <= j < k ==> bitmap[Around(h, j, |bitmap|)]
  }

  /** The slot is the first free one going round from the hint, and the hint moves just past it. */
  lemma AllocatedFirst(a: Allocator)
    requires AllocatorOk(a) && Allocated(a).1.Some?
    ensures FirstFrom(a.bitmap, a.hint, Allocated(a).1.value)
    ensures Allocated(a).0.hint == Around(Allocated(a).1.value, 1, |a.bitmap|)
  {
    var n := |a.bitmap|;
    var k := Probe(a.bitmap, a.hint, 0);
    assert Allocated(a).1.value == Around(a.hint, k, n);
  }

  /** A slot is found exactly when one is free; it is marked and counted, and no other slot changes. */
  lemma AllocatedMeaning(a: Allocator)
    requires AllocatorOk(a)
    ensures var (a', r) := Allocated(a);
            && AllocatorOk(a') && |a'.bitmap| == |a.bitmap|
            && (r.None? <==> a.free == 0) && (r.None? <==> forall i :: 0 <= i < |a.bitmap| ==> a.bitmap[i])
            && (r.None? ==> a' == a)
            && (r.Some? ==>
                  && r.value < |a.bitmap| && !a.bitmap[r.value]
                  && a'.bitmap == a.bitmap[r.value := true] && a'.free == a.free - 1)
  {
    CountFreeZero(a.bitmap);
    if a.bitmap != [] {
      var n := |a.bitmap|;
      var k := Probe(a.bitmap, a.hint, 0);
      if k == n {
        forall i | 0 <= i < n
          ensures a.bitmap[i]
        {
          var j := if i >= a.hint then i - a.hint else i + n - a.hint;
          assert a.bitmap[Around(a.hint, j, n)];
        }
      } else {
        CountFreeUpdate(a.bitmap, Around(a.hint, k, n), true);
      }
    }
  }

  lemma DeallocatedMeaning(a: Allocator, slot: nat)
    requires AllocatorOk(a) && slot < |a.bitmap| && a.bitmap[slot]
    ensures var (a', e) := Deallocated(a, slot);
            && e.None? && AllocatorOk(a') && a'.bitmap == a.bitmap[slot := false] && a'.free == a.free + 1
  {
    CountFreeUpdate(a.bitmap, slot, false);
  }

  /** A slot freed below the hint is the next one given out; otherwise the search goes on from the hint. */
  lemma FreedIsNext(a: Allocator, slot: nat)
    requires AllocatorOk(a) && slot < |a.bitmap| && a.bitmap[slot]
    ensures var a' := Deallocated(a, slot).0;
            && Allocated(a').1.Some?
            && (slot <= a.hint ==> Allocated(a').1 == Some(slot))
            && (slot > a.hint ==> FirstFrom(a.bitmap[slot := false], a.hint, Allocated(a').1.value))
  {
    DeallocatedMeaning(a, slot);
    var a' := Deallocated(a, slot).0;
    AllocatedMeaning(a');
    AllocatedFirst(a');
    if slot <= a.hint { assert Probe(a'.bitmap, a'.hint, 0) == 0; }
  }

  class SwapAllocator {
    var bitmap: seq<bool>
    var freeSlots: nat
    var nextFreeHint: nat

    ghost function State(): Allocator
      reads this
    {
      Allocator(bitmap, freeSlots, nextFreeHint)
    }

    constructor (totalSlots: nat)
      ensures State() == Fresh(totalSlots) && AllocatorOk(State())
    {
      bitmap, freeSlots, nextFreeHint := seq(totalSlots, _ => false), totalSlots, 0;
      FreshOk(totalSlots);
    }

    method AllocateSlot() returns (r: Option<nat>)
      requires AllocatorOk(State())
      modifies this
      ensures (State(), r) == Allocated(old(State())) && AllocatorOk(State())
    {
      AllocatedMeaning(State());
      if freeSlots == 0 {
        return None;
      }
      var total := |bitmap|;
      CountFreeZero(bitmap);
      for i := 0 to total
        invariant State() == old(State())
        invariant i <= Probe(bitmap, nextFreeHint, 0)
      {
        var slot := (nextFreeHint + i) % total;
        assert slot == Around(nextFreeHint, i, total) by { AroundIsModulo(nextFreeHint, i, total); }
        if !bitmap[slot] {
          AroundIsModulo(slot, 1, total);
          bitmap := bitmap[slot := true];
          freeSlots := freeSlots - 1;
          nextFreeHint := (slot + 1) % total;
          return Some(slot);
        }
      }
      return None;
    }

    method DeallocateSlot(slot: nat) returns (error: Option<Error>)
      requires AllocatorOk(State())
      modifies this
      ensures (State(), error) == Deallocated(old(State()), slot) && AllocatorOk(State())
      ensures error == Some(InvalidSlot) <==> slot >= |old(bitmap)|
      ensures error == Some(SlotNotInUse) <==> slot < |old(bitmap)| && !old(bitmap)[slot]
      ensures error.Some? ==> State() == old(State())
    {
      if slot >= |bitmap| {
        return Some(InvalidSlot);
      }
      if !bitmap[slot] {
        return Some(SlotNotInUse);
      }
      DeallocatedMeaning(State(), slot);
      bitmap := bitmap[slot := false];
      freeSlots := freeSlots + 1;
      if slot < nextFreeHint {
        nextFreeHint := slot;
      }
      return None;
    }
  }

  function Fresh(totalSlots: nat): Allocator {
    Allocator(seq(totalSlots, _ => false), totalSlots, 0)
  }

  lemma {:induction false} FreshOk(totalSlots: nat)
    ensures AllocatorOk(Fresh(totalSlots))
  {
    if totalSlots == 0 {
    } else {
      FreshOk(totalSlots - 1);
      assert Fresh(totalSlots).bitmap[..totalSlots - 1] == Fresh(totalSlots - 1).bitmap;
    }
  }
}
