/** What the boot memory map leaves free, in terms of addresses. */
module BootMap {
  import opened Collections
  import opened Types
  import opened Frames

  /** The frame and the bytes from a up to b have an address in common. */
  ghost predicate Meets(f: nat, a: nat, b: nat) {
    f * PAGE_SIZE < b && a < (f + 1) * PAGE_SIZE
  }

  /** One past the last address of the area; an end of 0 stands for the end of the address space. */
  function EndOf(a: Area): nat {
    if a.end == 0 then ADDRESSES else a.end
  }

  /** The frames of an area are exactly those its addresses touch, partly covered ones at both ends included. */
  lemma AreaFrames(a: Area, f: nat)
    ensures a.First() <= f < a.Limit() <==> Meets(f, a.start, EndOf(a))
  {
    FloorMeans(a.start, f);
    FloorMeans(EndOf(a) - 1, f);
  }

  lemma FloorMeans(addr: nat, f: nat)
    ensures addr / PAGE_SIZE <= f <==> addr < (f + 1) * PAGE_SIZE
    ensures f <= addr / PAGE_SIZE <==> f * PAGE_SIZE <= addr
  {}

  /** Some available area touches the frame. */
  ghost predicate Offered(areas: seq<Area>, f: nat) {
    exists a :: a in areas && a.available && Meets(f, a.start, EndOf(a))
  }

  /** The frame holds a byte of the bitmap. */
  ghost predicate HoldsBitmap(layout: Layout, f: nat) {
    Meets(f, layout.bitmapStart, layout.bitmapStart + layout.bitmapBytes)
  }

  lemma FreesMeans(layout: Layout, areas: seq<Area>, f: nat)
    ensures layout.Frees(areas, f) <==> layout.Usable(f) && Offered(areas, f)
  {
    forall a | a in areas
      ensures a.First() <= f < a.Limit() <==> Meets(f, a.start, EndOf(a))
    {
      AreaFrames(a, f);
    }
  }

  /** After boot a frame is free if it was offered, lies above 1 MB and holds no byte of the bitmap. */
  lemma OfferedIsFree(layout: Layout, areas: seq<Area>, used: Map, now: Map, f: nat)
    requires layout.Freed(areas, used, now) && f < |used|
    requires Offered(areas, f) && f * PAGE_SIZE >= 0x100000 && !HoldsBitmap(layout, f)
    ensures !now[f]
  {
    FreesMeans(layout, areas, f);
  }

  /** A frame that was not offered, or lies below 1 MB, is as it was. */
  lemma RestIsKept(layout: Layout, areas: seq<Area>, used: Map, now: Map, f: nat)
    requires layout.Freed(areas, used, now) && f < |used| && (!Offered(areas, f) || f * PAGE_SIZE < 0x100000)
    ensures now[f] == used[f]
  {
    FreesMeans(layout, areas, f);
  }

  /**
   A frame that holds bytes of the bitmap stays in use exactly if it begins inside it: with a bitmap that does
   not start on a page boundary the frame of its first bytes is given away.
   */
  lemma BitmapKeptIff(layout: Layout, areas: seq<Area>, used: Map, now: Map, f: nat)
    requires layout.Freed(areas, used, now) && f < |used| && used[f]
    requires HoldsBitmap(layout, f) && Offered(areas, f) && f * PAGE_SIZE >= 0x100000
    ensures now[f] <==> layout.bitmapStart <= f * PAGE_SIZE
  {
    FreesMeans(layout, areas, f);
  }

  /** The bitmap starts on a page boundary, so none of its frames is ever free after boot. */
  lemma BitmapIsKept(layout: Layout, areas: seq<Area>, used: Map, now: Map, f: nat)
    requires layout.Freed(areas, used, now) && f < |used| && used[f] && HoldsBitmap(layout, f)
    requires layout.bitmapStart % PAGE_SIZE == 0
    ensures now[f]
  {
    AlignedStart(layout.bitmapStart, f);
    FreesMeans(layout, areas, f);
  }

  lemma AlignedStart(a: nat, f: nat)
    requires a % PAGE_SIZE == 0 && a < (f + 1) * PAGE_SIZE
    ensures a <= f * PAGE_SIZE
  {
    FloorMeans(a, f);
    assert a == a / PAGE_SIZE * PAGE_SIZE;
  }

  // ---------------------------------------------------------------- the reserved count

  /** Frame f of an available area is held back: it is below 1 MB, or begins inside the bitmap. */
  predicate HeldBack(layout: Layout, f: nat) {
    || f * PAGE_SIZE < 0x100000
    || layout.bitmapStart <= f * PAGE_SIZE < layout.bitmapStart + layout.bitmapBytes
  }

  /** The frame is one of those the bitmap has a bit for. */
  predicate Exists(layout: Layout, f: nat) {
    f < layout.frames
  }

  /** The frames from lo up to hi that boot counts: those held back, or in any other area those that exist. */
  ghost function Counted(layout: Layout, available: bool, lo: nat, hi: nat): set<nat> {
    if available then set f: nat | lo <= f < hi && HeldBack(layout, f)
    else set f: nat | lo <= f < hi && Exists(layout, f)
  }

  lemma {:induction false} ReservedCounts(layout: Layout, available: bool, lo: nat, hi: nat)
    ensures layout.ReservedIn(available, lo, hi) == |Counted(layout, available, lo, hi)|
    decreases hi
  {
    if hi <= lo {
      assert Counted(layout, available, lo, hi) == {};
    } else {
      ReservedCounts(layout, available, lo, hi - 1);
      var last := if layout.Reserves(available, hi - 1) then {hi - 1} else {};
      assert Counted(layout, available, lo, hi) == Counted(layout, available, lo, hi - 1) + last;
    }
  }
}
