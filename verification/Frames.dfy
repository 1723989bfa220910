/** The physical frame allocator: a bitmap with one bit per frame, first fit. */
module Frames {
  import opened Collections
  import opened Types

  // ---------------------------------------------------------------- bits

  function Mask(i: nat): bv8
    requires i < 8
  {
    1 << i
  }

  predicate Bit(b: bv8, i: nat)
    requires i < 8
  {
    b & Mask(i) != 0
  }

  lemma MaskTable(i: nat)
    requires i < 8
    ensures Mask(i) == [1, 2, 4, 8, 16, 32, 64, 128][i]
  {}

  lemma SetBit(b: bv8, i: nat, j: nat)
    requires i < 8 && j < 8
    ensures Bit(b | Mask(i), j) == (i == j || Bit(b, j))
  {
    MaskTable(i);
    MaskTable(j);
  }

  lemma ClearBit(b: bv8, i: nat, j: nat)
    requires i < 8 && j < 8
    ensures Bit(b & !Mask(i), j) == (i != j && Bit(b, j))
  {
    MaskTable(i);
    MaskTable(j);
  }

  lemma FullByte(i: nat)
    requires i < 8
    ensures Bit(0xFF, i)
  {
    MaskTable(i);
  }

  // ---------------------------------------------------------------- frames

  /** used[f] says whether frame f is taken. */
  type Map = seq<bool>

  /** n free frames in a row from s on. */
  predicate FreeRun(used: Map, s: nat, n: nat) {
    s + n <= |used| && forall f :: s <= f < s + n ==> !used[f]
  }

  /** The map with frames s to s+n set, as far as they exist. */
  function Fill(used: Map, s: nat, n: nat, v: bool): Map {
    seq(|used|, f requires 0 <= f < |used| => if s <= f < s + n then v else used[f])
  }

  /** Setting one frame, whether it exists or not. */
  lemma FillOne(used: Map, f: nat, v: bool)
    ensures Fill(used, f, 1, v) == if f < |used| && used[f] != v then used[f := v] else used
  {}

  lemma FillNext(used: Map, s: nat, n: nat, v: bool)
    ensures Fill(Fill(used, s, n, v), s + n, 1, v) == Fill(used, s, n + 1, v)
  {}

  /** No run of n frames starts between s and a used frame fewer than n frames away. */
  lemma BrokenRun(used: Map, s: nat, f: nat, n: nat)
    requires s <= f < |used| && used[f] && f < s + n
    ensures forall t :: s <= t <= f ==> !FreeRun(used, t, n)
  {}

  lemma RunGrows(used: Map, s: nat, n: nat)
    requires FreeRun(used, s, n) && s + n < |used| && !used[s + n]
    ensures FreeRun(used, s, n + 1)
  {}

  lemma NoRunLeft(used: Map, s: nat, n: nat)
    requires |used| < s + n && forall t :: 0 <= t < s ==> !FreeRun(used, t, n)
    ensures IsFirstRun(used, n, None)
  {
    forall t: nat
      ensures !FreeRun(used, t, n)
    {}
  }

  /** The answer first fit must give: the lowest start of a free run, if there is any. */
  ghost predicate IsFirstRun(used: Map, n: nat, r: Option<nat>) {
    match r
    case Some(s) => FreeRun(used, s, n) && forall t :: 0 <= t < s ==> !FreeRun(used, t, n)
    case None => forall t: nat :: !FreeRun(used, t, n)
  }

  /** First fit from s on. */
  function FirstFrom(used: Map, s: nat, n: nat): (r: Option<nat>)
    ensures match r
            case Some(t) => s <= t && FreeRun(used, t, n) && forall u :: s <= u < t ==> !FreeRun(used, u, n)
            case None => forall t :: s <= t ==> !FreeRun(used, t, n)
    decreases |used| - s
  {
    if s + n > |used| then None else if FreeRun(used, s, n) then Some(s) else FirstFrom(used, s + 1, n)
  }

  /** The run a request gets; nothing for a count of zero. */
  function Granted(used: Map, n: nat): Option<nat> {
    if n == 0 then None else FirstFrom(used, 0, n)
  }

  lemma GrantedIsFirst(used: Map, n: nat, r: Option<nat>)
    requires n > 0 && IsFirstRun(used, n, r)
    ensures r == Granted(used, n)
  {
    assert r.Some? ==> FreeRun(used, r.value, n);
  }

  /** A run of n free frames is n free frames. */
  lemma {:induction false} RunCounts(used: Map, s: nat, n: nat)
    requires FreeRun(used, s, n)
    ensures CountFree(used) >= n
    ensures CountFree(Fill(used, s, n, true)) == CountFree(used) - n
  {
    if n == 0 {
      assert Fill(used, s, n, true) == used;
    } else {
      RunCounts(used, s, n - 1);
      var part := Fill(used, s, n - 1, true);
      CountFreeUpdate(part, s + n - 1, true);
      assert part[s + n - 1 := true] == Fill(used, s, n, true);
    }
  }

  /** Taking a free run and giving it back restores the map. */
  lemma FillRoundTrip(used: Map, s: nat, n: nat)
    requires FreeRun(used, s, n)
    ensures Fill(Fill(used, s, n, true), s, n, false) == used
  {}

  lemma AllUsed(used: Map)
    requires forall f :: 0 <= f < |used| ==> used[f]
    ensures IsFirstRun(used, 1, None)
  {
    forall t: nat
      ensures !FreeRun(used, t, 1)
    {
      if t < |used| { assert used[t]; }
    }
  }

  lemma FirstFree(used: Map, f: nat)
    requires f < |used| && !used[f] && forall t :: 0 <= t < f ==> used[t]
    ensures IsFirstRun(used, 1, Some(f))
  {
    forall t | 0 <= t < f
      ensures !FreeRun(used, t, 1)
    {
      assert used[t];
    }
  }

  // ---------------------------------------------------------------- encoding

  /** The frame map a bitmap encodes. */
  function Decode(bytes: seq<bv8>, total: nat): Map
    requires |bytes| == (total + 7) / 8
  {
    seq(total, f requires 0 <= f < total => Bit(bytes[f / 8], f % 8))
  }

  lemma FrameBit(bytes: seq<bv8>, total: nat, b: nat, i: nat)
    requires |bytes| == (total + 7) / 8 && i < 8 && b * 8 + i < total
    ensures b < |bytes| && Decode(bytes, total)[b * 8 + i] == Bit(bytes[b], i)
  {}

  function WithBit(b: bv8, i: nat, v: bool): bv8
    requires i < 8
  {
    if v then b | Mask(i) else b & !Mask(i)
  }

  /** Writing one bit of one byte changes one frame. */
  lemma DecodeWrite(bytes: seq<bv8>, total: nat, f: nat, v: bool)
    requires |bytes| == (total + 7) / 8 && f < total
    ensures Decode(bytes[f / 8 := WithBit(bytes[f / 8], f % 8, v)], total) == Decode(bytes, total)[f := v]
  {
    var bytes' := bytes[f / 8 := WithBit(bytes[f / 8], f % 8, v)];
    forall g | 0 <= g < total
      ensures Decode(bytes', total)[g] == Decode(bytes, total)[f := v][g]
    {
      WriteOneBit(bytes[f / 8], f % 8, g % 8, v);
    }
  }

  lemma WriteOneBit(b: bv8, i: nat, j: nat, v: bool)
    requires i < 8 && j < 8
    ensures Bit(WithBit(b, i, v), j) == if i == j then v else Bit(b, j)
  {
    SetBit(b, i, j);
    ClearBit(b, i, j);
  }

  // ---------------------------------------------------------------- the boot memory map

  const LOW_MEMORY: nat := 0x100000

  const ADDRESSES: nat := 0x1_0000_0000_0000_0000

  /** An area of the memory map; its end address is exclusive, and 0 wraps around to the last address. */
  datatype Area = Area(start: nat, end: nat, available: bool) {
    function First(): nat { start / PAGE_SIZE }

    /** One past the last frame the area touches. */
    function Limit(): nat { (if end == 0 then ADDRESSES - 1 else end - 1) / PAGE_SIZE + 1 }
  }

  /** Where the frames and the bitmap itself are. */
  datatype Layout = Layout(frames: nat, bitmapStart: nat, bitmapBytes: nat) {
    /** Neither in low memory nor under the bitmap. */
    predicate Usable(f: nat) {
      var addr := f * PAGE_SIZE;
      addr >= LOW_MEMORY && !(bitmapStart <= addr < bitmapStart + bitmapBytes)
    }

    /** Frame f of an area is counted as reserved. */
    predicate Reserves(available: bool, f: nat) {
      if available then !Usable(f) else f < frames
    }

    /** Frames from lo up to hi that are counted as reserved. */
    function ReservedIn(available: bool, lo: nat, hi: nat): nat {
      if hi <= lo then 0 else ReservedIn(available, lo, hi - 1) + if Reserves(available, hi - 1) then 1 else 0
    }

    function Reserved(areas: seq<Area>): nat {
      if areas == [] then 0
      else
        var a := areas[|areas| - 1];
        Reserved(areas[..|areas| - 1]) + ReservedIn(a.available, a.First(), a.Limit())
    }

    /** The map with the usable frames from lo up to hi freed. */
    function Opened(used: Map, lo: nat, hi: nat): Map {
      seq(|used|, f requires 0 <= f < |used| => used[f] && !(lo <= f < hi && Usable(f)))
    }

    lemma OpenedNext(used: Map, lo: nat, hi: nat)
      requires lo <= hi
      ensures Opened(used, lo, hi + 1) ==
              if Usable(hi) && hi < |used| then Opened(used, lo, hi)[hi := false] else Opened(used, lo, hi)
    {}

    lemma OpenedNone(used: Map, lo: nat, hi: nat)
      requires hi <= lo
      ensures Opened(used, lo, hi) == used
    {}

    /** One frame of an available area: freed, or kept back and counted. */
    function After(f: nat, now: Map, count: nat): (Map, nat) {
      if !Usable(f) then (now, count + 1) else if f < |now| then (now[f := false], count) else (now, count)
    }

    /** What freeing an available area from lo leaves when it has reached f. */
    function Boot(used: Map, reserved: nat, lo: nat): nat -> (Map, nat) {
      (f: nat) => (Opened(used, lo, f), reserved + ReservedIn(true, lo, f))
    }

    ghost predicate Follows(outcome: nat -> (Map, nat), f: nat) {
      outcome(f + 1) == After(f, outcome(f).0, outcome(f).1)
    }

    lemma BootFollows(used: Map, reserved: nat, lo: nat, hi: nat)
      ensures Boot(used, reserved, lo)(if hi < lo then hi else lo) == (used, reserved)
      ensures forall f :: lo <= f < hi ==> Follows(Boot(used, reserved, lo), f)
    {
      OpenedNone(used, lo, if hi < lo then hi else lo);
      forall f | lo <= f < hi
        ensures Follows(Boot(used, reserved, lo), f)
      {
        OpenedNext(used, lo, f);
      }
    }

    /** Some available area frees frame f. */
    ghost predicate Frees(areas: seq<Area>, f: nat) {
      Usable(f) && exists a :: a in areas && a.available && a.First() <= f < a.Limit()
    }

    /** From used to now exactly the frames were freed that some available area frees. */
    ghost predicate Freed(areas: seq<Area>, used: Map, now: Map) {
      |now| == |used| && forall f :: 0 <= f < |used| ==> now[f] == (used[f] && !Frees(areas, f))
    }

    lemma FreedNext(areas: seq<Area>, i: nat, used: Map, now: Map)
      requires i < |areas| && Freed(areas[..i], used, now)
      ensures var a := areas[i];
              && Freed(areas[..i + 1], used, if a.available then Opened(now, a.First(), a.Limit()) else now)
              && Reserved(areas[..i + 1]) == Reserved(areas[..i]) + ReservedIn(a.available, a.First(), a.Limit())
    {
      assert areas[..i + 1] == areas[..i] + [areas[i]] && areas[..i + 1][..i] == areas[..i];
      forall f: nat
        ensures Frees(areas[..i + 1], f) <==>
                Frees(areas[..i], f) || (Usable(f) && areas[i].available && areas[i].First() <= f < areas[i].Limit())
      {}
    }

    lemma FreedKeepsLow(areas: seq<Area>, used: Map, now: Map)
      requires Freed(areas, used, now)
      ensures LowKept(used) ==> LowKept(now)
    {}
  }

  predicate Low(f: nat) {
    f * PAGE_SIZE < LOW_MEMORY
  }

  /** Every frame in low memory is in use. */
  predicate LowKept(used: Map) {
    forall f :: 0 <= f < |used| && Low(f) ==> used[f]
  }

  class PhysicalMemoryManager {
    const bitmap: array<bv8>
    const totalFrames: nat
    const bitmapStart: nat
    var freeFrames: int
    var usedFrames: int
    var reservedFrames: nat

    function Where(): Layout {
      Layout(totalFrames, bitmapStart, bitmap.Length)
    }

    ghost predicate Shape()
      reads this
    {
      bitmap.Length == (totalFrames + 7) / 8
    }

    /** The frame map the bitmap encodes. */
    ghost function View(): Map
      requires Shape()
      reads this, bitmap
    {
      Decode(bitmap[..], totalFrames)
    }

    /**
     `free_frames` is the number of zero bits below `total_frames`.  `used_frames` starts at 0 over an
     all-ones bitmap, so it is the number of one bits less `total_frames`: never a page count.
     */
    ghost predicate Valid()
      reads this, bitmap
    {
      Shape() && freeFrames == CountFree(View()) && usedFrames + CountFree(View()) == 0
    }

    /** Everything is in use until boot frees the available areas. */
    constructor (totalFrames: nat, bitmapStart: nat)
      ensures Valid() && fresh(bitmap) && this.totalFrames == totalFrames && this.bitmapStart == bitmapStart
      ensures View() == seq(totalFrames, _ => true) && reservedFrames == 0
    {
      this.totalFrames, this.bitmapStart, reservedFrames := totalFrames, bitmapStart, 0;
      bitmap := new bv8[(totalFrames + 7) / 8](_ => 0xFF);
      freeFrames, usedFrames := 0, 0;
      new;
      forall f | 0 <= f < totalFrames
        ensures View()[f]
      {
        FullByte(f % 8);
      }
      CountFreeZero(View());
    }

    method IsFrameFree(f: nat) returns (free: bool)
      requires Valid()
      ensures free == (f < totalFrames && !View()[f])
    {
      if f >= totalFrames {
        return false;
      }
      var byteIdx, bitIdx := f / 8, f % 8;
      if byteIdx >= bitmap.Length {
        return false;
      }
      return bitmap[byteIdx] & Mask(bitIdx) == 0;
    }

    /** Store the byte of frame f with that frame's bit changed. */
    method WriteByte(f: nat, byte: bv8, ghost v: bool)
      requires Shape() && f < totalFrames && byte == WithBit(bitmap[f / 8], f % 8, v)
      modifies bitmap
      ensures View() == old(View())[f := v]
    {
      DecodeWrite(bitmap[..], totalFrames, f, v);
      bitmap[f / 8] := byte;
      assert bitmap[..] == old(bitmap[..])[f / 8 := byte];
    }

    method MarkFrameUsed(f: nat)
      requires Valid()
      modifies this`freeFrames, this`usedFrames, bitmap
      ensures Valid() && View() == if f < totalFrames then old(View())[f := true] else old(View())
    {
      if f >= totalFrames {
        return;
      }
      var byteIdx, bitIdx := f / 8, f % 8;
      if byteIdx >= bitmap.Length {
        return;
      }
      if bitmap[byteIdx] & Mask(bitIdx) == 0 {
        CountFreeUpdate(View(), f, true);
        WriteByte(f, bitmap[byteIdx] | Mask(bitIdx), true);
        freeFrames := freeFrames - 1;
        usedFrames := usedFrames + 1;
      }
    }

    method MarkFrameFree(f: nat)
      requires Valid()
      modifies this`freeFrames, this`usedFrames, bitmap
      ensures Valid() && View() == if f < totalFrames then old(View())[f := false] else old(View())
    {
      if f >= totalFrames {
        return;
      }
      var byteIdx, bitIdx := f / 8, f % 8;
      if byteIdx >= bitmap.Length {
        return;
      }
      if bitmap[byteIdx] & Mask(bitIdx) != 0 {
        CountFreeUpdate(View(), f, false);
        WriteByte(f, bitmap[byteIdx] & !Mask(bitIdx), false);
        usedFrames := usedFrames - 1;
        freeFrames := freeFrames + 1;
      }
    }

    /** The first zero bit of one byte that belongs to a frame, 8 if there is none. */
    method FindInByte(byteIdx: nat) returns (r: nat)
      requires Valid() && byteIdx < bitmap.Length
      ensures r <= 8 && (r < 8 ==> byteIdx * 8 + r < totalFrames && !Bit(bitmap[byteIdx], r))
      ensures forall i :: 0 <= i < r && byteIdx * 8 + i < totalFrames ==> Bit(bitmap[byteIdx], i)
    {
      var byte := bitmap[byteIdx];
      if byte != 0xFF {
        for bitIdx := 0 to 8
          invariant forall i :: 0 <= i < bitIdx && byteIdx * 8 + i < totalFrames ==> Bit(byte, i)
        {
          if byte & Mask(bitIdx) == 0 {
            if byteIdx * 8 + bitIdx < totalFrames {
              return bitIdx;
            }
          }
        }
      } else {
        forall i | 0 <= i < 8
          ensures Bit(byte, i)
        {
          FullByte(i);
        }
      }
      return 8;
    }

    /** The first zero bit below `totalFrames`. */
    method FindFree() returns (r: Option<nat>)
      requires Valid()
      ensures IsFirstRun(View(), 1, r)
    {
      ghost var used := View();
      for byteIdx := 0 to bitmap.Length
        invariant forall f :: 0 <= f < totalFrames && f < byteIdx * 8 ==> used[f]
      {
        var bitIdx := FindInByte(byteIdx);
        forall f | byteIdx * 8 <= f < byteIdx * 8 + bitIdx && f < totalFrames
          ensures used[f]
        {
          FrameBit(bitmap[..], totalFrames, byteIdx, f - byteIdx * 8);
        }
        if bitIdx < 8 {
          FrameBit(bitmap[..], totalFrames, byteIdx, bitIdx);
          FirstFree(used, byteIdx * 8 + bitIdx);
          return Some(byteIdx * 8 + bitIdx);
        }
      }
      AllUsed(used);
      return None;
    }

    /** The lowest start of `count` zero bits in a row. */
    method FindRun(count: nat) returns (r: Option<nat>)
      requires Valid() && count > 0
      ensures IsFirstRun(View(), count, r)
    {
      ghost var used := View();
      var consecutive := 0;
      var start := None;
      for frame := 0 to totalFrames
        invariant consecutive <= frame && consecutive < count
        invariant consecutive > 0 ==> start == Some(frame - consecutive)
        invariant FreeRun(used, frame - consecutive, consecutive)
        invariant forall t :: 0 <= t < frame - consecutive ==> !FreeRun(used, t, count)
      {
        var free := IsFrameFree(frame);
        if free {
          RunGrows(used, frame - consecutive, consecutive);
          if consecutive == 0 {
            start := Some(frame);
          }
          consecutive := consecutive + 1;
          if consecutive == count {
            return start;
          }
        } else {
          BrokenRun(used, frame - consecutive, frame, count);
          consecutive := 0;
          start := None;
        }
      }
      NoRunLeft(used, totalFrames - consecutive, count);
      return None;
    }

    /** Takes the lowest free frame, or fails if there is none. */
    method AllocateFrame() returns (r: Option<nat>)
      requires Valid()
      modifies this`freeFrames, this`usedFrames, bitmap
      ensures Valid() && IsFirstRun(old(View()), 1, r)
      ensures View() == if r.Some? then Fill(old(View()), r.value, 1, true) else old(View())
    {
      if freeFrames == 0 {
        CountFreeZero(View());
        AllUsed(View());
        return None;
      }
      r := FindFree();
      if r.Some? {
        FillOne(View(), r.value, true);
        MarkFrameUsed(r.value);
      }
    }

    /** Takes the lowest run of `count` free frames, or fails if there is none; nothing for a count of zero. */
    method AllocateFrames(count: nat) returns (r: Option<nat>)
      requires Valid()
      modifies this`freeFrames, this`usedFrames, bitmap
      ensures Valid()
      ensures if count == 0 then r == None else IsFirstRun(old(View()), count, r)
      ensures r == Granted(old(View()), count)
      ensures View() == if r.Some? then Fill(old(View()), r.value, count, true) else old(View())
    {
      if count == 0 || freeFrames < count {
        forall t: nat | FreeRun(View(), t, count)
          ensures CountFree(View()) >= count
        {
          RunCounts(View(), t, count);
        }
        if count > 0 { GrantedIsFirst(View(), count, None); }
        return None;
      }
      ghost var used := View();
      if count == 1 {
        r := AllocateFrame();
        GrantedIsFirst(used, count, r);
        return;
      }
      r := FindRun(count);
      GrantedIsFirst(used, count, r);
      if r.Some? {
        TakeRun(r.value, count);
      }
    }

    method TakeRun(start: nat, count: nat)
      requires Valid() && FreeRun(View(), start, count)
      modifies this`freeFrames, this`usedFrames, bitmap
      ensures Valid() && View() == Fill(old(View()), start, count, true)
    {
      for i := 0 to count
        invariant Valid() && View() == Fill(old(View()), start, i, true)
      {
        FillNext(old(View()), start, i, true);
        FillOne(View(), start + i, true);
        MarkFrameUsed(start + i);
      }
    }

    method DeallocateFrame(f: nat)
      requires Valid()
      modifies this`freeFrames, this`usedFrames, bitmap
      ensures Valid() && View() == Fill(old(View()), f, 1, false)
    {
      FillOne(View(), f, false);
      if f >= totalFrames {
        return;
      }
      var free := IsFrameFree(f);
      if free {
        return;
      }
      MarkFrameFree(f);
    }

    method DeallocateFrames(start: nat, count: nat)
      requires Valid()
      modifies this`freeFrames, this`usedFrames, bitmap
      ensures Valid() && View() == Fill(old(View()), start, count, false)
    {
      for i := 0 to count
        invariant Valid() && View() == Fill(old(View()), start, i, false)
      {
        FillNext(old(View()), start, i, false);
        DeallocateFrame(start + i);
      }
    }

    /** Frees the usable frames of an available area; counts what it keeps back. */
    method ParseArea(a: Area)
      requires Valid()
      modifies this`freeFrames, this`usedFrames, this`reservedFrames, bitmap
      ensures Valid()
      ensures reservedFrames == old(reservedFrames) + Where().ReservedIn(a.available, a.First(), a.Limit())
      ensures View() == if a.available then Where().Opened(old(View()), a.First(), a.Limit()) else old(View())
    {
      if a.available {
        FreeRange(a.First(), a.Limit());
      } else {
        ReserveRange(a.First(), a.Limit());
      }
    }

    method FreeRange(lo: nat, hi: nat)
      requires Valid()
      modifies this`freeFrames, this`usedFrames, this`reservedFrames, bitmap
      ensures Valid() && reservedFrames == old(reservedFrames) + Where().ReservedIn(true, lo, hi)
      ensures View() == Where().Opened(old(View()), lo, hi)
    {
      Where().BootFollows(View(), reservedFrames, lo, hi);
      if lo < hi {
        FreeFrom(lo, hi, Where().Boot(View(), reservedFrames, lo));
      }
    }

    method FreeFrom(lo: nat, hi: nat, ghost outcome: nat -> (Map, nat))
      requires Valid() && lo <= hi && (View(), reservedFrames) == outcome(lo)
      requires forall f :: lo <= f < hi ==> Where().Follows(outcome, f)
      modifies this`freeFrames, this`usedFrames, this`reservedFrames, bitmap
      ensures Valid() && (View(), reservedFrames) == outcome(hi)
    {
      for f := lo to hi
        invariant Valid() && (View(), reservedFrames) == outcome(f)
      {
        assert Where().Follows(outcome, f);
        FreeUsable(f);
      }
    }

    method FreeUsable(f: nat)
      requires Valid()
      modifies this`freeFrames, this`usedFrames, this`reservedFrames, bitmap
      ensures Valid() && (View(), reservedFrames) == Where().After(f, old(View()), old(reservedFrames))
    {
      if !Where().Usable(f) {
        reservedFrames := reservedFrames + 1;
      } else if f < totalFrames {
        MarkFrameFree(f);
      }
    }

    method ReserveRange(lo: nat, hi: nat)
      modifies this`reservedFrames
      ensures reservedFrames == old(reservedFrames) + Where().ReservedIn(false, lo, hi)
    {
      var f := lo;
      while f < hi
        invariant lo <= f && (f <= hi || f == lo)
        invariant reservedFrames == old(reservedFrames) + Where().ReservedIn(false, lo, f)
      {
        if f < totalFrames {
          reservedFrames := reservedFrames + 1;
        }
        f := f + 1;
      }
    }

    /** After boot a frame is free exactly if some available area holds it and it is usable. */
    method ParseMemoryMap(areas: seq<Area>)
      requires Valid()
      modifies this`freeFrames, this`usedFrames, this`reservedFrames, bitmap
      ensures Valid() && reservedFrames == old(reservedFrames) + Where().Reserved(areas)
      ensures Where().Freed(areas, old(View()), View())
      ensures LowKept(old(View())) ==> LowKept(View())
    {
      ghost var used := View();
      for i := 0 to |areas|
        invariant Valid() && reservedFrames == old(reservedFrames) + Where().Reserved(areas[..i])
        invariant Where().Freed(areas[..i], used, View())
      {
        Where().FreedNext(areas, i, used, View());
        ParseArea(areas[i]);
      }
      assert areas[..|areas|] == areas;
      Where().FreedKeepsLow(areas, used, View());
    }

    /**
     The reported figures.  The used count starts at 0 with every frame in use, so it is short by
     `totalFrames`: negative (wrapped around in the source) as soon as any frame is free, and right
     only if there are no frames at all.
     */
    method ReportStats() returns (total: nat, used: int, free: int, reserved: nat)
      requires Valid()
      ensures total == |View()| && free == CountFree(View()) && used == -free && reserved == reservedFrames
      ensures used >= 0 <==> forall f :: 0 <= f < |View()| ==> View()[f]
      ensures used == total - free <==> total == 0
    {
      CountFreeZero(View());
      return totalFrames, usedFrames, freeFrames, reservedFrames;
    }
  }
}
