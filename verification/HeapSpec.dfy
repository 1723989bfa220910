/**
 The kernel heap seen as a list of blocks in address order plus the order in
 which the free list visits them.  No pointers here: `KernelHeap` refines this.
 Statistics are mathematical integers.
 */
module HeapSpec {
  import opened Collections
  import opened Types

  // size_of::<BlockHeader>() on x86-64 without the debug-only allocation id
  const HEADER: nat := 40
  const MIN_ALLOC_SIZE: nat := 16
  const MAX_ALLOC_SIZE: nat := 1024 * 1024
  datatype Block = Block(addr: nat, size: nat, free: bool) {
    function Data(): nat { addr + HEADER }
    function End(): nat { addr + HEADER + size }
  }

  datatype Stats = Stats(
    totalAllocations: nat, totalDeallocations: nat, currentAllocations: int,
    bytesAllocated: nat, bytesDeallocated: nat, currentBytes: int, peakBytes: int, freeBytes: int)

  datatype Heap = Heap(start: nat, size: nat, blocks: seq<Block>, list: seq<nat>, stats: Stats)

  datatype Error = TooLarge | OutOfMemory | InvalidPointer | BadHeader | DoubleFree

  datatype Outcome = Granted(ptr: nat) | Released | Failed(error: Error)

  datatype Op = Alloc(request: nat) | Free(ptr: nat)

  // ---------------------------------------------------------------- operations

  function Need(request: nat): nat {
    if request < MIN_ALLOC_SIZE then MIN_ALLOC_SIZE else request
  }

  function AlignUp(addr: nat): nat {
    (addr + PAGE_SIZE - 1) / PAGE_SIZE * PAGE_SIZE
  }

  /** The size-plus-offset test: the offset is always to the next page boundary. */
  predicate Fits(b: Block, need: nat) {
    b.free && b.size >= need && b.size >= need + (AlignUp(b.Data()) - b.Data())
  }

  predicate Splits(b: Block, need: nat) {
    b.size >= need + HEADER + MIN_ALLOC_SIZE
  }

  /** Index of the block with the given address, |blocks| if there is none. */
  function IndexOf(blocks: seq<Block>, addr: nat): (i: nat)
    ensures i <= |blocks|
    ensures i < |blocks| ==> blocks[i].addr == addr
    ensures forall j :: 0 <= j < i ==> blocks[j].addr != addr
  {
    if blocks == [] then 0
    else if blocks[0].addr == addr then 0
    else 1 + IndexOf(blocks[1..], addr)
  }

  predicate Listed(blocks: seq<Block>, addr: nat) {
    IndexOf(blocks, addr) < |blocks|
  }

  predicate FitsAt(blocks: seq<Block>, addr: nat, need: nat) {
    var i := IndexOf(blocks, addr);
    i < |blocks| && Fits(blocks[i], need)
  }

  /** Position in the free list of the first block that fits, |list| if none does. */
  function FirstFit(blocks: seq<Block>, list: seq<nat>, need: nat): (k: nat)
    ensures k <= |list|
    ensures k < |list| ==> FitsAt(blocks, list[k], need)
    ensures forall j :: 0 <= j < k ==> !FitsAt(blocks, list[j], need)
  {
    if list == [] then 0
    else if FitsAt(blocks, list[0], need) then 0
    else 1 + FirstFit(blocks, list[1..], need)
  }

  function Rest(b: Block, need: nat): Block
    requires Splits(b, need)
  {
    Block(b.addr + HEADER + need, b.size - need - HEADER, true)
  }

  /** split_block: carve `need` bytes off block i, the remainder is a new free block. */
  function SplitBlocks(blocks: seq<Block>, i: nat, need: nat): seq<Block>
    requires i < |blocks|
  {
    var b := blocks[i];
    if Splits(b, need)
    then blocks[..i] + [b.(size := need), Rest(b, need)] + blocks[i + 1..]
    else blocks
  }

  function SplitList(blocks: seq<Block>, list: seq<nat>, i: nat, need: nat): seq<nat>
    requires i < |blocks|
  {
    if Splits(blocks[i], need) then [Rest(blocks[i], need).addr] + list else list
  }

  function MarkUsed(blocks: seq<Block>, i: nat): seq<Block>
    requires i < |blocks|
  {
    blocks[i := blocks[i].(free := false)]
  }

  function Charge(s: Stats, need: nat): Stats {
    var current := s.currentBytes + need;
    s.(totalAllocations := s.totalAllocations + 1, currentAllocations := s.currentAllocations + 1,
       bytesAllocated := s.bytesAllocated + need, currentBytes := current,
       freeBytes := s.freeBytes - need,
       peakBytes := if current > s.peakBytes then current else s.peakBytes)
  }

  function Credit(s: Stats, size: nat): Stats {
    s.(totalDeallocations := s.totalDeallocations + 1, currentAllocations := s.currentAllocations - 1,
       bytesDeallocated := s.bytesDeallocated + size, currentBytes := s.currentBytes - size,
       freeBytes := s.freeBytes + size)
  }

  /** Position in the free list of the block an allocation takes, |list| if it fails. */
  function Choice(h: Heap, request: nat): nat {
    if Need(request) > MAX_ALLOC_SIZE then |h.list| else FirstFit(h.blocks, h.list, Need(request))
  }

  /** Split the k-th listed block if worthwhile, mark it used and take it off the list. */
  function Taken(h: Heap, need: nat, k: nat): Heap
    requires k < |h.list| && Listed(h.blocks, h.list[k])
  {
    var i := IndexOf(h.blocks, h.list[k]);
    var k' := if Splits(h.blocks[i], need) then k + 1 else k;
    h.(blocks := MarkUsed(SplitBlocks(h.blocks, i, need), i),
       list := RemoveAt(SplitList(h.blocks, h.list, i, need), k'))
  }

  function Allocate(h: Heap, request: nat): (Heap, Outcome) {
    var need := Need(request);
    var k := Choice(h, request);
    if need > MAX_ALLOC_SIZE then (h, Failed(TooLarge))
    else if k == |h.list| then (h, Failed(OutOfMemory))
    else (Taken(h, need, k).(stats := Charge(h.stats, need)), Granted(h.list[k] + HEADER))
  }

  /** An address of some block's data: what deallocate's unsafe contract demands, double frees included. */
  predicate Names(h: Heap, ptr: nat) {
    ptr >= HEADER && Listed(h.blocks, ptr - HEADER)
  }

  /** A header that belongs to no block is put on the free list all the same. */
  function Adopted(h: Heap, addr: nat, size: nat): Heap {
    h.(list := [addr] + h.list, stats := Credit(h.stats, size))
  }

  function Deallocate(h: Heap, ptr: nat): (Heap, Outcome)
    requires Names(h, ptr)
  {
    var i := IndexOf(h.blocks, ptr - HEADER);
    var b := h.blocks[i];
    if b.free then (h, Failed(DoubleFree))
    else (h.(blocks := h.blocks[i := b.(free := true)], list := [b.addr] + h.list,
             stats := Credit(h.stats, b.size)),
          Released)
  }

  const NO_STATS := Stats(0, 0, 0, 0, 0, 0, 0, 0)

  /** One free block over the whole range.  Of the counters only the free bytes are set; address 0 is no list head. */
  function Reset(stats: Stats, start: nat, pages: nat): Heap
    requires pages > 0
  {
    var size := pages * PAGE_SIZE;
    Heap(start, size, [Block(start, size - HEADER, true)], if start == 0 then [] else [start],
         stats.(freeBytes := size - HEADER))
  }

  /** The heap after its first initialisation. */
  function Init(start: nat, pages: nat): Heap
    requires pages > 0
  {
    var size := pages * PAGE_SIZE;
    Heap(start, size, [Block(start, size - HEADER, true)], [start], NO_STATS.(freeBytes := size - HEADER))
  }

  predicate Legal(h: Heap, op: Op) {
    op.Free? ==> Names(h, op.ptr)
  }

  function Step(h: Heap, op: Op): Heap
    requires Legal(h, op)
  {
    match op
    case Alloc(request) => Allocate(h, request).0
    case Free(ptr) => Deallocate(h, ptr).0
  }

  predicate LegalRun(h: Heap, ops: seq<Op>)
    decreases |ops|
  {
    ops == [] || (Legal(h, ops[0]) && LegalRun(Step(h, ops[0]), ops[1..]))
  }

  function Run(h: Heap, ops: seq<Op>): Heap
    requires LegalRun(h, ops)
    decreases |ops|
  {
    if ops == [] then h else Run(Step(h, ops[0]), ops[1..])
  }

  // ---------------------------------------------------------------- invariant

  /** The blocks follow each other without gap or overlap from `from` to `to`. */
  ghost predicate Tiled(blocks: seq<Block>, from: nat, to: nat) {
    if blocks == [] then from == to
    else blocks[0].addr == from && Tiled(blocks[1..], blocks[0].End(), to)
  }

  ghost function Sum(blocks: seq<Block>, w: Block -> int): int {
    if blocks == [] then 0 else w(blocks[0]) + Sum(blocks[1..], w)
  }

  function FreeSize(b: Block): int { if b.free then b.size else 0 }
  function LiveSize(b: Block): int { if b.free then 0 else b.size }
  function LiveOne(b: Block): int { if b.free then 0 else 1 }

  ghost predicate FreeAt(blocks: seq<Block>, addr: nat) {
    exists i :: 0 <= i < |blocks| && blocks[i].addr == addr && blocks[i].free
  }

  /** The list visits every free block exactly once and nothing else. */
  ghost predicate ListsFree(blocks: seq<Block>, list: seq<nat>) {
    && Distinct(list)
    && forall a :: a in list <==> FreeAt(blocks, a)
  }

  /** Bytes the statistics have lost to allocations that kept a larger block than they were charged for. */
  ghost function Waste(h: Heap): int {
    h.stats.freeBytes - Sum(h.blocks, FreeSize) - HEADER * (|h.blocks| - 1)
  }

  ghost predicate Inv(h: Heap) {
    && h.size >= HEADER
    && Tiled(h.blocks, h.start, h.start + h.size)
    && ListsFree(h.blocks, h.list)
    && Waste(h) >= 0
    && h.stats.currentBytes + h.stats.freeBytes == h.size - HEADER
    && h.stats.currentAllocations == Sum(h.blocks, LiveOne)
    && h.stats.totalAllocations - h.stats.totalDeallocations == h.stats.currentAllocations
    && h.stats.bytesAllocated - h.stats.bytesDeallocated == h.stats.currentBytes
    && h.stats.peakBytes >= h.stats.currentBytes
  }

  // ---------------------------------------------------------------- tiling

  lemma {:induction false} TiledConcat(a: seq<Block>, b: seq<Block>, from: nat, mid: nat, to: nat)
    requires Tiled(a, from, mid) && Tiled(b, mid, to)
    ensures Tiled(a + b, from, to)
  {
    if a == [] {
      assert a + b == b;
    } else {
      TiledConcat(a[1..], b, a[0].End(), mid, to);
      assert (a + b)[1..] == a[1..] + b;
    }
  }

  lemma {:induction false} TiledPrefix(blocks: seq<Block>, i: nat, from: nat, to: nat)
    requires i < |blocks| && Tiled(blocks, from, to)
    ensures Tiled(blocks[..i], from, blocks[i].addr)
    ensures Tiled(blocks[i..], blocks[i].addr, to)
    ensures Tiled(blocks[i + 1..], blocks[i].End(), to)
  {
    if i == 0 {
      assert blocks[0..] == blocks;
    } else {
      TiledPrefix(blocks[1..], i - 1, blocks[0].End(), to);
      assert blocks[1..][..i - 1] == blocks[..i][1..];
      assert blocks[1..][i - 1..] == blocks[i..];
      assert blocks[1..][i..] == blocks[i + 1..];
    }
  }

  /** In a tiling, earlier blocks end before later ones begin, and all lie inside the heap. */
  lemma {:induction false} TilingOrdered(blocks: seq<Block>, from: nat, to: nat)
    requires Tiled(blocks, from, to)
    ensures from <= to
    ensures forall i :: 0 <= i < |blocks| ==> from <= blocks[i].addr && blocks[i].End() <= to
    ensures forall i, j :: 0 <= i < j < |blocks| ==> blocks[i].End() <= blocks[j].addr
  {
    if blocks == [] {
    } else {
      TilingOrdered(blocks[1..], blocks[0].End(), to);
      forall i, j | 0 <= i < j < |blocks|
        ensures blocks[i].End() <= blocks[j].addr
      {
        assert blocks[j] == blocks[1..][j - 1];
        if i > 0 { assert blocks[i] == blocks[1..][i - 1]; }
      }
      forall i | 0 <= i < |blocks|
        ensures from <= blocks[i].addr && blocks[i].End() <= to
      {
        if i > 0 { assert blocks[i] == blocks[1..][i - 1]; }
      }
    }
  }

  lemma IndexOfUnique(blocks: seq<Block>, from: nat, to: nat, i: nat)
    requires Tiled(blocks, from, to) && i < |blocks|
    ensures IndexOf(blocks, blocks[i].addr) == i
  {
    TilingOrdered(blocks, from, to);
  }

  /** Every byte of the heap belongs to exactly one block. */
  lemma {:induction false} TilingCovers(blocks: seq<Block>, from: nat, to: nat, x: nat)
    returns (i: nat)
    requires Tiled(blocks, from, to) && from <= x < to
    ensures i < |blocks| && blocks[i].addr <= x < blocks[i].End()
    ensures forall j :: 0 <= j < |blocks| && blocks[j].addr <= x < blocks[j].End() ==> j == i
  {
    TilingOrdered(blocks, from, to);
    if x < blocks[0].End() {
      i := 0;
    } else {
      var r := TilingCovers(blocks[1..], blocks[0].End(), to, x);
      i := r + 1;
      assert blocks[i] == blocks[1..][r];
    }
  }

  /** Replacing block i by a tiling of the same range keeps the tiling. */
  lemma TiledReplace(blocks: seq<Block>, i: nat, from: nat, to: nat, mid: seq<Block>)
    requires i < |blocks| && Tiled(blocks, from, to)
    requires Tiled(mid, blocks[i].addr, blocks[i].End())
    ensures Tiled(blocks[..i] + mid + blocks[i + 1..], from, to)
  {
    TiledPrefix(blocks, i, from, to);
    TiledConcat(blocks[..i], mid, from, blocks[i].addr, blocks[i].End());
    TiledConcat(blocks[..i] + mid, blocks[i + 1..], from, blocks[i].End(), to);
  }

  // ---------------------------------------------------------------- sums

  lemma {:induction false} SumConcat(a: seq<Block>, b: seq<Block>, w: Block -> int)
    ensures Sum(a + b, w) == Sum(a, w) + Sum(b, w)
  {
    if a == [] {
      assert a + b == b;
    } else {
      SumConcat(a[1..], b, w);
      assert (a + b)[1..] == a[1..] + b;
    }
  }

  lemma SumSmall(b: Block, c: Block, w: Block -> int)
    ensures Sum([b], w) == w(b)
    ensures Sum([b, c], w) == w(b) + w(c)
  {
    assert [b][1..] == [] && [c][1..] == [];
    assert Sum([c], w) == w(c);
    assert [b, c][1..] == [c];
  }

  lemma SumReplace(blocks: seq<Block>, i: nat, mid: seq<Block>, w: Block -> int)
    requires i < |blocks|
    ensures Sum(blocks[..i] + mid + blocks[i + 1..], w) == Sum(blocks, w) - w(blocks[i]) + Sum(mid, w)
  {
    SumConcat(blocks[..i] + mid, blocks[i + 1..], w);
    SumConcat(blocks[..i], mid, w);
    SumConcat(blocks[..i], blocks[i..], w);
    assert blocks == blocks[..i] + blocks[i..];
    assert blocks[i..][1..] == blocks[i + 1..];
  }

  /** Headers, free bytes and live bytes together fill the heap. */
  lemma {:induction false} SpanLaw(blocks: seq<Block>, from: nat, to: nat)
    requires Tiled(blocks, from, to)
    ensures Sum(blocks, FreeSize) + Sum(blocks, LiveSize) + HEADER * |blocks| == to - from
  {
    if blocks == [] {
    } else {
      SpanLaw(blocks[1..], blocks[0].End(), to);
    }
  }

  lemma {:induction false} SumNonNegative(blocks: seq<Block>)
    ensures Sum(blocks, FreeSize) >= 0 && Sum(blocks, LiveSize) >= 0 && Sum(blocks, LiveOne) >= 0
    ensures forall i :: 0 <= i < |blocks| && blocks[i].free ==> blocks[i].size <= Sum(blocks, FreeSize)
  {
    if blocks == [] {
    } else {
      SumNonNegative(blocks[1..]);
      forall i | 0 <= i < |blocks| && blocks[i].free
        ensures blocks[i].size <= Sum(blocks, FreeSize)
      {
        if i > 0 { assert blocks[i] == blocks[1..][i - 1]; }
      }
    }
  }
}
