/**
 The pointer-level allocator: headers in memory, next/prev links rewritten in place.
 `view` is the abstract heap these pointers represent; every method is proved against `HeapSpec`.
 */
module KernelHeaps {
  import opened Collections
  import opened Types
  import opened HeapSpec
  import HeapRuns

  const HEAP_MAGIC: nat := 0xDEADBEEF
  const MAX_CHECKED: nat := 10000

  datatype Header = Header(magic: nat, size: nat, next: Option<nat>, prev: Option<nat>, isFree: bool)

  datatype InitError = ZeroSize | NoPhysicalMemory

  datatype HeapFault = BadMagic | NotFree | OutOfBounds | PossiblyCircular

  type Memory = map<nat, Header>

  ghost predicate HeaderAt(mem: Memory, b: Block) {
    b.addr in mem && mem[b.addr].magic == HEAP_MAGIC && mem[b.addr].size == b.size && mem[b.addr].isFree == b.free
  }

  ghost predicate Headers(mem: Memory, blocks: seq<Block>) {
    forall b :: b in blocks ==> HeaderAt(mem, b)
  }

  ghost predicate NodeAt(mem: Memory, list: seq<nat>, k: int) {
    0 <= k < |list| ==>
      && list[k] in mem
      && mem[list[k]].next == (if k + 1 < |list| then Some(list[k + 1]) else None)
      && mem[list[k]].prev == (if k > 0 then Some(list[k - 1]) else None)
  }

  /** The links spell out exactly the given sequence of distinct blocks, forwards and backwards. */
  ghost predicate Linked(mem: Memory, head: Option<nat>, list: seq<nat>) {
    && Distinct(list)
    && head == (if list == [] then None else Some(list[0]))
    && forall k {:trigger NodeAt(mem, list, k)} :: NodeAt(mem, list, k)
  }

  /** Two memories that differ in links only. */
  ghost predicate SameData(mem: Memory, mem': Memory) {
    && mem.Keys == mem'.Keys
    && forall a :: a in mem ==>
         mem[a].magic == mem'[a].magic && mem[a].size == mem'[a].size && mem[a].isFree == mem'[a].isFree
  }

  lemma HeadersFollowData(mem: Memory, mem': Memory, blocks: seq<Block>)
    requires Headers(mem, blocks) && SameData(mem, mem')
    ensures Headers(mem', blocks)
  {}

  /** Rewriting the flag of one header rewrites the flag of one block. */
  lemma FlagHeaders(mem: Memory, blocks: seq<Block>, i: nat, free: bool, from: nat, to: nat)
    requires Tiled(blocks, from, to) && Headers(mem, blocks) && i < |blocks|
    ensures blocks[i].addr in mem
    ensures Headers(mem[blocks[i].addr := mem[blocks[i].addr].(isFree := free)], blocks[i := blocks[i].(free := free)])
  {
    TilingOrdered(blocks, from, to);
    assert blocks[i] in blocks;
    var blocks' := blocks[i := blocks[i].(free := free)];
    var mem' := mem[blocks[i].addr := mem[blocks[i].addr].(isFree := free)];
    forall b | b in blocks'
      ensures HeaderAt(mem', b)
    {
      var j :| 0 <= j < |blocks'| && blocks'[j] == b;
      assert blocks[j] in blocks;
    }
  }

  lemma FlagKeepsLinks(mem: Memory, head: Option<nat>, list: seq<nat>, block: nat, free: bool)
    requires Linked(mem, head, list) && block in mem
    ensures Linked(mem[block := mem[block].(isFree := free)], head, list)
  {
    var mem' := mem[block := mem[block].(isFree := free)];
    forall k
      ensures NodeAt(mem', list, k)
    {
      assert NodeAt(mem, list, k);
    }
  }

  lemma SplitTiled(blocks: seq<Block>, i: nat, need: nat, from: nat, to: nat)
    requires Tiled(blocks, from, to) && i < |blocks|
    ensures Tiled(SplitBlocks(blocks, i, need), from, to)
    ensures |SplitBlocks(blocks, i, need)| > i && SplitBlocks(blocks, i, need)[i].addr == blocks[i].addr
  {
    if Splits(blocks[i], need) {
      TiledReplace(blocks, i, from, to, [blocks[i].(size := need), Rest(blocks[i], need)]);
    }
  }

  lemma SplitMembers(blocks: seq<Block>, i: nat, need: nat, from: nat, to: nat, b: Block)
    requires Tiled(blocks, from, to) && i < |blocks| && Splits(blocks[i], need)
    requires b in SplitBlocks(blocks, i, need)
    ensures b == blocks[i].(size := need) || b == Rest(blocks[i], need) || (b in blocks && b.addr != blocks[i].addr)
  {
    TilingOrdered(blocks, from, to);
    if b in blocks[..i] {
      var j :| 0 <= j < i && blocks[j] == b;
    } else if b in blocks[i + 1..] {
      var j :| i < j < |blocks| && blocks[j] == b;
    }
  }

  /** The header written by a split is at an address no block had. */
  lemma RestIsNew(blocks: seq<Block>, i: nat, need: nat, from: nat, to: nat, b: Block)
    requires Tiled(blocks, from, to) && i < |blocks| && Splits(blocks[i], need) && b in blocks
    ensures b.addr != Rest(blocks[i], need).addr
  {
    TilingOrdered(blocks, from, to);
    var j :| 0 <= j < |blocks| && blocks[j] == b;
  }

  /** A header for the remainder, and the block cut short. */
  ghost function SplitMemory(mem: Memory, block: Block, need: nat, rest: Block): Memory
    requires block.addr in mem
  {
    mem[rest.addr := Header(HEAP_MAGIC, rest.size, None, None, true)][block.addr := mem[block.addr].(size := need)]
  }

  lemma SplitHeaders(mem: Memory, blocks: seq<Block>, i: nat, need: nat, from: nat, to: nat)
    requires Tiled(blocks, from, to) && Headers(mem, blocks) && i < |blocks| && Splits(blocks[i], need)
    ensures blocks[i].addr in mem
    ensures var rest := Rest(blocks[i], need);
            && (forall b :: b in blocks ==> b.addr != rest.addr)
            && Headers(SplitMemory(mem, blocks[i], need, rest), SplitBlocks(blocks, i, need))
  {
    assert blocks[i] in blocks;
    var rest, blocks' := Rest(blocks[i], need), SplitBlocks(blocks, i, need);
    forall b | b in blocks
      ensures b.addr != rest.addr
    {
      RestIsNew(blocks, i, need, from, to, b);
    }
    var mem' := SplitMemory(mem, blocks[i], need, rest);
    forall b | b in blocks'
      ensures HeaderAt(mem', b)
    {
      SplitMembers(blocks, i, need, from, to, b);
    }
  }

  lemma SplitKeepsLinks(mem: Memory, head: Option<nat>, list: seq<nat>, block: nat, extra: nat,
                        header: Header, size: nat)
    requires Linked(mem, head, list) && block in mem && extra !in list && extra != block
    ensures Linked(mem[extra := header][block := mem[block].(size := size)], head, list)
  {
    var mem' := mem[extra := header][block := mem[block].(size := size)];
    forall k
      ensures NodeAt(mem', list, k)
    {
      assert NodeAt(mem, list, k);
    }
  }

  function NextSet(mem: Memory, a: Option<nat>, next: Option<nat>): Memory {
    if a.Some? && a.value in mem then mem[a.value := mem[a.value].(next := next)] else mem
  }

  function PrevSet(mem: Memory, a: Option<nat>, prev: Option<nat>): Memory {
    if a.Some? && a.value in mem then mem[a.value := mem[a.value].(prev := prev)] else mem
  }

  /** Memory after the neighbours of a block have been joined and its own links cleared. */
  function Unlinked(mem: Memory, block: nat): Memory
    requires block in mem
  {
    var joined := NextSet(mem, mem[block].prev, mem[block].next);
    var both := PrevSet(joined, joined[block].next, joined[block].prev);
    both[block := both[block].(next := None, prev := None)]
  }

  lemma UnlinkedData(mem: Memory, head: Option<nat>, list: seq<nat>, k: nat)
    requires Linked(mem, head, list) && k < |list|
    ensures list[k] in mem && SameData(mem, Unlinked(mem, list[k]))
  {
    assert NodeAt(mem, list, k);
  }

  lemma UnlinkedNode(mem: Memory, head: Option<nat>, list: seq<nat>, k: nat, j: int)
    requires Linked(mem, head, list) && k < |list|
    ensures list[k] in mem && NodeAt(Unlinked(mem, list[k]), RemoveAt(list, k), j)
  {
    assert NodeAt(mem, list, k - 1) && NodeAt(mem, list, k) && NodeAt(mem, list, k + 1);
    assert NodeAt(mem, list, j) && NodeAt(mem, list, j + 1);
  }

  lemma UnlinkedLinked(mem: Memory, head: Option<nat>, list: seq<nat>, k: nat)
    requires Linked(mem, head, list) && k < |list|
    ensures list[k] in mem
    ensures Linked(Unlinked(mem, list[k]), if k == 0 then mem[list[0]].next else head, RemoveAt(list, k))
  {
    assert NodeAt(mem, list, k);
    var mem', list' := Unlinked(mem, list[k]), RemoveAt(list, k);
    forall j
      ensures NodeAt(mem', list', j)
    {
      UnlinkedNode(mem, head, list, k, j);
    }
    RemoveAtKeepsDistinct(list, k);
  }

  lemma AllocationMade(h: Heap, request: nat, k: nat, h': Heap)
    requires Need(request) <= MAX_ALLOC_SIZE && k == FirstFit(h.blocks, h.list, Need(request)) < |h.list|
    requires h' == Taken(h, Need(request), k).(stats := Charge(h.stats, Need(request)))
    ensures HeapSpec.Allocate(h, request) == (h', Granted(h.list[k] + HEADER))
  {}

  /** A block in use is on no list of free blocks. */
  lemma UsedNotListed(blocks: seq<Block>, list: seq<nat>, i: nat, from: nat, to: nat)
    requires Tiled(blocks, from, to) && ListsFree(blocks, list) && i < |blocks| && !blocks[i].free
    ensures blocks[i].addr !in list
  {
    TilingOrdered(blocks, from, to);
    assert !FreeAt(blocks, blocks[i].addr);
  }

  /** The blocks with the one at this address marked free, if there is one. */
  ghost function Freed(blocks: seq<Block>, addr: nat): seq<Block> {
    var i := IndexOf(blocks, addr);
    if i < |blocks| then blocks[i := blocks[i].(free := true)] else blocks
  }

  /** The heap a valid allocator holds: sound, or none yet. */
  ghost predicate HeapOk(h: Heap) {
    if h.size == 0 then h.blocks == [] && h.list == [] && h.stats == NO_STATS else h.start > 0 && Inv(h)
  }

  lemma FreedInMemory(mem: Memory, head: Option<nat>, h: Heap, addr: nat, header: Header)
    requires HeapOk(h) && Headers(mem, h.blocks) && Linked(mem, head, h.list)
    requires header.magic == HEAP_MAGIC && !header.isFree && (addr in mem ==> header == mem[addr])
    ensures var mem' := mem[addr := header.(isFree := true)];
            Headers(mem', Freed(h.blocks, addr)) && Linked(mem', head, h.list) && addr !in h.list
  {
    var i := IndexOf(h.blocks, addr);
    if i < |h.blocks| {
      assert h.blocks[i] in h.blocks;
      FlagHeaders(mem, h.blocks, i, true, h.start, h.start + h.size);
      FlagKeepsLinks(mem, head, h.list, addr, true);
      UsedNotListed(h.blocks, h.list, i, h.start, h.start + h.size);
    } else {
      assert addr !in h.list by {
        if h.size > 0 { assert !FreeAt(h.blocks, addr); }
      }
      StrangerKeepsHeaders(mem, h.blocks, addr, header.(isFree := true));
      StrangerKeepsLinks(mem, head, h.list, addr, header.(isFree := true));
    }
  }

  lemma StrangerKeepsHeaders(mem: Memory, blocks: seq<Block>, addr: nat, header: Header)
    requires Headers(mem, blocks) && !Listed(blocks, addr)
    ensures Headers(mem[addr := header], blocks)
  {
    forall b | b in blocks
      ensures HeaderAt(mem[addr := header], b)
    {
      var j :| 0 <= j < |blocks| && blocks[j] == b;
      assert b.addr != addr;
    }
  }

  lemma StrangerKeepsLinks(mem: Memory, head: Option<nat>, list: seq<nat>, addr: nat, header: Header)
    requires Linked(mem, head, list) && addr !in list
    ensures Linked(mem[addr := header], head, list)
  {
    var mem' := mem[addr := header];
    forall k
      ensures NodeAt(mem', list, k)
    {
      assert NodeAt(mem, list, k);
    }
  }

  /** Marking, crediting and listing is a deallocation for a live block, and unsound for an address of none. */
  lemma ReleaseMeans(h: Heap, addr: nat, size: nat)
    requires HeapOk(h)
    requires Listed(h.blocks, addr) ==>
               var b := h.blocks[IndexOf(h.blocks, addr)]; !b.free && b.size == size
    ensures var h' := h.(blocks := Freed(h.blocks, addr), list := [addr] + h.list, stats := Credit(h.stats, size));
            && (HeapOk(h') <==> Listed(h.blocks, addr))
            && h' == if Listed(h.blocks, addr) then HeapSpec.Deallocate(h, addr + HEADER).0 else Adopted(h, addr, size)
  {
    if Listed(h.blocks, addr) {
      HeapRuns.DeallocateKeepsInv(h, addr + HEADER);
    } else {
      HeapRuns.AdoptedIsUnsound(h, addr, size);
    }
  }

  class KernelHeap {
    var mem: Memory
    var heapStart: nat
    var heapSize: nat
    var freeHead: Option<nat>
    var stats: Stats
    ghost var view: Heap

    /** Pointers, headers and counters are those of `view`. */
    ghost predicate Represents()
      reads this
    {
      && view.start == heapStart && view.size == heapSize && view.stats == stats
      && Headers(mem, view.blocks)
      && Linked(mem, freeHead, view.list)
    }

    ghost predicate Valid()
      reads this
    {
      Represents() && HeapOk(view)
    }

    constructor ()
      ensures Valid() && heapSize == 0
    {
      mem := map[];
      heapStart, heapSize := 0, 0;
      freeHead := None;
      stats := NO_STATS;
      view := Heap(0, 0, [], [], NO_STATS);
    }

    /**
     `frame` is what the frame allocator returned.  The counters survive a second initialisation, so it is
     sound exactly when nothing was outstanding; frame 0 leaves the free list without a head.
     */
    method Init(pages: nat, frame: Option<nat>) returns (error: Option<InitError>)
      requires Valid()
      modifies this
      ensures error == (if pages == 0 then Some(ZeroSize) else if frame.None? then Some(NoPhysicalMemory) else None)
      ensures error.Some? ==> Valid() && view == old(view)
      ensures error.None? ==> Represents() && view == Reset(old(stats), frame.value * PAGE_SIZE, pages)
      ensures error.None? ==>
                (Valid() <==> frame.value > 0 && old(stats).currentAllocations == 0 && old(stats).currentBytes == 0)
      ensures error.None? && old(heapSize) == 0 && frame.value > 0 ==>
                Valid() && view == HeapSpec.Init(frame.value * PAGE_SIZE, pages)
    {
      if pages == 0 {
        return Some(ZeroSize);
      }
      if frame.None? {
        return Some(NoPhysicalMemory);
      }
      HeapRuns.ResetInvIff(stats, frame.value * PAGE_SIZE, pages);
      heapStart := frame.value * PAGE_SIZE;
      heapSize := pages * PAGE_SIZE;
      var initialSize := heapSize - HEADER;
      mem := mem[heapStart := Header(HEAP_MAGIC, initialSize, None, None, true)];
      freeHead := if heapStart == 0 then None else Some(heapStart);
      view := Reset(stats, heapStart, pages);
      stats := stats.(freeBytes := initialSize);
      return None;
    }

    method FindFreeBlock(need: nat) returns (found: Option<nat>, ghost k: nat)
      requires Valid()
      ensures k == FirstFit(view.blocks, view.list, need)
      ensures var first := FirstFit(view.blocks, view.list, need);
              found == if first < |view.list| then Some(view.list[first]) else None
    {
      var current := freeHead;
      k := 0;
      while current.Some?
        invariant k <= |view.list|
        invariant current == (if k < |view.list| then Some(view.list[k]) else None)
        invariant forall j :: 0 <= j < k ==> !FitsAt(view.blocks, view.list[j], need)
        decreases |view.list| - k
      {
        var block := current.value;
        assert NodeAt(mem, view.list, k);
        ghost var i := ListedBlock(k);
        var header := mem[block];
        if header.isFree && header.size >= need {
          var data := block + HEADER;
          var offset := AlignUp(data) - data;
          if header.size >= need + offset {
            return Some(block), k;
          }
        }
        current := header.next;
        k := k + 1;
      }
      return None, k;
    }

    /** The k-th listed block and its header. */
    ghost function ListedBlock(k: nat): (i: nat)
      requires Valid() && k < |view.list|
      reads this
      ensures i == IndexOf(view.blocks, view.list[k]) < |view.blocks|
      ensures view.blocks[i].free && HeaderAt(mem, view.blocks[i])
    {
      assert view.list[k] in view.list;
      assert FreeAt(view.blocks, view.list[k]);
      var j :| 0 <= j < |view.blocks| && view.blocks[j].addr == view.list[k] && view.blocks[j].free;
      IndexOfUnique(view.blocks, view.start, view.start + view.size, j);
      assert view.blocks[j] in view.blocks;
      j
    }

    /** Push a block on the front of the free list. */
    method AddToFreeList(block: nat)
      requires Linked(mem, freeHead, view.list) && block in mem && block !in view.list
      modifies this`mem, this`freeHead, this`view
      ensures view == old(view).(list := [block] + old(view).list)
      ensures Linked(mem, freeHead, view.list) && SameData(old(mem), mem)
    {
      mem := mem[block := mem[block].(next := freeHead, prev := None)];
      if freeHead.Some? {
        var head := freeHead.value;
        assert NodeAt(old(mem), old(view).list, 0);
        mem := mem[head := mem[head].(prev := Some(block))];
      }
      freeHead := Some(block);
      ghost var list, list' := view.list, [block] + view.list;
      forall k
        ensures NodeAt(mem, list', k)
      {
        assert NodeAt(old(mem), list, k - 1);
      }
      view := view.(list := list');
    }

    /** Unlink the k-th block of the free list. */
    method RemoveFromFreeList(block: nat, ghost k: nat)
      requires Linked(mem, freeHead, view.list) && k < |view.list| && view.list[k] == block
      modifies this`mem, this`freeHead, this`view
      ensures view == old(view).(list := RemoveAt(old(view).list, k))
      ensures Linked(mem, freeHead, view.list) && SameData(old(mem), mem)
    {
      assert NodeAt(mem, view.list, k - 1) && NodeAt(mem, view.list, k) && NodeAt(mem, view.list, k + 1);
      UnlinkedLinked(mem, freeHead, view.list, k);
      UnlinkedData(mem, freeHead, view.list, k);
      if mem[block].prev.Some? {
        var prev := mem[block].prev.value;
        mem := mem[prev := mem[prev].(next := mem[block].next)];
      } else {
        freeHead := mem[block].next;
      }
      if mem[block].next.Some? {
        var next := mem[block].next.value;
        mem := mem[next := mem[next].(prev := mem[block].prev)];
      }
      mem := mem[block := mem[block].(next := None, prev := None)];
      view := view.(list := RemoveAt(view.list, k));
    }

    /** Cut `need` bytes off block i and list the remainder, if it is large enough to be one. */
    method SplitBlock(block: nat, need: nat, ghost i: nat)
      requires Valid() && heapSize > 0
      requires i < |view.blocks| && block == view.blocks[i].addr && view.blocks[i].size >= need
      modifies this`mem, this`freeHead, this`view
      ensures Represents()
      ensures view == old(view).(blocks := SplitBlocks(old(view).blocks, i, need),
                                 list := SplitList(old(view).blocks, old(view).list, i, need))
    {
      ghost var blocks := view.blocks;
      assert blocks[i] in blocks;
      var total := mem[block].size;
      if total >= need + HEADER + MIN_ALLOC_SIZE {
        var remaining := total - need - HEADER;
        var newBlock := block + HEADER + need;
        ghost var blocks' := SplitBlocks(blocks, i, need);
        SplitHeaders(mem, blocks, i, need, view.start, view.start + view.size);
        var header := Header(HEAP_MAGIC, remaining, None, None, true);
        SplitKeepsLinks(mem, freeHead, view.list, block, newBlock, header, need);
        mem := mem[newBlock := header];
        mem := mem[block := mem[block].(size := need)];
        view := view.(blocks := blocks');
        ghost var split := mem;
        AddToFreeList(newBlock);
        HeadersFollowData(split, mem, blocks');
      }
    }

    /** Split the k-th listed block if worthwhile, mark it used and unlink it. */
    method Take(block: nat, need: nat, ghost k: nat)
      requires Valid() && heapSize > 0 && k < |view.list| && block == view.list[k] && FitsAt(view.blocks, block, need)
      modifies this`mem, this`freeHead, this`view
      ensures Represents()
      ensures view == Taken(old(view), need, k)
    {
      ghost var i := ListedBlock(k);
      ghost var k' := if Splits(view.blocks[i], need) then k + 1 else k;
      SplitTiled(view.blocks, i, need, view.start, view.start + view.size);
      SplitBlock(block, need, i);
      assert view.list[k'] == block;
      FlagHeaders(mem, view.blocks, i, false, view.start, view.start + view.size);
      FlagKeepsLinks(mem, freeHead, view.list, block, false);
      mem := mem[block := mem[block].(isFree := false)];
      view := view.(blocks := MarkUsed(view.blocks, i));
      RemoveFromFreeList(block, k');
    }

    method Allocate(request: nat) returns (result: Outcome)
      requires Valid()
      modifies this
      ensures Valid()
      ensures (view, result) == HeapSpec.Allocate(old(view), request)
    {
      var need := if request < MIN_ALLOC_SIZE then MIN_ALLOC_SIZE else request;
      if need > MAX_ALLOC_SIZE {
        return Failed(TooLarge);
      }
      var found, k := FindFreeBlock(need);
      if found.None? {
        return Failed(OutOfMemory);
      }
      var block := found.value;
      ghost var before := view;
      assert heapSize > 0;
      Take(block, need, k);
      ChargeAllocation(need);
      AllocationMade(before, request, k, view);
      HeapRuns.AllocateKeepsInv(before, request);
      return Granted(block + HEADER);
    }

    method ChargeAllocation(need: nat)
      requires Represents()
      modifies this`stats, this`view
      ensures Represents() && view == old(view).(stats := Charge(old(view).stats, need))
    {
      stats := stats.(totalAllocations := stats.totalAllocations + 1,
                      currentAllocations := stats.currentAllocations + 1,
                      bytesAllocated := stats.bytesAllocated + need, currentBytes := stats.currentBytes + need,
                      freeBytes := stats.freeBytes - need);
      if stats.currentBytes > stats.peakBytes {
        stats := stats.(peakBytes := stats.currentBytes);
      }
      view := view.(stats := stats);
    }

    /**
     `found` is what memory holds where the header should be.  If it has the magic number but belongs to no
     block, it is listed as free all the same and the heap is no longer sound.
     */
    method Deallocate(ptr: nat, found: Header) returns (result: Outcome)
      requires Valid() && ptr >= HEADER && (ptr - HEADER in mem ==> found == mem[ptr - HEADER])
      modifies this
      ensures Represents() && (Valid() <==> (result.Released? ==> Names(old(view), ptr)))
      ensures (view, result) == if ptr == HEADER then (old(view), Failed(InvalidPointer))
                                else if found.magic != HEAP_MAGIC then (old(view), Failed(BadHeader))
                                else if Names(old(view), ptr) then HeapSpec.Deallocate(old(view), ptr)
                                else if found.isFree then (old(view), Failed(DoubleFree))
                                else (Adopted(old(view), ptr - HEADER, found.size), Released)
      ensures Names(old(view), ptr) ==> (view, result) == HeapSpec.Deallocate(old(view), ptr)
    {
      var block := ptr - HEADER;
      if Names(view, ptr) { NamedBlock(ptr); }
      if block == 0 {
        return Failed(InvalidPointer);
      }
      if found.magic != HEAP_MAGIC {
        return Failed(BadHeader);
      }
      if found.isFree {
        return Failed(DoubleFree);
      }
      Release(block, found);
      return Released;
    }

    /** A pointer to a block's data comes after that block's header. */
    ghost method NamedBlock(ptr: nat)
      requires Valid() && Names(view, ptr)
      ensures ptr > HEADER && heapSize > 0
      ensures HeaderAt(mem, view.blocks[IndexOf(view.blocks, ptr - HEADER)])
    {
      TilingOrdered(view.blocks, view.start, view.start + view.size);
      assert view.blocks[IndexOf(view.blocks, ptr - HEADER)] in view.blocks;
    }

    /** Mark the header free, credit its size and list it: a block of this heap, or a header that is none's. */
    method Release(block: nat, header: Header)
      requires Valid() && header.magic == HEAP_MAGIC && !header.isFree && (block in mem ==> header == mem[block])
      modifies this
      ensures Represents() && (Valid() <==> Names(old(view), block + HEADER))
      ensures view == if Names(old(view), block + HEADER) then HeapSpec.Deallocate(old(view), block + HEADER).0
                      else Adopted(old(view), block, header.size)
    {
      ghost var before, blocks := view, Freed(view.blocks, block);
      if Names(view, block + HEADER) { NamedBlock(block + HEADER); }
      FreedInMemory(mem, freeHead, view, block, header);
      ReleaseMeans(before, block, header.size);
      mem := mem[block := header.(isFree := true)];
      CreditRelease(header.size);
      view := view.(blocks := blocks);
      ghost var freed := mem;
      AddToFreeList(block);
      HeadersFollowData(freed, mem, blocks);
    }

    method CreditRelease(size: nat)
      requires view.stats == stats
      modifies this`stats, this`view
      ensures view == old(view).(stats := stats) && stats == Credit(old(stats), size)
    {
      stats := stats.(totalDeallocations := stats.totalDeallocations + 1,
                      currentAllocations := stats.currentAllocations - 1,
                      bytesDeallocated := stats.bytesDeallocated + size, currentBytes := stats.currentBytes - size,
                      freeBytes := stats.freeBytes + size);
      view := view.(stats := stats);
    }

    /** The integrity walk succeeds in every reachable state with at most 10000 free blocks, and only then. */
    method ValidateHeap() returns (fault: Option<HeapFault>)
      requires Valid()
      ensures fault == (if |view.list| <= MAX_CHECKED then None else Some(PossiblyCircular))
    {
      var current := freeHead;
      var checked := 0;
      while current.Some?
        invariant checked <= |view.list| && checked <= MAX_CHECKED
        invariant current == (if checked < |view.list| then Some(view.list[checked]) else None)
        decreases |view.list| - checked
      {
        var block := current.value;
        assert NodeAt(mem, view.list, checked);
        ghost var i := ListedBlock(checked);
        TilingOrdered(view.blocks, view.start, view.start + view.size);
        var header := mem[block];
        if header.magic != HEAP_MAGIC {
          return Some(BadMagic);
        }
        if !header.isFree {
          return Some(NotFree);
        }
        var end := block + HEADER + header.size;
        if block < heapStart || end > heapStart + heapSize {
          return Some(OutOfBounds);
        }
        current := header.next;
        checked := checked + 1;
        if checked > MAX_CHECKED {
          return Some(PossiblyCircular);
        }
      }
      return None;
    }
  }
}
