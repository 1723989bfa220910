/** What every run of allocations and deallocations keeps, stated on `HeapSpec`. */
module HeapRuns {
  import opened Collections
  import opened Types
  import opened HeapSpec

  /** What block b becomes when an allocation takes it. */
  function Carved(b: Block, need: nat): seq<Block> {
    if Splits(b, need) then [Block(b.addr, need, false), Rest(b, need)] else [b.(free := false)]
  }

  lemma BlocksShape(blocks: seq<Block>, i: nat, need: nat)
    requires i < |blocks|
    ensures |SplitBlocks(blocks, i, need)| > i
    ensures MarkUsed(SplitBlocks(blocks, i, need), i) == blocks[..i] + Carved(blocks[i], need) + blocks[i + 1..]
  {}

  lemma ListShape(list: seq<nat>, k: nat, a: nat)
    requires k < |list|
    ensures RemoveAt([a] + list, k + 1) == [a] + RemoveAt(list, k)
    ensures RemoveAt(list, k) == [] + RemoveAt(list, k)
  {}

  lemma AllocateShape(h: Heap, request: nat, k: nat, i: nat)
    requires Need(request) <= MAX_ALLOC_SIZE
    requires k == Choice(h, request) < |h.list| && i == IndexOf(h.blocks, h.list[k])
    ensures var need := Need(request); var h' := Allocate(h, request).0;
            && i < |h.blocks| && Fits(h.blocks[i], need)
            && h'.blocks == h.blocks[..i] + Carved(h.blocks[i], need) + h.blocks[i + 1..]
            && h'.list == (if Splits(h.blocks[i], need) then [Rest(h.blocks[i], need).addr] else [])
                          + RemoveAt(h.list, k)
            && h' == h.(blocks := h'.blocks, list := h'.list, stats := Charge(h.stats, need))
  {
    BlocksShape(h.blocks, i, Need(request));
    ListShape(h.list, k, h.blocks[i].addr + HEADER + Need(request));
  }

  lemma FreeAtConcat(x: seq<Block>, y: seq<Block>, a: nat)
    ensures FreeAt(x + y, a) <==> FreeAt(x, a) || FreeAt(y, a)
  {
    if FreeAt(x + y, a) {
      var j :| 0 <= j < |x + y| && (x + y)[j].addr == a && (x + y)[j].free;
      if j < |x| { assert x[j].addr == a; } else { assert y[j - |x|].addr == a; }
    }
    if FreeAt(x, a) {
      var j :| 0 <= j < |x| && x[j].addr == a && x[j].free;
      assert (x + y)[j].addr == a;
    }
    if FreeAt(y, a) {
      var j :| 0 <= j < |y| && y[j].addr == a && y[j].free;
      assert (x + y)[|x| + j].addr == a;
    }
  }

  lemma FreeAtReplace(blocks: seq<Block>, i: nat, mid: seq<Block>, from: nat, to: nat, a: nat)
    requires i < |blocks| && Tiled(blocks, from, to)
    ensures FreeAt(blocks[..i] + mid + blocks[i + 1..], a) <==>
            FreeAt(mid, a) || (FreeAt(blocks, a) && a != blocks[i].addr)
  {
    TilingOrdered(blocks, from, to);
    var pre, post := blocks[..i], blocks[i + 1..];
    FreeAtConcat(pre + mid, post, a);
    FreeAtConcat(pre, mid, a);
    assert blocks == pre + [blocks[i]] + post;
    FreeAtConcat(pre + [blocks[i]], post, a);
    FreeAtConcat(pre, [blocks[i]], a);
    assert !FreeAt(pre, blocks[i].addr) && !FreeAt(post, blocks[i].addr);
  }

  lemma AllocateKeepsList(h: Heap, k: nat, i: nat, need: nat)
    requires Tiled(h.blocks, h.start, h.start + h.size) && ListsFree(h.blocks, h.list)
    requires k < |h.list| && i == IndexOf(h.blocks, h.list[k]) < |h.blocks|
    requires Fits(h.blocks[i], need)
    ensures var b := h.blocks[i];
            ListsFree(h.blocks[..i] + Carved(b, need) + h.blocks[i + 1..],
                      (if Splits(b, need) then [Rest(b, need).addr] else []) + RemoveAt(h.list, k))
  {
    var b := h.blocks[i];
    var mid := Carved(b, need);
    var blocks' := h.blocks[..i] + mid + h.blocks[i + 1..];
    var front := if Splits(b, need) then [Rest(b, need).addr] else [];
    var list' := front + RemoveAt(h.list, k);
    RemoveAtKeepsDistinct(h.list, k);
    TilingOrdered(h.blocks, h.start, h.start + h.size);
    forall a
      ensures a in list' <==> FreeAt(blocks', a)
      ensures FreeAt(mid, a) <==> a in front
    {
      FreeAtReplace(h.blocks, i, mid, h.start, h.start + h.size, a);
      if Splits(b, need) { assert mid[1].free && mid[1].addr == front[0]; }
    }
    assert Splits(b, need) ==> !FreeAt(h.blocks, front[0]);
  }

  lemma CarvedSums(b: Block, need: nat)
    requires Fits(b, need)
    ensures Tiled(Carved(b, need), b.addr, b.End())
    ensures Sum(Carved(b, need), LiveOne) == 1
    ensures Sum(Carved(b, need), FreeSize) + HEADER * |Carved(b, need)| + Carved(b, need)[0].size == b.size + HEADER
    ensures Carved(b, need)[0].addr == b.addr && !Carved(b, need)[0].free && need <= Carved(b, need)[0].size
  {
    var c := Carved(b, need);
    if Splits(b, need) {
      SumSmall(c[0], c[1], LiveOne);
      SumSmall(c[0], c[1], FreeSize);
    } else {
      SumSmall(c[0], c[0], LiveOne);
      SumSmall(c[0], c[0], FreeSize);
    }
  }

  /** Size of the block an allocation hands out. */
  function GrantedSize(h: Heap, request: nat): nat
    requires Allocate(h, request).1.Granted?
  {
    Carved(h.blocks[IndexOf(h.blocks, h.list[Choice(h, request)])], Need(request))[0].size
  }

  lemma AllocateKeepsInv(h: Heap, request: nat)
    requires Inv(h)
    ensures Inv(Allocate(h, request).0)
    ensures Allocate(h, request).1.Failed? ==> Allocate(h, request).0 == h
    ensures Allocate(h, request).1.Granted? ==>
            && Allocate(h, request).0.stats.freeBytes >= 0
            && Waste(Allocate(h, request).0) == Waste(h) + GrantedSize(h, request) - Need(request)
  {
    var (h', r) := Allocate(h, request);
    if r.Granted? {
      var need, k := Need(request), Choice(h, request);
      var i := IndexOf(h.blocks, h.list[k]);
      var b := h.blocks[i];
      AllocateShape(h, request, k, i);
      AllocateKeepsList(h, k, i, need);
      CarvedSums(b, need);
      TiledReplace(h.blocks, i, h.start, h.start + h.size, Carved(b, need));
      SumReplace(h.blocks, i, Carved(b, need), FreeSize);
      SumReplace(h.blocks, i, Carved(b, need), LiveOne);
      SumNonNegative(h.blocks);
    }
  }

  lemma DeallocateKeepsInv(h: Heap, ptr: nat)
    requires Inv(h) && Names(h, ptr)
    ensures Inv(Deallocate(h, ptr).0)
    ensures Deallocate(h, ptr).1.Failed? ==> Deallocate(h, ptr).0 == h
    ensures Waste(Deallocate(h, ptr).0) == Waste(h)
  {
    var (h', r) := Deallocate(h, ptr);
    if r.Released? {
      var i := IndexOf(h.blocks, ptr - HEADER);
      var b := h.blocks[i];
      var mid := [b.(free := true)];
      assert h'.blocks == h.blocks[..i] + mid + h.blocks[i + 1..];
      SumSmall(mid[0], mid[0], FreeSize);
      SumSmall(mid[0], mid[0], LiveOne);
      TiledReplace(h.blocks, i, h.start, h.start + h.size, mid);
      SumReplace(h.blocks, i, mid, FreeSize);
      SumReplace(h.blocks, i, mid, LiveOne);
      TilingOrdered(h.blocks, h.start, h.start + h.size);
      forall a
        ensures a in h'.list <==> FreeAt(h'.blocks, a)
      {
        FreeAtReplace(h.blocks, i, mid, h.start, h.start + h.size, a);
        assert mid[0].free;
      }
      assert !FreeAt(h.blocks, b.addr);
    }
  }

  lemma StepKeepsInv(h: Heap, op: Op)
    requires Inv(h) && Legal(h, op)
    ensures Inv(Step(h, op))
    ensures Step(h, op).start == h.start && Step(h, op).size == h.size
  {
    match op
    case Alloc(request) => AllocateKeepsInv(h, request);
    case Free(ptr) => DeallocateKeepsInv(h, ptr);
  }

  lemma InitInv(start: nat, pages: nat)
    requires pages > 0
    ensures Inv(Init(start, pages)) && Waste(Init(start, pages)) == 0
  {
    var h := Init(start, pages);
    SumSmall(h.blocks[0], h.blocks[0], FreeSize);
    SumSmall(h.blocks[0], h.blocks[0], LiveOne);
    assert forall a :: a in h.list <==> FreeAt(h.blocks, a) by { assert h.blocks[0].free; }
  }

  /** Initialising again gives a sound heap exactly if the old counters have nothing outstanding. */
  lemma ResetInvIff(stats: Stats, start: nat, pages: nat)
    requires pages > 0
    requires stats.totalAllocations - stats.totalDeallocations == stats.currentAllocations
    requires stats.bytesAllocated - stats.bytesDeallocated == stats.currentBytes
    requires stats.peakBytes >= stats.currentBytes
    ensures Inv(Reset(stats, start, pages)) <==> start != 0 && stats.currentAllocations == 0 && stats.currentBytes == 0
  {
    var h := Reset(stats, start, pages);
    SumSmall(h.blocks[0], h.blocks[0], FreeSize);
    SumSmall(h.blocks[0], h.blocks[0], LiveOne);
    assert FreeAt(h.blocks, start) by { assert h.blocks[0].free; }
    assert start in h.list <==> start != 0;
    assert forall a :: a != start ==> !FreeAt(h.blocks, a) && a !in h.list;
    assert Tiled(h.blocks, h.start, h.start + h.size);
    assert ListsFree(h.blocks, h.list) <==> start != 0;
    assert h.stats.currentBytes + h.stats.freeBytes == h.size - HEADER <==> stats.currentBytes == 0;
    assert h.stats.currentAllocations == Sum(h.blocks, LiveOne) <==> stats.currentAllocations == 0;
  }

  /** Initialising again with one allocation outstanding leaves counters that belong to no heap. */
  lemma ResetCanBreak(frame: nat, again: nat, pages: nat)
    requires pages > 0
    ensures var (h, r) := Allocate(Init(frame * PAGE_SIZE, 2), 100);
            r.Granted? && !Inv(Reset(h.stats, again * PAGE_SIZE, pages))
  {
    FreshHeapGrants(frame, 2, 100);
    ResetInvIff(Allocate(Init(frame * PAGE_SIZE, 2), 100).0.stats, again * PAGE_SIZE, pages);
  }

  /** An address that is no block's on the free list breaks the invariant, whatever was free before. */
  lemma AdoptedIsUnsound(h: Heap, addr: nat, size: nat)
    requires !Listed(h.blocks, addr)
    ensures !Inv(Adopted(h, addr, size))
  {
    assert addr in Adopted(h, addr, size).list;
  }

  /** Tiling, free-list membership and the statistics laws hold after every run. */
  lemma {:induction false} RunKeepsInv(h: Heap, ops: seq<Op>)
    requires Inv(h) && LegalRun(h, ops)
    ensures Inv(Run(h, ops))
    ensures Run(h, ops).start == h.start && Run(h, ops).size == h.size
    decreases |ops|
  {
    if ops == [] {
    } else {
      StepKeepsInv(h, ops[0]);
      RunKeepsInv(Step(h, ops[0]), ops[1..]);
    }
  }

  // ---------------------------------------------------------------- boundaries

  ghost function Boundaries(h: Heap): set<nat> {
    set b | b in h.blocks :: b.addr
  }

  lemma ReplaceKeepsBlocks(blocks: seq<Block>, i: nat, mid: seq<Block>)
    requires i < |blocks| && mid != [] && mid[0].addr == blocks[i].addr
    ensures var all := blocks[..i] + mid + blocks[i + 1..];
            && (forall b :: b in blocks && b != blocks[i] ==> b in all)
            && (forall b :: b in blocks ==> exists c :: c in all && c.addr == b.addr)
  {
    var all := blocks[..i] + mid + blocks[i + 1..];
    forall b | b in blocks
      ensures b != blocks[i] ==> b in all
      ensures exists c :: c in all && c.addr == b.addr
    {
      var j :| 0 <= j < |blocks| && blocks[j] == b;
      if j == i {
        assert all[i] in all && all[i].addr == b.addr;
      } else {
        assert all[if j < i then j else j + |mid| - 1] == b;
      }
    }
  }

  lemma StepKeepsBlocks(h: Heap, op: Op)
    requires Inv(h) && Legal(h, op)
    ensures Boundaries(h) <= Boundaries(Step(h, op))
    ensures forall b :: b in h.blocks && !b.free && op != Free(b.Data()) ==> b in Step(h, op).blocks
  {
    var h' := Step(h, op);
    if op.Alloc? && h' != h {
      var k := Choice(h, op.request);
      var i := IndexOf(h.blocks, h.list[k]);
      AllocateShape(h, op.request, k, i);
      ReplaceKeepsBlocks(h.blocks, i, Carved(h.blocks[i], Need(op.request)));
    } else if op.Free? && h' != h {
      var i := IndexOf(h.blocks, op.ptr - HEADER);
      assert h'.blocks == h.blocks[..i] + [h.blocks[i].(free := true)] + h.blocks[i + 1..];
      ReplaceKeepsBlocks(h.blocks, i, [h.blocks[i].(free := true)]);
    }
  }

  /** Block boundaries are never lost, and a live block stays put until it is freed. */
  lemma {:induction false} RunKeepsBlocks(h: Heap, ops: seq<Op>)
    requires Inv(h) && LegalRun(h, ops)
    ensures Boundaries(h) <= Boundaries(Run(h, ops))
    ensures forall b :: b in h.blocks && !b.free && Free(b.Data()) !in ops ==> b in Run(h, ops).blocks
    decreases |ops|
  {
    if ops == [] {
    } else {
      StepKeepsInv(h, ops[0]);
      StepKeepsBlocks(h, ops[0]);
      RunKeepsBlocks(Step(h, ops[0]), ops[1..]);
    }
  }

  /** Data of two live allocations never overlap, nor does data overlap any header. */
  lemma LiveDataDisjoint(h: Heap, ops: seq<Op>, b: Block, c: Block)
    requires Inv(h) && LegalRun(h, ops)
    requires b in Run(h, ops).blocks && c in Run(h, ops).blocks && b != c
    ensures b.End() <= c.Data() || c.End() <= b.Data()
    ensures b.End() <= c.addr || c.Data() <= b.Data()
    ensures h.start + HEADER <= b.Data() && b.End() <= h.start + h.size
  {
    RunKeepsInv(h, ops);
    TilingOrdered(Run(h, ops).blocks, h.start, h.start + h.size);
  }

  /** A granted pointer names a block that was free, is now live, and is at least as large as asked. */
  lemma GrantIsFresh(h: Heap, request: nat)
    requires Inv(h) && Allocate(h, request).1.Granted?
    ensures var (h', r) := Allocate(h, request);
            && r.ptr >= HEADER
            && FreeAt(h.blocks, r.ptr - HEADER)
            && Block(r.ptr - HEADER, GrantedSize(h, request), false) in h'.blocks
            && request <= Need(request) <= GrantedSize(h, request) < Need(request) + HEADER + MIN_ALLOC_SIZE
  {
    var k := Choice(h, request);
    var i := IndexOf(h.blocks, h.list[k]);
    AllocateShape(h, request, k, i);
    CarvedSums(h.blocks[i], Need(request));
    var h' := Allocate(h, request).0;
    assert h'.blocks[i] == Carved(h.blocks[i], Need(request))[0];
  }

  /**
   Block b is handed out whole unless a header and the minimum size fit behind the request; then exactly
   the request is cut off, and what is left is a free block of its own that is tried first.
   */
  ghost predicate HandedOut(b: Block, need: nat, blocks: seq<Block>, list: seq<nat>) {
    if b.size < need + HEADER + MIN_ALLOC_SIZE then b.(free := false) in blocks
    else && Block(b.addr, need, false) in blocks
         && Block(b.Data() + need, b.size - need - HEADER, true) in blocks
         && list != [] && list[0] == b.Data() + need
  }

  lemma CarvedHandsOut(blocks: seq<Block>, i: nat, need: nat, list: seq<nat>)
    requires i < |blocks| && blocks[i].size >= need
    ensures var b := blocks[i];
            HandedOut(b, need, blocks[..i] + Carved(b, need) + blocks[i + 1..],
                      (if Splits(b, need) then [Rest(b, need).addr] else []) + list)
  {
    var mid := Carved(blocks[i], need);
    var all := blocks[..i] + mid + blocks[i + 1..];
    assert all[i] == mid[0] && (|mid| > 1 ==> all[i + 1] == mid[1]);
  }

  lemma GrantIsExact(h: Heap, request: nat, b: Block)
    requires Inv(h) && Allocate(h, request).1.Granted? && b in h.blocks && b.Data() == Allocate(h, request).1.ptr
    ensures b.free && HandedOut(b, Need(request), Allocate(h, request).0.blocks, Allocate(h, request).0.list)
  {
    var k := Choice(h, request);
    var i := IndexOf(h.blocks, h.list[k]);
    AllocateShape(h, request, k, i);
    var j :| 0 <= j < |h.blocks| && h.blocks[j] == b;
    IndexOfUnique(h.blocks, h.start, h.start + h.size, j);
    CarvedHandsOut(h.blocks, i, Need(request), RemoveAt(h.list, k));
  }

  /** Of the listed blocks that pass the size-plus-offset test the first one is granted. */
  lemma GrantIsFirstFit(h: Heap, request: nat) returns (k: nat)
    requires Allocate(h, request).1.Granted?
    ensures k < |h.list| && Allocate(h, request).1.ptr == h.list[k] + HEADER
    ensures FitsAt(h.blocks, h.list[k], Need(request))
    ensures forall j :: 0 <= j < k ==> !FitsAt(h.blocks, h.list[j], Need(request))
  {
    k := Choice(h, request);
  }

  /** A block just freed is tried first: a request that fits it gets the same pointer back. */
  lemma FreedComesBack(h: Heap, ptr: nat, request: nat, b: Block)
    requires Inv(h) && Names(h, ptr) && Deallocate(h, ptr).1.Released?
    requires b in h.blocks && b.Data() == ptr
    requires Need(request) <= MAX_ALLOC_SIZE && Fits(b.(free := true), Need(request))
    ensures Allocate(Deallocate(h, ptr).0, request).1 == Granted(ptr)
  {
    var i, h' := IndexOf(h.blocks, ptr - HEADER), Deallocate(h, ptr).0;
    TilingOrdered(h.blocks, h.start, h.start + h.size);
    var j :| 0 <= j < |h.blocks| && h.blocks[j] == b;
    assert j == i;
    forall n | 0 <= n < |h.blocks|
      ensures h'.blocks[n].addr == h.blocks[n].addr
    {}
    assert IndexOf(h'.blocks, b.addr) == i;
    assert FirstFit(h'.blocks, h'.list, Need(request)) == 0;
  }

  // ---------------------------------------------------------------- no block is too small

  ghost predicate Roomy(blocks: seq<Block>) {
    forall b :: b in blocks ==> b.size >= MIN_ALLOC_SIZE
  }

  lemma StepKeepsRoomy(h: Heap, op: Op)
    requires Roomy(h.blocks) && Legal(h, op)
    ensures Roomy(Step(h, op).blocks)
  {
    match op
    case Alloc(request) =>
      if Allocate(h, request).1.Granted? {
        var k := Choice(h, request);
        var i := IndexOf(h.blocks, h.list[k]);
        AllocateShape(h, request, k, i);
        assert h.blocks[i] in h.blocks;
        assert Roomy(Carved(h.blocks[i], Need(request)));
      }
    case Free(ptr) =>
      assert h.blocks[IndexOf(h.blocks, ptr - HEADER)] in h.blocks;
  }

  lemma {:induction false} RoomyRun(h: Heap, ops: seq<Op>)
    requires Roomy(h.blocks) && LegalRun(h, ops)
    ensures Roomy(Run(h, ops).blocks)
    decreases |ops|
  {
    if ops == [] {
    } else {
      StepKeepsRoomy(h, ops[0]);
      RoomyRun(Step(h, ops[0]), ops[1..]);
    }
  }

  /** Over every run no block, free or live, is ever smaller than the minimum size. */
  lemma BlocksStayRoomy(start: nat, pages: nat, ops: seq<Op>, b: Block)
    requires pages > 0 && LegalRun(Init(start, pages), ops) && b in Run(Init(start, pages), ops).blocks
    ensures b.size >= MIN_ALLOC_SIZE
  {
    RoomyRun(Init(start, pages), ops);
  }

  // ---------------------------------------------------------------- the peak

  function Max(a: int, b: int): int {
    if a >= b then a else b
  }

  /** The largest value current_bytes has during a run. */
  ghost function Peak(h: Heap, ops: seq<Op>): int
    requires LegalRun(h, ops)
    decreases |ops|
  {
    if ops == [] then h.stats.currentBytes else Max(h.stats.currentBytes, Peak(Step(h, ops[0]), ops[1..]))
  }

  lemma StepPeak(h: Heap, op: Op)
    requires Legal(h, op) && h.stats.peakBytes >= h.stats.currentBytes
    ensures Step(h, op).stats.peakBytes == Max(h.stats.peakBytes, Step(h, op).stats.currentBytes)
  {}

  lemma {:induction false} PeakOfRun(h: Heap, ops: seq<Op>)
    requires LegalRun(h, ops) && h.stats.peakBytes >= h.stats.currentBytes
    ensures Run(h, ops).stats.peakBytes == Max(h.stats.peakBytes, Peak(h, ops))
    decreases |ops|
  {
    if ops == [] {
    } else {
      StepPeak(h, ops[0]);
      PeakOfRun(Step(h, ops[0]), ops[1..]);
    }
  }

  /** From initialisation on, peak_bytes is the largest value current_bytes has had. */
  lemma PeakIsMaximum(start: nat, pages: nat, ops: seq<Op>)
    requires pages > 0 && LegalRun(Init(start, pages), ops)
    ensures Run(Init(start, pages), ops).stats.peakBytes == Peak(Init(start, pages), ops)
  {
    PeakOfRun(Init(start, pages), ops);
    PeakAtLeastNow(Init(start, pages), ops);
  }

  lemma PeakAtLeastNow(h: Heap, ops: seq<Op>)
    requires LegalRun(h, ops)
    ensures Peak(h, ops) >= h.stats.currentBytes
  {}

  /** The first page boundary at or after an address. */
  lemma AlignUpMeaning(addr: nat, boundary: nat)
    requires boundary % PAGE_SIZE == 0
    ensures AlignUp(addr) % PAGE_SIZE == 0 && AlignUp(addr) >= addr
    ensures boundary >= addr ==> AlignUp(addr) <= boundary
  {
    assert boundary == boundary / PAGE_SIZE * PAGE_SIZE;
  }

  /** A free block fits exactly if the request does between the first page boundary in its data and its end. */
  lemma FitsMeaning(b: Block, need: nat, boundary: nat)
    requires boundary % PAGE_SIZE == 0 && b.Data() <= boundary < b.Data() + PAGE_SIZE
    ensures Fits(b, need) <==> b.free && boundary + need <= b.End()
  {
    AlignUpMeaning(b.Data(), boundary);
    assert AlignUp(b.Data()) == boundary by {
      assert boundary == boundary / PAGE_SIZE * PAGE_SIZE;
    }
  }

  /** An allocation within the size limit fails exactly when no free block passes the size-plus-offset test. */
  lemma FailsOnlyWhenNothingFits(h: Heap, request: nat)
    requires Inv(h) && Need(request) <= MAX_ALLOC_SIZE
    ensures Allocate(h, request).1 == Failed(OutOfMemory) <==>
            forall b :: b in h.blocks ==> !Fits(b, Need(request))
  {
    var need := Need(request);
    var k := FirstFit(h.blocks, h.list, need);
    if k < |h.list| {
      assert Fits(h.blocks[IndexOf(h.blocks, h.list[k])], need);
    } else {
      forall b | b in h.blocks
        ensures !Fits(b, need)
      {
        var i :| 0 <= i < |h.blocks| && h.blocks[i] == b;
        if b.free {
          IndexOfUnique(h.blocks, h.start, h.start + h.size, i);
          assert FreeAt(h.blocks, b.addr);
          var j :| 0 <= j < |h.list| && h.list[j] == b.addr;
          assert !FitsAt(h.blocks, h.list[j], need);
        }
      }
    }
  }

  // ---------------------------------------------------------------- statistics

  function StepWaste(h: Heap, op: Op): int
    requires Legal(h, op)
  {
    if op.Alloc? && Allocate(h, op.request).1.Granted?
    then GrantedSize(h, op.request) - Need(op.request) else 0
  }

  /** Over the run, how many bytes blocks were larger than what their allocation was charged. */
  function RunWaste(h: Heap, ops: seq<Op>): int
    requires LegalRun(h, ops)
    decreases |ops|
  {
    if ops == [] then 0 else StepWaste(h, ops[0]) + RunWaste(Step(h, ops[0]), ops[1..])
  }

  lemma {:induction false} WasteLaw(h: Heap, ops: seq<Op>)
    requires Inv(h) && LegalRun(h, ops)
    ensures Waste(Run(h, ops)) == Waste(h) + RunWaste(h, ops)
    decreases |ops|
  {
    if ops == [] {
    } else {
      var op := ops[0];
      match op {
        case Alloc(request) => AllocateKeepsInv(h, request);
        case Free(ptr) => DeallocateKeepsInv(h, ptr);
      }
      WasteLaw(Step(h, op), ops[1..]);
    }
  }

  /**
   The exact meaning of the byte counters after any run from a fresh heap:
   `current_bytes` falls short of the bytes in live blocks by the accumulated waste,
   `free_bytes` exceeds the bytes in free blocks by that waste plus the split headers,
   the two always add up to the initial block, and the allocation count is exact.
   */
  lemma CountersAfterRun(start: nat, pages: nat, ops: seq<Op>)
    requires pages > 0 && LegalRun(Init(start, pages), ops)
    ensures var h := Run(Init(start, pages), ops); var waste := RunWaste(Init(start, pages), ops);
            && h.stats.currentBytes == Sum(h.blocks, LiveSize) - waste
            && h.stats.freeBytes == Sum(h.blocks, FreeSize) + HEADER * (|h.blocks| - 1) + waste
            && h.stats.currentBytes + h.stats.freeBytes == pages * PAGE_SIZE - HEADER
            && h.stats.currentAllocations == Sum(h.blocks, LiveOne)
            && 0 <= Sum(h.blocks, FreeSize) <= h.stats.freeBytes
  {
    var h0 := Init(start, pages);
    InitInv(start, pages);
    RunKeepsInv(h0, ops);
    WasteLaw(h0, ops);
    var h := Run(h0, ops);
    SpanLaw(h.blocks, h.start, h.start + h.size);
    SumNonNegative(h.blocks);
  }

  /**
   Line 254 takes `current_bytes` below zero exactly when the waste of the run so far
   exceeds what the other live blocks hold.
   */
  lemma UnderflowIff(start: nat, pages: nat, ops: seq<Op>, ptr: nat)
    requires pages > 0 && LegalRun(Init(start, pages), ops)
    requires Names(Run(Init(start, pages), ops), ptr)
    requires Deallocate(Run(Init(start, pages), ops), ptr).1.Released?
    ensures var h := Run(Init(start, pages), ops);
            Deallocate(h, ptr).0.stats.currentBytes < 0 <==>
            Sum(h.blocks, LiveSize) - h.blocks[IndexOf(h.blocks, ptr - HEADER)].size < RunWaste(Init(start, pages), ops)
  {
    CountersAfterRun(start, pages, ops);
  }

  lemma RunOne(h: Heap, ops: seq<Op>)
    requires ops != [] && Legal(h, ops[0])
    ensures LegalRun(h, ops) <==> LegalRun(Step(h, ops[0]), ops[1..])
    ensures LegalRun(h, ops) ==> Run(h, ops) == Run(Step(h, ops[0]), ops[1..])
  {}

  lemma RunFour(h0: Heap, h1: Heap, h2: Heap, h3: Heap, ops: seq<Op>)
    requires |ops| == 4
    requires Legal(h0, ops[0]) && h1 == Step(h0, ops[0]) && Legal(h1, ops[1]) && h2 == Step(h1, ops[1])
    requires Legal(h2, ops[2]) && h3 == Step(h2, ops[2]) && Legal(h3, ops[3])
    ensures LegalRun(h0, ops) && Run(h0, ops) == Step(h3, ops[3])
  {
    RunOne(h3, ops[3..]);
    RunOne(h2, ops[2..]);
    RunOne(h1, ops[1..]);
    RunOne(h0, ops);
    assert ops[3..][1..] == [] && ops[2..][1..] == ops[3..] && ops[1..][1..] == ops[2..];
  }

  /** A two-page heap cut into 4016 and 4096 bytes, with the given blocks in use. */
  function Halves(start: nat, low: bool, high: bool, list: seq<nat>, stats: Stats): Heap {
    Heap(start, 2 * PAGE_SIZE, [Block(start, 4016, !low), Block(start + 4056, 4096, !high)], list, stats)
  }

  lemma FirstHalf(start: nat)
    requires start % PAGE_SIZE == 0
    ensures Allocate(Init(start, 2), 4016).0 ==
            Halves(start, true, false, [start + 4056], Charge(Init(start, 2).stats, 4016))
  {
    var h := Init(start, 2);
    assert AlignUp(h.blocks[0].Data()) == start + PAGE_SIZE;
    assert IndexOf(h.blocks, start) == 0 && FirstFit(h.blocks, h.list, 4016) == 0;
    AllocateShape(h, 4016, 0, 0);
  }

  lemma SecondHalf(start: nat, stats: Stats)
    requires start % PAGE_SIZE == 0
    ensures Allocate(Halves(start, true, false, [start + 4056], stats), 4066).0 ==
            Halves(start, true, true, [], Charge(stats, 4066))
  {
    var h := Halves(start, true, false, [start + 4056], stats);
    assert AlignUp(h.blocks[1].Data()) == start + PAGE_SIZE;
    HighIndex(h);
    assert FirstFit(h.blocks, h.list, 4066) == 0;
    AllocateShape(h, 4066, 0, 1);
  }

  lemma HighIndex(h: Heap)
    requires |h.blocks| == 2 && h.blocks[0].addr != h.blocks[1].addr
    ensures IndexOf(h.blocks, h.blocks[0].addr) == 0 && IndexOf(h.blocks, h.blocks[1].addr) == 1
  {}

  lemma ReleaseHalves(start: nat, stats: Stats)
    ensures var h := Halves(start, true, true, [], stats);
            var h' := Halves(start, true, false, [start + 4056], Credit(stats, 4096));
            && Names(h, start + PAGE_SIZE) && Deallocate(h, start + PAGE_SIZE).0 == h'
            && Names(h', start + HEADER) && Deallocate(h', start + HEADER).0.stats == Credit(Credit(stats, 4096), 4016)
  {
    HighIndex(Halves(start, true, true, [], stats));
    HighIndex(Halves(start, true, false, [start + 4056], Credit(stats, 4096)));
  }

  lemma HalvesRun(start: nat) returns (h1: Heap, h2: Heap, h3: Heap)
    requires start % PAGE_SIZE == 0
    ensures h1 == Step(Init(start, 2), Alloc(4016)) && h2 == Step(h1, Alloc(4066))
    ensures Legal(h2, Free(start + PAGE_SIZE)) && h3 == Step(h2, Free(start + PAGE_SIZE))
    ensures Legal(h3, Free(start + HEADER)) && Step(h3, Free(start + HEADER)).stats.currentBytes == -30
  {
    var stats0 := Init(start, 2).stats;
    var stats2 := Charge(Charge(stats0, 4016), 4066);
    FirstHalf(start);
    h1 := Halves(start, true, false, [start + 4056], Charge(stats0, 4016));
    SecondHalf(start, h1.stats);
    h2 := Halves(start, true, true, [], stats2);
    ReleaseHalves(start, stats2);
    h3 := Halves(start, true, false, [start + 4056], Credit(stats2, 4096));
  }

  /** Two allocations and their two releases on any two-page heap leave `current_bytes` at -30. */
  lemma CurrentBytesUnderflows(start: nat, h: Heap, ops: seq<Op>)
    requires start % PAGE_SIZE == 0 && h == Init(start, 2)
    requires ops == [Alloc(4016), Alloc(4066), Free(start + PAGE_SIZE), Free(start + HEADER)]
    ensures LegalRun(h, ops) && Run(h, ops).stats.currentBytes == -30
  {
    var h1, h2, h3 := HalvesRun(start);
    RunFour(h, h1, h2, h3, ops);
  }

  /**
   The offset is measured to the next page whatever the layout asks for, so the first
   allocation on a fresh heap loses a page: a one-page heap never serves anything.
   */
  lemma FreshHeapGrants(frame: nat, pages: nat, request: nat)
    requires pages > 0
    ensures Allocate(Init(frame * PAGE_SIZE, pages), request).1.Granted? <==>
            Need(request) <= MAX_ALLOC_SIZE && Need(request) <= (pages - 1) * PAGE_SIZE
  {
    var h := Init(frame * PAGE_SIZE, pages);
    assert AlignUp(h.blocks[0].Data()) == frame * PAGE_SIZE + PAGE_SIZE;
    assert IndexOf(h.blocks, h.list[0]) == 0;
  }
}
