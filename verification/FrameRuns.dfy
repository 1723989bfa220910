/** Whole runs of the frame allocator: what is granted stays apart and accounted for. */
module FrameRuns {
  import opened Collections
  import opened Types
  import opened Frames

  datatype Grant = Grant(start: nat, count: nat) {
    predicate Has(f: nat) {
      start <= f < start + count
    }
  }

  /** The frame map, and the grants not given back yet. */
  datatype Pool = Pool(used: Map, live: seq<Grant>)

  datatype Op = Allocate(count: nat) | Deallocate(grant: Grant)

  function Step(p: Pool, op: Op): Pool {
    match op
    case Allocate(n) =>
      (match Granted(p.used, n)
       case Some(s) => Pool(Fill(p.used, s, n, true), p.live + [Grant(s, n)])
       case None => p)
    case Deallocate(g) => Pool(Fill(p.used, g.start, g.count, false), Without(p.live, g))
  }

  function Run(p: Pool, ops: seq<Op>): Pool {
    if ops == [] then p else Step(Run(p, ops[..|ops| - 1]), ops[|ops| - 1])
  }

  function Total(grants: seq<Grant>): nat {
    if grants == [] then 0 else Total(grants[..|grants| - 1]) + grants[|grants| - 1].count
  }

  // ---------------------------------------------------------------- live grants

  /** A grant is a run of existing frames, all in use. */
  ghost predicate Held(used: Map, g: Grant) {
    0 < g.count && g.start + g.count <= |used| && forall f: nat :: g.Has(f) ==> used[f]
  }

  ghost predicate Apart(a: Grant, b: Grant) {
    a.start + a.count <= b.start || b.start + b.count <= a.start
  }

  ghost predicate AllApart(grants: seq<Grant>) {
    forall i, j :: 0 <= i < j < |grants| ==> Apart(grants[i], grants[j])
  }

  /**
   Live grants are disjoint runs of frames in use, and exactly the frames they hold are missing from the
   free ones there were at the start.
   */
  ghost predicate Sound(p: Pool, free: nat) {
    && (forall g :: g in p.live ==> Held(p.used, g))
    && AllApart(p.live)
    && CountFree(p.used) + Total(p.live) == free
  }

  lemma AppendApart(grants: seq<Grant>, g: Grant)
    requires AllApart(grants) && forall h :: h in grants ==> Apart(h, g)
    ensures AllApart(grants + [g])
  {
    forall i | 0 <= i < |grants|
      ensures Apart(grants[i], g)
    {
      assert grants[i] in grants;
    }
  }

  lemma AllocateSound(p: Pool, n: nat, free: nat)
    requires Sound(p, free)
    ensures Sound(Step(p, Allocate(n)), free)
  {
    var r := Granted(p.used, n);
    if r.Some? {
      var g := Grant(r.value, n);
      RunCounts(p.used, r.value, n);
      var p' := Step(p, Allocate(n));
      assert p'.live[..|p.live|] == p.live;
      forall h | h in p.live
        ensures Apart(h, g) && Held(p'.used, h)
      {
        assert Held(p.used, h);
        GrantApart(p.used, h, g);
      }
      AppendApart(p.live, g);
    }
  }

  /** What is free when granted is not part of what is held. */
  lemma GrantApart(used: Map, h: Grant, g: Grant)
    requires Held(used, h) && g.count > 0 && FreeRun(used, g.start, g.count)
    ensures Apart(h, g)
  {
    assert h.Has(h.start) && used[h.start];
    if h.start <= g.start < h.start + h.count { assert h.Has(g.start); }
  }

  // ---------------------------------------------------------------- giving back

  lemma {:induction false} TotalWithout(grants: seq<Grant>, k: nat)
    requires k < |grants|
    ensures Total(RemoveAt(grants, k)) == Total(grants) - grants[k].count
  {
    var n := |grants| - 1;
    if k == n {
      assert RemoveAt(grants, k) == grants[..n];
    } else {
      TotalWithout(grants[..n], k);
      assert RemoveAt(grants, k)[..n - 1] == RemoveAt(grants[..n], k);
    }
  }

  lemma ApartIsDistinct(grants: seq<Grant>)
    requires AllApart(grants) && forall g :: g in grants ==> g.count > 0
    ensures Distinct(grants)
  {
    forall i, j | 0 <= i < j < |grants|
      ensures grants[i] != grants[j]
    {
      assert Apart(grants[i], grants[j]) && grants[i] in grants;
    }
  }

  lemma RemoveApart(grants: seq<Grant>, k: nat)
    requires AllApart(grants) && k < |grants|
    ensures AllApart(RemoveAt(grants, k))
    ensures forall g :: g in RemoveAt(grants, k) ==> g in grants && Apart(g, grants[k])
  {
    var rest := RemoveAt(grants, k);
    forall i, j | 0 <= i < j < |rest|
      ensures Apart(rest[i], rest[j])
    {
      assert rest[i] == grants[if i < k then i else i + 1] && rest[j] == grants[if j < k then j else j + 1];
    }
    forall g | g in rest
      ensures g in grants && Apart(g, grants[k])
    {
      var i :| 0 <= i < |rest| && rest[i] == g;
      assert g == grants[if i < k then i else i + 1];
    }
  }

  /** Clearing a held run frees exactly its frames. */
  lemma ReleaseCounts(used: Map, g: Grant)
    requires Held(used, g)
    ensures CountFree(Fill(used, g.start, g.count, false)) == CountFree(used) + g.count
  {
    var open := Fill(used, g.start, g.count, false);
    RunCounts(open, g.start, g.count);
    assert Fill(open, g.start, g.count, true) == used by {
      forall f | 0 <= f < |used|
        ensures Fill(open, g.start, g.count, true)[f] == used[f]
      {
        if g.Has(f) { assert used[f]; }
      }
    }
  }

  lemma ReleaseSound(p: Pool, g: Grant, free: nat)
    requires Sound(p, free) && g in p.live
    ensures Sound(Step(p, Deallocate(g)), free)
  {
    var k :| 0 <= k < |p.live| && p.live[k] == g;
    ApartIsDistinct(p.live);
    WithoutDistinct(p.live, k);
    TotalWithout(p.live, k);
    RemoveApart(p.live, k);
    ReleaseCounts(p.used, g);
    var p' := Step(p, Deallocate(g));
    forall h | h in p'.live
      ensures Held(p'.used, h)
    {
      assert Held(p.used, h) && Apart(h, g);
    }
  }

  /** Clearing frames adds a free one exactly if one of them was in use. */
  lemma {:induction false} ClearedCounts(used: Map, s: nat, n: nat)
    ensures CountFree(Fill(used, s, n, false)) >= CountFree(used)
    ensures CountFree(Fill(used, s, n, false)) == CountFree(used) <==>
            forall f :: s <= f < s + n && f < |used| ==> !used[f]
  {
    if n == 0 {
      assert Fill(used, s, n, false) == used;
    } else {
      var part, last := Fill(used, s, n - 1, false), s + n - 1;
      ClearedCounts(used, s, n - 1);
      FillNext(used, s, n - 1, false);
      FillOne(part, last, false);
      if last < |used| { CountFreeUpdate(part, last, false); }
    }
  }

  /** Giving back a live grant, or frames that are all free already. */
  ghost predicate Legal(p: Pool, op: Op) {
    op.Deallocate? ==>
      op.grant in p.live || forall f: nat :: op.grant.Has(f) && f < |p.used| ==> !p.used[f]
  }

  lemma StraySoundIff(p: Pool, g: Grant, free: nat)
    requires Sound(p, free) && g !in p.live
    ensures Sound(Step(p, Deallocate(g)), free) <==> Legal(p, Deallocate(g))
  {
    WithoutAbsent(p.live, g);
    ClearedCounts(p.used, g.start, g.count);
    if Legal(p, Deallocate(g)) {
      assert Fill(p.used, g.start, g.count, false) == p.used by {
        forall f | 0 <= f < |p.used|
          ensures Fill(p.used, g.start, g.count, false)[f] == p.used[f]
        {
          if g.Has(f) { assert !p.used[f]; }
        }
      }
    } else {
      var f: nat :| g.Has(f) && f < |p.used| && p.used[f];
      assert CountFree(Fill(p.used, g.start, g.count, false)) != CountFree(p.used);
    }
  }

  lemma StepSoundIff(p: Pool, op: Op, free: nat)
    requires Sound(p, free)
    ensures Sound(Step(p, op), free) <==> Legal(p, op)
  {
    match op
    case Allocate(n) => AllocateSound(p, n, free);
    case Deallocate(g) =>
      if g in p.live {
        ReleaseSound(p, g, free);
      } else {
        StraySoundIff(p, g, free);
      }
  }

  ghost predicate LegalRun(p: Pool, ops: seq<Op>) {
    ops == [] || (LegalRun(p, ops[..|ops| - 1]) && Legal(Run(p, ops[..|ops| - 1]), ops[|ops| - 1]))
  }

  ghost predicate AlwaysSound(p: Pool, ops: seq<Op>, free: nat) {
    Sound(Run(p, ops), free) && (ops == [] || AlwaysSound(p, ops[..|ops| - 1], free))
  }

  /**
   Over every run the live grants stay disjoint, in use and accounted for exactly if every deallocation is
   of a live grant or of frames that are all free.
   */
  lemma {:induction false} SoundIffLegal(used: Map, ops: seq<Op>)
    ensures AlwaysSound(Pool(used, []), ops, CountFree(used)) <==> LegalRun(Pool(used, []), ops)
  {
    if ops == [] {
    } else {
      var init := ops[..|ops| - 1];
      SoundIffLegal(used, init);
      if AlwaysSound(Pool(used, []), init, CountFree(used)) {
        StepSoundIff(Run(Pool(used, []), init), ops[|ops| - 1], CountFree(used));
      }
    }
  }

  // ---------------------------------------------------------------- low memory

  /** The operation gives back an existing frame of low memory. */
  predicate NamesLow(total: nat, op: Op) {
    op.Deallocate? && exists f :: op.grant.start <= f < op.grant.start + op.grant.count && f < total && Low(f)
  }

  lemma StepKeepsLow(p: Pool, op: Op)
    requires LowKept(p.used)
    ensures |Step(p, op).used| == |p.used|
    ensures LowKept(Step(p, op).used) <==> !NamesLow(|p.used|, op)
  {
    var used' := Step(p, op).used;
    if NamesLow(|p.used|, op) {
      var f :| op.grant.start <= f < op.grant.start + op.grant.count && f < |p.used| && Low(f);
      assert !used'[f];
    }
  }

  ghost predicate AlwaysLowKept(p: Pool, ops: seq<Op>) {
    LowKept(Run(p, ops).used) && (ops == [] || AlwaysLowKept(p, ops[..|ops| - 1]))
  }

  /** Low memory stays in use throughout a run exactly if no deallocation names a frame of it. */
  lemma {:induction false} LowKeptIff(p: Pool, ops: seq<Op>)
    requires LowKept(p.used)
    ensures |Run(p, ops).used| == |p.used|
    ensures AlwaysLowKept(p, ops) <==> forall op :: op in ops ==> !NamesLow(|p.used|, op)
  {
    if ops == [] {
    } else {
      var init, op := ops[..|ops| - 1], ops[|ops| - 1];
      assert ops == init + [op];
      LowKeptIff(p, init);
      RunLength(p, ops);
      if AlwaysLowKept(p, init) { StepKeepsLow(Run(p, init), op); }
    }
  }

  lemma {:induction false} RunLength(p: Pool, ops: seq<Op>)
    ensures |Run(p, ops).used| == |p.used|
  {
    if ops == [] {
    } else {
      RunLength(p, ops[..|ops| - 1]);
    }
  }

  /** After such a run no request is granted low memory; once a low frame is free, the next single frame is low. */
  lemma LowGrantedIff(used: Map)
    ensures LowKept(used) ==> forall n :: Granted(used, n).Some? ==> !Low(Granted(used, n).value)
    ensures !LowKept(used) ==> Granted(used, 1).Some? && Low(Granted(used, 1).value)
  {
    if LowKept(used) {
      forall n | Granted(used, n).Some?
        ensures !Low(Granted(used, n).value)
      {
        assert !used[Granted(used, n).value];
      }
    } else {
      var f :| 0 <= f < |used| && Low(f) && !used[f];
      assert FreeRun(used, f, 1);
    }
  }

  /** From boot on, no grant is low in any run whose deallocations name no low frame. */
  lemma LowNeverGranted(p: Pool, ops: seq<Op>, n: nat)
    requires LowKept(p.used) && forall op :: op in ops ==> !NamesLow(|p.used|, op)
    ensures var r := Granted(Run(p, ops).used, n); r.Some? ==> !Low(r.value)
  {
    LowKeptIff(p, ops);
    LowGrantedIff(Run(p, ops).used);
  }

  /** Giving frame 0 back after boot is accepted, and the next single frame granted is frame 0. */
  lemma FrameZeroCanBeGranted(p: Pool, op: Op)
    requires LowKept(p.used) && p.used != [] && op == Deallocate(Grant(0, 1))
    ensures NamesLow(|p.used|, op) && Granted(Step(p, op).used, 1) == Some(0)
  {
    assert Low(0);
    assert FreeRun(Step(p, op).used, 0, 1);
  }
}
