/** The LRU and FIFO page replacers. */
module Replacement {
  import opened Collections
  import opened Types

  function Take<T>(s: seq<T>, k: nat): seq<T> {
    if |s| <= k then s else s[..k]
  }

  // ---------------------------------------------------------------- LRU

  /** One access: the frame moves to the front, the oldest ones over the limit fall off. */
  function Touch(pages: seq<Frame>, f: Frame, capacity: nat): seq<Frame> {
    Take([f] + Without(pages, f), capacity)
  }

  function LruRun(capacity: nat, trace: seq<Frame>): seq<Frame> {
    if trace == [] then [] else Touch(LruRun(capacity, trace[..|trace| - 1]), trace[|trace| - 1], capacity)
  }

  /** Time of the last access to f, -1 if there was none. */
  function LastUse(trace: seq<Frame>, f: Frame): int {
    if trace == [] then -1
    else if trace[|trace| - 1] == f then |trace| - 1
    else LastUse(trace[..|trace| - 1], f)
  }

  ghost predicate ByLastUse(trace: seq<Frame>, r: seq<Frame>) {
    forall i, j {:trigger r[i], r[j]} :: 0 <= i < j < |r| ==> LastUse(trace, r[i]) > LastUse(trace, r[j])
  }

  /** A list of frames is the recency order of a trace: all accessed frames, most recently used first. */
  ghost predicate IsRecency(trace: seq<Frame>, r: seq<Frame>) {
    && (forall f :: f in r <==> f in trace)
    && ByLastUse(trace, r)
  }

  function Recency(trace: seq<Frame>): seq<Frame> {
    if trace == [] then []
    else [trace[|trace| - 1]] + Without(Recency(trace[..|trace| - 1]), trace[|trace| - 1])
  }

  lemma LastUseBound(trace: seq<Frame>, f: Frame)
    ensures -1 <= LastUse(trace, f) < |trace|
  {}

  lemma {:induction false} RecencyIsRecency(trace: seq<Frame>)
    ensures IsRecency(trace, Recency(trace)) && Distinct(Recency(trace))
  {
    if trace == [] {
    } else {
      var init, f := trace[..|trace| - 1], trace[|trace| - 1];
      RecencyIsRecency(init);
      var past := Recency(init);
      assert trace == init + [f];
      WithoutKeepsOrder(init, past, f);
      WithoutElements(past, f);
      FrontKeepsOrder(init, Without(past, f), f);
    }
  }

  /** An access makes its frame the most recent one and leaves the order of the others. */
  lemma FrontKeepsOrder(trace: seq<Frame>, rest: seq<Frame>, f: Frame)
    requires ByLastUse(trace, rest) && f !in rest
    ensures ByLastUse(trace + [f], [f] + rest)
  {
    var r := [f] + rest;
    assert (trace + [f])[..|trace|] == trace;
    forall i, j | 0 <= i < j < |r|
      ensures LastUse(trace + [f], r[i]) > LastUse(trace + [f], r[j])
    {
      assert r[j] == rest[j - 1] && r[j] in rest;
      LastUseBound(trace, r[j]);
      if i > 0 {
        assert r[i] == rest[i - 1] && r[i] in rest;
        assert LastUse(trace, rest[i - 1]) > LastUse(trace, rest[j - 1]);
      }
    }
  }

  lemma RemoveKeepsOrder(trace: seq<Frame>, r: seq<Frame>, k: nat)
    requires ByLastUse(trace, r) && k < |r|
    ensures ByLastUse(trace, RemoveAt(r, k))
  {
    var rest := RemoveAt(r, k);
    forall i, j | 0 <= i < j < |rest|
      ensures LastUse(trace, rest[i]) > LastUse(trace, rest[j])
    {
      assert rest[i] == r[if i < k then i else i + 1] && rest[j] == r[if j < k then j else j + 1];
    }
  }

  lemma WithoutKeepsOrder(trace: seq<Frame>, r: seq<Frame>, f: Frame)
    requires ByLastUse(trace, r) && Distinct(r)
    ensures ByLastUse(trace, Without(r, f))
  {
    if f in r {
      var k :| 0 <= k < |r| && r[k] == f;
      WithoutDistinct(r, k);
      RemoveKeepsOrder(trace, r, k);
    } else {
      WithoutAbsent(r, f);
    }
  }

  lemma WithoutLength(s: seq<Frame>, f: Frame)
    requires Distinct(s)
    ensures |s| - 1 <= |Without(s, f)| <= |s|
    ensures |Without(s, f)| == |s| - 1 ==> f in s
  {
    if f in s {
      var k :| 0 <= k < |s| && s[k] == f;
      WithoutDistinct(s, k);
    } else {
      WithoutAbsent(s, f);
    }
  }

  lemma TakeConcat<T>(a: seq<T>, b: seq<T>, k: nat)
    requires |a| >= k
    ensures Take(a + b, k) == Take(a, k)
  {}

  /** Truncating before an access loses nothing that the access would have kept. */
  lemma TouchTruncated(r: seq<Frame>, f: Frame, capacity: nat)
    requires Distinct(r)
    ensures Touch(Take(r, capacity), f, capacity) == Take([f] + Without(r, f), capacity)
  {
    if |r| > capacity {
      var a, b := r[..capacity], r[capacity..];
      assert r == a + b;
      WithoutConcat(a, b, f);
      WithoutLength(a, f);
      ConcatAssoc([f], Without(a, f), Without(b, f));
      TakeConcat([f] + Without(a, f), Without(b, f), capacity);
    }
  }

  /** On every access-only trace an LRU of capacity k holds exactly the k most recently used frames. */
  lemma {:induction false} LruHoldsMostRecent(capacity: nat, trace: seq<Frame>)
    ensures LruRun(capacity, trace) == Take(Recency(trace), capacity)
  {
    if trace == [] {
    } else {
      var init := trace[..|trace| - 1];
      LruHoldsMostRecent(capacity, init);
      RecencyIsRecency(init);
      TouchTruncated(Recency(init), trace[|trace| - 1], capacity);
    }
  }

  /** Stack property: the smaller LRU's contents are a prefix of the larger one's. */
  lemma LruInclusion(small: nat, large: nat, trace: seq<Frame>)
    requires small <= large
    ensures LruRun(small, trace) <= LruRun(large, trace)
  {
    LruHoldsMostRecent(small, trace);
    LruHoldsMostRecent(large, trace);
  }

  function Misses(contents: seq<Frame> -> seq<Frame>, trace: seq<Frame>): nat {
    if trace == [] then 0
    else
      var init := trace[..|trace| - 1];
      Misses(contents, init) + (if trace[|trace| - 1] in contents(init) then 0 else 1)
  }

  /** A larger LRU never faults more often. */
  lemma {:induction false} LruMissesMonotone(small: nat, large: nat, trace: seq<Frame>)
    requires small <= large
    ensures Misses(t => LruRun(large, t), trace) <= Misses(t => LruRun(small, t), trace)
  {
    if trace == [] {
    } else {
      LruMissesMonotone(small, large, trace[..|trace| - 1]);
      LruInclusion(small, large, trace[..|trace| - 1]);
    }
  }

  // What a replacer sees: accesses and removals.

  datatype Use = Touched(frame: Frame) | Dropped(frame: Frame)

  /** The accesses alone. */
  function Trace(uses: seq<Use>): seq<Frame> {
    if uses == [] then []
    else Trace(uses[..|uses| - 1]) + match uses[|uses| - 1] case Touched(f) => [f] case Dropped(_) => []
  }

  function LruAfter(capacity: nat, uses: seq<Use>): seq<Frame> {
    if uses == [] then []
    else
      var pages := LruAfter(capacity, uses[..|uses| - 1]);
      match uses[|uses| - 1]
      case Touched(f) => Touch(pages, f, capacity)
      case Dropped(f) => Without(pages, f)
  }

  lemma {:induction false} LruOrdered(capacity: nat, uses: seq<Use>)
    ensures Distinct(LruAfter(capacity, uses)) && ByLastUse(Trace(uses), LruAfter(capacity, uses))
  {
    if uses == [] {
    } else {
      var init := uses[..|uses| - 1];
      var f, pages := uses[|uses| - 1].frame, LruAfter(capacity, init);
      LruOrdered(capacity, init);
      WithoutElements(pages, f);
      WithoutKeepsOrder(Trace(init), pages, f);
      WithoutKeepsDistinct(pages, f);
      if uses[|uses| - 1].Touched? {
        FrontKeepsOrder(Trace(init), Without(pages, f), f);
      } else {
        assert Trace(init) + [] == Trace(init);
      }
    }
  }

  /** Every other frame of the list was used after f. */
  ghost predicate UsedFirst(trace: seq<Frame>, pages: seq<Frame>, f: Frame) {
    f in pages && forall g :: g in pages && g != f ==> LastUse(trace, f) < LastUse(trace, g)
  }

  /** After every run of accesses and removals the last page is the least recently used one of those tracked. */
  lemma LruVictimIsLeastRecent(capacity: nat, uses: seq<Use>)
    requires LruAfter(capacity, uses) != []
    ensures var pages := LruAfter(capacity, uses); UsedFirst(Trace(uses), pages, pages[|pages| - 1])
  {
    LruOrdered(capacity, uses);
    var pages := LruAfter(capacity, uses);
    forall g | g in pages && g != pages[|pages| - 1]
      ensures LastUse(Trace(uses), pages[|pages| - 1]) < LastUse(Trace(uses), g)
    {
      var i :| 0 <= i < |pages| && pages[i] == g;
    }
  }

  class LRUReplacer {
    var pages: seq<Frame>
    var positions: map<Frame, nat>
    const maxPages: nat

    /** The position map is the index map of the deque. */
    ghost predicate Valid()
      reads this
    {
      && Distinct(pages) && |pages| <= maxPages
      && Indexed(pages, positions)
    }

    constructor (maxPages: nat)
      ensures Valid() && pages == [] && this.maxPages == maxPages
    {
      pages, positions, this.maxPages := [], map[], maxPages;
    }

    method AccessPage(f: Frame)
      requires Valid()
      modifies this
      ensures Valid() && pages == Touch(old(pages), f, maxPages)
    {
      ghost var before := pages;
      if f in positions {
        var position := positions[f];
        WithoutDistinct(pages, position);
        RemoveAtKeepsDistinct(pages, position);
        pages := RemoveAt(pages, position);
        positions := Shifted(positions, position);
      } else {
        WithoutAbsent(pages, f);
      }
      assert pages == Without(before, f) && Distinct(pages);
      pages := [f] + pages;
      Reindex();
      Truncate();
    }

    /** Record every page's index. */
    method Reindex()
      requires Distinct(pages) && forall g :: g in positions ==> g in pages
      modifies this`positions
      ensures Indexed(pages, positions)
    {
      for i := 0 to |pages|
        invariant forall g :: g in positions ==> g in pages
        invariant forall j :: 0 <= j < i ==> pages[j] in positions && positions[pages[j]] == j
      {
        positions := positions[pages[i] := i];
      }
    }

    /** Drop the oldest pages over the limit. */
    method Truncate()
      requires Distinct(pages) && Indexed(pages, positions)
      modifies this
      ensures Valid() && pages == Take(old(pages), maxPages)
    {
      ghost var full := pages;
      while |pages| > maxPages
        invariant pages <= full && Distinct(pages) && (pages != full ==> |pages| >= maxPages)
        invariant Indexed(pages, positions)
      {
        DropLast(pages, positions);
        positions := positions - {pages[|pages| - 1]};
        pages := pages[..|pages| - 1];
      }
    }

    /** The least recently used tracked page, whatever accesses and removals led here. */
    method GetVictimPage() returns (victim: Option<Frame>)
      ensures victim.None? <==> pages == []
      ensures victim.Some? ==> pages == pages[..|pages| - 1] + [victim.value]
      ensures victim.Some? ==> forall uses {:trigger LruAfter(maxPages, uses)} ::
                pages == LruAfter(maxPages, uses) ==> UsedFirst(Trace(uses), pages, victim.value)
    {
      if pages == [] {
        return None;
      }
      forall uses | pages == LruAfter(maxPages, uses)
        ensures UsedFirst(Trace(uses), pages, pages[|pages| - 1])
      {
        LruVictimIsLeastRecent(maxPages, uses);
      }
      return Some(pages[|pages| - 1]);
    }

    method RemovePage(f: Frame)
      requires Valid()
      modifies this
      ensures Valid() && pages == Without(old(pages), f)
    {
      if f in positions {
        var position := positions[f];
        WithoutDistinct(pages, position);
        RemoveAtKeepsDistinct(pages, position);
        ShiftKeepsIndex(pages, positions, position);
        pages := RemoveAt(pages, position);
        positions := positions - {f};
        positions := Shifted(positions, position);
      } else {
        WithoutAbsent(pages, f);
      }
    }
  }

  ghost predicate Indexed(pages: seq<Frame>, positions: map<Frame, nat>) {
    && (forall g :: g in positions <==> g in pages)
    && (forall i :: 0 <= i < |pages| ==> pages[i] in positions && positions[pages[i]] == i)
  }

  lemma DropLast(pages: seq<Frame>, positions: map<Frame, nat>)
    requires pages != [] && Distinct(pages) && Indexed(pages, positions)
    ensures Indexed(pages[..|pages| - 1], positions - {pages[|pages| - 1]})
  {
    var init, last := pages[..|pages| - 1], pages[|pages| - 1];
    assert pages == init + [last];
  }

  function Shifted(positions: map<Frame, nat>, position: nat): map<Frame, nat> {
    map g | g in positions :: if positions[g] > position then positions[g] - 1 else positions[g]
  }

  /** Dropping one page and shifting the later positions keeps the index right. */
  lemma ShiftKeepsIndex(pages: seq<Frame>, positions: map<Frame, nat>, k: nat)
    requires Distinct(pages) && Indexed(pages, positions) && k < |pages|
    ensures Indexed(RemoveAt(pages, k), Shifted(positions - {pages[k]}, k))
  {
    var pages', positions' := RemoveAt(pages, k), Shifted(positions - {pages[k]}, k);
    RemoveAtKeepsDistinct(pages, k);
    forall i | 0 <= i < |pages'|
      ensures pages'[i] in positions' && positions'[pages'[i]] == i
    {
      var j := if i < k then i else i + 1;
      assert pages'[i] == pages[j];
    }
  }

  // ---------------------------------------------------------------- FIFO

  function Admit(pages: seq<Frame>, f: Frame, capacity: nat): seq<Frame> {
    if f in pages then pages
    else Newest(pages + [f], capacity)
  }

  /** The last k, or all if there are fewer. */
  function Newest<T>(s: seq<T>, k: nat): seq<T> {
    if |s| <= k then s else s[|s| - k..]
  }

  lemma NewestNext<T>(s: seq<T>, x: T, k: nat)
    ensures Newest(Newest(s, k) + [x], k) == Newest(s + [x], k)
  {}

  function FifoRun(capacity: nat, trace: seq<Frame>): seq<Frame> {
    if trace == [] then [] else Admit(FifoRun(capacity, trace[..|trace| - 1]), trace[|trace| - 1], capacity)
  }

  /** The frames whose access found them absent, in order. */
  function Absent(capacity: nat, trace: seq<Frame>): seq<Frame> {
    if trace == [] then []
    else
      var init, f := trace[..|trace| - 1], trace[|trace| - 1];
      Absent(capacity, init) + (if f in FifoRun(capacity, init) then [] else [f])
  }

  lemma AdmitNewest(pages: seq<Frame>, absent: seq<Frame>, f: Frame, capacity: nat)
    requires pages == Newest(absent, capacity)
    ensures Admit(pages, f, capacity) == Newest(absent + (if f in pages then [] else [f]), capacity)
  {
    if f in pages {
      assert absent + [] == absent;
    } else {
      NewestNext(absent, f, capacity);
    }
  }

  /** FIFO holds exactly the last `capacity` pages that were brought in, oldest first. */
  lemma {:induction false} FifoHoldsLastAdmitted(capacity: nat, trace: seq<Frame>)
    ensures FifoRun(capacity, trace) == Newest(Absent(capacity, trace), capacity)
  {
    if trace == [] {
    } else {
      var init := trace[..|trace| - 1];
      FifoHoldsLastAdmitted(capacity, init);
      AdmitNewest(FifoRun(capacity, init), Absent(capacity, init), trace[|trace| - 1], capacity);
    }
  }

  function FifoAfter(capacity: nat, uses: seq<Use>): seq<Frame> {
    if uses == [] then []
    else
      var pages := FifoAfter(capacity, uses[..|uses| - 1]);
      match uses[|uses| - 1]
      case Touched(f) => Admit(pages, f, capacity)
      case Dropped(f) => Without(pages, f)
  }

  /** The frames brought in, in order. */
  function Admissions(capacity: nat, uses: seq<Use>): seq<Frame> {
    if uses == [] then []
    else
      var init, u := uses[..|uses| - 1], uses[|uses| - 1];
      Admissions(capacity, init) + if u.Touched? && u.frame !in FifoAfter(capacity, init) then [u.frame] else []
  }

  ghost predicate ByAdmission(admitted: seq<Frame>, pages: seq<Frame>) {
    forall i, j {:trigger pages[i], pages[j]} :: 0 <= i < j < |pages| ==>
      LastUse(admitted, pages[i]) < LastUse(admitted, pages[j])
  }

  lemma AdmitKeepsOrder(admitted: seq<Frame>, pages: seq<Frame>, f: Frame)
    requires ByAdmission(admitted, pages) && f !in pages
    ensures ByAdmission(admitted + [f], pages + [f])
  {
    assert (admitted + [f])[..|admitted|] == admitted;
    forall i, j | 0 <= i < j < |pages + [f]|
      ensures LastUse(admitted + [f], (pages + [f])[i]) < LastUse(admitted + [f], (pages + [f])[j])
    {
      assert pages[i] in pages;
      LastUseBound(admitted, pages[i]);
      if j < |pages| {
        assert pages[j] in pages;
      }
    }
  }

  lemma RemoveKeepsAdmission(admitted: seq<Frame>, pages: seq<Frame>, k: nat)
    requires ByAdmission(admitted, pages) && k < |pages|
    ensures ByAdmission(admitted, RemoveAt(pages, k))
  {
    var rest := RemoveAt(pages, k);
    forall i, j | 0 <= i < j < |rest|
      ensures LastUse(admitted, rest[i]) < LastUse(admitted, rest[j])
    {
      assert rest[i] == pages[if i < k then i else i + 1] && rest[j] == pages[if j < k then j else j + 1];
    }
  }

  lemma DropKeepsOrder(admitted: seq<Frame>, pages: seq<Frame>, f: Frame)
    requires ByAdmission(admitted, pages) && Distinct(pages)
    ensures ByAdmission(admitted, Without(pages, f))
  {
    if f in pages {
      var k :| 0 <= k < |pages| && pages[k] == f;
      WithoutDistinct(pages, k);
      RemoveKeepsAdmission(admitted, pages, k);
    } else {
      WithoutAbsent(pages, f);
    }
  }

  lemma {:induction false} FifoOrdered(capacity: nat, uses: seq<Use>)
    ensures Distinct(FifoAfter(capacity, uses)) && ByAdmission(Admissions(capacity, uses), FifoAfter(capacity, uses))
  {
    if uses == [] {
    } else {
      var init := uses[..|uses| - 1];
      var f, pages, admitted := uses[|uses| - 1].frame, FifoAfter(capacity, init), Admissions(capacity, init);
      FifoOrdered(capacity, init);
      assert admitted + [] == admitted;
      if uses[|uses| - 1].Dropped? {
        DropKeepsOrder(admitted, pages, f);
        WithoutKeepsDistinct(pages, f);
      } else if f !in pages {
        AdmitKeepsOrder(admitted, pages, f);
      }
    }
  }

  /** After every run of accesses and removals the first page is the one brought in longest ago. */
  lemma FifoVictimIsOldest(capacity: nat, uses: seq<Use>)
    requires FifoAfter(capacity, uses) != []
    ensures UsedFirst(Admissions(capacity, uses), FifoAfter(capacity, uses), FifoAfter(capacity, uses)[0])
  {
    FifoOrdered(capacity, uses);
    var pages := FifoAfter(capacity, uses);
    forall g | g in pages && g != pages[0]
      ensures LastUse(Admissions(capacity, uses), pages[0]) < LastUse(Admissions(capacity, uses), g)
    {
      var i :| 0 <= i < |pages| && pages[i] == g;
    }
  }

  class FIFOReplacer {
    var pages: seq<Frame>
    const maxPages: nat

    ghost predicate Valid()
      reads this
    {
      Distinct(pages) && |pages| <= maxPages
    }

    constructor (maxPages: nat)
      ensures Valid() && pages == [] && this.maxPages == maxPages
    {
      pages, this.maxPages := [], maxPages;
    }

    method AddPage(f: Frame)
      requires Valid()
      modifies this
      ensures Valid() && pages == Admit(old(pages), f, maxPages)
    {
      if f !in pages {
        pages := pages + [f];
        DropOldest();
      }
    }

    /** Drop pages from the front while there are too many. */
    method DropOldest()
      requires Distinct(pages)
      modifies this`pages
      ensures Valid()
      ensures pages == if |old(pages)| <= maxPages then old(pages) else old(pages)[|old(pages)| - maxPages..]
    {
      ghost var all := pages;
      ghost var d: nat := 0;
      while |pages| > maxPages
        invariant d <= |all| && pages == all[d..] && (d > 0 ==> |pages| >= maxPages)
      {
        pages := pages[1..];
        d := d + 1;
      }
    }

    /** The tracked page brought in longest ago, whatever accesses and removals led here. */
    method GetVictimPage() returns (victim: Option<Frame>)
      ensures victim.None? <==> pages == []
      ensures victim.Some? ==> pages == [victim.value] + pages[1..]
      ensures victim.Some? ==> forall uses {:trigger FifoAfter(maxPages, uses)} ::
                pages == FifoAfter(maxPages, uses) ==> UsedFirst(Admissions(maxPages, uses), pages, victim.value)
    {
      if pages == [] {
        return None;
      }
      forall uses | pages == FifoAfter(maxPages, uses)
        ensures UsedFirst(Admissions(maxPages, uses), pages, pages[0])
      {
        FifoVictimIsOldest(maxPages, uses);
      }
      return Some(pages[0]);
    }

    method RemovePage(f: Frame)
      requires Valid()
      modifies this
      ensures Valid() && pages == Without(old(pages), f)
    {
      var i := 0;
      while i < |pages| && pages[i] != f
        invariant i <= |pages| && f !in pages[..i]
      {
        i := i + 1;
      }
      if i < |pages| {
        WithoutDistinct(pages, i);
        RemoveAtKeepsDistinct(pages, i);
        pages := RemoveAt(pages, i);
      } else {
        assert pages[..i] == pages;
        WithoutAbsent(pages, f);
      }
    }
  }
}
