/** The second-chance (Clock) replacer. */
module ClockReplacement {
  import opened Collections
  import opened Types

  datatype Slot = Slot(frame: Frame, referenced: bool)

  datatype Clock = Clock(pages: seq<Slot>, hand: nat, capacity: nat)

  /** `Panic` is the out-of-bounds index of the last line of the victim search. */
  datatype Search = NoPages | Victim(frame: Frame) | Panic

  datatype Op = Access(frame: Frame) | Select | Remove(frame: Frame)

  // ---------------------------------------------------------------- circular positions

  /** Where the search starts: a hand past the end wraps to the front. */
  function Start(c: Clock): nat {
    if c.hand >= |c.pages| then 0 else c.hand
  }

  /** How many steps from h to i in circular order. */
  function Distance(h: nat, i: nat, len: nat): nat
    requires h < len && i < len
  {
    if i >= h then i - h else i + len - h
  }

  /** Clear the first t reference bits in circular order from h. */
  function Swept(pages: seq<Slot>, h: nat, t: nat): seq<Slot>
    requires h < |pages|
  {
    seq(|pages|, i requires 0 <= i < |pages| =>
      if Distance(h, i, |pages|) < t then pages[i].(referenced := false) else pages[i])
  }

  /** Steps from h to the first unreferenced page, |pages| if every bit is set. */
  function Steps(pages: seq<Slot>, h: nat, t: nat): (n: nat)
    requires h < |pages| && t <= |pages|
    ensures t <= n <= |pages|
    ensures forall j :: t <= j < n ==> pages[Around(h, j, |pages|)].referenced
    ensures n < |pages| ==> !pages[Around(h, n, |pages|)].referenced
    decreases |pages| - t
  {
    if t == |pages| || !pages[Around(h, t, |pages|)].referenced then t else Steps(pages, h, t + 1)
  }

  ghost predicate AllReferenced(pages: seq<Slot>) {
    forall i :: 0 <= i < |pages| ==> pages[i].referenced
  }

  lemma StepsAll(pages: seq<Slot>, h: nat)
    requires h < |pages|
    ensures Steps(pages, h, 0) == |pages| <==> AllReferenced(pages)
  {
    if Steps(pages, h, 0) == |pages| {
      forall i | 0 <= i < |pages|
        ensures pages[i].referenced
      {
        assert pages[Around(h, Distance(h, i, |pages|), |pages|)] == pages[i];
      }
    }
  }

  // ---------------------------------------------------------------- specification

  function IndexOf(pages: seq<Slot>, f: Frame): (i: nat)
    ensures i <= |pages|
    ensures i < |pages| ==> pages[i].frame == f
    ensures forall j :: 0 <= j < i ==> pages[j].frame != f
  {
    if pages == [] || pages[0].frame == f then 0 else 1 + IndexOf(pages[1..], f)
  }

  /** The new page takes the first unreferenced place, or the starting one after a full turn. */
  function Replaced(c: Clock, f: Frame): Clock
    requires c.pages != []
  {
    var h := Start(c);
    var n := Steps(c.pages, h, 0);
    var i := Around(h, n, |c.pages|);
    c.(pages := Swept(c.pages, h, n)[i := Slot(f, true)], hand := i + 1)
  }

  /** With no room at all the replacement indexes an empty vector: nothing changes and the access panics. */
  function Accessed(c: Clock, f: Frame): Clock {
    var i := IndexOf(c.pages, f);
    if i < |c.pages| then c.(pages := c.pages[i := Slot(f, true)])
    else if |c.pages| < c.capacity then c.(pages := c.pages + [Slot(f, true)])
    else if c.pages == [] then c
    else Replaced(c, f)
  }

  /** Outcome of the victim search and the state it leaves. */
  function Selected(c: Clock): (Clock, Search) {
    if c.pages == [] then (c, NoPages)
    else
      var h := Start(c);
      var n := Steps(c.pages, h, 0);
      var swept := Swept(c.pages, h, n);
      if n < |c.pages| then
        (c.(pages := swept, hand := Around(h, n, |c.pages|) + 1), Victim(c.pages[Around(h, n, |c.pages|)].frame))
      else if c.hand == 0 then (c.(pages := swept, hand := 1), Victim(c.pages[0].frame))
      else if c.hand < |c.pages| then (c.(pages := swept), Victim(c.pages[c.hand].frame))
      else (c.(pages := swept, hand := |c.pages|), Panic)
  }

  function Removed(c: Clock, f: Frame): Clock {
    var i := IndexOf(c.pages, f);
    if i == |c.pages| then c
    else
      var pages := RemoveAt(c.pages, i);
      var hand := if c.hand > i then c.hand - 1 else if c.hand >= |pages| && pages != [] then 0 else c.hand;
      c.(pages := pages, hand := hand)
  }

  ghost predicate Inv(c: Clock) {
    && c.hand <= |c.pages| <= c.capacity
    && forall i, j :: 0 <= i < j < |c.pages| ==> c.pages[i].frame != c.pages[j].frame
  }

  function Step(c: Clock, op: Op): Clock {
    match op
    case Access(f) => Accessed(c, f)
    case Select => Selected(c).0
    case Remove(f) => Removed(c, f)
  }

  function Run(c: Clock, ops: seq<Op>): Clock {
    if ops == [] then c else Step(Run(c, ops[..|ops| - 1]), ops[|ops| - 1])
  }

  function Empty(capacity: nat): Clock {
    Clock([], 0, capacity)
  }

  // ---------------------------------------------------------------- what every run keeps

  lemma StepKeepsInv(c: Clock, op: Op)
    requires Inv(c)
    ensures Inv(Step(c, op))
  {
    match op {
      case Access(f) =>
        if IndexOf(c.pages, f) == |c.pages| && |c.pages| >= c.capacity && c.pages != [] { ReplacedKeepsInv(c, f); }
      case Select => SelectedKeepsInv(c);
      case Remove(f) => RemovedKeepsInv(c, f);
    }
  }

  lemma SelectedKeepsInv(c: Clock)
    requires Inv(c)
    ensures Inv(Selected(c).0)
  {}

  lemma ReplacedKeepsInv(c: Clock, f: Frame)
    requires Inv(c) && c.pages != [] && IndexOf(c.pages, f) == |c.pages|
    ensures Inv(Replaced(c, f))
  {
    var h := Start(c);
    var n := Steps(c.pages, h, 0);
    var swept := Swept(c.pages, h, n);
    assert forall i :: 0 <= i < |swept| ==> swept[i].frame == c.pages[i].frame != f;
  }

  lemma RemovedKeepsInv(c: Clock, f: Frame)
    requires Inv(c)
    ensures Inv(Removed(c, f))
  {
    var k := IndexOf(c.pages, f);
    if k < |c.pages| {
      var pages := RemoveAt(c.pages, k);
      forall i, j | 0 <= i < j < |pages|
        ensures pages[i].frame != pages[j].frame
      {
        assert pages[i] == c.pages[if i < k then i else i + 1] && pages[j] == c.pages[if j < k then j else j + 1];
      }
    }
  }

  /** Over every run, removals included, the hand stays within the pages and no page is tracked twice. */
  lemma {:induction false} RunKeepsInv(capacity: nat, ops: seq<Op>)
    ensures Inv(Run(Empty(capacity), ops))
  {
    if ops == [] {
    } else {
      RunKeepsInv(capacity, ops[..|ops| - 1]);
      StepKeepsInv(Run(Empty(capacity), ops[..|ops| - 1]), ops[|ops| - 1]);
    }
  }

  /**
   The search returns the first unreferenced page in circular order from the hand, having cleared
   exactly the bits it passed; if every bit is set it clears them all and returns the hand's own page.
   It panics exactly when every bit is set and the hand is past the last page.
   */
  lemma SelectedMeaning(c: Clock)
    requires Inv(c) && c.pages != []
    ensures var (c', r) := Selected(c); var h, len := Start(c), |c.pages|;
            && (r.Panic? <==> AllReferenced(c.pages) && c.hand == len)
            && (AllReferenced(c.pages) && c.hand < len ==> r == Victim(c.pages[c.hand].frame))
            && (!AllReferenced(c.pages) ==>
                  exists t :: 0 <= t < len && r == Victim(c.pages[Around(h, t, len)].frame)
                    && !c.pages[Around(h, t, len)].referenced
                    && (forall j :: 0 <= j < t ==> c.pages[Around(h, j, len)].referenced)
                    && (forall i :: 0 <= i < len ==>
                          c'.pages[i].referenced == (c.pages[i].referenced && Distance(h, i, len) >= t)))
            && (AllReferenced(c.pages) ==> forall i :: 0 <= i < len ==> !c'.pages[i].referenced)
            && |c'.pages| == len && (forall i :: 0 <= i < len ==> c'.pages[i].frame == c.pages[i].frame)
  {
    var h, len := Start(c), |c.pages|;
    var n := Steps(c.pages, h, 0);
    StepsAll(c.pages, h);
    if n < len {
      var c' := Selected(c).0;
      forall i | 0 <= i < len
        ensures c'.pages[i].referenced == (c.pages[i].referenced && Distance(h, i, len) >= n)
      {}
    }
  }

  /**
   A new page takes the place of the first unreferenced page in circular order from the hand, or of the
   page the search started at if every bit is set; exactly the bits passed are cleared.
   */
  lemma ReplacedMeaning(c: Clock, f: Frame)
    requires Inv(c) && c.pages != [] && IndexOf(c.pages, f) == |c.pages| == c.capacity
    ensures var c' := Accessed(c, f); var h, len := Start(c), |c.pages|;
            && |c'.pages| == len
            && exists t :: 0 <= t <= len && Displaces(c, c', f, t)
                 && (forall j :: 0 <= j < t ==> c.pages[Around(h, j, len)].referenced)
                 && (t < len ==> !c.pages[Around(h, t, len)].referenced)
  {
    var n := Steps(c.pages, Start(c), 0);
    assert Displaces(c, Accessed(c, f), f, n);
  }

  // ---------------------------------------------------------------- the second chance

  /** An access leaves the page tracked with its bit set, whether it was known, there was room, or it replaces one. */
  lemma AccessSetsBit(c: Clock, f: Frame)
    requires Inv(c) && c.capacity > 0
    ensures Slot(f, true) in Accessed(c, f).pages
  {
    var i, c' := IndexOf(c.pages, f), Accessed(c, f);
    if i < |c.pages| {
      assert c'.pages[i] == Slot(f, true);
    } else if |c.pages| < c.capacity {
      assert c'.pages[|c.pages|] == Slot(f, true);
    } else {
      var h := Start(c);
      assert c'.pages[Around(h, Steps(c.pages, h, 0), |c.pages|)] == Slot(f, true);
    }
  }

  /** Unless a page has to go, an access changes no other page and does not move the hand. */
  lemma AccessWithoutReplacing(c: Clock, f: Frame)
    requires Inv(c) && (|c.pages| < c.capacity || exists s :: s in c.pages && s.frame == f)
    ensures var c' := Accessed(c, f);
            && c'.hand == c.hand && c'.capacity == c.capacity
            && |c.pages| <= |c'.pages| <= |c.pages| + 1
            && (|c'.pages| == |c.pages| <==> exists s :: s in c.pages && s.frame == f)
            && forall i :: 0 <= i < |c'.pages| ==>
                 c'.pages[i] == if i < |c.pages| && c.pages[i].frame != f then c.pages[i] else Slot(f, true)
  {
    var i := IndexOf(c.pages, f);
    if s :| s in c.pages && s.frame == f {
      var j :| 0 <= j < |c.pages| && c.pages[j] == s;
      assert i <= j;
    }
    if i < |c.pages| { assert c.pages[i] in c.pages; }
  }

  /** After a search the hand stands behind the victim; only a fruitless turn from further on leaves it where it was. */
  lemma SelectedHand(c: Clock)
    requires Inv(c) && Selected(c).1.Victim?
    ensures var (c', r) := Selected(c);
            c'.hand == if AllReferenced(c.pages) && c.hand > 0 then c.hand else IndexOf(c.pages, r.frame) + 1
  {
    var h := Start(c);
    var n := Steps(c.pages, h, 0);
    StepsAll(c.pages, h);
    var v := if n < |c.pages| then Around(h, n, |c.pages|) else c.hand;
    assert Selected(c).1.frame == c.pages[v].frame;
    assert IndexOf(c.pages, c.pages[v].frame) == v;
  }

  /** A page whose bit is set is the next victim only if every bit is set. */
  lemma SecondChance(c: Clock, f: Frame)
    requires Inv(c) && Slot(f, true) in c.pages && Selected(c).1 == Victim(f)
    ensures AllReferenced(c.pages)
  {
    var i :| 0 <= i < |c.pages| && c.pages[i] == Slot(f, true);
    var h := Start(c);
    var n := Steps(c.pages, h, 0);
    StepsAll(c.pages, h);
  }

  /** The operation makes the hand search: for a victim, or for the place of a new page. */
  predicate Searches(c: Clock, op: Op) {
    op.Select? || (op.Access? && IndexOf(c.pages, op.frame) == |c.pages| >= c.capacity)
  }

  /** A search would pass f: every page from where it starts up to f, and f itself, has its bit set. */
  ghost predicate Passes(c: Clock, f: Frame) {
    exists i :: 0 <= i < |c.pages| && c.pages[i].frame == f &&
      forall j :: 0 <= j < |c.pages| && Distance(Start(c), j, |c.pages|) <= Distance(Start(c), i, |c.pages|) ==>
        c.pages[j].referenced
  }

  /** If f is among the first n pages and those are referenced, the search passes it. */
  lemma PassedWithin(c: Clock, f: Frame, i: nat)
    requires i < |c.pages| && c.pages[i].frame == f
    requires Distance(Start(c), i, |c.pages|) < Steps(c.pages, Start(c), 0)
    ensures Passes(c, f)
  {
    var h, len := Start(c), |c.pages|;
    forall j | 0 <= j < len && Distance(h, j, len) <= Distance(h, i, len)
      ensures c.pages[j].referenced
    {
      assert c.pages[Around(h, Distance(h, j, len), len)] == c.pages[j];
    }
  }

  lemma SweepKeepsBit(c: Clock, f: Frame, i: nat)
    requires i < |c.pages| && c.pages[i] == Slot(f, true) && !Passes(c, f)
    ensures var h, n := Start(c), Steps(c.pages, Start(c), 0);
            Swept(c.pages, h, n)[i] == Slot(f, true) && Around(h, n, |c.pages|) != i
  {
    var h, len := Start(c), |c.pages|;
    var n := Steps(c.pages, h, 0);
    if Distance(h, i, len) < n { PassedWithin(c, f, i); }
  }

  lemma AccessKeepsBit(c: Clock, g: Frame, f: Frame, i: nat)
    requires Inv(c) && i < |c.pages| && c.pages[i] == Slot(f, true) && !(Searches(c, Access(g)) && Passes(c, f))
    ensures Slot(f, true) in Accessed(c, g).pages
  {
    if Searches(c, Access(g)) { SweepKeepsBit(c, f, i); }
    assert Accessed(c, g).pages[i] == Slot(f, true);
  }

  lemma SelectKeepsBit(c: Clock, f: Frame, i: nat)
    requires Inv(c) && i < |c.pages| && c.pages[i] == Slot(f, true) && !Passes(c, f)
    ensures Slot(f, true) in Selected(c).0.pages
  {
    SweepKeepsBit(c, f, i);
    assert Selected(c).0.pages[i] == Slot(f, true);
  }

  lemma RemoveKeepsBit(c: Clock, g: Frame, f: Frame, i: nat)
    requires i < |c.pages| && c.pages[i] == Slot(f, true) && g != f
    ensures Slot(f, true) in Removed(c, g).pages
  {
    var k := IndexOf(c.pages, g);
    if k < |c.pages| { assert Removed(c, g).pages[if i < k then i else i - 1] == c.pages[i]; }
  }

  /** Only a search that passes the page, or its removal, takes its bit away. */
  lemma StepKeepsBit(c: Clock, op: Op, f: Frame)
    requires Inv(c) && Slot(f, true) in c.pages && op != Remove(f) && !(Searches(c, op) && Passes(c, f))
    ensures Slot(f, true) in Step(c, op).pages
  {
    var i :| 0 <= i < |c.pages| && c.pages[i] == Slot(f, true);
    match op
    case Access(g) => AccessKeepsBit(c, g, f, i);
    case Select => SelectKeepsBit(c, f, i);
    case Remove(g) => RemoveKeepsBit(c, g, f, i);
  }

  /** No operation of the run removes f, and no search in it passes f. */
  ghost predicate Spared(c: Clock, ops: seq<Op>, f: Frame) {
    if ops == [] then true
    else
      var init, op := ops[..|ops| - 1], ops[|ops| - 1];
      Spared(c, init, f) && op != Remove(f) && !(Searches(Run(c, init), op) && Passes(Run(c, init), f))
  }

  lemma {:induction false} RunKeepsBit(c: Clock, ops: seq<Op>, f: Frame)
    requires Inv(c) && Slot(f, true) in c.pages && Spared(c, ops, f)
    ensures Inv(Run(c, ops)) && Slot(f, true) in Run(c, ops).pages
  {
    if ops == [] {
    } else {
      var init, op := ops[..|ops| - 1], ops[|ops| - 1];
      RunKeepsBit(c, init, f);
      StepKeepsInv(Run(c, init), op);
      StepKeepsBit(Run(c, init), op, f);
    }
  }

  /** A page accessed since the hand last passed it is the next victim only if every page has been. */
  lemma AccessedPageIsSpared(c: Clock, ops: seq<Op>, f: Frame)
    requires Inv(c) && c.capacity > 0 && Spared(Accessed(c, f), ops, f)
    ensures var c' := Run(Accessed(c, f), ops); Selected(c').1 == Victim(f) ==> AllReferenced(c'.pages)
  {
    AccessSetsBit(c, f);
    StepKeepsInv(c, Access(f));
    RunKeepsBit(Accessed(c, f), ops, f);
    var c' := Run(Accessed(c, f), ops);
    if Selected(c').1 == Victim(f) { SecondChance(c', f); }
  }

  /** A removal keeps the other pages, their bits and their order, and the page the hand comes to next. */
  lemma RemovalKeepsNext(c: Clock, k: nat)
    requires Inv(c) && k < |c.pages| && |c.pages| > 1
    ensures var c', h := Removed(c, c.pages[k].frame), Start(c);
            && c'.pages == RemoveAt(c.pages, k) && c'.capacity == c.capacity
            && c'.pages[Start(c')] == (if h != k then c.pages[h] else c.pages[Around(h, 1, |c.pages|)])
            && (c'.hand == |c'.pages| <==> c.hand == |c.pages|)
  {
    assert IndexOf(c.pages, c.pages[k].frame) == k;
  }

  /** f has replaced the page t steps from the hand, which has moved past it. */
  ghost predicate Displaces(c: Clock, c': Clock, f: Frame, t: nat)
    requires |c'.pages| == |c.pages| > 0 && t <= |c.pages|
  {
    var h, len := Start(c), |c.pages|;
    var i := Around(h, t, len);
    && c'.pages[i] == Slot(f, true) && c'.hand == i + 1
    && forall k :: 0 <= k < len && k != i ==>
         c'.pages[k] == Slot(c.pages[k].frame, c.pages[k].referenced && Distance(h, k, len) >= t)
  }

  /** The panic is reachable: one frame of room, two accesses, one search. */
  lemma PanicIsReachable()
    ensures Selected(Run(Empty(1), [Access(7), Access(8)])).1 == Panic
  {
    var ops := [Access(7), Access(8)];
    assert ops[..1] == [Access(7)] && [Access(7)][..0] == [];
    var c1 := Run(Empty(1), [Access(7)]);
    assert c1 == Clock([Slot(7, true)], 0, 1);
    assert IndexOf(c1.pages, 8) == 1;
    assert Steps(c1.pages, 0, 0) == 1;
    var c2 := Accessed(c1, 8);
    assert c2.pages == [Slot(8, true)] && c2.hand == 1;
    assert Steps(c2.pages, 0, 0) == 1;
  }

  // ---------------------------------------------------------------- evicting one victim after another

  /** The pages before the hand are all referenced, those from it on are not, and the hand is not at the front. */
  ghost predicate Armed(c: Clock) {
    && 0 < c.hand <= |c.pages|
    && (forall i :: 0 <= i < c.hand ==> c.pages[i].referenced)
    && (forall i :: c.hand <= i < |c.pages| ==> !c.pages[i].referenced)
  }

  /** The page just passed leaves, and the hand stays where it was. */
  lemma RemovedBehindHand(c: Clock, v: nat)
    requires Inv(c) && v < |c.pages| && c.hand == v + 1
    ensures Removed(c, c.pages[v].frame) == c.(pages := RemoveAt(c.pages, v), hand := v)
  {
    assert IndexOf(c.pages, c.pages[v].frame) == v;
  }

  /** The victim is n steps from the start; everything before it loses its bit, and it goes. */
  lemma TakenAfterSweep(c: Clock, n: nat)
    requires Inv(c) && c.pages != [] && n == Steps(c.pages, Start(c), 0) < |c.pages|
    ensures var h := Start(c); var v := Around(h, n, |c.pages|);
            && Selected(c).1 == Victim(c.pages[v].frame)
            && Removed(Selected(c).0, c.pages[v].frame)
               == c.(pages := RemoveAt(Swept(c.pages, h, n), v), hand := v)
  {
    SelectedKeepsInv(c);
    RemovedBehindHand(Selected(c).0, Around(Start(c), n, |c.pages|));
  }

  /** The page the search starts at is unreferenced: it goes, and the rest closes up behind the hand. */
  lemma TakenAtHand(c: Clock)
    requires Inv(c) && c.pages != [] && !c.pages[Start(c)].referenced
    ensures var h := Start(c);
            && Selected(c).1 == Victim(c.pages[h].frame)
            && Removed(Selected(c).0, c.pages[h].frame) == c.(pages := RemoveAt(c.pages, h), hand := h)
  {
    TakenAfterSweep(c, 0);
    assert Swept(c.pages, Start(c), 0) == c.pages;
  }

  lemma SweptIsUnarmed(pages: seq<Slot>, h: nat, n: nat, capacity: nat)
    requires h < |pages| && 0 < n < |pages|
    ensures var v := Around(h, n, |pages|); !Armed(Clock(RemoveAt(Swept(pages, h, n), v), v, capacity))
  {
    var v, swept := Around(h, n, |pages|), Swept(pages, h, n);
    var low := if h < v then h else 0;
    assert v > 0 ==> low < v && !swept[low].referenced && RemoveAt(swept, v)[low] == swept[low];
  }

  /** After a full turn no page is referenced any more. */
  lemma TakenAfterTurn(c: Clock)
    requires Inv(c) && c.pages != [] && Steps(c.pages, Start(c), 0) == |c.pages| && Selected(c).1.Victim?
    ensures !Armed(Removed(Selected(c).0, Selected(c).1.frame))
  {
    var s := Selected(c).0;
    assert forall i :: 0 <= i < |s.pages| ==> !s.pages[i].referenced;
    UnreferencedIsUnarmed(s, Selected(c).1.frame);
  }

  lemma UnreferencedIsUnarmed(c: Clock, f: Frame)
    requires forall i :: 0 <= i < |c.pages| ==> !c.pages[i].referenced
    ensures !Armed(Removed(c, f))
  {
    var v, c' := IndexOf(c.pages, f), Removed(c, f);
    if |c'.pages| > 0 {
      assert c'.pages[0] == c.pages[if v > 0 then 0 else 1];
    }
  }

  /** Otherwise the starting page loses its bit, and the clock neither was nor is armed. */
  lemma TakenLater(c: Clock)
    requires Inv(c) && c.pages != [] && c.pages[Start(c)].referenced && Selected(c).1.Victim?
    ensures !Armed(c) && !Armed(Removed(Selected(c).0, Selected(c).1.frame))
  {
    var n := Steps(c.pages, Start(c), 0);
    StepsAll(c.pages, Start(c));
    if n < |c.pages| {
      TakenAfterSweep(c, n);
      SweptIsUnarmed(c.pages, Start(c), n, c.capacity);
    } else {
      TakenAfterTurn(c);
    }
  }

  /** Taking a victim neither arms nor disarms the clock; armed, it takes the page at the hand. */
  lemma TakingKeepsArmed(c: Clock)
    requires Inv(c) && Selected(c).1.Victim?
    ensures var c' := Removed(Selected(c).0, Selected(c).1.frame);
            && (Armed(c') <==> Armed(c))
            && (Armed(c) ==> c.hand < |c.pages| && Selected(c).1.frame == c.pages[c.hand].frame &&
                             c' == c.(pages := RemoveAt(c.pages, c.hand)))
  {
    if !c.pages[Start(c)].referenced {
      TakenAtHand(c);
      ClosedUpArmed(c, c.(pages := RemoveAt(c.pages, Start(c)), hand := Start(c)));
    } else {
      TakenLater(c);
    }
  }

  lemma ClosedUpArmed(c: Clock, c': Clock)
    requires c.hand <= |c.pages| && c.pages != [] && !c.pages[Start(c)].referenced
    requires c' == c.(pages := RemoveAt(c.pages, Start(c)), hand := Start(c))
    ensures (Armed(c') <==> Armed(c)) && (Armed(c) ==> c.hand < |c.pages|)
  {
    var h := Start(c);
    assert forall i :: 0 <= i < |c'.pages| ==> c'.pages[i] == c.pages[if i < h then i else i + 1];
    if Armed(c') {
      forall i | 0 <= i < |c.pages|
        ensures c.pages[i].referenced <==> i < h
      {
        if i != h { assert c'.pages[if i < h then i else i - 1] == c.pages[i]; }
      }
    }
  }

  /** The search panics exactly if the clock is armed and nothing is left from the hand on. */
  lemma PanicIffArmed(c: Clock)
    requires Inv(c)
    ensures Selected(c).1.Panic? <==> Armed(c) && c.hand == |c.pages|
  {
    if c.pages != [] { SelectedMeaning(c); }
  }

  lemma FullTurn(c: Clock)
    requires c == Clock([Slot(7, true), Slot(8, true)], 0, 2)
    ensures Accessed(c, 9) == Clock([Slot(9, true), Slot(8, false)], 1, 2)
  {
    assert IndexOf(c.pages, 9) == 2;
    StepsAll(c.pages, 0);
    assert Swept(c.pages, 0, 2) == [Slot(7, false), Slot(8, false)];
  }

  lemma TwoAccesses(c: Clock)
    requires c == Empty(2)
    ensures Accessed(Accessed(c, 7), 8) == Clock([Slot(7, true), Slot(8, true)], 0, 2)
  {
    var c1 := Accessed(c, 7);
    assert c1 == Clock([Slot(7, true)], 0, 2) && IndexOf(c1.pages, 8) == 1;
  }

  /** The third access finds every bit set: it clears them all and leaves the clock armed. */
  lemma ThreeAccesses(c: Clock)
    requires c == Empty(2)
    ensures var c' := Accessed(Accessed(Accessed(c, 7), 8), 9);
            c' == Clock([Slot(9, true), Slot(8, false)], 1, 2) && Armed(c')
  {
    TwoAccesses(c);
    FullTurn(Accessed(Accessed(c, 7), 8));
  }

  // ---------------------------------------------------------------- the replacer

  /** Where the search loop ends: at the first unreferenced page, or back where it started. */
  ghost predicate Probed(c: Clock, pages: seq<Slot>, hand: nat, found: Option<Frame>)
    requires c.pages != []
  {
    var h, len := Start(c), |c.pages|;
    var n := Steps(c.pages, h, 0);
    && pages == Swept(c.pages, h, n)
    && if n < len || c.hand == 0
       then found == Some(c.pages[Around(h, n, len)].frame) && hand == Around(h, n, len) + 1
       else found == None && hand == c.hand
  }

  class ClockReplacer {
    var pages: seq<Slot>
    var clockHand: nat
    const maxPages: nat

    ghost function State(): Clock
      reads this
    {
      Clock(pages, clockHand, maxPages)
    }

    constructor (maxPages: nat)
      ensures State() == Empty(maxPages) && Inv(State())
    {
      pages, clockHand, this.maxPages := [], 0, maxPages;
    }

    /** Panics exactly with no room at all, where the replacement loop indexes an empty vector. */
    method AccessPage(f: Frame) returns (panicked: bool)
      requires Inv(State())
      modifies this
      ensures State() == Accessed(old(State()), f) && Inv(State())
      ensures panicked <==> maxPages == 0
    {
      StepKeepsInv(State(), Access(f));
      for i := 0 to |pages|
        invariant pages == old(pages) && clockHand == old(clockHand)
        invariant forall j :: 0 <= j < i ==> pages[j].frame != f
      {
        if pages[i].frame == f {
          pages := pages[i := Slot(f, true)];
          return false;
        }
      }
      if |pages| < maxPages {
        pages := pages + [Slot(f, true)];
      } else if pages == [] {
        return true;
      } else {
        ReplacePage(f);
      }
      return false;
    }

    /** The hand after t bits have been cleared from h on. */
    ghost predicate HandAfter(h: nat, t: nat)
      requires h < |pages|
      reads this
    {
      t <= |pages| && if t == 0 then h == Start(State()) else clockHand == Around(h, t - 1, |pages|) + 1
    }

    /** Look at the page under the hand: pass it by, clearing its bit, or stop there. */
    method Turn(ghost was: seq<Slot>, ghost h: nat, ghost t: nat) returns (stopped: bool)
      requires h < |pages| == |was| && pages == Swept(was, h, t) && HandAfter(h, t)
      modifies this
      ensures |pages| == |was|
      ensures stopped == (t == |was| || !was[Around(h, t, |was|)].referenced)
      ensures if stopped then pages == old(pages) && clockHand == Around(h, t, |was|)
              else pages == Swept(was, h, t + 1) && clockHand == Around(h, t, |was|) + 1
    {
      if clockHand >= |pages| {
        clockHand := 0;
      }
      SweptAt(was, h, t);
      stopped := !pages[clockHand].referenced;
      if !stopped {
        pages := pages[clockHand := pages[clockHand].(referenced := false)];
        clockHand := clockHand + 1;
      }
    }

    method ReplacePage(f: Frame)
      requires Inv(State()) && pages != []
      modifies this
      ensures State() == Replaced(old(State()), f)
    {
      ghost var h, was := Start(State()), pages;
      ghost var n, t := Steps(pages, h, 0), 0;
      assert Swept(was, h, 0) == was;
      while true
        invariant t <= n && |pages| == |was| && h < |was|
        invariant pages == Swept(was, h, t) && HandAfter(h, t)
        decreases n - t
      {
        var stopped := Turn(was, h, t);
        if stopped {
          pages := pages[clockHand := Slot(f, true)];
          clockHand := clockHand + 1;
          break;
        }
        t := t + 1;
      }
    }

    /** Turn the hand until an unreferenced page is found, or back to where it started. */
    method Probe() returns (found: Option<Frame>, ghost probes: nat)
      requires Inv(State()) && pages != []
      modifies this
      ensures |pages| == |old(pages)| && probes <= |pages| + 1
      ensures Probed(old(State()), pages, clockHand, found)
    {
      probes := 0;
      var startPosition := clockHand;
      ghost var h, was := Start(State()), pages;
      ghost var n := Steps(pages, h, 0);
      assert Swept(was, h, 0) == was;
      while true
        invariant probes <= n && |pages| == |was| && h < |was|
        invariant pages == Swept(was, h, probes) && HandAfter(h, probes)
        invariant if probes == 0 then clockHand == startPosition else clockHand != startPosition
        decreases n - probes
      {
        var stopped := Turn(was, h, probes);
        probes := probes + 1;
        if stopped {
          assert probes == n + 1;
          found := Some(pages[clockHand].frame);
          clockHand := clockHand + 1;
          return;
        }
        if clockHand == startPosition {
          assert probes == n == |was|;
          return None, probes;
        }
      }
    }

    /** At most one more probe than there are pages. */
    method GetVictimPage() returns (result: Search, ghost probes: nat)
      requires Inv(State())
      modifies this
      ensures (State(), result) == Selected(old(State())) && Inv(State())
      ensures probes <= |pages| + 1
    {
      SelectedKeepsInv(State());
      if pages == [] {
        return NoPages, 0;
      }
      var found;
      found, probes := Probe();
      if found.Some? {
        return Victim(found.value), probes;
      }
      if clockHand >= |pages| {
        return Panic, probes;
      }
      return Victim(pages[clockHand].frame), probes;
    }

    method RemovePage(f: Frame)
      requires Inv(State())
      modifies this
      ensures State() == Removed(old(State()), f) && Inv(State())
    {
      RemovedKeepsInv(State(), f);
      var pos := IndexOf(pages, f);
      if pos < |pages| {
        pages := RemoveAt(pages, pos);
        if clockHand > pos {
          clockHand := clockHand - 1;
        } else if clockHand >= |pages| && pages != [] {
          clockHand := 0;
        }
      }
    }
  }

  /** One more sweep step, and what the next slot looks like before it. */
  lemma SweptAt(pages: seq<Slot>, h: nat, t: nat)
    requires h < |pages| && t <= |pages|
    ensures var i := Around(h, t, |pages|); var swept := Swept(pages, h, t);
            && swept[i].frame == pages[i].frame
            && swept[i].referenced == (t < |pages| && pages[i].referenced)
            && (t < |pages| ==> swept[i := swept[i].(referenced := false)] == Swept(pages, h, t + 1))
  {}
}
