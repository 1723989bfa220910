/**
 Round-robin, priority and least-CPU-time scheduling over the process table, with the notifications by
 which each switch feeds back into power management.  Each call is atomic.
 */
module Scheduling {
  import opened Collections
  import opened Types
  import opened PowerManagement
  import opened PriorityLevels
  import opened Processes
  import opened ZombieCleanup
  import opened ProcessTables

  const U64_MAX: nat := 0xFFFF_FFFF_FFFF_FFFF

  datatype Algorithm = RoundRobin | ByPriority | CompletelyFair

  /** Power management's view: the adjusted priority of a process, and whether it is throttled. */
  datatype Policy = Policy(adjusted: (Pid, Priority) -> Priority, throttled: Pid -> bool)

  // ---------------------------------------------------------------- specification

  /** The index after the last one scheduled, wrapping to the front. */
  function StartIndex(runnable: seq<Pid>, last: nat): nat {
    if last >= |runnable| then 0 else last
  }

  function PickNext(runnable: seq<Pid>, last: nat): (Option<Pid>, nat) {
    if runnable == [] then (None, last)
    else var i := StartIndex(runnable, last); (Some(runnable[i]), (i + 1) % |runnable|)
  }

  function CpuTime(t: Table, pid: Pid): nat {
    if Live(t, pid) then Get(t, pid).cpuTime else 0
  }

  /** Left-to-right search for the least CPU time below the u64 limit; ties go to the earlier process. */
  function PickLeast(t: Table, pids: seq<Pid>): Option<Pid> {
    if pids == [] then None
    else
      var best, pid := PickLeast(t, pids[..|pids| - 1]), pids[|pids| - 1];
      if CpuTime(t, pid) < Bound(t, best) then Some(pid) else best
  }

  /** The CPU time to beat. */
  function Bound(t: Table, best: Option<Pid>): nat {
    if best.Some? then CpuTime(t, best.value) else U64_MAX
  }

  function PolicyOf(power: Power): Policy {
    Policy((x: Pid, p: Priority) => Adjusted(power, x, p), (x: Pid) => Throttled(power, x))
  }

  function LevelOf(policy: Policy, p: Process): Level {
    if policy.throttled(p.pid) then 3
    else
      match policy.adjusted(p.pid, p.priority)
      case System => 0
      case Interactive => 1
      case Normal => 2
      case Background => 3
  }

  /** The queue each process is put into. */
  function LevelsIn(t: Table, policy: Policy): Levels {
    x => if Live(t, x) then LevelOf(policy, Get(t, x)) else 3
  }

  function PickByPriority(t: Table, policy: Policy): Option<Pid> {
    PickUrgent(LevelsIn(t, policy), Runnable(t))
  }

  function Pick(t: Table, algorithm: Algorithm, last: nat, policy: Policy): (Option<Pid>, nat) {
    match algorithm
    case RoundRobin => PickNext(Runnable(t), last)
    case ByPriority => (PickByPriority(t, policy), last)
    case CompletelyFair => (PickLeast(t, Runnable(t)), last)
  }

  /** The table after the picked process has been made current. */
  function Dispatched(t: Table, pick: Option<Pid>): Table {
    if pick.Some? && t.current == pick then t else Switched(t, pick).0
  }

  // ---------------------------------------------------------------- dispatching keeps the runnable list

  lemma {:induction false} PidsWhereCongruent(slots: Slots, slots': Slots, want: Process -> bool)
    requires |slots| == |slots'|
    requires forall i :: 0 <= i < |slots| ==> slots[i].Some? == slots'[i].Some?
    requires forall i :: 0 <= i < |slots| && slots[i].Some? ==>
               slots[i].value.pid == slots'[i].value.pid && want(slots[i].value) == want(slots'[i].value)
    ensures PidsWhere(slots, want) == PidsWhere(slots', want)
  {
    if slots == [] {
    } else {
      PidsWhereCongruent(slots[..|slots| - 1], slots'[..|slots| - 1], want);
    }
  }

  lemma PutKeepsRunnable(t: Table, p: Process)
    requires Live(t, p.pid) && p.Runnable() == Get(t, p.pid).Runnable()
    ensures Runnable(Put(t, p)) == Runnable(t)
  {
    PidsWhereCongruent(t.slots, Put(t, p).slots, IsRunnable);
  }

  lemma YieldKeepsRunnable(t: Table)
    requires FamilyOk(t)
    ensures FamilyOk(Yielded(t)) && Runnable(Yielded(t)) == Runnable(t)
    ensures forall x: Pid :: CpuTime(Yielded(t), x) == CpuTime(t, x)
  {
    YieldedMeaning(t);
    if Yielded(t) != t {
      var p := Get(t, t.current.value).(state := Ready);
      PutKeepsRunnable(t, p);
      PutMeaning(t, p);
    }
  }

  lemma RunKeepsRunnable(t: Table, pid: Pid)
    requires FamilyOk(t) && pid in Runnable(t)
    ensures Live(t, pid)
    ensures Runnable(Put(t, Get(t, pid).(state := Running))) == Runnable(t)
    ensures forall x: Pid :: CpuTime(Put(t, Get(t, pid).(state := Running)), x) == CpuTime(t, x)
  {
    PidsWhereMeaning(t, IsRunnable);
    var p := Get(t, pid).(state := Running);
    PutKeepsRunnable(t, p);
    PutMeaning(t, p);
  }

  /** Making a runnable process current changes neither who is runnable nor their order. */
  lemma DispatchKeepsRunnable(t: Table, pick: Option<Pid>)
    requires FamilyOk(t) && (pick.Some? ==> pick.value in Runnable(t))
    ensures Keeps(t, Dispatched(t, pick)) && Runnable(Dispatched(t, pick)) == Runnable(t)
    ensures Switched(t, pick).1.Ok? || t.current == pick
    ensures forall x: Pid :: CpuTime(Dispatched(t, pick), x) == CpuTime(t, x)
  {
    SwitchedKeeps(t, pick);
    YieldKeepsRunnable(t);
    if pick.Some? && t.current != pick {
      RunKeepsRunnable(Yielded(t), pick.value);
    }
  }

  /**
   The process a call picks runs afterwards exactly if it was not current already or was running: a
   current process that is only ready, as a failed switch leaves it, is picked and left waiting.
   */
  lemma PickRunsIff(t: Table, pick: Pid)
    requires FamilyOk(t) && pick in Runnable(t)
    ensures Live(t, pick) && Live(Dispatched(t, Some(pick)), pick)
    ensures Get(Dispatched(t, Some(pick)), pick).state == Running <==>
            t.current != Some(pick) || Get(t, pick).state == Running
  {
    PidsWhereMeaning(t, IsRunnable);
    SwitchedMeaning(t, Some(pick));
  }

  /** A table of one process. */
  function One(state: State, current: Option<Pid>): Table {
    Table([Some(Process(1, None, state, Normal, 0, None, []))], 2, current, 1)
  }

  lemma OneSwitches(t: Table, s: Table, u: Table)
    requires t == One(Ready, None) && s == One(Running, Some(1)) && u == One(Ready, Some(1))
    ensures Step(Empty(1), Create(None, Normal)) == t && Step(t, Switch(Some(1))) == s && Step(s, Switch(Some(2))) == u
    ensures Live(u, 1) && Get(u, 1).state == Ready && Runnable(u) == [1]
  {
    assert Yielded(t) == t;
    assert Yielded(s) == u;
  }

  /** Create a process, switch to it, fail to switch to another: the next call picks the process and it does not run. */
  lemma PickCanWait(ops: seq<Op>, policy: Policy)
    requires ops == [Create(None, Normal), Switch(Some(1)), Switch(Some(2))]
    ensures var u := Run(Empty(1), ops); var pick := Pick(u, RoundRobin, 0, policy).0;
            pick == Some(1) && Live(Dispatched(u, pick), 1) && Get(Dispatched(u, pick), 1).state == Ready
  {
    var t, s, u := One(Ready, None), One(Running, Some(1)), One(Ready, Some(1));
    OneSwitches(t, s, u);
    assert ops[..2][..1][..0] == [] && ops[..2][..1] == ops[..1];
    assert Run(Empty(1), ops[..1]) == t;
    assert Run(Empty(1), ops[..2]) == s;
  }

  lemma PickIsRunnable(t: Table, algorithm: Algorithm, last: nat, policy: Policy)
    ensures var pick := Pick(t, algorithm, last, policy).0; pick.Some? ==> pick.value in Runnable(t)
  {
    match algorithm
    case RoundRobin =>
    case ByPriority =>
      if Runnable(t) != [] { var k := PickUrgentFirst(LevelsIn(t, policy), Runnable(t)); }
    case CompletelyFair => PickLeastMeaning(t, Runnable(t));
  }

  /** Whatever the algorithm, the pick is a live process that is ready or running: never blocked, dead or unborn. */
  lemma PickIsReady(t: Table, algorithm: Algorithm, last: nat, policy: Policy)
    requires FamilyOk(t)
    ensures var pick := Pick(t, algorithm, last, policy).0;
            pick.Some? ==> Live(t, pick.value) && Get(t, pick.value).state in {Ready, Running}
    ensures (forall x: Pid :: Live(t, x) ==> Get(t, x).state !in {Ready, Running}) ==>
            Pick(t, algorithm, last, policy).0 == None
  {
    PickIsRunnable(t, algorithm, last, policy);
    PidsWhereMeaning(t, IsRunnable);
    assert Runnable(t) != [] ==> Runnable(t)[0] in Runnable(t);
  }

  // ---------------------------------------------------------------- round robin

  /** The picks of consecutive calls; lists[k] is the runnable list at call k. */
  function Picks(lists: seq<seq<Pid>>, last: nat): seq<Option<Pid>> {
    if lists == [] then []
    else
      var (pick, last') := PickNext(lists[0], last);
      [pick] + Picks(lists[1..], last')
  }

  lemma {:induction false} PicksRotate(lists: seq<seq<Pid>>, last: nat, runnable: seq<Pid>, k: nat)
    requires k < |lists| && k < |runnable|
    requires forall j :: 0 <= j < |lists| ==> lists[j] == runnable
    ensures |Picks(lists, last)| == |lists|
    ensures Picks(lists, last)[k] == Some(runnable[Around(StartIndex(runnable, last), k, |runnable|)])
    decreases k
  {
    PicksLength(lists, last);
    var i := StartIndex(runnable, last);
    var last' := PickNext(lists[0], last).1;
    AroundIsModulo(i, 1, |runnable|);
    if k == 0 {
    } else {
      PicksRotate(lists[1..], last', runnable, k - 1);
    }
  }

  lemma {:induction false} PicksLength(lists: seq<seq<Pid>>, last: nat)
    ensures |Picks(lists, last)| == |lists|
  {
    if lists == [] {
    } else {
      PicksLength(lists[1..], PickNext(lists[0], last).1);
    }
  }

  /**
   Fairness: as long as the n runnable processes stay the same, any n consecutive calls pick each of
   them exactly once, wherever the index stands, even out of range.
   */
  lemma RoundRobinFair(lists: seq<seq<Pid>>, last: nat, runnable: seq<Pid>)
    requires runnable != [] && |lists| == |runnable|
    requires forall j :: 0 <= j < |lists| ==> lists[j] == runnable
    ensures var s := StartIndex(runnable, last);
            Picks(lists, last) == Each(runnable[s..] + runnable[..s])
    ensures multiset(Picks(lists, last)) == multiset(Each(runnable))
  {
    var s := StartIndex(runnable, last);
    PicksLength(lists, last);
    forall k | 0 <= k < |runnable|
      ensures Picks(lists, last)[k] == Each(runnable[s..] + runnable[..s])[k]
    {
      PicksRotate(lists, last, runnable, k);
    }
    EachRotated(runnable, s);
  }

  /** What n calls of the scheduler pick, each acting on the table the previous one left. */
  function Rounds(t: Table, last: nat, n: nat): seq<Option<Pid>>
    decreases n
  {
    if n == 0 then []
    else
      var (pick, last') := PickNext(Runnable(t), last);
      [pick] + Rounds(Dispatched(t, pick), last', n - 1)
  }

  lemma {:induction false} RoundsArePicks(t: Table, last: nat, n: nat)
    requires FamilyOk(t)
    ensures Rounds(t, last, n) == Picks(seq(n, _ => Runnable(t)), last)
    decreases n
  {
    if n == 0 {
    } else {
      var (pick, last') := PickNext(Runnable(t), last);
      DispatchKeepsRunnable(t, pick);
      RoundsArePicks(Dispatched(t, pick), last', n - 1);
      assert seq(n, _ => Runnable(t))[1..] == seq(n - 1, _ => Runnable(t));
    }
  }

  /** A scheduler left to itself runs all n runnable processes once in every n calls. */
  lemma RoundsFair(t: Table, last: nat)
    requires FamilyOk(t) && Runnable(t) != []
    ensures multiset(Rounds(t, last, |Runnable(t)|)) == multiset(Each(Runnable(t)))
    ensures Ascending(Runnable(t))
  {
    RoundsArePicks(t, last, |Runnable(t)|);
    RoundRobinFair(seq(|Runnable(t)|, _ => Runnable(t)), last, Runnable(t));
    PidsWhereMeaning(t, IsRunnable);
  }

  function Each(pids: seq<Pid>): seq<Option<Pid>> {
    seq(|pids|, k requires 0 <= k < |pids| => Some(pids[k]))
  }

  lemma EachRotated(pids: seq<Pid>, s: nat)
    requires s <= |pids|
    ensures multiset(Each(pids[s..] + pids[..s])) == multiset(Each(pids))
  {
    var a, b := Each(pids[..s]), Each(pids[s..]);
    assert Each(pids) == a + b;
    assert Each(pids[s..] + pids[..s]) == b + a;
  }

  /** A fresh scheduler, or one whose index the list has shrunk past, starts with the smallest PID. */
  lemma RoundStartsAtFront(t: Table, last: nat, x: Pid)
    requires FamilyOk(t) && x in Runnable(t) && (last == 0 || last >= |Runnable(t)|)
    ensures var pick := PickNext(Runnable(t), last).0; pick.Some? && pick.value in Runnable(t) && pick.value <= x
  {
    PidsWhereMeaning(t, IsRunnable);
    var j :| 0 <= j < |Runnable(t)| && Runnable(t)[j] == x;
  }

  // ---------------------------------------------------------------- least CPU time

  /** Nothing is picked exactly when every candidate is at the limit; otherwise the first of the least. */
  lemma {:induction false} PickLeastMeaning(t: Table, pids: seq<Pid>)
    ensures var r := PickLeast(t, pids);
            && (r.None? <==> forall x :: x in pids ==> CpuTime(t, x) >= U64_MAX)
            && (r.Some? ==> r.value in pids && CpuTime(t, r.value) < U64_MAX)
            && (r.Some? ==> forall x :: x in pids ==> CpuTime(t, r.value) <= CpuTime(t, x))
  {
    if pids == [] {
    } else {
      assert pids == pids[..|pids| - 1] + [pids[|pids| - 1]];
      PickLeastMeaning(t, pids[..|pids| - 1]);
    }
  }

  /** Among those of least CPU time the one of smallest PID is picked. */
  lemma {:induction false} PickLeastFirst(t: Table, pids: seq<Pid>, x: Pid)
    requires Ascending(pids) && x in pids && PickLeast(t, pids).Some?
    ensures CpuTime(t, x) == CpuTime(t, PickLeast(t, pids).value) ==> PickLeast(t, pids).value <= x
  {
    var n := |pids| - 1;
    var init, last := pids[..n], pids[n];
    assert pids == init + [last];
    PickLeastMeaning(t, init);
    if x in init && PickLeast(t, init).Some? {
      PickLeastFirst(t, init, x);
    }
    if PickLeast(t, init).Some? {
      var k :| 0 <= k < n && init[k] == PickLeast(t, init).value;
      assert pids[k] < last;
    }
  }

  /** One more process in the search for the least. */
  lemma LeastNext(t: Table, pids: seq<Pid>, k: nat)
    requires FamilyOk(t) && pids == Runnable(t) && k < |pids|
    ensures Live(t, pids[k]) && Get(t, pids[k]).Runnable()
    ensures var best := PickLeast(t, pids[..k]);
            PickLeast(t, pids[..k + 1]) ==
            if Get(t, pids[k]).cpuTime < Bound(t, best) then Some(pids[k]) else best
  {
    PidsWhereMeaning(t, IsRunnable);
    assert pids[k] in pids;
    assert pids[..k + 1][..k] == pids[..k];
  }

  function TotalTime(t: Table, pids: seq<Pid>): nat {
    if pids == [] then 0 else TotalTime(t, pids[..|pids| - 1]) + CpuTime(t, pids[|pids| - 1])
  }

  /** No two of these processes are more than `gap` apart. */
  ghost predicate Spread(t: Table, pids: seq<Pid>, gap: nat) {
    forall x, y :: x in pids && y in pids ==> CpuTime(t, x) <= CpuTime(t, y) + gap
  }

  /** One quantum: pick the least, run it, charge it. */
  function Quantum(t: Table, charge: nat): Table {
    var pick := PickLeast(t, Runnable(t));
    if pick.None? then Dispatched(t, pick) else Charged(Dispatched(t, pick), pick.value, charge)
  }

  function FairRun(t: Table, charges: seq<nat>): Table {
    if charges == [] then t else Quantum(FairRun(t, charges[..|charges| - 1]), charges[|charges| - 1])
  }

  function Sum(s: seq<nat>): nat {
    if s == [] then 0 else Sum(s[..|s| - 1]) + s[|s| - 1]
  }

  lemma ChargedMeaning(t: Table, pid: Pid, time: nat)
    requires FamilyOk(t) && Live(t, pid)
    ensures Keeps(t, Charged(t, pid, time)) && Runnable(Charged(t, pid, time)) == Runnable(t)
    ensures forall x: Pid :: CpuTime(Charged(t, pid, time), x) == CpuTime(t, x) + if x == pid then time else 0
  {
    StepKeepsInv(t, Charge(pid, time));
    PutKeepsRunnable(t, Get(t, pid).(cpuTime := Get(t, pid).cpuTime + time));
    ChargedTimes(t, pid, time);
  }

  lemma ChargedTimes(t: Table, pid: Pid, time: nat)
    requires Slotted(t) && Live(t, pid)
    ensures forall x: Pid :: CpuTime(Charged(t, pid, time), x) == CpuTime(t, x) + if x == pid then time else 0
  {
    PutMeaning(t, Get(t, pid).(cpuTime := Get(t, pid).cpuTime + time));
  }

  lemma {:induction false} TotalAfterCharge(t: Table, t': Table, pids: seq<Pid>, pid: Pid, time: nat)
    requires Ascending(pids)
    requires forall x: Pid :: CpuTime(t', x) == CpuTime(t, x) + if x == pid then time else 0
    ensures TotalTime(t', pids) == TotalTime(t, pids) + if pid in pids then time else 0
  {
    if pids == [] {
    } else {
      assert pids == pids[..|pids| - 1] + [pids[|pids| - 1]];
      TotalAfterCharge(t, t', pids[..|pids| - 1], pid, time);
    }
  }

  /** Charging the least to at most the gap keeps everyone within the gap. */
  lemma SpreadAfterCharge(t: Table, t': Table, pids: seq<Pid>, pid: Pid, charge: nat, gap: nat)
    requires Spread(t, pids, gap) && charge <= gap && pid in pids
    requires forall x :: x in pids ==> CpuTime(t, pid) <= CpuTime(t, x)
    requires forall x: Pid :: CpuTime(t', x) == CpuTime(t, x) + if x == pid then charge else 0
    ensures Spread(t', pids, gap)
  {
    forall x, y | x in pids && y in pids
      ensures CpuTime(t', x) <= CpuTime(t', y) + gap
    {
      assert CpuTime(t, x) <= CpuTime(t, y) + gap;
    }
  }

  lemma ChargedDispatch(t: Table, pid: Pid, charge: nat)
    requires FamilyOk(t) && pid in Runnable(t)
    ensures var t' := Charged(Dispatched(t, Some(pid)), pid, charge);
            && Keeps(t, t') && Runnable(t') == Runnable(t)
            && forall x: Pid :: CpuTime(t', x) == CpuTime(t, x) + if x == pid then charge else 0
  {
    DispatchKeepsRunnable(t, Some(pid));
    var t1 := Dispatched(t, Some(pid));
    PidsWhereMeaning(t1, IsRunnable);
    ChargedMeaning(t1, pid, charge);
  }

  lemma QuantumMeaning(t: Table, charge: nat, gap: nat)
    requires FamilyOk(t) && Spread(t, Runnable(t), gap) && charge <= gap
    requires exists x :: x in Runnable(t) && CpuTime(t, x) < U64_MAX
    ensures var t' := Quantum(t, charge);
            && Keeps(t, t') && Runnable(t') == Runnable(t)
            && Spread(t', Runnable(t), gap)
            && TotalTime(t', Runnable(t)) == TotalTime(t, Runnable(t)) + charge
            && forall x: Pid :: CpuTime(t', x) <= CpuTime(t, x) + charge
  {
    var runnable := Runnable(t);
    PickLeastMeaning(t, runnable);
    var pid := PickLeast(t, runnable).value;
    PidsWhereMeaning(t, IsRunnable);
    ChargedDispatch(t, pid, charge);
    var t' := Charged(Dispatched(t, Some(pid)), pid, charge);
    SpreadAfterCharge(t, t', runnable, pid, charge, gap);
    TotalAfterCharge(t, t', runnable, pid, charge);
  }

  /**
   Over any run of quanta, each charged at most `gap`, the runnable processes stay within `gap` of each
   other if they start within it, the runnable list never changes, and the total CPU time grows by exactly
   what was charged.  With initial gap g0 and charges up to q, take gap = max(g0, q).
   */
  lemma {:induction false} FairRunKeepsSpread(t: Table, charges: seq<nat>, gap: nat)
    requires FamilyOk(t) && Runnable(t) != [] && Spread(t, Runnable(t), gap)
    requires forall c :: c in charges ==> c <= gap
    requires forall x :: x in Runnable(t) ==> CpuTime(t, x) + Sum(charges) < U64_MAX
    ensures var t' := FairRun(t, charges);
            && Keeps(t, t') && Runnable(t') == Runnable(t)
            && Spread(t', Runnable(t), gap)
            && TotalTime(t', Runnable(t)) == TotalTime(t, Runnable(t)) + Sum(charges)
            && forall x: Pid :: CpuTime(t', x) <= CpuTime(t, x) + Sum(charges)
  {
    if charges == [] {
    } else {
      var init, c := charges[..|charges| - 1], charges[|charges| - 1];
      assert charges == init + [c];
      assert Sum(charges) == Sum(init) + c;
      assert c in charges && forall d :: d in init ==> d in charges;
      FairRunKeepsSpread(t, init, gap);
      var t1 := FairRun(t, init);
      var x := Runnable(t)[0];
      assert x in Runnable(t1) && CpuTime(t1, x) < U64_MAX;
      QuantumMeaning(t1, c, gap);
    }
  }

  // ---------------------------------------------------------------- priorities

  /** q is of the most urgent level, and has the smallest PID there. */
  ghost predicate Foremost(level: Levels, pids: seq<Pid>, q: Pid) {
    q in pids && forall x :: x in pids ==> level(q) < level(x) || (level(q) == level(x) && q <= x)
  }

  lemma PickUrgentMeaning(level: Levels, pids: seq<Pid>, q: Pid)
    requires Ascending(pids)
    ensures PickUrgent(level, pids) == Some(q) <==> Foremost(level, pids, q)
  {
    if pids != [] {
      var k := PickUrgentFirst(level, pids);
      forall x | x in pids
        ensures level(pids[k]) < level(x) || (level(pids[k]) == level(x) && pids[k] <= x)
      {
        var j :| 0 <= j < |pids| && pids[j] == x;
      }
      assert pids[k] in pids;
    }
  }

  // What the levels mean, in terms of priorities only.

  /** Power management leaves every priority as it is and throttles nobody. */
  ghost predicate Neutral(policy: Policy) {
    (forall x: Pid, p :: policy.adjusted(x, p) == p) && forall x: Pid :: !policy.throttled(x)
  }

  ghost predicate PickedBefore(t: Table, q: Pid, x: Pid)
    requires Live(t, q) && Live(t, x)
  {
    && NoLessUrgent(Get(t, q).priority, Get(t, x).priority)
    && (Get(t, q).priority == Get(t, x).priority ==> q <= x)
  }

  /** Left alone by power management, the pick is the process of smallest PID among those of the highest priority. */
  lemma NeutralPickIsHighest(t: Table, policy: Policy, x: Pid)
    requires FamilyOk(t) && Neutral(policy) && x in Runnable(t)
    ensures var pick := PickByPriority(t, policy);
            pick.Some? && Live(t, pick.value) && Live(t, x) && PickedBefore(t, pick.value, x)
  {
    PidsWhereMeaning(t, IsRunnable);
    var level, pids := LevelsIn(t, policy), Runnable(t);
    var k := PickUrgentFirst(level, pids);
    var q := pids[k];
    assert q in pids;
    PickUrgentMeaning(level, pids, q);
    LevelsCompare(policy, Get(t, q), Get(t, x));
  }

  lemma LevelsCompare(policy: Policy, p: Process, q: Process)
    requires Neutral(policy)
    ensures LevelOf(policy, p) <= LevelOf(policy, q) <==> NoLessUrgent(p.priority, q.priority)
    ensures LevelOf(policy, p) == LevelOf(policy, q) <==> p.priority == q.priority
  {
    assert policy.adjusted(p.pid, p.priority) == p.priority && policy.adjusted(q.pid, q.priority) == q.priority;
    assert !policy.throttled(p.pid) && !policy.throttled(q.pid);
  }

  /** Power management puts the process last: throttled, or lowered to background. */
  predicate HeldBack(policy: Policy, p: Process) {
    policy.throttled(p.pid) || policy.adjusted(p.pid, p.priority) == Background
  }

  /** q comes no later than p: not held back unless p is, and of no lower adjusted priority. */
  ghost predicate NoLater(policy: Policy, q: Process, p: Process) {
    && (HeldBack(policy, q) ==> HeldBack(policy, p))
    && (!HeldBack(policy, p) ==>
          NoLessUrgent(policy.adjusted(q.pid, q.priority), policy.adjusted(p.pid, p.priority)))
  }

  lemma LevelsMeanNoLater(policy: Policy, q: Process, p: Process)
    requires LevelOf(policy, q) <= LevelOf(policy, p)
    ensures NoLater(policy, q, p) && (HeldBack(policy, q) ==> LevelOf(policy, q) == LevelOf(policy, p))
  {}

  /**
   Under any policy the pick's adjusted priority is the highest of those not held back; a process that is
   held back is picked only if every runnable one is, and then the one of smallest PID.
   */
  lemma PickIsHighestAdjusted(t: Table, policy: Policy, x: Pid)
    requires FamilyOk(t) && x in Runnable(t)
    ensures var pick := PickByPriority(t, policy);
            && pick.Some? && Live(t, pick.value) && Live(t, x)
            && NoLater(policy, Get(t, pick.value), Get(t, x))
            && (HeldBack(policy, Get(t, pick.value)) ==> pick.value <= x)
  {
    PidsWhereMeaning(t, IsRunnable);
    var level, pids := LevelsIn(t, policy), Runnable(t);
    var k := PickUrgentFirst(level, pids);
    var q := pids[k];
    assert q in pids;
    PickUrgentMeaning(level, pids, q);
    assert level(q) == LevelOf(policy, Get(t, q)) && level(x) == LevelOf(policy, Get(t, x));
    LevelsMeanNoLater(policy, Get(t, q), Get(t, x));
  }

  lemma DispatchKeepsLevels(t: Table, policy: Policy, pick: Option<Pid>)
    requires FamilyOk(t)
    ensures forall x: Pid :: LevelsIn(Dispatched(t, pick), policy)(x) == LevelsIn(t, policy)(x)
  {
    SwitchedMeaning(t, pick);
  }

  /** Consecutive calls with nothing else between them; policies[k] is what call k sees. */
  function CallsUnder(t: Table, policies: seq<Policy>): seq<Option<Pid>>
    decreases |policies|
  {
    if policies == [] then []
    else
      var pick := PickByPriority(t, policies[0]);
      [pick] + CallsUnder(Dispatched(t, pick), policies[1..])
  }

  lemma ForemostAfterDispatch(t: Table, first: Policy, policy: Policy, q: Pid)
    requires FamilyOk(t)
    ensures var t' := Dispatched(t, PickByPriority(t, first));
            && FamilyOk(t') && Runnable(t') == Runnable(t)
            && (Foremost(LevelsIn(t', policy), Runnable(t'), q) <==> Foremost(LevelsIn(t, policy), Runnable(t), q))
  {
    var pick := PickByPriority(t, first);
    PickIsRunnable(t, ByPriority, 0, first);
    DispatchKeepsRunnable(t, pick);
    DispatchKeepsLevels(t, policy, pick);
  }

  /**
   The queues are rebuilt at every call, which undoes the rotation meant to be fair within a level: under
   any policies each call picks the process of smallest PID at the level most urgent to its own policy.
   */
  lemma {:induction false} PicksUnder(t: Table, policies: seq<Policy>, k: nat, q: Pid)
    requires FamilyOk(t) && k < |policies|
    ensures |CallsUnder(t, policies)| == |policies|
    ensures CallsUnder(t, policies)[k] == Some(q) <==> Foremost(LevelsIn(t, policies[k]), Runnable(t), q)
    decreases |policies|
  {
    var t' := Dispatched(t, PickByPriority(t, policies[0]));
    ForemostAfterDispatch(t, policies[0], policies[k], q);
    if k == 0 {
      PidsWhereMeaning(t, IsRunnable);
      PickUrgentMeaning(LevelsIn(t, policies[0]), Runnable(t), q);
      if |policies| > 1 { PicksUnder(t', policies[1..], 0, q); }
    } else {
      PicksUnder(t', policies[1..], k - 1, q);
    }
  }

  /** A process starves exactly if no call's policy makes it foremost, however long it waits. */
  lemma StarvesIff(t: Table, policies: seq<Policy>, q: Pid)
    requires FamilyOk(t)
    ensures Some(q) !in CallsUnder(t, policies) <==>
            forall k :: 0 <= k < |policies| ==> !Foremost(LevelsIn(t, policies[k]), Runnable(t), q)
  {
    if policies != [] { PicksUnder(t, policies, 0, q); }
    forall k | 0 <= k < |policies|
      ensures CallsUnder(t, policies)[k] == Some(q) <==> Foremost(LevelsIn(t, policies[k]), Runnable(t), q)
    {
      PicksUnder(t, policies, k, q);
    }
  }

  lemma BehindEqual(t: Table, policy: Policy)
    requires Neutral(policy) && 1 in Runnable(t) && Live(t, 1) && Live(t, 2)
    requires Get(t, 1).priority == Get(t, 2).priority
    ensures !Foremost(LevelsIn(t, policy), Runnable(t), 2)
  {
    assert LevelsIn(t, policy)(1) == LevelsIn(t, policy)(2);
  }

  /** Two processes of the same priority: the second is runnable and no number of calls runs it. */
  lemma SecondNeverRuns(ops: seq<Op>, policies: seq<Policy>)
    requires ops == [Create(None, Normal), Create(None, Normal)]
    requires forall k :: 0 <= k < |policies| ==> Neutral(policies[k])
    ensures var t := Run(Empty(2), ops); 2 in Runnable(t) && Some(2) !in CallsUnder(t, policies)
  {
    var t := Run(Empty(2), ops);
    TwoCreated(ops, Normal, Normal, t);
    PidsWhereMeaning(t, IsRunnable);
    assert 1 in Runnable(t);
    forall k | 0 <= k < |policies|
      ensures !Foremost(LevelsIn(t, policies[k]), Runnable(t), 2)
    {
      BehindEqual(t, policies[k]);
    }
    StarvesIff(t, policies, 2);
  }

  // ---------------------------------------------------------------- priorities with their feedback

  datatype Machine = Machine(table: Table, power: Power)

  function ActivityAt(t: Table, pid: Pid): Activity {
    if Live(t, pid) then ActivityOf(Get(t, pid).priority) else OtherActivity
  }

  predicate Switches(t: Table, pick: Option<Pid>) {
    pick.Some? && t.current != pick
  }

  /** A call that switches tells power management what kind of process it switched to. */
  function Informed(t: Table, pick: Option<Pid>, power: Power): Power {
    if Switches(t, pick) then Notified(power, pick.value, ActivityAt(t, pick.value)) else power
  }

  function Picked(m: Machine): Option<Pid> {
    PickByPriority(m.table, PolicyOf(m.power))
  }

  function Called(m: Machine): Machine {
    Machine(Dispatched(m.table, Picked(m)), Informed(m.table, Picked(m), m.power))
  }

  /** A call that switches turns the boost on exactly if it switched to a system or interactive process. */
  lemma SwitchBoosts(m: Machine)
    requires FamilyOk(m.table) && m.power.engine.Some?
    ensures Called(m).power.engine.Some?
    ensures var pick := Picked(m);
            Called(m).power.engine.value.boost <==>
            || m.power.engine.value.boost
            || (Switches(m.table, pick) && Live(m.table, pick.value) &&
                Get(m.table, pick.value).priority in {System, Interactive})
  {}

  /** What n consecutive steps yield. */
  function Iterated<W, R>(result: W -> R, step: W -> W, w: W, n: nat): seq<R>
    decreases n
  {
    if n == 0 then [] else [result(w)] + Iterated(result, step, step(w), n - 1)
  }

  /** What n consecutive calls pick, each seeing the power management the ones before it left. */
  function PicksOf(m: Machine, n: nat): seq<Option<Pid>> {
    Iterated(Picked, Called, m, n)
  }

  function PoliciesOf(m: Machine, n: nat): seq<Policy>
    decreases n
  {
    if n == 0 then [] else [PolicyOf(m.power)] + PoliciesOf(Called(m), n - 1)
  }

  /** The calls of a real run are calls under the policies that its own switches produce. */
  lemma {:induction false} PicksAreCalls(m: Machine, n: nat)
    ensures PicksOf(m, n) == CallsUnder(m.table, PoliciesOf(m, n))
    decreases n
  {
    if n == 0 {
    } else {
      PicksAreCalls(Called(m), n - 1);
      assert PoliciesOf(m, n)[1..] == PoliciesOf(Called(m), n - 1);
    }
  }

  function CountOf(pids: seq<Pid>, flag: Pid -> bool): (n: nat)
    ensures n <= |pids|
  {
    if pids == [] then 0 else CountOf(pids[..|pids| - 1], flag) + if flag(pids[|pids| - 1]) then 1 else 0
  }

  lemma {:induction false} CountLess(pids: seq<Pid>, f: Pid -> bool, g: Pid -> bool, p: Pid)
    requires forall x :: g(x) ==> f(x)
    ensures CountOf(pids, g) <= CountOf(pids, f)
    ensures p in pids && f(p) && !g(p) ==> CountOf(pids, g) < CountOf(pids, f)
  {
    if pids == [] {
    } else {
      assert pids == pids[..|pids| - 1] + [pids[|pids| - 1]];
      CountLess(pids[..|pids| - 1], f, g, p);
    }
  }

  function Flips(m: Machine): Pid -> bool {
    (x: Pid) => Flippable(m.power, x, ActivityAt(m.table, x))
  }

  /** What notifications can still change: the boost, and the throttling of each runnable process. */
  function Unsettled(m: Machine): nat {
    (if BoostPending(m.power) then 1 else 0) + CountOf(Runnable(m.table), Flips(m))
  }

  lemma CallKeepsTable(m: Machine)
    requires FamilyOk(m.table)
    ensures FamilyOk(Called(m).table) && Runnable(Called(m).table) == Runnable(m.table)
    ensures Called(m).table.current == Picked(m)
    ensures Picked(m).Some? ==> Picked(m).value in Runnable(m.table)
    ensures forall x: Pid :: ActivityAt(Called(m).table, x) == ActivityAt(m.table, x)
  {
    PickIsRunnable(m.table, ByPriority, 0, PolicyOf(m.power));
    DispatchKeepsRunnable(m.table, Picked(m));
    SwitchedMeaning(m.table, Picked(m));
  }

  lemma SamePolicySamePick(t: Table, power: Power, power': Power)
    requires forall x: Pid, p :: Adjusted(power', x, p) == Adjusted(power, x, p)
    requires forall x: Pid :: Throttled(power', x) == Throttled(power, x)
    ensures PickByPriority(t, PolicyOf(power')) == PickByPriority(t, PolicyOf(power))
  {
    forall x: Pid
      ensures LevelsIn(t, PolicyOf(power'))(x) == LevelsIn(t, PolicyOf(power))(x)
    {
      if Live(t, x) {
        var p := Get(t, x);
        assert Adjusted(power', p.pid, p.priority) == Adjusted(power, p.pid, p.priority);
      }
    }
    PickUrgentCongruent(LevelsIn(t, PolicyOf(power)), LevelsIn(t, PolicyOf(power')), Runnable(t));
  }

  lemma DispatchKeepsPick(t: Table, policy: Policy)
    requires FamilyOk(t)
    ensures PickByPriority(Dispatched(t, PickByPriority(t, policy)), policy) == PickByPriority(t, policy)
  {
    var pick := PickByPriority(t, policy);
    PickIsRunnable(t, ByPriority, 0, policy);
    DispatchKeepsRunnable(t, pick);
    DispatchKeepsLevels(t, policy, pick);
    PickUrgentCongruent(LevelsIn(t, policy), LevelsIn(Dispatched(t, pick), policy), Runnable(t));
  }

  lemma SamePick(m: Machine, power: Power)
    requires FamilyOk(m.table)
    requires forall x: Pid, p :: Adjusted(power, x, p) == Adjusted(m.power, x, p)
    requires forall x: Pid :: Throttled(power, x) == Throttled(m.power, x)
    ensures Picked(Machine(Called(m).table, power)) == Picked(m)
  {
    DispatchKeepsPick(m.table, PolicyOf(m.power));
    SamePolicySamePick(Called(m).table, m.power, power);
  }

  /** A call that switches either settles something for good, or is followed by the same pick. */
  lemma SwitchSettles(m: Machine)
    requires FamilyOk(m.table) && Switches(m.table, Picked(m))
    ensures Unsettled(Called(m)) < Unsettled(m) || Picked(Called(m)) == Picked(m)
  {
    CallKeepsTable(m);
    var m', p := Called(m), Picked(m).value;
    var a := ActivityAt(m.table, p);
    NotifiedSettles(m.power, p, a);
    forall x
      ensures Flips(m')(x) ==> Flips(m)(x)
    {}
    CountLess(Runnable(m.table), Flips(m), Flips(m'), p);
    if BoostPending(m'.power) == BoostPending(m.power) && Flippable(m'.power, p, a) == Flippable(m.power, p, a) {
      NotifiedUnchanged(m.power, p, a);
      SamePick(m, m'.power);
    }
  }

  lemma NoSwitchRepeats(m: Machine)
    requires FamilyOk(m.table) && !Switches(m.table, Picked(m))
    ensures Picked(Called(m)) == Picked(m) && !Switches(Called(m).table, Picked(Called(m)))
  {
    CallKeepsTable(m);
    SamePick(m, m.power);
  }

  /** From position k on all are the same. */
  ghost predicate RestsFrom<R>(s: seq<R>, k: nat) {
    forall i, j :: k <= i < |s| && k <= j < |s| ==> s[i] == s[j]
  }

  lemma RestsBehind<R>(x: R, s: seq<R>, k: nat)
    requires RestsFrom(s, k)
    ensures RestsFrom([x] + s, k + 1)
    ensures k == 0 && (s != [] ==> s[0] == x) ==> RestsFrom([x] + s, 0)
  {
    var all := [x] + s;
    forall i | k + 1 <= i < |all|
      ensures all[i] == s[i - 1]
    {}
  }

  /**
   Steps that stay still once they do not move, and otherwise lower a measure or are about to stay still,
   come to rest within the measure.
   */
  lemma {:induction false} ComesToRest<W(!new), R>(
    result: W -> R, step: W -> W, inv: W -> bool, moves: W -> bool, measure: W -> nat, w: W, n: nat) returns (k: nat)
    requires inv(w) && forall v :: inv(v) ==> inv(step(v))
    requires forall v :: inv(v) && !moves(v) ==> result(step(v)) == result(v) && !moves(step(v))
    requires forall v :: inv(v) && moves(v) ==> measure(step(v)) < measure(v) || !moves(step(v))
    ensures k <= if moves(w) then measure(w) + 1 else 0
    ensures |Iterated(result, step, w, n)| == n && RestsFrom(Iterated(result, step, w, n), k)
    decreases n
  {
    k := 0;
    if n == 0 {
    } else {
      var rest := ComesToRest(result, step, inv, moves, measure, step(w), n - 1);
      RestsBehind(result(w), Iterated(result, step, step(w), n - 1), rest);
      k := if moves(w) then rest + 1 else 0;
    }
  }

  ghost predicate Orderly(m: Machine) {
    FamilyOk(m.table)
  }

  predicate Moving(m: Machine) {
    Switches(m.table, Picked(m))
  }

  /** What a call does to the pick and to what is unsettled. */
  ghost predicate Advances(m: Machine) {
    var m' := Called(m);
    && Orderly(m')
    && (!Moving(m) ==> Picked(m') == Picked(m) && !Moving(m'))
    && (Moving(m) ==> Unsettled(m') < Unsettled(m) || !Moving(m'))
  }

  lemma CallsAdvance(m: Machine)
    requires Orderly(m)
    ensures Advances(m)
  {
    CallKeepsTable(m);
    if Moving(m) {
      SwitchSettles(m);
    } else {
      NoSwitchRepeats(m);
    }
  }

  lemma UnsettledBound(m: Machine)
    ensures Unsettled(m) <= |Runnable(m.table)| + 1
  {}

  lemma CallsComeToRest(m: Machine, n: nat) returns (k: nat)
    requires Orderly(m)
    ensures k <= Unsettled(m) + 1 && |PicksOf(m, n)| == n && RestsFrom(PicksOf(m, n), k)
  {
    forall v | Orderly(v)
      ensures Orderly(Called(v))
      ensures !Moving(v) ==> Picked(Called(v)) == Picked(v) && !Moving(Called(v))
      ensures Moving(v) ==> Unsettled(Called(v)) < Unsettled(v) || !Moving(Called(v))
    {
      CallsAdvance(v);
    }
    k := ComesToRest(Picked, Called, Orderly, Moving, Unsettled, m, n);
  }

  /**
   Priority scheduling comes to rest: in any number of calls, notifications included, all but the first few,
   at most two more than there are runnable processes, pick one and the same process.
   */
  lemma PrioritySettles(m: Machine, n: nat) returns (k: nat)
    requires FamilyOk(m.table)
    ensures k <= |Runnable(m.table)| + 2 && |PicksOf(m, n)| == n && RestsFrom(PicksOf(m, n), k)
  {
    UnsettledBound(m);
    k := CallsComeToRest(m, n);
  }

  /** An interactive task of normal priority beside a system process: the boost makes their levels equal. */
  lemma BoostLevels(t: Table, power: Power, boost: bool)
    requires Live(t, 1) && Get(t, 1).pid == 1 && Get(t, 1).priority == Normal
    requires Live(t, 2) && Get(t, 2).pid == 2 && Get(t, 2).priority == System
    requires power == Power(Some(Engine(Balanced, map[1 := InteractiveTask], boost)), None)
    ensures LevelsIn(t, PolicyOf(power))(1) == (if boost then 1 else 2) && LevelsIn(t, PolicyOf(power))(2) == 1
  {}

  lemma OneOfTwo(level: Levels, pids: seq<Pid>, q: Pid)
    requires Ascending(pids) && (forall x: Pid :: x in pids <==> x == 1 || x == 2)
    requires q == if level(1) <= level(2) then 1 else 2
    ensures PickUrgent(level, pids) == Some(q)
  {
    PickUrgentMeaning(level, pids, q);
  }

  /** Before it rests the pick can change: switching to a system process boosts an interactive one past it. */
  lemma BoostChangesPick(ops: seq<Op>, m: Machine)
    requires ops == [Create(None, Normal), Create(None, System)] && m.table == Run(Empty(2), ops)
    requires m.power == Power(Some(Engine(Balanced, map[1 := InteractiveTask], false)), None)
    ensures Picked(m) == Some(2) && Picked(Called(m)) == Some(1)
  {
    TwoCreated(ops, Normal, System, m.table);
    PidsWhereMeaning(m.table, IsRunnable);
    BoostLevels(m.table, m.power, false);
    OneOfTwo(LevelsIn(m.table, PolicyOf(m.power)), Runnable(m.table), 2);
    BoostFollows(m, Called(m));
  }

  lemma BoostFollows(m: Machine, m': Machine)
    requires FamilyOk(m.table) && m.table.current == None && Picked(m) == Some(2) && m' == Called(m)
    requires forall x: Pid :: x in Runnable(m.table) <==> x == 1 || x == 2
    requires Live(m.table, 1) && Get(m.table, 1).pid == 1 && Get(m.table, 1).priority == Normal
    requires Live(m.table, 2) && Get(m.table, 2).pid == 2 && Get(m.table, 2).priority == System
    requires m.power == Power(Some(Engine(Balanced, map[1 := InteractiveTask], false)), None)
    ensures Picked(m') == Some(1)
  {
    CallKeepsTable(m);
    SwitchedMeaning(m.table, Some(2));
    PidsWhereMeaning(m'.table, IsRunnable);
    BoostLevels(m'.table, m'.power, true);
    OneOfTwo(LevelsIn(m'.table, PolicyOf(m'.power)), Runnable(m'.table), 1);
  }

  // ---------------------------------------------------------------- the scheduler

  class Scheduler {
    var algorithm: Algorithm
    var lastScheduledIndex: nat
    var priorityQueues: seq<seq<Pid>>
    var contextSwitches: nat
    var decisions: nat

    constructor (algorithm: Algorithm)
      ensures this.algorithm == algorithm && lastScheduledIndex == contextSwitches == decisions == 0
      ensures priorityQueues == [[], [], [], []]
    {
      this.algorithm, priorityQueues := algorithm, [[], [], [], []];
      lastScheduledIndex, contextSwitches, decisions := 0, 0, 0;
    }

    /** Every process on the runnable list is runnable, so the source's probing loop ends at its first probe. */
    method ScheduleRoundRobin(table: ProcessTable) returns (pick: Option<Pid>)
      requires FamilyOk(table.State())
      modifies this`lastScheduledIndex
      ensures (pick, lastScheduledIndex) == PickNext(Runnable(table.State()), old(lastScheduledIndex))
    {
      var runnable := table.GetProcessesWhere(IsRunnable);
      if runnable == [] {
        return None;
      }
      PidsWhereMeaning(table.State(), IsRunnable);
      var currentIndex := lastScheduledIndex;
      if currentIndex >= |runnable| {
        currentIndex := 0;
      }
      var pid := runnable[currentIndex];
      assert pid in runnable;
      var i := Find(table.processes, pid);
      assert i < |table.processes| && table.processes[i].value.Runnable();
      lastScheduledIndex := (currentIndex + 1) % |runnable|;
      return Some(pid);
    }

    /** Every runnable process is queued at its level, in table order. */
    method UpdatePriorityQueues(table: ProcessTable, policy: Policy)
      requires FamilyOk(table.State())
      modifies this`priorityQueues
      ensures priorityQueues == Queues(LevelsIn(table.State(), policy), Runnable(table.State()))
    {
      ghost var level := LevelsIn(table.State(), policy);
      priorityQueues := [[], [], [], []];
      var runnable := table.GetProcessesWhere(IsRunnable);
      PidsWhereMeaning(table.State(), IsRunnable);
      for k := 0 to |runnable|
        invariant priorityQueues == Queues(level, runnable[..k])
      {
        QueueNext(level, runnable, k);
        assert runnable[k] in runnable;
        var i := Find(table.processes, runnable[k]);
        if i < |table.processes| {
          var l := LevelOf(policy, table.processes[i].value);
          priorityQueues := priorityQueues[l := priorityQueues[l] + [runnable[k]]];
        }
      }
      assert runnable[..|runnable|] == runnable;
    }

    /** Every queued process is runnable, so the source's inner loop ends at its first entry. */
    method SchedulePriority(table: ProcessTable, policy: Policy) returns (pick: Option<Pid>)
      requires FamilyOk(table.State())
      modifies this`priorityQueues
      ensures pick == PickByPriority(table.State(), policy)
      ensures var level := LevelsIn(table.State(), policy); var queues := Queues(level, Runnable(table.State()));
              priorityQueues == if pick.None? then queues
                                else var l := level(pick.value); queues[l := RemoveFirst(queues[l]) + [pick.value]]
    {
      UpdatePriorityQueues(table, policy);
      pick := TakeFirst(LevelsIn(table.State(), policy), Runnable(table.State()));
    }

    method TakeFirst(ghost level: Levels, ghost pids: seq<Pid>) returns (pick: Option<Pid>)
      requires priorityQueues == Queues(level, pids)
      modifies this`priorityQueues
      ensures pick == PickUrgent(level, pids)
      ensures var queues := Queues(level, pids);
              priorityQueues == if pick.None? then queues
                                else var l := level(pick.value); queues[l := RemoveFirst(queues[l]) + [pick.value]]
    {
      for l := 0 to LEVELS
        invariant priorityQueues == Queues(level, pids)
        invariant forall j :: 0 <= j < l ==> InLevel(level, pids, j) == []
        invariant PickUrgent(level, pids).Some? ==> level(PickUrgent(level, pids).value) >= l
      {
        UrgentIsFirstQueued(level, pids, l);
        var queue := priorityQueues[l];
        if queue != [] {
          priorityQueues := priorityQueues[l := RemoveFirst(queue) + [queue[0]]];
          return Some(queue[0]);
        }
      }
      return None;
    }

    /** A new algorithm starts from the first process and with empty queues. */
    method SetAlgorithm(algorithm: Algorithm)
      modifies this`algorithm, this`lastScheduledIndex, this`priorityQueues
      ensures this.algorithm == algorithm && lastScheduledIndex == 0 && priorityQueues == [[], [], [], []]
    {
      this.algorithm, lastScheduledIndex, priorityQueues := algorithm, 0, [[], [], [], []];
    }

    method ScheduleFair(table: ProcessTable) returns (best: Option<Pid>)
      requires FamilyOk(table.State())
      ensures best == PickLeast(table.State(), Runnable(table.State()))
    {
      var runnable := table.GetProcessesWhere(IsRunnable);
      ghost var t := table.State();
      best := None;
      var least := U64_MAX;
      for k := 0 to |runnable|
        invariant best == PickLeast(t, runnable[..k]) && least == Bound(t, best)
      {
        LeastNext(t, runnable, k);
        var i := Find(table.processes, runnable[k]);
        if i < |table.processes| {
          var p := table.processes[i].value;
          if p.Runnable() && p.cpuTime < least {
            least := p.cpuTime;
            best := Some(runnable[k]);
          }
        }
      }
      assert runnable[..|runnable|] == runnable;
    }

    method Schedule(table: ProcessTable, power: PowerManager) returns (pick: Option<Pid>)
      requires FamilyOk(table.State())
      modifies this`lastScheduledIndex, this`priorityQueues, this`contextSwitches, this`decisions
      modifies table`processes, table`currentPid, power
      ensures (pick, lastScheduledIndex) ==
              Pick(old(table.State()), algorithm, old(lastScheduledIndex), PolicyOf(old(power.State())))
      ensures power.State() == Informed(old(table.State()), pick, old(power.State()))
      ensures table.State() == Dispatched(old(table.State()), pick)
      ensures Keeps(old(table.State()), table.State()) && Runnable(table.State()) == Runnable(old(table.State()))
      ensures pick.Some? ==>
                Live(table.State(), pick.value) && Live(old(table.State()), pick.value) &&
                (Get(table.State(), pick.value).state == Running <==>
                 old(table.currentPid) != pick || Get(old(table.State()), pick.value).state == Running)
      ensures decisions == old(decisions) + 1
      ensures contextSwitches == old(contextSwitches) + if Switches(old(table.State()), pick) then 1 else 0
    {
      decisions := decisions + 1;
      ghost var t := table.State();
      var policy := PolicyOf(power.State());
      PickIsRunnable(t, algorithm, lastScheduledIndex, policy);
      pick := Select(table, policy);
      DispatchKeepsRunnable(t, pick);
      if pick.Some? { PickRunsIff(t, pick.value); }
      Dispatch(table, power, pick);
    }

    method Select(table: ProcessTable, policy: Policy) returns (pick: Option<Pid>)
      requires FamilyOk(table.State())
      modifies this`lastScheduledIndex, this`priorityQueues
      ensures (pick, lastScheduledIndex) == Pick(table.State(), algorithm, old(lastScheduledIndex), policy)
    {
      match algorithm {
        case RoundRobin => pick := ScheduleRoundRobin(table);
        case ByPriority => pick := SchedulePriority(table, policy);
        case CompletelyFair => pick := ScheduleFair(table);
      }
    }

    /** The picked process is made current unless it is, and power management told; without a pick nothing is. */
    method Dispatch(table: ProcessTable, power: PowerManager, pick: Option<Pid>)
      requires FamilyOk(table.State())
      requires Switched(table.State(), pick).1.Ok? || table.currentPid == pick
      modifies this`contextSwitches, table`processes, table`currentPid, power
      ensures table.State() == Dispatched(old(table.State()), pick)
      ensures contextSwitches == old(contextSwitches) + if Switches(old(table.State()), pick) then 1 else 0
      ensures power.State() == Informed(old(table.State()), pick, old(power.State()))
    {
      ghost var t := table.State();
      if pick.None? {
        var r := table.SetCurrentProcess(None);
      } else if table.currentPid != pick {
        SwitchedMeaning(t, pick);
        var r := table.SetCurrentProcess(pick);
        contextSwitches := contextSwitches + 1;
        Notify(table, power, pick.value);
      }
    }

    /** Power management hears what kind of process runs now. */
    method Notify(table: ProcessTable, power: PowerManager, pid: Pid)
      requires Live(table.State(), pid)
      modifies power
      ensures power.State() == Notified(old(power.State()), pid, ActivityAt(table.State(), pid))
    {
      var i := Find(table.processes, pid);
      power.NotifyProcessActivity(pid, ActivityOf(table.processes[i].value.priority));
    }
  }
}
