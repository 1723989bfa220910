/**
 The process table.  Names, address spaces, CPU contexts and clock readings are left out of
 `Process`: no table operation branches on them.
 */
module Processes {
  import opened Collections
  import opened Types

  datatype BlockReason = Io | Message | Child | Memory | Resource

  datatype State = Running | Ready | Blocked(reason: BlockReason) | Zombie | Creating

  datatype Priority = System | Interactive | Normal | Background

  datatype Process = Process(
    pid: Pid, parent: Option<Pid>, state: State, priority: Priority,
    cpuTime: nat, exitCode: Option<int>, children: seq<Pid>)
  {
    predicate Runnable() {
      state == Ready || state == Running
    }
  }

  type Slots = seq<Option<Process>>

  datatype Table = Table(slots: Slots, nextPid: Pid, current: Option<Pid>, maxProcesses: nat)

  datatype Error = NotFound | Full

  // ---------------------------------------------------------------- lookup

  /** First slot holding the process, |slots| if none does. */
  function Find(slots: Slots, pid: Pid): (i: nat)
    ensures i <= |slots|
    ensures i < |slots| ==> slots[i].Some? && slots[i].value.pid == pid
    ensures forall j :: 0 <= j < i ==> slots[j].Some? ==> slots[j].value.pid != pid
  {
    if slots == [] then 0
    else if slots[0].Some? && slots[0].value.pid == pid then 0
    else 1 + Find(slots[1..], pid)
  }

  predicate Live(t: Table, pid: Pid) {
    Find(t.slots, pid) < |t.slots|
  }

  function Get(t: Table, pid: Pid): (p: Process)
    requires Live(t, pid)
    ensures p.pid == pid
  {
    t.slots[Find(t.slots, pid)].value
  }

  function Put(t: Table, p: Process): Table
    requires Live(t, p.pid)
  {
    t.(slots := t.slots[Find(t.slots, p.pid) := Some(p)])
  }

  // ---------------------------------------------------------------- operations

  /** The child is listed with its parent if there is such a process. */
  function Adopted(t: Table, parent: Option<Pid>, pid: Pid): Table {
    if parent.Some? && Live(t, parent.value)
    then var q := Get(t, parent.value);
         if pid in q.children then t else Put(t, q.(children := q.children + [pid]))
    else t
  }

  function Created(t: Table, parent: Option<Pid>, priority: Priority): (Table, Result<Pid, Error>) {
    if |t.slots| >= t.maxProcesses then (t, Err(Full))
    else
      var pid := t.nextPid;
      var t1 := Adopted(t, parent, pid);
      (t1.(slots := t1.slots + [Some(Process(pid, parent, Ready, priority, 0, None, []))], nextPid := pid + 1), Ok(pid))
  }

  /** What becomes of a slot when process p is removed: gone, orphaned, or a parent of one child fewer. */
  function AfterRemoval(slot: Option<Process>, p: Process): Option<Process> {
    if slot.None? || slot.value.pid == p.pid then None
    else
      var q := slot.value;
      var kin := if p.parent == Some(q.pid) then q.(children := Without(q.children, p.pid)) else q;
      Some(if q.pid in p.children then kin.(state := Zombie, exitCode := Some(-1)) else kin)
  }

  function Removed(t: Table, pid: Pid): (Table, Result<Process, Error>) {
    if !Live(t, pid) then (t, Err(NotFound))
    else
      var p := Get(t, pid);
      (t.(slots := seq(|t.slots|, i requires 0 <= i < |t.slots| => AfterRemoval(t.slots[i], p))), Ok(p))
  }

  /** The current process, if it runs, is only ready. */
  function Yielded(t: Table): Table {
    if t.current.Some? && Live(t, t.current.value) && Get(t, t.current.value).state == Running
    then Put(t, Get(t, t.current.value).(state := Ready)) else t
  }

  /** The previous process yields; the new one runs, whatever state it was in. */
  function Switched(t: Table, pid: Option<Pid>): (Table, Result<(), Error>) {
    var t1 := Yielded(t);
    if pid.None? then (t1.(current := None), Ok(()))
    else if Live(t1, pid.value) then (Put(t1, Get(t1, pid.value).(state := Running)).(current := pid), Ok(()))
    else (t1, Err(NotFound))
  }

  function Terminated(t: Table, pid: Pid, code: int): Table {
    if Live(t, pid) then Put(t, Get(t, pid).(state := Zombie, exitCode := Some(code))) else t
  }

  /** A state set through a mutable reference, running included. */
  function SetState(t: Table, pid: Pid, s: State): Table {
    if Live(t, pid) then Put(t, Get(t, pid).(state := s)) else t
  }

  function Charged(t: Table, pid: Pid, time: nat): Table {
    if Live(t, pid) then var p := Get(t, pid); Put(t, p.(cpuTime := p.cpuTime + time)) else t
  }

  function PidsWhere(slots: Slots, want: Process -> bool): seq<Pid> {
    if slots == [] then []
    else
      var last := slots[|slots| - 1];
      PidsWhere(slots[..|slots| - 1], want) + (if last.Some? && want(last.value) then [last.value.pid] else [])
  }

  predicate IsZombie(p: Process) { p.state == Zombie }
  predicate IsRunnable(p: Process) { p.Runnable() }

  function Zombies(t: Table): seq<Pid> {
    PidsWhere(t.slots, IsZombie)
  }

  function Runnable(t: Table): seq<Pid> {
    PidsWhere(t.slots, IsRunnable)
  }

  function RemovedAll(t: Table, pids: seq<Pid>): Table {
    if pids == [] then t else Removed(RemovedAll(t, pids[..|pids| - 1]), pids[|pids| - 1]).0
  }

  /** One cleanup pass: remove the processes that are zombies at its start. */
  function Cleaned(t: Table): Table {
    RemovedAll(t, Zombies(t))
  }

  datatype Op =
    | Create(parent: Option<Pid>, priority: Priority)
    | Remove(pid: Pid)
    | Switch(next: Option<Pid>)
    | Terminate(pid: Pid, code: int)
    | Set(pid: Pid, state: State)
    | Charge(pid: Pid, time: nat)
    | Cleanup

  function Step(t: Table, op: Op): Table {
    match op
    case Create(parent, priority) => Created(t, parent, priority).0
    case Remove(pid) => Removed(t, pid).0
    case Switch(next) => Switched(t, next).0
    case Terminate(pid, code) => Terminated(t, pid, code)
    case Set(pid, state) => SetState(t, pid, state)
    case Charge(pid, time) => Charged(t, pid, time)
    case Cleanup => Cleaned(t)
  }

  function Run(t: Table, ops: seq<Op>): Table {
    if ops == [] then t else Step(Run(t, ops[..|ops| - 1]), ops[|ops| - 1])
  }

  function Empty(maxProcesses: nat): Table {
    Table([], 1, None, maxProcesses)
  }

  // ---------------------------------------------------------------- invariant

  /** Slots are never reused: slot i can only ever hold process i+1. */
  ghost predicate Slotted(t: Table) {
    && t.nextPid == |t.slots| + 1
    && forall i :: 0 <= i < |t.slots| && t.slots[i].Some? ==> t.slots[i].value.pid == i + 1
  }

  ghost predicate ChildOk(t: Table, p: Process, c: Pid) {
    Live(t, c) && Get(t, c).parent == Some(p.pid) && c > p.pid
  }

  ghost predicate ProcessOk(t: Table, p: Process) {
    Distinct(p.children) && forall c :: c in p.children ==> ChildOk(t, p, c)
  }

  /**
   PIDs are unique, and every listed child is live, names its parent and has a larger PID: the child
   relation is a forest.
   */
  ghost predicate FamilyOk(t: Table) {
    Slotted(t) && forall pid :: Live(t, pid) ==> ProcessOk(t, Get(t, pid))
  }

  /** At most one process runs, and it is the current one. */
  ghost predicate Single(t: Table) {
    forall pid: Pid :: Live(t, pid) && Get(t, pid).state == Running ==> t.current == Some(pid)
  }

  ghost predicate Inv(t: Table) {
    FamilyOk(t) && Single(t)
  }

  /** The forest is kept, and a single running process stays single. */
  ghost predicate Keeps(t: Table, t': Table) {
    FamilyOk(t') && (Single(t) ==> Single(t'))
  }

  lemma SlotOf(t: Table, pid: Pid)
    requires Slotted(t)
    ensures Live(t, pid) <==> 1 <= pid <= |t.slots| && t.slots[pid - 1].Some?
    ensures Live(t, pid) ==> Find(t.slots, pid) == pid - 1
  {}

  /** Updating one process changes that process only. */
  lemma PutMeaning(t: Table, p: Process)
    requires Slotted(t) && Live(t, p.pid)
    ensures Slotted(Put(t, p))
    ensures forall x :: Live(Put(t, p), x) <==> Live(t, x)
    ensures forall x: Pid :: Live(t, x) ==> Get(Put(t, p), x) == if x == p.pid then p else Get(t, x)
  {
    var t' := Put(t, p);
    SlotOf(t, p.pid);
    forall x: Pid
      ensures Live(t', x) <==> Live(t, x)
      ensures Live(t, x) ==> Get(t', x) == if x == p.pid then p else Get(t, x)
    {
      SlotOf(t, x);
      SlotOf(t', x);
    }
  }

  lemma RemovedSlotted(t: Table, pid: Pid)
    requires Slotted(t)
    ensures Slotted(Removed(t, pid).0) && |Removed(t, pid).0.slots| == |t.slots|
  {}

  lemma RemovedOne(t: Table, pid: Pid, x: Pid)
    requires Slotted(t) && Live(t, pid)
    ensures Live(Removed(t, pid).0, x) <==> Live(t, x) && x != pid
    ensures Live(Removed(t, pid).0, x) ==> Some(Get(Removed(t, pid).0, x)) == AfterRemoval(Some(Get(t, x)), Get(t, pid))
  {
    RemovedSlotted(t, pid);
    SlotOf(t, x);
    SlotOf(Removed(t, pid).0, x);
  }

  /** Removal takes one process, makes its children zombies, and takes it off its parent's list. */
  lemma RemovedMeaning(t: Table, pid: Pid)
    requires Slotted(t) && Live(t, pid)
    ensures var t' := Removed(t, pid).0;
            && Slotted(t')
            && (forall x :: Live(t', x) <==> Live(t, x) && x != pid)
            && (forall x :: Live(t', x) ==> Some(Get(t', x)) == AfterRemoval(Some(Get(t, x)), Get(t, pid)))
  {
    RemovedSlotted(t, pid);
    forall x: Pid
      ensures Live(Removed(t, pid).0, x) <==> Live(t, x) && x != pid
      ensures Live(Removed(t, pid).0, x) ==>
                Some(Get(Removed(t, pid).0, x)) == AfterRemoval(Some(Get(t, x)), Get(t, pid))
    {
      RemovedOne(t, pid, x);
    }
  }

  /** Children of a removed process are zombies with exit code -1; processes of other families stay as they were. */
  lemma RemovalOrphans(t: Table, pid: Pid, x: Pid)
    requires Slotted(t) && Live(t, pid) && Live(t, x) && x != pid
    ensures var t' := Removed(t, pid).0;
            && Live(t', x)
            && (x in Get(t, pid).children ==> Get(t', x).state == Zombie && Get(t', x).exitCode == Some(-1))
            && (x !in Get(t, pid).children && Get(t, pid).parent != Some(x) ==> Get(t', x) == Get(t, x))
            && (Get(t, pid).parent == Some(x) ==> pid !in Get(t', x).children)
  {
    RemovedOne(t, pid, x);
    if Get(t, pid).parent == Some(x) { WithoutElements(Get(t, x).children, pid); }
  }

  /** A new state, exit code or CPU time leaves the family tree alone. */
  lemma PutKeepsFamily(t: Table, p: Process)
    requires FamilyOk(t) && Live(t, p.pid)
    requires p.parent == Get(t, p.pid).parent && p.children == Get(t, p.pid).children
    ensures FamilyOk(Put(t, p))
  {
    PutMeaning(t, p);
    var t' := Put(t, p);
    forall x | Live(t', x)
      ensures ProcessOk(t', Get(t', x))
    {
      assert ProcessOk(t, Get(t, x));
      forall c | c in Get(t', x).children
        ensures ChildOk(t', Get(t', x), c)
      {
        assert ChildOk(t, Get(t, x), c);
      }
    }
  }

  lemma CreatedKeepsFamily(t: Table, parent: Option<Pid>, priority: Priority)
    requires FamilyOk(t)
    ensures FamilyOk(Created(t, parent, priority).0)
  {
    if |t.slots| < t.maxProcesses {
      var t' := Created(t, parent, priority).0;
      CreatedMeaning(t, parent, priority);
      forall x | Live(t', x)
        ensures ProcessOk(t', Get(t', x))
      {
        if x != t.nextPid {
          assert ProcessOk(t, Get(t, x));
          forall c | c in Get(t', x).children
            ensures ChildOk(t', Get(t', x), c)
          {
            if c in Get(t, x).children { assert ChildOk(t, Get(t, x), c); }
          }
        }
      }
    }
  }

  lemma CreatedKeeps(t: Table, parent: Option<Pid>, priority: Priority)
    requires FamilyOk(t)
    ensures Keeps(t, Created(t, parent, priority).0)
  {
    CreatedKeepsFamily(t, parent, priority);
    if |t.slots| < t.maxProcesses { CreatedMeaning(t, parent, priority); }
  }

  lemma AdoptedMeaning(t: Table, parent: Option<Pid>)
    requires FamilyOk(t)
    ensures var t' := Adopted(t, parent, t.nextPid);
            && Slotted(t') && |t'.slots| == |t.slots| && t' == t.(slots := t'.slots)
            && (forall x :: Live(t', x) <==> Live(t, x))
            && (forall x: Pid :: Live(t, x) ==>
                  Get(t', x) == Get(t, x).(children := Get(t, x).children +
                                                       if parent == Some(x) then [t.nextPid] else []))
  {
    if parent.Some? && Live(t, parent.value) {
      var pid, q := t.nextPid, Get(t, parent.value);
      SlotOf(t, pid);
      assert ProcessOk(t, q);
      assert forall c :: c in q.children ==> ChildOk(t, q, c);
      assert pid !in q.children;
      PutMeaning(t, q.(children := q.children + [pid]));
    }
  }

  lemma AppendMeaning(t: Table, p: Process)
    requires Slotted(t) && p.pid == t.nextPid
    ensures var t' := t.(slots := t.slots + [Some(p)], nextPid := p.pid + 1);
            && Slotted(t') && !Live(t, p.pid)
            && (forall x :: Live(t', x) <==> Live(t, x) || x == p.pid)
            && Get(t', p.pid) == p
            && (forall x: Pid :: Live(t, x) ==> x < p.pid && Get(t', x) == Get(t, x))
  {
    var t' := t.(slots := t.slots + [Some(p)], nextPid := p.pid + 1);
    SlotOf(t, p.pid);
    SlotOf(t', p.pid);
    forall x: Pid
      ensures Live(t', x) <==> Live(t, x) || x == p.pid
      ensures Live(t, x) ==> x < p.pid && Get(t', x) == Get(t, x)
    {
      SlotOf(t, x);
      SlotOf(t', x);
    }
  }

  lemma CreatedMeaning(t: Table, parent: Option<Pid>, priority: Priority)
    requires FamilyOk(t) && |t.slots| < t.maxProcesses
    ensures var t' := Created(t, parent, priority).0; var pid := t.nextPid;
            && Slotted(t') && !Live(t, pid) && t'.current == t.current
            && (forall x :: Live(t', x) <==> Live(t, x) || x == pid)
            && Get(t', pid) == Process(pid, parent, Ready, priority, 0, None, [])
            && (forall x: Pid :: Live(t, x) ==> x < pid)
            && (forall x: Pid :: Live(t, x) ==>
                  Get(t', x) == Get(t, x).(children := Get(t, x).children + if parent == Some(x) then [pid] else []))
  {
    AdoptedMeaning(t, parent);
    AppendMeaning(Adopted(t, parent, t.nextPid), Process(t.nextPid, parent, Ready, priority, 0, None, []));
  }

  lemma RemovedKeepsFamily(t: Table, pid: Pid)
    requires FamilyOk(t)
    ensures FamilyOk(Removed(t, pid).0)
  {
    if Live(t, pid) {
      RemovedSlotted(t, pid);
      forall x | Live(Removed(t, pid).0, x)
        ensures ProcessOk(Removed(t, pid).0, Get(Removed(t, pid).0, x))
      {
        RemovedKeepsProcess(t, pid, x);
      }
    }
  }

  lemma RemovedKeeps(t: Table, pid: Pid)
    requires FamilyOk(t)
    ensures Keeps(t, Removed(t, pid).0)
  {
    RemovedKeepsFamily(t, pid);
    if Live(t, pid) { RemovedMeaning(t, pid); }
  }

  lemma RemovedKeepsProcess(t: Table, pid: Pid, x: Pid)
    requires FamilyOk(t) && Live(t, pid) && Live(Removed(t, pid).0, x)
    ensures ProcessOk(Removed(t, pid).0, Get(Removed(t, pid).0, x))
  {
    var t' := Removed(t, pid).0;
    RemovedOne(t, pid, x);
    var q := Get(t, x);
    assert ProcessOk(t, q);
    WithoutElements(q.children, pid);
    WithoutKeepsDistinct(q.children, pid);
    forall c | c in Get(t', x).children
      ensures ChildOk(t', Get(t', x), c)
    {
      assert ChildOk(t, q, c);
      RemovedOne(t, pid, c);
    }
  }

  lemma YieldedMeaning(t: Table)
    requires FamilyOk(t)
    ensures FamilyOk(Yielded(t)) && Yielded(t).current == t.current
    ensures forall x: Pid :: Live(Yielded(t), x) <==> Live(t, x)
    ensures forall x: Pid :: Live(t, x) ==> Get(Yielded(t), x) == Get(t, x).(state := AfterYield(t, Get(t, x)))
  {
    if Yielded(t) != t {
      var p := Get(t, t.current.value).(state := Ready);
      PutKeepsFamily(t, p);
      PutMeaning(t, p);
    }
  }

  /** The current process stops running. */
  function AfterYield(t: Table, p: Process): State {
    if t.current == Some(p.pid) && p.state == Running then Ready else p.state
  }

  /**
   A switch makes the named process current and running, whatever its state was, takes the processor from
   the current one, and changes nothing else; a switch to a missing process still takes it.
   */
  lemma SwitchedMeaning(t: Table, pid: Option<Pid>)
    requires FamilyOk(t)
    ensures var (t', r) := Switched(t, pid);
            && r == (if pid.None? || Live(t, pid.value) then Ok(()) else Err(NotFound))
            && t'.current == (if r.Ok? then pid else t.current)
            && (forall x: Pid :: Live(t', x) <==> Live(t, x))
            && forall x: Pid :: Live(t, x) ==>
                 Get(t', x) == Get(t, x).(state := if pid == Some(x) then Running else AfterYield(t, Get(t, x)))
  {
    YieldedMeaning(t);
    if pid.Some? && Live(t, pid.value) {
      PutMeaning(Yielded(t), Get(Yielded(t), pid.value).(state := Running));
    }
  }

  lemma RenameKeepsFamily(t: Table, pid: Option<Pid>)
    requires FamilyOk(t)
    ensures FamilyOk(t.(current := pid))
  {
    var t' := t.(current := pid);
    forall x | Live(t', x)
      ensures ProcessOk(t', Get(t', x))
    {
      assert ProcessOk(t, Get(t, x));
      forall c | c in Get(t', x).children
        ensures ChildOk(t', Get(t', x), c)
      {
        assert ChildOk(t, Get(t, x), c);
      }
    }
  }

  lemma SwitchedKeepsFamily(t: Table, pid: Option<Pid>)
    requires FamilyOk(t)
    ensures FamilyOk(Switched(t, pid).0)
  {
    YieldedMeaning(t);
    var t1 := Yielded(t);
    RenameKeepsFamily(t1, pid);
    if pid.Some? && Live(t1, pid.value) {
      PutKeepsFamily(t1, Get(t1, pid.value).(state := Running));
      RenameKeepsFamily(Put(t1, Get(t1, pid.value).(state := Running)), pid);
    }
  }

  lemma SwitchedKeeps(t: Table, pid: Option<Pid>)
    requires FamilyOk(t)
    ensures Keeps(t, Switched(t, pid).0)
  {
    SwitchedKeepsFamily(t, pid);
    SwitchedMeaning(t, pid);
  }

  lemma {:induction false} RemovedAllKeeps(t: Table, pids: seq<Pid>)
    requires FamilyOk(t)
    ensures Keeps(t, RemovedAll(t, pids))
  {
    if pids == [] {
    } else {
      RemovedAllKeeps(t, pids[..|pids| - 1]);
      RemovedKeeps(RemovedAll(t, pids[..|pids| - 1]), pids[|pids| - 1]);
    }
  }

  // ---------------------------------------------------------------- every run

  lemma TerminatedKeepsFamily(t: Table, pid: Pid, code: int)
    requires FamilyOk(t)
    ensures FamilyOk(Terminated(t, pid, code))
  {
    if Live(t, pid) { PutKeepsFamily(t, Get(t, pid).(state := Zombie, exitCode := Some(code))); }
  }

  lemma SetStateKeepsFamily(t: Table, pid: Pid, state: State)
    requires FamilyOk(t)
    ensures FamilyOk(SetState(t, pid, state))
  {
    if Live(t, pid) { PutKeepsFamily(t, Get(t, pid).(state := state)); }
  }

  lemma ChargedKeepsFamily(t: Table, pid: Pid, time: nat)
    requires FamilyOk(t)
    ensures FamilyOk(Charged(t, pid, time))
  {
    if Live(t, pid) { PutKeepsFamily(t, Get(t, pid).(cpuTime := Get(t, pid).cpuTime + time)); }
  }

  lemma StepKeepsFamily(t: Table, op: Op)
    requires FamilyOk(t)
    ensures FamilyOk(Step(t, op))
  {
    match op {
      case Create(parent, priority) => CreatedKeepsFamily(t, parent, priority);
      case Remove(pid) => RemovedKeepsFamily(t, pid);
      case Switch(next) => SwitchedKeepsFamily(t, next);
      case Terminate(pid, code) => TerminatedKeepsFamily(t, pid, code);
      case Set(pid, state) => SetStateKeepsFamily(t, pid, state);
      case Charge(pid, time) => ChargedKeepsFamily(t, pid, time);
      case Cleanup => RemovedAllKeeps(t, Zombies(t));
    }
  }

  /** After every run of operations, failed ones included, PIDs are unique and the child relation is a forest. */
  lemma {:induction false} RunKeepsFamily(maxProcesses: nat, ops: seq<Op>)
    ensures FamilyOk(Run(Empty(maxProcesses), ops))
  {
    if ops == [] {
    } else {
      RunKeepsFamily(maxProcesses, ops[..|ops| - 1]);
      StepKeepsFamily(Run(Empty(maxProcesses), ops[..|ops| - 1]), ops[|ops| - 1]);
    }
  }

  /** A state set by hand makes no other process than the current one run. */
  predicate Legal(t: Table, op: Op) {
    op.Set? && op.state == Running && Live(t, op.pid) ==> t.current == Some(op.pid)
  }

  lemma PutSingleIff(t: Table, p: Process)
    requires Slotted(t) && Single(t) && Live(t, p.pid)
    ensures Single(Put(t, p)) <==> (p.state == Running ==> t.current == Some(p.pid))
  {
    PutMeaning(t, p);
  }

  /** The single-running-process rule survives every operation but one: running set by hand on another process. */
  lemma StepSingleIff(t: Table, op: Op)
    requires Inv(t)
    ensures Single(Step(t, op)) <==> Legal(t, op)
  {
    match op {
      case Create(parent, priority) => CreatedKeeps(t, parent, priority);
      case Remove(pid) => RemovedKeeps(t, pid);
      case Switch(next) => SwitchedKeeps(t, next);
      case Terminate(pid, code) =>
        if Live(t, pid) { PutSingleIff(t, Get(t, pid).(state := Zombie, exitCode := Some(code))); }
      case Set(pid, state) =>
        if Live(t, pid) { PutSingleIff(t, Get(t, pid).(state := state)); }
      case Charge(pid, time) =>
        if Live(t, pid) { PutSingleIff(t, Get(t, pid).(cpuTime := Get(t, pid).cpuTime + time)); }
      case Cleanup => RemovedAllKeeps(t, Zombies(t));
    }
  }

  lemma StepKeepsInv(t: Table, op: Op)
    requires FamilyOk(t) && Legal(t, op)
    ensures Keeps(t, Step(t, op))
  {
    StepKeepsFamily(t, op);
    if Single(t) { StepSingleIff(t, op); }
  }

  ghost predicate LegalRun(t: Table, ops: seq<Op>) {
    ops == [] || (LegalRun(t, ops[..|ops| - 1]) && Legal(Run(t, ops[..|ops| - 1]), ops[|ops| - 1]))
  }

  ghost predicate AlwaysSingle(t: Table, ops: seq<Op>) {
    Single(Run(t, ops)) && (ops == [] || AlwaysSingle(t, ops[..|ops| - 1]))
  }

  /** Throughout a run at most the current process runs, exactly if no other is set running by hand. */
  lemma {:induction false} SingleIffLegal(maxProcesses: nat, ops: seq<Op>)
    ensures AlwaysSingle(Empty(maxProcesses), ops) <==> LegalRun(Empty(maxProcesses), ops)
  {
    if ops == [] {
    } else {
      var init := ops[..|ops| - 1];
      SingleIffLegal(maxProcesses, init);
      RunKeepsFamily(maxProcesses, init);
      if AlwaysSingle(Empty(maxProcesses), init) {
        StepSingleIff(Run(Empty(maxProcesses), init), ops[|ops| - 1]);
      }
    }
  }

  lemma RunKeepsInv(maxProcesses: nat, ops: seq<Op>)
    requires LegalRun(Empty(maxProcesses), ops)
    ensures Inv(Run(Empty(maxProcesses), ops))
  {
    RunKeepsFamily(maxProcesses, ops);
    SingleIffLegal(maxProcesses, ops);
  }

  /** PIDs ascend along every path of listed children, so no process is its own descendant. */
  lemma RunIsForest(maxProcesses: nat, ops: seq<Op>, path: seq<Pid>)
    requires |path| >= 2
    requires var t := Run(Empty(maxProcesses), ops);
             forall k :: 0 <= k < |path| - 1 ==> Live(t, path[k]) && path[k + 1] in Get(t, path[k]).children
    ensures path[0] < path[|path| - 1]
  {
    RunKeepsFamily(maxProcesses, ops);
    PathAscends(Run(Empty(maxProcesses), ops), path);
  }

  lemma {:induction false} PathAscends(t: Table, path: seq<Pid>)
    requires FamilyOk(t) && |path| >= 2
    requires forall k :: 0 <= k < |path| - 1 ==> Live(t, path[k]) && path[k + 1] in Get(t, path[k]).children
    ensures path[0] < path[|path| - 1]
  {
    var n := |path| - 2;
    assert ProcessOk(t, Get(t, path[n]));
    assert ChildOk(t, Get(t, path[n]), path[n + 1]);
    if n == 0 {
    } else {
      PathAscends(t, path[..n + 1]);
    }
  }

  // ---------------------------------------------------------------- the limit counts creations

  /** Creations attempted in a run. */
  function Creations(ops: seq<Op>): nat {
    if ops == [] then 0 else Creations(ops[..|ops| - 1]) + if ops[|ops| - 1].Create? then 1 else 0
  }

  lemma {:induction false} RemovedAllKeepsSlots(t: Table, pids: seq<Pid>)
    ensures |RemovedAll(t, pids).slots| == |t.slots|
    ensures RemovedAll(t, pids).nextPid == t.nextPid && RemovedAll(t, pids).maxProcesses == t.maxProcesses
  {
    if pids == [] {
    } else {
      RemovedAllKeepsSlots(t, pids[..|pids| - 1]);
    }
  }

  lemma StepSlots(t: Table, op: Op)
    ensures Step(t, op).maxProcesses == t.maxProcesses
    ensures |Step(t, op).slots| == |t.slots| + if op.Create? && |t.slots| < t.maxProcesses then 1 else 0
    ensures Step(t, op).nextPid - t.nextPid == |Step(t, op).slots| - |t.slots|
  {
    if op.Cleanup? { RemovedAllKeepsSlots(t, Zombies(t)); }
  }

  lemma {:induction false} SlotsAreCreations(maxProcesses: nat, ops: seq<Op>)
    ensures Run(Empty(maxProcesses), ops).maxProcesses == maxProcesses
    ensures Run(Empty(maxProcesses), ops).nextPid == |Run(Empty(maxProcesses), ops).slots| + 1
    ensures |Run(Empty(maxProcesses), ops).slots| ==
            if Creations(ops) < maxProcesses then Creations(ops) else maxProcesses
  {
    if ops == [] {
    } else {
      SlotsAreCreations(maxProcesses, ops[..|ops| - 1]);
      StepSlots(Run(Empty(maxProcesses), ops[..|ops| - 1]), ops[|ops| - 1]);
    }
  }

  /** Creation fails exactly after as many creations as the limit, however many are left: slots are not reused. */
  lemma FullIffCreatedEnough(maxProcesses: nat, ops: seq<Op>, parent: Option<Pid>, priority: Priority)
    ensures Created(Run(Empty(maxProcesses), ops), parent, priority).1 ==
            if Creations(ops) < maxProcesses then Ok(Creations(ops) + 1) else Err(Full)
  {
    SlotsAreCreations(maxProcesses, ops);
  }

  /** With room for one process: create it, remove it, and there is no room for another in the empty table. */
  lemma EmptyTableIsFull(ops: seq<Op>, pid: Pid)
    requires ops == [Create(None, Normal), Remove(1)]
    ensures Created(Run(Empty(1), ops), None, Normal).1 == Err(Full)
    ensures !Live(Run(Empty(1), ops), pid)
  {
    var one := ops[..1];
    assert one == [Create(None, Normal)] && one[..0] == [];
    assert Creations(one) == 1;
    FullIffCreatedEnough(1, ops, None, Normal);
    CreatedMeaning(Empty(1), None, Normal);
    assert Run(Empty(1), one) == Created(Empty(1), None, Normal).0;
    RemovedMeaning(Run(Empty(1), one), 1);
  }

  lemma TwoCreated(ops: seq<Op>, a: Priority, b: Priority, t: Table)
    requires ops == [Create(None, a), Create(None, b)] && t == Run(Empty(2), ops)
    ensures FamilyOk(t) && t.current == None && forall x: Pid :: Live(t, x) <==> x == 1 || x == 2
    ensures Get(t, 1) == Process(1, None, Ready, a, 0, None, [])
    ensures Get(t, 2) == Process(2, None, Ready, b, 0, None, [])
  {
    RunKeepsFamily(2, ops);
    RunKeepsFamily(2, ops[..1]);
    assert ops[..1][..0] == [];
    assert Run(Empty(2), ops[..1]) == Created(Empty(2), None, a).0;
    CreatedMeaning(Empty(2), None, a);
    CreatedMeaning(Run(Empty(2), ops[..1]), None, b);
  }

  /** Two processes run at once: one is switched to, the other set running by hand. */
  lemma TwoCanRun(ops: seq<Op>)
    requires ops == [Create(None, Normal), Create(None, Normal), Switch(Some(1)), Set(2, Running)]
    ensures !Single(Run(Empty(2), ops))
  {
    var t2, t3 := Run(Empty(2), ops[..2]), Run(Empty(2), ops[..3]);
    assert ops[..3][..2] == ops[..2];
    TwoCreated(ops[..2], Normal, Normal, t2);
    SwitchedKeeps(t2, Some(1));
    SwitchedMeaning(t2, Some(1));
    StepSingleIff(t3, Set(2, Running));
  }

  /** A terminated process that is switched to runs again. */
  lemma SwitchRevives(t: Table, pid: Pid, code: int)
    requires FamilyOk(t) && Live(t, pid)
    ensures Live(Terminated(t, pid, code), pid) && Get(Terminated(t, pid, code), pid).state == Zombie
    ensures var t' := Switched(Terminated(t, pid, code), Some(pid)).0;
            Live(t', pid) && Get(t', pid).state == Running && Get(t', pid).exitCode == Some(code)
  {
    PutMeaning(t, Get(t, pid).(state := Zombie, exitCode := Some(code)));
    StepKeepsFamily(t, Terminate(pid, code));
    SwitchedMeaning(Terminated(t, pid, code), Some(pid));
  }
}
