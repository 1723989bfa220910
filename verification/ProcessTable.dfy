/** The table as it is updated in place; every method is proved against `Processes`. */
module ProcessTables {
  import opened Collections
  import opened Types
  import opened Processes
  import opened ZombieCleanup

  function RemovedSlots(slots: Slots, p: Process): Slots {
    seq(|slots|, i requires 0 <= i < |slots| => AfterRemoval(slots[i], p))
  }

  function TerminatedAt(slots: Slots, pid: Pid, code: int): Slots {
    var i := Find(slots, pid);
    if i < |slots| then slots[i := Some(slots[i].value.(state := Zombie, exitCode := Some(code)))] else slots
  }

  /** Clearing the slot and unlisting the child is a removal that orphans nobody yet. */
  lemma RemovalStarts(t: Table, p: Process)
    requires Slotted(t) && Live(t, p.pid) && Get(t, p.pid) == p
    ensures var slots := t.slots[Find(t.slots, p.pid) := None];
            RemovedSlots(t.slots, p.(children := [])) ==
            if p.parent.Some? && Find(slots, p.parent.value) < |slots|
            then var j := Find(slots, p.parent.value);
                 slots[j := Some(slots[j].value.(children := Without(slots[j].value.children, p.pid)))]
            else slots
  {
    SlotOf(t, p.pid);
    var slots := t.slots[p.pid - 1 := None];
    if p.parent.Some? {
      var cleared := t.(slots := slots);
      SlotOf(cleared, p.parent.value);
    }
  }

  /** Terminating one more child. */
  lemma RemovalContinues(t: Table, p: Process, k: nat)
    requires Slotted(t) && Live(t, p.pid) && Get(t, p.pid) == p && k < |p.children|
    ensures TerminatedAt(RemovedSlots(t.slots, p.(children := p.children[..k])), p.children[k], -1) ==
            RemovedSlots(t.slots, p.(children := p.children[..k + 1]))
  {
    var slots := RemovedSlots(t.slots, p.(children := p.children[..k]));
    var slots' := RemovedSlots(t.slots, p.(children := p.children[..k + 1]));
    var c := p.children[k];
    SlotOf(t, p.pid);
    SlotOf(t.(slots := slots), c);
    assert p.children[..k + 1] == p.children[..k] + [c];
    forall i | 0 <= i < |slots|
      ensures slots'[i] == TerminatedAt(slots, c, -1)[i]
    {
      var small, big := p.(children := p.children[..k]), p.(children := p.children[..k + 1]);
      assert slots[i] == AfterRemoval(t.slots[i], small) && slots'[i] == AfterRemoval(t.slots[i], big);
    }
  }

  /** The next process to remove is still there. */
  lemma NextRemoval(t: Table, pids: seq<Pid>, k: nat)
    requires FamilyOk(t) && Ascending(pids) && (forall z :: z in pids ==> Live(t, z)) && k < |pids|
    ensures var t' := RemovedAll(t, pids[..k]);
            FamilyOk(t') && Live(t', pids[k]) && RemovedAll(t, pids[..k + 1]) == Removed(t', pids[k]).0
  {
    RemovedAllKeeps(t, pids[..k]);
    RemovedAllMeaning(t, pids[..k]);
    assert pids[..k + 1][..k] == pids[..k];
    assert pids[k] in pids && pids[k] !in pids[..k];
  }

  class ProcessTable {
    var processes: Slots
    var nextPid: Pid
    var currentPid: Option<Pid>
    const maxProcesses: nat

    ghost function State(): Table
      reads this
    {
      Table(processes, nextPid, currentPid, maxProcesses)
    }

    constructor (maxProcesses: nat)
      ensures State() == Empty(maxProcesses) && Inv(State())
    {
      processes, nextPid, currentPid, this.maxProcesses := [], 1, None, maxProcesses;
    }

    method CreateProcess(parent: Option<Pid>, priority: Priority) returns (r: Result<Pid, Error>)
      requires FamilyOk(State())
      modifies this
      ensures Keeps(old(State()), State()) && (State(), r) == Created(old(State()), parent, priority)
    {
      CreatedKeeps(State(), parent, priority);
      if |processes| >= maxProcesses {
        return Err(Full);
      }
      var pid := nextPid;
      nextPid := nextPid + 1;
      if parent.Some? {
        var i := Find(processes, parent.value);
        if i < |processes| {
          var q := processes[i].value;
          if pid !in q.children {
            processes := processes[i := Some(q.(children := q.children + [pid]))];
          }
        }
      }
      processes := processes + [Some(Process(pid, parent, Ready, priority, 0, None, []))];
      return Ok(pid);
    }

    method RemoveProcess(pid: Pid) returns (r: Result<Process, Error>)
      requires FamilyOk(State())
      modifies this`processes
      ensures Keeps(old(State()), State()) && (State(), r) == Removed(old(State()), pid)
      ensures r == if Live(old(State()), pid) then Ok(Get(old(State()), pid)) else Err(NotFound)
      ensures r.Err? ==> State() == old(State())
    {
      RemovedKeeps(State(), pid);
      r := TakeProcess(pid);
    }

    method TakeProcess(pid: Pid) returns (r: Result<Process, Error>)
      requires Slotted(State())
      modifies this`processes
      ensures (State(), r) == Removed(old(State()), pid)
    {
      var index := Find(processes, pid);
      if index == |processes| {
        return Err(NotFound);
      }
      var process := processes[index].value;
      RemovalStarts(State(), process);
      processes := processes[index := None];
      if process.parent.Some? {
        var j := Find(processes, process.parent.value);
        if j < |processes| {
          var q := processes[j].value;
          processes := processes[j := Some(q.(children := Without(q.children, pid)))];
        }
      }
      for k := 0 to |process.children|
        invariant processes == RemovedSlots(old(processes), process.(children := process.children[..k]))
      {
        RemovalContinues(old(State()), process, k);
        var c := Find(processes, process.children[k]);
        if c < |processes| {
          processes := processes[c := Some(processes[c].value.(state := Zombie, exitCode := Some(-1)))];
        }
      }
      assert process.(children := process.children[..|process.children|]) == process;
      assert processes == Removed(old(State()), pid).0.slots;
      return Ok(process);
    }

    method SetCurrentProcess(pid: Option<Pid>) returns (r: Result<(), Error>)
      requires FamilyOk(State())
      modifies this`processes, this`currentPid
      ensures Keeps(old(State()), State()) && (State(), r) == Switched(old(State()), pid)
    {
      SwitchedKeeps(State(), pid);
      if currentPid.Some? {
        var i := Find(processes, currentPid.value);
        if i < |processes| && processes[i].value.state == Running {
          processes := processes[i := Some(processes[i].value.(state := Ready))];
        }
      }
      if pid.Some? {
        var i := Find(processes, pid.value);
        if i == |processes| {
          return Err(NotFound);
        }
        processes := processes[i := Some(processes[i].value.(state := Running))];
      }
      currentPid := pid;
      return Ok(());
    }

    /** A state set through get_process_mut. */
    method SetProcessState(pid: Pid, state: State)
      requires FamilyOk(State())
      modifies this`processes
      ensures FamilyOk(State()) && State() == SetState(old(State()), pid, state)
      ensures Single(old(State())) ==> (Single(State()) <==> Legal(old(State()), Set(pid, state)))
    {
      StepKeepsFamily(State(), Set(pid, state));
      if Single(State()) { StepSingleIff(State(), Set(pid, state)); }
      var i := Find(processes, pid);
      if i < |processes| {
        processes := processes[i := Some(processes[i].value.(state := state))];
      }
    }

    method AddCpuTime(pid: Pid, time: nat)
      requires FamilyOk(State())
      modifies this`processes
      ensures Keeps(old(State()), State()) && State() == Charged(old(State()), pid, time)
    {
      StepKeepsInv(State(), Charge(pid, time));
      var i := Find(processes, pid);
      if i < |processes| {
        processes := processes[i := Some(processes[i].value.(cpuTime := processes[i].value.cpuTime + time))];
      }
    }

    method GetProcessesWhere(want: Process -> bool) returns (pids: seq<Pid>)
      ensures pids == PidsWhere(processes, want)
    {
      pids := [];
      for i := 0 to |processes|
        invariant pids == PidsWhere(processes[..i], want)
      {
        assert processes[..i + 1][..i] == processes[..i];
        if processes[i].Some? && want(processes[i].value) {
          pids := pids + [processes[i].value.pid];
        }
      }
      assert processes[..|processes|] == processes;
    }

    /** Returns the number of zombies there were, all of them removed. */
    method CleanupZombies() returns (cleaned: nat)
      requires FamilyOk(State())
      modifies this`processes
      ensures Keeps(old(State()), State()) && State() == Cleaned(old(State()))
      ensures cleaned == |Zombies(old(State()))|
    {
      var zombies := GetProcessesWhere(IsZombie);
      PassRemovesZombies(State());
      cleaned := RemoveAll(zombies);
    }

    method RemoveAll(pids: seq<Pid>) returns (removed: nat)
      requires FamilyOk(State()) && Ascending(pids) && forall z :: z in pids ==> Live(State(), z)
      modifies this`processes
      ensures State() == RemovedAll(old(State()), pids) && removed == |pids|
    {
      removed := 0;
      for k := 0 to |pids|
        invariant State() == RemovedAll(old(State()), pids[..k]) && removed == k
      {
        NextRemoval(old(State()), pids, k);
        var r := RemoveProcess(pids[k]);
        if r.Ok? {
          removed := removed + 1;
        }
      }
      assert pids[..|pids|] == pids;
    }
  }
}
