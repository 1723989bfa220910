/** Zombie cleanup: what one pass does, and what repeating it until nothing is left does. */
module ZombieCleanup {
  import opened Collections
  import opened Types
  import opened Processes

  // ---------------------------------------------------------------- listing processes

  ghost predicate InSlots(slots: Slots) {
    forall i :: 0 <= i < |slots| && slots[i].Some? ==> slots[i].value.pid == i + 1
  }

  ghost predicate Ascending(s: seq<Pid>) {
    forall i, j :: 0 <= i < j < |s| ==> s[i] < s[j]
  }

  lemma {:induction false} PidsWhereSlots(slots: Slots, want: Process -> bool)
    requires InSlots(slots)
    ensures Ascending(PidsWhere(slots, want))
    ensures forall x: Pid :: x in PidsWhere(slots, want) <==>
              1 <= x <= |slots| && slots[x - 1].Some? && want(slots[x - 1].value)
  {
    if slots == [] {
    } else {
      var init := slots[..|slots| - 1];
      PidsWhereSlots(init, want);
      var before, all := PidsWhere(init, want), PidsWhere(slots, want);
      forall i | 0 <= i < |before|
        ensures before[i] < |slots|
      {
        assert before[i] in before;
      }
    }
  }

  /** The listing holds exactly the live processes asked for, each once, in PID order. */
  lemma PidsWhereMeaning(t: Table, want: Process -> bool)
    requires Slotted(t)
    ensures Ascending(PidsWhere(t.slots, want))
    ensures forall x: Pid :: x in PidsWhere(t.slots, want) <==> Live(t, x) && want(Get(t, x))
  {
    PidsWhereSlots(t.slots, want);
    forall x: Pid
      ensures x in PidsWhere(t.slots, want) <==> Live(t, x) && want(Get(t, x))
    {
      SlotOf(t, x);
    }
  }

  // ---------------------------------------------------------------- one pass

  /** x is a listed child of one of the removed processes. */
  ghost predicate Orphaned(t: Table, gone: seq<Pid>, x: Pid) {
    exists z :: z in gone && Live(t, z) && x in Get(t, z).children
  }

  /** q0 after the removal of `gone`: a zombie if orphaned, and without the children that are gone. */
  ghost predicate Bereaved(t: Table, gone: seq<Pid>, q0: Process, q: Process) {
    && q.pid == q0.pid && q.parent == q0.parent && q.priority == q0.priority && q.cpuTime == q0.cpuTime
    && (forall c :: c in q.children <==> c in q0.children && c !in gone)
    && q.state == (if Orphaned(t, gone, q0.pid) then Zombie else q0.state)
    && q.exitCode == (if Orphaned(t, gone, q0.pid) then Some(-1) else q0.exitCode)
  }

  ghost predicate PassOf(t0: Table, t: Table, gone: seq<Pid>) {
    && Slotted(t) && t == t0.(slots := t.slots)
    && (forall x: Pid :: Live(t, x) <==> Live(t0, x) && x !in gone)
    && (forall x: Pid :: Live(t, x) ==> Bereaved(t0, gone, Get(t0, x), Get(t, x)))
  }

  lemma OneMoreGone(t0: Table, t: Table, gone: seq<Pid>, z: Pid, x: Pid)
    requires FamilyOk(t0) && PassOf(t0, t, gone) && Live(t, z) && Live(t, x) && x != z
    ensures Bereaved(t0, gone + [z], Get(t0, x), AfterRemoval(Some(Get(t, x)), Get(t, z)).value)
  {
    var q0, q, p0, p := Get(t0, x), Get(t, x), Get(t0, z), Get(t, z);
    assert Bereaved(t0, gone, q0, q) && Bereaved(t0, gone, p0, p);
    var q' := AfterRemoval(Some(q), p).value;
    WithoutElements(q.children, z);
    forall c
      ensures c in q'.children <==> c in q0.children && c !in gone + [z]
    {
      if c == z && c in q0.children { assert ProcessOk(t0, q0); assert ChildOk(t0, q0, z); }
    }
    assert Orphaned(t0, gone + [z], x) <==> Orphaned(t0, gone, x) || x in p0.children by {
      if x in p0.children { assert z in gone + [z]; }
      if Orphaned(t0, gone, x) {
        var y :| y in gone && Live(t0, y) && x in Get(t0, y).children;
        assert y in gone + [z];
      }
    }
  }

  lemma {:induction false} RemovedAllMeaning(t0: Table, gone: seq<Pid>)
    requires FamilyOk(t0) && Ascending(gone) && forall z :: z in gone ==> Live(t0, z)
    ensures PassOf(t0, RemovedAll(t0, gone), gone)
  {
    if gone == [] {
      return;
    }
    var init, z := gone[..|gone| - 1], gone[|gone| - 1];
    RemovedAllMeaning(t0, init);
    var t := RemovedAll(t0, init);
    assert gone == init + [z] && z in gone;
    RemovedMeaning(t, z);
    var t' := Removed(t, z).0;
    forall x: Pid | Live(t', x)
      ensures Bereaved(t0, gone, Get(t0, x), Get(t', x))
    {
      OneMoreGone(t0, t, init, z, x);
    }
  }

  /**
   One pass removes exactly the processes that are zombies at its start, turns the children they
   leave behind into zombies, and touches no other process's state.
   */
  lemma PassRemovesZombies(t: Table)
    requires FamilyOk(t)
    ensures Keeps(t, Cleaned(t)) && PassOf(t, Cleaned(t), Zombies(t))
    ensures forall x: Pid :: x in Zombies(t) <==> Live(t, x) && Get(t, x).state == Zombie
    ensures Ascending(Zombies(t))
  {
    PidsWhereMeaning(t, IsZombie);
    RemovedAllMeaning(t, Zombies(t));
    RemovedAllKeeps(t, Zombies(t));
  }

  // ---------------------------------------------------------------- until nothing is left

  ghost function LivePids(t: Table): set<Pid> {
    set x: Pid | 0 <= x <= |t.slots| && Live(t, x)
  }

  lemma PassShrinks(t: Table)
    requires FamilyOk(t) && Zombies(t) != []
    ensures |LivePids(Cleaned(t))| < |LivePids(t)|
  {
    PassRemovesZombies(t);
    var z := Zombies(t)[0];
    assert z in Zombies(t);
    SlotOf(t, z);
    assert z in LivePids(t) && z !in LivePids(Cleaned(t));
    SmallerSet(LivePids(Cleaned(t)), LivePids(t), z);
  }

  /** Cleanup repeated until it has nothing to do. */
  ghost function CleanedUp(t: Table): Table
    requires FamilyOk(t)
    decreases |LivePids(t)|
  {
    if Zombies(t) == [] then t
    else
      PassRemovesZombies(t);
      PassShrinks(t);
      CleanedUp(Cleaned(t))
  }

  // The family tree alone: who lists whom as a child, and who is dead.

  type Kin = map<Pid, set<Pid>>

  ghost function Family(t: Table): Kin {
    map x: Pid | x in LivePids(t) :: set c | c in Get(t, x).children
  }

  ghost predicate Descends(kin: Kin, x: Pid, y: Pid, n: nat)
    decreases n
  {
    if n == 0 then x == y
    else x in kin && exists c :: c in kin[x] && Descends(kin, c, y, n - 1)
  }

  /** y is dead or a descendant, through listed children, of a dead process. */
  ghost predicate Doomed(kin: Kin, dead: set<Pid>, y: Pid) {
    exists z: Pid, n: nat :: z in dead && Descends(kin, z, y, n)
  }

  /** One generation: the dead are gone and their surviving children are dead. */
  ghost predicate Generation(kin: Kin, dead: set<Pid>, kin': Kin, dead': set<Pid>) {
    && (forall x :: x in kin ==> kin[x] <= kin.Keys)
    && kin'.Keys == kin.Keys - dead
    && (forall x :: x in kin' ==> kin'[x] == kin[x] - dead)
    && (forall c :: c in dead' <==> c in kin' && exists z :: z in dead && z in kin && c in kin[z])
  }

  lemma {:induction false} PathWasThere(kin: Kin, dead: set<Pid>, kin': Kin, dead': set<Pid>, x: Pid, y: Pid, n: nat)
    requires Generation(kin, dead, kin', dead') && Descends(kin', x, y, n)
    ensures Descends(kin, x, y, n)
    decreases n
  {
    if n == 0 {
    } else {
      var c :| c in kin'[x] && Descends(kin', c, y, n - 1);
      PathWasThere(kin, dead, kin', dead', c, y, n - 1);
    }
  }

  lemma {:induction false} PathSurvives(kin: Kin, dead: set<Pid>, kin': Kin, dead': set<Pid>, x: Pid, y: Pid, n: nat)
    requires Generation(kin, dead, kin', dead') && Descends(kin, x, y, n) && x in kin && y !in dead
    ensures Doomed(kin', dead', y) || (x !in dead && Descends(kin', x, y, n))
    decreases n
  {
    if n == 0 {
    } else {
      var c :| c in kin[x] && Descends(kin, c, y, n - 1);
      PathSurvives(kin, dead, kin', dead', c, y, n - 1);
      if c !in dead && Descends(kin', c, y, n - 1) {
        if x in dead { assert c in dead'; } else { assert c in kin'[x]; }
      }
    }
  }

  /** A pass moves the doom one generation down. */
  lemma DoomPasses(kin: Kin, dead: set<Pid>, kin': Kin, dead': set<Pid>, y: Pid)
    requires Generation(kin, dead, kin', dead') && dead <= kin.Keys
    ensures Doomed(kin, dead, y) <==> y in dead || Doomed(kin', dead', y)
  {
    if Doomed(kin, dead, y) && y !in dead {
      var z: Pid, n: nat :| z in dead && Descends(kin, z, y, n);
      PathSurvives(kin, dead, kin', dead', z, y, n);
    }
    if y in dead {
      assert Descends(kin, y, y, 0);
    }
    if Doomed(kin', dead', y) {
      var c: Pid, n: nat :| c in dead' && Descends(kin', c, y, n);
      PathWasThere(kin, dead, kin', dead', c, y, n);
      var z :| z in dead && z in kin && c in kin[z];
      assert Descends(kin, z, y, n + 1);
    }
  }

  lemma FamilyMeaning(t: Table)
    requires Slotted(t)
    ensures forall x: Pid :: x in Family(t) <==> Live(t, x)
    ensures forall x: Pid :: Live(t, x) ==> Family(t)[x] == Elements(Get(t, x).children)
  {
    forall x: Pid
      ensures x in Family(t) <==> Live(t, x)
    {
      SlotOf(t, x);
    }
  }

  lemma FamilyClosed(t: Table, x: Pid)
    requires FamilyOk(t) && Live(t, x)
    ensures Family(t)[x] <= Family(t).Keys
  {
    FamilyMeaning(t);
    assert ProcessOk(t, Get(t, x));
    forall c | c in Get(t, x).children
      ensures c in Family(t)
    {
      assert ChildOk(t, Get(t, x), c);
    }
  }

  lemma FamilyAfterPass(t: Table, t': Table, gone: seq<Pid>, x: Pid)
    requires Slotted(t) && PassOf(t, t', gone) && Live(t', x)
    ensures Family(t')[x] == Family(t)[x] - Elements(gone)
    ensures Orphaned(t, gone, x) <==> exists z :: z in Elements(gone) && z in Family(t) && x in Family(t)[z]
  {
    FamilyMeaning(t);
    FamilyMeaning(t');
    assert Bereaved(t, gone, Get(t, x), Get(t', x));
  }

  /** On the family tree a cleanup pass is one generation. */
  lemma PassIsGeneration(t: Table)
    requires FamilyOk(t)
    ensures Generation(Family(t), Elements(Zombies(t)), Family(Cleaned(t)), Elements(Zombies(Cleaned(t))))
    ensures Elements(Zombies(t)) <= Family(t).Keys
  {
    PassRemovesZombies(t);
    PassRemovesZombies(Cleaned(t));
    GenerationOf(t, Cleaned(t), Zombies(t), Zombies(Cleaned(t)));
  }

  lemma GenerationOf(t: Table, t': Table, gone: seq<Pid>, left: seq<Pid>)
    requires FamilyOk(t) && PassOf(t, t', gone)
    requires forall x: Pid :: x in gone <==> Live(t, x) && Get(t, x).state == Zombie
    requires forall x: Pid :: x in left <==> Live(t', x) && Get(t', x).state == Zombie
    ensures Generation(Family(t), Elements(gone), Family(t'), Elements(left)) && Elements(gone) <= Family(t).Keys
  {
    FamilyMeaning(t);
    FamilyMeaning(t');
    forall x | x in Family(t)
      ensures Family(t)[x] <= Family(t).Keys
    {
      FamilyClosed(t, x);
    }
    forall x | x in Family(t')
      ensures Family(t')[x] == Family(t)[x] - Elements(gone)
      ensures x in left <==> exists z :: z in Elements(gone) && z in Family(t) && x in Family(t)[z]
    {
      FamilyAfterPass(t, t', gone, x);
      assert Bereaved(t, gone, Get(t, x), Get(t', x));
    }
  }

  /**
   Repeating the cleanup terminates with no zombie left; what it removes is exactly the initial zombies
   and their descendants, and every survivor keeps its state.
   */
  lemma {:induction false} CascadeRemovesDescendants(t: Table)
    requires FamilyOk(t)
    ensures Keeps(t, CleanedUp(t)) && Zombies(CleanedUp(t)) == []
    ensures forall y: Pid :: Live(CleanedUp(t), y) <==> Live(t, y) && !Doomed(Family(t), Elements(Zombies(t)), y)
    ensures forall y: Pid :: Live(CleanedUp(t), y) ==> Get(CleanedUp(t), y).state == Get(t, y).state
    decreases |LivePids(t)|
  {
    if Zombies(t) == [] {
    } else {
      PassRemovesZombies(t);
      PassShrinks(t);
      CascadeRemovesDescendants(Cleaned(t));
      forall y: Pid
        ensures Live(CleanedUp(t), y) <==> Live(t, y) && !Doomed(Family(t), Elements(Zombies(t)), y)
        ensures Live(CleanedUp(t), y) ==> Get(CleanedUp(t), y).state == Get(t, y).state
      {
        CascadeStep(t, y);
      }
    }
  }

  lemma CascadeStep(t: Table, y: Pid)
    requires FamilyOk(t)
    ensures Live(Cleaned(t), y) && !Doomed(Family(Cleaned(t)), Elements(Zombies(Cleaned(t))), y) <==>
            Live(t, y) && !Doomed(Family(t), Elements(Zombies(t)), y)
    ensures Live(Cleaned(t), y) && !Doomed(Family(Cleaned(t)), Elements(Zombies(Cleaned(t))), y) ==>
            Get(Cleaned(t), y).state == Get(t, y).state
  {
    var t' := Cleaned(t);
    PassRemovesZombies(t);
    PassRemovesZombies(t');
    PassIsGeneration(t);
    DoomPasses(Family(t), Elements(Zombies(t)), Family(t'), Elements(Zombies(t')), y);
    if Live(t', y) {
      assert Bereaved(t, Zombies(t), Get(t, y), Get(t', y));
      assert Descends(Family(t'), y, y, 0);
    }
  }
}
