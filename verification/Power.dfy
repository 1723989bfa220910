/**
 Power management as far as it decides scheduling levels: the policy engine's priority adjustments and
 boost, the responsiveness optimizer's throttling, and what a notification of activity does to both.
 */
module PowerManagement {
  import opened Collections
  import opened Types
  import opened Processes

  datatype Mode = Performance | Balanced | PowerSaver | InteractiveFirst | CriticalBattery

  datatype Class = CriticalTask | InteractiveTask | BackgroundTask | BatchTask

  /** User activity, or any of the other four kinds. */
  datatype Activity = UserActivity | OtherActivity

  datatype Engine = Engine(mode: Mode, classes: map<Pid, Class>, boost: bool)

  datatype Optimizer = Optimizer(
    throttling: bool, cpuThreshold: nat, memoryThreshold: nat, load: nat, memory: nat,
    interactions: map<Pid, nat>, boosted: set<Pid>)

  /** The two global managers, either of which may not have been started. */
  datatype Power = Power(engine: Option<Engine>, optimizer: Option<Optimizer>)

  const FEW_INTERACTIONS := 5

  // ---------------------------------------------------------------- priorities

  function Rank(p: Priority): nat {
    match p
    case System => 0
    case Interactive => 1
    case Normal => 2
    case Background => 3
  }

  function OfRank(n: nat): Priority {
    if n == 0 then System else if n == 1 then Interactive else if n == 2 then Normal else Background
  }

  function Raised(p: Priority, levels: nat): Priority {
    OfRank(if Rank(p) >= levels then Rank(p) - levels else 0)
  }

  function Lowered(p: Priority, levels: nat): Priority {
    OfRank(Rank(p) + levels)
  }

  function ClassOf(e: Engine, pid: Pid): Class {
    if pid in e.classes then e.classes[pid] else BackgroundTask
  }

  function Aware(e: Engine, pid: Pid, p: Priority): Priority {
    match e.mode
    case Performance => p
    case InteractiveFirst =>
      (match ClassOf(e, pid)
       case InteractiveTask => Raised(p, 2)
       case CriticalTask => p
       case _ => Lowered(p, 1))
    case Balanced =>
      (match ClassOf(e, pid)
       case CriticalTask => p
       case InteractiveTask => if e.boost then Raised(p, 1) else p
       case BackgroundTask => Lowered(p, 1)
       case BatchTask => Lowered(p, 2))
    case PowerSaver | CriticalBattery =>
      (match ClassOf(e, pid)
       case CriticalTask => p
       case InteractiveTask => Lowered(p, 1)
       case BackgroundTask => Lowered(p, 2)
       case BatchTask => Lowered(p, 3))
  }

  // ---------------------------------------------------------------- what the modes promise

  /** In the order system, interactive, normal, background. */
  ghost predicate NoLessUrgent(a: Priority, b: Priority) {
    a == System || b == Background || a == b || (a == Interactive && b == Normal)
  }

  /** Raising undoes lowering unless a priority ran into background, and steps add up. */
  lemma StepsAddUp(p: Priority, a: nat, b: nat)
    ensures Lowered(Lowered(p, a), b) == Lowered(p, a + b)
    ensures Raised(Raised(p, a), b) == Raised(p, a + b)
    ensures a > 0 && Lowered(p, a) != Background ==> Raised(Lowered(p, a), a) == p && Lowered(p, a) != p
    ensures a > 0 && Raised(p, a) != System ==> Lowered(Raised(p, a), a) == p && Raised(p, a) != p
  {}

  /** Adjusting keeps the order of priorities within a class. */
  lemma AwareIsMonotone(e: Engine, pid: Pid, p: Priority, q: Priority)
    requires NoLessUrgent(p, q)
    ensures NoLessUrgent(Aware(e, pid, p), Aware(e, pid, q))
  {}

  /** At equal priority critical and interactive tasks are never behind background ones, nor those behind batch jobs. */
  lemma ClassesKeepOrder(e: Engine, a: Pid, b: Pid, p: Priority)
    requires ClassOf(e, b) == BatchTask || (ClassOf(e, b) == BackgroundTask && ClassOf(e, a) != BatchTask)
    ensures NoLessUrgent(Aware(e, a, p), Aware(e, b, p))
  {}

  /** Saving power never makes a process more urgent than balancing, nor balancing without a boost than performance. */
  lemma SavingLowers(e: Engine, pid: Pid, p: Priority)
    requires e.mode == Balanced
    ensures NoLessUrgent(Aware(e, pid, p), Aware(e.(mode := PowerSaver), pid, p))
    ensures Aware(e.(mode := PowerSaver), pid, p) == Aware(e.(mode := CriticalBattery), pid, p)
    ensures Aware(e.(mode := Performance), pid, p) == p
    ensures !e.boost ==> NoLessUrgent(p, Aware(e, pid, p))
  {}

  /**
   How far the classes are apart: saving power, each of critical, interactive, background and batch is one step
   behind the one before; balanced, batch is one behind background and that one behind critical, with boosted
   interactive one ahead; favouring interaction, interactive is two ahead and the other two are one behind.
   */
  lemma ClassesAreStepsApart(e: Engine, critical: Pid, interactive: Pid, background: Pid, batch: Pid, p: Priority)
    requires ClassOf(e, critical) == CriticalTask && ClassOf(e, interactive) == InteractiveTask
    requires ClassOf(e, background) == BackgroundTask && ClassOf(e, batch) == BatchTask
    ensures var c, i := Aware(e, critical, p), Aware(e, interactive, p);
            var b, j := Aware(e, background, p), Aware(e, batch, p);
            && c == p
            && (e.mode in {PowerSaver, CriticalBattery} ==>
                  i == Lowered(c, 1) && b == Lowered(i, 1) && j == Lowered(b, 1))
            && (e.mode == Balanced ==> b == Lowered(c, 1) && j == Lowered(b, 1))
            && (e.mode == Balanced ==> i == if e.boost then Raised(c, 1) else c)
            && (e.mode == InteractiveFirst ==> i == Raised(c, 2) && b == j == Lowered(c, 1))
            && (e.mode == Performance ==> c == i == b == j)
  {}

  /** Full performance, importance, low load, a boost and frequent interaction each keep their side from throttling. */
  lemma NobodyThrottled(power: Power, pid: Pid)
    requires power.engine.Some? ==>
               || power.engine.value.mode == Performance
               || ClassOf(power.engine.value, pid) in {CriticalTask, InteractiveTask}
    requires power.optimizer.Some? ==>
               var o := power.optimizer.value;
               || (o.load < o.cpuThreshold && o.memory < o.memoryThreshold)
               || pid in o.boosted || Interactions(o, pid) >= FEW_INTERACTIONS
    ensures !Throttled(power, pid)
  {}

  /** Under pressure the optimizer throttles whoever it has not seen interact often enough. */
  lemma PressureThrottles(power: Power, pid: Pid)
    requires power.optimizer.Some? && power.optimizer.value.throttling && pid !in power.optimizer.value.boosted
    requires var o := power.optimizer.value; o.load >= o.cpuThreshold || o.memory >= o.memoryThreshold
    ensures pid !in power.optimizer.value.interactions ==> Throttled(power, pid)
    ensures Interactions(power.optimizer.value, pid) < 5 ==> Throttled(power, pid)
  {}

  predicate HoldsBack(e: Engine, pid: Pid) {
    match e.mode
    case Performance => false
    case InteractiveFirst => ClassOf(e, pid) == BatchTask
    case Balanced => ClassOf(e, pid) == BatchTask && !e.boost
    case PowerSaver | CriticalBattery => ClassOf(e, pid) == BackgroundTask || ClassOf(e, pid) == BatchTask
  }

  /**
   Saving power holds back exactly what is neither critical nor interactive; no other mode holds back more, and
   none a background task.  A boost holds nobody back, and while balancing nobody is held back during one.
   */
  lemma HoldingBackIsOrdered(e: Engine, pid: Pid)
    ensures HoldsBack(e, pid) ==> HoldsBack(e.(mode := PowerSaver), pid)
    ensures HoldsBack(e.(mode := PowerSaver), pid) <==> ClassOf(e, pid) !in {CriticalTask, InteractiveTask}
    ensures HoldsBack(e, pid) && ClassOf(e, pid) != BatchTask ==> e.mode in {PowerSaver, CriticalBattery}
    ensures HoldsBack(e.(boost := true), pid) ==> HoldsBack(e.(boost := false), pid)
    ensures HoldsBack(e, pid) && !HoldsBack(e.(boost := true), pid) ==> e.mode == Balanced
    ensures !HoldsBack(e.(mode := Balanced, boost := true), pid)
    ensures HoldsBack(e.(mode := InteractiveFirst), pid) <==> HoldsBack(e.(mode := Balanced, boost := false), pid)
    ensures HoldsBack(e.(mode := InteractiveFirst), pid) <==> ClassOf(e, pid) == BatchTask
  {}

  predicate Throttles(o: Optimizer, pid: Pid) {
    && o.throttling && pid !in o.boosted
    && (o.load >= o.cpuThreshold || o.memory >= o.memoryThreshold)
    && (pid in o.interactions ==> o.interactions[pid] < FEW_INTERACTIONS)
  }

  function Adjusted(power: Power, pid: Pid, p: Priority): Priority {
    if power.engine.Some? then Aware(power.engine.value, pid, p) else p
  }

  predicate Throttled(power: Power, pid: Pid) {
    || (power.engine.Some? && HoldsBack(power.engine.value, pid))
    || (power.optimizer.Some? && Throttles(power.optimizer.value, pid))
  }

  // ---------------------------------------------------------------- notifications

  function ActivityOf(p: Priority): Activity {
    if p == System || p == Interactive then UserActivity else OtherActivity
  }

  function Interactions(o: Optimizer, pid: Pid): nat {
    if pid in o.interactions then o.interactions[pid] else 0
  }

  function Observed(o: Optimizer, pid: Pid, a: Activity): Optimizer {
    var n := Interactions(o, pid);
    if a == UserActivity then o.(interactions := o.interactions[pid := n + 1], boosted := o.boosted + {pid})
    else if pid in o.interactions then o.(interactions := o.interactions[pid := if n > 0 then n - 1 else 0])
    else o
  }

  function ObservedAll(o: Optimizer, pid: Pid, acts: seq<Activity>): Optimizer {
    if acts == [] then o else Observed(ObservedAll(o, pid, acts[..|acts| - 1]), pid, acts[|acts| - 1])
  }

  /** Interactions less other activities. */
  function Balance(acts: seq<Activity>): int {
    if acts == [] then 0
    else Balance(acts[..|acts| - 1]) + if acts[|acts| - 1] == UserActivity then 1 else -1
  }

  /** The largest balance of any final part of the activities, or that of all of them counted on from n0. */
  ghost predicate IsBestBalance(n: nat, n0: nat, acts: seq<Activity>) {
    && n >= n0 + Balance(acts)
    && (forall k :: 0 <= k <= |acts| ==> n >= Balance(acts[k..]))
    && (n == n0 + Balance(acts) || exists k :: 0 <= k <= |acts| && n == Balance(acts[k..]))
  }

  /**
   After any activities of a process its interaction count is the best balance any final part of them has, so it
   forgets bad spells but not good ones; nobody else's count changes, and one interaction puts it among the boosted.
   */
  lemma {:induction false} CountIsBestBalance(o: Optimizer, pid: Pid, acts: seq<Activity>)
    ensures var o' := ObservedAll(o, pid, acts);
            && IsBestBalance(Interactions(o', pid), Interactions(o, pid), acts)
            && o'.boosted == o.boosted + (if UserActivity in acts then {pid} else {})
            && forall q :: q != pid ==> Interactions(o', q) == Interactions(o, q)
  {
    if acts == [] {
    } else {
      var init, last := acts[..|acts| - 1], acts[|acts| - 1];
      CountIsBestBalance(o, pid, init);
      BestBalanceNext(Interactions(ObservedAll(o, pid, init), pid), Interactions(o, pid), init, last);
      assert acts == init + [last];
    }
  }

  lemma BestBalanceNext(n: nat, n0: nat, init: seq<Activity>, last: Activity)
    requires IsBestBalance(n, n0, init)
    ensures IsBestBalance(if last == UserActivity then n + 1 else if n > 0 then n - 1 else 0, n0, init + [last])
  {
    var acts := init + [last];
    assert acts[..|acts| - 1] == init;
    forall k | 0 <= k <= |init|
      ensures Balance(acts[k..]) == Balance(init[k..]) + if last == UserActivity then 1 else -1
    {
      assert acts[k..] == init[k..] + [last];
      assert acts[k..][..|acts[k..]| - 1] == init[k..];
    }
    assert acts[|acts|..] == [] && Balance(acts[|acts|..]) == 0;
    if n != n0 + Balance(init) {
      var k :| 0 <= k <= |init| && n == Balance(init[k..]);
      assert Balance(acts[k..]) == n + if last == UserActivity then 1 else -1;
    }
  }

  function Notified(power: Power, pid: Pid, a: Activity): Power {
    Power(
      if power.engine.Some? && a == UserActivity then Some(power.engine.value.(boost := true)) else power.engine,
      if power.optimizer.Some? then Some(Observed(power.optimizer.value, pid, a)) else None)
  }

  /** A notification can still turn the boost on. */
  predicate BoostPending(power: Power) {
    power.engine.Some? && !power.engine.value.boost
  }

  /** Notifications of this activity can still change whether the optimizer throttles the process. */
  predicate Flippable(power: Power, pid: Pid, a: Activity) {
    power.optimizer.Some? && (a == UserActivity <==> Throttles(power.optimizer.value, pid))
  }

  /** Nothing that could happen through notifications becomes possible again. */
  lemma NotifiedSettles(power: Power, pid: Pid, a: Activity)
    ensures var power' := Notified(power, pid, a);
            && (BoostPending(power') ==> BoostPending(power))
            && (Flippable(power', pid, a) ==> Flippable(power, pid, a))
            && (forall x: Pid, b :: x != pid ==> Flippable(power', x, b) == Flippable(power, x, b))
  {}

  /** Unless the boost comes on or the process's own throttling flips, nobody's level changes. */
  lemma NotifiedUnchanged(power: Power, pid: Pid, a: Activity)
    requires BoostPending(Notified(power, pid, a)) == BoostPending(power)
    requires Flippable(Notified(power, pid, a), pid, a) == Flippable(power, pid, a)
    ensures var power' := Notified(power, pid, a);
            && (forall x: Pid, p :: Adjusted(power', x, p) == Adjusted(power, x, p))
            && (forall x: Pid :: Throttled(power', x) == Throttled(power, x))
  {
    assert Notified(power, pid, a).engine == power.engine;
  }

  // ---------------------------------------------------------------- the managers

  class PowerManager {
    var engine: Option<Engine>
    var optimizer: Option<Optimizer>

    function State(): Power
      reads this
    {
      Power(engine, optimizer)
    }

    constructor ()
      ensures State() == Power(None, None)
    {
      engine, optimizer := None, None;
    }

    /** Both managers hear of the activity. */
    method NotifyProcessActivity(pid: Pid, a: Activity)
      modifies this
      ensures State() == Notified(old(State()), pid, a)
    {
      if engine.Some? && a == UserActivity {
        engine := Some(engine.value.(boost := true));
      }
      if optimizer.Some? {
        var o := optimizer.value;
        if a == UserActivity {
          UpdateProcessInteraction(pid);
          o := optimizer.value;
          optimizer := Some(o.(boosted := o.boosted + {pid}));
        } else if pid in o.interactions {
          var n := o.interactions[pid];
          optimizer := Some(o.(interactions := o.interactions[pid := if n > 0 then n - 1 else 0]));
        }
      }
    }

    method UpdateProcessInteraction(pid: Pid)
      requires optimizer.Some?
      modifies this`optimizer
      ensures optimizer.Some? &&
              var o := old(optimizer).value;
              optimizer.value == o.(interactions := o.interactions[pid := Interactions(o, pid) + 1])
    {
      var o := optimizer.value;
      var n := if pid in o.interactions then o.interactions[pid] else 0;
      optimizer := Some(o.(interactions := o.interactions[pid := n + 1]));
    }
  }
}
