/** Choosing the first process of the most urgent of four levels, and the four queues that do it. */
module PriorityLevels {
  import opened Collections
  import opened Types

  const LEVELS := 4

  type Level = l: nat | l < LEVELS

  type Levels = Pid -> Level

  function PickUrgent(level: Levels, pids: seq<Pid>): Option<Pid> {
    if pids == [] then None
    else
      var best, pid := PickUrgent(level, pids[..|pids| - 1]), pids[|pids| - 1];
      if best.None? || level(pid) < level(best.value) then Some(pid) else best
  }

  /** Entry k is more urgent than those before it and no less urgent than those after it. */
  ghost predicate FirstUrgent(level: Levels, pids: seq<Pid>, k: nat)
    requires k < |pids|
  {
    && (forall j :: 0 <= j < k ==> level(pids[k]) < level(pids[j]))
    && (forall j :: k <= j < |pids| ==> level(pids[k]) <= level(pids[j]))
  }

  lemma {:induction false} PickUrgentFirst(level: Levels, pids: seq<Pid>) returns (k: nat)
    requires pids != []
    ensures k < |pids| && PickUrgent(level, pids) == Some(pids[k]) && FirstUrgent(level, pids, k)
  {
    var n := |pids| - 1;
    if n == 0 {
      return 0;
    }
    k := PickUrgentFirst(level, pids[..n]);
    if level(pids[n]) < level(pids[k]) {
      forall j | 0 <= j < n
        ensures level(pids[n]) < level(pids[j])
      {
        assert pids[..n][j] == pids[j];
      }
      k := n;
    } else {
      forall j | 0 <= j < n
        ensures if j < k then level(pids[k]) < level(pids[j]) else level(pids[k]) <= level(pids[j])
      {
        assert pids[..n][j] == pids[j];
      }
    }
  }

  lemma {:induction false} PickUrgentCongruent(level: Levels, level': Levels, pids: seq<Pid>)
    requires forall x :: level'(x) == level(x)
    ensures PickUrgent(level', pids) == PickUrgent(level, pids)
  {
    if pids == [] {
    } else {
      PickUrgentCongruent(level, level', pids[..|pids| - 1]);
    }
  }

  /** The processes of one level, in order. */
  function InLevel(level: Levels, pids: seq<Pid>, l: nat): seq<Pid> {
    if pids == [] then []
    else
      var pid := pids[|pids| - 1];
      InLevel(level, pids[..|pids| - 1], l) + if level(pid) == l then [pid] else []
  }

  function Queues(level: Levels, pids: seq<Pid>): seq<seq<Pid>> {
    seq(LEVELS, l requires 0 <= l < LEVELS => InLevel(level, pids, l))
  }

  function RemoveFirst(queue: seq<Pid>): seq<Pid> {
    if queue == [] then [] else queue[1..]
  }

  lemma QueueNext(level: Levels, pids: seq<Pid>, k: nat)
    requires k < |pids|
    ensures var queues, l := Queues(level, pids[..k]), level(pids[k]);
            Queues(level, pids[..k + 1]) == queues[l := queues[l] + [pids[k]]]
  {
    assert pids[..k + 1][..k] == pids[..k];
    var queues, l := Queues(level, pids[..k]), level(pids[k]);
    var queues' := queues[l := queues[l] + [pids[k]]];
    forall j | 0 <= j < LEVELS
      ensures Queues(level, pids[..k + 1])[j] == queues'[j]
    {}
    assert Queues(level, pids[..k + 1]) == queues';
  }

  /** The pick is the first entry of the first queue that has one. */
  lemma {:induction false} UrgentIsFirstQueued(level: Levels, pids: seq<Pid>, l: Level)
    requires forall j :: 0 <= j < l ==> InLevel(level, pids, j) == []
    ensures var queue, pick := InLevel(level, pids, l), PickUrgent(level, pids);
            if queue != [] then pick == Some(queue[0]) && level(queue[0]) == l
            else pick.Some? ==> level(pick.value) > l
  {
    if pids == [] {
    } else {
      var init, pid := pids[..|pids| - 1], pids[|pids| - 1];
      forall j | 0 <= j < l
        ensures InLevel(level, init, j) == []
      {
        assert InLevel(level, pids, j) == [];
      }
      assert InLevel(level, pids, level(pid)) != [];
      UrgentIsFirstQueued(level, init, l);
    }
  }
}
