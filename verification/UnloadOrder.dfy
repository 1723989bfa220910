/** The driver unload traversal: a worklist search over the dependents graph, cyclic or not. */
module UnloadOrders {
  import opened Collections

  type Id = nat
  type Graph = map<Id, seq<Id>>

  function Dependents(g: Graph, x: Id): seq<Id> {
    if x in g then g[x] else []
  }

  ghost predicate Within(s: seq<Id>, u: set<Id>) {
    forall x :: x in s ==> x in u
  }

  /** A set of drivers that holds all dependents of its members. */
  ghost predicate Closed(g: Graph, u: set<Id>) {
    forall x :: x in u ==> Within(Dependents(g, x), u)
  }

  /** Some closed set holding x: all drivers the graph mentions. */
  ghost function Universe(g: Graph, x: Id): (u: set<Id>)
    ensures Closed(g, u) && x in u
  {
    {x} + set y, z | y in g && z in g[y] :: z
  }

  // ---------------------------------------------------------------- the worklist

  /** The dependents that the inner loop pushes. */
  function Unseen(ds: seq<Id>, order: seq<Id>): (r: seq<Id>)
    ensures forall x :: x in r <==> x in ds && x !in order
  {
    if ds == [] then []
    else
      var last := ds[|ds| - 1];
      assert ds == ds[..|ds| - 1] + [last];
      Unseen(ds[..|ds| - 1], order) + (if last in order then [] else [last])
  }

  /** How many worklist entries have been visited already. */
  ghost function SeenCount(stack: seq<Id>, order: seq<Id>): nat {
    if stack == [] then 0
    else SeenCount(stack[..|stack| - 1], order) + (if stack[|stack| - 1] in order then 1 else 0)
  }

  lemma {:induction false} SeenCountConcat(a: seq<Id>, b: seq<Id>, order: seq<Id>)
    ensures SeenCount(a + b, order) == SeenCount(a, order) + SeenCount(b, order)
  {
    if b == [] {
      assert a + b == a;
    } else {
      SeenCountConcat(a, b[..|b| - 1], order);
      assert (a + b)[..|a + b| - 1] == a + b[..|b| - 1];
    }
  }

  lemma {:induction false} SeenCountUnseen(ds: seq<Id>, order: seq<Id>)
    ensures SeenCount(Unseen(ds, order), order) == 0
  {
    if ds == [] {
    } else {
      var init, last := ds[..|ds| - 1], ds[|ds| - 1];
      SeenCountUnseen(init, order);
      if last !in order {
        SeenCountConcat(Unseen(init, order), [last], order);
        assert SeenCount([last], order) == 0 by { assert [last][..0] == []; }
      } else {
        assert Unseen(ds, order) == Unseen(init, order);
      }
    }
  }

  function Top(stack: seq<Id>): Id
    requires stack != []
  {
    stack[|stack| - 1]
  }

  lemma PopTop(stack: seq<Id>)
    requires stack != []
    ensures stack[..|stack| - 1] + [Top(stack)] == stack
  {}

  function NextStack(g: Graph, stack: seq<Id>, order: seq<Id>): seq<Id>
    requires stack != []
  {
    stack[..|stack| - 1] + Unseen(Dependents(g, Top(stack)), order)
  }

  function NextOrder(stack: seq<Id>, order: seq<Id>): seq<Id>
    requires stack != []
  {
    if Top(stack) in order then order else order + [Top(stack)]
  }

  ghost predicate Fit(g: Graph, u: set<Id>, stack: seq<Id>, order: seq<Id>) {
    Closed(g, u) && Within(stack, u) && Within(order, u)
  }

  /**
   One turn either visits a driver, or consumes a worklist entry that was visited before
   while everything it pushes is unvisited: the measure that makes re-pushing terminate.
   */
  lemma TurnDecreases(g: Graph, u: set<Id>, stack: seq<Id>, order: seq<Id>)
    requires Fit(g, u, stack, order) && stack != []
    ensures var stack', order' := NextStack(g, stack, order), NextOrder(stack, order);
            && Fit(g, u, stack', order')
            && (|u - Elements(order')| < |u - Elements(order)|
                || (order' == order && SeenCount(stack', order) < SeenCount(stack, order)))
  {
    var c, rest := Top(stack), stack[..|stack| - 1];
    var pushed := Unseen(Dependents(g, c), order);
    assert c in stack && c in u;
    assert Within(rest, u);
    if c in order {
      SeenCountConcat(rest, pushed, order);
      SeenCountUnseen(Dependents(g, c), order);
    } else {
      ElementsConcat(order, [c]);
      assert c in u - Elements(order) && c in Elements([c]);
      SmallerSet(u - Elements(order + [c]), u - Elements(order), c);
    }
  }

  /** The visit order the worklist produces from a given stack and visited list. */
  ghost function Drain(g: Graph, u: set<Id>, stack: seq<Id>, order: seq<Id>): (r: seq<Id>)
    requires Fit(g, u, stack, order)
    ensures order <= r && Within(r, u)
    decreases |u - Elements(order)|, SeenCount(stack, order)
  {
    if stack == [] then order
    else
      TurnDecreases(g, u, stack, order);
      Drain(g, u, NextStack(g, stack, order), NextOrder(stack, order))
  }

  function Reversed(s: seq<Id>): seq<Id> {
    seq(|s|, i requires 0 <= i < |s| => s[|s| - 1 - i])
  }

  // ---------------------------------------------------------------- what the traversal visits

  ghost predicate Reaches(g: Graph, x: Id, y: Id, n: nat)
    decreases n
  {
    if n == 0 then x == y else exists z :: z in Dependents(g, x) && Reaches(g, z, y, n - 1)
  }

  ghost predicate Reachable(g: Graph, x: Id, y: Id) {
    exists n: nat :: Reaches(g, x, y, n)
  }

  /** State of the traversal from `id` in mid-run. */
  ghost predicate TraversalInv(g: Graph, id: Id, stack: seq<Id>, order: seq<Id>) {
    && Distinct(order)
    && (order == [] ==> stack == [id])
    && (order != [] ==> order[0] == id)
    && (forall x :: x in stack || x in order ==> Reachable(g, id, x))
    && Frontier(g, stack, order)
    && (forall i :: 0 < i < |order| ==> Preceded(g, order, i))
    && (order != [] ==> forall x :: x in stack ==> Justified(g, order, x))
  }

  /** Every dependent of a visited driver is visited or waiting. */
  ghost predicate Frontier(g: Graph, stack: seq<Id>, order: seq<Id>) {
    forall x, d :: x in order && d in Dependents(g, x) ==> d in order || d in stack
  }

  /** x depends on a visited driver. */
  ghost predicate Justified(g: Graph, order: seq<Id>, x: Id) {
    exists p :: p in order && x in Dependents(g, p)
  }

  /** The i-th visited driver depends on one visited before it. */
  ghost predicate Preceded(g: Graph, order: seq<Id>, i: nat)
    requires i < |order|
  {
    exists j :: 0 <= j < i && order[i] in Dependents(g, order[j])
  }

  lemma {:induction false} ReachesStep(g: Graph, x: Id, y: Id, z: Id, n: nat)
    requires Reaches(g, x, y, n) && z in Dependents(g, y)
    ensures Reaches(g, x, z, n + 1)
    decreases n
  {
    if n == 0 {
      assert Reaches(g, z, z, 0);
    } else {
      var w :| w in Dependents(g, x) && Reaches(g, w, y, n - 1);
      ReachesStep(g, w, y, z, n - 1);
    }
  }

  lemma TurnReaches(g: Graph, id: Id, stack: seq<Id>, order: seq<Id>, x: Id)
    requires stack != [] && (forall y :: y in stack || y in order ==> Reachable(g, id, y))
    requires x in NextStack(g, stack, order) || x in NextOrder(stack, order)
    ensures Reachable(g, id, x)
  {
    var c := Top(stack);
    assert c in stack;
    if x !in stack && x !in order {
      assert x in Dependents(g, c);
      var n: nat :| Reaches(g, id, c, n);
      ReachesStep(g, id, c, x, n);
    }
  }

  lemma TurnPrecedes(g: Graph, order: seq<Id>, c: Id, i: nat)
    requires forall k :: 0 < k < |order| ==> Preceded(g, order, k)
    requires order != [] ==> Justified(g, order, c)
    requires 0 < i < |order + [c]|
    ensures Preceded(g, order + [c], i)
  {
    var order' := order + [c];
    if i < |order| {
      assert Preceded(g, order, i);
      var j :| 0 <= j < i && order[i] in Dependents(g, order[j]);
      assert order'[i] in Dependents(g, order'[j]);
    } else {
      var p :| p in order && c in Dependents(g, p);
      var j :| 0 <= j < |order| && order[j] == p;
      assert order'[i] in Dependents(g, order'[j]);
    }
  }

  lemma TurnJustifies(g: Graph, stack: seq<Id>, order: seq<Id>, x: Id)
    requires stack != [] && x in NextStack(g, stack, order)
    requires x in stack ==> |stack| == 1 || Justified(g, order, x)
    ensures Justified(g, NextOrder(stack, order), x)
  {
    var c := Top(stack);
    assert c in NextOrder(stack, order);
    if x !in Dependents(g, c) {
      assert x in stack[..|stack| - 1];
      var p :| p in order && x in Dependents(g, p);
      assert p in NextOrder(stack, order);
    }
  }

  lemma TurnFrontier(g: Graph, stack: seq<Id>, order: seq<Id>)
    requires stack != [] && Frontier(g, stack, order)
    ensures Frontier(g, NextStack(g, stack, order), NextOrder(stack, order))
  {
    var c, stack', order' := Top(stack), NextStack(g, stack, order), NextOrder(stack, order);
    assert stack == stack[..|stack| - 1] + [c];
    forall x, d | x in order' && d in Dependents(g, x)
      ensures d in order' || d in stack'
    {
      if x in order { assert d in order || d in stack; }
    }
  }

  lemma TurnKeepsInv(g: Graph, id: Id, stack: seq<Id>, order: seq<Id>)
    requires TraversalInv(g, id, stack, order) && stack != []
    ensures TraversalInv(g, id, NextStack(g, stack, order), NextOrder(stack, order))
  {
    var c, stack', order' := Top(stack), NextStack(g, stack, order), NextOrder(stack, order);
    assert c in stack;
    forall x | x in stack' || x in order'
      ensures Reachable(g, id, x)
    {
      TurnReaches(g, id, stack, order, x);
    }
    if c !in order {
      forall i | 0 < i < |order'|
        ensures Preceded(g, order', i)
      {
        TurnPrecedes(g, order, c, i);
      }
    }
    forall x | x in stack'
      ensures Justified(g, order', x)
    {
      TurnJustifies(g, stack, order, x);
    }
    TurnFrontier(g, stack, order);
  }

  lemma {:induction false} DrainKeepsInv(g: Graph, u: set<Id>, id: Id, stack: seq<Id>, order: seq<Id>)
    requires Fit(g, u, stack, order) && TraversalInv(g, id, stack, order)
    ensures TraversalInv(g, id, [], Drain(g, u, stack, order))
    decreases |u - Elements(order)|, SeenCount(stack, order)
  {
    if stack == [] {
    } else {
      TurnDecreases(g, u, stack, order);
      TurnKeepsInv(g, id, stack, order);
      DrainKeepsInv(g, u, id, NextStack(g, stack, order), NextOrder(stack, order));
    }
  }

  lemma {:induction false} ClosedHoldsReachable(g: Graph, s: seq<Id>, x: Id, y: Id, n: nat)
    requires x in s && Reaches(g, x, y, n)
    requires forall p, d :: p in s && d in Dependents(g, p) ==> d in s
    ensures y in s
    decreases n
  {
    if n == 0 {
    } else {
      var z :| z in Dependents(g, x) && Reaches(g, z, y, n - 1);
      ClosedHoldsReachable(g, s, z, y, n - 1);
    }
  }

  /** The drivers visited from `id`, in visit order. */
  ghost function Visits(g: Graph, id: Id): seq<Id> {
    Drain(g, Universe(g, id), [id], [])
  }

  /**
   On every graph: no driver is visited twice, exactly the transitive dependents are visited,
   the requested driver is first, and each other one comes after some driver it depends on.
   */
  lemma VisitsReachable(g: Graph, id: Id)
    ensures Distinct(Visits(g, id))
    ensures forall x :: x in Visits(g, id) <==> Reachable(g, id, x)
    ensures Visits(g, id) != [] && Visits(g, id)[0] == id
    ensures forall i :: 0 < i < |Visits(g, id)| ==> Preceded(g, Visits(g, id), i)
  {
    assert Reaches(g, id, id, 0);
    DrainKeepsInv(g, Universe(g, id), id, [id], []);
    FinishedHoldsReachable(g, id, Visits(g, id));
  }

  lemma FinishedHoldsReachable(g: Graph, id: Id, v: seq<Id>)
    requires TraversalInv(g, id, [], v)
    ensures forall x :: Reachable(g, id, x) ==> x in v
  {
    forall x | Reachable(g, id, x)
      ensures x in v
    {
      var n: nat :| Reaches(g, id, x, n);
      ClosedHoldsReachable(g, v, id, x, n);
    }
  }

  // ---------------------------------------------------------------- when the order is safe

  /** Every driver is visited after all drivers it depends on, so that reversing unloads dependents first. */
  ghost predicate Topological(g: Graph, order: seq<Id>) {
    forall i, j :: 0 <= i < |order| && 0 <= j < |order| && order[j] in Dependents(g, order[i]) ==> i < j
  }

  /** y can be reached through an entry of the list after position i. */
  ghost predicate InLater(g: Graph, ds: seq<Id>, i: int, y: Id) {
    exists k :: i < k < |ds| && 0 <= k && Reachable(g, ds[k], y)
  }

  /** Entry i is reached through later entries, or shares nothing with them. */
  ghost predicate Sequenced(g: Graph, ds: seq<Id>, i: nat)
    requires i < |ds|
  {
    InLater(g, ds, i, ds[i]) || forall y :: Reachable(g, ds[i], y) ==> !InLater(g, ds, i, y)
  }

  /** Below v: no driver depends on itself, and every dependents list is sequenced. */
  ghost predicate Layered(g: Graph, id: Id) {
    forall v :: Reachable(g, id, v) ==>
      && (forall d :: d in Dependents(g, v) ==> !Reachable(g, d, v))
      && (forall i :: 0 <= i < |Dependents(g, v)| ==> Sequenced(g, Dependents(g, v), i))
  }

  ghost function ReachSet(g: Graph, u: set<Id>, x: Id): set<Id> {
    set y | y in u && Reachable(g, x, y)
  }

  lemma {:induction false} ReachesConcat(g: Graph, x: Id, y: Id, z: Id, m: nat, n: nat)
    requires Reaches(g, x, y, m) && Reaches(g, y, z, n)
    ensures Reaches(g, x, z, m + n)
    decreases m
  {
    if m == 0 {
    } else {
      var w :| w in Dependents(g, x) && Reaches(g, w, y, m - 1);
      ReachesConcat(g, w, y, z, m - 1, n);
    }
  }

  lemma ReachableTrans(g: Graph, x: Id, y: Id, z: Id)
    requires Reachable(g, x, y) && Reachable(g, y, z)
    ensures Reachable(g, x, z)
  {
    var m: nat :| Reaches(g, x, y, m);
    var n: nat :| Reaches(g, y, z, n);
    ReachesConcat(g, x, y, z, m, n);
  }

  lemma ReachableBasics(g: Graph, x: Id)
    ensures Reachable(g, x, x)
    ensures forall d :: d in Dependents(g, x) ==> Reachable(g, x, d)
  {
    assert Reaches(g, x, x, 0);
    forall d | d in Dependents(g, x)
      ensures Reachable(g, x, d)
    {
      ReachesStep(g, x, x, d, 0);
    }
  }

  ghost predicate Avoids(g: Graph, x: Id, o: seq<Id>) {
    forall z :: z in o ==> !Reachable(g, x, z)
  }

  lemma AvoidsBelow(g: Graph, x: Id, d: Id, o: seq<Id>)
    requires Avoids(g, x, o) && d in Dependents(g, x)
    ensures x !in o && Avoids(g, d, o)
  {
    ReachableBasics(g, x);
    forall z | z in o
      ensures !Reachable(g, d, z)
    {
      if Reachable(g, d, z) { ReachableTrans(g, x, d, z); }
    }
  }

  /** A turn only looks at the top entry. */
  lemma TurnOnTop(g: Graph, s: seq<Id>, t: seq<Id>, order: seq<Id>)
    requires t != []
    ensures NextStack(g, s + t, order) == s + NextStack(g, t, order)
    ensures NextOrder(s + t, order) == NextOrder(t, order)
  {
    assert Top(s + t) == Top(t) && (s + t)[..|s + t| - 1] == s + t[..|t| - 1];
    ConcatAssoc(s, t[..|t| - 1], Unseen(Dependents(g, Top(t)), order));
  }

  lemma FitConcat(g: Graph, u: set<Id>, s: seq<Id>, t: seq<Id>, order: seq<Id>)
    requires Fit(g, u, s, order) && Fit(g, u, t, order)
    ensures Fit(g, u, s + t, order)
  {}

  /** Entries pushed last are finished before the ones below them are touched. */
  lemma {:induction false} DrainCompose(g: Graph, u: set<Id>, s: seq<Id>, t: seq<Id>, order: seq<Id>)
    requires Fit(g, u, s, order) && Fit(g, u, t, order)
    ensures Fit(g, u, s + t, order)
    ensures Drain(g, u, s + t, order) == Drain(g, u, s, Drain(g, u, t, order))
    decreases |u - Elements(order)|, SeenCount(t, order)
  {
    FitConcat(g, u, s, t, order);
    if t == [] {
      assert s + t == s;
    } else {
      TurnDecreases(g, u, t, order);
      TurnOnTop(g, s, t, order);
      DrainCompose(g, u, s, NextStack(g, t, order), NextOrder(t, order));
    }
  }

  lemma {:induction false} UnseenAll(ds: seq<Id>, order: seq<Id>)
    requires forall d :: d in ds ==> d !in order
    ensures Unseen(ds, order) == ds
  {
    if ds == [] {
    } else {
      UnseenAll(ds[..|ds| - 1], order);
      assert ds == ds[..|ds| - 1] + [ds[|ds| - 1]];
    }
  }

  lemma TopologicalConcat(g: Graph, a: seq<Id>, b: seq<Id>)
    requires Topological(g, a) && Topological(g, b)
    requires forall p, x :: p in b && x in Dependents(g, p) ==> x !in a
    ensures Topological(g, a + b)
  {
    var ab := a + b;
    forall i, j | 0 <= i < |ab| && 0 <= j < |ab| && ab[j] in Dependents(g, ab[i])
      ensures i < j
    {
      assert if i < |a| then ab[i] == a[i] else ab[i] == b[i - |a|] && ab[i] in b;
      assert if j < |a| then ab[j] == a[j] && ab[j] in a else ab[j] == b[j - |a|];
    }
  }

  /** What visiting an untouched layered driver appends. */
  ghost predicate IsVisit(g: Graph, c: Id, w: seq<Id>) {
    Topological(g, w) && forall y :: y in w <==> Reachable(g, c, y)
  }

  /** Visiting an untouched driver lists it and moves on to all its dependents. */
  lemma DrainOne(g: Graph, u: set<Id>, c: Id, order: seq<Id>)
    requires Fit(g, u, [c], order) && c !in order && forall d :: d in Dependents(g, c) ==> d !in order
    ensures Fit(g, u, Dependents(g, c), order + [c])
    ensures Drain(g, u, [c], order) == Drain(g, u, Dependents(g, c), order + [c])
  {
    UnseenAll(Dependents(g, c), order);
    TurnDecreases(g, u, [c], order);
    assert NextStack(g, [c], order) == Dependents(g, c) && NextOrder([c], order) == order + [c];
  }

  lemma {:induction false} VisitFresh(g: Graph, u: set<Id>, c: Id, order: seq<Id>) returns (w: seq<Id>)
    requires Fit(g, u, [c], order) && Layered(g, c) && Avoids(g, c, order)
    ensures Drain(g, u, [c], order) == order + w && IsVisit(g, c, w)
    decreases |ReachSet(g, u, c)|, |Dependents(g, c)| + 1
  {
    ReachableBasics(g, c);
    DrainOne(g, u, c, order);
    assert Dependents(g, c)[0..] == Dependents(g, c);
    assert c in u by { assert c in [c]; }
    var rest := VisitList(g, u, c, 0, order);
    w := [c] + rest;
    ConcatAssoc(order, [c], rest);
    HeadOfVisit(g, c, rest);
  }

  lemma HeadOfVisit(g: Graph, c: Id, rest: seq<Id>)
    requires Layered(g, c) && Topological(g, rest)
    requires forall y :: y in rest <==> InLater(g, Dependents(g, c), -1, y)
    ensures IsVisit(g, c, [c] + rest)
  {
    ReachableBasics(g, c);
    forall y
      ensures y in [c] + rest <==> Reachable(g, c, y)
    {
      ReachableViaList(g, c, y);
    }
    forall p, x | p in rest && x in Dependents(g, p)
      ensures x !in [c]
    {
      ReachableViaList(g, c, p);
    }
    assert c !in Dependents(g, c);
    TopologicalConcat(g, [c], rest);
  }

  /** A driver's closure is itself and what its list reaches. */
  lemma ReachableViaList(g: Graph, c: Id, y: Id)
    ensures Reachable(g, c, y) <==> y == c || InLater(g, Dependents(g, c), -1, y)
  {
    var ds := Dependents(g, c);
    ReachableBasics(g, c);
    if Reachable(g, c, y) && y != c {
      var n: nat :| Reaches(g, c, y, n);
      var z :| z in ds && Reaches(g, z, y, n - 1);
      var k :| 0 <= k < |ds| && ds[k] == z;
      assert Reachable(g, ds[k], y);
    }
    if InLater(g, ds, -1, y) {
      var k :| -1 < k < |ds| && 0 <= k && Reachable(g, ds[k], y);
      ReachableTrans(g, c, ds[k], y);
    }
  }

  /** Entry k of a sequenced list either is covered by the later ones or is disjoint from them. */
  lemma LaterSplit(g: Graph, c: Id, k: nat)
    requires k < |Dependents(g, c)|
    ensures var ds := Dependents(g, c);
            && (forall y :: InLater(g, ds, k - 1, y) <==> Reachable(g, ds[k], y) || InLater(g, ds, k, y))
            && (InLater(g, ds, k, ds[k]) ==> forall y :: Reachable(g, ds[k], y) ==> InLater(g, ds, k, y))
  {
    var ds := Dependents(g, c);
    if InLater(g, ds, k, ds[k]) {
      forall y | Reachable(g, ds[k], y)
        ensures InLater(g, ds, k, y)
      {
        var j :| k < j < |ds| && 0 <= j && Reachable(g, ds[j], ds[k]);
        ReachableTrans(g, ds[j], ds[k], y);
      }
    }
  }

  /** After entry k's later siblings, either entry k is done or nothing it reaches is. */
  lemma EntryAvoids(g: Graph, c: Id, k: nat, order: seq<Id>, w1: seq<Id>)
    requires k < |Dependents(g, c)| && Layered(g, c) && Avoids(g, c, order)
    requires forall y :: y in w1 <==> InLater(g, Dependents(g, c), k, y)
    requires !InLater(g, Dependents(g, c), k, Dependents(g, c)[k])
    ensures Avoids(g, Dependents(g, c)[k], order + [c] + w1)
  {
    var d := Dependents(g, c)[k];
    ReachableBasics(g, c);
    AvoidsBelow(g, c, d, order);
    assert Sequenced(g, Dependents(g, c), k);
  }

  lemma {:induction false} VisitList(g: Graph, u: set<Id>, c: Id, k: nat, order: seq<Id>) returns (w: seq<Id>)
    requires k <= |Dependents(g, c)| && c in u && Fit(g, u, Dependents(g, c)[k..], order + [c])
    requires Layered(g, c) && Avoids(g, c, order)
    ensures Drain(g, u, Dependents(g, c)[k..], order + [c]) == order + [c] + w
    ensures Topological(g, w) && forall y :: y in w <==> InLater(g, Dependents(g, c), k - 1, y)
    decreases |ReachSet(g, u, c)|, |Dependents(g, c)| - k
  {
    var ds := Dependents(g, c);
    if k == |ds| {
      w := [];
      assert order + [c] + w == order + [c];
    } else {
      var d := ds[k];
      assert ds[k..] == [d] + ds[k + 1..];
      assert Fit(g, u, ds[k + 1..], order + [c]) && d in u by { assert d in ds[k..]; }
      var w1 := VisitList(g, u, c, k + 1, order);
      DrainCompose(g, u, [d], ds[k + 1..], order + [c]);
      if InLater(g, ds, k, d) {
        w := w1;
        EntryDone(g, u, c, k, order + [c] + w1, w1);
      } else {
        var w2 := VisitEntry(g, u, c, k, order, w1);
        w := w1 + w2;
        JoinVisits(g, c, k, order + [c], w1, w2);
        ConcatAssoc(order + [c], w1, w2);
      }
    }
  }

  lemma EntryDone(g: Graph, u: set<Id>, c: Id, k: nat, order: seq<Id>, w1: seq<Id>)
    requires k < |Dependents(g, c)| && InLater(g, Dependents(g, c), k, Dependents(g, c)[k])
    requires Fit(g, u, [Dependents(g, c)[k]], order) && forall x :: x in w1 ==> x in order
    requires forall y :: y in w1 <==> InLater(g, Dependents(g, c), k, y)
    ensures Drain(g, u, [Dependents(g, c)[k]], order) == order
    ensures forall y :: y in w1 <==> InLater(g, Dependents(g, c), k - 1, y)
  {
    LaterSplit(g, c, k);
    ReachableBasics(g, Dependents(g, c)[k]);
    DrainSeen(g, u, Dependents(g, c)[k], order);
  }

  lemma {:induction false} VisitEntry(g: Graph, u: set<Id>, c: Id, k: nat, order: seq<Id>, w1: seq<Id>)
    returns (w2: seq<Id>)
    requires k < |Dependents(g, c)| && c in u && Fit(g, u, [Dependents(g, c)[k]], order + [c] + w1)
    requires Layered(g, c) && Avoids(g, c, order)
    requires forall y :: y in w1 <==> InLater(g, Dependents(g, c), k, y)
    requires !InLater(g, Dependents(g, c), k, Dependents(g, c)[k])
    ensures Drain(g, u, [Dependents(g, c)[k]], order + [c] + w1) == order + [c] + w1 + w2
    ensures IsVisit(g, Dependents(g, c)[k], w2) && Avoids(g, Dependents(g, c)[k], order + [c] + w1)
    decreases |ReachSet(g, u, c)|, |Dependents(g, c)| - k, 0
  {
    EntryAvoids(g, c, k, order, w1);
    LayeredBelow(g, u, c, Dependents(g, c)[k]);
    w2 := VisitFresh(g, u, Dependents(g, c)[k], order + [c] + w1);
  }

  lemma JoinVisits(g: Graph, c: Id, k: nat, order: seq<Id>, w1: seq<Id>, w2: seq<Id>)
    requires k < |Dependents(g, c)| && Topological(g, w1) && IsVisit(g, Dependents(g, c)[k], w2)
    requires Avoids(g, Dependents(g, c)[k], order + w1)
    requires forall y :: y in w1 <==> InLater(g, Dependents(g, c), k, y)
    ensures Topological(g, w1 + w2)
    ensures forall y :: y in w1 + w2 <==> InLater(g, Dependents(g, c), k - 1, y)
  {
    LaterSplit(g, c, k);
    forall p, x | p in w2 && x in Dependents(g, p)
      ensures x !in w1
    {
      ReachableBasics(g, p);
      ReachableTrans(g, Dependents(g, c)[k], p, x);
    }
    TopologicalConcat(g, w1, w2);
  }

  /** A visited driver whose dependents are all visited leaves no trace. */
  lemma DrainSeen(g: Graph, u: set<Id>, d: Id, order: seq<Id>)
    requires Fit(g, u, [d], order) && d in order
    requires forall x :: x in Dependents(g, d) ==> x in order
    ensures Drain(g, u, [d], order) == order
  {
    TurnDecreases(g, u, [d], order);
    var pushed := Unseen(Dependents(g, d), order);
    assert |pushed| == 0;
    assert NextStack(g, [d], order) == [];
  }

  lemma LayeredBelow(g: Graph, u: set<Id>, c: Id, d: Id)
    requires Layered(g, c) && d in Dependents(g, c) && c in u
    ensures Layered(g, d)
    ensures |ReachSet(g, u, d)| < |ReachSet(g, u, c)|
  {
    ReachableBasics(g, c);
    forall v | Reachable(g, d, v)
      ensures Reachable(g, c, v)
    {
      ReachableTrans(g, c, d, v);
    }
    assert c in ReachSet(g, u, c) && c !in ReachSet(g, u, d);
    SmallerSet(ReachSet(g, u, d), ReachSet(g, u, c), c);
  }

  // ---------------------------------------------------------------- and when it is not

  lemma {:induction false} VisitMoment(g: Graph, u: set<Id>, stack: seq<Id>, order: seq<Id>, v: Id)
    returns (s: seq<Id>, o: seq<Id>)
    requires Fit(g, u, stack, order) && v !in order && v in Drain(g, u, stack, order)
    ensures Fit(g, u, s + [v], o) && v !in o
    ensures Drain(g, u, s + [v], o) == Drain(g, u, stack, order)
    decreases |u - Elements(order)|, SeenCount(stack, order)
  {
    assert stack != [];
    if Top(stack) == v {
      s, o := stack[..|stack| - 1], order;
      PopTop(stack);
    } else {
      TurnDecreases(g, u, stack, order);
      var stack', order' := NextStack(g, stack, order), NextOrder(stack, order);
      assert Drain(g, u, stack, order) == Drain(g, u, stack', order');
      assert v !in order';
      s, o := VisitMoment(g, u, stack', order', v);
    }
  }

  /** r holds the worklist, and the dependents of whatever it adds to `order`. */
  ghost predicate Closes(g: Graph, stack: seq<Id>, order: seq<Id>, r: seq<Id>) {
    && order <= r
    && (forall x :: x in stack ==> x in r)
    && (forall p, d :: p in r && p !in order && d in Dependents(g, p) ==> d in r)
  }

  lemma TurnCloses(g: Graph, stack: seq<Id>, order: seq<Id>, r: seq<Id>)
    requires stack != [] && Closes(g, NextStack(g, stack, order), NextOrder(stack, order), r)
    ensures Closes(g, stack, order, r)
  {
    var c, stack', order' := Top(stack), NextStack(g, stack, order), NextOrder(stack, order);
    assert stack == stack[..|stack| - 1] + [c];
    assert order <= order' && c in order';
    forall d | d in Dependents(g, c)
      ensures d in r
    {
      assert d in order || d in stack';
    }
    assert forall x :: x in order' ==> x in order || x == c;
  }

  /** Draining visits the worklist, and the dependents of whatever it adds. */
  lemma {:induction false} DrainCloses(g: Graph, u: set<Id>, stack: seq<Id>, order: seq<Id>)
    requires Fit(g, u, stack, order)
    ensures Closes(g, stack, order, Drain(g, u, stack, order))
    decreases |u - Elements(order)|, SeenCount(stack, order)
  {
    if stack == [] {
    } else {
      TurnDecreases(g, u, stack, order);
      DrainCloses(g, u, NextStack(g, stack, order), NextOrder(stack, order));
      TurnCloses(g, stack, order, Drain(g, u, stack, order));
    }
  }

  /** Draining visits nothing that the worklist does not reach. */
  lemma {:induction false} DrainReaches(g: Graph, u: set<Id>, stack: seq<Id>, order: seq<Id>, x: Id)
    requires Fit(g, u, stack, order) && x in Drain(g, u, stack, order) && x !in order
    ensures InLater(g, stack, -1, x)
    decreases |u - Elements(order)|, SeenCount(stack, order)
  {
    TurnDecreases(g, u, stack, order);
    var stack', order' := NextStack(g, stack, order), NextOrder(stack, order);
    var c, n := Top(stack), |stack| - 1;
    ReachableBasics(g, c);
    if x != c {
      DrainReaches(g, u, stack', order', x);
      var k :| -1 < k < |stack'| && 0 <= k && Reachable(g, stack'[k], x);
      if k < n {
        assert Reachable(g, stack[k], x);
      } else {
        assert stack'[k] in Unseen(Dependents(g, c), order);
        ReachableTrans(g, c, stack'[k], x);
        assert Reachable(g, stack[n], x);
      }
    } else {
      assert Reachable(g, stack[n], x);
    }
  }

  /** In a topological order that holds its closure, paths go forward. */
  lemma {:induction false} PathsForward(g: Graph, order: seq<Id>, i: nat, y: Id, n: nat) returns (j: nat)
    requires Topological(g, order) && i < |order| && Reaches(g, order[i], y, n)
    requires forall p, d :: p in order && d in Dependents(g, p) ==> d in order
    ensures j < |order| && order[j] == y && (if n == 0 then j == i else i < j)
    decreases n
  {
    if n == 0 {
      j := i;
    } else {
      var z :| z in Dependents(g, order[i]) && Reaches(g, z, y, n - 1);
      assert order[i] in order;
      assert z in order;
      var k :| 0 <= k < |order| && order[k] == z;
      j := PathsForward(g, order, k, y, n - 1);
    }
  }

  /** A set that closes over what is not in `o` holds all that an entry reaches outside `o`. */
  lemma {:induction false} StaysVisited(g: Graph, r: seq<Id>, o: seq<Id>, x: Id, y: Id, n: nat)
    requires x in r && Reaches(g, x, y, n) && Avoids(g, x, o)
    requires forall p, d :: p in r && p !in o && d in Dependents(g, p) ==> d in r
    ensures y in r
    decreases n
  {
    if n == 0 {
    } else {
      var z :| z in Dependents(g, x) && Reaches(g, z, y, n - 1);
      AvoidsBelow(g, x, z, o);
      StaysVisited(g, r, o, z, y, n - 1);
    }
  }

  lemma NotInPrefix(order: seq<Id>, k: nat, j: nat)
    requires Distinct(order) && k <= j < |order|
    ensures order[j] !in order[..k]
  {}

  /** A prefix of a topological order is closed backwards. */
  lemma PrefixKeepsAncestors(g: Graph, order: seq<Id>, k: nat, a: Id, y: Id)
    requires Topological(g, order) && Distinct(order) && k <= |order|
    requires forall p, d :: p in order && d in Dependents(g, p) ==> d in order
    requires a in order && a !in order[..k] && Reachable(g, a, y)
    ensures y !in order[..k]
  {
    assert order == order[..k] + order[k..];
    var m :| 0 <= m < |order[k..]| && order[k..][m] == a;
    var i := k + m;
    var n: nat :| Reaches(g, a, y, n);
    var j := PathsForward(g, order, i, y, n);
    NotInPrefix(order, k, j);
  }

  /** What has been visited when entry i of v's list comes up: the past, and what later entries reach. */
  lemma VisitedBeforeEntry(g: Graph, u: set<Id>, v: Id, i: nat, o: seq<Id>) returns (r: seq<Id>)
    requires i < |Dependents(g, v)| && Fit(g, u, Dependents(g, v), o)
    requires forall d :: d in Dependents(g, v) ==> Avoids(g, d, o)
    ensures r <= Drain(g, u, Dependents(g, v), o)
    ensures forall y :: y in r ==> y in o || InLater(g, Dependents(g, v), i, y)
    ensures forall y :: InLater(g, Dependents(g, v), i, y) ==> y in r
  {
    var ds := Dependents(g, v);
    var first, later := ds[..i + 1], ds[i + 1..];
    assert ds == first + later;
    assert Fit(g, u, first, o) && Fit(g, u, later, o);
    DrainCompose(g, u, first, later, o);
    r := Drain(g, u, later, o);
    DrainCloses(g, u, later, o);
    forall y | y in r && y !in o
      ensures InLater(g, ds, i, y)
    {
      DrainReaches(g, u, later, o, y);
      LaterOf(g, ds, i, y);
    }
    forall y | InLater(g, ds, i, y)
      ensures y in r
    {
      LaterVisited(g, ds, i, o, r, y);
    }
  }

  lemma LaterOf(g: Graph, ds: seq<Id>, i: nat, y: Id)
    requires i < |ds| && InLater(g, ds[i + 1..], -1, y)
    ensures InLater(g, ds, i, y)
  {
    var later := ds[i + 1..];
    var k :| -1 < k < |later| && 0 <= k && Reachable(g, later[k], y);
    assert ds[i + 1 + k] == later[k];
  }

  lemma LaterVisited(g: Graph, ds: seq<Id>, i: nat, o: seq<Id>, r: seq<Id>, y: Id)
    requires i < |ds| && InLater(g, ds, i, y) && Closes(g, ds[i + 1..], o, r)
    requires forall d :: d in ds ==> Avoids(g, d, o)
    ensures y in r
  {
    var k :| i < k < |ds| && 0 <= k && Reachable(g, ds[k], y);
    assert ds[i + 1..][k - i - 1] == ds[k] && ds[k] in ds[i + 1..] && ds[k] in ds;
    var n: nat :| Reaches(g, ds[k], y, n);
    StaysVisited(g, r, o, ds[k], y, n);
  }

  /** When v is visited first, in a topological order nothing below it has been. */
  lemma MomentAvoids(g: Graph, order: seq<Id>, v: Id, o: seq<Id>)
    requires Topological(g, order) && Distinct(order) && o + [v] <= order
    requires forall p, d :: p in order && d in Dependents(g, p) ==> d in order
    ensures forall d :: d in Dependents(g, v) ==> Avoids(g, d, o + [v])
  {
    assert order[|o|] == (o + [v])[|o|] == v;
    forall d, z | d in Dependents(g, v) && z in o + [v]
      ensures !Reachable(g, d, z)
    {
      var k :| 0 <= k < |o + [v]| && (o + [v])[k] == z;
      assert order[k] == z;
      if Reachable(g, d, z) {
        var n: nat :| Reaches(g, d, z, n);
        var j := PathsForward(g, order, |o|, z, n + 1);
      }
    }
  }

  lemma TopologicalGivesLayered(g: Graph, id: Id, v: Id)
    requires Topological(g, Visits(g, id)) && Reachable(g, id, v)
    ensures forall d :: d in Dependents(g, v) ==> !Reachable(g, d, v)
    ensures forall i :: 0 <= i < |Dependents(g, v)| ==> Sequenced(g, Dependents(g, v), i)
  {
    var u, order, ds := Universe(g, id), Visits(g, id), Dependents(g, v);
    VisitsReachable(g, id);
    VisitsClosed(g, id);
    var s, o := VisitMoment(g, u, [id], [], v);
    var whole := MomentPrefix(g, u, s, o, v);
    MomentAvoids(g, order, v, o);
    assert v in o + [v];
    EntriesSequenced(g, u, order, v, o + [v]);
  }

  lemma EntriesSequenced(g: Graph, u: set<Id>, order: seq<Id>, v: Id, o: seq<Id>)
    requires Topological(g, order) && Distinct(order) && v in order
    requires forall p, d :: p in order && d in Dependents(g, p) ==> d in order
    requires Fit(g, u, Dependents(g, v), o) && Drain(g, u, Dependents(g, v), o) <= order
    requires forall d :: d in Dependents(g, v) ==> Avoids(g, d, o)
    ensures forall i :: 0 <= i < |Dependents(g, v)| ==> Sequenced(g, Dependents(g, v), i)
  {
    forall i | 0 <= i < |Dependents(g, v)|
      ensures Sequenced(g, Dependents(g, v), i)
    {
      var r := VisitedBeforeEntry(g, u, v, i, o);
      EntrySequenced(g, order, v, i, o, r);
    }
  }

  lemma EntrySequenced(g: Graph, order: seq<Id>, v: Id, i: nat, o: seq<Id>, r: seq<Id>)
    requires Topological(g, order) && Distinct(order) && r <= order && v in order && i < |Dependents(g, v)|
    requires forall p, d :: p in order && d in Dependents(g, p) ==> d in order
    requires Avoids(g, Dependents(g, v)[i], o)
    requires forall y :: y in r ==> y in o || InLater(g, Dependents(g, v), i, y)
    requires forall y :: InLater(g, Dependents(g, v), i, y) ==> y in r
    ensures Sequenced(g, Dependents(g, v), i)
  {
    var a := Dependents(g, v)[i];
    ReachableBasics(g, a);
    assert a in order && r == order[..|r|];
    if a !in r {
      forall y | Reachable(g, a, y)
        ensures !InLater(g, Dependents(g, v), i, y)
      {
        PrefixKeepsAncestors(g, order, |r|, a, y);
      }
    }
  }

  lemma VisitsClosed(g: Graph, id: Id)
    ensures forall p, d :: p in Visits(g, id) && d in Dependents(g, p) ==> d in Visits(g, id)
  {
    VisitsReachable(g, id);
    forall p, d | p in Visits(g, id) && d in Dependents(g, p)
      ensures d in Visits(g, id)
    {
      ReachableBasics(g, p);
      ReachableTrans(g, id, p, d);
    }
  }

  lemma MomentPrefix(g: Graph, u: set<Id>, s: seq<Id>, o: seq<Id>, v: Id) returns (whole: seq<Id>)
    requires Fit(g, u, s + [v], o) && v !in o
    ensures whole == Drain(g, u, s + [v], o) && o + [v] <= whole
    ensures Fit(g, u, Dependents(g, v), o + [v])
    ensures (forall d :: d in Dependents(g, v) ==> d !in o) ==> Drain(g, u, Dependents(g, v), o + [v]) <= whole
  {
    whole := Drain(g, u, s + [v], o);
    assert Fit(g, u, s, o) && Fit(g, u, [v], o) by {
      assert forall x :: x in s ==> x in s + [v];
      assert v in s + [v];
    }
    TurnDecreases(g, u, [v], o);
    assert NextOrder([v], o) == o + [v];
    DrainCompose(g, u, s, [v], o);
    assert v in u;
    if forall d :: d in Dependents(g, v) ==> d !in o { DrainOne(g, u, v, o); }
  }

  lemma TopologicalIffLayered(g: Graph, id: Id)
    ensures Topological(g, Visits(g, id)) <==> Layered(g, id)
  {
    if Layered(g, id) {
      assert Avoids(g, id, []);
      var w := VisitFresh(g, Universe(g, id), id, []);
      assert Visits(g, id) == w;
    }
    if Topological(g, Visits(g, id)) {
      forall v | Reachable(g, id, v)
        ensures forall d :: d in Dependents(g, v) ==> !Reachable(g, d, v)
        ensures forall i :: 0 <= i < |Dependents(g, v)| ==> Sequenced(g, Dependents(g, v), i)
      {
        TopologicalGivesLayered(g, id, v);
      }
    }
  }

  // ---------------------------------------------------------------- the resolver

  /** The list get_unload_order returns. */
  ghost function UnloadOrder(g: Graph, id: Id): seq<Id> {
    Reversed(Visits(g, id))
  }

  /**
   On every graph the unload order is free of duplicates, holds exactly the transitive dependents,
   ends with the requested driver, and puts every other driver before one it depends on.
   */
  lemma UnloadOrderGuarantees(g: Graph, id: Id)
    ensures var r := UnloadOrder(g, id);
            && Distinct(r)
            && (forall x :: x in r <==> Reachable(g, id, x))
            && r != [] && r[|r| - 1] == id
            && forall i :: 0 <= i < |r| - 1 ==> exists j :: i < j < |r| && r[i] in Dependents(g, r[j])
  {
    VisitsReachable(g, id);
    ReversedElements(Visits(g, id));
    forall i | 0 <= i < |UnloadOrder(g, id)| - 1
      ensures exists j :: i < j < |UnloadOrder(g, id)| && UnloadOrder(g, id)[i] in Dependents(g, UnloadOrder(g, id)[j])
    {
      ReversedPreceded(g, Visits(g, id), i);
    }
  }

  lemma ReversedPreceded(g: Graph, v: seq<Id>, i: nat)
    requires i < |v| - 1 && Preceded(g, v, |v| - 1 - i)
    ensures exists j :: i < j < |v| && Reversed(v)[i] in Dependents(g, Reversed(v)[j])
  {
    var j :| 0 <= j < |v| - 1 - i && v[|v| - 1 - i] in Dependents(g, v[j]);
    assert Reversed(v)[|v| - 1 - j] == v[j];
  }

  lemma ReversedElements(s: seq<Id>)
    ensures forall x :: x in Reversed(s) <==> x in s
  {
    forall x | x in s
      ensures x in Reversed(s)
    {
      var k :| 0 <= k < |s| && s[k] == x;
      assert Reversed(s)[|s| - 1 - k] == x;
    }
  }

  /** Every driver is unloaded before all drivers it depends on. */
  ghost predicate DependentsFirst(g: Graph, r: seq<Id>) {
    forall i, j :: 0 <= i < |r| && 0 <= j < |r| && r[i] in Dependents(g, r[j]) ==> i < j
  }

  lemma ReversalTurnsOrder(g: Graph, v: seq<Id>)
    ensures DependentsFirst(g, Reversed(v)) <==> Topological(g, v)
  {
    var r, n := Reversed(v), |v| - 1;
    if DependentsFirst(g, r) {
      forall i, j | 0 <= i < |v| && 0 <= j < |v| && v[j] in Dependents(g, v[i])
        ensures i < j
      {
        assert r[n - j] in Dependents(g, r[n - i]);
      }
    }
    if Topological(g, v) {
      forall i, j | 0 <= i < |r| && 0 <= j < |r| && r[i] in Dependents(g, r[j])
        ensures i < j
      {
        assert v[n - i] in Dependents(g, v[n - j]);
      }
    }
  }

  /** The unload order is safe if and only if the dependents graph below the driver is layered. */
  lemma SafeIffLayered(g: Graph, id: Id)
    ensures DependentsFirst(g, UnloadOrder(g, id)) <==> Layered(g, id)
  {
    TopologicalIffLayered(g, id);
    ReversalTurnsOrder(g, Visits(g, id));
  }

  /** A driver with a single dependency in the closure is unloaded before that dependency. */
  lemma SingleDependencyIsSafe(g: Graph, id: Id, i: nat, j: nat)
    requires i < |UnloadOrder(g, id)| - 1 && j < |UnloadOrder(g, id)|
    requires forall k :: 0 <= k < |UnloadOrder(g, id)| ==>
               (UnloadOrder(g, id)[i] in Dependents(g, UnloadOrder(g, id)[k]) <==> k == j)
    ensures i < j
  {
    UnloadOrderGuarantees(g, id);
  }

  lemma DiamondPaths(g: Graph)
    requires g == map[0 := [1, 2], 1 := [3], 2 := [3]]
    ensures InLater(g, Dependents(g, 0), 0, 3) && !InLater(g, Dependents(g, 0), 0, 1)
  {
    ReachableBasics(g, 2);
    assert Dependents(g, 2)[0] == 3;
    assert InLater(g, Dependents(g, 0), 0, 3) by { assert Reachable(g, Dependents(g, 0)[1], 3); }
    forall n: nat
      ensures !Reaches(g, 2, 1, n)
    {
      if n > 0 { assert !Reaches(g, 3, 1, n - 1); }
    }
  }

  /** A diamond: driver 3 depends on 1 and 2, and 1 is unloaded while 3 still depends on it. */
  lemma DiamondIsUnsafe(g: Graph)
    requires g == map[0 := [1, 2], 1 := [3], 2 := [3]]
    ensures !Layered(g, 0) && !DependentsFirst(g, UnloadOrder(g, 0))
  {
    DiamondPaths(g);
    ReachableBasics(g, 0);
    ReachableBasics(g, 1);
    assert Dependents(g, 1)[0] == 3;
    assert !Sequenced(g, Dependents(g, 0), 0);
    SafeIffLayered(g, 0);
  }

  function Added(g: Graph, dependent: Id, dependency: Id): Graph {
    g[dependency := Dependents(g, dependency) + [dependent]]
  }

  function Removed(g: Graph, dependent: Id, dependency: Id): Graph {
    var kept := Without(Dependents(g, dependency), dependent);
    if kept == [] then g - {dependency} else g[dependency := kept]
  }

  /**
   Removing a dependency that was just added restores the graph exactly when it was not there before:
   adding keeps duplicates, removing takes every copy and drops an empty list.
   */
  lemma RemoveUndoesAdd(g: Graph, dependent: Id, dependency: Id)
    ensures Removed(Added(g, dependent, dependency), dependent, dependency) == g <==>
            dependent !in Dependents(g, dependency) && (dependency in g ==> g[dependency] != [])
  {
    var ds, g' := Dependents(g, dependency), Removed(Added(g, dependent, dependency), dependent, dependency);
    assert (ds + [dependent])[..|ds|] == ds;
    assert Without(ds + [dependent], dependent) == Without(ds, dependent);
    WithoutElements(ds, dependent);
    if dependent !in ds {
      WithoutAbsent(ds, dependent);
    } else {
      assert dependent !in Dependents(g', dependency);
    }
  }

  class DependencyResolver {
    var dependents: Graph

    constructor ()
      ensures dependents == map[]
    {
      dependents := map[];
    }

    method AddDependency(dependent: Id, dependency: Id)
      modifies this
      ensures dependents == Added(old(dependents), dependent, dependency)
    {
      if dependency !in dependents {
        dependents := dependents[dependency := []];
      }
      dependents := dependents[dependency := dependents[dependency] + [dependent]];
    }

    method RemoveDependency(dependent: Id, dependency: Id)
      modifies this
      ensures dependents == Removed(old(dependents), dependent, dependency)
    {
      if dependency in dependents {
        var ds := dependents[dependency];
        var kept := [];
        for i := 0 to |ds|
          invariant kept == Without(ds[..i], dependent)
        {
          assert ds[..i + 1][..i] == ds[..i];
          if ds[i] != dependent {
            kept := kept + [ds[i]];
          }
        }
        assert ds[..|ds|] == ds;
        if kept == [] {
          dependents := dependents - {dependency};
        } else {
          dependents := dependents[dependency := kept];
        }
      }
    }

    method PushUnseen(stack: seq<Id>, ds: seq<Id>, order: seq<Id>) returns (r: seq<Id>)
      ensures r == stack + Unseen(ds, order)
    {
      r := stack;
      for i := 0 to |ds|
        invariant r == stack + Unseen(ds[..i], order)
      {
        assert ds[..i + 1][..i] == ds[..i];
        if ds[i] !in order {
          r := r + [ds[i]];
        }
      }
      assert ds[..|ds|] == ds;
    }

    /** Terminates on every graph: see `TurnDecreases`. */
    method GetUnloadOrder(id: Id) returns (r: seq<Id>)
      ensures r == UnloadOrder(dependents, id)
    {
      var order := [];
      var stack := [id];
      ghost var u := Universe(dependents, id);
      while stack != []
        invariant Fit(dependents, u, stack, order)
        invariant Drain(dependents, u, stack, order) == Visits(dependents, id)
        decreases |u - Elements(order)|, SeenCount(stack, order)
      {
        TurnDecreases(dependents, u, stack, order);
        var current := stack[|stack| - 1];
        stack := PushUnseen(stack[..|stack| - 1], Dependents(dependents, current), order);
        if current !in order {
          order := order + [current];
        }
      }
      r := Reversed(order);
    }
  }
}
