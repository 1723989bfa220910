/** Capabilities: who may do what to which resource, and how rights spread.  Time is an input. */
module Capabilities {
  import opened Collections
  import opened Types

  datatype Kind =
    | Read | Write | Execute | Create | Delete | SendMessage | ReceiveMessage | SystemCall
    | DeviceAccess | MemoryManagement | ProcessManagement | FileSystem | Network | Admin

  datatype Resource =
    | Any
    | Process(pid: Pid)
    | Device(name: string)
    | File(path: string)
    | Endpoint(address: string)
    | System(name: string)

  datatype Capability = Capability(
    id: nat, kind: Kind, resource: Resource, owner: Pid, granter: Option<Pid>, delegatable: bool,
    expiresAt: Option<nat>)
  {
    predicate Expired(now: nat) {
      expiresAt.Some? && now > expiresAt.value
    }

    predicate Matches(now: nat, k: Kind, r: Resource) {
      !Expired(now) && kind == k && (resource == Any || resource == r)
    }

    /** The same right, whoever holds it. */
    predicate SameRight(other: Capability) {
      kind == other.kind && resource == other.resource && expiresAt == other.expiresAt
    }
  }

  datatype Error = NotFound | NotDelegatable | Expired

  /** Sets per process, the id counter, and the manager's statistics. */
  datatype Manager = Manager(held: map<Pid, seq<Capability>>, nextId: nat, created: nat, checks: nat, failed: nat)

  datatype Op =
    | Grant(to: Pid, kind: Kind, resource: Resource, granter: Option<Pid>)
    | Check(pid: Pid, kind: Kind, resource: Resource, now: nat)
    | Delegate(from: Pid, to: Pid, id: nat, now: nat)
    | Revoke(pid: Pid, id: nat)
    | Cleanup(now: nat)

  // ---------------------------------------------------------------- operations

  function Set(s: Manager, p: Pid): seq<Capability> {
    if p in s.held then s.held[p] else []
  }

  function IndexOf(caps: seq<Capability>, id: nat): (i: nat)
    ensures i <= |caps|
    ensures i < |caps| ==> caps[i].id == id
    ensures forall j :: 0 <= j < i ==> caps[j].id != id
  {
    if caps == [] || caps[0].id == id then 0 else 1 + IndexOf(caps[1..], id)
  }

  function Added(s: Manager, p: Pid, c: Capability): Manager {
    s.(held := s.held[p := Set(s, p) + [c]], nextId := s.nextId + 1, created := s.created + 1)
  }

  /** A grant is permanent and cannot be delegated. */
  function Granted(s: Manager, p: Pid, kind: Kind, resource: Resource, granter: Option<Pid>)
    : (Manager, Result<nat, Error>)
  {
    (Added(s, p, Capability(s.nextId, kind, resource, p, granter, false, None)), Ok(s.nextId))
  }

  predicate Has(s: Manager, p: Pid, now: nat, kind: Kind, resource: Resource) {
    exists c :: c in Set(s, p) && c.Matches(now, kind, resource)
  }

  function Checked(s: Manager, p: Pid, now: nat, kind: Kind, resource: Resource): (Manager, bool) {
    var ok := Has(s, p, now, kind, resource);
    (s.(checks := s.checks + 1, failed := s.failed + if ok then 0 else 1), ok)
  }

  function Delegated(s: Manager, from: Pid, to: Pid, id: nat, now: nat): (Manager, Result<nat, Error>) {
    var i := IndexOf(Set(s, from), id);
    if i == |Set(s, from)| then (s, Err(NotFound))
    else
      var c := Set(s, from)[i];
      if !c.delegatable then (s, Err(NotDelegatable))
      else if c.Expired(now) then (s, Err(Error.Expired))
      else (Added(s, to, Copy(s, c, from, to)), Ok(s.nextId))
  }

  /** The capability a delegation makes: the original with a new id, holder and granter. */
  function Copy(s: Manager, c: Capability, from: Pid, to: Pid): Capability {
    Capability(s.nextId, c.kind, c.resource, to, Some(from), c.delegatable, c.expiresAt)
  }

  function Revoked(s: Manager, p: Pid, id: nat): (Manager, Result<(), Error>) {
    var i := IndexOf(Set(s, p), id);
    if i == |Set(s, p)| then (s, Err(NotFound))
    else (s.(held := s.held[p := RemoveAt(Set(s, p), i)]), Ok(()))
  }

  function Unexpired(caps: seq<Capability>, now: nat): seq<Capability> {
    if caps == [] then []
    else
      var last := caps[|caps| - 1];
      Unexpired(caps[..|caps| - 1], now) + (if last.Expired(now) then [] else [last])
  }

  function CleanedUp(s: Manager, now: nat): Manager {
    s.(held := map p | p in s.held :: Unexpired(s.held[p], now))
  }

  function Step(s: Manager, op: Op): Manager {
    match op
    case Grant(to, kind, resource, granter) => Granted(s, to, kind, resource, granter).0
    case Check(pid, kind, resource, now) => Checked(s, pid, now, kind, resource).0
    case Delegate(from, to, id, now) => Delegated(s, from, to, id, now).0
    case Revoke(pid, id) => Revoked(s, pid, id).0
    case Cleanup(now) => CleanedUp(s, now)
  }

  function Run(s: Manager, ops: seq<Op>): Manager {
    if ops == [] then s else Step(Run(s, ops[..|ops| - 1]), ops[|ops| - 1])
  }

  const NOBODY := Manager(map[], 1, 0, 0, 0)

  // ---------------------------------------------------------------- ids

  ghost predicate DistinctIds(caps: seq<Capability>) {
    forall i, j :: 0 <= i < j < |caps| ==> caps[i].id != caps[j].id
  }

  ghost predicate OwnIds(s: Manager, p: Pid) {
    && (forall c :: c in Set(s, p) ==> c.id < s.nextId && c.owner == p)
    && DistinctIds(Set(s, p))
  }

  /** Capability ids are unique across all processes, and every capability names its holder as owner. */
  ghost predicate Inv(s: Manager) {
    && (forall p: Pid :: OwnIds(s, p))
    && (forall p: Pid, q: Pid, c, d :: p != q && c in Set(s, p) && d in Set(s, q) ==> c.id != d.id)
  }

  /** What one step can add to a set: a grant to that process, or a copy of a delegatable capability. */
  ghost predicate Newcomer(s: Manager, op: Op, p: Pid, c: Capability) {
    && c.id == s.nextId && c.owner == p
    && match op
       case Grant(to, kind, resource, granter) =>
         && p == to && c.kind == kind && c.resource == resource && c.granter == granter
         && !c.delegatable && c.expiresAt == None
       case Delegate(from, to, id, now) =>
         && p == to && c.delegatable && c.granter == Some(from)
         && exists d :: d in Set(s, from) && d.delegatable && d.id == id && !d.Expired(now) && c.SameRight(d)
       case _ => false
  }

  lemma {:induction false} UnexpiredElements(caps: seq<Capability>, now: nat)
    ensures forall c :: c in Unexpired(caps, now) <==> c in caps && !c.Expired(now)
  {
    if caps == [] {
    } else {
      assert caps == caps[..|caps| - 1] + [caps[|caps| - 1]];
      UnexpiredElements(caps[..|caps| - 1], now);
    }
  }

  /** Sets only change by losing members, or by one newcomer. */
  lemma StepMembers(s: Manager, op: Op, p: Pid, c: Capability)
    requires c in Set(Step(s, op), p)
    ensures c in Set(s, p) || Newcomer(s, op, p, c)
  {
    match op
    case Grant(to, kind, resource, granter) =>
    case Check(pid, kind, resource, now) =>
    case Delegate(from, to, id, now) =>
      var i := IndexOf(Set(s, from), id);
      if i < |Set(s, from)| { assert Set(s, from)[i] in Set(s, from); }
    case Revoke(pid, id) =>
    case Cleanup(now) =>
      if p in s.held { UnexpiredElements(s.held[p], now); }
  }

  lemma DistinctIdsAppend(caps: seq<Capability>, c: Capability)
    requires DistinctIds(caps) && forall d :: d in caps ==> d.id != c.id
    ensures DistinctIds(caps + [c])
  {
    forall i | 0 <= i < |caps|
      ensures caps[i].id != c.id
    {
      assert caps[i] in caps;
    }
  }

  lemma {:induction false} UnexpiredIds(caps: seq<Capability>, now: nat)
    requires DistinctIds(caps)
    ensures DistinctIds(Unexpired(caps, now))
  {
    if caps == [] {
    } else {
      var init, last := caps[..|caps| - 1], caps[|caps| - 1];
      UnexpiredIds(init, now);
      UnexpiredElements(init, now);
      if last.Expired(now) {
        assert Unexpired(caps, now) == Unexpired(init, now);
      } else {
        DistinctIdsAppend(Unexpired(init, now), last);
      }
    }
  }

  lemma RemovedIds(caps: seq<Capability>, k: nat)
    requires DistinctIds(caps) && k < |caps|
    ensures DistinctIds(RemoveAt(caps, k))
  {
    var r := RemoveAt(caps, k);
    forall i, j | 0 <= i < j < |r|
      ensures r[i].id != r[j].id
    {
      assert r[i] == caps[if i < k then i else i + 1] && r[j] == caps[if j < k then j else j + 1];
    }
  }

  lemma AddedDistinct(s: Manager, to: Pid, c: Capability, p: Pid)
    requires OwnIds(s, p) && c.id == s.nextId
    ensures DistinctIds(Set(Added(s, to, c), p))
  {
    if p == to { DistinctIdsAppend(Set(s, p), c); }
  }

  lemma StepDistinct(s: Manager, op: Op, p: Pid)
    requires OwnIds(s, p)
    ensures DistinctIds(Set(Step(s, op), p))
  {
    match op
    case Grant(to, kind, resource, granter) =>
      AddedDistinct(s, to, Capability(s.nextId, kind, resource, to, granter, false, None), p);
    case Check(pid, kind, resource, now) =>
    case Delegate(from, to, id, now) =>
      var i := IndexOf(Set(s, from), id);
      if i < |Set(s, from)| {
        var c := Set(s, from)[i];
        AddedDistinct(s, to, Copy(s, c, from, to), p);
      }
    case Revoke(pid, id) =>
      var i := IndexOf(Set(s, pid), id);
      if p == pid && i < |Set(s, pid)| { RemovedIds(Set(s, pid), i); }
    case Cleanup(now) =>
      if p in s.held { UnexpiredIds(s.held[p], now); }
  }

  lemma StepIds(s: Manager, op: Op)
    ensures s.nextId <= Step(s, op).nextId
    ensures forall p: Pid, c :: Newcomer(s, op, p, c) && c in Set(Step(s, op), p) && c !in Set(s, p) ==>
              c.id < Step(s, op).nextId
  {}

  lemma StepOwn(s: Manager, op: Op, p: Pid)
    requires OwnIds(s, p)
    ensures OwnIds(Step(s, op), p)
  {
    StepDistinct(s, op, p);
    StepIds(s, op);
    forall c | c in Set(Step(s, op), p)
      ensures c.id < Step(s, op).nextId && c.owner == p
    {
      StepMembers(s, op, p, c);
    }
  }

  /** At most one set gains a capability in a step, and its id is new. */
  lemma StepApart(s: Manager, op: Op, p: Pid, q: Pid, c: Capability, d: Capability)
    requires Inv(s) && p != q && c in Set(Step(s, op), p) && d in Set(Step(s, op), q)
    ensures c.id != d.id
  {
    StepMembers(s, op, p, c);
    StepMembers(s, op, q, d);
    assert OwnIds(s, p) && OwnIds(s, q);
  }

  lemma StepKeepsInv(s: Manager, op: Op)
    requires Inv(s)
    ensures Inv(Step(s, op)) && s.nextId <= Step(s, op).nextId
  {
    StepIds(s, op);
    forall p: Pid
      ensures OwnIds(Step(s, op), p)
    {
      assert OwnIds(s, p);
      StepOwn(s, op, p);
    }
    forall p: Pid, q: Pid, c, d | p != q && c in Set(Step(s, op), p) && d in Set(Step(s, op), q)
      ensures c.id != d.id
    {
      StepApart(s, op, p, q, c, d);
    }
  }

  lemma {:induction false} RunKeepsInv(s: Manager, ops: seq<Op>)
    requires Inv(s)
    ensures Inv(Run(s, ops))
  {
    if ops == [] {
    } else {
      RunKeepsInv(s, ops[..|ops| - 1]);
      StepKeepsInv(Run(s, ops[..|ops| - 1]), ops[|ops| - 1]);
    }
  }

  // ---------------------------------------------------------------- how rights spread

  /** Where process p can have c from: it had it, a delegatable original existed, or it was granted to p. */
  ghost predicate Justified(s0: Manager, ops: seq<Op>, p: Pid, c: Capability) {
    || c in Set(s0, p)
    || (exists q: Pid, d :: d in Set(s0, q) && d.delegatable && c.SameRight(d) && c.delegatable)
    || (!c.delegatable && c.expiresAt == None && exists g :: Grant(p, c.kind, c.resource, g) in ops)
  }

  lemma JustifiedLater(s0: Manager, ops: seq<Op>, op: Op, p: Pid, c: Capability)
    requires Justified(s0, ops, p, c)
    ensures Justified(s0, ops + [op], p, c)
  {
    if !c.delegatable && c.expiresAt == None && exists g :: Grant(p, c.kind, c.resource, g) in ops {
      var g :| Grant(p, c.kind, c.resource, g) in ops;
      assert Grant(p, c.kind, c.resource, g) in ops + [op];
    }
  }

  lemma CopyJustified(s0: Manager, ops: seq<Op>, op: Op, q: Pid, d: Capability, p: Pid, c: Capability)
    requires Justified(s0, ops, q, d) && d.delegatable && c.delegatable && c.SameRight(d)
    ensures Justified(s0, ops + [op], p, c)
  {
    if d in Set(s0, q) {
    } else {
      var r: Pid, e :| e in Set(s0, r) && e.delegatable && d.SameRight(e);
      assert c.SameRight(e);
    }
  }

  lemma GrantJustified(s0: Manager, s: Manager, ops: seq<Op>, op: Op, p: Pid, c: Capability)
    requires op.Grant? && Newcomer(s, op, p, c)
    ensures Justified(s0, ops + [op], p, c)
  {
    assert op in ops + [op] && op == Grant(p, c.kind, c.resource, op.granter);
  }

  lemma CopyOf(s: Manager, op: Op, p: Pid, c: Capability) returns (d: Capability)
    requires !op.Grant? && Newcomer(s, op, p, c)
    ensures op.Delegate? && d in Set(s, op.from) && d.delegatable && c.SameRight(d) && c.delegatable
  {
    d :| d in Set(s, op.from) && d.delegatable && c.SameRight(d);
  }

  /**
   No amplification: whatever anyone holds after any run was held by that process before, is a copy of a
   right that was delegatable in the starting state, or was granted to that very process during the run.
   */
  lemma {:induction false} RightsAreJustified(s0: Manager, ops: seq<Op>, p: Pid, c: Capability)
    requires c in Set(Run(s0, ops), p)
    ensures Justified(s0, ops, p, c)
  {
    if ops == [] {
    } else {
      var init, op := ops[..|ops| - 1], ops[|ops| - 1];
      assert ops == init + [op];
      var s := Run(s0, init);
      StepMembers(s, op, p, c);
      if c in Set(s, p) {
        RightsAreJustified(s0, init, p, c);
        JustifiedLater(s0, init, op, p, c);
      } else if op.Grant? {
        GrantJustified(s0, s, init, op, p, c);
      } else {
        var d := CopyOf(s, op, p, c);
        RightsAreJustified(s0, init, op.from, d);
        CopyJustified(s0, init, op, op.from, d, p, c);
      }
    }
  }

  /** Without grants every right held at the end was held by someone at the start. */
  lemma DelegationNeverAmplifies(s0: Manager, ops: seq<Op>, p: Pid, c: Capability) returns (q: Pid, d: Capability)
    requires forall op :: op in ops ==> !op.Grant?
    requires c in Set(Run(s0, ops), p)
    ensures d in Set(s0, q) && c.SameRight(d)
  {
    RightsAreJustified(s0, ops, p, c);
    if c in Set(s0, p) {
      q, d := p, c;
    } else {
      q, d :| d in Set(s0, q) && d.delegatable && c.SameRight(d) && c.delegatable;
    }
  }

  /** A grant gives the named process exactly the named right, for good, and nobody anything else. */
  lemma GrantTakesEffect(s: Manager, p: Pid, kind: Kind, resource: Resource, granter: Option<Pid>,
                         q: Pid, now: nat, k: Kind, r: Resource)
    ensures Has(Granted(s, p, kind, resource, granter).0, q, now, k, r) <==>
            Has(s, q, now, k, r) || (q == p && k == kind && (resource == Any || resource == r))
  {
    AddedHas(s, p, Capability(s.nextId, kind, resource, p, granter, false, None), q, now, k, r);
  }

  lemma AddedHas(s: Manager, p: Pid, c: Capability, q: Pid, now: nat, k: Kind, r: Resource)
    ensures Has(Added(s, p, c), q, now, k, r) <==> Has(s, q, now, k, r) || (q == p && c.Matches(now, k, r))
  {
    if Has(s, q, now, k, r) {
      var d :| d in Set(s, q) && d.Matches(now, k, r);
      assert d in Set(Added(s, p, c), q);
    }
    assert c in Set(Added(s, p, c), p);
  }

  /**
   Delegation succeeds exactly when the delegator holds a delegatable, unexpired capability of that id,
   and then gives the receiver what that capability allows and nobody anything else.
   */
  lemma DelegationTakesEffect(s: Manager, from: Pid, to: Pid, id: nat, now: nat,
                              c: Capability, q: Pid, later: nat, k: Kind, r: Resource)
    requires Inv(s) && c in Set(s, from) && c.id == id
    ensures Delegated(s, from, to, id, now).1.Ok? <==> c.delegatable && !c.Expired(now)
    ensures Has(Delegated(s, from, to, id, now).0, q, later, k, r) <==>
            Has(s, q, later, k, r) || (q == to && c.delegatable && !c.Expired(now) && c.Matches(later, k, r))
  {
    assert OwnIds(s, from);
    var i :| 0 <= i < |Set(s, from)| && Set(s, from)[i] == c;
    assert IndexOf(Set(s, from), id) == i;
    AddedHas(s, to, Copy(s, c, from, to), q, later, k, r);
  }

  /** Nothing ever sets the delegatable bit, so from an empty system every delegation is refused. */
  lemma DelegationIsDead(ops: seq<Op>, from: Pid, to: Pid, id: nat, now: nat)
    ensures Delegated(Run(NOBODY, ops), from, to, id, now).1 in {Err(NotFound), Err(NotDelegatable)}
  {
    var s := Run(NOBODY, ops);
    var i := IndexOf(Set(s, from), id);
    if i < |Set(s, from)| {
      RightsAreJustified(NOBODY, ops, from, Set(s, from)[i]);
    }
  }

  // ---------------------------------------------------------------- revocation and expiry

  /** A successful revocation removes exactly one capability in the whole system. */
  lemma RevokeRemovesOne(s: Manager, p: Pid, id: nat)
    requires Inv(s) && Revoked(s, p, id).1.Ok?
    ensures var s' := Revoked(s, p, id).0;
            && (forall q: Pid :: q != p ==> Set(s', q) == Set(s, q))
            && (forall q: Pid, c :: c in Set(s', q) <==> c in Set(s, q) && c.id != id)
            && |Set(s', p)| == |Set(s, p)| - 1
  {
    var s', caps := Revoked(s, p, id).0, Set(s, p);
    var i := IndexOf(caps, id);
    assert OwnIds(s, p);
    assert caps[i] in caps;
    RemoveAtKeepsDistinct(caps, i);
    forall q: Pid, c
      ensures c in Set(s', q) <==> c in Set(s, q) && c.id != id
    {
      if q == p && c in caps && c.id == id {
        var j :| 0 <= j < |caps| && caps[j] == c;
        assert j == i;
      }
    }
  }

  lemma RevokeUndoesAdded(s: Manager, p: Pid, c: Capability)
    requires Inv(s) && c.id == s.nextId
    ensures Revoked(Added(s, p, c), p, c.id).1.Ok?
    ensures forall q: Pid :: Set(Revoked(Added(s, p, c), p, c.id).0, q) == Set(s, q)
  {
    var caps, all := Set(s, p), Set(s, p) + [c];
    assert OwnIds(s, p);
    forall j | 0 <= j < |caps|
      ensures all[j].id != c.id
    {
      assert caps[j] in caps && all[j] == caps[j];
    }
    assert all[|caps|] == c;
    assert IndexOf(all, c.id) == |caps|;
    assert RemoveAt(all, |caps|) == caps;
  }

  /** The id a grant returns is the one to revoke it by: revoking it succeeds and leaves every set as it was. */
  lemma RevokeUndoesGrant(s: Manager, p: Pid, kind: Kind, resource: Resource, granter: Option<Pid>)
    requires Inv(s)
    ensures var (s', r) := Granted(s, p, kind, resource, granter);
            && r.Ok? && Revoked(s', p, r.value).1.Ok?
            && forall q: Pid :: Set(Revoked(s', p, r.value).0, q) == Set(s, q)
  {
    RevokeUndoesAdded(s, p, Capability(s.nextId, kind, resource, p, granter, false, None));
  }

  /** The same holds of the id a delegation returns, at the receiver. */
  lemma RevokeUndoesDelegation(s: Manager, from: Pid, to: Pid, id: nat, now: nat)
    requires Inv(s) && Delegated(s, from, to, id, now).1.Ok?
    ensures var (s', r) := Delegated(s, from, to, id, now);
            && Revoked(s', to, r.value).1.Ok?
            && forall q: Pid :: Set(Revoked(s', to, r.value).0, q) == Set(s, q)
  {
    RevokeUndoesAdded(s, to, Copy(s, Set(s, from)[IndexOf(Set(s, from), id)], from, to));
  }

  /** Why a delegation is refused: no such capability, one that may not be passed on, or one that has expired. */
  lemma DelegationRefused(s: Manager, from: Pid, to: Pid, id: nat, now: nat)
    requires Inv(s)
    ensures var (s', r) := Delegated(s, from, to, id, now);
            && (r.Err? ==> s' == s)
            && (r == Err(NotFound) <==> forall c :: c in Set(s, from) ==> c.id != id)
            && (r == Err(NotDelegatable) <==> exists c :: c in Set(s, from) && c.id == id && !c.delegatable)
            && (r == Err(Error.Expired) <==>
                  exists c :: c in Set(s, from) && c.id == id && c.delegatable && c.Expired(now))
  {
    var caps := Set(s, from);
    var i := IndexOf(caps, id);
    assert OwnIds(s, from);
    if i < |caps| { assert caps[i] in caps; }
    forall c | c in caps && c.id == id
      ensures i < |caps| && caps[i] == c
    {
      var j :| 0 <= j < |caps| && caps[j] == c;
    }
  }

  /** A revocation is refused exactly if the process holds no capability of that id, and then changes nothing. */
  lemma RevocationRefused(s: Manager, p: Pid, id: nat)
    ensures Revoked(s, p, id).1 == Err(NotFound) <==> forall c :: c in Set(s, p) ==> c.id != id
    ensures Revoked(s, p, id).1.Err? ==> Revoked(s, p, id).0 == s && Revoked(s, p, id).1 == Err(NotFound)
  {
    var i := IndexOf(Set(s, p), id);
    if i < |Set(s, p)| { assert Set(s, p)[i] in Set(s, p); }
  }

  /** The only capability of a process answers a check up to its expiry time, that time included, and never after. */
  lemma UsableUntil(s: Manager, p: Pid, c: Capability, until: nat, now: nat)
    requires Set(s, p) == [c] && c.expiresAt == Some(until)
    ensures Has(s, p, now, c.kind, c.resource) <==> now <= until
  {
    assert c in Set(s, p);
  }

  // ---------------------------------------------------------------- counters

  /** Operations of a run that made a capability, that checked, and whose check failed. */
  datatype Tally = Tally(made: nat, checks: nat, failed: nat)

  ghost function TallyOf(s: Manager, op: Op): Tally {
    match op
    case Grant(_, _, _, _) => Tally(1, 0, 0)
    case Check(pid, kind, resource, now) =>
      Tally(0, 1, if exists c :: c in Set(s, pid) && c.Matches(now, kind, resource) then 0 else 1)
    case Delegate(from, to, id, now) =>
      Tally(if exists c :: c in Set(Delegated(s, from, to, id, now).0, to) && c.id == s.nextId then 1 else 0, 0, 0)
    case _ => Tally(0, 0, 0)
  }

  ghost function RunTally(ops: seq<Op>): Tally {
    if ops == [] then Tally(0, 0, 0)
    else
      var init := ops[..|ops| - 1];
      var a, b := RunTally(init), TallyOf(Run(NOBODY, init), ops[|ops| - 1]);
      Tally(a.made + b.made, a.checks + b.checks, a.failed + b.failed)
  }

  lemma StepCounts(s: Manager, op: Op)
    requires Inv(s)
    ensures var s', n := Step(s, op), TallyOf(s, op);
            && s'.created == s.created + n.made && s'.nextId == s.nextId + n.made
            && s'.checks == s.checks + n.checks && s'.failed == s.failed + n.failed
  {
    if op.Delegate? {
      assert OwnIds(s, op.to);
      var s' := Delegated(s, op.from, op.to, op.id, op.now).0;
      if s' != s { assert Set(s', op.to)[|Set(s, op.to)|] in Set(s', op.to); }
    }
  }

  /** Over every run the statistics count what happened, and ids are handed out without gaps from 1. */
  lemma {:induction false} RunCounts(ops: seq<Op>)
    ensures var s, n := Run(NOBODY, ops), RunTally(ops);
            && s.created == n.made && s.nextId == n.made + 1 && s.checks == n.checks && s.failed == n.failed
  {
    if ops == [] {
    } else {
      var init := ops[..|ops| - 1];
      RunCounts(init);
      RunKeepsInv(NOBODY, init);
      StepCounts(Run(NOBODY, init), ops[|ops| - 1]);
    }
  }

  /** Removing expired capabilities never changes the answer of a check made at that time or later. */
  lemma CleanupIsInvisible(s: Manager, cleaned: nat, p: Pid, now: nat, kind: Kind, resource: Resource)
    requires cleaned <= now
    ensures Has(CleanedUp(s, cleaned), p, now, kind, resource) <==> Has(s, p, now, kind, resource)
  {
    if p in s.held {
      UnexpiredElements(s.held[p], cleaned);
    }
  }

  /** The expired capabilities of the given processes. */
  ghost function ExpiredOf(s: Manager, who: set<Pid>, now: nat): set<Capability> {
    set p, c | p in who && c in Set(s, p) && c.Expired(now) :: c
  }

  lemma {:induction false} ExpiredCount(caps: seq<Capability>, now: nat)
    requires DistinctIds(caps)
    ensures |Unexpired(caps, now)| + |set c | c in caps && c.Expired(now)| == |caps|
  {
    if caps == [] {
      assert (set c | c in caps && c.Expired(now)) == {};
    } else {
      var init, last := caps[..|caps| - 1], caps[|caps| - 1];
      ExpiredCount(init, now);
      assert caps == init + [last];
      assert last !in init;
      assert (set c | c in caps && c.Expired(now)) ==
             (set c | c in init && c.Expired(now)) + if last.Expired(now) then {last} else {};
    }
  }

  lemma ExpiredSplits(s: Manager, who: set<Pid>, p: Pid, now: nat, own: set<Capability>)
    requires p !in who && own == set c | c in Set(s, p) && c.Expired(now)
    requires forall q: Pid :: OwnIds(s, q)
    ensures |ExpiredOf(s, who + {p}, now)| == |ExpiredOf(s, who, now)| + |own|
  {
    var others := ExpiredOf(s, who, now);
    forall c
      ensures c in ExpiredOf(s, who + {p}, now) <==> c in others || c in own
    {}
    forall c | c in others
      ensures c !in own
    {
      var q :| q in who && c in Set(s, q);
      assert OwnIds(s, q) && OwnIds(s, p);
    }
    assert ExpiredOf(s, who + {p}, now) == others + own && others !! own;
  }

  /** One more process adds as many expired capabilities as its own set loses. */
  lemma ExpiredAdds(s: Manager, todo: set<Pid>, p: Pid, now: nat)
    requires Inv(s) && p in todo && p in s.held
    ensures |ExpiredOf(s, s.held.Keys - (todo - {p}), now)| ==
            |ExpiredOf(s, s.held.Keys - todo, now)| + |s.held[p]| - |Unexpired(s.held[p], now)|
  {
    var who := s.held.Keys - todo;
    assert s.held.Keys - (todo - {p}) == who + {p};
    assert OwnIds(s, p);
    ExpiredCount(Set(s, p), now);
    ExpiredSplits(s, who, p, now, set c | c in Set(s, p) && c.Expired(now));
  }

  // ---------------------------------------------------------------- the manager

  class CapabilityManager {
    var held: map<Pid, seq<Capability>>
    var nextId: nat
    var created: nat
    var checks: nat
    var failed: nat

    ghost function State(): Manager
      reads this
    {
      Manager(held, nextId, created, checks, failed)
    }

    constructor ()
      ensures State() == NOBODY && Inv(State())
    {
      held, nextId, created, checks, failed := map[], 1, 0, 0, 0;
    }

    method GrantCapability(p: Pid, kind: Kind, resource: Resource, granter: Option<Pid>) returns (r: Result<nat, Error>)
      requires Inv(State())
      modifies this
      ensures Inv(State()) && (State(), r) == Granted(old(State()), p, kind, resource, granter)
    {
      ghost var before := State();
      var c := Capability(nextId, kind, resource, p, granter, false, None);
      AddCapability(p, c);
      assert State() == Step(before, Grant(p, kind, resource, granter));
      StepKeepsInv(before, Grant(p, kind, resource, granter));
      return Ok(c.id);
    }

    method AddCapability(p: Pid, c: Capability)
      modifies this
      ensures State() == Added(old(State()), p, c)
    {
      nextId := nextId + 1;
      held := held[p := (if p in held then held[p] else []) + [c]];
      created := created + 1;
    }

    method CheckCapability(p: Pid, kind: Kind, resource: Resource, now: nat) returns (ok: bool)
      requires Inv(State())
      modifies this`checks, this`failed
      ensures Inv(State()) && (State(), ok) == Checked(old(State()), p, now, kind, resource)
    {
      StepKeepsInv(State(), Check(p, kind, resource, now));
      checks := checks + 1;
      var caps := if p in held then held[p] else [];
      ok := false;
      for i := 0 to |caps|
        invariant ok <==> exists c :: c in caps[..i] && c.Matches(now, kind, resource)
      {
        assert caps[..i + 1] == caps[..i] + [caps[i]];
        ok := ok || caps[i].Matches(now, kind, resource);
      }
      assert caps[..|caps|] == caps;
      if !ok {
        failed := failed + 1;
      }
    }

    method DelegateCapability(from: Pid, to: Pid, id: nat, now: nat) returns (r: Result<nat, Error>)
      requires Inv(State())
      modifies this
      ensures Inv(State()) && (State(), r) == Delegated(old(State()), from, to, id, now)
    {
      if from !in held {
        return Err(NotFound);
      }
      var i := IndexOf(held[from], id);
      if i == |held[from]| {
        return Err(NotFound);
      }
      var source := held[from][i];
      if !source.delegatable {
        return Err(NotDelegatable);
      }
      if source.Expired(now) {
        return Err(Error.Expired);
      }
      ghost var before := State();
      var c := Capability(nextId, source.kind, source.resource, to, Some(from), false, None);
      c := c.(expiresAt := source.expiresAt, delegatable := source.delegatable);
      AddCapability(to, c);
      assert State() == Step(before, Delegate(from, to, id, now));
      StepKeepsInv(before, Delegate(from, to, id, now));
      return Ok(c.id);
    }

    method RevokeCapability(p: Pid, id: nat) returns (r: Result<(), Error>)
      requires Inv(State())
      modifies this`held
      ensures Inv(State()) && (State(), r) == Revoked(old(State()), p, id)
    {
      StepKeepsInv(State(), Revoke(p, id));
      if p !in held {
        return Err(NotFound);
      }
      var i := IndexOf(held[p], id);
      if i == |held[p]| {
        return Err(NotFound);
      }
      held := held[p := RemoveAt(held[p], i)];
      return Ok(());
    }

    method CleanupExpired(now: nat) returns (removed: nat)
      requires Inv(State())
      modifies this`held
      ensures Inv(State()) && State() == CleanedUp(old(State()), now)
      ensures removed == |ExpiredOf(old(State()), old(held).Keys, now)|
    {
      StepKeepsInv(State(), Cleanup(now));
      removed := CleanupSets(now);
    }

    /** Every set in turn loses its expired members. */
    method CleanupSets(now: nat) returns (removed: nat)
      requires Inv(State())
      modifies this`held
      ensures State() == CleanedUp(old(State()), now)
      ensures removed == |ExpiredOf(old(State()), old(held).Keys, now)|
    {
      ghost var before := State();
      var todo := held.Keys;
      removed := 0;
      assert ExpiredOf(before, before.held.Keys - todo, now) == {};
      while todo != {}
        invariant todo <= held.Keys == before.held.Keys
        invariant forall p :: p in held ==>
                    held[p] == if p in todo then before.held[p] else Unexpired(before.held[p], now)
        invariant removed == |ExpiredOf(before, before.held.Keys - todo, now)|
      {
        var p :| p in todo;
        ExpiredAdds(before, todo, p, now);
        var kept := Unexpired(held[p], now);
        removed := removed + |held[p]| - |kept|;
        held, todo := held[p := kept], todo - {p};
      }
      assert before.held.Keys - todo == before.held.Keys;
      assert held == CleanedUp(before, now).held;
    }
  }
}
