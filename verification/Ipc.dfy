/** Sending: the process, capability and queue checks put together. */
module Ipc {
  import opened Collections
  import opened Types
  import opened MessageQueues
  import C = Capabilities

  datatype System = System(live: set<Pid>, caps: C.Manager, pending: Contents)

  datatype SendResult = Sent | NoSender | NoReceiver | PermissionDenied | NoRoom

  datatype Event =
    | Send(message: Message, now: nat)
    | Receive(pid: Pid)
    | Capability(op: C.Op)
    | Spawn(pid: Pid)
    | Exit(pid: Pid)
    | DropQueue(pid: Pid)

  /** The sender holds an unexpired SendMessage capability for the receiver (or for anything). */
  predicate Authorized(s: System, m: Message, now: nat) {
    C.Has(s.caps, m.sender, now, C.SendMessage, C.Process(m.receiver))
  }

  function QueueOf(c: Contents, p: Pid): seq<Message> {
    if p in c then c[p] else []
  }

  predicate Room(pending: seq<Message>, m: Message, sizes: Sizes) {
    |pending| < MAX_MESSAGES && SumSizes(pending, sizes) + TotalSize(m, sizes) <= MAX_QUEUE_BYTES
  }

  /** send_message: the tests in their order, then the receiver's queue. */
  function SendStep(s: System, m: Message, now: nat, sizes: Sizes): (System, SendResult) {
    if m.sender !in s.live then (s, NoSender)
    else if m.receiver !in s.live then (s, NoReceiver)
    else
      var s1 := s.(caps := C.Checked(s.caps, m.sender, now, C.SendMessage, C.Process(m.receiver)).0);
      if !Authorized(s, m, now) then (s1, PermissionDenied)
      else
        var before := QueueOf(s.pending, m.receiver);
        if Room(before, m, sizes) then (s1.(pending := s.pending[m.receiver := before + [m]]), Sent)
        else (s1.(pending := s.pending[m.receiver := before]), NoRoom)
  }

  function ReceiveStep(s: System, p: Pid): (System, Result<Message, Error>) {
    if p !in s.live || p !in s.pending then (s, Err(ReceiverNotFound))
    else if s.pending[p] == [] then (s, Err(NoMessage))
    else
      var k := MostUrgent(s.pending[p]);
      (s.(pending := s.pending[p := RemoveAt(s.pending[p], k)]), Ok(s.pending[p][k]))
  }

  function Step(s: System, e: Event, sizes: Sizes): System {
    match e
    case Send(m, now) => SendStep(s, m, now, sizes).0
    case Receive(p) => ReceiveStep(s, p).0
    case Capability(op) => s.(caps := C.Step(s.caps, op))
    case Spawn(p) => s.(live := s.live + {p})
    case Exit(p) => s.(live := s.live - {p})
    case DropQueue(p) => s.(pending := s.pending - {p})
  }

  function Run(s: System, events: seq<Event>, sizes: Sizes): System {
    if events == [] then s else Step(Run(s, events[..|events| - 1], sizes), events[|events| - 1], sizes)
  }

  /** The message is in the queue because of an authorized send at event k. */
  ghost predicate SentAt(s0: System, events: seq<Event>, sizes: Sizes, m: Message, p: Pid, k: nat) {
    && k < |events| && events[k].Send? && events[k].message == m && m.receiver == p
    && var s := Run(s0, events[..k], sizes);
       m.sender in s.live && m.receiver in s.live && Authorized(s, m, events[k].now)
  }

  /** A send is accepted exactly when all four tests pass, and changes the receiver's queue only. */
  lemma SentIff(s: System, m: Message, now: nat, sizes: Sizes, q: Pid)
    ensures SendStep(s, m, now, sizes).1 == Sent <==>
            && m.sender in s.live && m.receiver in s.live && Authorized(s, m, now)
            && Room(QueueOf(s.pending, m.receiver), m, sizes)
    ensures QueueOf(SendStep(s, m, now, sizes).0.pending, q) ==
            QueueOf(s.pending, q) + if q == m.receiver && SendStep(s, m, now, sizes).1 == Sent then [m] else []
  {}

  /** A message more urgent than everything waiting is the next one received, and leaves the queue as it was. */
  lemma UrgentSendThenReceive(s: System, m: Message, now: nat, sizes: Sizes)
    requires SendStep(s, m, now, sizes).1 == Sent
    requires forall x :: x in QueueOf(s.pending, m.receiver) ==> m.priority < x.priority
    ensures var (s', r) := ReceiveStep(SendStep(s, m, now, sizes).0, m.receiver);
            r == Ok(m) && QueueOf(s'.pending, m.receiver) == QueueOf(s.pending, m.receiver)
  {
    var before := QueueOf(s.pending, m.receiver);
    var all := before + [m];
    forall j | 0 <= j < |before|
      ensures m.priority < all[j].priority
    {
      assert before[j] in before;
    }
    assert MostUrgent(all) == |before|;
    assert RemoveAt(all, |before|) == before;
  }

  /** A queue grows only by an authorized send to its owner. */
  lemma StepPending(s: System, e: Event, sizes: Sizes, p: Pid, m: Message)
    requires m in QueueOf(Step(s, e, sizes).pending, p)
    ensures m in QueueOf(s.pending, p) ||
            (e.Send? && e.message == m && m.receiver == p && {m.sender, p} <= s.live && Authorized(s, m, e.now))
  {
    if e.Receive? && e.pid == p && QueueOf(s.pending, p) != [] {
      assert forall x :: x in RemoveAt(s.pending[p], MostUrgent(s.pending[p])) ==> x in s.pending[p];
    }
  }

  /**
   Over every run that starts with empty queues, each pending message was put there by a send whose
   sender, at that moment, held a matching unexpired SendMessage capability.
   */
  lemma {:induction false} EveryMessageWasAuthorized(s0: System, events: seq<Event>, sizes: Sizes, p: Pid, m: Message)
    returns (k: nat)
    requires forall q :: q in s0.pending ==> s0.pending[q] == []
    requires m in QueueOf(Run(s0, events, sizes).pending, p)
    ensures SentAt(s0, events, sizes, m, p, k)
  {
    var n := |events| - 1;
    var init := events[..n];
    var s := Run(s0, init, sizes);
    StepPending(s, events[n], sizes, p, m);
    if m in QueueOf(s.pending, p) {
      k := EveryMessageWasAuthorized(s0, init, sizes, p, m);
      assert init[..k] == events[..k];
    } else {
      k := n;
    }
  }

  // ---------------------------------------------------------------- no message is lost or made up

  /** What happened to the messages of one receiver: those accepted, those received, those dropped with the queue. */
  datatype Ledger = Ledger(accepted: multiset<Message>, received: multiset<Message>, dropped: multiset<Message>)

  function Entry(s: System, e: Event, sizes: Sizes, p: Pid): Ledger {
    Ledger(
      if e.Send? && e.message.receiver == p && SendStep(s, e.message, e.now, sizes).1 == Sent
      then multiset{e.message} else multiset{},
      if e.Receive? && e.pid == p && ReceiveStep(s, p).1.Ok? then multiset{ReceiveStep(s, p).1.value} else multiset{},
      if e.DropQueue? && e.pid == p then multiset(QueueOf(s.pending, p)) else multiset{})
  }

  function Account(s0: System, events: seq<Event>, sizes: Sizes, p: Pid): Ledger {
    if events == [] then Ledger(multiset{}, multiset{}, multiset{})
    else
      var init := events[..|events| - 1];
      var before := Account(s0, init, sizes, p);
      var now := Entry(Run(s0, init, sizes), events[|events| - 1], sizes, p);
      Ledger(before.accepted + now.accepted, before.received + now.received, before.dropped + now.dropped)
  }

  lemma SendConserves(s: System, m: Message, now: nat, sizes: Sizes, p: Pid)
    ensures multiset(QueueOf(SendStep(s, m, now, sizes).0.pending, p)) ==
            multiset(QueueOf(s.pending, p)) +
            if m.receiver == p && SendStep(s, m, now, sizes).1 == Sent then multiset{m} else multiset{}
  {
    SentIff(s, m, now, sizes, p);
  }

  lemma ReceiveConserves(s: System, q: Pid, p: Pid)
    ensures multiset(QueueOf(s.pending, p)) ==
            multiset(QueueOf(ReceiveStep(s, q).0.pending, p)) +
            if q == p && ReceiveStep(s, p).1.Ok? then multiset{ReceiveStep(s, p).1.value} else multiset{}
  {
    if q == p && ReceiveStep(s, p).1.Ok? {
      RemoveAtMultiset(s.pending[p], MostUrgent(s.pending[p]));
    }
  }

  lemma DropConserves(s: System, q: Pid, p: Pid)
    ensures QueueOf((s.pending - {q}), p) == if q == p then [] else QueueOf(s.pending, p)
  {}

  lemma StepConserves(s: System, e: Event, sizes: Sizes, p: Pid)
    ensures var now := Entry(s, e, sizes, p);
            multiset(QueueOf(s.pending, p)) + now.accepted ==
            multiset(QueueOf(Step(s, e, sizes).pending, p)) + now.received + now.dropped
  {
    match e
    case Send(m, now) => SendConserves(s, m, now, sizes, p);
    case Receive(q) => ReceiveConserves(s, q, p);
    case DropQueue(q) => DropConserves(s, q, p);
    case _ =>
  }

  lemma BalancesAdd(before: multiset<Message>, between: multiset<Message>, after: multiset<Message>,
                    a: Ledger, b: Ledger)
    requires before + a.accepted == between + a.received + a.dropped
    requires between + b.accepted == after + b.received + b.dropped
    ensures before + (a.accepted + b.accepted) == after + (a.received + b.received) + (a.dropped + b.dropped)
  {
    assert before + (a.accepted + b.accepted) == (before + a.accepted) + b.accepted;
    assert (between + a.received + a.dropped) + b.accepted == (between + b.accepted) + a.received + a.dropped;
  }

  /**
   In every run, whatever was waiting for p or was accepted for it is still waiting, was received, or was
   dropped with its queue: each message exactly as often.
   */
  lemma {:induction false} MessagesAreConserved(s0: System, events: seq<Event>, sizes: Sizes, p: Pid)
    ensures var a := Account(s0, events, sizes, p);
            multiset(QueueOf(s0.pending, p)) + a.accepted ==
            multiset(QueueOf(Run(s0, events, sizes).pending, p)) + a.received + a.dropped
  {
    if events == [] {
    } else {
      var init, e := events[..|events| - 1], events[|events| - 1];
      var s := Run(s0, init, sizes);
      MessagesAreConserved(s0, init, sizes, p);
      StepConserves(s, e, sizes, p);
      BalancesAdd(multiset(QueueOf(s0.pending, p)), multiset(QueueOf(s.pending, p)),
                  multiset(QueueOf(Step(s, e, sizes).pending, p)), Account(s0, init, sizes, p), Entry(s, e, sizes, p));
    }
  }

  /** send_message over the two managers. */
  method SendMessage(live: set<Pid>, caps: C.CapabilityManager, queues: MessageQueueManager, m: Message, now: nat)
    returns (r: SendResult)
    requires C.Inv(caps.State()) && queues.Valid()
    modifies caps, queues
    ensures C.Inv(caps.State()) && queues.Valid() && queues.dropped == old(queues.dropped)
    ensures (System(live, caps.State(), queues.pending), r)
         == SendStep(System(live, old(caps.State()), old(queues.pending)), m, now, queues.sizes)
    ensures r == NoSender <==> m.sender !in live
    ensures r == NoReceiver <==> m.sender in live && m.receiver !in live
    ensures r == PermissionDenied <==>
            && m.sender in live && m.receiver in live
            && !C.Has(old(caps.State()), m.sender, now, C.SendMessage, C.Process(m.receiver))
    ensures caps.State().held == old(caps.State().held)
    ensures r != Sent ==> QueueOf(queues.pending, m.receiver) == QueueOf(old(queues.pending), m.receiver)
  {
    if m.sender !in live {
      return NoSender;
    }
    if m.receiver !in live {
      return NoReceiver;
    }
    var ok := caps.CheckCapability(m.sender, C.SendMessage, C.Process(m.receiver), now);
    if !ok {
      return PermissionDenied;
    }
    var result := queues.EnqueueMessage(m.receiver, m);
    return if result.Ok? then Sent else NoRoom;
  }

  /** receive_message: any process may receive what was sent to it. */
  method ReceiveMessage(live: set<Pid>, queues: MessageQueueManager, p: Pid, ghost caps: C.Manager)
    returns (r: Result<Message, Error>)
    requires queues.Valid()
    modifies queues
    ensures queues.Valid() && queues.dropped == old(queues.dropped)
    ensures (System(live, caps, queues.pending), r) == ReceiveStep(System(live, caps, old(queues.pending)), p)
    ensures r == Err(ReceiverNotFound) <==> p !in live || p !in old(queues.pending)
    ensures r == Err(NoMessage) <==> p in live && p in old(queues.pending) && old(queues.pending)[p] == []
    ensures r.Err? ==> queues.pending == old(queues.pending)
  {
    if p !in live {
      return Err(ReceiverNotFound);
    }
    r := queues.DequeueMessage(p);
  }
}
