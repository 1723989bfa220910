/** Bounded per-process message queues, delivered by priority and then by age. */
module MessageQueues {
  import opened Collections
  import opened Types

  const MAX_MESSAGES: nat := 256
  const MAX_QUEUE_BYTES: nat := 64 * 1024

  datatype Payload =
    | Empty
    | Bytes(data: seq<Byte>)
    | Text(utf8: seq<Byte>)
    | Structured(typeId: nat, data: seq<Byte>)
    | SystemCall(callNumber: nat, args: seq<nat>)
    | ErrorInfo(code: nat, text: seq<Byte>)

  /** Type, timestamp, reply link and flags travel along but no operation here looks at them. */
  datatype Message = Message(id: nat, sender: Pid, receiver: Pid, priority: Byte, payload: Payload, capabilities: nat)

  /** Sizes of the header and of one attached capability, which the compiler chooses. */
  datatype Sizes = Sizes(header: nat, capability: nat)

  datatype Error = QueueFull | NoMessage | ReceiverNotFound

  function PayloadSize(p: Payload): nat {
    match p
    case Empty => 0
    case Bytes(data) => |data|
    case Text(utf8) => |utf8|
    case Structured(_, data) => |data| + 4
    case SystemCall(_, _) => 4 + 6 * 8
    case ErrorInfo(_, text) => 4 + |text|
  }

  function TotalSize(m: Message, sizes: Sizes): nat {
    sizes.header + PayloadSize(m.payload) + m.capabilities * sizes.capability
  }

  /** Bytes of content a payload carries. */
  function ContentBytes(p: Payload): nat {
    match p
    case Bytes(data) => |data|
    case Text(utf8) => |utf8|
    case Structured(_, data) => |data|
    case ErrorInfo(_, text) => |text|
    case _ => 0
  }

  /**
   A message takes its header, every byte of its content, four bytes for a type or error code, fifty-two for a
   system call, and the room of each capability it carries.
   */
  lemma SizeMeaning(m: Message, sizes: Sizes)
    ensures m.payload == Empty && m.capabilities == 0 ==> TotalSize(m, sizes) == sizes.header
    ensures TotalSize(m.(capabilities := m.capabilities + 1), sizes) == TotalSize(m, sizes) + sizes.capability
    ensures TotalSize(m, sizes) == TotalSize(m.(payload := Empty), sizes) + ContentBytes(m.payload)
                                   + (if m.payload.SystemCall? then 52
                                      else if m.payload.Structured? || m.payload.ErrorInfo? then 4 else 0)
  {
    assert (m.capabilities + 1) * sizes.capability == m.capabilities * sizes.capability + sizes.capability;
  }

  function TotalContent(ms: seq<Message>): nat {
    if ms == [] then 0 else ContentBytes(ms[0].payload) + TotalContent(ms[1..])
  }

  lemma {:induction false} ContentCounts(ms: seq<Message>, sizes: Sizes)
    ensures TotalContent(ms) + |ms| * sizes.header <= SumSizes(ms, sizes)
  {
    if ms == [] {
    } else {
      ContentCounts(ms[1..], sizes);
      SizeMeaning(ms[0], sizes);
      assert |ms| * sizes.header == (|ms| - 1) * sizes.header + sizes.header;
      assert TotalSize(ms[0], sizes) >= sizes.header + ContentBytes(ms[0].payload);
    }
  }

  function SumSizes(ms: seq<Message>, sizes: Sizes): nat {
    if ms == [] then 0 else TotalSize(ms[0], sizes) + SumSizes(ms[1..], sizes)
  }

  // ---------------------------------------------------------------- delivery order

  /** Index in arrival order of the oldest message of the most urgent (numerically smallest) priority. */
  function MostUrgent(pending: seq<Message>): (k: nat)
    requires pending != []
    ensures k < |pending|
    ensures forall j :: 0 <= j < |pending| ==> pending[k].priority <= pending[j].priority
    ensures forall j :: 0 <= j < k ==> pending[k].priority < pending[j].priority
  {
    if |pending| == 1 then 0
    else
      var k := MostUrgent(pending[..|pending| - 1]);
      if pending[|pending| - 1].priority < pending[k].priority then |pending| - 1 else k
  }

  /** The order in which messages pending in arrival order must be delivered: always the most urgent next. */
  function Order(pending: seq<Message>): seq<Message>
    decreases |pending|
  {
    if pending == [] then []
    else var k := MostUrgent(pending); [pending[k]] + Order(RemoveAt(pending, k))
  }

  /** Before the first less urgent message, at the end if there is none. */
  function InsertPosition(ms: seq<Message>, priority: nat): (i: nat)
    ensures i <= |ms|
    ensures forall j :: 0 <= j < i ==> ms[j].priority <= priority
    ensures i < |ms| ==> ms[i].priority > priority
  {
    if ms == [] || ms[0].priority > priority then 0 else 1 + InsertPosition(ms[1..], priority)
  }

  /** Inserting before the first less urgent message keeps the delivery order. */
  lemma {:induction false} InsertKeepsOrder(pending: seq<Message>, m: Message)
    ensures InsertAt(Order(pending), InsertPosition(Order(pending), m.priority), m) == Order(pending + [m])
    decreases |pending|
  {
    var all := pending + [m];
    assert all[..|pending|] == pending;
    if pending == [] {
      assert RemoveAt(all, 0) == [];
    } else {
      var k := MostUrgent(pending);
      if m.priority < pending[k].priority {
        assert MostUrgent(all) == |pending| && RemoveAt(all, |pending|) == pending;
      } else {
        var rest := RemoveAt(pending, k);
        assert MostUrgent(all) == k && RemoveAt(all, k) == rest + [m];
        InsertKeepsOrder(rest, m);
        InsertAfterHead(pending[k], Order(rest), m);
      }
    }
  }

  lemma InsertAfterHead(x: Message, ms: seq<Message>, m: Message)
    requires x.priority <= m.priority
    ensures InsertAt([x] + ms, InsertPosition([x] + ms, m.priority), m) ==
            [x] + InsertAt(ms, InsertPosition(ms, m.priority), m)
  {
    assert ([x] + ms)[1..] == ms;
  }

  /** Nothing is lost or invented: the delivery order is a permutation of what is pending. */
  lemma {:induction false} OrderPermutes(pending: seq<Message>)
    ensures multiset(Order(pending)) == multiset(pending)
    decreases |pending|
  {
    if pending == [] {
    } else {
      var k := MostUrgent(pending);
      OrderPermutes(RemoveAt(pending, k));
      RemoveAtMultiset(pending, k);
    }
  }

  lemma {:induction false} SumSizesInsert(ms: seq<Message>, i: nat, m: Message, sizes: Sizes)
    requires i <= |ms|
    ensures SumSizes(InsertAt(ms, i, m), sizes) == SumSizes(ms, sizes) + TotalSize(m, sizes)
  {
    var all := InsertAt(ms, i, m);
    if i == 0 {
      assert all[1..] == ms;
    } else {
      SumSizesInsert(ms[1..], i - 1, m, sizes);
      assert all[1..] == InsertAt(ms[1..], i - 1, m);
    }
  }

  lemma SumSizesSplit(pending: seq<Message>, k: nat, sizes: Sizes)
    requires k < |pending|
    ensures SumSizes(pending, sizes) == SumSizes(RemoveAt(pending, k), sizes) + TotalSize(pending[k], sizes)
  {
    SumSizesInsert(RemoveAt(pending, k), k, pending[k], sizes);
    assert InsertAt(RemoveAt(pending, k), k, pending[k]) == pending;
  }

  lemma {:induction false} OrderLength(pending: seq<Message>)
    ensures |Order(pending)| == |pending|
    decreases |pending|
  {
    if pending == [] {
    } else {
      OrderLength(RemoveAt(pending, MostUrgent(pending)));
    }
  }

  // ---------------------------------------------------------------- one queue

  datatype Queue = Queue(messages: seq<Message>, totalSize: nat, received: nat, fullCount: nat)

  const EMPTY_QUEUE := Queue([], 0, 0, 0)

  predicate CanAccept(q: Queue, m: Message, sizes: Sizes) {
    |q.messages| < MAX_MESSAGES && q.totalSize + TotalSize(m, sizes) <= MAX_QUEUE_BYTES
  }

  function Enqueued(q: Queue, m: Message, sizes: Sizes): (Queue, Result<(), Error>) {
    if CanAccept(q, m, sizes)
    then (q.(messages := InsertAt(q.messages, InsertPosition(q.messages, m.priority), m),
             totalSize := q.totalSize + TotalSize(m, sizes), received := q.received + 1), Ok(()))
    else (q.(fullCount := q.fullCount + 1), Err(QueueFull))
  }

  function SaturatingSub(a: nat, b: nat): nat {
    if a >= b then a - b else 0
  }

  function Dequeued(q: Queue, sizes: Sizes): (Queue, Result<Message, Error>) {
    if q.messages == [] then (q, Err(NoMessage))
    else (q.(messages := q.messages[1..], totalSize := SaturatingSub(q.totalSize, TotalSize(q.messages[0], sizes))),
          Ok(q.messages[0]))
  }

  /** The queue holds the given messages, listed in arrival order, within its limits and with an exact byte count. */
  ghost predicate Holds(q: Queue, pending: seq<Message>, sizes: Sizes) {
    && q.messages == Order(pending)
    && q.totalSize == SumSizes(pending, sizes) <= MAX_QUEUE_BYTES
    && |pending| <= MAX_MESSAGES
  }

  lemma EnqueueHolds(q: Queue, pending: seq<Message>, m: Message, sizes: Sizes)
    requires Holds(q, pending, sizes)
    ensures var (q', r) := Enqueued(q, m, sizes);
            && r == (if |pending| < MAX_MESSAGES && SumSizes(pending, sizes) + TotalSize(m, sizes) <= MAX_QUEUE_BYTES
                     then Ok(()) else Err(QueueFull))
            && Holds(q', if r.Ok? then pending + [m] else pending, sizes)
  {
    OrderLength(pending);
    InsertKeepsOrder(pending, m);
    SumSizesInsert(pending, |pending|, m, sizes);
    assert InsertAt(pending, |pending|, m) == pending + [m];
  }

  /** Delivery takes the oldest pending message of the most urgent priority, and the byte count never saturates. */
  lemma DequeueHolds(q: Queue, pending: seq<Message>, sizes: Sizes)
    requires Holds(q, pending, sizes)
    ensures var (q', r) := Dequeued(q, sizes);
            if pending == [] then r == Err(NoMessage) && q' == q
            else var k := MostUrgent(pending);
                 && r == Ok(pending[k])
                 && TotalSize(pending[k], sizes) <= q.totalSize
                 && Holds(q', RemoveAt(pending, k), sizes)
  {
    if pending != [] {
      SumSizesSplit(pending, MostUrgent(pending), sizes);
    }
  }

  /** Whatever a queue holds, content and headers together stay within its byte limit. */
  lemma HeldContentIsBounded(q: Queue, pending: seq<Message>, sizes: Sizes)
    requires Holds(q, pending, sizes)
    ensures TotalContent(pending) + |pending| * sizes.header <= MAX_QUEUE_BYTES && |pending| <= MAX_MESSAGES
  {
    ContentCounts(pending, sizes);
  }

  datatype Op = Enq(message: Message) | Deq

  datatype Output = Accepted | Delivered(message: Message) | Refused(error: Error)

  /** What a queue answers to a sequence of calls. */
  function Serve(q: Queue, ops: seq<Op>, sizes: Sizes): seq<Output>
    decreases |ops|
  {
    if ops == [] then []
    else match ops[0]
      case Enq(m) =>
        var (q', r) := Enqueued(q, m, sizes);
        [if r.Ok? then Accepted else Refused(r.error)] + Serve(q', ops[1..], sizes)
      case Deq =>
        var (q', r) := Dequeued(q, sizes);
        [if r.Ok? then Delivered(r.value) else Refused(r.error)] + Serve(q', ops[1..], sizes)
  }

  /** The queue after the calls. */
  function Served(q: Queue, ops: seq<Op>, sizes: Sizes): Queue
    decreases |ops|
  {
    if ops == [] then q
    else Served(if ops[0].Enq? then Enqueued(q, ops[0].message, sizes).0 else Dequeued(q, sizes).0, ops[1..], sizes)
  }

  function CountOf(outputs: seq<Output>, o: Output): nat {
    if outputs == [] then 0 else (if outputs[0] == o then 1 else 0) + CountOf(outputs[1..], o)
  }

  /** Over every run of calls the queue's own statistics count the messages it accepted and those it refused. */
  lemma {:induction false} CountersMatchAnswers(q: Queue, ops: seq<Op>, sizes: Sizes)
    ensures Served(q, ops, sizes).received == q.received + CountOf(Serve(q, ops, sizes), Accepted)
    ensures Served(q, ops, sizes).fullCount == q.fullCount + CountOf(Serve(q, ops, sizes), Refused(QueueFull))
    decreases |ops|
  {
    if ops == [] {
    } else {
      var q' := if ops[0].Enq? then Enqueued(q, ops[0].message, sizes).0 else Dequeued(q, sizes).0;
      CountersMatchAnswers(q', ops[1..], sizes);
      assert Serve(q, ops, sizes)[1..] == Serve(q', ops[1..], sizes);
    }
  }

  /** What it should answer: a plain list in arrival order, searched for the most urgent at each delivery. */
  function Reference(pending: seq<Message>, ops: seq<Op>, sizes: Sizes): seq<Output>
    decreases |ops|
  {
    if ops == [] then []
    else match ops[0]
      case Enq(m) =>
        if |pending| < MAX_MESSAGES && SumSizes(pending, sizes) + TotalSize(m, sizes) <= MAX_QUEUE_BYTES
        then [Accepted] + Reference(pending + [m], ops[1..], sizes)
        else [Refused(QueueFull)] + Reference(pending, ops[1..], sizes)
      case Deq =>
        if pending == [] then [Refused(NoMessage)] + Reference(pending, ops[1..], sizes)
        else
          var k := MostUrgent(pending);
          [Delivered(pending[k])] + Reference(RemoveAt(pending, k), ops[1..], sizes)
  }

  lemma EnqRefines(q: Queue, pending: seq<Message>, m: Message, rest: seq<Op>, sizes: Sizes)
    requires Holds(q, pending, sizes)
    requires var (q', r) := Enqueued(q, m, sizes); var pending' := if r.Ok? then pending + [m] else pending;
             Serve(q', rest, sizes) == Reference(pending', rest, sizes)
    ensures Serve(q, [Enq(m)] + rest, sizes) == Reference(pending, [Enq(m)] + rest, sizes)
  {
    assert ([Enq(m)] + rest)[1..] == rest;
    EnqueueHolds(q, pending, m, sizes);
  }

  lemma DeqRefines(q: Queue, pending: seq<Message>, rest: seq<Op>, sizes: Sizes)
    requires Holds(q, pending, sizes)
    requires var pending' := if pending == [] then pending else RemoveAt(pending, MostUrgent(pending));
             Serve(Dequeued(q, sizes).0, rest, sizes) == Reference(pending', rest, sizes)
    ensures Serve(q, [Deq] + rest, sizes) == Reference(pending, [Deq] + rest, sizes)
  {
    assert ([Deq] + rest)[1..] == rest;
    DequeueHolds(q, pending, sizes);
  }

  /** Under every interleaving of calls the queue answers exactly as the reference does. */
  lemma {:induction false} QueueRefinesReference(q: Queue, pending: seq<Message>, ops: seq<Op>, sizes: Sizes)
    requires Holds(q, pending, sizes)
    ensures Serve(q, ops, sizes) == Reference(pending, ops, sizes)
    decreases |ops|
  {
    if ops == [] {
    } else {
      var rest := ops[1..];
      assert ops == [ops[0]] + rest;
      match ops[0]
      case Enq(m) =>
        EnqueueHolds(q, pending, m, sizes);
        var (q', r) := Enqueued(q, m, sizes);
        QueueRefinesReference(q', if r.Ok? then pending + [m] else pending, rest, sizes);
        EnqRefines(q, pending, m, rest, sizes);
      case Deq =>
        DequeueHolds(q, pending, sizes);
        var pending' := if pending == [] then pending else RemoveAt(pending, MostUrgent(pending));
        QueueRefinesReference(Dequeued(q, sizes).0, pending', rest, sizes);
        DeqRefines(q, pending, rest, sizes);
    }
  }

  class MessageQueue {
    const processId: Pid
    const sizes: Sizes
    var messages: seq<Message>
    var totalSize: nat
    var messagesReceived: nat
    var queueFullCount: nat

    function State(): Queue
      reads this
    {
      Queue(messages, totalSize, messagesReceived, queueFullCount)
    }

    constructor (processId: Pid, sizes: Sizes)
      ensures State() == EMPTY_QUEUE && Holds(State(), [], sizes) && this.sizes == sizes
    {
      this.processId, this.sizes := processId, sizes;
      messages, totalSize, messagesReceived, queueFullCount := [], 0, 0, 0;
    }

    method Enqueue(m: Message) returns (r: Result<(), Error>)
      modifies this
      ensures (State(), r) == Enqueued(old(State()), m, sizes)
    {
      var size := TotalSize(m, sizes);
      if |messages| >= MAX_MESSAGES || totalSize + size > MAX_QUEUE_BYTES {
        queueFullCount := queueFullCount + 1;
        return Err(QueueFull);
      }
      var position := 0;
      while position < |messages| && messages[position].priority <= m.priority
        invariant position <= |messages|
        invariant forall j :: 0 <= j < position ==> messages[j].priority <= m.priority
      {
        position := position + 1;
      }
      messages := InsertAt(messages, position, m);
      totalSize := totalSize + size;
      messagesReceived := messagesReceived + 1;
      return Ok(());
    }

    method Dequeue() returns (r: Result<Message, Error>)
      modifies this
      ensures (State(), r) == Dequeued(old(State()), sizes)
    {
      if messages == [] {
        return Err(NoMessage);
      }
      var m := messages[0];
      messages := messages[1..];
      totalSize := SaturatingSub(totalSize, TotalSize(m, sizes));
      return Ok(m);
    }
  }

  // ---------------------------------------------------------------- all queues

  type Contents = map<Pid, seq<Message>>

  /** The places messages wait at: the i-th pending message of process p. */
  ghost function Places(c: Contents): set<(Pid, nat)> {
    set p, i | p in c && 0 <= i < |c[p]| :: (p, i)
  }

  /** Messages pending in all queues together. */
  ghost function PendingCount(c: Contents): nat {
    |Places(c)|
  }

  lemma {:induction false} ColumnCount(p: Pid, n: nat)
    ensures |set i | 0 <= i < n :: (p, i)| == n
  {
    if n == 0 {
    } else {
      ColumnCount(p, n - 1);
      assert (set i | 0 <= i < n :: (p, i)) == (set i | 0 <= i < n - 1 :: (p, i)) + {(p, n - 1)};
    }
  }

  lemma PendingSplit(c: Contents, p: Pid)
    requires p in c
    ensures PendingCount(c) == |c[p]| + PendingCount(c - {p})
  {
    ColumnCount(p, |c[p]|);
    assert Places(c) == Places(c - {p}) + set i | 0 <= i < |c[p]| :: (p, i);
  }

  lemma PendingUpdate(c: Contents, p: Pid, ms: seq<Message>)
    ensures PendingCount(c[p := ms]) == PendingCount(c) + |ms| - if p in c then |c[p]| else 0
  {
    PendingSplit(c[p := ms], p);
    if p in c {
      PendingSplit(c, p);
      assert c[p := ms] - {p} == c - {p};
    } else {
      assert c[p := ms] - {p} == c;
    }
  }

  lemma UpdateTwice(c: Contents, p: Pid, a: seq<Message>, b: seq<Message>)
    ensures c[p := a][p := b] == c[p := b]
  {}

  ghost predicate HoldsAt(queues: map<Pid, Queue>, pending: Contents, sizes: Sizes, p: Pid) {
    p in queues && p in pending ==> Holds(queues[p], pending[p], sizes)
  }

  ghost predicate AllHold(queues: map<Pid, Queue>, pending: Contents, sizes: Sizes) {
    && queues.Keys == pending.Keys
    && forall p {:trigger HoldsAt(queues, pending, sizes, p)} :: HoldsAt(queues, pending, sizes, p)
  }

  lemma AllHoldPut(queues: map<Pid, Queue>, pending: Contents, sizes: Sizes, p: Pid, queue: Queue, ms: seq<Message>)
    requires AllHold(queues, pending, sizes) && Holds(queue, ms, sizes)
    ensures AllHold(queues[p := queue], pending[p := ms], sizes)
  {
    var queues', pending' := queues[p := queue], pending[p := ms];
    forall q
      ensures HoldsAt(queues', pending', sizes, q)
    {
      assert HoldsAt(queues, pending, sizes, q);
    }
  }

  lemma AllHoldDrop(queues: map<Pid, Queue>, pending: Contents, sizes: Sizes, p: Pid)
    requires AllHold(queues, pending, sizes)
    ensures AllHold(queues - {p}, pending - {p}, sizes)
  {
    var queues', pending' := queues - {p}, pending - {p};
    forall q
      ensures HoldsAt(queues', pending', sizes, q)
    {
      assert HoldsAt(queues, pending, sizes, q);
    }
  }

  class MessageQueueManager {
    const sizes: Sizes
    var queues: map<Pid, Queue>
    var totalMessages: nat
    var totalQueuesCreated: nat
    ghost var pending: Contents  // per queue, in arrival order
    ghost var dropped: nat  // messages lost with the queues that were removed

    /** The total is what is pending plus what was dropped by removing queues. */
    ghost predicate Valid()
      reads this
    {
      && AllHold(queues, pending, sizes)
      && totalMessages == PendingCount(pending) + dropped
    }

    constructor (sizes: Sizes)
      ensures Valid() && pending == map[] && totalMessages == totalQueuesCreated == dropped == 0
      ensures this.sizes == sizes
    {
      this.sizes := sizes;
      queues, totalMessages, totalQueuesCreated, pending, dropped := map[], 0, 0, map[], 0;
    }

    method CreateQueue(p: Pid) returns (created: bool)
      requires Valid()
      modifies this
      ensures Valid() && created == (p !in old(pending)) && dropped == old(dropped)
      ensures pending == if created then old(pending)[p := []] else old(pending)
      ensures totalMessages == old(totalMessages)
      ensures totalQueuesCreated == old(totalQueuesCreated) + if created then 1 else 0
    {
      if p in queues {
        return false;
      }
      PendingUpdate(pending, p, []);
      AllHoldPut(queues, pending, sizes, p, EMPTY_QUEUE, []);
      queues := queues[p := EMPTY_QUEUE];
      pending := pending[p := []];
      totalQueuesCreated := totalQueuesCreated + 1;
      return true;
    }

    /** The receiver's queue is created on demand; the total counts what was accepted. */
    method EnqueueMessage(p: Pid, m: Message) returns (r: Result<(), Error>)
      requires Valid()
      modifies this
      ensures Valid() && dropped == old(dropped)
      ensures var before := if p in old(pending) then old(pending)[p] else [];
              && r == (if |before| < MAX_MESSAGES && SumSizes(before, sizes) + TotalSize(m, sizes) <= MAX_QUEUE_BYTES
                       then Ok(()) else Err(QueueFull))
              && (r.Ok? ==> pending == old(pending)[p := before + [m]])
              && (r.Err? ==> pending == old(pending)[p := before])
      ensures totalMessages == old(totalMessages) + if r.Ok? then 1 else 0
    {
      var created := CreateQueue(p);
      ghost var before := pending[p];
      var (queue, result) := Enqueued(queues[p], m, sizes);
      assert HoldsAt(queues, pending, sizes, p);
      EnqueueHolds(queues[p], before, m, sizes);
      ghost var after := if result.Ok? then before + [m] else before;
      Replace(p, queue, after, if result.Ok? then totalMessages + 1 else totalMessages);
      UpdateTwice(old(pending), p, [], after);
      return result;
    }

    /** Put back a queue with what it now holds, and the total that goes with it. */
    method Replace(p: Pid, queue: Queue, ghost ms: seq<Message>, total: nat)
      requires Valid() && p in queues && Holds(queue, ms, sizes) && total == totalMessages + |ms| - |pending[p]|
      modifies this`queues, this`pending, this`totalMessages
      ensures Valid() && pending == old(pending)[p := ms] && totalMessages == total
    {
      PendingUpdate(pending, p, ms);
      AllHoldPut(queues, pending, sizes, p, queue, ms);
      queues := queues[p := queue];
      pending := pending[p := ms];
      totalMessages := total;
    }

    /** Put back a queue that has lost its k-th message, and count it. */
    method Deliver(p: Pid, queue: Queue, ghost k: nat)
      requires Valid() && p in queues && k < |pending[p]| && Holds(queue, RemoveAt(pending[p], k), sizes)
      modifies this`queues, this`pending, this`totalMessages
      ensures Valid() && pending == old(pending)[p := RemoveAt(old(pending)[p], k)]
      ensures totalMessages == old(totalMessages) - 1
    {
      PendingSplit(pending, p);
      Replace(p, queue, RemoveAt(pending[p], k), totalMessages - 1);
    }

    /** `totalMessages` is a nat: the saturating decrement never saturates. */
    method DequeueMessage(p: Pid) returns (r: Result<Message, Error>)
      requires Valid()
      modifies this
      ensures Valid() && dropped == old(dropped)
      ensures r == if p !in old(pending) then Err(ReceiverNotFound)
                   else if old(pending)[p] == [] then Err(NoMessage)
                   else Ok(old(pending)[p][MostUrgent(old(pending)[p])])
      ensures pending == if r.Ok? then old(pending)[p := RemoveAt(old(pending)[p], MostUrgent(old(pending)[p]))]
                         else old(pending)
      ensures totalMessages == old(totalMessages) - if r.Ok? then 1 else 0
    {
      if p !in queues {
        return Err(ReceiverNotFound);
      }
      var (queue, result) := Dequeued(queues[p], sizes);
      assert HoldsAt(queues, pending, sizes, p);
      DequeueHolds(queues[p], pending[p], sizes);
      if result.Ok? {
        Deliver(p, queue, MostUrgent(pending[p]));
      }
      return result;
    }

    /** The queue is handed back; its pending messages stay in the total. */
    method RemoveQueue(p: Pid) returns (removed: Option<Queue>)
      requires Valid()
      modifies this
      ensures Valid() && (removed.Some? <==> p in old(pending))
      ensures removed.Some? ==> removed.value == old(queues)[p] && Holds(removed.value, old(pending)[p], sizes)
      ensures pending == old(pending) - {p} && totalMessages == old(totalMessages)
      ensures dropped == old(dropped) + if removed.Some? then |old(pending)[p]| else 0
    {
      if p !in queues {
        assert pending == pending - {p};
        return None;
      }
      removed := Some(queues[p]);
      assert HoldsAt(queues, pending, sizes, p);
      PendingSplit(pending, p);
      AllHoldDrop(queues, pending, sizes, p);
      dropped := dropped + |pending[p]|;
      queues := queues - {p};
      pending := pending - {p};
    }
  }
}
