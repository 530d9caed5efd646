/**
 What the two consumers of the relay queue receive, over every run and every interleaving of
 relay_next and relay_next_sidecar: nothing is lost or duplicated, each class stays in order, and
 a host call is delivered before its closes.
 */
module RelayDelivery {
  import opened Bytes
  import opened Table
  import opened Relay

  // ---------- one step ----------

  /** The queue position the call takes an event from. */
  function TakenAt(s: RelayState, op: Op): Option<nat> {
    if op.Next? && s.events != [] then Some(0)
    else if op.NextSidecar? && FirstSidecar(s.events) < |s.events| then Some(FirstSidecar(s.events))
    else None
  }

  /** The event the call announces to the host. */
  function Emitted(s: RelayState, op: Op): Option<Event> {
    var h := AllocatedHandle(s.next);
    match op
    case HttpRequest(request) => Some(Event.HttpRequest(h, request))
    case WsConnect(url) => Some(Event.WsConnect(h, url))
    case WsSend(w, data) => if SendRefused(s, w, data) then None else Some(Event.WsSend(w, data))
    case WsClose(w) => Some(Event.WsClose(w))
    case Approve(facts) => Some(Event.ToolApproval(h, facts))
    case CallStart(req, sidecarOnly) =>
      if CallRejected(req, sidecarOnly) then None else Some(Event.HostCall(h, RequestName(req), RequestBody(req)))
    case CallClose(c) => Some(Event.HostCallClose(c, c in s.hostCalls && s.hostCalls[c].sidecar))
    case PersistStart(req) => if PersistMalformed(req) then None else PersistEvent(h, req)
    case _ => None
  }

  /** Only the event at `i` is gone; the rest keep their order. */
  predicate Taken(before: seq<Event>, after: seq<Event>, i: nat) {
    i < |before| && after == Without(before, i)
  }

  /** A consumer takes the front event, or the first of the sidecar events. */
  predicate Eligible(events: seq<Event>, i: nat) {
    i < |events| && (i == 0 || (IsSidecar(events[i]) && forall k :: 0 <= k < i ==> !IsSidecar(events[k])))
  }

  /**
   Every call either takes one eligible event and hands exactly that one out, or appends at most one
   event at the back; the events in between keep their order.
   */
  lemma QueueLaw(s: Readable, op: Op)
    ensures var after := Apply(s, op).0.events;
            match TakenAt(s, op)
            case Some(i) => Eligible(s.events, i) && Taken(s.events, after, i) && Emitted(s, op).None?
            case None => after == (if Emitted(s, op).Some? then s.events + [Emitted(s, op).value] else s.events)
    ensures Apply(s, op).1.event == if TakenAt(s, op).Some? then Some(s.events[TakenAt(s, op).value]) else None
  {
  }

  // ---------- runs: the log ----------

  /** All events ever pushed, and the push numbers of those still queued and of those delivered, in order. */
  datatype Log = Log(pushed: seq<Event>, pending: seq<nat>, delivered: seq<nat>)

  function Deliver(log: Log, i: nat): Log
    requires i < |log.pending|
  {
    Log(log.pushed, Without(log.pending, i), log.delivered + [log.pending[i]])
  }

  function Push(log: Log, e: Event): Log {
    Log(log.pushed + [e], log.pending + [|log.pushed|], log.delivered)
  }

  function Record(log: Log, taken: Option<nat>, emitted: Option<Event>): Log
    requires taken.Some? ==> taken.value < |log.pending|
  {
    if taken.Some? then Deliver(log, taken.value)
    else if emitted.Some? then Push(log, emitted.value)
    else log
  }

  function LogOf(ops: seq<Op>): (log: Log)
    ensures |log.pending| == |After(ops).events|
  {
    if ops == [] then Log([], [], [])
    else
      var before, op := ops[..|ops| - 1], ops[|ops| - 1];
      QueueLaw(After(before), op);
      Record(LogOf(before), TakenAt(After(before), op), Emitted(After(before), op))
  }

  /** The events handed out during the run, in order, as the consumers see them. */
  function Deliveries(ops: seq<Op>): seq<Event> {
    if ops == [] then []
    else
      var rest := Deliveries(ops[..|ops| - 1]);
      if LastReply(ops).event.Some? then rest + [LastReply(ops).event.value] else rest
  }

  /** Events that must come out in this order: pushed earlier, and not overtaken by a sidecar event. */
  predicate Precedes(pushed: seq<Event>, i: nat, j: nat)
    requires i < |pushed| && j < |pushed|
  {
    i < j && (IsSidecar(pushed[i]) || !IsSidecar(pushed[j]))
  }

  /** The pending numbers denote the queue, oldest first. */
  ghost predicate Numbered(log: Log, events: seq<Event>) {
    && |log.pending| == |events|
    && (forall k :: 0 <= k < |events| ==> log.pending[k] < |log.pushed| && log.pushed[log.pending[k]] == events[k])
    && (forall k, l :: 0 <= k < l < |log.pending| ==> log.pending[k] < log.pending[l])
  }

  /** Each push number is pending or delivered, not both, and delivered at most once. */
  ghost predicate ExactlyOnce(log: Log) {
    && (forall k :: 0 <= k < |log.delivered| ==> log.delivered[k] < |log.pushed| && log.delivered[k] !in log.pending)
    && (forall k, l :: 0 <= k < l < |log.delivered| ==> log.delivered[k] != log.delivered[l])
    && (forall n: nat :: n < |log.pushed| ==> n in log.pending || n in log.delivered)
  }

  /** Whatever must come before a delivered event has been delivered before it. */
  ghost predicate InOrder(log: Log)
    requires ExactlyOnce(log)
  {
    forall b: nat, i: nat :: b < |log.delivered| && i < |log.pushed| && Precedes(log.pushed, i, log.delivered[b])
      ==> i in log.delivered[..b]
  }

  lemma WithoutIncreasing(numbers: seq<nat>, i: nat)
    requires i < |numbers| && forall k, l :: 0 <= k < l < |numbers| ==> numbers[k] < numbers[l]
    ensures forall k, l :: 0 <= k < l < |Without(numbers, i)| ==> Without(numbers, i)[k] < Without(numbers, i)[l]
    ensures numbers[i] !in Without(numbers, i)
    ensures forall n :: n in numbers && n != numbers[i] ==> n in Without(numbers, i)
    ensures forall n :: n in Without(numbers, i) ==> n in numbers
  {
    forall n | n in numbers && n != numbers[i] ensures n in Without(numbers, i) {
      var k :| 0 <= k < |numbers| && numbers[k] == n;
      assert Without(numbers, i)[if k < i then k else k - 1] == n;
    }
  }

  lemma DeliverKeeps(log: Log, events: seq<Event>, i: nat)
    requires Numbered(log, events) && ExactlyOnce(log) && i < |events|
    ensures Numbered(Deliver(log, i), Without(events, i)) && ExactlyOnce(Deliver(log, i))
  {
    WithoutIncreasing(log.pending, i);
    assert log.pending[i] in log.pending;
    var next := Deliver(log, i);
    forall n: nat | n < |log.pushed| ensures n in next.pending || n in next.delivered {
      if n in log.delivered {
        var k :| 0 <= k < |log.delivered| && log.delivered[k] == n;
        assert next.delivered[k] == n;
      } else if n == log.pending[i] {
        assert next.delivered[|log.delivered|] == n;
      }
    }
  }

  lemma PushKeeps(log: Log, events: seq<Event>, e: Event)
    requires Numbered(log, events) && ExactlyOnce(log)
    ensures Numbered(Push(log, e), events + [e]) && ExactlyOnce(Push(log, e))
  {
    var next := Push(log, e);
    forall n: nat | n < |next.pushed| ensures n in next.pending || n in next.delivered {
      if n == |log.pushed| {
        assert next.pending[|log.pending|] == n;
      } else if n in log.pending {
        var k :| 0 <= k < |log.pending| && log.pending[k] == n;
        assert next.pending[k] == n;
      }
    }
  }

  /** No queued event must come before an eligible one. */
  lemma EligibleIsFirst(log: Log, events: seq<Event>, i: nat, k: nat)
    requires Numbered(log, events) && Eligible(events, i) && k < |log.pending|
    ensures !Precedes(log.pushed, log.pending[k], log.pending[i])
  {
    assert k < i ==> !IsSidecar(log.pushed[log.pending[k]]) && IsSidecar(log.pushed[log.pending[i]]);
  }

  /** What must come before an eligible event has been delivered. */
  lemma EarlierIsDelivered(log: Log, events: seq<Event>, i: nat, n: nat)
    requires Numbered(log, events) && ExactlyOnce(log) && Eligible(events, i)
    requires n < |log.pushed| && Precedes(log.pushed, n, log.pending[i])
    ensures n in log.delivered
  {
    forall k | 0 <= k < |log.pending| ensures !Precedes(log.pushed, log.pending[k], log.pending[i]) {
      EligibleIsFirst(log, events, i, k);
    }
    assert n !in log.pending;
  }

  lemma DeliverInOrder(log: Log, events: seq<Event>, i: nat)
    requires Numbered(log, events) && ExactlyOnce(log) && InOrder(log) && Eligible(events, i)
    requires ExactlyOnce(Deliver(log, i))
    ensures InOrder(Deliver(log, i))
  {
    var next := Deliver(log, i);
    forall b: nat, n: nat | b < |next.delivered| && n < |next.pushed| && Precedes(next.pushed, n, next.delivered[b])
      ensures n in next.delivered[..b]
    {
      if b < |log.delivered| {
        assert next.delivered[..b] == log.delivered[..b];
        assert Precedes(log.pushed, n, log.delivered[b]);
      } else {
        assert next.delivered[..b] == log.delivered;
        EarlierIsDelivered(log, events, i, n);
      }
    }
  }

  lemma PushInOrder(log: Log, e: Event)
    requires ExactlyOnce(log) && InOrder(log) && ExactlyOnce(Push(log, e))
    ensures InOrder(Push(log, e))
  {
    var next := Push(log, e);
    forall b: nat, n: nat | b < |next.delivered| && n < |next.pushed| && Precedes(next.pushed, n, next.delivered[b])
      ensures n in next.delivered[..b]
    {
      assert Precedes(log.pushed, n, log.delivered[b]);
    }
  }

  /**
   Over every run: each push number is queued or delivered, never both and never twice; and an event
   is delivered only after every earlier event, sidecar events being allowed to overtake other ones.
   */
  lemma {:induction false} DeliveryInvariant(ops: seq<Op>)
    ensures Numbered(LogOf(ops), After(ops).events)
    ensures ExactlyOnce(LogOf(ops))
    ensures InOrder(LogOf(ops))
  {
    if ops != [] {
      var before, op := ops[..|ops| - 1], ops[|ops| - 1];
      var s, log := After(before), LogOf(before);
      DeliveryInvariant(before);
      QueueLaw(s, op);
      match TakenAt(s, op)
      case Some(i) =>
        DeliverKeeps(log, s.events, i);
        DeliverInOrder(log, s.events, i);
      case None =>
        if Emitted(s, op).Some? {
          PushKeeps(log, s.events, Emitted(s, op).value);
          PushInOrder(log, Emitted(s, op).value);
        }
    }
  }

  /** The log's delivered numbers denote what the consumers were handed. */
  ghost predicate Denotes(log: Log, deliveries: seq<Event>) {
    && |deliveries| == |log.delivered|
    && forall k :: 0 <= k < |deliveries| ==>
         log.delivered[k] < |log.pushed| && deliveries[k] == log.pushed[log.delivered[k]]
  }

  lemma {:induction false} DeliveriesAreLogged(ops: seq<Op>)
    ensures Denotes(LogOf(ops), Deliveries(ops))
  {
    if ops != [] {
      var before, op := ops[..|ops| - 1], ops[|ops| - 1];
      DeliveriesAreLogged(before);
      DeliveryInvariant(before);
      QueueLaw(After(before), op);
    }
  }

  // ---------- each class is first in, first out ----------

  /** The sidecar events, or the others, in order. */
  function OfClass(events: seq<Event>, sidecar: bool): seq<Event> {
    if events == [] then []
    else
      var last := events[|events| - 1];
      OfClass(events[..|events| - 1], sidecar) + if IsSidecar(last) == sidecar then [last] else []
  }

  lemma OfClassSnoc(events: seq<Event>, e: Event, sidecar: bool)
    ensures OfClass(events + [e], sidecar) == OfClass(events, sidecar) + if IsSidecar(e) == sidecar then [e] else []
  {
    assert (events + [e])[..|events|] == events;
  }

  lemma {:induction false} OfClassNone(events: seq<Event>, sidecar: bool)
    requires forall k :: 0 <= k < |events| ==> IsSidecar(events[k]) != sidecar
    ensures OfClass(events, sidecar) == []
  {
    if events != [] {
      OfClassNone(events[..|events| - 1], sidecar);
    }
  }

  lemma WithoutLast(events: seq<Event>)
    requires events != []
    ensures Without(events, |events| - 1) == events[..|events| - 1]
  {
  }

  lemma WithoutInner(events: seq<Event>, i: nat)
    requires i < |events| - 1
    ensures Without(events, i) == Without(events[..|events| - 1], i) + [events[|events| - 1]]
  {
  }

  /** Taking the first event of its class takes it from the front of the class, and leaves the other class alone. */
  lemma {:induction false} OfClassWithout(events: seq<Event>, i: nat, sidecar: bool)
    requires i < |events|
    requires IsSidecar(events[i]) == sidecar ==> forall k :: 0 <= k < i ==> IsSidecar(events[k]) != sidecar
    ensures OfClass(events, sidecar)
      == (if IsSidecar(events[i]) == sidecar then [events[i]] else []) + OfClass(Without(events, i), sidecar)
  {
    var front, last := events[..|events| - 1], events[|events| - 1];
    if i == |front| {
      WithoutLast(events);
      if IsSidecar(last) == sidecar {
        OfClassNone(front, sidecar);
      }
    } else {
      var taken := if IsSidecar(events[i]) == sidecar then [events[i]] else [];
      var kept := if IsSidecar(last) == sidecar then [last] else [];
      Assoc(taken, OfClass(Without(front, i), sidecar), kept);
      OfClassWithout(front, i, sidecar);
      WithoutInner(events, i);
      OfClassSnoc(Without(front, i), last, sidecar);
    }
  }

  lemma FifoTake(out: seq<Event>, queue: seq<Event>, i: nat, sidecar: bool)
    requires Eligible(queue, i)
    ensures OfClass(out + [queue[i]], sidecar) + OfClass(Without(queue, i), sidecar)
      == OfClass(out, sidecar) + OfClass(queue, sidecar)
  {
    var taken := if IsSidecar(queue[i]) == sidecar then [queue[i]] else [];
    var rest := OfClass(Without(queue, i), sidecar);
    OfClassSnoc(out, queue[i], sidecar);
    OfClassWithout(queue, i, sidecar);
    Assoc(OfClass(out, sidecar), taken, rest);
  }

  lemma FifoPush(out: seq<Event>, queue: seq<Event>, pushed: seq<Event>, e: Event, sidecar: bool)
    requires OfClass(out, sidecar) + OfClass(queue, sidecar) == OfClass(pushed, sidecar)
    ensures OfClass(out, sidecar) + OfClass(queue + [e], sidecar) == OfClass(pushed + [e], sidecar)
  {
    var last := if IsSidecar(e) == sidecar then [e] else [];
    Assoc(OfClass(out, sidecar), OfClass(queue, sidecar), last);
    OfClassSnoc(queue, e, sidecar);
    OfClassSnoc(pushed, e, sidecar);
  }

  /**
   For the sidecar events, and likewise for the others: delivered followed by queued is exactly what was
   pushed, in push order. So either class is first in, first out under any mix of the two consumers.
   */
  lemma {:induction false} FifoPerClass(ops: seq<Op>, sidecar: bool)
    ensures OfClass(Deliveries(ops), sidecar) + OfClass(After(ops).events, sidecar)
      == OfClass(LogOf(ops).pushed, sidecar)
  {
    if ops != [] {
      var before, op := ops[..|ops| - 1], ops[|ops| - 1];
      var s := After(before);
      FifoPerClass(before, sidecar);
      QueueLaw(s, op);
      match TakenAt(s, op)
      case Some(i) =>
        assert Deliveries(ops) == Deliveries(before) + [s.events[i]];
        FifoTake(Deliveries(before), s.events, i, sidecar);
      case None =>
        if Emitted(s, op).Some? {
          assert Deliveries(ops) == Deliveries(before);
          FifoPush(Deliveries(before), s.events, LogOf(before).pushed, Emitted(s, op).value, sidecar);
        }
    }
  }

  lemma TakeFromMultiset<T>(queue: seq<T>, i: nat)
    requires i < |queue|
    ensures multiset(queue) == multiset(Without(queue, i)) + multiset{queue[i]}
  {
    assert queue == queue[..i] + ([queue[i]] + queue[i + 1..]);
    assert Without(queue, i) == queue[..i] + queue[i + 1..];
  }

  /** No event is lost or made up: as multisets, delivered plus queued is pushed. */
  lemma {:induction false} NothingLost(ops: seq<Op>)
    ensures multiset(Deliveries(ops)) + multiset(After(ops).events) == multiset(LogOf(ops).pushed)
  {
    if ops != [] {
      var before, op := ops[..|ops| - 1], ops[|ops| - 1];
      var s := After(before);
      NothingLost(before);
      QueueLaw(s, op);
      if TakenAt(s, op).Some? {
        TakeFromMultiset(s.events, TakenAt(s, op).value);
      }
    }
  }

  // ---------- host calls: the call before its closes ----------

  predicate IsCall(e: Event, h: int) {
    e.HostCall? && e.handle == h
  }

  /** The push number of the last call event for `h`, or -1. */
  function LastCall(pushed: seq<Event>, h: int): (c: int)
    ensures -1 <= c < |pushed|
    ensures c >= 0 ==> IsCall(pushed[c], h)
    ensures forall k :: c < k < |pushed| ==> !IsCall(pushed[k], h)
  {
    if pushed == [] then -1
    else if IsCall(pushed[|pushed| - 1], h) then |pushed| - 1
    else LastCall(pushed[..|pushed| - 1], h)
  }

  lemma LastCallSnoc(pushed: seq<Event>, e: Event, h: int)
    ensures LastCall(pushed + [e], h) == if IsCall(e, h) then |pushed| else LastCall(pushed, h)
  {
    assert (pushed + [e])[..|pushed|] == pushed;
  }

  /** The call event that push number `j`, a close, belongs to: the last one before it with its handle. */
  function CallOf(pushed: seq<Event>, j: nat): (c: int)
    requires j < |pushed|
    ensures -1 <= c < j
  {
    LastCall(pushed[..j], pushed[j].handle)
  }

  ghost predicate SlotsKnowTheirCall(pushed: seq<Event>, s: RelayState) {
    forall h :: h in s.hostCalls ==>
      LastCall(pushed, h) >= 0 && s.hostCalls[h].sidecar == (pushed[LastCall(pushed, h)].name == SIDECAR)
  }

  ghost predicate SidecarClosesHaveSidecarCalls(pushed: seq<Event>) {
    forall j :: 0 <= j < |pushed| && pushed[j].HostCallClose? && pushed[j].sidecar ==>
      CallOf(pushed, j) >= 0 && pushed[CallOf(pushed, j)].name == SIDECAR
  }

  /** The call starts the host call with handle `h`. */
  predicate Starts(s: RelayState, op: Op, h: int) {
    Emitted(s, op).Some? && IsCall(Emitted(s, op).value, h)
  }

  /** A live host-call slot is the one just started, or an earlier one marked when its call is delivered. */
  ghost predicate SlotFollows(s: Readable, op: Op, h: int)
    requires h in Apply(s, op).0.hostCalls
  {
    var slot := Apply(s, op).0.hostCalls[h];
    if Starts(s, op, h) then slot.sidecar == (Emitted(s, op).value.name == SIDECAR) && !slot.dispatched
    else
      && h in s.hostCalls && slot.sidecar == s.hostCalls[h].sidecar
      && (slot.dispatched <==> s.hostCalls[h].dispatched
                               || (TakenAt(s, op).Some? && IsCall(s.events[TakenAt(s, op).value], h)))
  }

  lemma StartSlotStep(s: Readable, op: Op, h: int)
    requires op.CallStart? && h in Apply(s, op).0.hostCalls
    ensures SlotFollows(s, op, h)
  {
  }

  /** Dispatching an event marks the slot of a call, and touches no other. */
  lemma DispatchedSlot(s: RelayState, e: Event, h: int)
    ensures h in Dispatch(s, e).hostCalls <==> h in s.hostCalls
    ensures h in s.hostCalls ==>
      Dispatch(s, e).hostCalls[h] == if IsCall(e, h) then s.hostCalls[h].(dispatched := true) else s.hostCalls[h]
  {
  }

  lemma PullSlotStep(s: Readable, op: Op, h: int)
    requires (op.Next? || op.NextSidecar?) && h in Apply(s, op).0.hostCalls
    ensures SlotFollows(s, op, h)
  {
    var taken := TakenAt(s, op);
    if taken.Some? {
      var i := taken.value;
      assert Apply(s, op).0 == Dispatch(s.(events := Without(s.events, i)), s.events[i]);
      DispatchedSlot(s.(events := Without(s.events, i)), s.events[i], h);
    } else {
      assert Apply(s, op).0 == s;
    }
  }

  lemma OtherSlotStep(s: Readable, op: Op, h: int)
    requires !op.CallStart? && !op.Next? && !op.NextSidecar? && h in Apply(s, op).0.hostCalls
    ensures SlotFollows(s, op, h)
  {
    assert TakenAt(s, op).None? && !Starts(s, op, h);
  }

  lemma CallSlotStep(s: Readable, op: Op, h: int)
    requires h in Apply(s, op).0.hostCalls
    ensures SlotFollows(s, op, h)
  {
    if op.CallStart? {
      StartSlotStep(s, op, h);
    } else if op.Next? || op.NextSidecar? {
      PullSlotStep(s, op, h);
    } else {
      OtherSlotStep(s, op, h);
    }
  }

  lemma CallStep(pushed: seq<Event>, s: Readable, op: Op, e: Event)
    requires SlotsKnowTheirCall(pushed, s) && SidecarClosesHaveSidecarCalls(pushed)
    requires Emitted(s, op) == Some(e)
    ensures SidecarClosesHaveSidecarCalls(pushed + [e])
  {
    assert (pushed + [e])[..|pushed|] == pushed;
    forall j | 0 <= j < |pushed| ensures (pushed + [e])[..j] == pushed[..j] {}
  }

  lemma {:induction false} CallInvariant(ops: seq<Op>)
    ensures SlotsKnowTheirCall(LogOf(ops).pushed, After(ops))
    ensures SidecarClosesHaveSidecarCalls(LogOf(ops).pushed)
  {
    if ops != [] {
      var before, op := ops[..|ops| - 1], ops[|ops| - 1];
      var s, pushed := After(before), LogOf(before).pushed;
      CallInvariant(before);
      QueueLaw(s, op);
      if Emitted(s, op).Some? {
        CallStep(pushed, s, op, Emitted(s, op).value);
      }
      forall h | h in After(ops).hostCalls
        ensures var c := LastCall(LogOf(ops).pushed, h);
                c >= 0 && After(ops).hostCalls[h].sidecar == (LogOf(ops).pushed[c].name == SIDECAR)
      {
        CallSlotStep(s, op, h);
        if Emitted(s, op).Some? {
          LastCallSnoc(pushed, Emitted(s, op).value, h);
        }
      }
    }
  }

  /**
   A close is delivered only after the call it belongs to, whichever consumers took them, even when the
   same handle is closed twice (the second close is not marked sidecar) or handles have wrapped around.
   */
  lemma CallBeforeClose(ops: seq<Op>, b: nat)
    requires b < |LogOf(ops).delivered| && LogOf(ops).delivered[b] < |LogOf(ops).pushed|
    requires LogOf(ops).pushed[LogOf(ops).delivered[b]].HostCallClose?
    ensures var log := LogOf(ops);
            var call := CallOf(log.pushed, log.delivered[b]);
            call >= 0 ==> call in log.delivered[..b]
  {
    var log := LogOf(ops);
    var j := log.delivered[b];
    DeliveryInvariant(ops);
    CallInvariant(ops);
    if CallOf(log.pushed, j) >= 0 {
      assert Precedes(log.pushed, CallOf(log.pushed, j), j);
    }
  }

  // ---------- host calls: what `dispatched` means ----------

  /** All along the run, each started host call gets a handle that no queued call event carries. */
  predicate FreshCalls(ops: seq<Op>) {
    ops != [] ==>
      var before, op := ops[..|ops| - 1], ops[|ops| - 1];
      FreshCalls(before) && (Emitted(After(before), op).Some? && op.CallStart? ==> NoCallQueued(After(before)))
  }

  predicate NoCallQueued(s: RelayState) {
    forall e :: e in s.events ==> !IsCall(e, AllocatedHandle(s.next))
  }

  ghost predicate FlagIfDelivered(log: Log, s: RelayState) {
    forall h :: h in s.hostCalls && LastCall(log.pushed, h) in log.delivered ==> s.hostCalls[h].dispatched
  }

  ghost predicate FlagOnlyIfDelivered(log: Log, s: RelayState) {
    forall h :: h in s.hostCalls && s.hostCalls[h].dispatched ==> LastCall(log.pushed, h) in log.delivered
  }

  /** Every queued call whose handle is live is the last call with that handle. */
  ghost predicate QueuedCallsAreLast(log: Log, s: RelayState)
    requires Numbered(log, s.events)
  {
    forall k :: 0 <= k < |s.events| && s.events[k].HostCall? && s.events[k].handle in s.hostCalls ==>
      log.pending[k] == LastCall(log.pushed, s.events[k].handle)
  }

  lemma DeliveredSnoc(delivered: seq<nat>, n: nat, c: int)
    ensures c in (delivered + [n]) <==> c in delivered || c == n
  {
    assert (delivered + [n])[|delivered|] == n;
    if c in delivered {
      var k :| 0 <= k < |delivered| && delivered[k] == c;
      assert (delivered + [n])[k] == c;
    }
  }

  /** How the last call of `h`, and whether it is delivered, change in a step. */
  lemma LastCallStep(log: Log, events: seq<Event>, taken: Option<nat>, emitted: Option<Event>, h: int)
    requires Numbered(log, events) && ExactlyOnce(log) && (taken.Some? ==> taken.value < |events| && emitted.None?)
    ensures var next := Record(log, taken, emitted);
            var c := LastCall(log.pushed, h);
            if emitted.Some? && IsCall(emitted.value, h) then LastCall(next.pushed, h) !in next.delivered
            else
              && LastCall(next.pushed, h) == c
              && (c in next.delivered <==> c in log.delivered || (taken.Some? && log.pending[taken.value] == c))
              && (taken.Some? && log.pending[taken.value] == c ==> IsCall(events[taken.value], h))
  {
    if taken.Some? {
      DeliveredSnoc(log.delivered, log.pending[taken.value], LastCall(log.pushed, h));
    } else if emitted.Some? {
      LastCallSnoc(log.pushed, emitted.value, h);
    }
  }

  lemma {:induction false} FlagInvariant(ops: seq<Op>)
    ensures FlagIfDelivered(LogOf(ops), After(ops))
  {
    if ops != [] {
      var before, op := ops[..|ops| - 1], ops[|ops| - 1];
      var s, log := After(before), LogOf(before);
      FlagInvariant(before);
      DeliveryInvariant(before);
      QueueLaw(s, op);
      forall h | h in After(ops).hostCalls && LastCall(LogOf(ops).pushed, h) in LogOf(ops).delivered
        ensures After(ops).hostCalls[h].dispatched
      {
        CallSlotStep(s, op, h);
        LastCallStep(log, s.events, TakenAt(s, op), Emitted(s, op), h);
      }
    }
  }

  lemma {:induction false} FreshFlagInvariant(ops: seq<Op>)
    requires FreshCalls(ops)
    ensures Numbered(LogOf(ops), After(ops).events)
    ensures FlagOnlyIfDelivered(LogOf(ops), After(ops))
    ensures QueuedCallsAreLast(LogOf(ops), After(ops))
  {
    DeliveryInvariant(ops);
    if ops != [] {
      var before, op := ops[..|ops| - 1], ops[|ops| - 1];
      FreshFlagInvariant(before);
      DeliveryInvariant(before);
      QueueLaw(After(before), op);
      FreshFlagStep(LogOf(before), After(before), op);
      FreshQueueStep(LogOf(before), After(before), op, After(ops).events);
    }
  }

  lemma FreshFlagStep(log: Log, s: Readable, op: Op)
    requires Numbered(log, s.events) && ExactlyOnce(log)
    requires TakenAt(s, op).Some? ==> Emitted(s, op).None?
    requires FlagOnlyIfDelivered(log, s) && QueuedCallsAreLast(log, s)
    ensures FlagOnlyIfDelivered(Record(log, TakenAt(s, op), Emitted(s, op)), Apply(s, op).0)
  {
    var next := Record(log, TakenAt(s, op), Emitted(s, op));
    forall h | h in Apply(s, op).0.hostCalls && Apply(s, op).0.hostCalls[h].dispatched
      ensures LastCall(next.pushed, h) in next.delivered
    {
      CallSlotStep(s, op, h);
      LastCallStep(log, s.events, TakenAt(s, op), Emitted(s, op), h);
    }
  }

  lemma FreshQueueStep(log: Log, s: Readable, op: Op, after: seq<Event>)
    requires Numbered(log, s.events) && QueuedCallsAreLast(log, s)
    requires Emitted(s, op).Some? && op.CallStart? ==> NoCallQueued(s)
    requires after == Apply(s, op).0.events
    requires Numbered(Record(log, TakenAt(s, op), Emitted(s, op)), after)
    ensures QueuedCallsAreLast(Record(log, TakenAt(s, op), Emitted(s, op)), Apply(s, op).0)
  {
    QueueLaw(s, op);
    forall k: nat | k < |after| && after[k].HostCall? && after[k].handle in Apply(s, op).0.hostCalls
      ensures Record(log, TakenAt(s, op), Emitted(s, op)).pending[k]
           == LastCall(Record(log, TakenAt(s, op), Emitted(s, op)).pushed, after[k].handle)
    {
      CallSlotStep(s, op, after[k].handle);
      StartsOnlyFresh(s, op, after[k].handle);
      OneQueuedCallStep(log, s.events, TakenAt(s, op), Emitted(s, op), after, k);
    }
  }

  lemma StartsOnlyFresh(s: RelayState, op: Op, h: int)
    requires Emitted(s, op).Some? && op.CallStart? ==> NoCallQueued(s)
    ensures Starts(s, op, h) ==> forall l :: 0 <= l < |s.events| ==> !IsCall(s.events[l], h)
  {
    forall l | 0 <= l < |s.events| && Starts(s, op, h) ensures !IsCall(s.events[l], h) {
      assert s.events[l] in s.events;
    }
  }

  lemma OneQueuedCallStep(
    log: Log, events: seq<Event>, taken: Option<nat>, emitted: Option<Event>, after: seq<Event>, k: nat)
    requires Numbered(log, events) && k < |after| && after[k].HostCall?
    requires match taken
             case Some(i) => Taken(events, after, i) && emitted.None?
             case None => after == (if emitted.Some? then events + [emitted.value] else events)
    requires emitted.Some? && IsCall(emitted.value, after[k].handle) ==>
      forall l :: 0 <= l < |events| ==> !IsCall(events[l], after[k].handle)
    requires !(emitted.Some? && IsCall(emitted.value, after[k].handle)) ==>
      forall l :: 0 <= l < |events| && IsCall(events[l], after[k].handle) ==>
        log.pending[l] == LastCall(log.pushed, after[k].handle)
    ensures var next := Record(log, taken, emitted);
            k < |next.pending| && next.pending[k] == LastCall(next.pushed, after[k].handle)
  {
    var h := after[k].handle;
    if taken.None? && emitted.Some? {
      LastCallSnoc(log.pushed, emitted.value, h);
      if k < |events| {
        assert IsCall(events[k], h);
      }
    } else {
      var l := if taken.Some? && taken.value <= k then k + 1 else k;
      assert after[k] == events[l] && IsCall(events[l], h);
    }
  }

  /**
   When no started call reuses a handle that is still queued, a live slot is undispatched exactly while its
   call event is in the queue, and that event is the only queued call with its handle.
   */
  lemma UndispatchedIffQueued(ops: seq<Op>, h: int)
    requires FreshCalls(ops) && h in After(ops).hostCalls
    ensures var s, log := After(ops), LogOf(ops);
            && (!s.hostCalls[h].dispatched <==> LastCall(log.pushed, h) in log.pending)
            && (!s.hostCalls[h].dispatched <==> exists k :: 0 <= k < |s.events| && IsCall(s.events[k], h))
            && (forall k, l :: 0 <= k < l < |s.events| && IsCall(s.events[k], h) ==> !IsCall(s.events[l], h))
  {
    var s, log := After(ops), LogOf(ops);
    FlagInvariant(ops);
    FreshFlagInvariant(ops);
    DeliveryInvariant(ops);
    CallInvariant(ops);
    var c := LastCall(log.pushed, h);
    if c in log.pending {
      var k :| 0 <= k < |log.pending| && log.pending[k] == c;
      assert IsCall(s.events[k], h);
    }
  }

  /** Each live slot is undispatched exactly while a call with its handle is queued, and at most one is. */
  ghost predicate CallsExact(s: RelayState) {
    forall h :: h in s.hostCalls ==>
      && (!s.hostCalls[h].dispatched <==> exists k :: 0 <= k < |s.events| && IsCall(s.events[k], h))
      && (forall k, l :: 0 <= k < l < |s.events| && IsCall(s.events[k], h) ==> !IsCall(s.events[l], h))
  }

  ghost predicate AlwaysCallsExact(ops: seq<Op>) {
    CallsExact(After(ops)) && (ops != [] ==> AlwaysCallsExact(ops[..|ops| - 1]))
  }

  /** A call started under a queued handle leaves two calls queued for one live slot. */
  lemma StaleCallIsDoubled(s: Readable, op: Op)
    requires op.CallStart? && Emitted(s, op).Some? && !NoCallQueued(s)
    ensures !CallsExact(Apply(s, op).0)
  {
    var h, after := AllocatedHandle(s.next), Apply(s, op).0;
    var e :| e in s.events && IsCall(e, h);
    var k :| 0 <= k < |s.events| && s.events[k] == e;
    assert after.events == s.events + [Emitted(s, op).value];
    assert h in after.hostCalls && IsCall(after.events[k], h) && IsCall(after.events[|s.events|], h);
  }

  /** Exactly the runs in which no started call reuses a queued handle keep the flags right throughout. */
  lemma {:induction false} FlagsExactIff(ops: seq<Op>)
    ensures AlwaysCallsExact(ops) <==> FreshCalls(ops)
  {
    if FreshCalls(ops) {
      forall h | h in After(ops).hostCalls
        ensures var s := After(ops);
          && (!s.hostCalls[h].dispatched <==> exists k :: 0 <= k < |s.events| && IsCall(s.events[k], h))
          && (forall k, l :: 0 <= k < l < |s.events| && IsCall(s.events[k], h) ==> !IsCall(s.events[l], h))
      {
        UndispatchedIffQueued(ops, h);
      }
    }
    if ops != [] {
      var before, op := ops[..|ops| - 1], ops[|ops| - 1];
      FlagsExactIff(before);
      if FreshCalls(before) && !FreshCalls(ops) {
        StaleCallIsDoubled(After(before), op);
      }
    }
  }

  // ---------- emptying the queue ----------

  function Repeat(op: Op, n: nat): seq<Op> {
    if n == 0 then [] else Repeat(op, n - 1) + [op]
  }

  lemma RunSnoc(ops: seq<Op>, op: Op)
    ensures After(ops + [op]) == Apply(After(ops), op).0
    ensures Deliveries(ops + [op])
      == if Apply(After(ops), op).1.event.Some? then Deliveries(ops) + [Apply(After(ops), op).1.event.value]
         else Deliveries(ops)
  {
    assert (ops + [op])[..|ops|] == ops;
  }

  lemma RepeatSnoc(ops: seq<Op>, op: Op, n: nat)
    requires n > 0
    ensures ops + Repeat(op, n) == (ops + Repeat(op, n - 1)) + [op]
  {
  }

  lemma NextTakesFront(s: Readable)
    requires s.events != []
    ensures Apply(s, Op.Next).0.events == s.events[1..] && Apply(s, Op.Next).1.event == Some(s.events[0])
  {
    QueueLaw(s, Op.Next);
    assert Without(s.events, 0) == s.events[1..];
  }

  lemma DropNext<T>(s: seq<T>, n: nat)
    requires n < |s|
    ensures s[n..] != [] && s[n..][0] == s[n] && s[n..][1..] == s[n + 1..]
  {
  }

  lemma OneMoreNext(before: seq<Op>, base: seq<Event>, queue: seq<Event>, n: nat)
    requires n < |queue| && Deliveries(before) == base + queue[..n] && After(before).events == queue[n..]
    ensures Deliveries(before + [Op.Next]) == base + queue[..n + 1]
    ensures After(before + [Op.Next]).events == queue[n + 1..]
  {
    DropNext(queue, n);
    TakeSnoc(queue, n);
    Assoc(base, queue[..n], [queue[n]]);
    NextTakesFront(After(before));
    RunSnoc(before, Op.Next);
  }

  /** Some calls of relay_next deliver as many events from the front, in order, and leave the rest. */
  lemma {:induction false} NextsDeliver(ops: seq<Op>, n: nat, queue: seq<Event>, all: seq<Op>)
    requires queue == After(ops).events && n <= |queue| && all == ops + Repeat(Op.Next, n)
    ensures Deliveries(all) == Deliveries(ops) + queue[..n] && After(all).events == queue[n..]
  {
    if n == 0 {
      assert all == ops;
    } else {
      var before := ops + Repeat(Op.Next, n - 1);
      RepeatSnoc(ops, Op.Next, n);
      NextsDeliver(ops, n - 1, queue, before);
      OneMoreNext(before, Deliveries(ops), queue, n - 1);
    }
  }

  /** As many calls of relay_next as there are events empty the queue, in its order. */
  lemma NextsEmptyTheQueue(ops: seq<Op>)
    ensures var queue := After(ops).events;
      var all := ops + Repeat(Op.Next, |queue|);
      After(all).events == [] && Deliveries(all) == Deliveries(ops) + queue
  {
    var queue := After(ops).events;
    NextsDeliver(ops, |queue|, queue, ops + Repeat(Op.Next, |queue|));
    assert queue[..|queue|] == queue;
  }

  lemma {:induction false} ClassHasMember(events: seq<Event>)
    requires OfClass(events, true) != []
    ensures FirstSidecar(events) < |events|
  {
    if FirstSidecar(events) == |events| {
      OfClassNone(events, true);
    }
  }

  lemma FirstOfClassTaken(events: seq<Event>)
    requires FirstSidecar(events) < |events|
    ensures var i, of := FirstSidecar(events), OfClass(events, true);
      of != [] && of[0] == events[i] && OfClass(Without(events, i), true) == of[1..]
      && OfClass(Without(events, i), false) == OfClass(events, false)
  {
    var i := FirstSidecar(events);
    DropFront([events[i]], OfClass(Without(events, i), true));
    OfClassWithout(events, i, true);
    OfClassWithout(events, i, false);
  }

  lemma NextSidecarTakesFirst(s: Readable)
    requires OfClass(s.events, true) != []
    ensures var r, of := Apply(s, Op.NextSidecar), OfClass(s.events, true);
      r.1.event == Some(of[0]) && OfClass(r.0.events, true) == of[1..]
      && OfClass(r.0.events, false) == OfClass(s.events, false)
  {
    ClassHasMember(s.events);
    QueueLaw(s, Op.NextSidecar);
    FirstOfClassTaken(s.events);
  }

  /** The sidecar consumer has been handed `taken` besides `base`, `left` of its class and the `others` are queued. */
  ghost predicate Pulled(all: seq<Op>, base: seq<Event>, taken: seq<Event>, left: seq<Event>, others: seq<Event>) {
    && Deliveries(all) == base + taken
    && OfClass(After(all).events, true) == left && OfClass(After(all).events, false) == others
  }

  lemma PullOne(before: seq<Op>, base: seq<Event>, taken: seq<Event>, left: seq<Event>, others: seq<Event>)
    requires Pulled(before, base, taken, left, others) && left != []
    ensures Pulled(before + [Op.NextSidecar], base, taken + [left[0]], left[1..], others)
  {
    Assoc(base, taken, [left[0]]);
    NextSidecarTakesFirst(After(before));
    RunSnoc(before, Op.NextSidecar);
  }

  lemma OneMoreNextSidecar(
    before: seq<Op>, base: seq<Event>, of: seq<Event>, n: nat, others: seq<Event>, all: seq<Op>)
    requires n < |of| && all == before + [Op.NextSidecar] && Pulled(before, base, of[..n], of[n..], others)
    ensures Pulled(all, base, of[..n + 1], of[n + 1..], others)
  {
    DropNext(of, n);
    TakeSnoc(of, n);
    PullOne(before, base, of[..n], of[n..], others);
  }

  lemma {:induction false} NextSidecarsDeliver(
    ops: seq<Op>, n: nat, base: seq<Event>, of: seq<Event>, others: seq<Event>, all: seq<Op>)
    requires n <= |of| && all == ops + Repeat(Op.NextSidecar, n) && Pulled(ops, base, [], of, others)
    ensures Pulled(all, base, of[..n], of[n..], others)
  {
    if n == 0 {
      assert all == ops && of[..0] == [] && of[0..] == of;
    } else {
      var before := ops + Repeat(Op.NextSidecar, n - 1);
      RepeatSnoc(ops, Op.NextSidecar, n);
      NextSidecarsDeliver(ops, n - 1, base, of, others, before);
      OneMoreNextSidecar(before, base, of, n - 1, others, all);
    }
  }

  /** As many calls of relay_next_sidecar as there are sidecar events deliver these in order, and leave the others. */
  lemma NextSidecarsEmptyTheirClass(ops: seq<Op>)
    ensures var of := OfClass(After(ops).events, true);
      var all := ops + Repeat(Op.NextSidecar, |of|);
      OfClass(After(all).events, true) == [] && Deliveries(all) == Deliveries(ops) + of
      && OfClass(After(all).events, false) == OfClass(After(ops).events, false)
  {
    var of := OfClass(After(ops).events, true);
    var others := OfClass(After(ops).events, false);
    assert Deliveries(ops) + [] == Deliveries(ops) && of[..|of|] == of && of[|of|..] == [];
    NextSidecarsDeliver(ops, |of|, Deliveries(ops), of, others, ops + Repeat(Op.NextSidecar, |of|));
  }
}
