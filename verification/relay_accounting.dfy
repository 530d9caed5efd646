/**
 WebSocket back-pressure and handle reuse, over every run: the byte counter of a live socket is the length
 of its sends still queued and never passes the mark, exactly as long as no socket is opened under a handle
 with bytes still queued; that cannot happen within the first 2^31 - 1 allocations, and can right after.
 */
module RelayAccounting {
  import opened Bytes
  import opened Table
  import opened Relay
  import opened RelayDelivery

  predicate IsSend(e: Event, h: int) {
    e.WsSend? && e.handle == h
  }

  function SendSize(e: Event, h: int): nat {
    if IsSend(e, h) then |e.data| else 0
  }

  /** The total length of the sends for `h` in the queue. */
  function QueuedBytes(events: seq<Event>, h: int): nat {
    if events == [] then 0 else SendSize(events[0], h) + QueuedBytes(events[1..], h)
  }

  lemma {:induction false} QueuedBytesSnoc(events: seq<Event>, e: Event, h: int)
    ensures QueuedBytes(events + [e], h) == QueuedBytes(events, h) + SendSize(e, h)
  {
    if events == [] {
      assert (events + [e])[1..] == [];
    } else {
      assert (events + [e])[1..] == events[1..] + [e];
      QueuedBytesSnoc(events[1..], e, h);
    }
  }

  lemma {:induction false} QueuedBytesWithout(events: seq<Event>, i: nat, h: int)
    requires i < |events|
    ensures QueuedBytes(events, h) == QueuedBytes(Without(events, i), h) + SendSize(events[i], h)
  {
    if i == 0 {
      assert Without(events, 0) == events[1..];
    } else {
      assert Without(events, i)[0] == events[0];
      assert Without(events, i)[1..] == Without(events[1..], i - 1);
      QueuedBytesWithout(events[1..], i - 1, h);
    }
  }

  ghost predicate Accounted(s: RelayState) {
    forall h :: h in s.ws ==> s.ws[h].queuedBytes == QueuedBytes(s.events, h) <= WS_SEND_MARK
  }

  /** The call opens a socket under a handle for which bytes are still queued. */
  predicate OpensStale(s: RelayState, op: Op) {
    op.WsConnect? && QueuedBytes(s.events, AllocatedHandle(s.next)) > 0
  }

  predicate Opens(s: RelayState, op: Op, h: int) {
    op.WsConnect? && h == AllocatedHandle(s.next)
  }

  function EmittedSize(s: RelayState, op: Op, h: int): nat {
    if Emitted(s, op).Some? then SendSize(Emitted(s, op).value, h) else 0
  }

  function TakenSize(s: RelayState, op: Op, h: int): nat {
    if TakenAt(s, op).Some? then SendSize(s.events[TakenAt(s, op).value], h) else 0
  }

  /** How a live socket's counter changes; the subtraction is the saturating one. */
  ghost predicate CounterFollows(s: Readable, op: Op, h: int)
    requires h in Apply(s, op).0.ws
  {
    var counter := Apply(s, op).0.ws[h].queuedBytes;
    if Opens(s, op, h) then counter == 0
    else
      && h in s.ws
      && counter == (if s.ws[h].queuedBytes + EmittedSize(s, op, h) < TakenSize(s, op, h) then 0
                     else s.ws[h].queuedBytes + EmittedSize(s, op, h) - TakenSize(s, op, h))
      && (EmittedSize(s, op, h) > 0 ==> s.ws[h].queuedBytes + EmittedSize(s, op, h) <= WS_SEND_MARK)
  }

  predicate IsSocketOp(op: Op) {
    op.WsConnect? || op.WsSend? || op.WsRecv? || op.WsClose? || op.WsOpen? || op.WsPush? || op.WsHostClose?
  }

  /** The handles of the live sockets after a call. */
  function SocketsAfter(s: RelayState, op: Op): set<int> {
    if op.WsConnect? then s.ws.Keys + {AllocatedHandle(s.next)}
    else if op.WsClose? then s.ws.Keys - {op.h}
    else s.ws.Keys
  }

  lemma DispatchedSockets(s: RelayState, e: Event)
    ensures Dispatch(s, e).ws.Keys == s.ws.Keys
  {
  }

  lemma PullSocketsStep(s: Readable, op: Op)
    requires op.Next? || op.NextSidecar?
    ensures Apply(s, op).0.ws.Keys == s.ws.Keys
  {
    match TakenAt(s, op)
    case Some(i) =>
      DispatchedSockets(s.(events := Without(s.events, i)), s.events[i]);
    case None =>
      assert Apply(s, op).0 == s;
  }

  lemma OwnSocketsStep(s: Readable, op: Op)
    requires IsSocketOp(op)
    ensures Apply(s, op).0.ws.Keys == SocketsAfter(s, op)
  {
  }

  lemma OtherSocketsStep(s: Readable, op: Op)
    requires !IsSocketOp(op) && !op.Next? && !op.NextSidecar?
    ensures Apply(s, op).0.ws == s.ws
  {
  }

  lemma SocketsStep(s: Readable, op: Op)
    ensures Apply(s, op).0.ws.Keys == SocketsAfter(s, op)
  {
    if IsSocketOp(op) {
      OwnSocketsStep(s, op);
    } else if op.Next? || op.NextSidecar? {
      PullSocketsStep(s, op);
    } else {
      OtherSocketsStep(s, op);
    }
  }

  lemma DispatchedCounter(s: RelayState, e: Event, h: int)
    requires h in s.ws
    ensures h in Dispatch(s, e).ws
    ensures Dispatch(s, e).ws[h].queuedBytes ==
      if s.ws[h].queuedBytes < SendSize(e, h) then 0 else s.ws[h].queuedBytes - SendSize(e, h)
  {
  }

  lemma PullCounterStep(s: Readable, op: Op, h: int)
    requires (op.Next? || op.NextSidecar?) && h in Apply(s, op).0.ws
    ensures CounterFollows(s, op, h)
  {
    PullSocketsStep(s, op);
    match TakenAt(s, op)
    case Some(i) =>
      DispatchedCounter(s.(events := Without(s.events, i)), s.events[i], h);
    case None =>
      assert Apply(s, op).0 == s;
  }

  lemma SendCounterStep(s: Readable, op: Op, h: int)
    requires op.WsSend? && h in Apply(s, op).0.ws
    ensures CounterFollows(s, op, h)
  {
  }

  lemma SocketCounterStep(s: Readable, op: Op, h: int)
    requires IsSocketOp(op) && !op.WsSend? && h in Apply(s, op).0.ws
    ensures CounterFollows(s, op, h)
  {
    assert TakenSize(s, op, h) == 0 && EmittedSize(s, op, h) == 0;
  }

  lemma OtherCounterStep(s: Readable, op: Op, h: int)
    requires !IsSocketOp(op) && !op.Next? && !op.NextSidecar? && h in Apply(s, op).0.ws
    ensures CounterFollows(s, op, h)
  {
    OtherSocketsStep(s, op);
    assert TakenSize(s, op, h) == 0 && EmittedSize(s, op, h) == 0;
  }

  lemma QueuedBytesStep(s: Readable, op: Op, h: int)
    ensures QueuedBytes(Apply(s, op).0.events, h) + TakenSize(s, op, h)
      == QueuedBytes(s.events, h) + EmittedSize(s, op, h)
  {
    QueueLaw(s, op);
    if TakenAt(s, op).Some? {
      QueuedBytesWithout(s.events, TakenAt(s, op).value, h);
    } else if Emitted(s, op).Some? {
      QueuedBytesSnoc(s.events, Emitted(s, op).value, h);
    }
  }

  lemma CounterStep(s: Readable, op: Op, h: int)
    requires h in Apply(s, op).0.ws
    ensures CounterFollows(s, op, h)
  {
    if op.Next? || op.NextSidecar? {
      PullCounterStep(s, op, h);
    } else if op.WsSend? {
      SendCounterStep(s, op, h);
    } else if IsSocketOp(op) {
      SocketCounterStep(s, op, h);
    } else {
      OtherCounterStep(s, op, h);
    }
  }

  lemma CounterStaysExact(s: Readable, op: Op, h: int)
    requires Accounted(s) && h in Apply(s, op).0.ws
    ensures var s' := Apply(s, op).0;
            if Opens(s, op, h) then s'.ws[h].queuedBytes == 0 && QueuedBytes(s'.events, h) == QueuedBytes(s.events, h)
            else s'.ws[h].queuedBytes == QueuedBytes(s'.events, h) <= WS_SEND_MARK
  {
    CounterStep(s, op, h);
    QueuedBytesStep(s, op, h);
  }

  /** One call keeps every counter right exactly when it does not open a socket under a stale handle. */
  lemma AccountingStep(s: Readable, op: Op)
    requires Accounted(s)
    ensures Accounted(Apply(s, op).0) <==> !OpensStale(s, op)
  {
    var s' := Apply(s, op).0;
    if OpensStale(s, op) {
      var h := AllocatedHandle(s.next);
      SocketsStep(s, op);
      CounterStaysExact(s, op, h);
    } else {
      forall h | h in s'.ws ensures s'.ws[h].queuedBytes == QueuedBytes(s'.events, h) <= WS_SEND_MARK {
        CounterStaysExact(s, op, h);
      }
    }
  }

  /** All along the run, no socket is opened under a stale handle. */
  predicate NeverStale(ops: seq<Op>) {
    ops != [] ==>
      NeverStale(ops[..|ops| - 1]) && !OpensStale(After(ops[..|ops| - 1]), ops[|ops| - 1])
  }

  /** All along the run, the counters are right. */
  ghost predicate AlwaysAccounted(ops: seq<Op>) {
    Accounted(After(ops)) && (ops != [] ==> AlwaysAccounted(ops[..|ops| - 1]))
  }

  /** The counters are right throughout a run exactly when no step of it opens a socket under a stale handle. */
  lemma {:induction false} AccountingOverRuns(ops: seq<Op>)
    ensures AlwaysAccounted(ops) <==> NeverStale(ops)
  {
    if ops != [] {
      var before, op := ops[..|ops| - 1], ops[|ops| - 1];
      AccountingOverRuns(before);
      if Accounted(After(before)) {
        AccountingStep(After(before), op);
      }
    }
  }

  /** While the counters are right, dispatching a send never saturates: the counter covers its length. */
  lemma NeverSaturates(ops: seq<Op>, op: Op, h: int)
    requires NeverStale(ops) && h in After(ops).ws
    ensures TakenSize(After(ops), op, h) <= After(ops).ws[h].queuedBytes <= WS_SEND_MARK
  {
    var s := After(ops);
    AccountingOverRuns(ops);
    if TakenAt(s, op).Some? {
      QueuedBytesWithout(s.events, TakenAt(s, op).value, h);
    }
  }

  /** ws_ready says 1 exactly when the socket is gone or failed, or one more byte would be accepted. */
  lemma ReadyMeansRoom(s: RelayState, h: int, b: byte)
    ensures NetWsReady(s, h).code == 1 <==> h !in s.ws || s.ws[h].failed || NetWsSend(s, h, [b]).1.code == 1
  {
    assert AsI32(1) == 1;
  }

  // ---------- the first 2^31 - 1 allocations ----------

  /** The call takes a handle. */
  predicate Allocates(op: Op) {
    || op.HttpRequest? || op.WsConnect? || op.Approve?
    || (op.CallStart? && !CallRejected(op.request, op.sidecarOnly))
    || (op.PersistStart? && !PersistMalformed(op.request))
  }

  function Allocations(ops: seq<Op>): nat {
    if ops == [] then 0 else Allocations(ops[..|ops| - 1]) + if Allocates(ops[|ops| - 1]) then 1 else 0
  }

  lemma {:induction false} AllocationCounter(ops: seq<Op>)
    ensures After(ops).next == CounterAt(Allocations(ops))
  {
    if ops != [] {
      var before, op := ops[..|ops| - 1], ops[|ops| - 1];
      AllocationCounter(before);
      OneMoreAllocation(After(before), op, Allocations(before));
    }
  }

  lemma OneMoreAllocation(s: Readable, op: Op, n: nat)
    requires s.next == CounterAt(n)
    ensures Apply(s, op).0.next == CounterAt(if Allocates(op) then n + 1 else n)
  {
    NextStep(s, op);
  }

  lemma NextStep(s: Readable, op: Op)
    ensures Apply(s, op).0.next == if Allocates(op) then CounterAfter(s.next) else s.next
  {
  }

  /** The sends and calls in the queue and the live sockets all carry handles up to `n`. */
  ghost predicate HandlesUpTo(events: seq<Event>, sockets: set<int>, n: nat) {
    && (forall k :: 0 <= k < |events| && (events[k].WsSend? || events[k].HostCall?) ==> events[k].handle <= n)
    && (forall h :: h in sockets ==> h <= n)
  }

  lemma EmittedHandle(s: RelayState, op: Op)
    ensures Emitted(s, op).Some? && Emitted(s, op).value.HostCall? ==>
      Allocates(op) && Emitted(s, op).value.handle == AllocatedHandle(s.next)
    ensures Emitted(s, op).Some? && Emitted(s, op).value.WsSend? ==> Emitted(s, op).value.handle in s.ws.Keys
    ensures op.WsConnect? ==> Allocates(op)
  {
  }

  lemma HandlesStep(s: Readable, op: Op, n: nat)
    requires HandlesUpTo(s.events, s.ws.Keys, n) && (Allocates(op) ==> AllocatedHandle(s.next) == n + 1)
    ensures HandlesUpTo(Apply(s, op).0.events, Apply(s, op).0.ws.Keys, if Allocates(op) then n + 1 else n)
  {
    QueueLaw(s, op);
    EmittedHandle(s, op);
    SocketsStep(s, op);
  }

  lemma {:induction false} HandlesBounded(ops: seq<Op>)
    requires Allocations(ops) <= MAX_HANDLE
    ensures HandlesUpTo(After(ops).events, After(ops).ws.Keys, Allocations(ops))
  {
    if ops != [] {
      var before, op := ops[..|ops| - 1], ops[|ops| - 1];
      HandlesBounded(before);
      if Allocates(op) {
        NextHandleIs(before);
      }
      HandlesStep(After(before), op, Allocations(before));
    }
  }

  lemma NextHandleIs(ops: seq<Op>)
    requires Allocations(ops) < MAX_HANDLE
    ensures AllocatedHandle(After(ops).next) == Allocations(ops) + 1
  {
    AllocationCounter(ops);
    EarlyHandle(Allocations(ops));
  }

  lemma {:induction false} NoneQueued(events: seq<Event>, h: int)
    requires forall k :: 0 <= k < |events| ==> !IsSend(events[k], h)
    ensures QueuedBytes(events, h) == 0
  {
    if events != [] {
      NoneQueued(events[1..], h);
    }
  }

  /** Within 2^31 - 1 allocations no socket and no host call reuses a handle that is still queued. */
  lemma {:induction false} FewAllocationsAreFresh(ops: seq<Op>)
    requires Allocations(ops) <= MAX_HANDLE
    ensures NeverStale(ops) && FreshCalls(ops)
  {
    if ops != [] {
      var before, op := ops[..|ops| - 1], ops[|ops| - 1];
      FewAllocationsAreFresh(before);
      HandlesBounded(before);
      if Allocates(op) {
        NextHandleIs(before);
        NewHandleIsFresh(After(before), Allocations(before));
      }
    }
  }

  lemma NewHandleIsFresh(s: RelayState, n: nat)
    requires HandlesUpTo(s.events, s.ws.Keys, n) && AllocatedHandle(s.next) == n + 1
    ensures NoCallQueued(s) && QueuedBytes(s.events, AllocatedHandle(s.next)) == 0
  {
    NoneQueued(s.events, n + 1);
  }

  /** So in a run with at most 2^31 - 1 allocations, every live socket's counter is exact and within the mark. */
  lemma AccountingWithinTheMark(ops: seq<Op>)
    requires Allocations(ops) <= MAX_HANDLE
    ensures Accounted(After(ops))
  {
    FewAllocationsAreFresh(ops);
    AccountingOverRuns(ops);
  }

  // ---------- and right after them ----------

  function Requests(n: nat): seq<Op> {
    if n == 0 then [] else Requests(n - 1) + [Op.HttpRequest([])]
  }

  lemma AfterSnoc(ops: seq<Op>, op: Op)
    ensures After(ops + [op]) == Apply(After(ops), op).0
    ensures Allocations(ops + [op]) == Allocations(ops) + if Allocates(op) then 1 else 0
  {
    assert (ops + [op])[..|ops|] == ops;
  }

  lemma RequestStep(s: Readable, h: int)
    ensures QueuedBytes(Apply(s, Op.HttpRequest([])).0.events, h) == QueuedBytes(s.events, h)
  {
    QueuedBytesSnoc(s.events, Event.HttpRequest(AllocatedHandle(s.next), []), h);
  }

  /** Any number of HTTP requests takes as many handles and queues no sends. */
  lemma {:induction false} AfterRequests(ops: seq<Op>, n: nat, all: seq<Op>, h: int)
    requires all == ops + Requests(n)
    ensures QueuedBytes(After(all).events, h) == QueuedBytes(After(ops).events, h)
    ensures Allocations(all) == Allocations(ops) + n
  {
    if n == 0 {
      assert all == ops;
    } else {
      var before := ops + Requests(n - 1);
      assert all == before + [Op.HttpRequest([])];
      AfterRequests(ops, n - 1, before, h);
      OneMoreRequest(before, h);
    }
  }

  lemma OneMoreRequest(before: seq<Op>, h: int)
    ensures QueuedBytes(After(before + [Op.HttpRequest([])]).events, h) == QueuedBytes(After(before).events, h)
    ensures Allocations(before + [Op.HttpRequest([])]) == Allocations(before) + 1
  {
    AfterSnoc(before, Op.HttpRequest([]));
    RequestStep(After(before), h);
  }

  const SOCKET_OPEN: seq<Op> := [Op.WsConnect(""), Op.WsOpen(1, true)]
  const ONE_BYTE_QUEUED: seq<Op> := SOCKET_OPEN + [Op.WsSend(1, [0])]

  lemma SocketOpen()
    ensures After(SOCKET_OPEN).ws == map[1 := EMPTY_WS.(open := true)]
    ensures After(SOCKET_OPEN).events == [Event.WsConnect(1, "")]
    ensures Allocations(SOCKET_OPEN) == 1
  {
    var connected := [Op.WsConnect("")];
    assert connected == [] + [Op.WsConnect("")];
    AfterSnoc([], Op.WsConnect(""));
    assert AsI32(1) == 1;
    assert SOCKET_OPEN == connected + [Op.WsOpen(1, true)];
    AfterSnoc(connected, Op.WsOpen(1, true));
  }

  lemma OneByteQueued()
    ensures QueuedBytes(After(ONE_BYTE_QUEUED).events, 1) == 1
    ensures Allocations(ONE_BYTE_QUEUED) == 1
  {
    SocketOpen();
    AfterSnoc(SOCKET_OPEN, Op.WsSend(1, [0]));
    var events := [Event.WsConnect(1, "")];
    assert !SendRefused(After(SOCKET_OPEN), 1, [0]);
    assert After(ONE_BYTE_QUEUED).events == events + [Event.WsSend(1, [0])];
    QueuedBytesSnoc(events, Event.WsSend(1, [0]), 1);
    assert events[1..] == [];
  }

  /**
   The bound on allocations is the best possible. One socket sends a byte that nobody pulls; after
   2^31 - 2 more allocations the next socket gets the same handle, and its counter misses that byte.
   */
  lemma WrapBreaksAccounting()
    ensures var full := ONE_BYTE_QUEUED + Requests(MAX_HANDLE - 1);
            && Allocations(full) == MAX_HANDLE && Accounted(After(full))
            && OpensStale(After(full), Op.WsConnect("")) && !Accounted(After(full + [Op.WsConnect("")]))
  {
    var full := ONE_BYTE_QUEUED + Requests(MAX_HANDLE - 1);
    OneByteQueued();
    AfterRequests(ONE_BYTE_QUEUED, MAX_HANDLE - 1, full, 1);
    AccountingWithinTheMark(full);
    AllocationCounter(full);
    KthHandle(MAX_HANDLE);
    DivModUnique(MAX_HANDLE, MAX_HANDLE, 1, 0);
    AfterSnoc(full, Op.WsConnect(""));
    AccountingStep(After(full), Op.WsConnect(""));
  }

  lemma RequestKeepsTheQueue(before: seq<Op>)
    ensures var all := before + [Op.HttpRequest([])];
      After(before).events <= After(all).events && (FreshCalls(before) ==> FreshCalls(all))
      && Allocations(all) == Allocations(before) + 1
  {
    AfterSnoc(before, Op.HttpRequest([]));
    QueueLaw(After(before), Op.HttpRequest([]));
    assert (before + [Op.HttpRequest([])])[..|before|] == before;
  }

  lemma {:induction false} RequestsKeepTheQueue(ops: seq<Op>, n: nat, all: seq<Op>)
    requires all == ops + Requests(n)
    ensures After(ops).events <= After(all).events && (FreshCalls(ops) ==> FreshCalls(all))
    ensures Allocations(all) == Allocations(ops) + n
  {
    if n == 0 {
      assert all == ops;
    } else {
      var before := ops + Requests(n - 1);
      assert all == before + [Op.HttpRequest([])];
      RequestKeepsTheQueue(before);
      RequestsKeepTheQueue(ops, n - 1, before);
    }
  }

  const ONE_CALL: seq<Op> := [Op.CallStart([], false)]

  lemma OneCallQueued()
    ensures FreshCalls(ONE_CALL) && Allocations(ONE_CALL) == 1
    ensures After(ONE_CALL).events != [] && IsCall(After(ONE_CALL).events[0], 1)
  {
    assert ONE_CALL == [] + [Op.CallStart([], false)];
    AfterSnoc([], Op.CallStart([], false));
    assert ONE_CALL[..0] == [];
  }

  /**
   For host calls too the bound is the best possible. One call waits in the queue; after 2^31 - 2 more allocations
   the next one gets the same handle, and two calls are queued for one slot.
   */
  lemma WrapDoublesACall()
    ensures var full := ONE_CALL + Requests(MAX_HANDLE - 1);
      && Allocations(full) == MAX_HANDLE && FreshCalls(full)
      && !FreshCalls(full + ONE_CALL) && !CallsExact(After(full + ONE_CALL))
  {
    var full, call := ONE_CALL + Requests(MAX_HANDLE - 1), Op.CallStart([], false);
    OneCallQueued();
    RequestsKeepTheQueue(ONE_CALL, MAX_HANDLE - 1, full);
    AllocationCounter(full);
    KthHandle(MAX_HANDLE);
    DivModUnique(MAX_HANDLE, MAX_HANDLE, 1, 0);
    assert After(full).events[0] in After(full).events;
    StaleCallIsDoubled(After(full), call);
    AfterSnoc(full, call);
    assert (full + [call])[..|full|] == full;
  }
}
