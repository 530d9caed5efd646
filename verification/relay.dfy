/**
 The relay operations of relay.rs, each run under one mutex, as functions on the relay state.
 The guest side is FlutterNet, FlutterHostCall, FlutterPersist and the push half of FlutterToolApprover;
 the host side is the pull and respond family. Run executes any sequence of them and keeps a log of
 what the two sides observed; the theorems about runs are in relay_delivery, relay_accounting and relay_reads.
 */
module Relay {
  import opened Bytes
  import opened Table

  const WS_SEND_MARK: nat := 256 * 1024

  /** The name "mc.sidecar". */
  const SIDECAR: bytes := [0x6d, 0x63, 0x2e, 0x73, 0x69, 0x64, 0x65, 0x63, 0x61, 0x72]

  /**
   What a call hands out: its code, the bytes it copied into the caller's buffer, the event it delivered,
   and the decision it sent to the caller waiting on an approval handle.
   */
  datatype Reply =
    Reply(code: int, data: bytes, event: Option<Event>, decision: Option<(int, ApprovalDecision)>)

  function Code(code: int): Reply {
    Reply(code, [], None, None)
  }

  /** `n` bytes copied, `n as i32` returned. */
  function Copied(data: bytes): Reply {
    Reply(AsI32(|data|), data, None, None)
  }

  // ---------- guest: net ----------

  function NetHttpRequest(s: RelayState, request: bytes): (RelayState, Reply) {
    var h := AllocatedHandle(s.next);
    (s.(next := CounterAfter(s.next),
        http := s.http[h := EMPTY_HTTP],
        events := s.events + [Event.HttpRequest(h, request)]),
     Code(h))
  }

  function NetHttpPoll(s: RelayState, h: int, cap: nat): Reply {
    if h !in s.http then Code(-1)
    else if !s.http[h].done then Code(0)
    else if s.http[h].failed then Code(-1)
    else Copied(s.http[h].head[..Min(|s.http[h].head|, cap)])
  }

  function NetHttpBody(s: RelayState, h: int, cap: nat): (RelayState, Reply) {
    if h !in s.http then (s, Code(-1))
    else
      var slot := s.http[h];
      if !slot.done then (s, Code(0))
      else if slot.failed then (s, Code(-1))
      else
        var start := Min(slot.bodyPos, |slot.body|);
        var n := Min(|slot.body| - start, cap);
        (s.(http := s.http[h := slot.(bodyPos := slot.bodyPos + n)]), Copied(slot.body[start..start + n]))
  }

  function NetHttpClose(s: RelayState, h: int): (RelayState, Reply) {
    (s.(http := s.http - {h}), Code(0))
  }

  function NetWsConnect(s: RelayState, url: string): (RelayState, Reply) {
    var h := AllocatedHandle(s.next);
    (s.(next := CounterAfter(s.next),
        ws := s.ws[h := EMPTY_WS],
        events := s.events + [Event.WsConnect(h, url)]),
     Code(h))
  }

  predicate SendRefused(s: RelayState, h: int, data: bytes) {
    || h !in s.ws || s.ws[h].failed || |data| > WS_SEND_MARK
    || !s.ws[h].open || s.ws[h].queuedBytes + |data| > WS_SEND_MARK
  }

  function NetWsSend(s: RelayState, h: int, data: bytes): (RelayState, Reply) {
    if SendRefused(s, h, data) then (s, Code(-1))
    else
      (s.(ws := s.ws[h := s.ws[h].(queuedBytes := s.ws[h].queuedBytes + |data|)],
          events := s.events + [Event.WsSend(h, data)]),
       Code(AsI32(|data|)))
  }

  function NetWsReady(s: RelayState, h: int): Reply {
    if h !in s.ws || s.ws[h].failed || (s.ws[h].open && s.ws[h].queuedBytes < WS_SEND_MARK)
    then Code(1) else Code(0)
  }

  /** Requires that the read position lies inside the front message: ws_recv subtracts the two unchecked. */
  function NetWsRecv(s: RelayState, h: int, cap: nat): (RelayState, Reply)
    requires h in s.ws ==> InsideFront(s.ws[h])
  {
    if h !in s.ws then (s, Code(-1))
    else
      var slot := s.ws[h];
      if slot.failed then (s, Code(-1))
      else if slot.incoming == [] then (s, Code(0))
      else
        var front := slot.incoming[0];
        var n := Min(|front| - slot.incomingPos, cap);
        (s.(ws := s.ws[h := MovedOn(slot, n)]), Copied(front[slot.incomingPos..slot.incomingPos + n]))
  }

  /** The read position moves by `n`, and off the front message when that is used up. */
  function MovedOn(slot: WsSlot, n: nat): WsSlot
    requires slot.incoming != []
  {
    if slot.incomingPos + n >= |slot.incoming[0]| then slot.(incoming := slot.incoming[1..], incomingPos := 0)
    else slot.(incomingPos := slot.incomingPos + n)
  }

  predicate InsideFront(slot: WsSlot) {
    slot.incoming != [] ==> slot.incomingPos < |slot.incoming[0]| || slot.incomingPos == 0
  }

  function NetWsClose(s: RelayState, h: int): (RelayState, Reply) {
    (s.(ws := s.ws - {h}, events := s.events + [Event.WsClose(h)]), Code(0))
  }

  // ---------- guest: tool approval (the push half; the caller then blocks on the reply channel) ----------

  function GuestApprove(s: RelayState, facts: ApprovalFacts): (RelayState, Reply) {
    var h := AllocatedHandle(s.next);
    (s.(next := CounterAfter(s.next),
        approvals := s.approvals + {h},
        events := s.events + [Event.ToolApproval(h, facts)]),
     Code(h))
  }

  // ---------- guest: host calls ----------

  function RequestName(req: bytes): bytes {
    req[..FindNul(req)]
  }

  function RequestBody(req: bytes): bytes {
    if FindNul(req) < |req| then req[FindNul(req) + 1..] else []
  }

  predicate CallRejected(req: bytes, sidecarOnly: bool) {
    sidecarOnly && RequestName(req) != SIDECAR
  }

  function GuestCallStart(s: RelayState, req: bytes, sidecarOnly: bool): (RelayState, Reply) {
    if CallRejected(req, sidecarOnly) then (s, Code(-1))
    else
      var h := AllocatedHandle(s.next);
      var slot := HostCallSlot(false, RequestName(req) == SIDECAR, false, false, [], 0);
      (s.(next := CounterAfter(s.next),
          hostCalls := s.hostCalls[h := slot],
          events := s.events + [Event.HostCall(h, RequestName(req), RequestBody(req))]),
       Code(h))
  }

  function GuestCallPoll(s: RelayState, h: int): Reply {
    if h !in s.hostCalls || s.hostCalls[h].failed then Code(-1)
    else if s.hostCalls[h].done then Code(1) else Code(0)
  }

  function GuestCallBody(s: RelayState, h: int, cap: nat): (RelayState, Reply) {
    if h !in s.hostCalls then (s, Code(-1))
    else
      var slot := s.hostCalls[h];
      if !slot.done then (s, Code(0))
      else if slot.failed then (s, Code(-1))
      else if |slot.result| <= slot.offset then (s, Code(0))
      else
        var n := Min(|slot.result| - slot.offset, cap);
        (s.(hostCalls := s.hostCalls[h := slot.(offset := slot.offset + n)]),
         Copied(slot.result[slot.offset..slot.offset + n]))
  }

  function GuestCallClose(s: RelayState, h: int): (RelayState, Reply) {
    var sidecar := h in s.hostCalls && s.hostCalls[h].sidecar;
    (s.(hostCalls := s.hostCalls - {h}, events := s.events + [Event.HostCallClose(h, sidecar)]), Code(0))
  }

  // ---------- guest: persist ----------

  function U32LE(b: bytes): int
    requires |b| == 4
  {
    b[0] as int + 0x100 * (b[1] as int) + 0x1_0000 * (b[2] as int) + 0x100_0000 * (b[3] as int)
  }

  predicate PersistMalformed(req: bytes) {
    |req| < 8 || |req| < 8 + U32LE(req[4..8])
  }

  /** The event for a well-formed request, or None for an operation code the host does not know. */
  function PersistEvent(h: int, req: bytes): Option<Event>
    requires !PersistMalformed(req)
  {
    var split := 8 + U32LE(req[4..8]);
    match U32LE(req[..4])
    case 0 => Some(Event.PersistGet(h, req[8..split]))
    case 1 => Some(Event.PersistPut(h, req[8..split], req[split..]))
    case 2 => Some(Event.PersistDelete(h, req[8..split]))
    case 3 => Some(Event.PersistList(h, req[8..split]))
    case _ => None
  }

  /** The slot is inserted before the operation is looked at, so an unknown one leaves it behind. */
  function GuestPersistStart(s: RelayState, req: bytes): (RelayState, Reply) {
    if PersistMalformed(req) then (s, Code(-1))
    else
      var h := AllocatedHandle(s.next);
      var s' := s.(next := CounterAfter(s.next), persist := s.persist[h := EMPTY_PERSIST]);
      match PersistEvent(h, req)
      case None => (s', Code(-1))
      case Some(e) => (s'.(events := s.events + [e]), Code(h))
  }

  function GuestPersistPoll(s: RelayState, h: int): Reply {
    if h !in s.persist || s.persist[h].failed then Code(-1)
    else if s.persist[h].done then Code(1) else Code(0)
  }

  function GuestPersistBody(s: RelayState, h: int, cap: nat): (RelayState, Reply) {
    if h !in s.persist then (s, Code(-1))
    else
      var slot := s.persist[h];
      if !slot.done then (s, Code(0))
      else if slot.failed then (s, Code(-1))
      else if |slot.result| <= slot.offset then (s, Code(0))
      else
        var n := Min(|slot.result| - slot.offset, cap);
        (s.(persist := s.persist[h := slot.(offset := slot.offset + n)]),
         Copied(slot.result[slot.offset..slot.offset + n]))
  }

  function GuestPersistClose(s: RelayState, h: int): (RelayState, Reply) {
    (s.(persist := s.persist - {h}), Code(0))
  }

  // ---------- host: pulling events ----------

  predicate IsSidecar(e: Event) {
    (e.HostCall? && e.name == SIDECAR) || (e.HostCallClose? && e.sidecar)
  }

  /** The position of the first sidecar event, or the queue's length when there is none. */
  function FirstSidecar(events: seq<Event>): (n: nat)
    ensures n <= |events|
    ensures n < |events| ==> IsSidecar(events[n])
    ensures forall k :: 0 <= k < n ==> !IsSidecar(events[k])
  {
    if events == [] || IsSidecar(events[0]) then 0 else 1 + FirstSidecar(events[1..])
  }

  /** dispatch_relay_event and the slot update inside wire_relay_event; the subtraction saturates. */
  function Dispatch(s: RelayState, e: Event): RelayState {
    match e
    case HostCall(h, _, _) =>
      if h in s.hostCalls then s.(hostCalls := s.hostCalls[h := s.hostCalls[h].(dispatched := true)]) else s
    case WsSend(h, data) =>
      if h in s.ws then
        var left := if s.ws[h].queuedBytes < |data| then 0 else s.ws[h].queuedBytes - |data|;
        s.(ws := s.ws[h := s.ws[h].(queuedBytes := left)])
      else s
    case _ => s
  }

  function DeliverAt(s: RelayState, i: nat): (RelayState, Reply)
    requires i < |s.events|
  {
    (Dispatch(s.(events := Without(s.events, i)), s.events[i]), Reply(0, [], Some(s.events[i]), None))
  }

  function RelayNext(s: RelayState): (RelayState, Reply) {
    if s.events == [] then (s, Code(0)) else DeliverAt(s, 0)
  }

  function RelayNextSidecar(s: RelayState): (RelayState, Reply) {
    var i := FirstSidecar(s.events);
    if i == |s.events| then (s, Code(0)) else DeliverAt(s, i)
  }

  // ---------- host: answering; a handle arrives as i64 and is cast to i32 ----------

  function RelayHttpRespond(s: RelayState, handle: int, ok: bool, head: bytes, body: bytes): (RelayState, Reply) {
    var h := AsI32(handle);
    if handle <= 0 || h !in s.http then (s, Code(-1))
    else (s.(http := s.http[h := HttpSlot(true, !ok, head, body, 0)]), Code(0))
  }

  function RelayCallRespond(s: RelayState, handle: int, ok: bool, result: bytes): (RelayState, Reply) {
    var h := AsI32(handle);
    if handle <= 0 || h !in s.hostCalls then (s, Code(-1))
    else
      var slot := s.hostCalls[h].(done := true, failed := !ok, result := result, offset := 0);
      (s.(hostCalls := s.hostCalls[h := slot]), Code(0))
  }

  function RelayPersistRespond(s: RelayState, handle: int, ok: bool, result: bytes): (RelayState, Reply) {
    var h := AsI32(handle);
    if handle <= 0 || h !in s.persist then (s, Code(-1))
    else (s.(persist := s.persist[h := PersistSlot(true, !ok, result, 0)]), Code(0))
  }

  /** Takes the waiting sender, if there is one, and sends it the decision. */
  function RelayApprovalRespond(s: RelayState, handle: int, decision: ApprovalDecision): (RelayState, Reply) {
    var h := AsI32(handle);
    if handle <= 0 then (s, Code(-1))
    else if h !in s.approvals then (s, Code(0))
    else (s.(approvals := s.approvals - {h}), Reply(0, [], None, Some((h, decision))))
  }

  function RelayWsOpen(s: RelayState, handle: int, ok: bool): (RelayState, Reply) {
    var h := AsI32(handle);
    if handle <= 0 || h !in s.ws then (s, Code(-1))
    else (s.(ws := s.ws[h := s.ws[h].(open := ok, failed := !ok)]), Code(0))
  }

  function RelayWsPush(s: RelayState, handle: int, data: bytes): (RelayState, Reply) {
    var h := AsI32(handle);
    if handle <= 0 || h !in s.ws then (s, Code(-1))
    else (s.(ws := s.ws[h := s.ws[h].(incoming := s.ws[h].incoming + [data])]), Code(0))
  }

  function RelayWsClose(s: RelayState, handle: int): (RelayState, Reply) {
    var h := AsI32(handle);
    if handle <= 0 then (s, Code(-1))
    else if h !in s.ws then (s, Code(0))
    else (s.(ws := s.ws[h := s.ws[h].(open := false)]), Code(0))
  }

  // ---------- steps and runs ----------

  /** One call by the guest or the host that can change the relay. */
  datatype Op =
    | HttpRequest(request: bytes)
    | HttpBody(h: int, cap: nat)
    | HttpClose(h: int)
    | WsConnect(url: string)
    | WsSend(h: int, data: bytes)
    | WsRecv(h: int, cap: nat)
    | WsClose(h: int)
    | Approve(facts: ApprovalFacts)
    | CallStart(request: bytes, sidecarOnly: bool)
    | CallBody(h: int, cap: nat)
    | CallClose(h: int)
    | PersistStart(request: bytes)
    | PersistBody(h: int, cap: nat)
    | PersistClose(h: int)
    | Next
    | NextSidecar
    | HttpRespond(h: int, ok: bool, head: bytes, body: bytes)
    | CallRespond(h: int, ok: bool, result: bytes)
    | PersistRespond(h: int, ok: bool, result: bytes)
    | ApprovalRespond(h: int, decision: ApprovalDecision)
    | WsOpen(h: int, ok: bool)
    | WsPush(h: int, data: bytes)
    | WsHostClose(h: int)

  /** Every live socket's read position is inside its front message, so ws_recv never underflows. */
  predicate SocketsReadable(s: RelayState) {
    forall h :: h in s.ws ==> InsideFront(s.ws[h]) && (s.ws[h].incoming == [] ==> s.ws[h].incomingPos == 0)
  }

  function Apply(s: RelayState, op: Op): (r: (RelayState, Reply))
    requires SocketsReadable(s)
    ensures SocketsReadable(r.0)
  {
    match op
    case HttpRequest(request) => NetHttpRequest(s, request)
    case HttpBody(h, cap) => NetHttpBody(s, h, cap)
    case HttpClose(h) => NetHttpClose(s, h)
    case WsConnect(url) => NetWsConnect(s, url)
    case WsSend(h, data) => NetWsSend(s, h, data)
    case WsRecv(h, cap) => NetWsRecv(s, h, cap)
    case WsClose(h) => NetWsClose(s, h)
    case Approve(facts) => GuestApprove(s, facts)
    case CallStart(request, sidecarOnly) => GuestCallStart(s, request, sidecarOnly)
    case CallBody(h, cap) => GuestCallBody(s, h, cap)
    case CallClose(h) => GuestCallClose(s, h)
    case PersistStart(request) => GuestPersistStart(s, request)
    case PersistBody(h, cap) => GuestPersistBody(s, h, cap)
    case PersistClose(h) => GuestPersistClose(s, h)
    case Next => RelayNext(s)
    case NextSidecar => RelayNextSidecar(s)
    case HttpRespond(h, ok, head, body) => RelayHttpRespond(s, h, ok, head, body)
    case CallRespond(h, ok, result) => RelayCallRespond(s, h, ok, result)
    case PersistRespond(h, ok, result) => RelayPersistRespond(s, h, ok, result)
    case ApprovalRespond(h, decision) => RelayApprovalRespond(s, h, decision)
    case WsOpen(h, ok) => RelayWsOpen(s, h, ok)
    case WsPush(h, data) => RelayWsPush(s, h, data)
    case WsHostClose(h) => RelayWsClose(s, h)
  }

  /** A state that ws_recv can be called in. */
  type Readable = s: RelayState | SocketsReadable(s) witness NEW_RELAY

  /** The state after a run from a new relay. */
  function After(ops: seq<Op>): Readable {
    if ops == [] then NEW_RELAY else Apply(After(ops[..|ops| - 1]), ops[|ops| - 1]).0
  }

  /** What the last call of a nonempty run returned. */
  function LastReply(ops: seq<Op>): Reply
    requires ops != []
  {
    Apply(After(ops[..|ops| - 1]), ops[|ops| - 1]).1
  }
}
