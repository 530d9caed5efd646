/**
 The relay as the object the source keeps behind its mutex: each method updates the queue and the slot maps
 in place and is proved to do exactly what the operation of the same name does to the relay state. `ops` is the
 history of the object, so all that is proved about runs holds of it.
 */
module RelayHost {
  import opened Bytes
  import opened Table
  import opened Relay

  /** `data` was copied to the front of the buffer and the rest of it was not touched. */
  predicate Filled(before: bytes, after: bytes, data: bytes) {
    |data| <= |before| && after == data + before[|data|..]
  }

  method CopyInto(buf: array<byte>, data: bytes)
    requires |data| <= buf.Length
    modifies buf
    ensures Filled(old(buf[..]), buf[..], data)
  {
    forall i | 0 <= i < |data| {
      buf[i] := data[i];
    }
    assert buf[..] == buf[..|data|] + buf[|data|..];
  }

  /** fill_buf: reports the length, and copies only when all of `src` fits. */
  method FillBuf(buf: array<byte>, src: bytes) returns (code: int, length: nat)
    modifies buf
    ensures length == |src|
    ensures code == if |src| <= buf.Length then 0 else -1
    ensures if code == 0 then Filled(old(buf[..]), buf[..], src) else buf[..] == old(buf[..])
  {
    length := |src|;
    if src == [] {
      return 0, length;
    }
    if buf.Length < |src| {
      return -1, length;
    }
    CopyInto(buf, src);
    code := 0;
  }

  method FindSidecar(events: seq<Event>) returns (n: nat)
    ensures n == FirstSidecar(events)
  {
    n := 0;
    while n < |events| && !IsSidecar(events[n])
      invariant n <= |events| && forall k :: 0 <= k < n ==> !IsSidecar(events[k])
    {
      n := n + 1;
    }
  }

  class RelayHost {
    var next: int
    var events: seq<Event>
    var http: map<int, HttpSlot>
    var hostCalls: map<int, HostCallSlot>
    var persist: map<int, PersistSlot>
    var ws: map<int, WsSlot>
    var approvals: set<int>
    // all calls made so far
    ghost var ops: seq<Op>

    ghost function View(): RelayState
      reads this
    {
      RelayState(next, events, http, hostCalls, persist, ws, approvals)
    }

    /** The object is what its history makes it. */
    ghost predicate Valid()
      reads this
    {
      View() == After(ops)
    }

    /** Enters the call that is about to be made into the history. */
    ghost method Calls(op: Op)
      requires Valid()
      modifies this`ops
      ensures ops == old(ops) + [op] && SocketsReadable(View()) && After(ops) == Apply(View(), op).0
    {
      assert (ops + [op])[..|ops|] == ops;
      ops := ops + [op];
    }

    constructor ()
      ensures Valid() && ops == []
    {
      next, events, approvals := 1, [], {};
      http, hostCalls, persist, ws := map[], map[], map[], map[];
      ops := [];
    }

    method AllocHandle() returns (h: int)
      modifies this`next
      ensures h == AllocatedHandle(old(next)) && next == CounterAfter(old(next))
    {
      if next <= 0 {
        next := 1;
      }
      h := next;
      next := AsI32(next + 1);
      if next < 1 {
        next := 1;
      }
    }

    method HttpRequest(request: bytes) returns (code: int)
      requires Valid()
      modifies this
      ensures ops == old(ops) + [Op.HttpRequest(request)]
      ensures Valid() && (View(), Code(code)) == NetHttpRequest(old(View()), request)
    {
      Calls(Op.HttpRequest(request));
      var h := AllocHandle();
      http := http[h := EMPTY_HTTP];
      events := events + [Event.HttpRequest(h, request)];
      code := h;
    }

    method HttpPoll(h: int, buf: array<byte>) returns (code: int)
      modifies buf
      ensures code == NetHttpPoll(View(), h, buf.Length).code
      ensures Filled(old(buf[..]), buf[..], NetHttpPoll(View(), h, buf.Length).data)
    {
      if h !in http {
        return -1;
      }
      var slot := http[h];
      if !slot.done {
        return 0;
      }
      if slot.failed {
        return -1;
      }
      var n := Min(|slot.head|, buf.Length);
      CopyInto(buf, slot.head[..n]);
      code := AsI32(n);
    }

    method HttpBody(h: int, buf: array<byte>) returns (code: int)
      requires Valid()
      modifies this, buf
      ensures ops == old(ops) + [Op.HttpBody(h, buf.Length)]
      ensures Valid() && View() == NetHttpBody(old(View()), h, buf.Length).0
      ensures code == NetHttpBody(old(View()), h, buf.Length).1.code
      ensures Filled(old(buf[..]), buf[..], NetHttpBody(old(View()), h, buf.Length).1.data)
    {
      Calls(Op.HttpBody(h, buf.Length));
      if h !in http {
        return -1;
      }
      var slot := http[h];
      if !slot.done {
        return 0;
      }
      if slot.failed {
        return -1;
      }
      var start := Min(slot.bodyPos, |slot.body|);
      var n := Min(|slot.body| - start, buf.Length);
      CopyInto(buf, slot.body[start..start + n]);
      http := http[h := slot.(bodyPos := slot.bodyPos + n)];
      code := AsI32(n);
    }

    method HttpClose(h: int)
      requires Valid()
      modifies this
      ensures ops == old(ops) + [Op.HttpClose(h)]
      ensures Valid() && View() == NetHttpClose(old(View()), h).0
    {
      Calls(Op.HttpClose(h));
      http := http - {h};
    }

    method WsConnect(url: string) returns (code: int)
      requires Valid()
      modifies this
      ensures ops == old(ops) + [Op.WsConnect(url)]
      ensures Valid() && (View(), Code(code)) == NetWsConnect(old(View()), url)
    {
      Calls(Op.WsConnect(url));
      var h := AllocHandle();
      ws := ws[h := EMPTY_WS];
      events := events + [Event.WsConnect(h, url)];
      code := h;
    }

    method WsSend(h: int, data: bytes) returns (code: int)
      requires Valid()
      modifies this
      ensures ops == old(ops) + [Op.WsSend(h, data)]
      ensures Valid() && (View(), Code(code)) == NetWsSend(old(View()), h, data)
    {
      Calls(Op.WsSend(h, data));
      if h !in ws {
        return -1;
      }
      var slot := ws[h];
      if slot.failed {
        return -1;
      }
      if |data| > WS_SEND_MARK {
        return -1;
      }
      if !slot.open || slot.queuedBytes + |data| > WS_SEND_MARK {
        return -1;
      }
      ws := ws[h := slot.(queuedBytes := slot.queuedBytes + |data|)];
      events := events + [Event.WsSend(h, data)];
      code := AsI32(|data|);
    }

    method WsReady(h: int) returns (code: int)
      ensures Code(code) == NetWsReady(View(), h)
    {
      if h !in ws {
        return 1;
      }
      if ws[h].failed || (ws[h].open && ws[h].queuedBytes < WS_SEND_MARK) {
        code := 1;
      } else {
        code := 0;
      }
    }

    method MoveOn(slot: WsSlot, n: nat) returns (moved: WsSlot)
      requires slot.incoming != []
      ensures moved == MovedOn(slot, n)
    {
      moved := slot.(incomingPos := slot.incomingPos + n);
      if moved.incomingPos >= |moved.incoming[0]| {
        moved := moved.(incoming := moved.incoming[1..], incomingPos := 0);
      }
    }

    method WsRecv(h: int, buf: array<byte>) returns (code: int)
      requires Valid()
      modifies this, buf
      ensures ops == old(ops) + [Op.WsRecv(h, buf.Length)]
      ensures Valid() && View() == NetWsRecv(old(View()), h, buf.Length).0
      ensures code == NetWsRecv(old(View()), h, buf.Length).1.code
      ensures Filled(old(buf[..]), buf[..], NetWsRecv(old(View()), h, buf.Length).1.data)
    {
      Calls(Op.WsRecv(h, buf.Length));
      if h !in ws {
        return -1;
      }
      var slot := ws[h];
      if slot.failed {
        return -1;
      }
      if slot.incoming == [] {
        return 0;
      }
      var front := slot.incoming[0];
      var n := Min(|front| - slot.incomingPos, buf.Length);
      CopyInto(buf, front[slot.incomingPos..slot.incomingPos + n]);
      slot := MoveOn(slot, n);
      ws := ws[h := slot];
      code := AsI32(n);
    }

    method WsClose(h: int)
      requires Valid()
      modifies this
      ensures ops == old(ops) + [Op.WsClose(h)]
      ensures Valid() && View() == NetWsClose(old(View()), h).0
    {
      Calls(Op.WsClose(h));
      ws := ws - {h};
      events := events + [Event.WsClose(h)];
    }

    method Approve(facts: ApprovalFacts) returns (h: int)
      requires Valid()
      modifies this
      ensures ops == old(ops) + [Op.Approve(facts)]
      ensures Valid() && (View(), Code(h)) == GuestApprove(old(View()), facts)
    {
      Calls(Op.Approve(facts));
      h := AllocHandle();
      approvals := approvals + {h};
      events := events + [Event.ToolApproval(h, facts)];
    }

    /** A request is its name, and after a NUL its body. */
    method SplitRequest(req: bytes) returns (name: bytes, body: bytes)
      ensures name == RequestName(req) && body == RequestBody(req)
    {
      var nul := Position(req);
      name := req[..nul];
      body := if nul < |req| then req[nul + 1..] else [];
    }

    method CallStart(req: bytes, sidecarOnly: bool) returns (code: int)
      requires Valid()
      modifies this
      ensures ops == old(ops) + [Op.CallStart(req, sidecarOnly)]
      ensures Valid() && (View(), Code(code)) == GuestCallStart(old(View()), req, sidecarOnly)
    {
      Calls(Op.CallStart(req, sidecarOnly));
      var name, body := SplitRequest(req);
      if sidecarOnly && name != SIDECAR {
        return -1;
      }
      var h := AllocHandle();
      hostCalls := hostCalls[h := HostCallSlot(false, name == SIDECAR, false, false, [], 0)];
      events := events + [Event.HostCall(h, name, body)];
      code := h;
    }

    method CallPoll(h: int) returns (code: int)
      ensures Code(code) == GuestCallPoll(View(), h)
    {
      if h !in hostCalls {
        return -1;
      }
      if hostCalls[h].failed {
        return -1;
      }
      code := if hostCalls[h].done then 1 else 0;
    }

    method CallBody(h: int, buf: array<byte>) returns (code: int)
      requires Valid()
      modifies this, buf
      ensures ops == old(ops) + [Op.CallBody(h, buf.Length)]
      ensures Valid() && View() == GuestCallBody(old(View()), h, buf.Length).0
      ensures code == GuestCallBody(old(View()), h, buf.Length).1.code
      ensures Filled(old(buf[..]), buf[..], GuestCallBody(old(View()), h, buf.Length).1.data)
    {
      Calls(Op.CallBody(h, buf.Length));
      if h !in hostCalls {
        return -1;
      }
      var slot := hostCalls[h];
      if !slot.done {
        return 0;
      }
      if slot.failed {
        return -1;
      }
      if |slot.result| <= slot.offset {
        return 0;
      }
      var n := Min(|slot.result| - slot.offset, buf.Length);
      CopyInto(buf, slot.result[slot.offset..slot.offset + n]);
      hostCalls := hostCalls[h := slot.(offset := slot.offset + n)];
      code := AsI32(n);
    }

    method CallClose(h: int)
      requires Valid()
      modifies this
      ensures ops == old(ops) + [Op.CallClose(h)]
      ensures Valid() && View() == GuestCallClose(old(View()), h).0
    {
      Calls(Op.CallClose(h));
      var sidecar := h in hostCalls && hostCalls[h].sidecar;
      hostCalls := hostCalls - {h};
      events := events + [Event.HostCallClose(h, sidecar)];
    }

    /** The event of an operation on a key; none for an operation code that is not known. */
    method PersistEventOf(h: int, req: bytes) returns (event: Option<Event>)
      requires !PersistMalformed(req)
      ensures event == PersistEvent(h, req)
    {
      var op, keyLen := U32LE(req[..4]), U32LE(req[4..8]);
      var key, value := req[8..8 + keyLen], req[8 + keyLen..];
      if op == 0 {
        return Some(Event.PersistGet(h, key));
      }
      if op == 1 {
        return Some(Event.PersistPut(h, key, value));
      }
      if op == 2 {
        return Some(Event.PersistDelete(h, key));
      }
      if op == 3 {
        return Some(Event.PersistList(h, key));
      }
      return None;
    }

    method PersistStart(req: bytes) returns (code: int)
      requires Valid()
      modifies this
      ensures ops == old(ops) + [Op.PersistStart(req)]
      ensures Valid() && (View(), Code(code)) == GuestPersistStart(old(View()), req)
    {
      Calls(Op.PersistStart(req));
      if PersistMalformed(req) {
        return -1;
      }
      var h := AllocHandle();
      persist := persist[h := EMPTY_PERSIST];
      var event := PersistEventOf(h, req);
      if event.None? {
        return -1;
      }
      events := events + [event.value];
      code := h;
    }

    method PersistPoll(h: int) returns (code: int)
      ensures Code(code) == GuestPersistPoll(View(), h)
    {
      if h !in persist {
        return -1;
      }
      if persist[h].failed {
        return -1;
      }
      code := if persist[h].done then 1 else 0;
    }

    method PersistBody(h: int, buf: array<byte>) returns (code: int)
      requires Valid()
      modifies this, buf
      ensures ops == old(ops) + [Op.PersistBody(h, buf.Length)]
      ensures Valid() && View() == GuestPersistBody(old(View()), h, buf.Length).0
      ensures code == GuestPersistBody(old(View()), h, buf.Length).1.code
      ensures Filled(old(buf[..]), buf[..], GuestPersistBody(old(View()), h, buf.Length).1.data)
    {
      Calls(Op.PersistBody(h, buf.Length));
      if h !in persist {
        return -1;
      }
      var slot := persist[h];
      if !slot.done {
        return 0;
      }
      if slot.failed {
        return -1;
      }
      if |slot.result| <= slot.offset {
        return 0;
      }
      var n := Min(|slot.result| - slot.offset, buf.Length);
      CopyInto(buf, slot.result[slot.offset..slot.offset + n]);
      persist := persist[h := slot.(offset := slot.offset + n)];
      code := AsI32(n);
    }

    method PersistClose(h: int)
      requires Valid()
      modifies this
      ensures ops == old(ops) + [Op.PersistClose(h)]
      ensures Valid() && View() == GuestPersistClose(old(View()), h).0
    {
      Calls(Op.PersistClose(h));
      persist := persist - {h};
    }

    /** dispatch_relay_event, up to the encoding of the frame. */
    method DispatchEvent(e: Event)
      modifies this`hostCalls, this`ws
      ensures View() == Dispatch(old(View()), e)
    {
      if e.HostCall? && e.handle in hostCalls {
        hostCalls := hostCalls[e.handle := hostCalls[e.handle].(dispatched := true)];
      }
      if e.WsSend? && e.handle in ws {
        var slot := ws[e.handle];
        var left := if slot.queuedBytes < |e.data| then 0 else slot.queuedBytes - |e.data|;
        ws := ws[e.handle := slot.(queuedBytes := left)];
      }
    }

    /** pop_event for either consumer. */
    method PopEvent(sidecarOnly: bool) returns (popped: Option<Event>)
      requires Valid()
      modifies this
      ensures ops == old(ops) + [if sidecarOnly then Op.NextSidecar else Op.Next]
      ensures Valid()
      ensures var r := if sidecarOnly then RelayNextSidecar(old(View())) else RelayNext(old(View()));
              View() == r.0 && popped == r.1.event
    {
      Calls(if sidecarOnly then Op.NextSidecar else Op.Next);
      var i := 0;
      if sidecarOnly {
        i := FindSidecar(events);
      }
      if i >= |events| {
        return None;
      }
      var e := events[i];
      events := Without(events, i);
      DispatchEvent(e);
      popped := Some(e);
    }

    /**
     aos_vm_relay_next and aos_vm_relay_next_sidecar. The event is taken off the queue before the buffer is
     looked at, so a buffer shorter than the frame gets -1 and the event is gone.
     */
    method NextInto(sidecarOnly: bool, encode: Event -> bytes, buf: array<byte>) returns (code: int, length: nat)
      requires Valid()
      modifies this, buf
      ensures Valid() && ops == old(ops) + [if sidecarOnly then Op.NextSidecar else Op.Next]
      ensures var r := if sidecarOnly then RelayNextSidecar(old(View())) else RelayNext(old(View()));
              && View() == r.0
              && (match r.1.event
                  case None => code == 0 && length == 0 && buf[..] == old(buf[..])
                  case Some(e) =>
                    && length == |encode(e)|
                    && (if |encode(e)| <= buf.Length then code == 0 && Filled(old(buf[..]), buf[..], encode(e))
                        else code == -1 && buf[..] == old(buf[..])))
    {
      var popped := PopEvent(sidecarOnly);
      match popped
      case None => code, length := 0, 0;
      case Some(e) => code, length := FillBuf(buf, encode(e));
    }

    method HttpRespond(handle: int, ok: bool, head: bytes, body: bytes) returns (code: int)
      requires Valid()
      modifies this
      ensures ops == old(ops) + [Op.HttpRespond(handle, ok, head, body)]
      ensures Valid() && (View(), Code(code)) == RelayHttpRespond(old(View()), handle, ok, head, body)
    {
      Calls(Op.HttpRespond(handle, ok, head, body));
      if handle <= 0 || AsI32(handle) !in http {
        return -1;
      }
      http := http[AsI32(handle) := HttpSlot(true, !ok, head, body, 0)];
      code := 0;
    }

    method CallRespond(handle: int, ok: bool, result: bytes) returns (code: int)
      requires Valid()
      modifies this
      ensures ops == old(ops) + [Op.CallRespond(handle, ok, result)]
      ensures Valid() && (View(), Code(code)) == RelayCallRespond(old(View()), handle, ok, result)
    {
      Calls(Op.CallRespond(handle, ok, result));
      if handle <= 0 || AsI32(handle) !in hostCalls {
        return -1;
      }
      var slot := hostCalls[AsI32(handle)];
      hostCalls := hostCalls[AsI32(handle) := slot.(done := true, failed := !ok, result := result, offset := 0)];
      code := 0;
    }

    method ApprovalRespond(handle: int, decision: ApprovalDecision)
      returns (code: int, sent: Option<(int, ApprovalDecision)>)
      requires Valid()
      modifies this
      ensures ops == old(ops) + [Op.ApprovalRespond(handle, decision)]
      ensures Valid() && (View(), Reply(code, [], None, sent)) == RelayApprovalRespond(old(View()), handle, decision)
    {
      Calls(Op.ApprovalRespond(handle, decision));
      if handle <= 0 {
        return -1, None;
      }
      code, sent := 0, None;
      if AsI32(handle) in approvals {
        approvals := approvals - {AsI32(handle)};
        sent := Some((AsI32(handle), decision));
      }
    }

    method PersistRespond(handle: int, ok: bool, result: bytes) returns (code: int)
      requires Valid()
      modifies this
      ensures ops == old(ops) + [Op.PersistRespond(handle, ok, result)]
      ensures Valid() && (View(), Code(code)) == RelayPersistRespond(old(View()), handle, ok, result)
    {
      Calls(Op.PersistRespond(handle, ok, result));
      if handle <= 0 || AsI32(handle) !in persist {
        return -1;
      }
      persist := persist[AsI32(handle) := PersistSlot(true, !ok, result, 0)];
      code := 0;
    }

    method WsOpen(handle: int, ok: bool) returns (code: int)
      requires Valid()
      modifies this
      ensures ops == old(ops) + [Op.WsOpen(handle, ok)]
      ensures Valid() && (View(), Code(code)) == RelayWsOpen(old(View()), handle, ok)
    {
      Calls(Op.WsOpen(handle, ok));
      if handle <= 0 || AsI32(handle) !in ws {
        return -1;
      }
      ws := ws[AsI32(handle) := ws[AsI32(handle)].(open := ok, failed := !ok)];
      code := 0;
    }

    method WsPush(handle: int, data: bytes) returns (code: int)
      requires Valid()
      modifies this
      ensures ops == old(ops) + [Op.WsPush(handle, data)]
      ensures Valid() && (View(), Code(code)) == RelayWsPush(old(View()), handle, data)
    {
      Calls(Op.WsPush(handle, data));
      if handle <= 0 || AsI32(handle) !in ws {
        return -1;
      }
      var slot := ws[AsI32(handle)];
      ws := ws[AsI32(handle) := slot.(incoming := slot.incoming + [data])];
      code := 0;
    }

    method WsHostClose(handle: int) returns (code: int)
      requires Valid()
      modifies this
      ensures ops == old(ops) + [Op.WsHostClose(handle)]
      ensures Valid() && (View(), Code(code)) == RelayWsClose(old(View()), handle)
    {
      Calls(Op.WsHostClose(handle));
      if handle <= 0 {
        return -1;
      }
      if AsI32(handle) in ws {
        ws := ws[AsI32(handle) := ws[AsI32(handle)].(open := false)];
      }
      code := 0;
    }
  }
}
