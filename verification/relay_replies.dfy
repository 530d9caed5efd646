/**
 Every reply the relay gives, over every run, from the history of the calls alone: which slots there are, what the
 host last answered and with what success, what was read of it, which sockets are open, who waits for a decision.
 */
module RelayReplies {
  import opened Bytes
  import opened Table
  import opened Relay
  import opened RelayDelivery
  import opened RelayAccounting
  import opened RelayReads

  // ---------- handles ----------

  /** The handle of the next allocation, counted from 0. */
  function NextHandle(ops: seq<Op>): int {
    Allocations(ops) % MAX_HANDLE + 1
  }

  lemma HandleGiven(ops: seq<Op>)
    ensures AllocatedHandle(After(ops).next) == NextHandle(ops)
  {
    AllocationCounter(ops);
    KthHandle(Allocations(ops));
  }

  /** A call that takes a handle returns it; all other calls of its kind are refused and change nothing. */
  lemma HandleSays(ops: seq<Op>, op: Op)
    requires op.HttpRequest? || op.WsConnect? || op.Approve? || op.CallStart? || op.PersistStart?
    ensures var r := Apply(After(ops), op);
      if Allocates(op) then
        r.1 == if op.PersistStart? && U32LE(op.request[..4]) > 3 then Code(-1) else Code(NextHandle(ops))
      else r == (After(ops), Code(-1))
  {
    HandleGiven(ops);
  }

  // ---------- answers ----------

  /** What the history says of a slot: closed or never opened, unanswered, or answered and read so far. */
  datatype Slot = Absent | Waiting | Answered(ok: bool, head: bytes, body: bytes, read: nat)

  predicate ClosesSlot(op: Op, kind: Kind, h: int) {
    match kind
    case Http => op.HttpClose? && op.h == h
    case Call => op.CallClose? && op.h == h
    case Persist => op.PersistClose? && op.h == h
  }

  /** The host answers a slot of this kind, under a handle that is cast from 64 bits. */
  predicate Responds(op: Op, kind: Kind) {
    match kind
    case Http => op.HttpRespond?
    case Call => op.CallRespond?
    case Persist => op.PersistRespond?
  }

  function AnswerIn(op: Op, kind: Kind): Slot
    requires Responds(op, kind)
  {
    match kind
    case Http => Answered(op.ok, op.head, op.body, 0)
    case Call => Answered(op.ok, [], op.result, 0)
    case Persist => Answered(op.ok, [], op.result, 0)
  }

  function SlotAfter(x: Slot, op: Op, kind: Kind, h: int, handle: int): Slot {
    if OpensAnswer(op, kind) && h == handle then Waiting
    else if ClosesSlot(op, kind, h) then Absent
    else if Responds(op, kind) && op.h > 0 && AsI32(op.h) == h && !x.Absent? then AnswerIn(op, kind)
    else if Reads(op, kind, h) && x.Answered? && x.ok && x.read <= |x.body| then
      x.(read := x.read + Min(|x.body| - x.read, op.cap))
    else x
  }

  function SlotOf(ops: seq<Op>, kind: Kind, h: int): Slot {
    if ops == [] then Absent
    else
      var before := ops[..|ops| - 1];
      SlotAfter(SlotOf(before, kind, h), ops[|ops| - 1], kind, h, NextHandle(before))
  }

  /** What the relay holds for such a slot. */
  predicate Holds(s: RelayState, kind: Kind, h: int, x: Slot) {
    match x
    case Absent => AnswerOf(s, kind, h) == None
    case Waiting => AnswerOf(s, kind, h) == Some(Answer(false, false, [], [], 0))
    case Answered(ok, head, body, read) =>
      read <= |body| && AnswerOf(s, kind, h) == Some(Answer(true, !ok, head, body, read))
  }

  lemma HttpStartHolds(s: Readable, op: Op, h: int, x: Slot)
    requires Holds(s, Http, h, x) && op.HttpRequest?
    ensures Holds(Apply(s, op).0, Http, h, SlotAfter(x, op, Http, h, AllocatedHandle(s.next)))
  {
  }

  lemma HttpHolds(s: Readable, op: Op, h: int, x: Slot)
    requires Holds(s, Http, h, x) && Concerns(op, Http)
    ensures Holds(Apply(s, op).0, Http, h, SlotAfter(x, op, Http, h, AllocatedHandle(s.next)))
  {
  }

  lemma CallStartHolds(s: Readable, op: Op, h: int, x: Slot)
    requires Holds(s, Call, h, x) && op.CallStart?
    ensures Holds(Apply(s, op).0, Call, h, SlotAfter(x, op, Call, h, AllocatedHandle(s.next)))
  {
  }

  lemma CallHolds(s: Readable, op: Op, h: int, x: Slot)
    requires Holds(s, Call, h, x) && Concerns(op, Call)
    ensures Holds(Apply(s, op).0, Call, h, SlotAfter(x, op, Call, h, AllocatedHandle(s.next)))
  {
  }

  lemma PersistStartHolds(s: Readable, op: Op, h: int, x: Slot)
    requires Holds(s, Persist, h, x) && op.PersistStart?
    ensures Holds(Apply(s, op).0, Persist, h, SlotAfter(x, op, Persist, h, AllocatedHandle(s.next)))
  {
  }

  lemma PersistHolds(s: Readable, op: Op, h: int, x: Slot)
    requires Holds(s, Persist, h, x) && Concerns(op, Persist)
    ensures Holds(Apply(s, op).0, Persist, h, SlotAfter(x, op, Persist, h, AllocatedHandle(s.next)))
  {
  }

  /** The call starts something of another kind. */
  predicate StartsOther(op: Op, kind: Kind) {
    match kind
    case Http => op.CallStart? || op.PersistStart?
    case Call => op.HttpRequest? || op.PersistStart?
    case Persist => op.HttpRequest? || op.CallStart?
  }

  lemma OtherStartHolds(s: Readable, op: Op, kind: Kind, h: int)
    requires StartsOther(op, kind)
    ensures AnswerOf(Apply(s, op).0, kind, h) == AnswerOf(s, kind, h)
  {
  }

  lemma OthersKeepSlot(x: Slot, op: Op, kind: Kind, h: int, handle: int)
    requires StartsOther(op, kind) || (!StartsSomething(op) && !Concerns(op, kind))
    ensures SlotAfter(x, op, kind, h, handle) == x
  {
  }

  lemma SameHolds(s: RelayState, after: RelayState, kind: Kind, h: int, x: Slot)
    requires Holds(s, kind, h, x) && AnswerOf(after, kind, h) == AnswerOf(s, kind, h)
    ensures Holds(after, kind, h, x)
  {
  }

  lemma HoldsStep(s: Readable, op: Op, kind: Kind, h: int, x: Slot)
    requires Holds(s, kind, h, x)
    ensures Holds(Apply(s, op).0, kind, h, SlotAfter(x, op, kind, h, AllocatedHandle(s.next)))
  {
    if StartsOther(op, kind) {
      OtherStartHolds(s, op, kind, h);
      OthersKeepSlot(x, op, kind, h, AllocatedHandle(s.next));
      SameHolds(s, Apply(s, op).0, kind, h, x);
    } else if StartsSomething(op) {
      match kind
      case Http => HttpStartHolds(s, op, h, x);
      case Call => CallStartHolds(s, op, h, x);
      case Persist => PersistStartHolds(s, op, h, x);
    } else if Concerns(op, kind) {
      match kind
      case Http => HttpHolds(s, op, h, x);
      case Call => CallHolds(s, op, h, x);
      case Persist => PersistHolds(s, op, h, x);
    } else {
      UnconcernedAnswerStep(s, op, kind, h);
      OthersKeepSlot(x, op, kind, h, AllocatedHandle(s.next));
      SameHolds(s, Apply(s, op).0, kind, h, x);
    }
  }

  /** In every run each slot is what the history says. */
  lemma {:induction false} SlotsFollowTheHistory(ops: seq<Op>, kind: Kind, h: int)
    ensures Holds(After(ops), kind, h, SlotOf(ops, kind, h))
  {
    if ops != [] {
      var before := ops[..|ops| - 1];
      SlotsFollowTheHistory(before, kind, h);
      HandleGiven(before);
      HoldsStep(After(before), ops[|ops| - 1], kind, h, SlotOf(before, kind, h));
    }
  }

  function Poll(s: RelayState, kind: Kind, h: int, cap: nat): Reply {
    match kind
    case Http => NetHttpPoll(s, h, cap)
    case Call => GuestCallPoll(s, h)
    case Persist => GuestPersistPoll(s, h)
  }

  /** `n` bytes are copied, and their number is returned. */
  function Gives(data: bytes): Reply {
    Reply(AsI32(|data|), data, None, None)
  }

  /**
   A poll is refused without a slot and where the host's last answer reported a failure; it waits for an answer; and
   it tells of a success, an HTTP poll with as much of the head as there is room for.
   */
  lemma PollSays(ops: seq<Op>, kind: Kind, h: int, cap: nat)
    ensures Poll(After(ops), kind, h, cap)
      == match SlotOf(ops, kind, h)
         case Absent => Code(-1)
         case Waiting => Code(0)
         case Answered(ok, head, _, _) =>
           if !ok then Code(-1) else if kind.Http? then Gives(head[..Min(|head|, cap)]) else Code(1)
  {
    SlotsFollowTheHistory(ops, kind, h);
  }

  /** What a read of a slot has to give. */
  function ReadOf(x: Slot, cap: nat): Reply {
    match x
    case Absent => Code(-1)
    case Waiting => Code(0)
    case Answered(ok, _, body, read) =>
      if !ok || read > |body| then Code(-1) else Gives(body[read..read + Min(|body| - read, cap)])
  }

  lemma HttpReadGives(s: Readable, h: int, cap: nat, x: Slot)
    requires Holds(s, Http, h, x)
    ensures NetHttpBody(s, h, cap).1 == ReadOf(x, cap)
  {
  }

  lemma CallReadGives(s: Readable, h: int, cap: nat, x: Slot)
    requires Holds(s, Call, h, x)
    ensures GuestCallBody(s, h, cap).1 == ReadOf(x, cap)
  {
    assert AsI32(0) == 0;
  }

  lemma PersistReadGives(s: Readable, h: int, cap: nat, x: Slot)
    requires Holds(s, Persist, h, x)
    ensures GuestPersistBody(s, h, cap).1 == ReadOf(x, cap)
  {
    assert AsI32(0) == 0;
  }

  /** A read is refused and waits likewise; of a success it gives the next bytes, as many as there is room for. */
  lemma ReadSays(ops: seq<Op>, op: Op, kind: Kind, h: int)
    requires Reads(op, kind, h)
    ensures Apply(After(ops), op).1 == ReadOf(SlotOf(ops, kind, h), op.cap)
    ensures SlotOf(ops, kind, h).Answered? ==> SlotOf(ops, kind, h).read <= |SlotOf(ops, kind, h).body|
  {
    SlotsFollowTheHistory(ops, kind, h);
    var s, x := After(ops), SlotOf(ops, kind, h);
    match kind
    case Http => HttpReadGives(s, h, op.cap, x);
    case Call => CallReadGives(s, h, op.cap, x);
    case Persist => PersistReadGives(s, h, op.cap, x);
  }

  /** The host may answer exactly the slots there are, as often as it likes. */
  lemma RespondSays(ops: seq<Op>, op: Op, kind: Kind)
    requires Responds(op, kind)
    ensures Apply(After(ops), op).1 == if op.h > 0 && !SlotOf(ops, kind, AsI32(op.h)).Absent? then Code(0) else Code(-1)
  {
    SlotsFollowTheHistory(ops, kind, AsI32(op.h));
  }

  // ---------- sockets ----------

  datatype Socket = Gone | Socket(open: bool, failed: bool)

  function SocketAfter(x: Socket, op: Op, h: int, handle: int): Socket {
    if op.WsConnect? && h == handle then Socket(false, false)
    else if op.WsClose? && op.h == h then Gone
    else if x.Gone? then x
    else if op.WsOpen? && op.h > 0 && AsI32(op.h) == h then Socket(op.ok, !op.ok)
    else if op.WsHostClose? && op.h > 0 && AsI32(op.h) == h then x.(open := false)
    else x
  }

  /** Connected, closed, opened or failed, and closed by the host, as the history says. */
  function SocketOf(ops: seq<Op>, h: int): Socket {
    if ops == [] then Gone
    else
      var before := ops[..|ops| - 1];
      SocketAfter(SocketOf(before, h), ops[|ops| - 1], h, NextHandle(before))
  }

  predicate HoldsSocket(s: RelayState, h: int, x: Socket) {
    if x.Gone? then h !in s.ws else h in s.ws && s.ws[h].open == x.open && s.ws[h].failed == x.failed
  }

  lemma OwnSocketHolds(s: Readable, op: Op, h: int, x: Socket)
    requires HoldsSocket(s, h, x) && (op.WsConnect? || op.WsClose? || op.WsOpen? || op.WsHostClose?)
    ensures HoldsSocket(Apply(s, op).0, h, SocketAfter(x, op, h, AllocatedHandle(s.next)))
  {
  }

  lemma DataHolds(s: Readable, op: Op, h: int, x: Socket)
    requires HoldsSocket(s, h, x) && (op.WsSend? || op.WsRecv? || op.WsPush?)
    ensures HoldsSocket(Apply(s, op).0, h, x)
  {
  }

  lemma DispatchHolds(s: RelayState, e: Event, h: int, x: Socket)
    requires HoldsSocket(s, h, x)
    ensures HoldsSocket(Dispatch(s, e), h, x)
  {
  }

  lemma PullHolds(s: Readable, op: Op, h: int, x: Socket)
    requires HoldsSocket(s, h, x) && (op.Next? || op.NextSidecar?)
    ensures HoldsSocket(Apply(s, op).0, h, x)
  {
    match TakenAt(s, op)
    case Some(i) =>
      DispatchHolds(s.(events := Without(s.events, i)), s.events[i], h, x);
    case None =>
      assert Apply(s, op).0 == s;
  }

  lemma SocketHoldsStep(s: Readable, op: Op, h: int, x: Socket)
    requires HoldsSocket(s, h, x)
    ensures HoldsSocket(Apply(s, op).0, h, SocketAfter(x, op, h, AllocatedHandle(s.next)))
  {
    if op.WsConnect? || op.WsClose? || op.WsOpen? || op.WsHostClose? {
      OwnSocketHolds(s, op, h, x);
    } else if IsSocketOp(op) {
      DataHolds(s, op, h, x);
    } else if op.Next? || op.NextSidecar? {
      PullHolds(s, op, h, x);
    } else {
      OtherSocketsStep(s, op);
    }
  }

  lemma {:induction false} SocketsFollowTheHistory(ops: seq<Op>, h: int)
    ensures HoldsSocket(After(ops), h, SocketOf(ops, h))
  {
    if ops != [] {
      var before := ops[..|ops| - 1];
      SocketsFollowTheHistory(before, h);
      HandleGiven(before);
      SocketHoldsStep(After(before), ops[|ops| - 1], h, SocketOf(before, h));
    }
  }

  /**
   While no socket reuses a handle with bytes still queued: a send is taken exactly on a socket the host opened and
   did not close, if with what is queued it stays within the mark; all of it is taken, or none.
   */
  lemma SendSays(ops: seq<Op>, h: int, data: bytes)
    requires NeverStale(ops)
    ensures var s, x := After(ops), SocketOf(ops, h);
      Apply(s, Op.WsSend(h, data)).1
      == if x.Socket? && x.open && !x.failed && QueuedBytes(s.events, h) + |data| <= 256 * 1024
         then Code(AsI32(|data|)) else Code(-1)
  {
    SocketsFollowTheHistory(ops, h);
    AccountingOverRuns(ops);
  }

  /** The front of the queue is the first message that was not yet received whole. */
  lemma NextMessage(slot: WsSlot, inbox: Inbox)
    requires InboxMatches(slot, inbox)
    ensures |inbox.pushed| == |inbox.whole| + |slot.incoming|
    ensures slot.incoming != [] ==> inbox.pushed[|inbox.whole|] == slot.incoming[0]
    ensures slot.incoming != [] ==> |inbox.part| == slot.incomingPos <= |slot.incoming[0]|
  {
  }

  /** What a receive on a socket has to give. */
  function RecvOf(x: Socket, inbox: Inbox, cap: nat): Reply {
    if x.Gone? || x.failed then Code(-1)
    else if |inbox.pushed| <= |inbox.whole| then Code(0)
    else
      var message, at := inbox.pushed[|inbox.whole|], |inbox.part|;
      if at > |message| then Code(-1) else Gives(message[at..at + Min(|message| - at, cap)])
  }

  lemma RecvGives(s: Readable, h: int, cap: nat, x: Socket, inbox: Inbox)
    requires HoldsSocket(s, h, x) && (h in s.ws ==> InboxMatches(s.ws[h], inbox))
    ensures NetWsRecv(s, h, cap).1 == RecvOf(x, inbox, cap)
  {
    if h in s.ws {
      NextMessage(s.ws[h], inbox);
    }
  }

  /** A receive gives the next bytes of the next message pushed, as many as there is room for. */
  lemma RecvSays(ops: seq<Op>, h: int, cap: nat)
    ensures Apply(After(ops), Op.WsRecv(h, cap)).1 == RecvOf(SocketOf(ops, h), InboxOf(ops, h), cap)
    ensures SocketOf(ops, h).Socket? ==>
      var inbox := InboxOf(ops, h);
      && |inbox.whole| <= |inbox.pushed|
      && (|inbox.whole| < |inbox.pushed| ==> |inbox.part| <= |inbox.pushed[|inbox.whole|]|)
  {
    var s, x, inbox := After(ops), SocketOf(ops, h), InboxOf(ops, h);
    SocketsFollowTheHistory(ops, h);
    if h in s.ws {
      ReceivesFollowThePushes(ops, h);
      NextMessage(s.ws[h], inbox);
    }
    RecvGives(s, h, cap, x, inbox);
  }

  /** The host may open, fail and feed exactly the sockets there are; closing one that is gone is no error. */
  lemma HostSocketSays(ops: seq<Op>, op: Op)
    requires op.WsOpen? || op.WsPush? || op.WsHostClose?
    ensures Apply(After(ops), op).1
      == if op.h <= 0 then Code(-1)
         else if SocketOf(ops, AsI32(op.h)).Gone? && !op.WsHostClose? then Code(-1)
         else Code(0)
  {
    SocketsFollowTheHistory(ops, AsI32(op.h));
  }

  // ---------- approvals ----------

  /** Somebody waits for a decision under this handle, as the history says. */
  function Waits(ops: seq<Op>, h: int): bool {
    if ops == [] then false
    else
      var before, op := ops[..|ops| - 1], ops[|ops| - 1];
      if op.Approve? && h == NextHandle(before) then true
      else if op.ApprovalRespond? && op.h > 0 && AsI32(op.h) == h then false
      else Waits(before, h)
  }

  lemma ApprovalsStep(s: Readable, op: Op, h: int)
    ensures h in Apply(s, op).0.approvals <==>
      (op.Approve? && h == AllocatedHandle(s.next))
      || (h in s.approvals && !(op.ApprovalRespond? && op.h > 0 && AsI32(op.h) == h))
  {
  }

  lemma {:induction false} ApprovalsFollowTheHistory(ops: seq<Op>, h: int)
    ensures h in After(ops).approvals <==> Waits(ops, h)
  {
    if ops != [] {
      var before := ops[..|ops| - 1];
      ApprovalsFollowTheHistory(before, h);
      HandleGiven(before);
      ApprovalsStep(After(before), ops[|ops| - 1], h);
    }
  }

  /** Whoever waits gets the decision the host gave for its handle; without a waiter it goes nowhere. */
  lemma DecisionSays(ops: seq<Op>, handle: int, decision: ApprovalDecision)
    ensures Apply(After(ops), Op.ApprovalRespond(handle, decision)).1
      == if handle <= 0 then Code(-1)
         else if Waits(ops, AsI32(handle)) then Reply(0, [], None, Some((AsI32(handle), decision)))
         else Code(0)
  {
    ApprovalsFollowTheHistory(ops, AsI32(handle));
  }

  // ---------- the two classes of events ----------

  /** The name a live host call was started with. */
  function NameOf(ops: seq<Op>, h: int): Option<bytes> {
    if ops == [] then None
    else
      var before, op := ops[..|ops| - 1], ops[|ops| - 1];
      if op.CallStart? && Allocates(op) && h == NextHandle(before) then Some(RequestName(op.request))
      else if op.CallClose? && op.h == h then None
      else NameOf(before, h)
  }

  predicate HoldsName(s: RelayState, h: int, name: Option<bytes>) {
    if name.None? then h !in s.hostCalls else h in s.hostCalls && s.hostCalls[h].sidecar == (name.value == SIDECAR)
  }

  lemma OwnNameHolds(s: Readable, op: Op, h: int, name: Option<bytes>)
    requires HoldsName(s, h, name) && (op.CallStart? || op.CallClose?)
    ensures HoldsName(Apply(s, op).0, h,
      if op.CallStart? && Allocates(op) && h == AllocatedHandle(s.next) then Some(RequestName(op.request))
      else if op.CallClose? && op.h == h then None
      else name)
  {
  }

  lemma DispatchKeepsName(s: RelayState, e: Event, h: int, name: Option<bytes>)
    requires HoldsName(s, h, name)
    ensures HoldsName(Dispatch(s, e), h, name)
  {
  }

  lemma PullKeepsName(s: Readable, op: Op, h: int, name: Option<bytes>)
    requires HoldsName(s, h, name) && (op.Next? || op.NextSidecar?)
    ensures HoldsName(Apply(s, op).0, h, name)
  {
    match TakenAt(s, op)
    case Some(i) =>
      DispatchKeepsName(s.(events := Without(s.events, i)), s.events[i], h, name);
    case None =>
      assert Apply(s, op).0 == s;
  }

  lemma OtherKeepsName(s: Readable, op: Op, h: int, name: Option<bytes>)
    requires HoldsName(s, h, name) && !op.CallStart? && !op.CallClose? && !op.Next? && !op.NextSidecar?
    ensures HoldsName(Apply(s, op).0, h, name)
  {
  }

  lemma {:induction false} NamesFollowTheHistory(ops: seq<Op>, h: int)
    ensures HoldsName(After(ops), h, NameOf(ops, h))
  {
    if ops != [] {
      var before, op := ops[..|ops| - 1], ops[|ops| - 1];
      NamesFollowTheHistory(before, h);
      HandleGiven(before);
      if op.CallStart? || op.CallClose? {
        OwnNameHolds(After(before), op, h, NameOf(before, h));
      } else if op.Next? || op.NextSidecar? {
        PullKeepsName(After(before), op, h, NameOf(before, h));
      } else {
        OtherKeepsName(After(before), op, h, NameOf(before, h));
      }
    }
  }

  /** A started call is of the sidecar's class exactly if it has the sidecar's name, whoever started it. */
  lemma CallIsOfItsClass(ops: seq<Op>, request: bytes, sidecarOnly: bool)
    ensures var op := Op.CallStart(request, sidecarOnly);
      var event := Emitted(After(ops), op);
      && (event.Some? <==> !sidecarOnly || RequestName(request) == SIDECAR)
      && (event.Some? ==>
            && event.value == Event.HostCall(NextHandle(ops), RequestName(request), RequestBody(request))
            && (IsSidecar(event.value) <==> RequestName(request) == SIDECAR))
  {
    HandleGiven(ops);
  }

  /** And its close is of the class of the call it closes, so the same consumer gets both. */
  lemma CloseIsOfItsCallsClass(ops: seq<Op>, h: int)
    ensures var event := Emitted(After(ops), Op.CallClose(h));
      && event.Some? && event.value.HostCallClose? && event.value.handle == h
      && (IsSidecar(event.value) <==> NameOf(ops, h) == Some(SIDECAR))
  {
    NamesFollowTheHistory(ops, h);
  }

  /** The sidecar consumer gets no event of the other class, and no event without a handle of a host call. */
  lemma SidecarGetsItsClass(ops: seq<Op>)
    ensures var event := Apply(After(ops), Op.NextSidecar).1.event;
      event.Some? ==> IsSidecar(event.value) && (event.value.HostCall? || event.value.HostCallClose?)
  {
  }
}
