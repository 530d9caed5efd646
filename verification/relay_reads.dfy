/**
 What the guest reads back, over every run and any buffer sizes: the bytes of an answer or of a socket's
 messages come out once and in order, and an approval is decided at most once.
 */
module RelayReads {
  import opened Bytes
  import opened Table
  import opened Relay
  import opened RelayAccounting
  import opened RelayDelivery

  // ---------- answers: HTTP bodies, host-call results, persist results ----------

  datatype Kind = Http | Call | Persist

  /** The readable part of the three kinds of slot; only an HTTP answer has a head. */
  datatype Answer = Answer(done: bool, failed: bool, head: bytes, body: bytes, pos: nat)

  function AnswerOf(s: RelayState, kind: Kind, h: int): Option<Answer> {
    match kind
    case Http =>
      if h in s.http
      then Some(Answer(s.http[h].done, s.http[h].failed, s.http[h].head, s.http[h].body, s.http[h].bodyPos))
      else None
    case Call =>
      if h in s.hostCalls
      then Some(Answer(s.hostCalls[h].done, s.hostCalls[h].failed, [], s.hostCalls[h].result, s.hostCalls[h].offset))
      else None
    case Persist =>
      if h in s.persist
      then Some(Answer(s.persist[h].done, s.persist[h].failed, [], s.persist[h].result, s.persist[h].offset))
      else None
  }

  predicate OpensAnswer(op: Op, kind: Kind) {
    match kind
    case Http => op.HttpRequest?
    case Call => op.CallStart? && Allocates(op)
    case Persist => op.PersistStart? && Allocates(op)
  }

  predicate Reads(op: Op, kind: Kind, h: int) {
    match kind
    case Http => op.HttpBody? && op.h == h
    case Call => op.CallBody? && op.h == h
    case Persist => op.PersistBody? && op.h == h
  }

  /** The bytes the host answers `h` with in this call. */
  function AnswersWith(op: Op, kind: Kind, h: int): Option<bytes> {
    match kind
    case Http => if op.HttpRespond? && op.h > 0 && AsI32(op.h) == h then Some(op.body) else None
    case Call => if op.CallRespond? && op.h > 0 && AsI32(op.h) == h then Some(op.result) else None
    case Persist => if op.PersistRespond? && op.h > 0 && AsI32(op.h) == h then Some(op.result) else None
  }

  /** What the two sides exchanged through a slot: the host's latest answer and the bytes read of it so far. */
  datatype Exchange = Exchange(answer: Option<bytes>, read: bytes)

  function ExchangeAfter(x: Exchange, s: Readable, op: Op, kind: Kind, h: int): Exchange {
    if OpensAnswer(op, kind) && h == AllocatedHandle(s.next) then Exchange(None, [])
    else if AnswersWith(op, kind, h).Some? then Exchange(AnswersWith(op, kind, h), [])
    else if Reads(op, kind, h) then Exchange(x.answer, x.read + Apply(s, op).1.data)
    else x
  }

  function ExchangeOf(ops: seq<Op>, kind: Kind, h: int): Exchange {
    if ops == [] then Exchange(None, [])
    else ExchangeAfter(ExchangeOf(ops[..|ops| - 1], kind, h), After(ops[..|ops| - 1]), ops[|ops| - 1], kind, h)
  }

  /** The slot holds the latest answer, and what was read of it is everything before the read position. */
  predicate Matches(a: Answer, x: Exchange) {
    && a.pos <= |a.body|
    && a.done == x.answer.Some?
    && x.read == a.body[..a.pos]
    && (if a.done then x.answer == Some(a.body) else a.body == [])
  }

  /** A slot after a call: opened, answered, read from, or as before. */
  ghost predicate AnswerFollows(s: Readable, op: Op, kind: Kind, h: int)
    requires AnswerOf(Apply(s, op).0, kind, h).Some?
  {
    var a := AnswerOf(Apply(s, op).0, kind, h).value;
    if OpensAnswer(op, kind) && h == AllocatedHandle(s.next) then a == Answer(false, false, [], [], 0)
    else
      && AnswerOf(s, kind, h).Some?
      && (var b := AnswerOf(s, kind, h).value;
          if AnswersWith(op, kind, h).Some? then a.done && a.body == AnswersWith(op, kind, h).value && a.pos == 0
          else a.done == b.done && a.body == b.body && (!Reads(op, kind, h) ==> a.pos == b.pos))
  }

  predicate StartsSomething(op: Op) {
    op.HttpRequest? || op.CallStart? || op.PersistStart?
  }

  lemma OpenHttpStep(s: Readable, op: Op, kind: Kind, h: int)
    requires op.HttpRequest? && AnswerOf(Apply(s, op).0, kind, h).Some?
    ensures AnswerFollows(s, op, kind, h)
  {
  }

  lemma OpenCallStep(s: Readable, op: Op, kind: Kind, h: int)
    requires op.CallStart? && AnswerOf(Apply(s, op).0, kind, h).Some?
    ensures AnswerFollows(s, op, kind, h)
  {
  }

  lemma OpenPersistStep(s: Readable, op: Op, kind: Kind, h: int)
    requires op.PersistStart? && AnswerOf(Apply(s, op).0, kind, h).Some?
    ensures AnswerFollows(s, op, kind, h)
  {
  }

  lemma OpenAnswerStep(s: Readable, op: Op, kind: Kind, h: int)
    requires StartsSomething(op) && AnswerOf(Apply(s, op).0, kind, h).Some?
    ensures AnswerFollows(s, op, kind, h)
  {
    if op.HttpRequest? {
      OpenHttpStep(s, op, kind, h);
    } else if op.CallStart? {
      OpenCallStep(s, op, kind, h);
    } else {
      OpenPersistStep(s, op, kind, h);
    }
  }

  /** The calls on slots of this kind other than starting one. */
  predicate Concerns(op: Op, kind: Kind) {
    match kind
    case Http => op.HttpBody? || op.HttpClose? || op.HttpRespond?
    case Call => op.CallBody? || op.CallClose? || op.CallRespond?
    case Persist => op.PersistBody? || op.PersistClose? || op.PersistRespond?
  }

  lemma HttpAnswerStep(s: Readable, op: Op, h: int)
    requires Concerns(op, Http) && AnswerOf(Apply(s, op).0, Http, h).Some?
    ensures AnswerFollows(s, op, Http, h)
  {
  }

  lemma CallAnswerStep(s: Readable, op: Op, h: int)
    requires Concerns(op, Call) && AnswerOf(Apply(s, op).0, Call, h).Some?
    ensures AnswerFollows(s, op, Call, h)
  {
  }

  lemma PersistAnswerStep(s: Readable, op: Op, h: int)
    requires Concerns(op, Persist) && AnswerOf(Apply(s, op).0, Persist, h).Some?
    ensures AnswerFollows(s, op, Persist, h)
  {
  }

  lemma SocketAnswerStep(s: Readable, op: Op, kind: Kind, h: int)
    requires IsSocketOp(op)
    ensures AnswerOf(Apply(s, op).0, kind, h) == AnswerOf(s, kind, h)
  {
  }

  /** Dispatching an event changes no answer. */
  lemma DispatchedAnswer(s: RelayState, e: Event, kind: Kind, h: int)
    ensures AnswerOf(Dispatch(s, e), kind, h) == AnswerOf(s, kind, h)
  {
  }

  lemma PullAnswerStep(s: Readable, op: Op, kind: Kind, h: int)
    requires op.Next? || op.NextSidecar?
    ensures AnswerOf(Apply(s, op).0, kind, h) == AnswerOf(s, kind, h)
  {
    var taken := TakenAt(s, op);
    if taken.Some? {
      var i := taken.value;
      assert Apply(s, op).0 == Dispatch(s.(events := Without(s.events, i)), s.events[i]);
      DispatchedAnswer(s.(events := Without(s.events, i)), s.events[i], kind, h);
    } else {
      assert Apply(s, op).0 == s;
    }
  }

  lemma UnconcernedAnswerStep(s: Readable, op: Op, kind: Kind, h: int)
    requires !StartsSomething(op) && !Concerns(op, kind)
    ensures AnswerOf(Apply(s, op).0, kind, h) == AnswerOf(s, kind, h)
  {
    if IsSocketOp(op) {
      SocketAnswerStep(s, op, kind, h);
    } else if op.Next? || op.NextSidecar? {
      PullAnswerStep(s, op, kind, h);
    }
  }

  lemma AnswerStep(s: Readable, op: Op, kind: Kind, h: int)
    requires AnswerOf(Apply(s, op).0, kind, h).Some?
    ensures AnswerFollows(s, op, kind, h)
  {
    if StartsSomething(op) {
      OpenAnswerStep(s, op, kind, h);
    } else if Concerns(op, kind) {
      match kind
      case Http => HttpAnswerStep(s, op, h);
      case Call => CallAnswerStep(s, op, h);
      case Persist => PersistAnswerStep(s, op, h);
    } else {
      UnconcernedAnswerStep(s, op, kind, h);
    }
  }

  /** A read copies out the next bytes, as many as the buffer takes, and moves past exactly those. */
  lemma ReadStep(s: Readable, op: Op, kind: Kind, h: int)
    requires Reads(op, kind, h) && AnswerOf(s, kind, h).Some?
    requires AnswerOf(s, kind, h).value.pos <= |AnswerOf(s, kind, h).value.body|
    ensures AnswerOf(Apply(s, op).0, kind, h).Some?
    ensures var b, a := AnswerOf(s, kind, h).value, AnswerOf(Apply(s, op).0, kind, h).value;
            var n := if b.done && !b.failed then Min(|b.body| - b.pos, op.cap) else 0;
            a.pos == b.pos + n && Apply(s, op).1.data == b.body[b.pos..b.pos + n]
  {
  }

  lemma MatchesStep(s: Readable, op: Op, kind: Kind, h: int, x: Exchange)
    requires AnswerOf(Apply(s, op).0, kind, h).Some?
    requires AnswerOf(s, kind, h).Some? ==> Matches(AnswerOf(s, kind, h).value, x)
    ensures Matches(AnswerOf(Apply(s, op).0, kind, h).value, ExchangeAfter(x, s, op, kind, h))
  {
    AnswerStep(s, op, kind, h);
    if Reads(op, kind, h) {
      ReadStep(s, op, kind, h);
      var b, a := AnswerOf(s, kind, h).value, AnswerOf(Apply(s, op).0, kind, h).value;
      TakeMore(b.body, b.pos, a.pos - b.pos);
    }
  }

  /**
   Whatever calls surround them and whatever the buffer sizes, the reads of an answered slot give
   consecutive pieces of the host's latest answer: what was read, then what is unread, is that answer.
   */
  lemma {:induction false} ReadsFollowTheAnswer(ops: seq<Op>, kind: Kind, h: int)
    requires AnswerOf(After(ops), kind, h).Some?
    ensures Matches(AnswerOf(After(ops), kind, h).value, ExchangeOf(ops, kind, h))
  {
    var before, op := ops[..|ops| - 1], ops[|ops| - 1];
    if AnswerOf(After(before), kind, h).Some? {
      ReadsFollowTheAnswer(before, kind, h);
    }
    MatchesStep(After(before), op, kind, h, ExchangeOf(before, kind, h));
  }

  lemma MatchesMeans(a: Answer, x: Exchange)
    requires Matches(a, x) && a.done
    ensures x.answer == Some(x.read + a.body[a.pos..])
  {
    assert a.body == a.body[..a.pos] + a.body[a.pos..];
  }

  /** The code a poll gives: refused, waiting, or ready to be read. */
  function PollCode(s: RelayState, kind: Kind, h: int): int {
    match kind
    case Http => NetHttpPoll(s, h, 0).code
    case Call => GuestCallPoll(s, h).code
    case Persist => GuestPersistPoll(s, h).code
  }

  /** In every run a read gives bytes only where a poll, then, does not refuse, and not before the host answered. */
  lemma PollForesees(ops: seq<Op>, op: Op, kind: Kind, h: int)
    requires Reads(op, kind, h) && Apply(After(ops), op).1.data != []
    ensures PollCode(After(ops), kind, h) != -1 && ExchangeOf(ops, kind, h).answer.Some?
  {
    var s := After(ops);
    assert AsI32(0) == 0;
    if AnswerOf(s, kind, h).Some? {
      ReadsFollowTheAnswer(ops, kind, h);
      ReadStep(s, op, kind, h);
    } else {
      NoSlotNoData(s, op, kind, h);
    }
  }

  lemma NoSlotNoData(s: Readable, op: Op, kind: Kind, h: int)
    requires Reads(op, kind, h) && AnswerOf(s, kind, h).None?
    ensures Apply(s, op).1.data == []
  {
  }

  // ---------- sockets: messages pushed by the host, received by the guest ----------

  /** Messages pushed, messages received whole (each from one or more reads), and the part read of the next. */
  datatype Inbox = Inbox(pushed: seq<bytes>, whole: seq<bytes>, part: bytes)

  predicate Pushes(s: RelayState, op: Op, h: int) {
    op.WsPush? && op.h > 0 && AsI32(op.h) == h && h in s.ws
  }

  function InboxAfter(x: Inbox, s: Readable, op: Op, h: int): Inbox {
    if Opens(s, op, h) then Inbox([], [], [])
    else if Pushes(s, op, h) then x.(pushed := x.pushed + [op.data])
    else if op.WsRecv? && op.h == h && h in s.ws then
      var part := x.part + Apply(s, op).1.data;
      if h in Apply(s, op).0.ws && |Apply(s, op).0.ws[h].incoming| < |s.ws[h].incoming|
      then Inbox(x.pushed, x.whole + [part], [])
      else x.(part := part)
    else x
  }

  function InboxOf(ops: seq<Op>, h: int): Inbox {
    if ops == [] then Inbox([], [], [])
    else InboxAfter(InboxOf(ops[..|ops| - 1], h), After(ops[..|ops| - 1]), ops[|ops| - 1], h)
  }

  predicate InboxMatches(slot: WsSlot, x: Inbox) {
    && x.pushed == x.whole + slot.incoming
    && (if slot.incoming == [] then slot.incomingPos == 0 && x.part == []
        else slot.incomingPos <= |slot.incoming[0]| && x.part == slot.incoming[0][..slot.incomingPos])
  }

  /** A live socket's incoming queue after a call that is not a receive on it. */
  ghost predicate IncomingFollows(s: Readable, op: Op, h: int)
    requires h in Apply(s, op).0.ws
  {
    var slot := Apply(s, op).0.ws[h];
    if Opens(s, op, h) then slot.incoming == [] && slot.incomingPos == 0
    else
      && h in s.ws && slot.incomingPos == s.ws[h].incomingPos
      && slot.incoming == s.ws[h].incoming + (if Pushes(s, op, h) then [op.data] else [])
  }

  lemma OpenIncomingStep(s: Readable, op: Op, h: int)
    requires (op.WsConnect? || op.WsClose? || op.WsPush?) && h in Apply(s, op).0.ws
    ensures IncomingFollows(s, op, h)
  {
  }

  lemma SameIncomingStep(s: Readable, op: Op, h: int)
    requires (op.WsSend? || op.WsOpen? || op.WsHostClose? || (op.WsRecv? && op.h != h)) && h in Apply(s, op).0.ws
    ensures IncomingFollows(s, op, h)
  {
    assert !Opens(s, op, h) && !Pushes(s, op, h);
  }

  lemma SocketIncomingStep(s: Readable, op: Op, h: int)
    requires IsSocketOp(op) && h in Apply(s, op).0.ws && !(op.WsRecv? && op.h == h)
    ensures IncomingFollows(s, op, h)
  {
    if op.WsConnect? || op.WsClose? || op.WsPush? {
      OpenIncomingStep(s, op, h);
    } else {
      SameIncomingStep(s, op, h);
    }
  }

  lemma DispatchedIncoming(s: RelayState, e: Event, h: int)
    ensures h in Dispatch(s, e).ws <==> h in s.ws
    ensures h in s.ws ==>
      Dispatch(s, e).ws[h].incoming == s.ws[h].incoming && Dispatch(s, e).ws[h].incomingPos == s.ws[h].incomingPos
  {
  }

  lemma PullIncomingStep(s: Readable, op: Op, h: int)
    requires (op.Next? || op.NextSidecar?) && h in Apply(s, op).0.ws
    ensures IncomingFollows(s, op, h)
  {
    var taken := TakenAt(s, op);
    if taken.Some? {
      var i := taken.value;
      assert Apply(s, op).0 == Dispatch(s.(events := Without(s.events, i)), s.events[i]);
      DispatchedIncoming(s.(events := Without(s.events, i)), s.events[i], h);
    } else {
      assert Apply(s, op).0 == s;
    }
  }

  lemma OtherIncomingStep(s: Readable, op: Op, h: int)
    requires !IsSocketOp(op) && !op.Next? && !op.NextSidecar? && h in Apply(s, op).0.ws
    ensures IncomingFollows(s, op, h)
  {
    OtherSocketsStep(s, op);
    assert !Opens(s, op, h) && !Pushes(s, op, h);
  }

  lemma IncomingStep(s: Readable, op: Op, h: int)
    requires h in Apply(s, op).0.ws && !(op.WsRecv? && op.h == h)
    ensures IncomingFollows(s, op, h)
  {
    if IsSocketOp(op) {
      SocketIncomingStep(s, op, h);
    } else if op.Next? || op.NextSidecar? {
      PullIncomingStep(s, op, h);
    } else {
      OtherIncomingStep(s, op, h);
    }
  }

  /** A receive copies a piece of the front message only, and drops that message when it is used up. */
  lemma ReceiveStep(s: Readable, op: Op, h: int)
    requires op.WsRecv? && op.h == h && h in s.ws && h in Apply(s, op).0.ws
    ensures var b, a, data := s.ws[h], Apply(s, op).0.ws[h], Apply(s, op).1.data;
            if b.failed || b.incoming == [] then a == b && data == []
            else
              var end := b.incomingPos + |data|;
              && end <= |b.incoming[0]| && data == b.incoming[0][b.incomingPos..end]
              && (if end == |b.incoming[0]| then a.incoming == b.incoming[1..] && a.incomingPos == 0
                  else a.incoming == b.incoming && a.incomingPos == end && |data| == op.cap)
  {
  }

  lemma InboxReceives(s: Readable, op: Op, h: int, x: Inbox)
    requires op.WsRecv? && op.h == h && h in s.ws && h in Apply(s, op).0.ws && InboxMatches(s.ws[h], x)
    ensures InboxMatches(Apply(s, op).0.ws[h], InboxAfter(x, s, op, h))
  {
    ReceiveStep(s, op, h);
    var b, data := s.ws[h], Apply(s, op).1.data;
    if !b.failed && b.incoming != [] {
      var front, end := b.incoming[0], b.incomingPos + |data|;
      assert front[..b.incomingPos] + front[b.incomingPos..end] == front[..end];
      assert front[..|front|] == front;
      assert x.whole + b.incoming == (x.whole + [front]) + b.incoming[1..];
    } else {
      assert x.part + [] == x.part;
    }
  }

  lemma InboxStep(s: Readable, op: Op, h: int, x: Inbox)
    requires h in Apply(s, op).0.ws
    requires h in s.ws ==> InboxMatches(s.ws[h], x)
    ensures InboxMatches(Apply(s, op).0.ws[h], InboxAfter(x, s, op, h))
  {
    if op.WsRecv? && op.h == h {
      SocketsStep(s, op);
      InboxReceives(s, op, h, x);
    } else {
      IncomingStep(s, op, h);
      if !Opens(s, op, h) {
        Assoc(x.whole, s.ws[h].incoming, if Pushes(s, op, h) then [op.data] else []);
      }
    }
  }

  /**
   Over every run, a live socket's received messages, each glued from the reads that delivered it, followed
   by the queued ones, are the messages the host pushed, in order; the partial reads are the start of the
   front message, so no read spans two messages.
   */
  lemma {:induction false} ReceivesFollowThePushes(ops: seq<Op>, h: int)
    requires h in After(ops).ws
    ensures InboxMatches(After(ops).ws[h], InboxOf(ops, h))
  {
    var before, op := ops[..|ops| - 1], ops[|ops| - 1];
    if h in After(before).ws {
      ReceivesFollowThePushes(before, h);
    }
    InboxStep(After(before), op, h, InboxOf(before, h));
  }

  /** With room in the buffer, an empty receive means no message or an empty one: the two look the same. */
  lemma EmptyReceive(s: Readable, h: int, cap: nat)
    requires h in s.ws && !s.ws[h].failed && cap > 0
    ensures NetWsRecv(s, h, cap).1 == Copied([]) <==> s.ws[h].incoming == [] || s.ws[h].incoming[0] == []
    ensures s.ws[h].incoming != [] && s.ws[h].incoming[0] == [] ==>
      NetWsRecv(s, h, cap).0.ws[h].incoming == s.ws[h].incoming[1..]
  {
    assert AsI32(0) == 0;
  }

  // ---------- approvals ----------

  function Asked(ops: seq<Op>, h: int): nat {
    if ops == [] then 0
    else
      var before := ops[..|ops| - 1];
      Asked(before, h) + if ops[|ops| - 1].Approve? && AllocatedHandle(After(before).next) == h then 1 else 0
  }

  function Decided(ops: seq<Op>, h: int): nat {
    if ops == [] then 0
    else
      Decided(ops[..|ops| - 1], h)
      + if LastReply(ops).decision.Some? && LastReply(ops).decision.value.0 == h then 1 else 0
  }

  lemma ApprovalStep(s: Readable, op: Op, h: int)
    ensures var s', reply := Apply(s, op).0, Apply(s, op).1;
            if op.Approve? && AllocatedHandle(s.next) == h then h in s'.approvals && reply.decision.None?
            else if reply.decision.Some? && reply.decision.value.0 == h then h in s.approvals && h !in s'.approvals
            else h in s'.approvals <==> h in s.approvals
  {
  }

  /** Each request for approval is decided at most once: decisions plus the open request never exceed requests. */
  lemma {:induction false} DecidedAtMostOnce(ops: seq<Op>, h: int)
    ensures Decided(ops, h) + (if h in After(ops).approvals then 1 else 0) <= Asked(ops, h)
  {
    if ops != [] {
      DecidedAtMostOnce(ops[..|ops| - 1], h);
      ApprovalStep(After(ops[..|ops| - 1]), ops[|ops| - 1], h);
    }
  }
}
