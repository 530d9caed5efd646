/**
 What the relay does lose, over every run: frames pulled into a buffer that is too short for them, and persist
 requests with an operation the relay does not know, whose slots nobody is told of. Both conditions are exact.
 */
module RelayLosses {
  import opened Bytes
  import opened Table
  import opened Relay
  import opened RelayDelivery

  // ---------- frames ----------

  /** The call takes an event whose frame is longer than the buffer it comes with. */
  predicate TooShort(s: Readable, op: Op, cap: nat, encode: Event -> bytes) {
    var event := Apply(s, op).1.event;
    event.Some? && |encode(event.value)| > cap
  }

  /** `caps` are the lengths of the buffers the calls of the run came with; what the host got of the events. */
  function Received(ops: seq<Op>, caps: seq<nat>, encode: Event -> bytes): seq<Event>
    requires |caps| == |ops|
  {
    if ops == [] then []
    else
      var n := |ops| - 1;
      var before, event := Received(ops[..n], caps[..n], encode), LastReply(ops).event;
      if event.Some? && !TooShort(After(ops[..n]), ops[n], caps[n], encode) then before + [event.value] else before
  }

  /** And what it did not get, though it was taken off the queue for it. */
  function Dropped(ops: seq<Op>, caps: seq<nat>, encode: Event -> bytes): seq<Event>
    requires |caps| == |ops|
  {
    if ops == [] then []
    else
      var n := |ops| - 1;
      var before, event := Dropped(ops[..n], caps[..n], encode), LastReply(ops).event;
      if TooShort(After(ops[..n]), ops[n], caps[n], encode) then before + [event.value] else before
  }

  /** Each event handed out was received or dropped. */
  lemma {:induction false} DeliveriesSplit(ops: seq<Op>, caps: seq<nat>, encode: Event -> bytes)
    requires |caps| == |ops|
    ensures multiset(Received(ops, caps, encode)) + multiset(Dropped(ops, caps, encode)) == multiset(Deliveries(ops))
    ensures Dropped(ops, caps, encode) == [] ==> Received(ops, caps, encode) == Deliveries(ops)
  {
    if ops != [] {
      DeliveriesSplit(ops[..|ops| - 1], caps[..|ops| - 1], encode);
    }
  }

  /** All along the run, every call that took an event came with room for its frame. */
  predicate RoomThroughout(ops: seq<Op>, caps: seq<nat>, encode: Event -> bytes)
    requires |caps| == |ops|
  {
    ops != [] ==>
      (var n := |ops| - 1;
       RoomThroughout(ops[..n], caps[..n], encode) && !TooShort(After(ops[..n]), ops[n], caps[n], encode))
  }

  lemma {:induction false} DroppedIff(ops: seq<Op>, caps: seq<nat>, encode: Event -> bytes)
    requires |caps| == |ops|
    ensures Dropped(ops, caps, encode) == [] <==> RoomThroughout(ops, caps, encode)
  {
    if ops != [] {
      DroppedIff(ops[..|ops| - 1], caps[..|ops| - 1], encode);
    }
  }

  /**
   The events the host received, with those still queued, are all that were pushed, exactly if every call that took
   an event came with room for its frame; and then it received what was delivered, in that order.
   */
  lemma FramesConservedIff(ops: seq<Op>, caps: seq<nat>, encode: Event -> bytes)
    requires |caps| == |ops|
    ensures multiset(Received(ops, caps, encode)) + multiset(After(ops).events) == multiset(LogOf(ops).pushed)
      <==> RoomThroughout(ops, caps, encode)
    ensures RoomThroughout(ops, caps, encode) ==> Received(ops, caps, encode) == Deliveries(ops)
  {
    DroppedIff(ops, caps, encode);
    DeliveriesSplit(ops, caps, encode);
    NothingLost(ops);
    NoneIsMissing(multiset(Received(ops, caps, encode)), Dropped(ops, caps, encode), multiset(After(ops).events));
  }

  lemma NoneIsMissing(received: multiset<Event>, dropped: seq<Event>, queued: multiset<Event>)
    ensures received + queued == (received + multiset(dropped)) + queued <==> dropped == []
  {
    if dropped == [] {
      assert multiset(dropped) == multiset{};
    } else {
      var event := dropped[0];
      assert event in multiset(dropped);
      assert ((received + multiset(dropped)) + queued)[event] > (received + queued)[event];
    }
  }

  // ---------- persist slots ----------

  /** The call makes a persist slot under this handle. */
  predicate MakesSlot(s: RelayState, op: Op, h: int) {
    op.PersistStart? && !PersistMalformed(op.request) && h == AllocatedHandle(s.next)
  }

  /** A well-formed request with an operation the relay does not know. */
  predicate UnknownOperation(op: Op) {
    op.PersistStart? && !PersistMalformed(op.request) && U32LE(op.request[..4]) > 3
  }

  predicate IsPersist(e: Event, h: int) {
    (e.PersistGet? || e.PersistPut? || e.PersistDelete? || e.PersistList?) && e.handle == h
  }

  /** The event pushed when the slot of `h` was last made. */
  function Announcement(ops: seq<Op>, h: int): Option<Event> {
    if ops == [] then None
    else
      var before, op := ops[..|ops| - 1], ops[|ops| - 1];
      if MakesSlot(After(before), op, h) then Emitted(After(before), op) else Announcement(before, h)
  }

  /** The host was sent the request of each live slot. */
  ghost predicate Announced(ops: seq<Op>) {
    forall h :: h in After(ops).persist ==> Announcement(ops, h).Some? && IsPersist(Announcement(ops, h).value, h)
  }

  ghost predicate AlwaysAnnounced(ops: seq<Op>) {
    Announced(ops) && (ops != [] ==> AlwaysAnnounced(ops[..|ops| - 1]))
  }

  lemma SlotsStep(s: Readable, op: Op, h: int)
    ensures MakesSlot(s, op, h) ==> h in Apply(s, op).0.persist
    ensures h in Apply(s, op).0.persist ==> MakesSlot(s, op, h) || h in s.persist
  {
  }

  lemma AnnouncedUnlessUnknown(s: RelayState, op: Op, h: int)
    requires MakesSlot(s, op, h)
    ensures Emitted(s, op).Some? <==> !UnknownOperation(op)
    ensures Emitted(s, op).Some? ==> IsPersist(Emitted(s, op).value, h)
  {
  }

  lemma AnnouncedStep(before: seq<Op>, op: Op, ops: seq<Op>)
    requires ops == before + [op] && Announced(before)
    ensures Announced(ops) <==> !UnknownOperation(op)
  {
    assert ops[..|ops| - 1] == before && ops[|ops| - 1] == op;
    var s := After(before);
    if UnknownOperation(op) {
      var h := AllocatedHandle(s.next);
      SlotsStep(s, op, h);
      AnnouncedUnlessUnknown(s, op, h);
      assert Announcement(ops, h) == Emitted(s, op);
    } else {
      forall h | h in After(ops).persist
        ensures Announcement(ops, h).Some? && IsPersist(Announcement(ops, h).value, h)
      {
        SlotsStep(s, op, h);
        if MakesSlot(s, op, h) {
          AnnouncedUnlessUnknown(s, op, h);
        }
      }
    }
  }

  /** All along a run the host was sent the request of each live slot, exactly if every operation was a known one. */
  lemma {:induction false} PersistAnnouncedIff(ops: seq<Op>)
    ensures AlwaysAnnounced(ops) <==> forall op :: op in ops ==> !UnknownOperation(op)
  {
    if ops != [] {
      var before, op := ops[..|ops| - 1], ops[|ops| - 1];
      assert ops == before + [op];
      PersistAnnouncedIff(before);
      if Announced(before) {
        AnnouncedStep(before, op, ops);
      }
    }
  }

  lemma RecordedPush(log: Log, taken: Option<nat>, emitted: Option<Event>)
    requires taken.Some? ==> taken.value < |log.pending| && emitted.None?
    ensures log.pushed <= Record(log, taken, emitted).pushed
    ensures emitted.Some? ==> emitted.value in Record(log, taken, emitted).pushed
  {
    if emitted.Some? {
      assert (log.pushed + [emitted.value])[|log.pushed|] == emitted.value;
    }
  }

  lemma PushedGrows(before: seq<Op>, op: Op, ops: seq<Op>)
    requires ops != [] && before == ops[..|ops| - 1] && op == ops[|ops| - 1]
    ensures LogOf(before).pushed <= LogOf(ops).pushed
    ensures Emitted(After(before), op).Some? ==> Emitted(After(before), op).value in LogOf(ops).pushed
  {
    QueueLaw(After(before), op);
    RecordedPush(LogOf(before), TakenAt(After(before), op), Emitted(After(before), op));
  }

  lemma StaysPushed(before: seq<Event>, after: seq<Event>, e: Event)
    requires before <= after && e in before
    ensures e in after
  {
    var k :| 0 <= k < |before| && before[k] == e;
    assert after[k] == e;
  }

  /** What was announced was pushed, and so is queued or was delivered, as DeliveryInvariant says. */
  lemma {:induction false} AnnouncementsArePushed(ops: seq<Op>, h: int)
    ensures Announcement(ops, h).Some? ==> Announcement(ops, h).value in LogOf(ops).pushed
  {
    if ops != [] {
      var before, op := ops[..|ops| - 1], ops[|ops| - 1];
      AnnouncementsArePushed(before, h);
      PushedGrows(before, op, ops);
      if !MakesSlot(After(before), op, h) && Announcement(before, h).Some? {
        StaysPushed(LogOf(before).pushed, LogOf(ops).pushed, Announcement(before, h).value);
      }
    }
  }
}
