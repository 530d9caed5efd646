/**
 What the session owes a suspended tick, and what a tick does: hosts are not released under it but by a dispose
 that has waited; whoever waits for it may go on when it has ended; and its segments are those of one script.
 */
module SessionTicks {
  import opened Bytes
  import opened Session
  import opened SessionSafety

  // ---------- no release under a tick ----------

  predicate Releases(w: World, step: Step)
    requires Enabled(w, step)
  {
    Next(w, step).ledger.releases > w.ledger.releases
  }

  /** While a tick is suspended only a dispose that has waited releases the hosts, never dispose itself. */
  lemma OnlyWaitsReleaseUnderTicks(w: World, step: Step)
    requires Sound(w) && Enabled(w, step) && w.ticks != map[] && !step.WaitEnds?
    ensures !Releases(w, step) && Next(w, step).shut == w.shut
    ensures Next(w, step).ledger.freedVts == w.ledger.freedVts && Next(w, step).ledger.freedVms == w.ledger.freedVms
  {
    match step
    case TickResumes(id, ok, seen) => ResumeShutsNone(w, id, SegmentOf(w, id, ok, seen), Arms(w, id, ok, seen));
    case StartReopens(id, outcome) => ReopenShutsNone(w, id, outcome);
    case _ =>
  }

  lemma ResumeShutsNone(w: World, id: nat, segment: Segment, arms: bool)
    requires id in w.ticks
    ensures Resumed(w, id, segment, arms).ledger == w.ledger && Resumed(w, id, segment, arms).shut == w.shut
  {
  }

  lemma ReopenShutsNone(w: World, id: nat, outcome: Outcome)
    ensures var after := Reopen(w, id, outcome);
      && after.shut == w.shut && after.ledger.releases == w.ledger.releases
      && after.ledger.freedVts == w.ledger.freedVts && after.ledger.freedVms == w.ledger.freedVms
  {
  }

  /** The step number `k` of the run releases the hosts under a suspended tick. */
  predicate ReleasesUnderTick(steps: seq<Step>, k: nat)
    requires k < |steps| && Run(steps[..k]).Some? && Enabled(Run(steps[..k]).value, steps[k])
  {
    Run(steps[..k]).value.ticks != map[] && Releases(Run(steps[..k]).value, steps[k])
  }

  lemma {:induction false} PrefixRuns(steps: seq<Step>, k: nat)
    requires Run(steps).Some? && k < |steps|
    ensures Run(steps[..k]).Some? && Enabled(Run(steps[..k]).value, steps[k])
  {
    var init := steps[..|steps| - 1];
    if k < |steps| - 1 {
      assert init[..k] == steps[..k];
      PrefixRuns(init, k);
    }
  }

  /** So in every run whatever releases the hosts under a suspended tick is a dispose that has waited. */
  lemma ReleasesUnderTicksHaveWaited(steps: seq<Step>, k: nat)
    requires Run(steps).Some? && k < |steps|
    ensures Run(steps[..k]).Some? && Enabled(Run(steps[..k]).value, steps[k])
    ensures ReleasesUnderTick(steps, k) ==> steps[k].WaitEnds?
  {
    PrefixRuns(steps, k);
    LifetimeInvariant(steps[..k]);
    if ReleasesUnderTick(steps, k) && !steps[k].WaitEnds? {
      OnlyWaitsReleaseUnderTicks(Run(steps[..k]).value, steps[k]);
    }
  }

  /** Each host the session had is freed, and it has none any more. */
  predicate AllFreed(w: World, after: World) {
    && after.released && after.vt.None? && after.vm.None?
    && (w.vt.Some? ==> after.ledger.freedVts[w.vt.value] > 0) && (w.vm.Some? ==> after.ledger.freedVms[w.vm.value] > 0)
  }

  /**
   dispose closes the session. With no tick suspended the hosts are freed at once; else they are left alone, and what
   will free them waits for that very tick.
   */
  lemma DisposeReleasesIff(w: World)
    requires Sound(w) && !w.released
    ensures var after := Next(w, CallDispose);
      && after.closed && after.idleTimer.None?
      && (w.ticks == map[] <==> AllFreed(w, after))
      && (w.ticks != map[] ==>
            && after.vt == w.vt && after.vm == w.vm && after.ledger == w.ledger
            && w.next in after.waits && after.waits[w.next].completer.Some?
            && after.waits[w.next].completer == after.idle)
  {
  }

  /** disposeAsync closes the session too, and leaves the hosts alone until its wait ends, which frees them. */
  lemma DisposeAsyncWaits(w: World, timeout: bool)
    requires Sound(w) && !w.released
    ensures var after := Next(w, CallDisposeAsync);
      && after.closed && after.idleTimer.None? && after.ledger == w.ledger && after.vt == w.vt && after.vm == w.vm
      && w.next in after.waits
      && (Enabled(after, WaitEnds(w.next, timeout)) ==> AllFreed(w, Next(after, WaitEnds(w.next, timeout))))
  {
  }

  // ---------- nobody waits in vain ----------

  /** Whoever waits for a tick waits for one that has ended, or for the one that is suspended. */
  ghost predicate Awaited(w: World) {
    forall id :: id in w.waits && w.waits[id].completer.Some? ==>
      w.waits[id].completer.value in w.completed || w.waits[id].completer == w.idle
  }

  lemma AwaitedResumes(w: World, id: nat, segment: Segment, arms: bool)
    requires Awaited(w) && id in w.ticks
    ensures Awaited(Resumed(w, id, segment, arms))
  {
  }

  lemma AwaitedWaits(w: World, reopens: bool)
    requires Awaited(w) && OneTick(w)
    ensures Awaited(DisposeAsync(w, reopens))
  {
  }

  lemma AwaitedReopens(w: World, id: nat, outcome: Outcome)
    requires Awaited(w)
    ensures Awaited(Reopen(w, id, outcome))
  {
  }

  lemma AwaitedStep(w: World, step: Step)
    requires Sound(w) && Awaited(w) && Enabled(w, step)
    ensures Awaited(Next(w, step))
  {
    match step
    case TickResumes(id, ok, seen) => AwaitedResumes(w, id, SegmentOf(w, id, ok, seen), Arms(w, id, ok, seen));
    case CallDisposeAsync => AwaitedWaits(w, false);
    case CallDispose => AwaitedWaits(w, false);
    case CallStart => AwaitedWaits(w, true);
    case StartReopens(id, outcome) => AwaitedReopens(w, id, outcome);
    case _ =>
  }

  lemma {:induction false} AwaitedInRuns(steps: seq<Step>)
    requires Run(steps).Some?
    ensures Awaited(Run(steps).value)
  {
    if steps != [] {
      AwaitedInRuns(steps[..|steps| - 1]);
      LifetimeInvariant(steps[..|steps| - 1]);
      AwaitedStep(Run(steps[..|steps| - 1]).value, steps[|steps| - 1]);
    }
  }

  /** In every run, whenever no tick is suspended every waiting dispose and start may go on, without a timeout. */
  lemma NobodyWaitsInVain(steps: seq<Step>, id: nat)
    requires Run(steps).Some? && Run(steps).value.ticks == map[] && id in Run(steps).value.waits
    ensures Enabled(Run(steps).value, WaitEnds(id, false))
  {
    AwaitedInRuns(steps);
    LifetimeInvariant(steps);
  }

  // ---------- the script of a tick ----------

  /** What a tick does next: a call on a host, for which it may wait and without which it may end; or a clip is set. */
  datatype Act =
    | OnGuest(waitsAt: Pc, needed: bool)
    | OnTerminal(next: Option<Pc>, needed: bool)
    | Clipboard(more: nat)

  /** A call that is made may be waited for; a refused one ends the tick if it is needed, and else is passed over. */
  function Perform(tick: Tick, open: Open, acts: seq<Act>): Segment {
    if acts == [] then ENDED
    else
      match acts[0]
      case Clipboard(more) => Segment([], Some(AtClipboard(more)))
      case OnGuest(pc, needed) =>
        if open.vm then Segment([Guest(tick.vm)], Some(pc))
        else Calling(Guest(tick.vm), if needed then ENDED else Perform(tick, open, acts[1..]))
      case OnTerminal(pc, needed) =>
        if !open.vt && needed then Segment([Terminal(tick.vt)], None)
        else if open.vt && pc.Some? then Segment([Terminal(tick.vt)], pc)
        else Calling(Terminal(tick.vt), Perform(tick, open, acts[1..]))
  }

  function Calling(host: Host, rest: Segment): Segment {
    Segment([host] + rest.hosts, rest.at)
  }

  const TICK := OnGuest(AtTick, true)
  const STATUS := OnGuest(AtStatus, false)
  const OUTPUT := OnGuest(AtOutput, false)
  const WRITE := OnTerminal(None, false)
  const REPLY := OnGuest(AtPty, false)
  const PAINT := OnTerminal(Some(AtImages), true)

  /** The clipboard writes, and the paint after them. */
  function Finale(clips: nat): seq<Act> {
    if clips > 0 then [Clipboard(clips - 1)] + Finale(clips - 1) else [PAINT]
  }

  /** From the output on: the terminal's replies, and its events. A closed terminal has none of either. */
  function Aftermath(open: Open, seen: Seen): seq<Act> {
    (if seen.pty && open.vt then [REPLY] else []) + Finale(if open.vt then seen.clips else 0)
  }

  /** What is left of the script behind an await. */
  function Rest(pc: Pc, open: Open, ok: bool, seen: Seen): seq<Act> {
    match pc
    case AtInput => [TICK] + ([STATUS] + ([OUTPUT] + Aftermath(open, seen)))
    case AtTick => [STATUS] + ([OUTPUT] + Aftermath(open, seen))
    case AtStatus => [OUTPUT] + Aftermath(open, seen)
    case AtOutput => (if ok && seen.text then [WRITE] else []) + Aftermath(open, seen)
    case AtPty => Finale(if open.vt then seen.clips else 0)
    case AtClipboard(rest) => Finale(rest)
    case AtImages => []
  }

  lemma PerformFinale(tick: Tick, open: Open, clips: nat)
    ensures Perform(tick, open, Finale(clips)) == Events(tick, open, [], clips)
  {
  }

  lemma PerformOne(tick: Tick, open: Open, act: Act, rest: seq<Act>)
    ensures ([act] + rest)[1..] == rest && ([act] + rest)[0] == act
  {
  }

  /** What was called before comes first, and changes nothing else. */
  lemma AfterCalls(tick: Tick, open: Open, before: seq<Host>, seen: Seen)
    ensures Replies(tick, open, before, seen)
      == Segment(before + Replies(tick, open, [], seen).hosts, Replies(tick, open, [], seen).at)
    ensures AskOutput(tick, open, before, seen)
      == Segment(before + AskOutput(tick, open, [], seen).hosts, AskOutput(tick, open, [], seen).at)
  {
  }

  lemma PerformAftermath(tick: Tick, open: Open, seen: Seen)
    ensures Perform(tick, open, Aftermath(open, seen)) == Replies(tick, open, [], seen)
  {
    var clips := ClipsOf(open, seen);
    PerformFinale(tick, open, clips);
    if seen.pty && open.vt {
      PerformOne(tick, open, REPLY, Finale(clips));
    } else {
      assert [] + Finale(clips) == Finale(clips);
    }
  }

  lemma PerformOutput(tick: Tick, open: Open, seen: Seen)
    ensures Perform(tick, open, [OUTPUT] + Aftermath(open, seen)) == AskOutput(tick, open, [], seen)
  {
    PerformOne(tick, open, OUTPUT, Aftermath(open, seen));
    PerformAftermath(tick, open, seen);
    AfterCalls(tick, open, [Guest(tick.vm)], seen);
  }

  lemma PerformStatus(tick: Tick, open: Open, seen: Seen)
    ensures Perform(tick, open, [STATUS] + ([OUTPUT] + Aftermath(open, seen))) == AskStatus(tick, open, seen)
  {
    PerformOne(tick, open, STATUS, [OUTPUT] + Aftermath(open, seen));
    PerformOutput(tick, open, seen);
    AfterCalls(tick, open, [Guest(tick.vm)], seen);
  }

  lemma PerformWrite(tick: Tick, open: Open, ok: bool, seen: Seen)
    ensures Perform(tick, open, Rest(AtOutput, open, ok, seen))
      == Replies(tick, open, if ok && seen.text then [Terminal(tick.vt)] else [], seen)
  {
    PerformAftermath(tick, open, seen);
    if ok && seen.text {
      PerformOne(tick, open, WRITE, Aftermath(open, seen));
      AfterCalls(tick, open, [Terminal(tick.vt)], seen);
    } else {
      assert [] + Aftermath(open, seen) == Aftermath(open, seen);
    }
  }

  /**
   Every segment of a tick performs the script from its await on, up to the next call it waits for; in a closed
   session, and after a failed input or tick, it does nothing more.
   */
  lemma SegmentsFollowTheScript(tick: Tick, closed: bool, open: Open, ok: bool, seen: Seen)
    ensures TickSegment(tick, closed, open, ok, seen)
      == if closed || (!ok && (tick.pc.AtInput? || tick.pc.AtTick?)) then ENDED
         else Perform(tick, open, Rest(tick.pc, open, ok, seen))
  {
    match tick.pc
    case AtInput => PerformOne(tick, open, TICK, [STATUS] + ([OUTPUT] + Aftermath(open, seen)));
    case AtTick => PerformStatus(tick, open, seen);
    case AtStatus => PerformOutput(tick, open, seen);
    case AtOutput => PerformWrite(tick, open, ok, seen);
    case AtPty => PerformFinale(tick, open, ClipsOf(open, seen));
    case AtClipboard(rest) => PerformFinale(tick, open, rest);
    case AtImages =>
  }

  /**
   A tick begins, at the guest's input if some is pending and else at its tick, exactly in an open session that has
   both hosts and no other tick; a guest whose wrapper is closed refuses the first call, and nothing begins.
   */
  lemma TickBeginsIff(w: World, pending: bool)
    requires OneTick(w)
    ensures var after := Next(w, TickFires(pending));
      && (after.ticks != w.ticks <==>
            !w.closed && w.ticks == map[] && w.vt.Some? && w.vm.Some? && Guest(w.vm.value) !in w.shut)
      && (after.ticks != w.ticks ==>
            after.ticks == map[w.next := Tick(if pending then AtInput else AtTick, w.vt.value, w.vm.value)])
      && (w.closed || w.ticks != map[] ==> after == w)
  {
    if w.ticks == map[] && !w.closed && w.vt.Some? && w.vm.Some? && Guest(w.vm.value) !in w.shut {
      assert w.next in Next(w, TickFires(pending)).ticks;
    }
  }
}
