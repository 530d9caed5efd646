/**
 When no tick is ever refused a call: start opens the session again without asking whether a tick or another
 dispose is still suspended, so this depends on where start is called. The condition is exact. And what start
 paints, on which terminal, when its guest has booted.
 */
module SessionRestart {
  import opened Bytes
  import opened Session
  import opened SessionSafety

  /** A suspended tick has only its image sync left. */
  ghost predicate TicksDone(w: World) {
    forall id :: id in w.ticks ==> w.ticks[id].pc.AtImages?
  }

  /** Besides, if hosts are to be opened, nobody is waiting to release them. */
  ghost predicate Clear(w: World, opening: bool) {
    TicksDone(w) && (opening ==> w.waits == map[])
  }

  /** No tick met a StateError. */
  predicate NoneRefused(log: seq<Entry>) {
    forall k :: 0 <= k < |log| ==> log[k].caller.ByTick? ==> log[k].made
  }

  /** While the session is open nobody waits to release what it has, and the running tick's wrappers are open. */
  ghost predicate Safe(w: World) {
    && (!w.closed ==> w.waits == map[] || (w.vt.None? && TicksDone(w)))
    && (forall id :: id in w.ticks && !w.closed && !w.ticks[id].pc.AtImages? ==>
          Terminal(w.ticks[id].vt) !in w.shut && Guest(w.ticks[id].vm) !in w.shut)
    && (forall id :: id in w.waits && (w.waits[id].completer.None? || w.waits[id].completer.value in w.completed) ==>
          w.ticks == map[])
    && NoneRefused(w.log)
  }

  lemma SegmentCalls(tick: Tick, closed: bool, open: Open, ok: bool, seen: Seen)
    ensures var segment := TickSegment(tick, closed, open, ok, seen);
      && (closed || tick.pc.AtImages? ==> segment == ENDED)
      && (forall k :: 0 <= k < |segment.hosts| ==> segment.hosts[k] in {Terminal(tick.vt), Guest(tick.vm)})
  {
  }

  lemma SafeFires(w: World, pending: bool)
    requires Kept(w) && Safe(w)
    ensures Safe(TickOnce(w, pending))
  {
  }

  lemma SafeResumes(w: World, id: nat, ok: bool, seen: Seen)
    requires Kept(w) && Safe(w) && id in w.ticks
    ensures Safe(ResumeTick(w, id, ok, seen))
  {
    var segment := SegmentOf(w, id, ok, seen);
    SegmentCalls(w.ticks[id], w.closed, OpenFor(w.shut, w.ticks[id]), ok, seen);
    assert NoneRefused(Entries(w, ByTick, segment.hosts));
    if segment.at.None? {
      assert w.ticks - {id} == map[];
    }
  }

  lemma SafeDisposeAsync(w: World, reopens: bool)
    requires Kept(w) && Safe(w)
    ensures Safe(DisposeAsync(w, reopens))
  {
  }

  lemma SafeDispose(w: World)
    requires Kept(w) && Safe(w)
    ensures Safe(Dispose(w))
  {
    if w.ticking {
      SafeDisposeAsync(w, false);
    }
  }

  lemma SafeWaits(w: World, id: nat)
    requires Kept(w) && Safe(w) && id in w.waits
    ensures Safe(EndWait(w, id))
  {
  }

  lemma SafeReopens(w: World, id: nat, outcome: Outcome)
    requires Kept(w) && Safe(w) && id in w.reopening && Clear(w, outcome.Opens?)
    ensures Safe(Reopen(w, id, outcome))
  {
  }

  lemma SafeBoots(w: World, id: nat, ok: bool)
    requires Kept(w) && Safe(w) && id in w.booting
    ensures Safe(Booted(w, id, ok))
  {
    assert NoneRefused(BootCalls(w, w.booting[id], ok));
  }

  lemma SafeStep(w: World, step: Step)
    requires Kept(w) && Safe(w) && Enabled(w, step) && (step.StartReopens? ==> Clear(w, step.outcome.Opens?))
    ensures Safe(Next(w, step))
  {
    match step
    case TickFires(pending) => SafeFires(w, pending);
    case TickResumes(id, ok, seen) => SafeResumes(w, id, ok, seen);
    case CallDisposeAsync => SafeDisposeAsync(w, false);
    case CallDispose => SafeDispose(w);
    case CallStart => SafeDisposeAsync(w, true);
    case WaitEnds(id, _) => SafeWaits(w, id);
    case StartReopens(id, outcome) => SafeReopens(w, id, outcome);
    case GuestBoots(id, ok) => SafeBoots(w, id, ok);
    case TimerFires(_) =>
  }

  /** Every start of the run reopens where that is clear. */
  ghost predicate Calm(w: World, steps: seq<Step>) {
    steps == [] ||
    (Calm(w, steps[..|steps| - 1])
     && (steps[|steps| - 1].StartReopens? && RunFrom(w, steps[..|steps| - 1]).Some? ==>
           Clear(RunFrom(w, steps[..|steps| - 1]).value, steps[|steps| - 1].outcome.Opens?)))
  }

  lemma {:induction false} CalmRuns(w: World, steps: seq<Step>)
    requires Kept(w) && Safe(w) && Calm(w, steps) && RunFrom(w, steps).Some?
    ensures Kept(RunFrom(w, steps).value) && Safe(RunFrom(w, steps).value)
  {
    if steps != [] {
      CalmRuns(w, steps[..|steps| - 1]);
      KeptStep(RunFrom(w, steps[..|steps| - 1]).value, steps[|steps| - 1]);
      SafeStep(RunFrom(w, steps[..|steps| - 1]).value, steps[|steps| - 1]);
    }
  }

  /** In a calm run from a new session no tick is refused a call. */
  lemma CalmTicksAreNotRefused(steps: seq<Step>)
    requires Run(steps).Some? && Calm(NEW, steps)
    ensures NoneRefused(Run(steps).value.log)
  {
    CalmRuns(NEW, steps);
  }

  /** In a calm run, a release whose wait did not time out finds no tick suspended. */
  lemma PatientReleaseFindsNoTick(steps: seq<Step>, id: nat)
    requires Run(steps).Some? && Calm(NEW, steps) && Enabled(Run(steps).value, WaitEnds(id, false))
    ensures Run(steps).value.ticks == map[]
  {
    CalmRuns(NEW, steps);
  }

  // ---------- restarts after which a tick is refused ----------

  lemma {:induction false} NoReopeningIsCalm(w: World, steps: seq<Step>)
    requires NoReopening(steps)
    ensures Calm(w, steps)
  {
    if steps != [] {
      NoReopeningIsCalm(w, steps[..|steps| - 1]);
    }
  }

  /** How many resumptions a tick is from painting. */
  function Distance(pc: Pc): nat {
    match pc
    case AtInput => 3
    case AtTick => 2
    case AtStatus => 1
    case AtClipboard(rest) => rest
    case _ => 0
  }

  const QUIET := Seen(false, false, 0, false)

  /** Without its terminal a tick of an open session is refused a call, or comes closer to painting. */
  lemma ResumesCloser(w: World, id: nat)
    requires id in w.ticks && !w.closed && !w.ticks[id].pc.AtImages? && Terminal(w.ticks[id].vt) in w.shut
    ensures var after := Next(w, TickResumes(id, true, QUIET));
      !NoneRefused(after.log)
      || (id in after.ticks && !after.closed && !after.ticks[id].pc.AtImages? && after.ticks[id].vt == w.ticks[id].vt
          && after.shut == w.shut && Distance(after.ticks[id].pc) < Distance(w.ticks[id].pc))
  {
    var tick := w.ticks[id];
    var after := Next(w, TickResumes(id, true, QUIET));
    var segment := SegmentOf(w, id, true, QUIET);
    if segment.at.None? {
      RefusedAtEnd(tick, OpenFor(w.shut, tick));
      var last := |segment.hosts| - 1;
      assert after.log[|w.log| + last] == Entries(w, ByTick, segment.hosts)[last];
    }
  }

  /** A tick that gives up does so at a refused call. */
  lemma RefusedAtEnd(tick: Tick, open: Open)
    requires !open.vt && !tick.pc.AtImages? && TickSegment(tick, false, open, true, QUIET).at.None?
    ensures var hosts := TickSegment(tick, false, open, true, QUIET).hosts;
      hosts != [] && (hosts[|hosts| - 1] == Terminal(tick.vt) || (hosts[|hosts| - 1] == Guest(tick.vm) && !open.vm))
  {
  }

  lemma {:induction false} StaleTick(w: World, id: nat) returns (steps: seq<Step>)
    requires id in w.ticks && !w.closed && !w.ticks[id].pc.AtImages? && Terminal(w.ticks[id].vt) in w.shut
    ensures NoReopening(steps) && RunFrom(w, steps).Some? && !NoneRefused(RunFrom(w, steps).value.log)
    decreases Distance(w.ticks[id].pc)
  {
    var step := TickResumes(id, true, QUIET);
    ResumesCloser(w, id);
    var rest := [];
    if NoneRefused(Next(w, step).log) {
      rest := StaleTick(Next(w, step), id);
    }
    RunCons(w, step, rest);
    steps := [step] + rest;
  }

  lemma LostGuest(w: World, id: nat) returns (steps: seq<Step>)
    requires id in w.ticks && !w.closed && w.ticks[id].pc.AtTick? && Guest(w.ticks[id].vm) in w.shut
    ensures NoReopening(steps) && RunFrom(w, steps).Some? && !NoneRefused(RunFrom(w, steps).value.log)
  {
    var step := TickResumes(id, true, QUIET);
    var hosts := SegmentOf(w, id, true, QUIET).hosts;
    assert hosts[0] == Guest(w.ticks[id].vm);
    assert Next(w, step).log[|w.log|] == Entries(w, ByTick, hosts)[0];
    RunCons(w, step, []);
    steps := [step];
  }

  /** A dispose that was waiting when start opened the session again takes the new hosts away under a tick. */
  lemma LateRelease(w: World, id: nat, wait: nat) returns (steps: seq<Step>)
    requires !w.closed && !w.released && !w.ticking && w.vt.Some? && id in w.booting && wait in w.waits
    requires Guest(w.ledger.boots) !in w.shut && forall c :: c in w.ticks || c in w.waits ==> c < w.next
    ensures NoReopening(steps) && RunFrom(w, steps).Some? && !NoneRefused(RunFrom(w, steps).value.log)
  {
    var boot, fire := GuestBoots(id, true), TickFires(false);
    var booted := Next(w, boot);
    var fired := Next(booted, fire);
    var end := WaitEnds(wait, w.waits[wait].completer.Some?);
    var ended := Next(fired, end);
    assert w.next in ended.ticks && ended.ticks[w.next] == Tick(AtTick, w.vt.value, w.ledger.boots);
    assert Guest(w.ledger.boots) in ended.shut;
    steps := LostGuest(ended, w.next);
    RunCons(fired, end, steps);
    RunCons(booted, fire, [end] + steps);
    RunCons(w, boot, [fire] + ([end] + steps));
    steps := [boot] + ([fire] + ([end] + steps));
  }

  /** No calm run from here has a tick refused. */
  ghost predicate StaysCalm(w: World) {
    forall steps: seq<Step> ::
      Calm(w, steps) && RunFrom(w, steps).Some? ==> NoneRefused(RunFrom(w, steps).value.log)
  }

  lemma ClearStaysCalm(w: World, id: nat, outcome: Outcome)
    requires Kept(w) && Safe(w) && id in w.reopening && Clear(w, outcome.Opens?)
    ensures StaysCalm(Reopen(w, id, outcome))
  {
    KeptStep(w, StartReopens(id, outcome));
    SafeReopens(w, id, outcome);
    var after := Reopen(w, id, outcome);
    forall steps: seq<Step> | Calm(after, steps) && RunFrom(after, steps).Some?
      ensures NoneRefused(RunFrom(after, steps).value.log)
    {
      CalmRuns(after, steps);
    }
  }

  /** A tick that outlives its session meets a StateError in the next one. */
  lemma OldTickIsRefused(w: World, id: nat, outcome: Outcome, tick: nat)
    requires Kept(w) && id in w.reopening && tick in w.ticks && !w.ticks[tick].pc.AtImages?
    ensures !StaysCalm(Reopen(w, id, outcome))
  {
    var after := Reopen(w, id, outcome);
    assert w.ledger.freedVts[w.ticks[tick].vt] == 1;
    var steps := StaleTick(after, tick);
    NoReopeningIsCalm(after, steps);
  }

  lemma NextGuestIsOpen(w: World)
    requires Kept(w)
    ensures Guest(w.ledger.boots) !in w.shut
  {
    assert Live(w.ledger, Guest(w.ledger.boots));
  }

  lemma DoneTickEnds(w: World, id: nat)
    requires id in w.ticks && w.ticks[id].pc.AtImages?
    ensures Next(w, TickResumes(id, true, QUIET)) == EndTick(w, id)
  {
    assert w.log + [] == w.log;
  }

  /** A session just opened for another start, with an old wait and at most a tick that is done. */
  lemma LateReleaseAnyway(w: World, id: nat, wait: nat) returns (steps: seq<Step>)
    requires OneTick(w) && TicksDone(w) && Guest(w.ledger.boots) !in w.shut
    requires !w.closed && !w.released && w.vt.Some? && id in w.booting && wait in w.waits
    ensures NoReopening(steps) && RunFrom(w, steps).Some? && !NoneRefused(RunFrom(w, steps).value.log)
  {
    if w.ticking {
      var tick :| tick in w.ticks;
      var end := TickResumes(tick, true, QUIET);
      DoneTickEnds(w, tick);
      assert w.ticks - {tick} == map[];
      steps := LateRelease(EndTick(w, tick), id, wait);
      RunCons(w, end, steps);
      steps := [end] + steps;
    } else {
      steps := LateRelease(w, id, wait);
    }
  }

  /** So does a tick of the next one, if a dispose of the old one is still waiting. */
  lemma OldWaitRefuses(w: World, id: nat, wait: nat)
    requires Kept(w) && id in w.reopening && wait in w.waits && TicksDone(w)
    ensures !StaysCalm(Reopen(w, id, Opens))
  {
    var after := Reopen(w, id, Opens);
    NextGuestIsOpen(w);
    KeptStep(w, StartReopens(id, Opens));
    var steps := LateReleaseAnyway(after, id, wait);
    NoReopeningIsCalm(after, steps);
  }

  /** Exactly when it is safe to open the session again, whether or not the opening works. */
  lemma RestartIsSafeIff(w: World, id: nat, outcome: Outcome)
    requires Kept(w) && Safe(w) && id in w.reopening
    ensures StaysCalm(Next(w, StartReopens(id, outcome))) <==> Clear(w, outcome.Opens?)
  {
    if Clear(w, outcome.Opens?) {
      ClearStaysCalm(w, id, outcome);
    } else if tick :| tick in w.ticks && !w.ticks[tick].pc.AtImages? {
      OldTickIsRefused(w, id, outcome, tick);
    } else {
      var wait :| wait in w.waits;
      OldWaitRefuses(w, id, wait);
    }
  }

  // ---------- what start paints ----------

  /**
   After the boot start paints its own terminal exactly if that still is the session's. Otherwise the call is
   refused, and the error is painted on the terminal the session has by then, be it another start's, or nowhere.
   A failed boot is painted there too.
   */
  lemma BootPaints(w: World, id: nat, ok: bool)
    requires Kept(w) && id in w.booting
    ensures var own := w.booting[id];
      var error := if w.vt.Some? then [Entry(ByCatch, Terminal(w.vt.value), true, true, w.closed)] else [];
      Next(w, GuestBoots(id, ok)).log
      == w.log + if !ok then error
                 else if w.vt == Some(own) then [Entry(ByStart, Terminal(own), true, true, w.closed)]
                 else [Entry(ByStart, Terminal(own), false, false, w.closed)] + error
  {
    OneCall(w, ByStart, Terminal(w.booting[id]));
    if w.vt.Some? {
      OneCall(w, ByCatch, Terminal(w.vt.value));
    }
  }

  lemma OneCall(w: World, caller: Caller, host: Host)
    requires Guarded(w)
    ensures Entries(w, caller, [host]) == [Entry(caller, host, Live(w.ledger, host), Live(w.ledger, host), w.closed)]
  {
    assert Entries(w, caller, [host])[0] == EntryOf(w, caller, host);
  }
}
