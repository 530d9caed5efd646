/**
 The one call that no wrapper guards: the idle timer compresses a terminal through its own handle. Exactly when
 that terminal is sure to be there.
 */
module SessionTimer {
  import opened Bytes
  import opened Session
  import opened SessionSafety

  /** No call that was made went to a freed host. */
  predicate AllLive(log: seq<Entry>) {
    forall k :: 0 <= k < |log| ==> log[k].made ==> log[k].live
  }

  /** While the session is open nobody waits to release its terminal, and the timer is armed for that one only. */
  ghost predicate TimerSafe(w: World) {
    && (!w.closed ==> w.waits == map[] || w.vt.None?)
    && (w.idleTimer.Some? ==> !w.closed && w.vt == w.idleTimer)
    && AllLive(w.log)
  }

  lemma CallsLive(w: World, caller: Caller, hosts: seq<Host>)
    requires Guarded(w) && AllLive(w.log) && !caller.ByTimer?
    ensures AllLive(Log(w, caller, hosts))
  {
    assert AllLive(Entries(w, caller, hosts));
  }

  lemma TimerTick(w: World, pending: bool)
    requires Kept(w) && TimerSafe(w)
    ensures TimerSafe(TickOnce(w, pending))
  {
    if w.vm.Some? {
      CallsLive(w, ByTick, [Guest(w.vm.value)]);
    }
  }

  lemma ArmedIsOwn(w: World, id: nat, ok: bool, seen: Seen)
    requires Kept(w) && id in w.ticks && Arms(w, id, ok, seen)
    ensures w.vt == Some(w.ticks[id].vt)
  {
    assert Live(w.ledger, Terminal(w.ticks[id].vt));
  }

  lemma TimerResumed(w: World, id: nat, segment: Segment, arms: bool)
    requires TimerSafe(w) && id in w.ticks && AllLive(Log(w, ByTick, segment.hosts))
    requires arms ==> !w.closed && w.vt == Some(w.ticks[id].vt)
    ensures TimerSafe(Resumed(w, id, segment, arms))
  {
  }

  lemma TimerResume(w: World, id: nat, ok: bool, seen: Seen)
    requires Kept(w) && TimerSafe(w) && id in w.ticks
    ensures TimerSafe(ResumeTick(w, id, ok, seen))
  {
    CallsLive(w, ByTick, SegmentOf(w, id, ok, seen).hosts);
    if Arms(w, id, ok, seen) {
      ArmedIsOwn(w, id, ok, seen);
    }
    TimerResumed(w, id, SegmentOf(w, id, ok, seen), Arms(w, id, ok, seen));
  }

  lemma TimerReopen(w: World, id: nat, outcome: Outcome)
    requires Kept(w) && TimerSafe(w) && id in w.reopening && (outcome.Opens? ==> w.waits == map[])
    ensures TimerSafe(Reopen(w, id, outcome))
  {
    KeptStep(w, StartReopens(id, Fails));
    var again := Reopened(w, id);
    CallsLive(again, ByStart, [Terminal(again.ledger.opens)]);
  }

  lemma TimerBoot(w: World, id: nat, ok: bool)
    requires Kept(w) && TimerSafe(w) && id in w.booting
    ensures TimerSafe(Booted(w, id, ok))
  {
    CallsLive(w, ByStart, [Terminal(w.booting[id])]);
    if w.vt.Some? {
      CallsLive(w, ByCatch, [Terminal(w.vt.value)]);
    }
    assert AllLive(BootCalls(w, w.booting[id], ok));
  }

  lemma TimerCompress(w: World, more: bool)
    requires Kept(w) && TimerSafe(w) && w.idleTimer.Some?
    ensures TimerSafe(Compress(w, more))
  {
    assert Live(w.ledger, Terminal(w.idleTimer.value));
  }

  lemma TimerStep(w: World, step: Step)
    requires Kept(w) && TimerSafe(w) && Enabled(w, step)
    requires (step.StartReopens? && step.outcome.Opens? ==> w.waits == map[])
    ensures TimerSafe(Next(w, step))
  {
    match step
    case TickFires(pending) => TimerTick(w, pending);
    case TickResumes(id, ok, seen) => TimerResume(w, id, ok, seen);
    case CallDisposeAsync =>
    case CallDispose =>
    case CallStart =>
    case WaitEnds(id, _) =>
    case StartReopens(id, outcome) => TimerReopen(w, id, outcome);
    case GuestBoots(id, ok) => TimerBoot(w, id, ok);
    case TimerFires(more) => TimerCompress(w, more);
  }

  /** No start of the run opens hosts while a dispose is waiting. */
  ghost predicate Unhurried(w: World, steps: seq<Step>) {
    steps == [] ||
    (Unhurried(w, steps[..|steps| - 1])
     && (steps[|steps| - 1].StartReopens? && steps[|steps| - 1].outcome.Opens?
         && RunFrom(w, steps[..|steps| - 1]).Some? ==>
           RunFrom(w, steps[..|steps| - 1]).value.waits == map[]))
  }

  lemma {:induction false} UnhurriedRuns(w: World, steps: seq<Step>)
    requires Kept(w) && TimerSafe(w) && Unhurried(w, steps) && RunFrom(w, steps).Some?
    ensures Kept(RunFrom(w, steps).value) && TimerSafe(RunFrom(w, steps).value)
  {
    if steps != [] {
      UnhurriedRuns(w, steps[..|steps| - 1]);
      KeptStep(RunFrom(w, steps[..|steps| - 1]).value, steps[|steps| - 1]);
      TimerStep(RunFrom(w, steps[..|steps| - 1]).value, steps[|steps| - 1]);
    }
  }

  /** In such a run from a new session no call at all goes to a freed host, the timer's included. */
  lemma UnhurriedRunsCallLiveHosts(steps: seq<Step>)
    requires Run(steps).Some? && Unhurried(NEW, steps)
    ensures AllLive(Run(steps).value.log)
  {
    UnhurriedRuns(NEW, steps);
  }

  /** The timer makes one call, with the terminal it was armed for, and is armed again exactly if work is left. */
  lemma TimerGoesOnIff(w: World, more: bool)
    requires w.idleTimer.Some?
    ensures var after, terminal := Next(w, TimerFires(more)), w.idleTimer.value;
      && after.log == w.log + [Entry(ByTimer, Terminal(terminal), true, w.ledger.freedVts[terminal] == 0, w.closed)]
      && (after.idleTimer == w.idleTimer <==> more) && (after.idleTimer.None? <==> !more)
  {
  }

  /** A tick arms it for its terminal exactly if, in an open session, it wrote text there that changed the activity. */
  lemma TickArmsIff(w: World, id: nat, ok: bool, seen: Seen)
    requires id in w.ticks
    ensures var after, tick := Next(w, TickResumes(id, ok, seen)), w.ticks[id];
      var wrote := tick.pc.AtOutput? && !w.closed && ok && seen.text && Terminal(tick.vt) !in w.shut;
      after.idleTimer == if wrote && seen.activity then Some(tick.vt) else w.idleTimer
  {
    TimerOfResumed(w, id, SegmentOf(w, id, ok, seen), Arms(w, id, ok, seen));
  }

  lemma TimerOfResumed(w: World, id: nat, segment: Segment, arms: bool)
    requires id in w.ticks
    ensures Resumed(w, id, segment, arms).idleTimer == if arms then Some(w.ticks[id].vt) else w.idleTimer
  {
  }

  // ---------- a hurried start ----------

  lemma {:induction false} NoReopeningIsUnhurried(w: World, steps: seq<Step>)
    requires NoReopening(steps)
    ensures Unhurried(w, steps)
  {
    if steps != [] {
      NoReopeningIsUnhurried(w, steps[..|steps| - 1]);
    }
  }

  const LOUD := Seen(true, false, 0, true)

  /** A run that is a witness: it opens nothing, and a freed host is called. */
  ghost predicate CallsFreed(w: World, steps: seq<Step>) {
    NoReopening(steps) && RunFrom(w, steps).Some? && !AllLive(RunFrom(w, steps).value.log)
  }

  lemma TimerCallsFreed(w: World) returns (steps: seq<Step>)
    requires w.idleTimer.Some? && !Live(w.ledger, Terminal(w.idleTimer.value))
    ensures CallsFreed(w, steps)
  {
    var step := TimerFires(false);
    assert Next(w, step).log[|w.log|] == Entry(ByTimer, Terminal(w.idleTimer.value), true, false, w.closed);
    RunCons(w, step, []);
    steps := [step];
  }

  lemma ReleasedUnderTimer(w: World, wait: nat) returns (steps: seq<Step>)
    requires !w.released && w.vt.Some? && w.idleTimer == w.vt && wait in w.waits
    ensures CallsFreed(w, steps)
  {
    var end := WaitEnds(wait, w.waits[wait].completer.Some?);
    assert Next(w, end).ledger.freedVts[w.vt.value] > 0;
    var rest := TimerCallsFreed(Next(w, end));
    RunCons(w, end, rest);
    steps := [end] + rest;
  }

  /** An open session with a tick on its way to the output, and a dispose of before still waiting. */
  ghost predicate Doomed(w: World, id: nat, wait: nat) {
    && !w.closed && !w.released && wait in w.waits && id in w.ticks && w.vt == Some(w.ticks[id].vt)
    && Terminal(w.ticks[id].vt) !in w.shut && Guest(w.ticks[id].vm) !in w.shut
  }

  lemma LoudTick(w: World, id: nat, wait: nat) returns (steps: seq<Step>)
    requires Doomed(w, id, wait) && w.ticks[id].pc.AtOutput?
    ensures CallsFreed(w, steps)
  {
    var step := TickResumes(id, true, LOUD);
    var rest := ReleasedUnderTimer(Next(w, step), wait);
    RunCons(w, step, rest);
    steps := [step] + rest;
  }

  lemma StatusTick(w: World, id: nat, wait: nat) returns (steps: seq<Step>)
    requires Doomed(w, id, wait) && w.ticks[id].pc.AtStatus?
    ensures CallsFreed(w, steps)
  {
    var step := TickResumes(id, true, LOUD);
    var rest := LoudTick(Next(w, step), id, wait);
    RunCons(w, step, rest);
    steps := [step] + rest;
  }

  lemma FirstTick(w: World, id: nat, wait: nat) returns (steps: seq<Step>)
    requires Doomed(w, id, wait) && w.ticks[id].pc.AtTick?
    ensures CallsFreed(w, steps)
  {
    var step := TickResumes(id, true, LOUD);
    var rest := StatusTick(Next(w, step), id, wait);
    RunCons(w, step, rest);
    steps := [step] + rest;
  }

  /** An open session without a guest yet, and a dispose of before still waiting. */
  ghost predicate Hurried(w: World, id: nat, wait: nat) {
    && !w.closed && !w.released && id in w.booting && wait in w.waits
    && w.vt.Some? && Terminal(w.vt.value) !in w.shut && Guest(w.ledger.boots) !in w.shut
  }

  lemma BootAndTick(w: World, id: nat, wait: nat) returns (steps: seq<Step>)
    requires Hurried(w, id, wait) && !w.ticking
    ensures CallsFreed(w, steps)
  {
    var boot, fire := GuestBoots(id, true), TickFires(false);
    var booted := Next(w, boot);
    assert booted.vm == Some(w.ledger.boots);
    var rest := FirstTick(Next(booted, fire), w.next, wait);
    RunCons(booted, fire, rest);
    RunCons(w, boot, [fire] + rest);
    steps := [boot] + ([fire] + rest);
  }

  /** How many resumptions end a tick at most. */
  function Steps(pc: Pc): nat {
    match pc
    case AtInput => 4
    case AtTick => 3
    case AtStatus => 2
    case AtOutput => 1
    case AtPty => 1
    case AtClipboard(rest) => rest + 1
    case AtImages => 0
  }

  const QUIETLY := Seen(false, false, 0, false)

  lemma QuietSegment(tick: Tick, open: Open)
    ensures var at := TickSegment(tick, false, open, true, QUIETLY).at;
      at.Some? ==> Steps(at.value) < Steps(tick.pc)
  {
  }

  lemma {:induction false} TickEndsFirst(w: World, id: nat, wait: nat, tick: nat) returns (steps: seq<Step>)
    requires Hurried(w, id, wait) && tick in w.ticks
    ensures CallsFreed(w, steps)
    decreases Steps(w.ticks[tick].pc)
  {
    var step := TickResumes(tick, true, QUIETLY);
    var after := Next(w, step);
    QuietSegment(w.ticks[tick], OpenFor(w.shut, w.ticks[tick]));
    var rest;
    if SegmentOf(w, tick, true, QUIETLY).at.None? {
      rest := BootAndTick(after, id, wait);
    } else {
      rest := TickEndsFirst(after, id, wait, tick);
    }
    RunCons(w, step, rest);
    steps := [step] + rest;
  }

  /** No unhurried run from here has a call to a freed host. */
  ghost predicate StaysLive(w: World) {
    forall steps: seq<Step> ::
      Unhurried(w, steps) && RunFrom(w, steps).Some? ==> AllLive(RunFrom(w, steps).value.log)
  }

  lemma HurriedIsNotLive(w: World, id: nat, wait: nat)
    requires Kept(w) && id in w.reopening && wait in w.waits
    ensures !StaysLive(Reopen(w, id, Opens))
  {
    var after := Reopen(w, id, Opens);
    assert Hurried(after, id, wait) by {
      assert Live(w.ledger, Guest(w.ledger.boots)) && Live(w.ledger, Terminal(w.ledger.opens));
    }
    var steps;
    if w.ticking {
      var tick :| tick in w.ticks;
      steps := TickEndsFirst(after, id, wait, tick);
    } else {
      steps := BootAndTick(after, id, wait);
    }
    NoReopeningIsUnhurried(after, steps);
  }

  lemma UnhurriedStaysLive(w: World, id: nat, outcome: Outcome)
    requires Kept(w) && TimerSafe(w) && id in w.reopening && (outcome.Opens? ==> w.waits == map[])
    ensures StaysLive(Reopen(w, id, outcome))
  {
    var after := Reopen(w, id, outcome);
    KeptStep(w, StartReopens(id, outcome));
    TimerReopen(w, id, outcome);
    forall steps: seq<Step> | Unhurried(after, steps) && RunFrom(after, steps).Some?
      ensures AllLive(RunFrom(after, steps).value.log)
    {
      UnhurriedRuns(after, steps);
    }
  }

  /** Exactly when reopening leaves the idle timer no chance to reach a freed terminal. */
  lemma ReopeningIsLiveIff(w: World, id: nat, outcome: Outcome)
    requires Kept(w) && TimerSafe(w) && id in w.reopening
    ensures StaysLive(Next(w, StartReopens(id, outcome))) <==> (outcome.Opens? ==> w.waits == map[])
  {
    if outcome.Opens? && w.waits != map[] {
      var wait :| wait in w.waits;
      HurriedIsNotLive(w, id, wait);
    } else {
      UnhurriedStaysLive(w, id, outcome);
    }
  }
}
