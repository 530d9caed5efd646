/**
 What every interleaving of ticks, disposes and starts keeps: one tick at a time, one release per start, nothing
 done by a tick once the session is closed, and which restarts are safe.
 */
module SessionSafety {
  import opened Bytes
  import opened Session

  // ---------- what holds in every run ----------

  /** `ticking` says whether a tick is suspended, of which there is at most one; it is what a completer waits for. */
  ghost predicate OneTick(w: World) {
    && (w.ticking <==> w.ticks != map[])
    && (forall id, id' :: id in w.ticks && id' in w.ticks ==> id == id')
    && (w.idle.Some? ==> w.ticking && w.idle.value !in w.completed && w.idle.value < w.next)
    && (forall c :: c in w.completed ==> c < w.next)
    && (forall id :: id in w.ticks ==>
          id < w.next && w.ticks[id].vt < w.ledger.opens && w.ticks[id].vt !in w.ledger.dropped)
    && (forall id :: id in w.waits ==> id < w.next)
  }

  predicate Restarts(w: World, id: nat) {
    id in w.reopening || (id in w.waits && w.waits[id].reopens)
  }

  /** At most one start is between its disposeAsync and its reopening, and only while the session is closed. */
  ghost predicate OneStart(w: World) {
    && (forall id, id' :: Restarts(w, id) && Restarts(w, id') ==> id == id')
    && (forall id :: Restarts(w, id) ==> w.closed)
    && (w.reopening != {} ==> w.released)
    && (forall id :: id in w.reopening ==> id !in w.waits && id < w.next)
  }

  /** A terminal opened is the session's, dropped, or freed once; a start is released once; no guest is freed twice. */
  ghost predicate Counted(w: World) {
    && w.ledger.releases == w.ledger.starts + (if w.released then 1 else 0)
    && (w.released ==> w.vt.None?)
    && (w.vt.Some? ==> w.vt.value < w.ledger.opens && w.vt.value !in w.ledger.dropped)
    && (forall h :: h in w.ledger.dropped ==> h < w.ledger.opens)
    && (forall h: nat :: w.ledger.freedVts[h]
                         == if h < w.ledger.opens && w.vt != Some(h) && h !in w.ledger.dropped then 1 else 0)
    && (w.vm.Some? ==> w.vm.value < w.ledger.boots && w.ledger.freedVms[w.vm.value] == 0)
    && (forall m: nat :: w.ledger.freedVms[m] <= 1 && (w.ledger.freedVms[m] > 0 ==> m < w.ledger.boots))
    && (forall id :: id in w.booting ==> w.booting[id] < w.ledger.opens && w.booting[id] !in w.ledger.dropped)
  }

  /** A wrapper is closed exactly if its host was freed, so no call that was let through went to a freed host. */
  ghost predicate Guarded(w: World) {
    && (forall host :: host in w.shut <==> !Live(w.ledger, host))
    && MadeIfLive(w.log)
  }

  ghost predicate Sound(w: World) {
    OneTick(w) && OneStart(w) && Counted(w)
  }

  lemma TickStep(w: World, pending: bool)
    requires Sound(w)
    ensures Sound(TickOnce(w, pending))
  {
    var after := TickOnce(w, pending);
    assert forall id :: Restarts(after, id) <==> Restarts(w, id);
    if after.ticking && !w.ticking {
      assert w.ticks == map[] && w.next in after.ticks;
    }
  }

  lemma ResumedStep(w: World, id: nat, segment: Segment, arms: bool)
    requires Sound(w) && id in w.ticks
    ensures Sound(Resumed(w, id, segment, arms))
  {
    var after := Resumed(w, id, segment, arms);
    assert forall other :: Restarts(after, other) <==> Restarts(w, other);
    if segment.at.None? {
      assert w.ticks - {id} == map[];
    } else {
      assert id in after.ticks;
    }
  }

  lemma ResumeStep(w: World, id: nat, ok: bool, seen: Seen)
    requires Sound(w) && id in w.ticks
    ensures Sound(ResumeTick(w, id, ok, seen))
  {
    ResumedStep(w, id, SegmentOf(w, id, ok, seen), Arms(w, id, ok, seen));
  }

  lemma AwaitKeepsStart(w: World, reopens: bool)
    requires OneTick(w) && OneStart(w) && (reopens ==> !w.closed)
    ensures OneStart(DisposeAsync(w, reopens))
  {
    var after := DisposeAsync(w, reopens);
    assert forall id :: Restarts(after, id) <==> Restarts(w, id) || (id == w.next && reopens);
  }

  lemma AwaitKeepsTick(w: World, reopens: bool)
    requires OneTick(w)
    ensures OneTick(DisposeAsync(w, reopens))
  {
  }

  lemma AwaitStep(w: World, reopens: bool)
    requires Sound(w) && (reopens ==> !w.closed)
    ensures Sound(DisposeAsync(w, reopens))
  {
    AwaitKeepsStart(w, reopens);
    AwaitKeepsTick(w, reopens);
  }

  lemma ReleaseStep(w: World)
    requires Sound(w)
    ensures Sound(Release(w))
  {
    assert forall id :: Restarts(Release(w), id) <==> Restarts(w, id);
  }

  lemma DisposeStep(w: World)
    requires Sound(w)
    ensures Sound(Dispose(w))
  {
    if w.ticking {
      AwaitStep(w, false);
    } else {
      assert forall id :: Restarts(Closing(w), id) <==> Restarts(w, id);
      ReleaseStep(Closing(w));
    }
  }

  lemma EndWaitStep(w: World, id: nat)
    requires Sound(w) && id in w.waits
    ensures Sound(EndWait(w, id))
  {
    ReleaseStep(w);
    var after := EndWait(w, id);
    assert forall other :: Restarts(after, other) <==> Restarts(w, other);
  }

  lemma ReopenEndsStart(w: World, id: nat, outcome: Outcome)
    requires OneStart(w) && id in w.reopening
    ensures OneStart(Reopen(w, id, outcome))
  {
    assert Restarts(w, id);
    var after := Reopen(w, id, outcome);
    assert forall other :: !Restarts(after, other) by {
      assert forall other :: Restarts(after, other) ==> Restarts(w, other) && other != id;
    }
    assert after.reopening == {} by {
      assert forall other :: other in after.reopening ==> Restarts(after, other);
    }
  }

  lemma ReopenCounts(w: World, id: nat, outcome: Outcome)
    requires Counted(w) && w.released
    ensures Counted(Reopen(w, id, outcome))
  {
    assert Counted(Reopened(w, id));
  }

  lemma ReopenStep(w: World, id: nat, outcome: Outcome)
    requires Sound(w) && id in w.reopening
    ensures Sound(Reopen(w, id, outcome))
  {
    ReopenEndsStart(w, id, outcome);
    ReopenCounts(w, id, outcome);
  }

  lemma BootedStep(w: World, id: nat, ok: bool)
    requires Sound(w) && id in w.booting
    ensures Sound(Booted(w, id, ok))
  {
    assert forall other :: Restarts(Booted(w, id, ok), other) <==> Restarts(w, other);
  }

  lemma CompressStep(w: World, more: bool)
    requires Sound(w) && w.idleTimer.Some?
    ensures Sound(Compress(w, more))
  {
    assert forall other :: Restarts(Compress(w, more), other) <==> Restarts(w, other);
  }

  lemma SoundStep(w: World, step: Step)
    requires Sound(w) && Enabled(w, step)
    ensures Sound(Next(w, step))
  {
    match step
    case TickFires(pending) => TickStep(w, pending);
    case TickResumes(id, ok, seen) => ResumeStep(w, id, ok, seen);
    case CallDisposeAsync => AwaitStep(w, false);
    case CallDispose => DisposeStep(w);
    case CallStart => if !w.closed { AwaitStep(w, true); }
    case WaitEnds(id, _) => EndWaitStep(w, id);
    case StartReopens(id, outcome) => ReopenStep(w, id, outcome);
    case GuestBoots(id, ok) => BootedStep(w, id, ok);
    case TimerFires(more) => CompressStep(w, more);
  }

  lemma {:induction false} LifetimeInvariant(steps: seq<Step>)
    requires Run(steps).Some?
    ensures OneTick(Run(steps).value) && OneStart(Run(steps).value) && Counted(Run(steps).value)
  {
    if steps != [] {
      LifetimeInvariant(steps[..|steps| - 1]);
      SoundStep(Run(steps[..|steps| - 1]).value, steps[|steps| - 1]);
    }
  }

  /**
   In every run at most one tick is active, and native hosts are released at most once per start; a terminal ever
   opened has been freed once, unless it is the session's own or its opening broke, and else not at all; no guest is
   freed twice.
   */
  lemma OneTickAndOneReleasePerStart(steps: seq<Step>)
    requires Run(steps).Some?
    ensures var w := Run(steps).value;
      && (forall id, id' :: id in w.ticks && id' in w.ticks ==> id == id')
      && w.ledger.starts <= w.ledger.releases <= w.ledger.starts + 1
      && (forall h: nat :: h < w.ledger.opens ==>
            w.ledger.freedVts[h] == if w.vt == Some(h) || h in BrokenIn(steps) then 0 else 1)
      && (forall m: nat :: w.ledger.freedVms[m] <= 1)
  {
    LifetimeInvariant(steps);
    DroppedInRun(steps);
  }

  // ---------- terminals whose opening broke ----------

  predicate BreaksOpening(step: Step) {
    step.StartReopens? && step.outcome.Breaks?
  }

  /** The terminals that openings of the run left behind. */
  function BrokenIn(steps: seq<Step>): set<nat>
    requires Run(steps).Some?
  {
    if steps == [] then {}
    else
      var before := steps[..|steps| - 1];
      BrokenIn(before) + if BreaksOpening(steps[|steps| - 1]) then {Run(before).value.ledger.opens} else {}
  }

  lemma ResumedKeepsHosts(w: World, id: nat, segment: Segment, arms: bool)
    requires id in w.ticks
    ensures Resumed(w, id, segment, arms).vm == w.vm && Resumed(w, id, segment, arms).ledger == w.ledger
  {
  }

  lemma ResumeKeepsHosts(w: World, id: nat, ok: bool, seen: Seen)
    requires id in w.ticks
    ensures ResumeTick(w, id, ok, seen).vm == w.vm && ResumeTick(w, id, ok, seen).ledger == w.ledger
  {
    ResumedKeepsHosts(w, id, SegmentOf(w, id, ok, seen), Arms(w, id, ok, seen));
  }

  lemma ReopenDrops(w: World, id: nat, outcome: Outcome)
    ensures var after := Reopen(w, id, outcome).ledger;
      && after.dropped == w.ledger.dropped + (if outcome.Breaks? then {w.ledger.opens} else {})
      && w.ledger.opens <= after.opens
  {
  }

  lemma OthersDropNone(w: World, step: Step)
    requires Enabled(w, step) && !step.TickResumes? && !step.StartReopens?
    ensures Next(w, step).ledger.dropped == w.ledger.dropped && Next(w, step).ledger.opens == w.ledger.opens
  {
  }

  lemma DroppedStep(w: World, step: Step)
    requires Enabled(w, step)
    ensures var after := Next(w, step).ledger;
      && after.dropped == w.ledger.dropped + (if BreaksOpening(step) then {w.ledger.opens} else {})
      && w.ledger.opens <= after.opens
  {
    match step
    case TickResumes(id, ok, seen) => ResumeKeepsHosts(w, id, ok, seen);
    case StartReopens(id, outcome) => ReopenDrops(w, id, outcome);
    case _ => OthersDropNone(w, step);
  }

  lemma {:induction false} DroppedInRun(steps: seq<Step>)
    requires Run(steps).Some?
    ensures Run(steps).value.ledger.dropped == BrokenIn(steps)
  {
    if steps != [] {
      DroppedInRun(steps[..|steps| - 1]);
      DroppedStep(Run(steps[..|steps| - 1]).value, steps[|steps| - 1]);
    }
  }

  /** Opened, not the session's, and not freed. */
  predicate Orphaned(w: World, h: nat) {
    h < w.ledger.opens && w.vt != Some(h) && w.ledger.freedVts[h] == 0
  }

  lemma {:induction false} BrokenSomewhere(steps: seq<Step>)
    requires Run(steps).Some?
    ensures BrokenIn(steps) == {} <==> forall step :: step in steps ==> !BreaksOpening(step)
  {
    if steps != [] {
      var before, last := steps[..|steps| - 1], steps[|steps| - 1];
      BrokenSomewhere(before);
      assert steps == before + [last];
      if BreaksOpening(last) {
        assert Run(before).value.ledger.opens in BrokenIn(steps);
      }
    }
  }

  /** After a run every terminal opened is the session's or was freed once, exactly if no opening of the run broke. */
  lemma NoTerminalOrphanedIff(steps: seq<Step>)
    requires Run(steps).Some?
    ensures (forall h: nat :: !Orphaned(Run(steps).value, h)) <==> forall step :: step in steps ==> !BreaksOpening(step)
  {
    LifetimeInvariant(steps);
    DroppedInRun(steps);
    BrokenSomewhere(steps);
    if h :| h in BrokenIn(steps) {
      assert Orphaned(Run(steps).value, h);
    }
  }

  /** And a terminal left behind stays so, whatever follows. */
  lemma {:induction false} OrphanedForever(w: World, steps: seq<Step>, h: nat)
    requires Sound(w) && Orphaned(w, h) && RunFrom(w, steps).Some?
    ensures Sound(RunFrom(w, steps).value) && Orphaned(RunFrom(w, steps).value, h)
  {
    if steps != [] {
      var before := RunFrom(w, steps[..|steps| - 1]).value;
      OrphanedForever(w, steps[..|steps| - 1], h);
      DroppedStep(before, steps[|steps| - 1]);
      SoundStep(before, steps[|steps| - 1]);
    }
  }

  // ---------- calls into native hosts ----------

  /** The calls on wrappers that were let through are the ones whose hosts were there. */
  predicate MadeIfLive(log: seq<Entry>) {
    forall k :: 0 <= k < |log| && !log[k].caller.ByTimer? ==> log[k].made == log[k].live
  }

  lemma EntriesGuarded(w: World, caller: Caller, hosts: seq<Host>)
    requires Guarded(w)
    ensures MadeIfLive(Entries(w, caller, hosts))
  {
  }

  lemma CallGuarded(w: World, caller: Caller, hosts: seq<Host>)
    requires Guarded(w)
    ensures MadeIfLive(Log(w, caller, hosts))
  {
    EntriesGuarded(w, caller, hosts);
  }

  lemma FreedIsShut(ledger: Ledger, vt: Option<nat>, vm: Option<nat>, host: Host)
    ensures Live(Freeing(ledger, vt, vm), host) <==> Live(ledger, host) && host !in Shut(vt, vm)
  {
  }

  lemma ReleaseGuarded(w: World)
    requires Guarded(w)
    ensures Guarded(Release(w))
  {
    forall host ensures host in Released(w).shut <==> !Live(Released(w).ledger, host) {
      FreedIsShut(w.ledger, w.vt, w.vm, host);
    }
  }

  lemma BootGuarded(w: World, id: nat, ok: bool)
    requires Guarded(w) && id in w.booting
    ensures Guarded(Booted(w, id, ok))
  {
    EntriesGuarded(w, ByStart, [Terminal(w.booting[id])]);
    if w.vt.Some? {
      EntriesGuarded(w, ByCatch, [Terminal(w.vt.value)]);
    }
    assert MadeIfLive(BootCalls(w, w.booting[id], ok));
  }

  lemma ReopenGuarded(w: World, id: nat, outcome: Outcome)
    requires Guarded(w) && id in w.reopening
    ensures Guarded(Reopen(w, id, outcome))
  {
    var again := Reopened(w, id);
    CallGuarded(again, ByStart, [Terminal(again.ledger.opens)]);
  }

  lemma TickGuarded(w: World, pending: bool)
    requires Guarded(w)
    ensures Guarded(TickOnce(w, pending))
  {
    if w.vm.Some? {
      CallGuarded(w, ByTick, [Guest(w.vm.value)]);
    }
  }

  lemma ResumeGuarded(w: World, id: nat, ok: bool, seen: Seen)
    requires Guarded(w) && id in w.ticks
    ensures Guarded(ResumeTick(w, id, ok, seen))
  {
    CallGuarded(w, ByTick, SegmentOf(w, id, ok, seen).hosts);
  }

  lemma AwaitGuarded(w: World, reopens: bool)
    requires Guarded(w)
    ensures Guarded(AwaitIdle(w, reopens))
  {
  }

  lemma DisposeGuarded(w: World)
    requires Guarded(w)
    ensures Guarded(Dispose(w))
  {
    assert Guarded(Closing(w));
    if w.ticking {
      AwaitGuarded(Closing(w), false);
    } else {
      ReleaseGuarded(Closing(w));
    }
  }

  lemma GuardedStep(w: World, step: Step)
    requires Guarded(w) && Enabled(w, step)
    ensures Guarded(Next(w, step))
  {
    match step
    case TickFires(pending) => TickGuarded(w, pending);
    case TickResumes(id, ok, seen) => ResumeGuarded(w, id, ok, seen);
    case CallDisposeAsync => AwaitGuarded(Closing(w), false);
    case CallDispose => DisposeGuarded(w);
    case CallStart => AwaitGuarded(Closing(w), true);
    case WaitEnds(id, _) => ReleaseGuarded(w);
    case StartReopens(id, outcome) => ReopenGuarded(w, id, outcome);
    case GuestBoots(id, ok) => BootGuarded(w, id, ok);
    case TimerFires(_) =>
  }

  lemma {:induction false} GuardInvariant(steps: seq<Step>)
    requires Run(steps).Some?
    ensures Guarded(Run(steps).value)
  {
    if steps != [] {
      GuardInvariant(steps[..|steps| - 1]);
      GuardedStep(Run(steps[..|steps| - 1]).value, steps[|steps| - 1]);
    }
  }

  /** In every run, whatever its timeouts and restarts, a wrapper lets a call through exactly if its host is there. */
  lemma WrappersGuardTheirHosts(steps: seq<Step>, k: nat)
    requires Run(steps).Some? && k < |Run(steps).value.log| && !Run(steps).value.log[k].caller.ByTimer?
    ensures Run(steps).value.log[k].made <==> Run(steps).value.log[k].live
  {
    GuardInvariant(steps);
  }

  // ---------- closed sessions ----------

  /** A tick that resumes in a closed session ends there, whatever it was waiting for and whatever it was told. */
  lemma ClosedTickEnds(w: World, id: nat, ok: bool, seen: Seen)
    requires Sound(w) && w.closed && id in w.ticks
    ensures var after := Next(w, TickResumes(id, ok, seen));
      after.log == w.log && after.ticks == map[] && !after.ticking
      && (w.idle.Some? ==> w.idle.value in after.completed)
  {
    ClosedTick(w, id, ok, seen);
    assert w.ticks - {id} == map[];
  }

  /** Closed, and no start is about to open the session again. */
  ghost predicate ClosedForGood(w: World) {
    w.closed && forall id :: !Restarts(w, id)
  }

  /** Nothing was added to the log by a tick. */
  ghost predicate NoTickSince(before: seq<Entry>, log: seq<Entry>) {
    before <= log && forall k :: |before| <= k < |log| ==> !log[k].caller.ByTick?
  }

  lemma ClosedTick(w: World, id: nat, ok: bool, seen: Seen)
    requires w.closed && id in w.ticks
    ensures ResumeTick(w, id, ok, seen) == EndTick(w, id)
  {
    assert w.log + [] == w.log;
  }

  lemma ClosedBoot(w: World, id: nat, ok: bool)
    requires ClosedForGood(w) && id in w.booting
    ensures ClosedForGood(Booted(w, id, ok)) && NoTickSince(w.log, Booted(w, id, ok).log)
    ensures Booted(w, id, ok).ticks == w.ticks
  {
    assert forall other :: Restarts(Booted(w, id, ok), other) <==> Restarts(w, other);
  }

  lemma ClosedWait(w: World, id: nat)
    requires ClosedForGood(w) && id in w.waits
    ensures ClosedForGood(EndWait(w, id)) && EndWait(w, id).log == w.log && EndWait(w, id).ticks == w.ticks
  {
    assert !Restarts(w, id);
    assert forall other :: Restarts(EndWait(w, id), other) ==> Restarts(w, other);
  }

  lemma ClosedDisposeAsync(w: World)
    requires ClosedForGood(w)
    ensures ClosedForGood(DisposeAsync(w, false)) && DisposeAsync(w, false).log == w.log
    ensures DisposeAsync(w, false).ticks == w.ticks
  {
    assert forall other :: Restarts(DisposeAsync(w, false), other) ==> Restarts(w, other) || other == w.next;
    assert !Restarts(w, w.next);
  }

  lemma ClosedDispose(w: World)
    requires ClosedForGood(w)
    ensures ClosedForGood(Dispose(w)) && Dispose(w).log == w.log && Dispose(w).ticks == w.ticks
  {
    if w.ticking {
      ClosedDisposeAsync(w);
    } else {
      assert forall other :: Restarts(Dispose(w), other) ==> Restarts(w, other);
    }
  }

  lemma ClosedStep(w: World, step: Step)
    requires ClosedForGood(w) && Enabled(w, step)
    ensures ClosedForGood(Next(w, step)) && NoTickSince(w.log, Next(w, step).log)
    ensures w.ticks == map[] ==> Next(w, step).ticks == map[]
  {
    match step
    case TickFires(pending) =>
    case TickResumes(id, ok, seen) =>
      ClosedTick(w, id, ok, seen);
      assert forall other :: Restarts(EndTick(w, id), other) <==> Restarts(w, other);
    case CallDisposeAsync => ClosedDisposeAsync(w);
    case CallDispose => ClosedDispose(w);
    case CallStart =>
    case WaitEnds(id, _) => ClosedWait(w, id);
    case StartReopens(id, _) => assert Restarts(w, id);
    case GuestBoots(id, ok) => ClosedBoot(w, id, ok);
    case TimerFires(more) => assert forall other :: Restarts(Compress(w, more), other) <==> Restarts(w, other);
  }

  /** From then on it stays closed over any run, no tick touches a host again, and no new tick begins. */
  lemma {:induction false} ClosedStaysInert(w: World, steps: seq<Step>)
    requires ClosedForGood(w) && RunFrom(w, steps).Some?
    ensures var after := RunFrom(w, steps).value;
      ClosedForGood(after) && NoTickSince(w.log, after.log) && (w.ticks == map[] ==> after.ticks == map[])
  {
    if steps != [] {
      ClosedStaysInert(w, steps[..|steps| - 1]);
      ClosedStep(RunFrom(w, steps[..|steps| - 1]).value, steps[|steps| - 1]);
    }
  }

  // ---------- putting runs together ----------

  predicate NoReopening(steps: seq<Step>) {
    forall k :: 0 <= k < |steps| ==> !steps[k].StartReopens?
  }

  lemma {:induction false} RunCons(w: World, step: Step, steps: seq<Step>)
    requires Enabled(w, step)
    ensures RunFrom(w, [step] + steps) == RunFrom(Next(w, step), steps)
    ensures NoReopening(steps) && !step.StartReopens? ==> NoReopening([step] + steps)
  {
    var all := [step] + steps;
    if steps == [] {
      assert all == [step] && all[..|all| - 1] == [];
      assert RunFrom(w, []) == Some(w);
    } else {
      assert all[..|all| - 1] == [step] + steps[..|steps| - 1] && all[|all| - 1] == steps[|steps| - 1];
      RunCons(w, step, steps[..|steps| - 1]);
    }
  }

  /** Sound and guarded, as the world is in every run. */
  ghost predicate Kept(w: World) {
    Sound(w) && Guarded(w)
  }

  lemma KeptStep(w: World, step: Step)
    requires Kept(w) && Enabled(w, step)
    ensures Kept(Next(w, step))
  {
    SoundStep(w, step);
    GuardedStep(w, step);
  }
}
