/**
 What becomes of booted guests. A guest can be freed unless it boots into a session that was closed and released
 for good; and it is lost, that is, neither freed nor the session's, exactly if a later one boots over it.
 */
module SessionGuests {
  import opened Bytes
  import opened Session
  import opened SessionSafety
  import opened SessionRestart

  /** Some run from here frees the guest. */
  ghost predicate CanBeFreed(w: World, m: nat) {
    exists steps: seq<Step> :: RunFrom(w, steps).Some? && RunFrom(w, steps).value.ledger.freedVms[m] > 0
  }

  // ---------- a guest that can be freed ----------

  /** The session was not released since it was opened: disposing does it. */
  lemma DisposeFrees(w: World, m: nat) returns (steps: seq<Step>)
    requires !w.released && w.vm == Some(m)
    ensures RunFrom(w, steps).Some? && RunFrom(w, steps).value.ledger.freedVms[m] > 0
  {
    var disposed := Next(w, CallDisposeAsync);
    var end := WaitEnds(w.next, disposed.waits[w.next].completer.Some?);
    assert Next(disposed, end).ledger.freedVms[m] > 0;
    RunCons(disposed, end, []);
    RunCons(w, CallDisposeAsync, [end]);
    assert [end] + [] == [end];
    steps := [CallDisposeAsync] + [end];
  }

  /** A start that is about to reopen will do so, and then disposing works again. */
  lemma ReopenFrees(w: World, id: nat, m: nat) returns (steps: seq<Step>)
    requires id in w.reopening && w.vm == Some(m)
    ensures RunFrom(w, steps).Some? && RunFrom(w, steps).value.ledger.freedVms[m] > 0
  {
    var step := StartReopens(id, Fails);
    steps := DisposeFrees(Next(w, step), m);
    RunCons(w, step, steps);
    steps := [step] + steps;
  }

  lemma RestartFrees(w: World, id: nat, m: nat) returns (steps: seq<Step>)
    requires w.released && Restarts(w, id) && w.vm == Some(m)
    ensures RunFrom(w, steps).Some? && RunFrom(w, steps).value.ledger.freedVms[m] > 0
  {
    if id in w.reopening {
      steps := ReopenFrees(w, id, m);
    } else {
      var end := WaitEnds(id, w.waits[id].completer.Some?);
      steps := ReopenFrees(Next(w, end), id, m);
      RunCons(w, end, steps);
      steps := [end] + steps;
    }
  }

  lemma StartFrees(w: World, m: nat) returns (steps: seq<Step>)
    requires w.released && !w.closed && w.vm == Some(m)
    ensures RunFrom(w, steps).Some? && RunFrom(w, steps).value.ledger.freedVms[m] > 0
  {
    steps := RestartFrees(Next(w, CallStart), w.next, m);
    RunCons(w, CallStart, steps);
    steps := [CallStart] + steps;
  }

  // ---------- a guest that cannot ----------

  lemma LateStep(w: World, step: Step)
    requires ClosedForGood(w) && w.released && Enabled(w, step)
    ensures Next(w, step).released && Next(w, step).ledger.freedVms == w.ledger.freedVms
  {
    match step
    case TickResumes(id, ok, seen) => ClosedTick(w, id, ok, seen);
    case StartReopens(id, _) => assert Restarts(w, id);
    case _ =>
  }

  lemma {:induction false} LateRun(w: World, steps: seq<Step>)
    requires ClosedForGood(w) && w.released && RunFrom(w, steps).Some?
    ensures RunFrom(w, steps).value.released && RunFrom(w, steps).value.ledger.freedVms == w.ledger.freedVms
  {
    if steps != [] {
      var before := RunFrom(w, steps[..|steps| - 1]).value;
      LateRun(w, steps[..|steps| - 1]);
      ClosedStaysInert(w, steps[..|steps| - 1]);
      LateStep(before, steps[|steps| - 1]);
    }
  }

  /** Exactly the guests that boot into a session closed and released for good can never be freed. */
  lemma BootedGuestCanBeFreedIff(w: World, id: nat)
    requires Sound(w) && id in w.booting
    ensures CanBeFreed(Next(w, GuestBoots(id, true)), w.ledger.boots) <==> !(ClosedForGood(w) && w.released)
  {
    var after, m := Next(w, GuestBoots(id, true)), w.ledger.boots;
    if !w.released {
      var steps := DisposeFrees(after, m);
    } else if !w.closed {
      var steps := StartFrees(after, m);
    } else if restart :| Restarts(w, restart) {
      assert Restarts(after, restart);
      var steps := RestartFrees(after, restart, m);
    } else {
      ClosedBoot(w, id, true);
      forall steps: seq<Step> | RunFrom(after, steps).Some?
        ensures RunFrom(after, steps).value.ledger.freedVms[m] == 0
      {
        LateRun(after, steps);
      }
    }
  }

  // ---------- guests that nobody has ----------

  /** Booted, not the session's, and not freed. */
  predicate Lost(w: World, m: nat) {
    m < w.ledger.boots && w.vm != Some(m) && w.ledger.freedVms[m] == 0
  }

  /** A guest boots where the session has one already. */
  predicate Overwrites(w: World, step: Step) {
    step.GuestBoots? && step.ok && w.vm.Some?
  }

  lemma ReleaseLosesNone(w: World, m: nat)
    ensures Lost(Release(w), m) <==> Lost(w, m)
  {
  }

  lemma BootLoses(w: World, id: nat, ok: bool, m: nat)
    requires Sound(w) && id in w.booting
    ensures Lost(Booted(w, id, ok), m) <==> Lost(w, m) || (ok && w.vm == Some(m))
  {
    assert m >= w.ledger.boots ==> w.ledger.freedVms[m] == 0;
  }

  lemma ReopenLosesNone(w: World, id: nat, outcome: Outcome)
    ensures var after := Reopen(w, id, outcome);
      after.vm == w.vm && after.ledger.boots == w.ledger.boots && after.ledger.freedVms == w.ledger.freedVms
  {
  }

  lemma OthersLoseNone(w: World, step: Step)
    requires Enabled(w, step) && !step.GuestBoots? && !step.WaitEnds? && !step.CallDispose?
    ensures var after := Next(w, step);
      after.vm == w.vm && after.ledger.boots == w.ledger.boots && after.ledger.freedVms == w.ledger.freedVms
  {
    match step
    case TickResumes(id, ok, seen) => ResumeKeepsHosts(w, id, ok, seen);
    case StartReopens(id, outcome) => ReopenLosesNone(w, id, outcome);
    case _ =>
  }

  /** Which guests a step loses: the one it boots over, besides those lost before. */
  lemma LostStep(w: World, step: Step, m: nat)
    requires Sound(w) && Enabled(w, step)
    ensures Lost(Next(w, step), m) <==> Lost(w, m) || (Overwrites(w, step) && w.vm == Some(m))
  {
    match step
    case GuestBoots(id, ok) => BootLoses(w, id, ok, m);
    case WaitEnds(id, _) => ReleaseLosesNone(w, m);
    case CallDispose => ReleaseLosesNone(Closing(w), m);
    case _ => OthersLoseNone(w, step);
  }

  /** A lost guest stays lost. */
  lemma {:induction false} LostForever(w: World, steps: seq<Step>, m: nat)
    requires Sound(w) && Lost(w, m) && RunFrom(w, steps).Some?
    ensures Sound(RunFrom(w, steps).value) && Lost(RunFrom(w, steps).value, m)
  {
    if steps != [] {
      var before := RunFrom(w, steps[..|steps| - 1]).value;
      LostForever(w, steps[..|steps| - 1], m);
      SoundStep(before, steps[|steps| - 1]);
      LostStep(before, steps[|steps| - 1], m);
    }
  }

  predicate NeverOverwrites(steps: seq<Step>) {
    steps != [] && Run(steps[..|steps| - 1]).Some? ==>
      NeverOverwrites(steps[..|steps| - 1]) && !Overwrites(Run(steps[..|steps| - 1]).value, steps[|steps| - 1])
  }

  /** After a run every guest booted is the session's or freed, exactly if none was booted over another. */
  lemma {:induction false} NoGuestLostIff(steps: seq<Step>)
    requires Run(steps).Some?
    ensures (forall m: nat :: !Lost(Run(steps).value, m)) <==> NeverOverwrites(steps)
  {
    if steps != [] {
      var init, step := steps[..|steps| - 1], steps[|steps| - 1];
      var before := Run(init).value;
      NoGuestLostIff(init);
      LifetimeInvariant(init);
      forall m: nat
        ensures Lost(Run(steps).value, m) <==> Lost(before, m) || (Overwrites(before, step) && before.vm == Some(m))
      {
        LostStep(before, step, m);
      }
      if Overwrites(before, step) {
        assert Lost(Run(steps).value, before.vm.value);
      }
    }
  }

  // ---------- two starts, one after the other's opening ----------

  /** A run to the world `end` all of whose reopenings are clear. */
  ghost predicate Leads(w: World, steps: seq<Step>, end: World) {
    RunFrom(w, steps) == Some(end) && Calm(w, steps)
  }

  lemma LeadsSnoc(w: World, steps: seq<Step>, mid: World, step: Step)
    requires Leads(w, steps, mid) && Enabled(mid, step) && (step.StartReopens? ==> Clear(mid, step.outcome.Opens?))
    ensures Leads(w, steps + [step], Next(mid, step))
  {
    assert (steps + [step])[..|steps|] == steps;
  }

  /** An open session without a tick or a waiting dispose, in which start may be called. */
  ghost predicate Idle(w: World) {
    Kept(w) && !w.closed && !w.released && !w.ticking && w.waits == map[] && w.reopening == {}
  }

  function Opening(id: nat): seq<Step> {
    [CallStart] + [WaitEnds(id, false)] + [StartReopens(id, Opens)]
  }

  /** start up to the end of its disposeAsync, and to its boot. */
  function Called(w: World): World
    requires !w.closed
  {
    Next(w, CallStart)
  }

  lemma IdleCalled(w: World)
    requires Idle(w)
    ensures Kept(Called(w)) && Called(w) == Closing(w).(waits := map[w.next := Wait(None, true)], next := w.next + 1)
  {
    KeptStep(w, CallStart);
  }

  lemma IdleWaited(w: World)
    requires Idle(w)
    ensures Enabled(Called(w), WaitEnds(w.next, false))
    ensures var waited := Next(Called(w), WaitEnds(w.next, false));
      Kept(waited) && waited == Release(Closing(w)).(reopening := {w.next}, next := w.next + 1)
  {
    IdleCalled(w);
    KeptStep(Called(w), WaitEnds(w.next, false));
    assert Called(w).waits - {w.next} == map[] && {} + {w.next} == {w.next};
  }

  lemma IdleOpened(w: World)
    requires Kept(w) && w.waits == map[] && w.ticks == map[] && w.reopening == {w.next - 1}
    ensures var end := Next(w, StartReopens(w.next - 1, Opens));
      Idle(end) && Clear(w, true) && end.vm == w.vm && end.vt == Some(w.ledger.opens) && end.next == w.next
      && end.ledger.boots == w.ledger.boots && end.booting == w.booting[w.next - 1 := w.ledger.opens]
  {
    KeptStep(w, StartReopens(w.next - 1, Opens));
    assert {w.next - 1} - {w.next - 1} == {};
  }

  lemma ClosesAgain(w: World, steps: seq<Step>, mid: World) returns (waited: World)
    requires Leads(w, steps, mid) && Idle(mid)
    ensures Leads(w, steps + [CallStart] + [WaitEnds(mid.next, false)], waited)
    ensures Kept(waited) && waited == Release(Closing(mid)).(reopening := {mid.next}, next := mid.next + 1)
  {
    IdleCalled(mid);
    LeadsSnoc(w, steps, mid, CallStart);
    IdleWaited(mid);
    LeadsSnoc(w, steps + [CallStart], Called(mid), WaitEnds(mid.next, false));
    waited := Next(Called(mid), WaitEnds(mid.next, false));
  }

  lemma OpeningAppends(steps: seq<Step>, id: nat)
    ensures steps + [CallStart] + [WaitEnds(id, false)] + [StartReopens(id, Opens)] == steps + Opening(id)
  {
  }

  lemma OpensAgain(w: World, steps: seq<Step>, mid: World) returns (end: World)
    requires Leads(w, steps, mid) && Idle(mid)
    ensures Leads(w, steps + Opening(mid.next), end) && Idle(end) && end.vm == None && end.vt == Some(mid.ledger.opens)
    ensures end.booting == mid.booting[mid.next := mid.ledger.opens] && end.next == mid.next + 1
    ensures end.ledger.boots == mid.ledger.boots
  {
    OpeningAppends(steps, mid.next);
    var waited := ClosesAgain(w, steps, mid);
    IdleOpened(waited);
    LeadsSnoc(w, steps + [CallStart] + [WaitEnds(mid.next, false)], waited, StartReopens(mid.next, Opens));
    end := Next(waited, StartReopens(mid.next, Opens));
  }

  /** If two starts wait for their guests, the one that boots first is booted over. */
  lemma SecondBootWins(w: World, first: nat, second: nat)
    requires Sound(w) && first in w.booting && second in w.booting && first != second
    ensures second in Next(w, GuestBoots(first, true)).booting
    ensures Lost(Next(Next(w, GuestBoots(first, true)), GuestBoots(second, true)), w.ledger.boots)
  {
    SoundStep(w, GuestBoots(first, true));
    LostStep(Next(w, GuestBoots(first, true)), GuestBoots(second, true), w.ledger.boots);
  }

  lemma ErrorElsewhere(w: World, first: nat)
    requires Kept(w) && first in w.booting && w.vt.Some? && w.vt.value != w.booting[first] && !w.closed
    ensures Entry(ByCatch, Terminal(w.vt.value), true, true, false) in Next(w, GuestBoots(first, true)).log
    ensures !Next(w, GuestBoots(first, true)).closed
  {
    BootPaints(w, first, true);
    assert Next(w, GuestBoots(first, true)).log[|w.log| + 1] == Entry(ByCatch, Terminal(w.vt.value), true, true, false);
  }

  lemma BootKeepsLog(w: World, id: nat, ok: bool)
    requires id in w.booting
    ensures w.log <= Booted(w, id, ok).log && Booted(w, id, ok).closed == w.closed
  {
  }

  /** Of two starts that wait for their guests both are served, the first one first. */
  lemma BothBoot(w: World, steps: seq<Step>, mid: World, first: nat, second: nat) returns (end: World)
    requires Leads(w, steps, mid) && Kept(mid) && !mid.closed && first in mid.booting && second in mid.booting
    requires first != second && mid.vt.Some? && mid.vt.value != mid.booting[first]
    ensures Leads(w, steps + [GuestBoots(first, true)] + [GuestBoots(second, true)], end)
    ensures !end.closed && Lost(end, mid.ledger.boots)
    ensures Entry(ByCatch, Terminal(mid.vt.value), true, true, false) in end.log
  {
    var one, two := GuestBoots(first, true), GuestBoots(second, true);
    SecondBootWins(mid, first, second);
    ErrorElsewhere(mid, first);
    LeadsSnoc(w, steps, mid, one);
    var booted := Next(mid, one);
    BootKeepsLog(booted, second, true);
    LeadsSnoc(w, steps + [one], booted, two);
    end := Next(booted, two);
  }

  /**
   Whenever start is called again while an earlier one waits for its guest, the earlier guest may be lost for good:
   in an open session, and without a restart that is not clear. The earlier start then paints its error on the
   later one's terminal, its own being gone.
   */
  lemma OverlappingStartsLoseAGuest(w: World, before: seq<Step>, mid: World, first: nat)
    returns (steps: seq<Step>, end: World)
    requires Leads(w, before, mid) && Idle(mid) && first in mid.booting && first < mid.next
    ensures Leads(w, steps, end) && !end.closed && Lost(end, mid.ledger.boots)
    ensures Entry(ByCatch, Terminal(mid.ledger.opens), true, true, false) in end.log
  {
    var again := OpensAgain(w, before, mid);
    end := BothBoot(w, before + Opening(mid.next), again, first, mid.next);
    steps := before + Opening(mid.next) + [GuestBoots(first, true)] + [GuestBoots(mid.next, true)];
  }

  /** Such a run there is: start, start again, and both guests boot. */
  lemma SomeCalmRunLosesAGuest()
    ensures exists steps ::
      Calm(NEW, steps) && Run(steps).Some? && !Run(steps).value.closed && Lost(Run(steps).value, 0)
  {
    var mid := OpensAgain(NEW, [], NEW);
    var steps, end := OverlappingStartsLoseAGuest(NEW, [] + Opening(0), mid, 0);
  }
}
