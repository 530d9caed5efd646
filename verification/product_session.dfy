/**
 The session as the class it is: each method runs one task from one await to the next, updates the fields in
 place, and is proved to take the step of Session that models it. `steps` is the history of the object, so all
 that is proved about runs holds of it.
 */
module ProductSessions {
  import opened Bytes
  import opened Session
  import opened SessionTicks
  import S = Session

  lemma RunSnoc(steps: seq<Step>, w: World, step: Step)
    requires Run(steps) == Some(w) && Enabled(w, step)
    ensures Run(steps + [step]) == Some(Next(w, step))
  {
    assert (steps + [step])[..|steps|] == steps;
  }

  function OutcomeOf(terminal: Option<nat>, whole: bool): Outcome {
    if terminal.None? then Fails else if whole then Opens else Breaks
  }

  lemma ClosedEnds(w: World, id: nat, ok: bool, seen: Seen)
    requires w.closed && id in w.ticks
    ensures S.ResumeTick(w, id, ok, seen) == EndTick(w, id)
  {
    assert w.log + [] == w.log;
  }

  class ProductSession {
    var closed: bool
    var ticking: bool
    var nativeReleased: bool
    var vt: Option<nat>
    var vm: Option<nat>
    var tickIdle: Option<nat>
    // the suspended tasks, by number
    var ticks: map<nat, Tick>
    var waits: map<nat, Wait>
    var reopening: set<nat>
    var booting: map<nat, nat>
    var next: nat
    var completed: set<nat>
    // which wrappers were closed, and the terminal the idle timer holds
    var shut: set<Host>
    var idleTimer: Option<nat>
    // what was opened, freed and called so far, and all steps taken
    ghost var ledger: Ledger
    ghost var log: seq<Entry>
    ghost var steps: seq<Step>

    ghost function View(): World
      reads this
    {
      World(closed, ticking, nativeReleased, vt, vm, tickIdle, ticks, waits, reopening, booting, next, completed,
            shut, idleTimer, ledger, log)
    }

    /** The object is what its history makes it. */
    ghost predicate Valid()
      reads this
    {
      Run(steps) == Some(View())
    }

    constructor ()
      ensures Valid() && steps == []
    {
      closed, ticking, nativeReleased := false, false, false;
      vt, vm, tickIdle := None, None, None;
      ticks, waits, reopening, booting, next, completed := map[], map[], {}, map[], 0, {};
      shut, idleTimer := {}, None;
      ledger, log, steps := Ledger(0, 0, 0, 0, multiset{}, multiset{}, {}), [], [];
    }

    /** Enters the step that was taken into the history. */
    ghost method Took(taken: seq<Step>)
      requires Run(taken) == Some(View())
      modifies this`steps
      ensures Valid() && steps == taken
    {
      steps := taken;
    }

    /** A call on a wrapper; false if that is closed and throws. */
    method Call(caller: Caller, host: Host) returns (open: bool)
      modifies this`log
      ensures open == (host !in shut) && log == old(log) + Entries(old(View()), caller, [host])
    {
      open := host !in shut;
      log := log + [EntryOf(View(), caller, host)];
    }

    /** _tickOnce up to its first await. */
    method BeginTick(pending: bool)
      modifies this`ticking, this`next, this`ticks, this`log
      ensures View() == S.TickOnce(old(View()), pending)
    {
      if closed || ticking {
        return;
      }
      if vt.None? || vm.None? {
        return;
      }
      var open := Call(ByTick, Guest(vm.value));
      if open {
        ticking := true;
        ticks := ticks[next := Tick(if pending then AtInput else AtTick, vt.value, vm.value)];
        next := next + 1;
      }
    }

    method TickOnce(pending: bool)
      requires Valid()
      modifies this`ticking, this`next, this`ticks, this`log, this`steps
      ensures Valid() && steps == old(steps) + [TickFires(pending)]
    {
      RunSnoc(steps, View(), TickFires(pending));
      BeginTick(pending);
      Took(steps + [TickFires(pending)]);
    }

    /** The event loop from the next clipboard write on, and the paint after it; `hosts` are the calls tried. */
    method HandleEvents(tick: Tick, clips: nat) returns (at: Option<Pc>, ghost hosts: seq<Host>)
      ensures Segment(hosts, at) == Events(tick, OpenFor(shut, tick), [], clips)
    {
      hosts := [];
      if clips > 0 {
        return Some(AtClipboard(clips - 1)), hosts;
      }
      hosts := hosts + [Terminal(tick.vt)];
      at := if Terminal(tick.vt) !in shut then Some(AtImages) else None;
    }

    /** The replies, the events and the paint. Closing a terminal has emptied its queues. */
    method SendReplies(tick: Tick, seen: Seen) returns (at: Option<Pc>, ghost hosts: seq<Host>)
      ensures Segment(hosts, at) == Replies(tick, OpenFor(shut, tick), [], seen)
    {
      var queues := Terminal(tick.vt) !in shut;
      ghost var reply := [];
      if seen.pty && queues {
        reply := [Guest(tick.vm)];
        if Guest(tick.vm) !in shut {
          return Some(AtPty), reply;
        }
      }
      at, hosts := HandleEvents(tick, if queues then seen.clips else 0);
      hosts := reply + hosts;
    }

    /** takeOutput, and what follows at once if it is refused. */
    method TakeOutput(tick: Tick, seen: Seen) returns (at: Option<Pc>, ghost hosts: seq<Host>)
      ensures Segment(hosts, at) == AskOutput(tick, OpenFor(shut, tick), [], seen)
    {
      if Guest(tick.vm) !in shut {
        return Some(AtOutput), [Guest(tick.vm)];
      }
      AfterCalls(tick, OpenFor(shut, tick), [Guest(tick.vm)], seen);
      at, hosts := SendReplies(tick, seen);
      hosts := [Guest(tick.vm)] + hosts;
    }

    /** status, whose refusal is caught. */
    method CheckStatus(tick: Tick, seen: Seen) returns (at: Option<Pc>, ghost hosts: seq<Host>)
      ensures Segment(hosts, at) == AskStatus(tick, OpenFor(shut, tick), seen)
    {
      if Guest(tick.vm) !in shut {
        return Some(AtStatus), [Guest(tick.vm)];
      }
      AfterCalls(tick, OpenFor(shut, tick), [Guest(tick.vm)], seen);
      at, hosts := TakeOutput(tick, seen);
      hosts := [Guest(tick.vm)] + hosts;
    }

    /** The output, written if there is any, and the replies; a refused write is caught. */
    method HandleOutput(tick: Tick, ok: bool, seen: Seen) returns (at: Option<Pc>, ghost hosts: seq<Host>)
      modifies this`idleTimer
      ensures Segment(hosts, at)
        == Replies(tick, OpenFor(shut, tick), if ok && seen.text then [Terminal(tick.vt)] else [], seen)
      ensures idleTimer
        == if ok && seen.text && seen.activity && Terminal(tick.vt) !in shut then Some(tick.vt) else old(idleTimer)
    {
      ghost var written := [];
      if ok && seen.text {
        written := [Terminal(tick.vt)];
        if Terminal(tick.vt) !in shut && seen.activity {
          idleTimer := Some(tick.vt);
        }
      }
      AfterCalls(tick, OpenFor(shut, tick), written, seen);
      at, hosts := SendReplies(tick, seen);
      hosts := written + hosts;
    }

    /** The rest of a tick of an open session up to its next await, or to its end. */
    method RunOn(tick: Tick, ok: bool, seen: Seen) returns (at: Option<Pc>, ghost hosts: seq<Host>)
      modifies this`idleTimer
      ensures Segment(hosts, at) == TickSegment(tick, false, OpenFor(shut, tick), ok, seen)
      ensures idleTimer
        == if tick.pc.AtOutput? && ok && seen.text && seen.activity && Terminal(tick.vt) !in shut then Some(tick.vt)
           else old(idleTimer)
    {
      at, hosts := None, [];
      match tick.pc {
        case AtInput =>
          if ok {
            hosts := [Guest(tick.vm)];
            at := if Guest(tick.vm) !in shut then Some(AtTick) else None;
          }
        case AtTick =>
          if ok {
            at, hosts := CheckStatus(tick, seen);
          }
        case AtStatus => at, hosts := TakeOutput(tick, seen);
        case AtOutput => at, hosts := HandleOutput(tick, ok, seen);
        case AtPty => at, hosts := HandleEvents(tick, if Terminal(tick.vt) !in shut then seen.clips else 0);
        case AtClipboard(rest) => at, hosts := HandleEvents(tick, rest);
        case AtImages =>
      }
    }

    /** The finally block. */
    method Finally(id: nat)
      modifies this`ticks, this`ticking, this`tickIdle, this`completed
      ensures View() == EndTick(old(View()), id)
    {
      ticks := ticks - {id};
      ticking := false;
      if tickIdle.Some? {
        completed := completed + {tickIdle.value};
      }
      tickIdle := None;
    }

    /** The tick waits again, or ends. */
    method Settle(id: nat, at: Option<Pc>)
      requires id in ticks
      modifies this`ticks, this`ticking, this`tickIdle, this`completed
      ensures View() == if at.None? then EndTick(old(View()), id)
                        else old(View()).(ticks := old(ticks)[id := old(ticks)[id].(pc := at.value)])
    {
      if at.Some? {
        ticks := ticks[id := ticks[id].(pc := at.value)];
      } else {
        Finally(id);
      }
    }

    /** _tickOnce from the await at which it is suspended. */
    method ContinueTick(id: nat, ok: bool, seen: Seen)
      requires id in ticks && !closed
      modifies this`log, this`idleTimer, this`ticks, this`ticking, this`tickIdle, this`completed
      ensures View() == S.ResumeTick(old(View()), id, ok, seen)
    {
      ghost var before := View();
      var at, hosts := RunOn(ticks[id], ok, seen);
      assert Segment(hosts, at) == SegmentOf(before, id, ok, seen);
      log := Log(before, ByTick, hosts);
      Settle(id, at);
      assert View() == Resumed(before, id, Segment(hosts, at), Arms(before, id, ok, seen));
    }

    method ResumeTick(id: nat, ok: bool, seen: Seen)
      requires Valid() && id in ticks
      modifies this`log, this`idleTimer, this`ticks, this`ticking, this`tickIdle, this`completed, this`steps
      ensures Valid() && steps == old(steps) + [TickResumes(id, ok, seen)]
    {
      RunSnoc(steps, View(), TickResumes(id, ok, seen));
      if closed {
        ClosedEnds(View(), id, ok, seen);
        Finally(id);
      } else {
        ContinueTick(id, ok, seen);
      }
      Took(steps + [TickResumes(id, ok, seen)]);
    }

    /** _waitForTickIdle up to its await; the wait itself is suspended from then on. */
    method AwaitIdle(reopens: bool)
      modifies this`tickIdle, this`waits, this`next
      ensures View() == S.AwaitIdle(old(View()), reopens)
    {
      var completer := None;
      if ticking {
        if tickIdle.None? {
          tickIdle := Some(next);
        }
        completer := tickIdle;
      }
      waits := waits[next := Wait(completer, reopens)];
      next := next + 1;
    }

    method CloseWrappers()
      modifies this`shut, this`ledger
      ensures shut == old(shut) + Shut(vt, vm) && ledger == Freeing(old(ledger), vt, vm)
    {
      shut := shut + Shut(vt, vm);
      ledger := Freeing(ledger, vt, vm);
    }

    /** Closes the wrappers, which frees their hosts. */
    method CloseHosts()
      modifies this`nativeReleased, this`vt, this`vm, this`shut, this`ledger
      ensures View() == Released(old(View()))
    {
      ghost var was := View();
      CloseWrappers();
      nativeReleased, vt, vm := true, None, None;
      assert View() == Released(was);
    }

    /** _releaseNative */
    method ReleaseNative()
      modifies this`nativeReleased, this`vt, this`vm, this`shut, this`ledger
      ensures View() == Release(old(View()))
    {
      if !nativeReleased {
        CloseHosts();
      }
    }

    /** Both ways to dispose, and start, begin so. */
    method CloseSession()
      modifies this`closed, this`idleTimer
      ensures View() == Closing(old(View()))
    {
      closed, idleTimer := true, None;
    }

    method DisposeAsync()
      requires Valid()
      modifies this`closed, this`idleTimer, this`tickIdle, this`waits, this`next, this`steps
      ensures Valid() && steps == old(steps) + [CallDisposeAsync]
    {
      RunSnoc(steps, View(), CallDisposeAsync);
      CloseSession();
      AwaitIdle(false);
      Took(steps + [CallDisposeAsync]);
    }

    method Dispose()
      requires Valid()
      modifies this
      ensures Valid() && steps == old(steps) + [CallDispose]
    {
      RunSnoc(steps, View(), CallDispose);
      ghost var taken := steps + [CallDispose];
      CloseSession();
      if ticking {
        AwaitIdle(false);
      } else {
        ReleaseNative();
      }
      Took(taken);
    }

    /** A wait is over: release, and let a start go on. */
    method FinishWait(id: nat)
      requires id in waits
      modifies this`nativeReleased, this`vt, this`vm, this`shut, this`ledger, this`waits, this`reopening
      ensures View() == S.EndWait(old(View()), id)
    {
      ReleaseNative();
      if waits[id].reopens {
        reopening := reopening + {id};
      }
      waits := waits - {id};
    }

    /** disposeAsync after its wait; only one whose tick ended, or whose time is up, gets here. */
    method EndWait(id: nat, timeout: bool)
      requires Valid() && Enabled(View(), WaitEnds(id, timeout))
      modifies this
      ensures Valid() && steps == old(steps) + [WaitEnds(id, timeout)]
    {
      RunSnoc(steps, View(), WaitEnds(id, timeout));
      ghost var taken := steps + [WaitEnds(id, timeout)];
      FinishWait(id);
      Took(taken);
    }

    /** start up to the end of its disposeAsync; false where it throws. */
    method Start() returns (ok: bool)
      requires Valid()
      modifies this`closed, this`idleTimer, this`tickIdle, this`waits, this`next, this`steps
      ensures Valid() && steps == old(steps) + [CallStart] && ok == !old(closed)
    {
      RunSnoc(steps, View(), CallStart);
      ok := !closed;
      if ok {
        CloseSession();
        AwaitIdle(true);
      }
      Took(steps + [CallStart]);
    }

    /** start from there on, up to the opening. */
    method OpenSession(id: nat)
      modifies this`closed, this`nativeReleased, this`idleTimer, this`reopening, this`ledger
      ensures View() == Reopened(old(View()), id)
    {
      closed, nativeReleased, idleTimer := false, false, None;
      reopening := reopening - {id};
      ledger := ledger.(starts := ledger.starts + 1);
    }

    /** start from there to the boot; `terminal` is the one it opens, if any, and `whole` says that nothing threw. */
    method Reopen(id: nat, terminal: Option<nat>, whole: bool)
      requires Valid() && id in reopening && (terminal.Some? ==> terminal.value == ledger.opens)
      modifies this
      ensures Valid() && steps == old(steps) + [StartReopens(id, OutcomeOf(terminal, whole))]
    {
      RunSnoc(steps, View(), StartReopens(id, OutcomeOf(terminal, whole)));
      ghost var taken := steps + [StartReopens(id, OutcomeOf(terminal, whole))];
      OpenSession(id);
      if terminal.Some? {
        OpenTerminal(id, terminal.value, whole);
      }
      Took(taken);
    }

    /** A terminal just opened has an open wrapper, so the first call on it is made; the session may never get it. */
    method OpenTerminal(id: nat, terminal: nat, whole: bool)
      requires terminal == ledger.opens
      modifies this`vt, this`booting, this`ledger, this`log
      ensures View() == if whole then Opened(old(View()), id) else Broken(old(View()))
    {
      var open := Call(ByStart, Terminal(terminal));
      ledger := ledger.(opens := terminal + 1);
      if whole {
        vt := Some(terminal);
        booting := booting[id := terminal];
      } else {
        ledger := ledger.(dropped := ledger.dropped + {terminal});
      }
    }

    /** The catch block of start: the error goes to the session's terminal of this moment. */
    method PaintError()
      modifies this`log
      ensures log == old(log) + ErrorCalls(old(View()))
    {
      if vt.Some? {
        var open := Call(ByCatch, Terminal(vt.value));
      }
    }

    /** start after the boot; `guest` is the one booted, if any. It does not ask whether the session was closed. */
    method GuestBooted(id: nat, guest: Option<nat>)
      requires Valid() && id in booting && (guest.Some? ==> guest.value == ledger.boots)
      modifies this`log, this`vm, this`booting, this`ledger, this`steps
      ensures Valid() && steps == old(steps) + [GuestBoots(id, guest.Some?)]
    {
      ghost var before := View();
      Paint(booting[id], guest.Some?);
      if guest.Some? {
        vm := guest;
        ledger := ledger.(boots := ledger.boots + 1);
      }
      booting := booting - {id};
      RunSnoc(steps, before, GuestBoots(id, guest.Some?));
      Took(steps + [GuestBoots(id, guest.Some?)]);
    }

    method Paint(terminal: nat, ok: bool)
      modifies this`log
      ensures log == old(log) + BootCalls(old(View()), terminal, ok)
    {
      var open := false;
      if ok {
        open := Call(ByStart, Terminal(terminal));
      }
      if !open {
        PaintError();
      }
    }

    /** The idle timer; `more` compression may be left for it to do. */
    method TimerFired(more: bool)
      requires Valid() && idleTimer.Some?
      modifies this`log, this`idleTimer, this`steps
      ensures Valid() && steps == old(steps) + [TimerFires(more)]
    {
      ghost var before := View();
      log := log + [Entry(ByTimer, Terminal(idleTimer.value), true, Live(ledger, Terminal(idleTimer.value)), closed)];
      if !more {
        idleTimer := None;
      }
      RunSnoc(steps, before, TimerFires(more));
      Took(steps + [TimerFires(more)]);
    }
  }
}
