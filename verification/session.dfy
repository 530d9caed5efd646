/**
 product_session.dart: the tick, disposeAsync, dispose and start as interleaved tasks. Dart runs one task at a
 time and switches only at an await, so a task's code between two awaits is one step. A terminal and a guest are
 named by the number of the open or boot that made them. Timeouts, failures and what the guest says are choices
 of the run.
 */
module Session {
  import opened Bytes

  /** A native host, behind the object that wraps it. */
  datatype Host = Terminal(vt: nat) | Guest(vm: nat)

  /** Who calls: a tick, start painting its terminal, the catch block of start painting the error, the idle timer. */
  datatype Caller = ByTick | ByStart | ByCatch | ByTimer

  /**
   One call on a wrapper: whether it was made, or refused with a StateError because the wrapper was closed; whether
   the host was still there; and whether the session was closed.
   */
  datatype Entry = Entry(caller: Caller, host: Host, made: bool, live: bool, closed: bool)

  /** The await at which a tick is suspended; at the clipboard `rest` more writes are to come. */
  datatype Pc = AtInput | AtTick | AtStatus | AtOutput | AtPty | AtClipboard(rest: nat) | AtImages

  /** A suspended tick, with the hosts it took from the session when it began. */
  datatype Tick = Tick(pc: Pc, vt: nat, vm: nat)

  /** A dispose waiting for the running tick; none was running if there is no completer. `reopens` inside start. */
  datatype Wait = Wait(completer: Option<nat>, reopens: bool)

  /**
   How many terminals were opened, guests booted, starts and releases made, what was freed, and which terminals were
   opened by a start that broke off before it handed them to the session.
   */
  datatype Ledger = Ledger(
    opens: nat, boots: nat, starts: nat, releases: nat,
    freedVts: multiset<nat>, freedVms: multiset<nat>, dropped: set<nat>)

  /** `shut` holds the hosts whose wrappers were closed, `idleTimer` the terminal to compress when it gets idle. */
  datatype World = World(
    closed: bool, ticking: bool, released: bool, vt: Option<nat>, vm: Option<nat>, idle: Option<nat>,
    ticks: map<nat, Tick>, waits: map<nat, Wait>, reopening: set<nat>, booting: map<nat, nat>, next: nat,
    completed: set<nat>, shut: set<Host>, idleTimer: Option<nat>, ledger: Ledger, log: seq<Entry>)

  const NEW := World(
    false, false, false, None, None, None, map[], map[], {}, map[], 0, {}, {}, None,
    Ledger(0, 0, 0, 0, multiset{}, multiset{}, {}), [])

  predicate Live(ledger: Ledger, host: Host) {
    match host
    case Terminal(vt) => ledger.freedVts[vt] == 0
    case Guest(vm) => ledger.freedVms[vm] == 0
  }

  /** _ensureOpen lets a call on a wrapper through unless that was closed. */
  function EntryOf(w: World, caller: Caller, host: Host): Entry {
    Entry(caller, host, host !in w.shut, Live(w.ledger, host), w.closed)
  }

  function Entries(w: World, caller: Caller, hosts: seq<Host>): (entries: seq<Entry>)
    ensures |entries| == |hosts|
    ensures forall k :: 0 <= k < |hosts| ==> entries[k] == EntryOf(w, caller, hosts[k])
  {
    if hosts == [] then [] else [EntryOf(w, caller, hosts[0])] + Entries(w, caller, hosts[1..])
  }

  function Log(w: World, caller: Caller, hosts: seq<Host>): seq<Entry> {
    w.log + Entries(w, caller, hosts)
  }

  // ---------- the tick ----------

  /**
   What a resumed tick finds: text to write, replies to send, clipboard writes; and whether the text restarts the
   idle timer. Flushing the carry writes nothing, as BootNoise.FlushNeverWrites shows.
   */
  datatype Seen = Seen(text: bool, pty: bool, clips: nat, activity: bool)

  /** Which wrappers of the tick are open. */
  datatype Open = Open(vt: bool, vm: bool)

  /** What a tick does between two awaits: the calls it tries, and where it waits again unless it ends. */
  datatype Segment = Segment(hosts: seq<Host>, at: Option<Pc>)

  const ENDED := Segment([], None)

  /** _tickOnce from the await at which it is suspended to the next one; `ok` says the awaited call did not throw. */
  function TickSegment(tick: Tick, closed: bool, open: Open, ok: bool, seen: Seen): Segment {
    match tick.pc
    case AtInput => if !ok || closed then ENDED else AskTick(tick, open)
    case AtTick => if !ok || closed then ENDED else AskStatus(tick, open, seen)
    case AtStatus => if closed then ENDED else AskOutput(tick, open, [], seen)
    case AtOutput =>
      if closed then ENDED else Replies(tick, open, if ok && seen.text then [Terminal(tick.vt)] else [], seen)
    case AtPty => if closed then ENDED else Events(tick, open, [], ClipsOf(open, seen))
    case AtClipboard(rest) => if closed then ENDED else Events(tick, open, [], rest)
    case AtImages => ENDED
  }

  /** A refused tickN is reported, and the tick returns. */
  function AskTick(tick: Tick, open: Open): Segment {
    Segment([Guest(tick.vm)], if open.vm then Some(AtTick) else None)
  }

  /** A refused status is reported, and the tick goes on. */
  function AskStatus(tick: Tick, open: Open, seen: Seen): Segment {
    if open.vm then Segment([Guest(tick.vm)], Some(AtStatus)) else AskOutput(tick, open, [Guest(tick.vm)], seen)
  }

  /** So is a refused takeOutput, without output. */
  function AskOutput(tick: Tick, open: Open, before: seq<Host>, seen: Seen): Segment {
    if open.vm then Segment(before + [Guest(tick.vm)], Some(AtOutput))
    else Replies(tick, open, before + [Guest(tick.vm)], seen)
  }

  /** Send the replies; a refusal is caught. Closing a terminal empties its queues of both kinds. */
  function Replies(tick: Tick, open: Open, before: seq<Host>, seen: Seen): Segment {
    if !seen.pty || !open.vt then Events(tick, open, before, ClipsOf(open, seen))
    else if open.vm then Segment(before + [Guest(tick.vm)], Some(AtPty))
    else Events(tick, open, before + [Guest(tick.vm)], ClipsOf(open, seen))
  }

  function ClipsOf(open: Open, seen: Seen): nat {
    if open.vt then seen.clips else 0
  }

  /** The event loop from the next clipboard write on; the snapshot, whose refusal ends the tick; and the images. */
  function Events(tick: Tick, open: Open, before: seq<Host>, clips: nat): Segment {
    if clips > 0 then Segment(before, Some(AtClipboard(clips - 1)))
    else Segment(before + [Terminal(tick.vt)], if open.vt then Some(AtImages) else None)
  }

  /** The finally block: no tick is active, whoever waits for that may go on. */
  function EndTick(w: World, id: nat): World {
    w.(ticks := w.ticks - {id}, ticking := false, idle := None,
       completed := w.completed + if w.idle.Some? then {w.idle.value} else {})
  }

  function OpenFor(shut: set<Host>, tick: Tick): Open {
    Open(Terminal(tick.vt) !in shut, Guest(tick.vm) !in shut)
  }

  function SegmentOf(w: World, id: nat, ok: bool, seen: Seen): Segment
    requires id in w.ticks
  {
    TickSegment(w.ticks[id], w.closed, OpenFor(w.shut, w.ticks[id]), ok, seen)
  }

  /** Text that reached the terminal may restart the idle timer, which holds the terminal without its wrapper. */
  predicate Arms(w: World, id: nat, ok: bool, seen: Seen)
    requires id in w.ticks
  {
    w.ticks[id].pc.AtOutput? && !w.closed && ok && seen.text && seen.activity && Terminal(w.ticks[id].vt) !in w.shut
  }

  function ResumeTick(w: World, id: nat, ok: bool, seen: Seen): World
    requires id in w.ticks
  {
    Resumed(w, id, SegmentOf(w, id, ok, seen), Arms(w, id, ok, seen))
  }

  /** A tick after one of its segments. */
  function Resumed(w: World, id: nat, segment: Segment, arms: bool): World
    requires id in w.ticks
  {
    var called := w.(log := Log(w, ByTick, segment.hosts),
                     idleTimer := if arms then Some(w.ticks[id].vt) else w.idleTimer);
    if segment.at.None? then EndTick(called, id)
    else called.(ticks := w.ticks[id := w.ticks[id].(pc := segment.at.value)])
  }

  /** _tickOnce up to its first await; a refused first call ends the tick where it began. */
  function TickOnce(w: World, pending: bool): World {
    if w.closed || w.ticking || w.vt.None? || w.vm.None? then w
    else if Guest(w.vm.value) in w.shut then w.(log := Log(w, ByTick, [Guest(w.vm.value)]))
    else
      w.(ticking := true, next := w.next + 1,
         ticks := w.ticks[w.next := Tick(if pending then AtInput else AtTick, w.vt.value, w.vm.value)],
         log := Log(w, ByTick, [Guest(w.vm.value)]))
  }

  // ---------- dispose and start ----------

  /** _waitForTickIdle: share the completer of an earlier wait, or make one. */
  function AwaitIdle(w: World, reopens: bool): World {
    if !w.ticking then w.(waits := w.waits[w.next := Wait(None, reopens)], next := w.next + 1)
    else if w.idle.Some? then w.(waits := w.waits[w.next := Wait(w.idle, reopens)], next := w.next + 1)
    else w.(waits := w.waits[w.next := Wait(Some(w.next), reopens)], next := w.next + 1, idle := Some(w.next))
  }

  function Freed(host: Option<nat>): multiset<nat> {
    if host.Some? then multiset{host.value} else multiset{}
  }

  /** _releaseNative: the wrappers are closed, and with them the hosts are freed. */
  function Release(w: World): World {
    if w.released then w else Released(w)
  }

  function Released(w: World): World {
    w.(released := true, vt := None, vm := None, shut := w.shut + Shut(w.vt, w.vm),
       ledger := Freeing(w.ledger, w.vt, w.vm))
  }

  function Shut(vt: Option<nat>, vm: Option<nat>): set<Host> {
    (if vt.Some? then {Terminal(vt.value)} else {}) + (if vm.Some? then {Guest(vm.value)} else {})
  }

  function Freeing(ledger: Ledger, vt: Option<nat>, vm: Option<nat>): Ledger {
    ledger.(releases := ledger.releases + 1,
            freedVts := ledger.freedVts + Freed(vt), freedVms := ledger.freedVms + Freed(vm))
  }

  /** Both ways to dispose begin so: closed, and the idle timer cancelled. */
  function Closing(w: World): World {
    w.(closed := true, idleTimer := None)
  }

  function DisposeAsync(w: World, reopens: bool): World {
    AwaitIdle(Closing(w), reopens)
  }

  /** dispose, which cannot wait: it leaves the release to a task of its own while a tick is active. */
  function Dispose(w: World): World {
    if w.ticking then AwaitIdle(Closing(w), false) else Release(Closing(w))
  }

  /** A wait ends: release, and inside start go on there. */
  function EndWait(w: World, id: nat): World
    requires id in w.waits
  {
    var released := Release(w);
    released.(waits := w.waits - {id}, reopening := if w.waits[id].reopens then w.reopening + {id} else w.reopening)
  }

  /** start throws on a closed session, and begins with disposeAsync otherwise. */
  function Start(w: World): World {
    if w.closed then w else DisposeAsync(w, true)
  }

  /**
   How start opens its terminal: that works; or the terminal opens, but its resize or the encoder after it throws
   before the session has it; or it does not open. The session has just been released then, so the catch block has
   no terminal to paint the error on.
   */
  datatype Outcome = Opens | Breaks | Fails

  /** start after its disposeAsync: open for use again, open a terminal and paint it once. */
  function Reopen(w: World, id: nat, outcome: Outcome): World {
    match outcome
    case Opens => Opened(Reopened(w, id), id)
    case Breaks => Broken(Reopened(w, id))
    case Fails => Reopened(w, id)
  }

  function Reopened(w: World, id: nat): World {
    w.(closed := false, released := false, reopening := w.reopening - {id}, idleTimer := None,
       ledger := w.ledger.(starts := w.ledger.starts + 1))
  }

  /** The terminal is resized, and forgotten. */
  function Broken(w: World): World {
    var terminal := w.ledger.opens;
    w.(log := Log(w, ByStart, [Terminal(terminal)]),
       ledger := w.ledger.(opens := terminal + 1, dropped := w.ledger.dropped + {terminal}))
  }

  function Opened(w: World, id: nat): World {
    var terminal := w.ledger.opens;
    w.(vt := Some(terminal), booting := w.booting[id := terminal], log := Log(w, ByStart, [Terminal(terminal)]),
       ledger := w.ledger.(opens := terminal + 1))
  }

  /**
   start after the boot: take the guest and paint the terminal opened before. A failed boot, and a terminal closed
   since, end in the catch block, which paints the error on the session's terminal of that moment.
   */
  function Booted(w: World, id: nat, ok: bool): World
    requires id in w.booting
  {
    var rest := w.(booting := w.booting - {id}, log := w.log + BootCalls(w, w.booting[id], ok));
    if ok then rest.(vm := Some(w.ledger.boots), ledger := w.ledger.(boots := w.ledger.boots + 1)) else rest
  }

  function BootCalls(w: World, vt: nat, ok: bool): seq<Entry> {
    if !ok then ErrorCalls(w)
    else if Terminal(vt) in w.shut then Entries(w, ByStart, [Terminal(vt)]) + ErrorCalls(w)
    else Entries(w, ByStart, [Terminal(vt)])
  }

  function ErrorCalls(w: World): seq<Entry> {
    if w.vt.None? then [] else Entries(w, ByCatch, [Terminal(w.vt.value)])
  }

  /** The idle timer calls with the terminal's own handle, which no wrapper guards; `more` work may be left. */
  function Compress(w: World, more: bool): World
    requires w.idleTimer.Some?
  {
    var terminal := Terminal(w.idleTimer.value);
    w.(idleTimer := if more then w.idleTimer else None,
       log := w.log + [Entry(ByTimer, terminal, true, Live(w.ledger, terminal), w.closed)])
  }

  // ---------- runs ----------

  datatype Step =
    | TickFires(pending: bool)
    | TickResumes(id: nat, ok: bool, seen: Seen)
    | CallDisposeAsync
    | CallDispose
    | CallStart
    | WaitEnds(id: nat, timeout: bool)
    | StartReopens(id: nat, outcome: Outcome)
    | GuestBoots(id: nat, ok: bool)
    | TimerFires(more: bool)

  /** A wait with a completer ends when that completes or when its time is up; one without ends at once. */
  predicate Enabled(w: World, step: Step) {
    match step
    case TickResumes(id, _, _) => id in w.ticks
    case WaitEnds(id, timeout) =>
      id in w.waits && if timeout then w.waits[id].completer.Some?
                       else w.waits[id].completer.None? || w.waits[id].completer.value in w.completed
    case StartReopens(id, _) => id in w.reopening
    case GuestBoots(id, _) => id in w.booting
    case TimerFires(_) => w.idleTimer.Some?
    case _ => true
  }

  function Next(w: World, step: Step): World
    requires Enabled(w, step)
  {
    match step
    case TickFires(pending) => TickOnce(w, pending)
    case TickResumes(id, ok, seen) => ResumeTick(w, id, ok, seen)
    case CallDisposeAsync => DisposeAsync(w, false)
    case CallDispose => Dispose(w)
    case CallStart => Start(w)
    case WaitEnds(id, _) => EndWait(w, id)
    case StartReopens(id, outcome) => Reopen(w, id, outcome)
    case GuestBoots(id, ok) => Booted(w, id, ok)
    case TimerFires(more) => Compress(w, more)
  }

  function RunFrom(w: World, steps: seq<Step>): Option<World> {
    if steps == [] then Some(w)
    else
      var before, step := RunFrom(w, steps[..|steps| - 1]), steps[|steps| - 1];
      if before.None? || !Enabled(before.value, step) then None else Some(Next(before.value, step))
  }

  function Run(steps: seq<Step>): Option<World> {
    RunFrom(NEW, steps)
  }
}
