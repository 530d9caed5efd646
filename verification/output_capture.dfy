/**
 Output capture: every guest write is appended to the combined buffer and to its stream's own, under two locks
 taken one after the other (boot.rs); take_output drains all four buffers under the table lock and puts what did
 not fit back under a second one (tty.rs). Steps of writers and of the one consumer interleave freely, except
 that the table lock keeps the drain out of the middle of a write: writes happen inside a tick, which holds it.
 */
module OutputCapture {
  import opened Bytes

  datatype Stream = Stdout | Stderr | Log

  /**
   The four buffers; writes whose second append is still to come; and, between the two critical sections of
   take_output, the bytes it is about to put back.
   */
  datatype Capture = Capture(
    out: bytes, stdout: bytes, stderr: bytes, log: bytes, halves: seq<(Stream, bytes)>, putBack: Option<bytes>)

  const EMPTY := Capture([], [], [], [], [], None)

  function AppendStream(c: Capture, stream: Stream, data: bytes): Capture {
    match stream
    case Stdout => c.(stdout := c.stdout + data)
    case Stderr => c.(stderr := c.stderr + data)
    case Log => c.(log := c.log + data)
  }

  /** TeeSink.write, first lock: append to the combined buffer. */
  function WriteCombined(c: Capture, stream: Stream, data: bytes): Capture {
    c.(out := c.out + data, halves := c.halves + [(stream, data)])
  }

  /** TeeSink.write, second lock: append to the stream's buffer. */
  function WriteStream(c: Capture, i: nat): Capture
    requires i < |c.halves|
  {
    AppendStream(c, c.halves[i].0, c.halves[i].1).(halves := Without(c.halves, i))
  }

  /** The bytes the drain collects: the combined buffer, or the streams' when that is empty. */
  function Collected(c: Capture): bytes {
    if c.out == [] then c.stdout + c.stderr + c.log else c.out
  }

  /** What the drain copies to the caller, and what it has to put back; a zero capacity drops everything. */
  function Copied(data: bytes, cap: nat): bytes {
    data[..Min(|data|, cap)]
  }

  function Remainder(data: bytes, cap: nat): Option<bytes> {
    if cap == 0 || |data| <= cap then None else Some(data[cap..])
  }

  /** take_output, first critical section, up to the copy into the caller's buffer. */
  function Drain(c: Capture, cap: nat): Capture {
    c.(out := [], stdout := [], stderr := [], log := [], putBack := Remainder(Collected(c), cap))
  }

  /** take_output, second critical section. */
  function PutBack(c: Capture): Capture
    requires c.putBack.Some?
  {
    c.(out := c.putBack.value + c.out, putBack := None)
  }

  datatype Step = BeginWrite(stream: Stream, data: bytes) | EndWrite(i: nat) | Take(cap: nat) | FinishTake

  /** Which steps can run: one take at a time, and none in the middle of a write. */
  predicate Enabled(c: Capture, step: Step) {
    match step
    case BeginWrite(_, _) => true
    case EndWrite(i) => i < |c.halves|
    case Take(_) => c.halves == [] && c.putBack.None?
    case FinishTake => c.putBack.Some?
  }

  function Next(c: Capture, step: Step): Capture
    requires Enabled(c, step)
  {
    match step
    case BeginWrite(stream, data) => WriteCombined(c, stream, data)
    case EndWrite(i) => WriteStream(c, i)
    case Take(cap) => Drain(c, cap)
    case FinishTake => PutBack(c)
  }

  /** All bytes written so far in the order of the first append, and all bytes handed to the consumer. */
  datatype Ledger = Ledger(written: bytes, returned: bytes)

  function Entered(l: Ledger, c: Capture, step: Step): Ledger {
    match step
    case BeginWrite(_, data) => l.(written := l.written + data)
    case Take(cap) => l.(returned := l.returned + Copied(Collected(c), cap))
    case _ => l
  }

  /** The bytes that are neither returned nor lost: about to be put back, then in the combined buffer. */
  function Pending(c: Capture): bytes {
    (if c.putBack.Some? then c.putBack.value else []) + c.out
  }

  function HalfBytes(halves: seq<(Stream, bytes)>): nat {
    if halves == [] then 0 else |halves[0].1| + HalfBytes(halves[1..])
  }

  /** The stream buffers hold no more than what the combined buffer got since the last drain. */
  predicate StreamsCovered(c: Capture) {
    |c.stdout| + |c.stderr| + |c.log| + HalfBytes(c.halves) <= |c.out|
  }

  predicate Conserved(c: Capture, l: Ledger) {
    l.returned + Pending(c) == l.written
  }

  lemma {:induction false} HalfBytesSnoc(halves: seq<(Stream, bytes)>, half: (Stream, bytes))
    ensures HalfBytes(halves + [half]) == HalfBytes(halves) + |half.1|
  {
    if halves == [] {
      assert (halves + [half])[1..] == [];
    } else {
      assert (halves + [half])[1..] == halves[1..] + [half];
      HalfBytesSnoc(halves[1..], half);
    }
  }

  lemma {:induction false} HalfBytesWithout(halves: seq<(Stream, bytes)>, i: nat)
    requires i < |halves|
    ensures HalfBytes(halves) == HalfBytes(Without(halves, i)) + |halves[i].1|
  {
    if i == 0 {
      assert Without(halves, 0) == halves[1..];
    } else {
      assert Without(halves, i)[0] == halves[0] && Without(halves, i)[1..] == Without(halves[1..], i - 1);
      HalfBytesWithout(halves[1..], i - 1);
    }
  }

  lemma CoveredStep(c: Capture, step: Step)
    requires StreamsCovered(c) && Enabled(c, step)
    ensures StreamsCovered(Next(c, step))
  {
    match step
    case BeginWrite(stream, data) => HalfBytesSnoc(c.halves, (stream, data));
    case EndWrite(i) => HalfBytesWithout(c.halves, i);
    case _ =>
  }

  /** So the fallback to the stream buffers never contributes a byte. */
  lemma FallbackIsEmpty(c: Capture)
    requires StreamsCovered(c)
    ensures Collected(c) == c.out
  {
  }

  lemma WriteConserves(c: Capture, l: Ledger, stream: Stream, data: bytes)
    requires Conserved(c, l)
    ensures Conserved(WriteCombined(c, stream, data), l.(written := l.written + data))
  {
    var held := if c.putBack.Some? then c.putBack.value else [];
    assert (l.returned + (held + c.out)) + data == l.returned + (held + (c.out + data));
  }

  lemma DrainLeaves(c: Capture, cap: nat)
    requires StreamsCovered(c) && c.putBack.None? && cap > 0
    ensures Pending(c) == c.out && Pending(Drain(c, cap)) == c.out[Min(|c.out|, cap)..]
  {
    assert Pending(c) == c.out;
    if |c.out| > cap {
      assert c.out[cap..] + [] == c.out[cap..];
    }
  }

  lemma TakeConserves(c: Capture, l: Ledger, cap: nat)
    requires StreamsCovered(c) && Conserved(c, l) && c.putBack.None? && cap > 0
    ensures Conserved(Drain(c, cap), l.(returned := l.returned + Copied(c.out, cap)))
  {
    var n := Min(|c.out|, cap);
    SplitAt(c.out, n);
    Assoc(l.returned, c.out[..n], c.out[n..]);
    DrainLeaves(c, cap);
  }

  lemma ZeroTake(c: Capture, l: Ledger)
    requires StreamsCovered(c) && Conserved(c, l) && c.putBack.None?
    ensures Conserved(Drain(c, 0), l.(returned := l.returned + Copied(c.out, 0))) <==> c.out == []
  {
    assert Pending(c) == c.out && Pending(Drain(c, 0)) == [];
    assert l.returned + [] + [] == l.returned;
    assert |l.written| == |l.returned| + |c.out|;
  }

  lemma PutBackConserves(c: Capture)
    requires c.putBack.Some?
    ensures Pending(PutBack(c)) == Pending(c)
  {
  }

  /** A step keeps the account exactly when it is not a take with no room of pending bytes. */
  lemma ConservedStep(c: Capture, l: Ledger, step: Step)
    requires StreamsCovered(c) && Conserved(c, l) && Enabled(c, step)
    ensures Conserved(Next(c, step), Entered(l, c, step)) <==> !(step == Take(0) && c.out != [])
  {
    match step
    case BeginWrite(stream, data) => WriteConserves(c, l, stream, data);
    case EndWrite(i) => assert Pending(WriteStream(c, i)) == Pending(c);
    case Take(cap) =>
      FallbackIsEmpty(c);
      if cap == 0 {
        ZeroTake(c, l);
      } else {
        TakeConserves(c, l, cap);
      }
    case FinishTake => PutBackConserves(c);
  }

  /** The state and the ledger after a run, or None when a step was not enabled. */
  function Run(steps: seq<Step>): Option<(Capture, Ledger)> {
    if steps == [] then Some((EMPTY, Ledger([], [])))
    else
      var before, step := Run(steps[..|steps| - 1]), steps[|steps| - 1];
      if before.None? || !Enabled(before.value.0, step) then None
      else Some((Next(before.value.0, step), Entered(before.value.1, before.value.0, step)))
  }

  lemma {:induction false} CoveredOverRuns(steps: seq<Step>)
    requires Run(steps).Some?
    ensures StreamsCovered(Run(steps).value.0)
  {
    if steps != [] {
      CoveredOverRuns(steps[..|steps| - 1]);
      CoveredStep(Run(steps[..|steps| - 1]).value.0, steps[|steps| - 1]);
    }
  }

  // ---------- the streams' own buffers ----------

  function BufferOf(c: Capture, stream: Stream): bytes {
    match stream
    case Stdout => c.stdout
    case Stderr => c.stderr
    case Log => c.log
  }

  /** What was written to a stream since the last take, as the history says; a write counts when it has ended. */
  function WrittenTo(steps: seq<Step>, stream: Stream): bytes
    requires Run(steps).Some?
  {
    if steps == [] then []
    else
      var before := steps[..|steps| - 1];
      match steps[|steps| - 1]
      case Take(_) => []
      case EndWrite(i) =>
        var half := Run(before).value.0.halves[i];
        if half.0 == stream then WrittenTo(before, stream) + half.1 else WrittenTo(before, stream)
      case _ => WrittenTo(before, stream)
  }

  /** In every run each stream's buffer holds what was written to that stream since the last take. */
  lemma {:induction false} StreamsFollowTheWrites(steps: seq<Step>, stream: Stream)
    requires Run(steps).Some?
    ensures BufferOf(Run(steps).value.0, stream) == WrittenTo(steps, stream)
  {
    if steps != [] {
      StreamsFollowTheWrites(steps[..|steps| - 1], stream);
    }
  }

  /** A take that finds nothing in the combined buffer would give the streams' one after the other. */
  lemma FallbackInOrder(c: Capture)
    requires c.out == []
    ensures Collected(c) == Flatten([c.stdout, c.stderr, c.log])
  {
    FlattenLast([c.stdout, c.stderr], c.log);
    FlattenLast([c.stdout], c.stderr);
    FlattenLast([], c.stdout);
    assert [c.stdout] + [c.stderr] == [c.stdout, c.stderr] && [] + [c.stdout] == [c.stdout];
    assert [c.stdout, c.stderr] + [c.log] == [c.stdout, c.stderr, c.log] && [] + c.stdout == c.stdout;
  }

  predicate RoomInEveryTake(steps: seq<Step>) {
    forall k :: 0 <= k < |steps| ==> steps[k] != Take(0)
  }

  /**
   For one consumer that always passes a buffer with room, what it was handed followed by what is pending is
   all that was written, in order, also when writes land between the drain and the put-back.
   */
  lemma {:induction false} OutputConserved(steps: seq<Step>)
    requires Run(steps).Some? && RoomInEveryTake(steps)
    ensures Conserved(Run(steps).value.0, Run(steps).value.1)
  {
    if steps != [] {
      var before := steps[..|steps| - 1];
      OutputConserved(before);
      CoveredOverRuns(before);
      ConservedStep(Run(before).value.0, Run(before).value.1, steps[|steps| - 1]);
    }
  }

  /** A take with no room is not a length query: it drops what it counts. */
  lemma ZeroCapacityDrops(c: Capture, l: Ledger)
    requires StreamsCovered(c) && Conserved(c, l) && Enabled(c, Take(0)) && c.out != []
    ensures Pending(Next(c, Take(0))) == [] && Entered(l, c, Take(0)).returned == l.returned != l.written
  {
    assert |l.written| == |l.returned| + |c.out|;
  }

  /** A write to empty buffers, with a drain and its put-back between the two appends. */
  function DrainedInside(c: Capture, stream: Stream, data: bytes, cap: nat): Capture
    requires c.halves == []
  {
    var taken := Drain(WriteCombined(c, stream, data), cap);
    WriteStream(if taken.putBack.Some? then PutBack(taken) else taken, 0)
  }

  lemma CollectedInside(c: Capture, stream: Stream, data: bytes, cap: nat)
    requires c.out == [] && StreamsCovered(c) && c.halves == [] && c.putBack.None? && data != [] && cap > 0
    ensures Collected(DrainedInside(c, stream, data, cap)) == if |data| <= cap then data else data[cap..]
  {
    assert c.stdout == [] && c.stderr == [] && c.log == [];
    var begun := WriteCombined(c, stream, data);
    assert begun.out == data && begun.halves == [(stream, data)];
    if |data| <= cap {
      assert [] + data == data && data + [] == data;
    } else {
      assert data[cap..] + [] == data[cap..];
    }
  }

  /**
   Why no take may run in the middle of a write, as Enabled says: what it would be given, and then what is left for the
   next one, would make up the write exactly if the write did not fit. One that fits would be given twice.
   */
  lemma DrainInsideWriteIsSafeIff(c: Capture, stream: Stream, data: bytes, cap: nat)
    requires c.out == [] && StreamsCovered(c) && c.halves == [] && c.putBack.None? && data != [] && cap > 0
    ensures Copied(data, cap) + Collected(DrainedInside(c, stream, data, cap)) == data <==> cap < |data|
    ensures |data| <= cap ==> Copied(data, cap) == data == Collected(DrainedInside(c, stream, data, cap))
  {
    CollectedInside(c, stream, data, cap);
    if |data| <= cap {
      assert |data + data| > |data|;
    } else {
      SplitAt(data, cap);
    }
  }

  // ---------- the buffers as the source holds them ----------

  class Buffers {
    var out: bytes
    var stdout: bytes
    var stderr: bytes
    var log: bytes

    ghost predicate Holds(c: Capture)
      reads this
    {
      out == c.out && stdout == c.stdout && stderr == c.stderr && log == c.log
    }

    constructor ()
      ensures Holds(EMPTY)
    {
      out, stdout, stderr, log := [], [], [], [];
    }

    method TeeCombined(ghost c: Capture, stream: Stream, data: bytes)
      requires Holds(c)
      modifies this`out
      ensures Holds(WriteCombined(c, stream, data))
    {
      out := out + data;
    }

    method TeeStream(ghost c: Capture, ghost i: nat, stream: Stream, data: bytes)
      requires Holds(c) && i < |c.halves| && c.halves[i] == (stream, data)
      modifies this
      ensures Holds(WriteStream(c, i))
    {
      match stream
      case Stdout => stdout := stdout + data;
      case Stderr => stderr := stderr + data;
      case Log => log := log + data;
    }

    /** The first critical section and the copy: fills the caller's buffer and returns what to put back. */
    method TakeOutput(ghost c: Capture, buf: array<byte>) returns (n: nat, rest: Option<bytes>)
      requires Holds(c)
      modifies this, buf
      ensures Holds(Drain(c, buf.Length)) && rest == Drain(c, buf.Length).putBack
      ensures n == if buf.Length == 0 then |Collected(c)| else |Copied(Collected(c), buf.Length)|
      ensures buf.Length > 0 ==> buf[..n] == Copied(Collected(c), buf.Length) && buf[n..] == old(buf[n..])
    {
      var data := out;
      if data == [] {
        data := stdout + stderr + log;
      }
      out, stdout, stderr, log := [], [], [], [];
      rest := None;
      if buf.Length == 0 {
        return |data|, rest;
      }
      n := Min(|data|, buf.Length);
      forall i | 0 <= i < n {
        buf[i] := data[i];
      }
      if |data| > n {
        rest := Some(data[n..]);
      }
    }

    method SpliceBack(ghost c: Capture, rest: bytes)
      requires Holds(c) && c.putBack == Some(rest)
      modifies this`out
      ensures Holds(PutBack(c))
    {
      out := rest + out;
    }
  }
}
