/**
 projectRenderState: the incremental projection of the native render state into a frame. The native side is a
 grid of rows with a dirty flag each and one for the whole, under the contract that a row not marked dirty has
 not changed since the last projection. A snapshot may fail to read the cells of some rows.
 */
module Render {
  import opened Bytes
  import opened Frame

  /** What the native library reports for one cell. */
  datatype RawCell = RawCell(
    graphemes: nat, text: string, fg: Option<Color>, bg: Option<Color>, style: Option<Style>, selected: bool)

  /** What it reports for colours and cursor. */
  datatype RawMeta = RawMeta(
    background: Option<Color>, foreground: Option<Color>, cursorColor: Option<Color>,
    visible: bool, inViewport: bool, x: int, y: int, style: CursorStyle, blink: bool, onWideTail: bool)

  const DEFAULT_BACKGROUND := Color(0x14, 0x14, 0x14)
  const DEFAULT_FOREGROUND := Color(0xe1, 0xe1, 0xe1)

  datatype Native = Native(
    cols: nat, rows: nat, grid: seq<seq<RawCell>>, rowDirty: seq<bool>, dirty: DirtyKind, meta: RawMeta)

  predicate Shaped(n: Native) {
    |n.grid| == n.rows == |n.rowDirty|
  }

  /** _readCell: resolve the style, swap the colours of an inverse cell, and map featureless cells to the blank one. */
  function ReadCell(raw: RawCell): VtCell {
    var text := if raw.graphemes > 0 then raw.text else "";
    var style := if raw.style.Some? then raw.style.value else PLAIN;
    var fg := if style.inverse then raw.bg else raw.fg;
    var bg := if style.inverse then raw.fg else raw.bg;
    if raw.graphemes == 0 && bg.None? && style.(underlineColor := None) == PLAIN && !raw.selected then BLANK
    else VtCell(text, fg, bg, style, raw.selected)
  }

  /** A row read afresh: cut to the width, short rows padded with blanks. */
  function RenderRow(raw: seq<RawCell>, cols: nat): (row: seq<VtCell>)
    ensures |row| == cols
  {
    seq(cols, x requires 0 <= x => if x < |raw| then ReadCell(raw[x]) else BLANK)
  }

  function BlankRow(cols: nat): (row: seq<VtCell>)
    ensures |row| == cols
  {
    seq(cols, _ => BLANK)
  }

  function ReadMeta(raw: RawMeta): Meta {
    var shown := raw.visible && raw.inViewport;
    Meta(Or(raw.background, DEFAULT_BACKGROUND), Or(raw.foreground, DEFAULT_FOREGROUND), raw.cursorColor,
         if shown then Some(raw.x) else None, if shown then Some(raw.y) else None,
         shown, if shown then raw.style else Block, raw.blink, raw.onWideTail)
  }

  predicate SameSize(n: Native, previous: Option<VtFrame>) {
    previous.Some? && previous.value.cols == n.cols && previous.value.rows == n.rows
  }

  /** The three paths of the projection. */
  datatype Path = Reuse | Patch | Rebuild

  function PathOf(n: Native, previous: Option<VtFrame>): Path {
    if !SameSize(n, previous) || n.dirty.Full? then Rebuild
    else if n.dirty.Clean? then Reuse
    else Patch
  }

  /** Row `y` of the new frame; `unreadable` rows fail to give their cells. */
  function ProjectRow(n: Native, previous: Option<VtFrame>, unreadable: set<nat>, y: nat): (row: seq<VtCell>)
    requires Shaped(n) && y < n.rows && (previous.Some? ==> WellSized(previous.value))
    ensures |row| == n.cols
  {
    match PathOf(n, previous)
    case Reuse => RowOf(previous.value, y)
    case Patch => if n.rowDirty[y] && y !in unreadable then RenderRow(n.grid[y], n.cols) else RowOf(previous.value, y)
    case Rebuild => if y !in unreadable then RenderRow(n.grid[y], n.cols) else BlankRow(n.cols)
  }

  predicate RowsOf<T>(rows: seq<seq<T>>, cols: nat) {
    forall y :: 0 <= y < |rows| ==> |rows[y]| == cols
  }

  /** Rows laid out one after the other. */
  function Join<T>(rows: seq<seq<T>>, cols: nat): (cells: seq<T>)
    requires RowsOf(rows, cols)
    ensures |cells| == Times(|rows|, cols)
  {
    if rows == [] then [] else Join(rows[..|rows| - 1], cols) + rows[|rows| - 1]
  }

  lemma {:induction false} JoinedRow<T>(rows: seq<seq<T>>, cols: nat, y: nat)
    requires RowsOf(rows, cols) && y < |rows|
    ensures Times(y, cols) + cols <= Times(|rows|, cols)
    ensures Join(rows, cols)[Times(y, cols)..Times(y, cols) + cols] == rows[y]
  {
    var front, last := Join(rows[..|rows| - 1], cols), rows[|rows| - 1];
    RowFits(|rows|, cols, y);
    SliceOfConcat(front, last, Times(y, cols), Times(y, cols) + cols);
    if y < |rows| - 1 {
      RowFits(|rows| - 1, cols, y);
      JoinedRow(rows[..|rows| - 1], cols, y);
    }
  }

  function ProjectRows(n: Native, previous: Option<VtFrame>, unreadable: set<nat>): (rows: seq<seq<VtCell>>)
    requires Shaped(n) && (previous.Some? ==> WellSized(previous.value))
    ensures |rows| == n.rows && RowsOf(rows, n.cols)
  {
    seq(n.rows, y requires 0 <= y < n.rows => ProjectRow(n, previous, unreadable, y))
  }

  function DirtyRows(n: Native): set<nat>
    requires Shaped(n)
  {
    set y: nat | y < n.rows && n.rowDirty[y]
  }

  /** The frame a snapshot returns. */
  function Project(n: Native, previous: Option<VtFrame>, unreadable: set<nat>): (f: VtFrame)
    requires Shaped(n) && (previous.Some? ==> WellSized(previous.value))
    ensures WellSized(f) && f.cols == n.cols && f.rows == n.rows
  {
    var marks := match PathOf(n, previous) case Reuse => Some({}) case Patch => Some(DirtyRows(n)) case Rebuild => None;
    VtFrame(n.cols, n.rows, Join(ProjectRows(n, previous, unreadable), n.cols), ReadMeta(n.meta), n.dirty, marks)
  }

  /** The native flags after a snapshot; the reuse path does not visit the rows. */
  function Cleared(n: Native, previous: Option<VtFrame>): Native
    requires Shaped(n)
  {
    n.(dirty := Clean, rowDirty := if PathOf(n, previous).Reuse? then n.rowDirty else seq(n.rows, _ => false))
  }

  /** The reference: every row read afresh. */
  function FullRebuild(n: Native): VtFrame
    requires Shaped(n)
  {
    Project(n, None, {})
  }

  lemma RowOfProjection(n: Native, previous: Option<VtFrame>, unreadable: set<nat>, y: nat)
    requires Shaped(n) && y < n.rows && (previous.Some? ==> WellSized(previous.value))
    ensures RowOf(Project(n, previous, unreadable), y) == ProjectRow(n, previous, unreadable, y)
  {
    JoinedRow(ProjectRows(n, previous, unreadable), n.cols, y);
  }

  // ---------- runs ----------

  /** What terminal activity may do to the native state: anything, as long as it marks what it changes. */
  ghost predicate TerminalActivity(n: Native, n': Native)
    requires Shaped(n)
  {
    && Shaped(n')
    && (n.dirty.Full? ==> n'.dirty.Full?)
    && (n.dirty.Partial? ==> !n'.dirty.Clean?)
    && (n'.dirty.Full? ||
          (&& n'.cols == n.cols && n'.rows == n.rows
           && (forall y :: 0 <= y < n.rows && !n'.rowDirty[y] ==> !n.rowDirty[y] && n'.grid[y] == n.grid[y])
           && (n'.dirty.Clean? ==> forall y :: 0 <= y < n.rows ==> !n'.rowDirty[y])))
  }

  datatype Step = Activity(after: Native) | Snapshot(usePrevious: bool, unreadable: set<nat>)

  /** The native state, the frame kept by the session, and the rows whose last read failed. */
  datatype Session = Session(native: Native, frame: Option<VtFrame>, stale: set<nat>)

  predicate Sound(s: Session) {
    Shaped(s.native) && (s.frame.Some? ==> WellSized(s.frame.value))
  }

  ghost predicate Allowed(s: Session, step: Step)
    requires Sound(s)
  {
    step.Activity? ==> TerminalActivity(s.native, step.after)
  }

  function Given(s: Session, usePrevious: bool): Option<VtFrame> {
    if usePrevious then s.frame else None
  }

  function After(s: Session, step: Step): Session
    requires Sound(s)
  {
    match step
    case Activity(n) => s.(native := n)
    case Snapshot(usePrevious, unreadable) =>
      var previous := Given(s, usePrevious);
      var stale := match PathOf(s.native, previous)
        case Reuse => s.stale
        case Patch => (s.stale - DirtyRows(s.native)) + (unreadable * DirtyRows(s.native))
        case Rebuild => unreadable;
      Session(Cleared(s.native, previous), Some(Project(s.native, previous, unreadable)), stale)
  }

  /** The kept frame shows every row that is neither marked nor stale as it is now. */
  ghost predicate UpToDate(s: Session) {
    && Sound(s)
    && (s.native.dirty.Clean? ==> forall y :: 0 <= y < s.native.rows ==> !s.native.rowDirty[y])
    && (SameSize(s.native, s.frame) && !s.native.dirty.Full? ==>
          forall y: nat :: y < s.native.rows && !s.native.rowDirty[y] && y !in s.stale ==>
            RowOf(s.frame.value, y) == RenderRow(s.native.grid[y], s.native.cols))
  }

  lemma SnapshotRow(s: Session, usePrevious: bool, unreadable: set<nat>, y: nat)
    requires UpToDate(s) && y < s.native.rows && y !in After(s, Snapshot(usePrevious, unreadable)).stale
    ensures RowOf(Project(s.native, Given(s, usePrevious), unreadable), y) == RenderRow(s.native.grid[y], s.native.cols)
  {
    RowOfProjection(s.native, Given(s, usePrevious), unreadable, y);
  }

  lemma UpToDateStep(s: Session, step: Step)
    requires UpToDate(s) && Allowed(s, step)
    ensures UpToDate(After(s, step))
  {
    if step.Snapshot? {
      forall y: nat | y < s.native.rows && y !in After(s, step).stale
        ensures RowOf(After(s, step).frame.value, y) == RenderRow(s.native.grid[y], s.native.cols)
      {
        SnapshotRow(s, step.usePrevious, step.unreadable, y);
      }
    }
  }

  /** The session after a run of steps, or None if some step breaks the native contract. */
  ghost function Run(s: Session, steps: seq<Step>): (end: Option<Session>)
    requires Sound(s)
    ensures end.Some? ==> Sound(end.value)
    decreases |steps|
  {
    if steps == [] then Some(s)
    else if !Allowed(s, steps[0]) then None
    else Run(After(s, steps[0]), steps[1..])
  }

  lemma {:induction false} UpToDateRun(s: Session, steps: seq<Step>)
    requires UpToDate(s) && Run(s, steps).Some?
    ensures UpToDate(Run(s, steps).value)
    decreases |steps|
  {
    if steps != [] {
      UpToDateStep(s, steps[0]);
      UpToDateRun(After(s, steps[0]), steps[1..]);
    }
  }

  predicate AllReadable(steps: seq<Step>) {
    forall k :: 0 <= k < |steps| && steps[k].Snapshot? ==> steps[k].unreadable == {}
  }

  lemma {:induction false} NothingStale(s: Session, steps: seq<Step>)
    requires UpToDate(s) && Run(s, steps).Some? && AllReadable(steps) && s.stale == {}
    ensures Run(s, steps).value.stale == {}
    decreases |steps|
  {
    if steps != [] {
      UpToDateStep(s, steps[0]);
      NothingStale(After(s, steps[0]), steps[1..]);
    }
  }

  /** The state of a session before its first snapshot; it may hold a frame already, as start does. */
  predicate Fresh(s: Session) {
    Sound(s) && s.native.dirty.Full? && s.stale == {}
  }

  /**
   Over any run of terminal activity and snapshots, each passing the last frame or none, whichever path a
   snapshot takes its cells and its cursor and colours are those of a full rebuild.
   */
  lemma SnapshotIsRebuild(s: Session, steps: seq<Step>, usePrevious: bool)
    requires Fresh(s) && Run(s, steps).Some? && AllReadable(steps)
    ensures var now := Run(s, steps).value;
            var frame, rebuilt := After(now, Snapshot(usePrevious, {})).frame.value, FullRebuild(now.native);
            frame.cells == rebuilt.cells && frame.meta == rebuilt.meta
  {
    UpToDateRun(s, steps);
    NothingStale(s, steps);
    var now := Run(s, steps).value;
    var previous := Given(now, usePrevious);
    forall y: nat | y < now.native.rows
      ensures ProjectRow(now.native, previous, {}, y) == ProjectRow(now.native, None, {}, y)
    {
      SnapshotRow(now, usePrevious, {}, y);
      RowOfProjection(now.native, previous, {}, y);
    }
    assert ProjectRows(now.native, previous, {}) == ProjectRows(now.native, None, {});
  }

  /** When reads may fail, every row that is not stale is still right. */
  lemma ReadableRowsAreRight(s: Session, steps: seq<Step>, usePrevious: bool, unreadable: set<nat>, y: nat)
    requires Fresh(s) && Run(s, steps).Some? && y < Run(s, steps).value.native.rows
    requires y !in After(Run(s, steps).value, Snapshot(usePrevious, unreadable)).stale
    ensures var now := Run(s, steps).value;
            RowOf(After(now, Snapshot(usePrevious, unreadable)).frame.value, y) == RowOf(FullRebuild(now.native), y)
  {
    UpToDateRun(s, steps);
    var now := Run(s, steps).value;
    SnapshotRow(now, usePrevious, unreadable, y);
    RowOfProjection(now.native, None, {}, y);
  }

  /** After a snapshot in a run no flag is left set. */
  lemma FlagsCleared(s: Session, steps: seq<Step>, usePrevious: bool, unreadable: set<nat>)
    requires Fresh(s) && Run(s, steps).Some?
    ensures var n := After(Run(s, steps).value, Snapshot(usePrevious, unreadable)).native;
            n.dirty.Clean? && forall y :: 0 <= y < n.rows ==> !n.rowDirty[y]
  {
    UpToDateRun(s, steps);
  }

  /** A frame's dirty rows cover all its differences from the frame it was patched from. */
  lemma DirtyRowsCoverChanges(n: Native, previous: VtFrame, unreadable: set<nat>, y: nat)
    requires Shaped(n) && WellSized(previous) && y < n.rows
    requires Project(n, Some(previous), unreadable).dirtyRows.Some?
    requires y !in Project(n, Some(previous), unreadable).dirtyRows.value
    ensures previous.rows == n.rows && previous.cols == n.cols
    ensures RowOf(Project(n, Some(previous), unreadable), y) == RowOf(previous, y)
  {
    RowOfProjection(n, Some(previous), unreadable, y);
  }

  /** The change the reuse path passes to copyWithMeta. */
  function MetaRefresh(meta: Meta): MetaChange {
    MetaChange(Some(meta.background), Some(meta.foreground), meta.cursorColor, meta.cursorX, meta.cursorY,
               Some(meta.cursorVisible), Some(meta.cursorStyle), Some(meta.cursorBlink), Some(meta.cursorOnWideTail),
               meta.cursorColor.None?, true)
  }

  /** Refreshing an old frame leaves nothing of its old colours and cursor, even where the new value is null. */
  lemma RefreshForgetsOldMeta(old_: Meta, meta: Meta)
    ensures ChangeMeta(old_, MetaRefresh(meta)) == meta
  {
  }

  // ---------- rows that are not looked at again ----------

  /** A step that leaves row `y` unmarked: terminal activity that does not mark it, or a snapshot of the last frame. */
  predicate LeavesUnmarked(s: Session, step: Step, y: nat) {
    match step
    case Activity(n) => n.cols == s.native.cols && n.rows == s.native.rows && Unmarked(n, y)
    case Snapshot(usePrevious, _) => usePrevious
  }

  predicate Unmarked(n: Native, y: nat) {
    Shaped(n) && y < n.rows && !n.rowDirty[y] && !n.dirty.Full?
  }

  ghost predicate NeverMarked(s: Session, steps: seq<Step>, y: nat)
    requires Sound(s)
    decreases |steps|
  {
    steps != [] && Allowed(s, steps[0]) ==>
      LeavesUnmarked(s, steps[0], y) && NeverMarked(After(s, steps[0]), steps[1..], y)
  }

  /** The kept frame has the size of the screen, and row `y` of that is not marked. */
  predicate Settled(s: Session, y: nat) {
    Sound(s) && SameSize(s.native, s.frame) && Unmarked(s.native, y)
  }

  /** The kept frame shows row `y` as it is. */
  predicate RowIsRight(s: Session, y: nat)
    requires Settled(s, y)
  {
    RowOf(s.frame.value, y) == RenderRow(s.native.grid[y], s.native.cols)
  }

  lemma KeptStep(s: Session, step: Step, y: nat)
    requires Settled(s, y) && Allowed(s, step) && LeavesUnmarked(s, step, y)
    ensures var next := After(s, step);
      Settled(next, y) && RowOf(next.frame.value, y) == RowOf(s.frame.value, y)
      && next.native.grid[y] == s.native.grid[y]
      && next.native.cols == s.native.cols
  {
    if step.Snapshot? {
      RowOfProjection(s.native, s.frame, step.unreadable, y);
    }
  }

  /**
   A row that is not marked keeps its cells in every further run of snapshots that pass the last frame, until it is
   marked: it is right then exactly if it was right before.
   */
  lemma {:induction false} KeptUntilMarked(s: Session, steps: seq<Step>, y: nat)
    requires Settled(s, y) && NeverMarked(s, steps, y) && Run(s, steps).Some?
    ensures var end := Run(s, steps).value;
      Settled(end, y) && RowOf(end.frame.value, y) == RowOf(s.frame.value, y)
      && (RowIsRight(end, y) <==> RowIsRight(s, y))
    decreases |steps|
  {
    if steps != [] {
      KeptStep(s, steps[0], y);
      KeptUntilMarked(After(s, steps[0]), steps[1..], y);
    }
  }

  /** What a snapshot that looks at row `y` but cannot read it leaves there. */
  function Fallback(n: Native, previous: Option<VtFrame>, y: nat): seq<VtCell>
    requires Shaped(n) && y < n.rows && (previous.Some? ==> WellSized(previous.value))
  {
    if PathOf(n, previous).Patch? then RowOf(previous.value, y) else BlankRow(n.cols)
  }

  /**
   A row that could not be read loses its mark all the same, so no further snapshot of the last frame repairs it:
   until it is marked again it shows the old row, or blanks after a rebuild, and is right exactly if that is right.
   */
  lemma FailedReadIsNotRetried(s: Session, usePrevious: bool, unreadable: set<nat>, y: nat, steps: seq<Step>)
    requires Sound(s) && y < s.native.rows && y in unreadable && !PathOf(s.native, Given(s, usePrevious)).Reuse?
    requires PathOf(s.native, Given(s, usePrevious)).Patch? ==> s.native.rowDirty[y]
    requires var next := After(s, Snapshot(usePrevious, unreadable));
      NeverMarked(next, steps, y) && Run(next, steps).Some?
    ensures var end := Run(After(s, Snapshot(usePrevious, unreadable)), steps).value;
      var row := Fallback(s.native, Given(s, usePrevious), y);
      Settled(end, y) && RowOf(end.frame.value, y) == row
      && (RowIsRight(end, y) <==> row == RenderRow(s.native.grid[y], s.native.cols))
  {
    RowOfProjection(s.native, Given(s, usePrevious), unreadable, y);
    KeptUntilMarked(After(s, Snapshot(usePrevious, unreadable)), steps, y);
  }

  lemma {:induction false} JoinInjective<T>(a: seq<seq<T>>, b: seq<seq<T>>, cols: nat, y: nat)
    requires RowsOf(a, cols) && RowsOf(b, cols) && |a| == |b| && y < |a| && Join(a, cols) == Join(b, cols)
    ensures a[y] == b[y]
  {
    JoinedRow(a, cols, y);
    JoinedRow(b, cols, y);
  }

  /** A snapshot that reads all it looks at takes row `y` from the frame it is given. */
  predicate TakesOld(n: Native, previous: VtFrame, y: nat)
    requires Shaped(n) && y < n.rows
  {
    match PathOf(n, Some(previous))
    case Reuse => true
    case Patch => !n.rowDirty[y]
    case Rebuild => false
  }

  /** Given any frame, also one older than the last, a snapshot is right exactly if the rows it takes from it are. */
  lemma OlderFrameIsRightIff(n: Native, previous: VtFrame)
    requires Shaped(n) && WellSized(previous)
    ensures Project(n, Some(previous), {}).cells == FullRebuild(n).cells
      <==> forall y: nat :: y < n.rows && TakesOld(n, previous, y) ==>
             RowOf(previous, y) == RenderRow(n.grid[y], n.cols)
  {
    var rows, rebuilt := ProjectRows(n, Some(previous), {}), ProjectRows(n, None, {});
    if Join(rows, n.cols) == Join(rebuilt, n.cols) {
      forall y: nat | y < n.rows && TakesOld(n, previous, y)
        ensures RowOf(previous, y) == RenderRow(n.grid[y], n.cols)
      {
        JoinInjective(rows, rebuilt, n.cols, y);
      }
    }
    if forall y: nat :: y < n.rows && TakesOld(n, previous, y) ==> RowOf(previous, y) == RenderRow(n.grid[y], n.cols) {
      assert forall y: nat :: y < n.rows ==> rows[y] == rebuilt[y];
      assert rows == rebuilt;
    }
  }
}
