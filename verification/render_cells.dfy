/** What a snapshot shows: each cell, the colours, the cursor and the dirty marks, from what the library reports. */
module RenderCells {
  import opened Bytes
  import opened Frame
  import opened Render

  /** The style the library reports; without one, nothing is set. */
  function ReportedStyle(raw: RawCell): Style {
    if raw.style.Some? then raw.style.value
    else Style(false, false, false, false, false, false, false, NoUnderline, None)
  }

  /** No text, no selection, no background and no style: at most a text colour and an underline colour are reported. */
  predicate Featureless(raw: RawCell) {
    var style := ReportedStyle(raw);
    && raw.graphemes == 0 && !raw.selected && raw.bg.None?
    && !style.bold && !style.italic && !style.faint && !style.inverse && !style.invisible && !style.strikethrough
    && !style.overline && style.underline.NoUnderline?
  }

  /**
   The cell shows what is reported: the text if there are graphemes, the selection, the colours, swapped for an
   inverse cell, and the style. A featureless cell loses its text colour and underline colour, and nothing else.
   */
  predicate Shows(cell: VtCell, raw: RawCell) {
    var style := ReportedStyle(raw);
    && cell.text == (if raw.graphemes > 0 then raw.text else "")
    && cell.selected == raw.selected
    && cell.bg == (if style.inverse then raw.fg else raw.bg)
    && cell.fg == (if Featureless(raw) then None else if style.inverse then raw.bg else raw.fg)
    && cell.style.bold == style.bold && cell.style.italic == style.italic && cell.style.faint == style.faint
    && cell.style.inverse == style.inverse && cell.style.invisible == style.invisible
    && cell.style.strikethrough == style.strikethrough && cell.style.overline == style.overline
    && cell.style.underline == style.underline
    && cell.style.underlineColor == (if Featureless(raw) then None else style.underlineColor)
  }

  lemma ReadCellShows(raw: RawCell)
    ensures Shows(ReadCell(raw), raw)
  {
  }

  /** A cell that nothing is reported for is empty. */
  predicate IsEmpty(cell: VtCell) {
    cell.text == "" && cell.fg.None? && cell.bg.None? && !cell.selected
    && cell.style == Style(false, false, false, false, false, false, false, NoUnderline, None)
  }

  lemma RowShows(n: Native, y: nat, x: nat)
    requires Shaped(n) && y < n.rows && x < n.cols
    ensures var cell := RenderRow(n.grid[y], n.cols)[x];
      if x < |n.grid[y]| then Shows(cell, n.grid[y][x]) else IsEmpty(cell)
  {
    if x < |n.grid[y]| {
      ReadCellShows(n.grid[y][x]);
    }
  }

  lemma CellIndex(f: VtFrame, y: nat, x: nat)
    requires WellSized(f) && y < f.rows && x < f.cols
    ensures y * f.cols + x < |f.cells| && f.cells[y * f.cols + x] == RowOf(f, y)[x]
  {
    RowFits(f.rows, f.cols, y);
    TimesIsProduct(y, f.cols);
  }

  /**
   Over any run of terminal activity and snapshots, each passing the last frame or none, on every path a snapshot
   shows at row `y` and column `x` what the library reports there; where it reports nothing the cell is empty. Rows
   whose reads failed and were not repeated are excepted.
   */
  lemma SnapshotShowsTheScreen(
    s: Session, steps: seq<Step>, usePrevious: bool, unreadable: set<nat>, y: nat, x: nat)
    requires Fresh(s) && Run(s, steps).Some?
    requires var n := Run(s, steps).value.native; y < n.rows && x < n.cols
    requires y !in After(Run(s, steps).value, Snapshot(usePrevious, unreadable)).stale
    ensures var n := Run(s, steps).value.native;
      var frame := After(Run(s, steps).value, Snapshot(usePrevious, unreadable)).frame.value;
      && frame.rows == n.rows && frame.cols == n.cols && |frame.cells| == n.rows * n.cols
      && y * n.cols + x < |frame.cells|
      && (var cell := frame.cells[y * n.cols + x];
          if x < |n.grid[y]| then Shows(cell, n.grid[y][x]) else IsEmpty(cell))
  {
    var now := Run(s, steps).value;
    var frame := After(now, Snapshot(usePrevious, unreadable)).frame.value;
    UpToDateRun(s, steps);
    SnapshotRow(now, usePrevious, unreadable, y);
    RowShows(now.native, y, x);
    CellIndex(frame, y, x);
    TimesIsProduct(frame.rows, frame.cols);
  }

  /** With all rows readable no row is excepted. */
  lemma NoneIsExcepted(s: Session, steps: seq<Step>, usePrevious: bool)
    requires Fresh(s) && Run(s, steps).Some? && AllReadable(steps)
    ensures After(Run(s, steps).value, Snapshot(usePrevious, {})).stale == {}
  {
    NothingStale(s, steps);
  }

  /** Colours and cursor as reported: default colours where none are, a cursor only where it is visible on screen. */
  predicate ShowsMeta(meta: Meta, raw: RawMeta) {
    && meta.background == (if raw.background.Some? then raw.background.value else Color(0x14, 0x14, 0x14))
    && meta.foreground == (if raw.foreground.Some? then raw.foreground.value else Color(0xe1, 0xe1, 0xe1))
    && meta.cursorColor == raw.cursorColor
    && (meta.cursorVisible <==> raw.visible && raw.inViewport)
    && meta.cursorX == (if meta.cursorVisible then Some(raw.x) else None)
    && meta.cursorY == (if meta.cursorVisible then Some(raw.y) else None)
    && meta.cursorStyle == (if meta.cursorVisible then raw.style else Block)
    && meta.cursorBlink == raw.blink && meta.cursorOnWideTail == raw.onWideTail
  }

  /**
   Whatever frame a snapshot is given, its colours and cursor are the reported ones. Its marks say what it did: reused
   all cells if nothing was dirty, read the marked rows if some were, and else built all rows, without marks.
   */
  lemma SnapshotSaysWhatItDid(n: Native, previous: Option<VtFrame>, unreadable: set<nat>)
    requires Shaped(n) && (previous.Some? ==> WellSized(previous.value))
    ensures var frame := Project(n, previous, unreadable);
      var fits := previous.Some? && previous.value.rows == n.rows && previous.value.cols == n.cols;
      && ShowsMeta(frame.meta, n.meta) && frame.dirty == n.dirty
      && (frame.dirtyRows.None? <==> !fits || n.dirty.Full?)
      && (fits && n.dirty.Clean? ==> frame.dirtyRows == Some({}))
      && (fits && n.dirty.Partial? ==>
            forall y: nat :: y in frame.dirtyRows.value <==> y < n.rows && n.rowDirty[y])
  {
  }
}
