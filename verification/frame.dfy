/** frame.dart: screen cells and frames, and the copies frames are made by. */
module Frame {
  import opened Bytes

  datatype Color = Color(r: byte, g: byte, b: byte)

  datatype Underline = NoUnderline | Single | Double | Curly | Dotted | Dashed

  datatype CursorStyle = Bar | Block | UnderlineCursor | BlockHollow

  datatype DirtyKind = Clean | Partial | Full

  datatype Style = Style(
    bold: bool, italic: bool, faint: bool, inverse: bool, invisible: bool, strikethrough: bool, overline: bool,
    underline: Underline, underlineColor: Option<Color>)

  const PLAIN := Style(false, false, false, false, false, false, false, NoUnderline, None)

  /** One screen cell, as painted. */
  datatype VtCell = VtCell(text: string, fg: Option<Color>, bg: Option<Color>, style: Style, selected: bool)

  const BLANK := VtCell("", None, None, PLAIN, false)

  /** Everything in a frame but its cells and its dirty marks. */
  datatype Meta = Meta(
    background: Color, foreground: Color, cursorColor: Option<Color>, cursorX: Option<int>, cursorY: Option<int>,
    cursorVisible: bool, cursorStyle: CursorStyle, cursorBlink: bool, cursorOnWideTail: bool)

  /** A frame holding its cells by value. */
  datatype VtFrame = VtFrame(
    cols: nat, rows: nat, cells: seq<VtCell>, meta: Meta, dirty: DirtyKind, dirtyRows: Option<set<nat>>)

  /** The optional arguments of copyWithMeta; None keeps the old value. */
  datatype MetaChange = MetaChange(
    background: Option<Color>, foreground: Option<Color>, cursorColor: Option<Color>,
    cursorX: Option<int>, cursorY: Option<int>, cursorVisible: Option<bool>, cursorStyle: Option<CursorStyle>,
    cursorBlink: Option<bool>, cursorOnWideTail: Option<bool>, clearCursorColor: bool, clearCursorPos: bool)

  function Or<T>(change: Option<T>, old_: T): T {
    if change.Some? then change.value else old_
  }

  function ChangeMeta(meta: Meta, c: MetaChange): Meta {
    Meta(Or(c.background, meta.background),
         Or(c.foreground, meta.foreground),
         if c.clearCursorColor then None else if c.cursorColor.Some? then c.cursorColor else meta.cursorColor,
         if c.clearCursorPos || c.cursorX.Some? then c.cursorX else meta.cursorX,
         if c.clearCursorPos || c.cursorY.Some? then c.cursorY else meta.cursorY,
         Or(c.cursorVisible, meta.cursorVisible),
         Or(c.cursorStyle, meta.cursorStyle),
         Or(c.cursorBlink, meta.cursorBlink),
         Or(c.cursorOnWideTail, meta.cursorOnWideTail))
  }

  const KEEP := MetaChange(None, None, None, None, None, None, None, None, None, false, false)

  /** clone */
  function Clone(f: VtFrame): VtFrame {
    f.(meta := f.meta.(cursorBlink := false), dirty := Full)
  }

  /** Frames hold one cell for each position. */
  predicate WellSized(f: VtFrame) {
    |f.cells| == Times(f.rows, f.cols)
  }

  lemma RowFits(rows: nat, cols: nat, y: nat)
    requires y < rows
    ensures Times(y, cols) + cols <= Times(rows, cols)
    ensures Times(y + 1, cols) == Times(y, cols) + cols
  {
    TimesMonotone(y + 1, rows, cols);
  }

  function RowOf(f: VtFrame, y: nat): (row: seq<VtCell>)
    requires WellSized(f) && y < f.rows
    ensures |row| == f.cols
  {
    RowFits(f.rows, f.cols, y);
    f.cells[Times(y, f.cols)..Times(y, f.cols) + f.cols]
  }
}
