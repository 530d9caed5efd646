/** freeze_policy.dart: which frames are worth keeping in the timeline, and the still picture kept of them. */
module Freeze {
  import opened Bytes
  import opened Frame
  import opened Texts

  predicate Inked(cells: seq<VtCell>) {
    exists x :: 0 <= x < |cells| && cells[x].text != ""
  }

  function TextOf(cells: seq<VtCell>): string {
    if cells == [] then "" else TextOf(cells[..|cells| - 1]) + cells[|cells| - 1].text
  }

  function RowText(f: VtFrame, y: nat): string
    requires WellSized(f) && y < f.rows
  {
    DropTrailing(TextOf(RowOf(f, y)))
  }

  predicate IsPromptChar(c: char) {
    c == '$' || c == '#' || c == '%' || c == '>' || c == '\U{276F}'
  }

  /** Nothing, or one to three prompt characters. */
  predicate IsBare(t: string) {
    |t| <= 3 && forall k :: 0 <= k < |t| ==> IsPromptChar(t[k])
  }

  predicate RowIsBarePrompt(f: VtFrame, y: nat)
    requires WellSized(f) && y < f.rows
  {
    IsBare(Trim(RowText(f, y)))
  }

  /** One more than the last row with ink, of the first `y` rows. */
  function UsedRowsUpTo(f: VtFrame, y: nat): (used: nat)
    requires WellSized(f) && y <= f.rows
    ensures used <= y
    ensures used > 0 ==> Inked(RowOf(f, used - 1))
    ensures forall k :: used <= k < y ==> !Inked(RowOf(f, k))
  {
    if y == 0 then 0 else if Inked(RowOf(f, y - 1)) then y else UsedRowsUpTo(f, y - 1)
  }

  function UsedRows(f: VtFrame): (used: nat)
    requires WellSized(f)
    ensures used <= f.rows
  {
    if f.cols == 0 then 0 else UsedRowsUpTo(f, f.rows)
  }

  /** Bare prompts at the end are not counted, but for the first row. */
  function DropPrompts(f: VtFrame, used: nat): (left: nat)
    requires WellSized(f) && used <= f.rows
    ensures left <= used && (used > 0 ==> left > 0)
  {
    if used > 1 && RowIsBarePrompt(f, used - 1) then DropPrompts(f, used - 1) else used
  }

  lemma {:induction false} DroppedPrompts(f: VtFrame, used: nat, y: nat)
    requires WellSized(f) && used <= f.rows && DropPrompts(f, used) <= y < used
    ensures RowIsBarePrompt(f, y)
  {
    if y < used - 1 {
      DroppedPrompts(f, used - 1, y);
    }
  }

  lemma {:induction false} LastIsNoPrompt(f: VtFrame, used: nat)
    requires WellSized(f) && used <= f.rows && DropPrompts(f, used) > 1
    ensures !RowIsBarePrompt(f, DropPrompts(f, used) - 1)
  {
    if RowIsBarePrompt(f, used - 1) {
      LastIsNoPrompt(f, used - 1);
    }
  }

  function UsedRowsForFreeze(f: VtFrame): (used: nat)
    requires WellSized(f)
    ensures used <= UsedRows(f) <= f.rows
  {
    DropPrompts(f, UsedRows(f))
  }

  predicate IsWorthFreezing(f: VtFrame)
    requires WellSized(f)
  {
    Inked(f.cells) && UsedRowsForFreeze(f) > 0
    && exists y :: 0 <= y < UsedRowsForFreeze(f) && Trim(RowText(f, y)) != "" && !RowIsBarePrompt(f, y)
  }

  function Blanks(n: nat): seq<VtCell> {
    if n == 0 then [] else [BLANK] + Blanks(n - 1)
  }

  /** The first n cells, filled up with blanks if there are fewer. */
  function FirstCells(cells: seq<VtCell>, n: nat): seq<VtCell> {
    if n <= |cells| then cells[..n] else cells + Blanks(n - |cells|)
  }

  const NO_CURSOR := KEEP.(cursorVisible := Some(false), clearCursorPos := true, clearCursorColor := true)

  function Apply(f: VtFrame): VtFrame
    requires WellSized(f)
  {
    var used := UsedRowsForFreeze(f);
    if used == 0 then Clone(f).(meta := ChangeMeta(Clone(f).meta, NO_CURSOR))
    else
      VtFrame(f.cols, used, FirstCells(f.cells, Times(used, f.cols)),
              Meta(f.meta.background, f.meta.foreground, None, None, None, false, f.meta.cursorStyle, false, false),
              Full, None)
  }

  // ---------- what a freeze keeps ----------

  lemma {:induction false} NoInkNoText(cells: seq<VtCell>)
    requires !Inked(cells)
    ensures TextOf(cells) == ""
  {
    if cells != [] {
      NoInkNoText(cells[..|cells| - 1]);
    }
  }

  lemma EmptyRowIsBare(f: VtFrame, y: nat)
    requires WellSized(f) && y < f.rows && !Inked(RowOf(f, y))
    ensures RowIsBarePrompt(f, y)
  {
    NoInkNoText(RowOf(f, y));
  }

  /** Rows from the used ones on are blank or bare prompts. */
  lemma DroppedRowsAreBare(f: VtFrame, y: nat)
    requires WellSized(f) && UsedRowsForFreeze(f) <= y < f.rows
    ensures RowIsBarePrompt(f, y)
  {
    if y >= UsedRows(f) {
      EmptyRowIsBare(f, y);
    } else {
      DroppedPrompts(f, UsedRows(f), y);
    }
  }

  /** The frozen frame is a prefix of rows, complete, without a cursor; only blank rows and bare prompts are dropped. */
  lemma ApplyKeepsWork(f: VtFrame)
    requires WellSized(f)
    ensures var g := Apply(f);
      WellSized(g) && g.cols == f.cols && g.rows <= f.rows && g.cells <= f.cells
      && !g.meta.cursorVisible && g.meta.cursorX.None? && g.meta.cursorY.None? && g.meta.cursorColor.None?
      && forall y :: g.rows <= y < f.rows ==> RowIsBarePrompt(f, y)
  {
    var used := UsedRowsForFreeze(f);
    TimesMonotone(used, f.rows, f.cols);
    forall y | used <= y < f.rows ensures RowIsBarePrompt(f, y) {
      DroppedRowsAreBare(f, y);
    }
  }

  lemma RowOfPrefix(f: VtFrame, g: VtFrame, y: nat)
    requires WellSized(f) && WellSized(g) && g.cols == f.cols && g.cells <= f.cells && y < g.rows && y < f.rows
    ensures RowOf(g, y) == RowOf(f, y)
  {
    RowFits(g.rows, f.cols, y);
    RowFits(f.rows, f.cols, y);
    assert forall x :: Times(y, f.cols) <= x < Times(y + 1, f.cols) ==> g.cells[x] == f.cells[x];
  }

  lemma KeptRow(f: VtFrame, y: nat)
    requires WellSized(f) && y < Apply(f).rows
    ensures WellSized(Apply(f)) && y < f.rows && RowOf(Apply(f), y) == RowOf(f, y)
  {
    ApplyKeepsWork(f);
    RowOfPrefix(f, Apply(f), y);
  }

  lemma KeptRowIsBare(f: VtFrame, y: nat)
    requires WellSized(f) && WellSized(Apply(f)) && y < Apply(f).rows && y < f.rows
    ensures RowIsBarePrompt(Apply(f), y) == RowIsBarePrompt(f, y)
  {
    KeptRow(f, y);
  }

  lemma RowInkIsInk(f: VtFrame, y: nat)
    requires WellSized(f) && y < f.rows && Inked(RowOf(f, y))
    ensures Inked(f.cells)
  {
    RowFits(f.rows, f.cols, y);
    var x :| 0 <= x < |RowOf(f, y)| && RowOf(f, y)[x].text != "";
    assert f.cells[Times(y, f.cols) + x].text != "";
  }

  /** The frozen frame looks as the frame did: its colours and the style of the cursor, which is not shown. */
  lemma FrozenLooks(f: VtFrame)
    requires WellSized(f)
    ensures var g := Apply(f);
      && g.meta.background == f.meta.background && g.meta.foreground == f.meta.foreground
      && g.meta.cursorStyle == f.meta.cursorStyle && !g.meta.cursorBlink && g.dirty.Full?
  {
  }

  /** A row's text is its cells' texts one after the other, but for white space at the end. */
  lemma RowTextIs(f: VtFrame, y: nat) returns (back: string)
    requires WellSized(f) && y < f.rows
    ensures var row := RowOf(f, y);
      Flatten(seq(|row|, x requires 0 <= x < |row| => row[x].text)) == RowText(f, y) + back
    ensures AllRegExpSpace(back)
    ensures RowText(f, y) == "" || !IsRegExpSpace(RowText(f, y)[|RowText(f, y)| - 1])
  {
    TextIsFlat(RowOf(f, y));
    back := DropTrailingSplits(TextOf(RowOf(f, y)));
  }

  lemma {:induction false} TextIsFlat(cells: seq<VtCell>)
    ensures TextOf(cells) == Flatten(seq(|cells|, x requires 0 <= x < |cells| => cells[x].text))
  {
    if cells != [] {
      var n := |cells| - 1;
      var front := seq(n, x requires 0 <= x < n => cells[..n][x].text);
      TextIsFlat(cells[..n]);
      assert seq(|cells|, x requires 0 <= x < |cells| => cells[x].text) == front + [cells[n].text];
      FlattenLast(front, cells[n].text);
    }
  }

  /** One to three prompt characters stand in the text, or none, and else white space. */
  ghost predicate IsPromptText(text: string) {
    exists front, t, back :: IsPromptOf(text, front, t, back)
  }

  predicate IsPromptOf(text: string, front: string, t: string, back: string) {
    && text == front + t + back && AllSpace(front) && AllSpace(back) && |t| <= 3
    && forall k :: 0 <= k < |t| ==> t[k] == '$' || t[k] == '#' || t[k] == '%' || t[k] == '>' || t[k] == '\U{276F}'
  }

  lemma BareIsPrompt(text: string, row: string, end: string)
    requires text == row + end && AllRegExpSpace(end) && IsBare(Trim(row))
    ensures IsPromptText(text)
  {
    var front, back := TrimSplits(row);
    assert row + end == front + Trim(row) + (back + end);
    assert IsPromptOf(text, front, Trim(row), back + end);
  }

  lemma PromptIsBare(text: string, row: string, end: string)
    requires text == row + end && AllRegExpSpace(end) && IsPromptText(text)
    ensures IsBare(Trim(row))
  {
    var front, t, back :| IsPromptOf(text, front, t, back);
    TrimOf(front, t, back);
    TrimAnyway(row, end);
  }

  /** Exactly the rows with such a text are bare prompts. */
  lemma BarePromptIff(f: VtFrame, y: nat)
    requires WellSized(f) && y < f.rows
    ensures RowIsBarePrompt(f, y) <==> IsPromptText(TextOf(RowOf(f, y)))
  {
    var text := TextOf(RowOf(f, y));
    var end := DropTrailingSplits(text);
    if RowIsBarePrompt(f, y) {
      BareIsPrompt(text, RowText(f, y), end);
    }
    if IsPromptText(text) {
      PromptIsBare(text, RowText(f, y), end);
    }
  }

  /** Trimming does not see what was dropped before. */
  lemma TrimAnyway(row: string, end: string)
    requires AllRegExpSpace(end)
    ensures Trim(row + end) == Trim(row)
  {
    var front, back := TrimSplits(row);
    assert row + end == front + Trim(row) + (back + end);
    TrimOf(front, Trim(row), back + end);
  }

  /** Only trailing rows are dropped: the frozen frame ends in a row of work, unless it is a single row. */
  lemma FrozenEnds(f: VtFrame)
    requires WellSized(f) && Apply(f).rows > 1 && UsedRowsForFreeze(f) > 0
    ensures !RowIsBarePrompt(f, Apply(f).rows - 1)
  {
    LastIsNoPrompt(f, UsedRows(f));
  }

  /** A frame is worth freezing exactly if it has a row that is neither blank nor a bare prompt. */
  lemma WorthIff(f: VtFrame)
    requires WellSized(f)
    ensures IsWorthFreezing(f) <==> exists y :: 0 <= y < f.rows && !RowIsBarePrompt(f, y)
  {
    if y :| 0 <= y < f.rows && !RowIsBarePrompt(f, y) {
      if y >= UsedRowsForFreeze(f) {
        DroppedRowsAreBare(f, y);
      }
      if !Inked(RowOf(f, y)) {
        EmptyRowIsBare(f, y);
      }
      RowInkIsInk(f, y);
      assert Trim(RowText(f, y)) != "";
    }
  }

  /** Freezing does not change whether a frame is worth it. */
  lemma WorthUnchanged(f: VtFrame)
    requires WellSized(f)
    ensures WellSized(Apply(f)) && (IsWorthFreezing(Apply(f)) <==> IsWorthFreezing(f))
  {
    var g := Apply(f);
    ApplyKeepsWork(f);
    WorthIff(f);
    WorthIff(g);
    forall y | 0 <= y < g.rows ensures RowIsBarePrompt(g, y) == RowIsBarePrompt(f, y) {
      KeptRowIsBare(f, y);
    }
    assert forall y :: 0 <= y < f.rows && !RowIsBarePrompt(f, y) ==> y < g.rows;
  }

  lemma LastRowInked(g: VtFrame)
    requires WellSized(g) && g.rows > 0 && !RowIsBarePrompt(g, g.rows - 1)
    ensures Inked(RowOf(g, g.rows - 1)) && g.cols > 0
  {
    if !Inked(RowOf(g, g.rows - 1)) {
      EmptyRowIsBare(g, g.rows - 1);
    }
  }

  /** A frame that ends in a row of work uses all its rows. */
  lemma AllRowsUsed(g: VtFrame)
    requires WellSized(g) && g.rows > 0 && !RowIsBarePrompt(g, g.rows - 1)
    ensures UsedRowsForFreeze(g) == g.rows
  {
    LastRowInked(g);
    assert UsedRowsUpTo(g, g.rows) == g.rows;
  }

  lemma FrozenEndsInWork(f: VtFrame)
    requires WellSized(f) && UsedRowsForFreeze(f) > 1
    ensures WellSized(Apply(f)) && Apply(f).rows == UsedRowsForFreeze(f)
    ensures !RowIsBarePrompt(Apply(f), Apply(f).rows - 1)
  {
    ApplyKeepsWork(f);
    LastIsNoPrompt(f, UsedRows(f));
    KeptRowIsBare(f, UsedRowsForFreeze(f) - 1);
  }

  lemma UsedRowsOfFrozen(f: VtFrame)
    requires WellSized(f) && UsedRowsForFreeze(f) > 0
    ensures WellSized(Apply(f)) && Apply(f).rows == UsedRowsForFreeze(f)
    ensures UsedRowsForFreeze(Apply(f)) == 0 || UsedRowsForFreeze(Apply(f)) == Apply(f).rows
  {
    ApplyKeepsWork(f);
    if UsedRowsForFreeze(f) > 1 {
      FrozenEndsInWork(f);
      AllRowsUsed(Apply(f));
    }
  }

  lemma {:induction false} SameRowsUsed(f: VtFrame, g: VtFrame, y: nat)
    requires WellSized(f) && g.cells == f.cells && g.rows == f.rows && g.cols == f.cols && y <= f.rows
    ensures UsedRowsUpTo(g, y) == UsedRowsUpTo(f, y)
  {
    if y > 0 {
      assert RowOf(g, y - 1) == RowOf(f, y - 1);
      SameRowsUsed(f, g, y - 1);
    }
  }

  /** A frame without ink keeps its cells; only its colours and cursor change, and only once. */
  lemma BlankFrozen(f: VtFrame)
    requires WellSized(f) && UsedRowsForFreeze(f) == 0
    ensures WellSized(Apply(f)) && Apply(Apply(f)) == Apply(f)
  {
    var g := Apply(f);
    SameRowsUsed(f, g, f.rows);
    assert UsedRowsForFreeze(g) == 0;
  }

  lemma WorkFrozen(f: VtFrame)
    requires WellSized(f) && UsedRowsForFreeze(f) > 0
    ensures WellSized(Apply(f)) && Apply(Apply(f)) == Apply(f)
  {
    ApplyKeepsWork(f);
    UsedRowsOfFrozen(f);
  }

  /** A frozen frame is frozen already. */
  lemma ApplyIdempotent(f: VtFrame)
    requires WellSized(f)
    ensures WellSized(Apply(f)) && Apply(Apply(f)) == Apply(f)
  {
    if UsedRowsForFreeze(f) == 0 {
      BlankFrozen(f);
    } else {
      WorkFrozen(f);
    }
  }

  // ---------- the loops ----------

  method FindInk(cells: seq<VtCell>) returns (found: bool)
    ensures found <==> Inked(cells)
  {
    for x := 0 to |cells|
      invariant !Inked(cells[..x])
    {
      if cells[x].text != "" {
        return true;
      }
    }
    return false;
  }

  method ReadRowText(f: VtFrame, y: nat) returns (text: string)
    requires WellSized(f) && y < f.rows
    ensures text == RowText(f, y)
  {
    RowFits(f.rows, f.cols, y);
    var base := Times(y, f.cols);
    var buf := "";
    ghost var row := RowOf(f, y);
    for x := 0 to f.cols
      invariant buf == TextOf(row[..x])
    {
      assert row[..x + 1][..x] == row[..x] && row[x] == f.cells[base + x];
      buf := buf + f.cells[base + x].text;
    }
    assert row[..f.cols] == row;
    return DropTrailing(buf);
  }

  method CountUsedRows(f: VtFrame) returns (used: nat)
    requires WellSized(f)
    ensures used == UsedRows(f)
  {
    used := 0;
    if f.cols == 0 {
      return;
    }
    for y := 0 to f.rows
      invariant used == UsedRowsUpTo(f, y)
    {
      RowFits(f.rows, f.cols, y);
      var base := Times(y, f.cols);
      var inked := FindInk(f.cells[base..base + f.cols]);
      if inked {
        used := y + 1;
      }
    }
  }

  method CountRowsForFreeze(f: VtFrame) returns (used: nat)
    requires WellSized(f)
    ensures used == UsedRowsForFreeze(f)
  {
    used := CountUsedRows(f);
    while used > 1
      invariant used <= f.rows && DropPrompts(f, used) == UsedRowsForFreeze(f)
    {
      var text := ReadRowText(f, used - 1);
      if !IsBare(Trim(text)) {
        break;
      }
      used := used - 1;
    }
  }

  method FindWork(f: VtFrame, used: nat) returns (found: bool)
    requires WellSized(f) && used <= f.rows
    ensures found <==> exists y :: 0 <= y < used && Trim(RowText(f, y)) != "" && !RowIsBarePrompt(f, y)
  {
    for y := 0 to used
      invariant forall k :: 0 <= k < y ==> RowIsBarePrompt(f, k)
    {
      var text := ReadRowText(f, y);
      var t := Trim(text);
      if t == "" {
        continue;
      }
      if IsBare(t) {
        continue;
      }
      return true;
    }
    return false;
  }

  method CheckWorthFreezing(f: VtFrame) returns (worth: bool)
    requires WellSized(f)
    ensures worth <==> IsWorthFreezing(f)
  {
    var ink := FindInk(f.cells);
    if !ink {
      return false;
    }
    var used := CountRowsForFreeze(f);
    if used <= 0 {
      return false;
    }
    worth := FindWork(f, used);
  }

  method PadCells(src: seq<VtCell>, n: nat) returns (cells: seq<VtCell>)
    ensures cells == FirstCells(src, n)
  {
    cells := src[..Min(n, |src|)];
    ghost var taken := cells;
    while |cells| < n
      invariant |cells| <= n && |taken| <= |cells| && taken + Blanks(n - |taken|) == cells + Blanks(n - |cells|)
    {
      assert cells + Blanks(n - |cells|) == cells + [BLANK] + Blanks(n - |cells| - 1);
      cells := cells + [BLANK];
    }
    assert cells + [] == cells;
  }

  method ApplyFreeze(f: VtFrame) returns (frozen: VtFrame)
    requires WellSized(f)
    ensures frozen == Apply(f)
  {
    var used := CountRowsForFreeze(f);
    if used <= 0 {
      var copy := Clone(f);
      return copy.(meta := ChangeMeta(copy.meta, NO_CURSOR));
    }
    var cells := PadCells(f.cells, Times(used, f.cols));
    var meta := f.meta.(cursorColor := None, cursorX := None, cursorY := None, cursorVisible := false,
                        cursorBlink := false, cursorOnWideTail := false);
    return VtFrame(f.cols, used, cells, meta, Full, None);
  }
}
