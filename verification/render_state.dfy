/** projectRenderState as the source runs it: loops over rows and cells into a list, clearing flags as it goes. */
module RenderStates {
  import opened Bytes
  import opened Frame
  import opened Render

  /** A frame holding its cells in a list, as the source does. */
  datatype ListFrame = ListFrame(
    cols: nat, rows: nat, cells: array<VtCell>, meta: Meta, dirty: DirtyKind, dirtyRows: Option<set<nat>>)

  ghost function Value(f: ListFrame): VtFrame
    reads f.cells
  {
    VtFrame(f.cols, f.rows, f.cells[..], f.meta, f.dirty, f.dirtyRows)
  }

  ghost function PreviousValue(previous: Option<ListFrame>): Option<VtFrame>
    reads if previous.Some? then {previous.value.cells} else {}
  {
    if previous.Some? then Some(Value(previous.value)) else None
  }

  /** The cell loops of one row: the cells there are, then blanks. */
  method WriteRow(out: array<VtCell>, base: nat, raw: seq<RawCell>, cols: nat)
    requires base + cols <= out.Length
    modifies out
    ensures out[..] == old(out[..base]) + RenderRow(raw, cols) + old(out[base + cols..])
  {
    var x := 0;
    while x < |raw| && x < cols
      invariant x <= |raw| && x <= cols
      invariant forall k :: 0 <= k < x ==> out[base + k] == RenderRow(raw, cols)[k]
      invariant forall k :: 0 <= k < out.Length && !(base <= k < base + x) ==> out[k] == old(out[k])
    {
      out[base + x] := ReadCell(raw[x]);
      x := x + 1;
    }
    while x < cols
      invariant |raw| <= x || x == cols
      invariant x <= cols
      invariant forall k :: 0 <= k < x ==> out[base + k] == RenderRow(raw, cols)[k]
      invariant forall k :: 0 <= k < out.Length && !(base <= k < base + x) ==> out[k] == old(out[k])
    {
      out[base + x] := BLANK;
      x := x + 1;
    }
    assert out[base..base + cols] == RenderRow(raw, cols);
    assert out[..] == out[..base] + out[base..base + cols] + out[base + cols..];
  }

  lemma JoinSnoc<T>(rows: seq<seq<T>>, row: seq<T>, cols: nat)
    requires RowsOf(rows, cols) && |row| == cols
    ensures RowsOf(rows + [row], cols) && Join(rows + [row], cols) == Join(rows, cols) + row
  {
    assert (rows + [row])[..|rows|] == rows;
  }

  class RenderState {
    var cols: nat
    var rows: nat
    var grid: seq<seq<RawCell>>
    var rowDirty: seq<bool>
    var dirty: DirtyKind
    var meta: RawMeta

    ghost function View(): Native
      reads this
    {
      Native(cols, rows, grid, rowDirty, dirty, meta)
    }

    /** The list the row loop starts from: the previous cells to patch, or blanks. */
    method Seed(previous: Option<ListFrame>, patch: bool) returns (out: array<VtCell>)
      requires patch ==> previous.Some? && previous.value.cells.Length == Times(rows, cols)
      ensures fresh(out) && out.Length == Times(rows, cols)
      ensures out[..] == if patch then previous.value.cells[..] else BlankRow(Times(rows, cols))
    {
      TimesIsProduct(rows, cols);
      if patch {
        var old_ := previous.value.cells;
        out := new VtCell[cols * rows](_ => BLANK);
        forall k | 0 <= k < out.Length {
          out[k] := old_[k];
        }
      } else {
        out := new VtCell[cols * rows](_ => BLANK);
      }
    }

    /** One turn of the row loop: read the row if it is wanted and readable, then clear its flag. */
    method VisitRow(out: array<VtCell>, base: nat, y: nat, patch: bool, readable: bool) returns (wasDirty: bool)
      requires Shaped(View()) && y < rows && base + cols <= out.Length
      modifies out, this`rowDirty
      ensures wasDirty == (!patch || old(rowDirty[y]))
      ensures rowDirty == old(rowDirty)[y := false]
      ensures out[..]
        == if wasDirty && readable then old(out[..base]) + RenderRow(grid[y], cols) + old(out[base + cols..])
           else old(out[..])
    {
      wasDirty := true;
      if patch {
        wasDirty := rowDirty[y];
      }
      if wasDirty && readable {
        WriteRow(out, base, grid[y], cols);
      }
      rowDirty := rowDirty[y := false];
    }

    /** The visit as part of a projection of `n`, given that row `y` and its flag are still as they were. */
    method VisitProjected(
      out: array<VtCell>, base: nat, y: nat, patch: bool, readable: bool,
      ghost n: Native, ghost was: Option<VtFrame>, ghost unreadable: set<nat>, ghost seed: seq<VtCell>)
      returns (wasDirty: bool)
      requires Shaped(View()) && y < rows && n == View().(rowDirty := n.rowDirty) && |n.rowDirty| == rows
      requires rowDirty[y] == n.rowDirty[y]
      requires Seeded(n, was, patch, seed) && readable == (y !in unreadable)
      requires base == Times(y, cols) && base + cols <= out.Length && Progress(n, was, unreadable, seed, out[..], y)
      modifies out, this`rowDirty
      ensures wasDirty == (!patch || n.rowDirty[y])
      ensures rowDirty == old(rowDirty)[y := false]
      ensures Progress(n, was, unreadable, seed, out[..], y + 1)
    {
      ghost var before := out[..];
      wasDirty := VisitRow(out, base, y, patch, readable);
      RowVisited(n, was, unreadable, patch, seed, before, out[..], y);
    }

    /** The row loop, over all rows; `was` is the previous frame's value. */
    method VisitRows(out: array<VtCell>, patch: bool, unreadable: set<nat>, ghost was: Option<VtFrame>)
      returns (marks: set<nat>)
      requires Shaped(View()) && Seeded(View(), was, patch, out[..])
      modifies out, this`rowDirty
      ensures out[..] == Join(ProjectRows(old(View()), was, unreadable), cols)
      ensures |rowDirty| == rows && forall k :: 0 <= k < rows ==> !rowDirty[k]
      ensures patch ==> marks == DirtyRows(old(View()))
    {
      ghost var n, seed := View(), out[..];
      marks := {};
      var base := 0;
      NoProgress(n, was, unreadable, seed);
      for y := 0 to rows
        invariant base == Times(y, cols)
        invariant ClearedTo(n.rowDirty, rowDirty, y)
        invariant Progress(n, was, unreadable, seed, out[..], y)
        invariant patch ==> marks == MarkedUpTo(n, y)
      {
        MarkNext(n, y);
        ClearNext(n.rowDirty, rowDirty, y);
        SeedFits(n, was, patch, seed, y);
        var wasDirty := VisitProjected(out, base, y, patch, y !in unreadable, n, was, unreadable, seed);
        if wasDirty {
          marks := marks + {y};
        }
        base := base + cols;
      }
      AllProgress(n, was, unreadable, patch, seed, out[..]);
    }

    /** The reuse path. */
    method Reuse(previous: ListFrame, unreadable: set<nat>) returns (f: ListFrame)
      requires Shaped(View()) && WellSized(Value(previous)) && PathOf(View(), Some(Value(previous))).Reuse?
      modifies this`dirty
      ensures Value(f) == Project(old(View()), Some(Value(previous)), unreadable)
      ensures dirty == Clean && f.cells == previous.cells
    {
      ReusedRows(View(), Some(Value(previous)), unreadable);
      RefreshForgetsOldMeta(previous.meta, ReadMeta(meta));
      dirty := Clean;
      f := ListFrame(cols, rows, previous.cells, ChangeMeta(previous.meta, MetaRefresh(ReadMeta(meta))), Clean,
                     Some({}));
    }

    method ProjectRenderState(previous: Option<ListFrame>, unreadable: set<nat>) returns (f: ListFrame)
      requires Shaped(View()) && (previous.Some? ==> WellSized(Value(previous.value)))
      modifies this
      ensures Value(f) == Project(old(View()), old(PreviousValue(previous)), unreadable)
      ensures View() == Cleared(old(View()), old(PreviousValue(previous)))
      ensures fresh(f.cells) || (previous.Some? && f.cells == previous.value.cells)
    {
      ghost var was := PreviousValue(previous);
      var sameSize := previous.Some? && previous.value.cols == cols && previous.value.rows == rows;
      var kind := dirty;
      if kind.Clean? && sameSize {
        f := Reuse(previous.value, unreadable);
        return;
      }
      var patch := kind.Partial? && sameSize;
      var out := Seed(previous, patch);
      var marks := VisitRows(out, patch, unreadable, was);
      dirty := Clean;
      f := ListFrame(cols, rows, out, ReadMeta(meta), kind, if patch then Some(marks) else None);
      assert rowDirty == seq(rows, _ => false);
    }
  }

  /** The first `y` flags are cleared, the others as they were. */
  ghost predicate ClearedTo(before: seq<bool>, now: seq<bool>, y: nat) {
    |now| == |before| && forall k :: 0 <= k < |now| ==> now[k] == (y <= k && before[k])
  }

  lemma ClearNext(before: seq<bool>, now: seq<bool>, y: nat)
    requires ClearedTo(before, now, y) && y < |now|
    ensures now[y] == before[y] && ClearedTo(before, now[y := false], y + 1)
  {
  }

  ghost function MarkedUpTo(n: Native, y: nat): set<nat>
    requires Shaped(n) && y <= n.rows
  {
    set k: nat | k < y && n.rowDirty[k]
  }

  lemma MarkNext(n: Native, y: nat)
    requires Shaped(n) && y < n.rows
    ensures MarkedUpTo(n, y + 1) == if n.rowDirty[y] then MarkedUpTo(n, y) + {y} else MarkedUpTo(n, y)
  {
  }

  /** The list starts as what unvisited and unreadable rows keep: the previous cells to patch, or blanks. */
  ghost predicate Seeded(n: Native, was: Option<VtFrame>, patch: bool, seed: seq<VtCell>)
    requires Shaped(n)
  {
    && (was.Some? ==> WellSized(was.value))
    && PathOf(n, was) == (if patch then Patch else Rebuild)
    && seed == if patch then was.value.cells else BlankRow(Times(n.rows, n.cols))
  }

  /** The first `y` projected rows, one after the other. */
  ghost function RowsUpTo(n: Native, was: Option<VtFrame>, unreadable: set<nat>, y: nat): (cells: seq<VtCell>)
    requires Shaped(n) && y <= n.rows && (was.Some? ==> WellSized(was.value))
    ensures |cells| == Times(y, n.cols)
  {
    if y == 0 then [] else RowsUpTo(n, was, unreadable, y - 1) + ProjectRow(n, was, unreadable, y - 1)
  }

  /** The first `y` rows are projected, the rest is still the seed. */
  ghost predicate Progress(
    n: Native, was: Option<VtFrame>, unreadable: set<nat>, seed: seq<VtCell>, cells: seq<VtCell>, y: nat)
    requires Shaped(n) && y <= n.rows && (was.Some? ==> WellSized(was.value))
  {
    var done := Times(y, n.cols);
    done <= |cells| == |seed| && cells[..done] == RowsUpTo(n, was, unreadable, y) && cells[done..] == seed[done..]
  }

  lemma NoProgress(n: Native, was: Option<VtFrame>, unreadable: set<nat>, seed: seq<VtCell>)
    requires Shaped(n) && (was.Some? ==> WellSized(was.value))
    ensures Progress(n, was, unreadable, seed, seed, 0)
  {
  }

  lemma {:induction false} JoinUpTo(n: Native, was: Option<VtFrame>, unreadable: set<nat>, y: nat)
    requires Shaped(n) && y <= n.rows && (was.Some? ==> WellSized(was.value))
    ensures RowsOf(ProjectRows(n, was, unreadable)[..y], n.cols)
    ensures Join(ProjectRows(n, was, unreadable)[..y], n.cols) == RowsUpTo(n, was, unreadable, y)
  {
    if y > 0 {
      JoinUpTo(n, was, unreadable, y - 1);
      ExtendJoin(ProjectRows(n, was, unreadable), y - 1, n.cols);
    }
  }

  lemma JoinAll(n: Native, was: Option<VtFrame>, unreadable: set<nat>)
    requires Shaped(n) && (was.Some? ==> WellSized(was.value))
    ensures Join(ProjectRows(n, was, unreadable), n.cols) == RowsUpTo(n, was, unreadable, n.rows)
  {
    JoinUpTo(n, was, unreadable, n.rows);
    assert ProjectRows(n, was, unreadable)[..n.rows] == ProjectRows(n, was, unreadable);
  }

  lemma AllProgress(
    n: Native, was: Option<VtFrame>, unreadable: set<nat>, patch: bool, seed: seq<VtCell>, cells: seq<VtCell>)
    requires Shaped(n) && Seeded(n, was, patch, seed) && Progress(n, was, unreadable, seed, cells, n.rows)
    ensures cells == Join(ProjectRows(n, was, unreadable), n.cols)
  {
    JoinAll(n, was, unreadable);
    assert cells[..|cells|] == cells;
  }

  lemma SeedFits(n: Native, was: Option<VtFrame>, patch: bool, seed: seq<VtCell>, y: nat)
    requires Shaped(n) && y < n.rows && Seeded(n, was, patch, seed)
    ensures Times(y, n.cols) + n.cols <= |seed| == Times(n.rows, n.cols)
  {
    RowFits(n.rows, n.cols, y);
  }

  /** The seed's row `y` is what an unvisited or unreadable row keeps. */
  lemma SeedRow(n: Native, was: Option<VtFrame>, patch: bool, seed: seq<VtCell>, y: nat)
    requires Shaped(n) && y < n.rows && Seeded(n, was, patch, seed)
    ensures Times(y, n.cols) + n.cols <= |seed|
    ensures seed[Times(y, n.cols)..Times(y, n.cols) + n.cols] == if patch then RowOf(was.value, y) else BlankRow(n.cols)
  {
    RowFits(n.rows, n.cols, y);
  }

  /** After a visit, the row is written or still the seed's, and the rest is untouched. */
  lemma Visited(before: seq<VtCell>, after: seq<VtCell>, seed: seq<VtCell>, base: nat, cols: nat, row: seq<VtCell>)
    requires |before| == |seed| == |after| && base + cols <= |seed| && before[base..] == seed[base..] && |row| == cols
    requires
      || after == before[..base] + row + before[base + cols..]
      || (after == before && row == seed[base..base + cols])
    ensures after[..base + cols] == before[..base] + row && after[base + cols..] == seed[base + cols..]
  {
    assert before[base..][cols..] == before[base + cols..] && seed[base..][cols..] == seed[base + cols..];
    assert before[base..][..cols] == before[base..base + cols] && seed[base..][..cols] == seed[base..base + cols];
    assert before[..base + cols] == before[..base] + before[base..base + cols];
  }

  /** The projected row is the row read, or the seed's. */
  lemma ProjectedIs(
    n: Native, was: Option<VtFrame>, unreadable: set<nat>, patch: bool, seed: seq<VtCell>, y: nat, row: seq<VtCell>)
    requires Shaped(n) && y < n.rows && Seeded(n, was, patch, seed)
    requires Times(y, n.cols) + n.cols <= |seed|
    requires row == if (patch && !n.rowDirty[y]) || y in unreadable
                    then seed[Times(y, n.cols)..Times(y, n.cols) + n.cols]
                    else RenderRow(n.grid[y], n.cols)
    ensures row == ProjectRow(n, was, unreadable, y)
  {
    SeedRow(n, was, patch, seed, y);
  }

  lemma ProgressBy(
    n: Native, was: Option<VtFrame>, unreadable: set<nat>, seed: seq<VtCell>, before: seq<VtCell>, after: seq<VtCell>,
    y: nat)
    requires Shaped(n) && y < n.rows && (was.Some? ==> WellSized(was.value))
    requires Progress(n, was, unreadable, seed, before, y)
    requires var base := Times(y, n.cols);
      && base + n.cols <= |before| == |after| && after[base + n.cols..] == seed[base + n.cols..]
      && after[..base + n.cols] == before[..base] + ProjectRow(n, was, unreadable, y)
    ensures Progress(n, was, unreadable, seed, after, y + 1)
  {
  }

  lemma VisitedFrom(
    n: Native, was: Option<VtFrame>, unreadable: set<nat>, seed: seq<VtCell>, before: seq<VtCell>, after: seq<VtCell>,
    y: nat, row: seq<VtCell>)
    requires Shaped(n) && y < n.rows && (was.Some? ==> WellSized(was.value))
    requires Progress(n, was, unreadable, seed, before, y)
    requires Times(y, n.cols) + n.cols <= |before| && |row| == n.cols
    requires var base := Times(y, n.cols);
      || after == before[..base] + row + before[base + n.cols..]
      || (after == before && row == seed[base..base + n.cols])
    ensures var base := Times(y, n.cols);
      && |after| == |before| && after[..base + n.cols] == before[..base] + row
      && after[base + n.cols..] == seed[base + n.cols..]
  {
    Visited(before, after, seed, Times(y, n.cols), n.cols, row);
  }

  /** So the visit makes progress by the projected row. */
  lemma RowVisited(
    n: Native, was: Option<VtFrame>, unreadable: set<nat>, patch: bool, seed: seq<VtCell>, before: seq<VtCell>,
    after: seq<VtCell>, y: nat)
    requires Shaped(n) && y < n.rows && Seeded(n, was, patch, seed) && Progress(n, was, unreadable, seed, before, y)
    requires Times(y, n.cols) + n.cols <= |before|
    requires after == if (patch && !n.rowDirty[y]) || y in unreadable then before
                      else before[..Times(y, n.cols)] + RenderRow(n.grid[y], n.cols)
                           + before[Times(y, n.cols) + n.cols..]
    ensures Progress(n, was, unreadable, seed, after, y + 1)
  {
    var base := Times(y, n.cols);
    var row := if (patch && !n.rowDirty[y]) || y in unreadable then seed[base..base + n.cols]
               else RenderRow(n.grid[y], n.cols);
    ProjectedIs(n, was, unreadable, patch, seed, y, row);
    VisitedFrom(n, was, unreadable, seed, before, after, y, row);
    ProgressBy(n, was, unreadable, seed, before, after, y);
  }

  lemma ExtendJoin<T>(rows: seq<seq<T>>, y: nat, cols: nat)
    requires RowsOf(rows, cols) && y < |rows|
    ensures Join(rows[..y + 1], cols) == Join(rows[..y], cols) + rows[y]
  {
    assert rows[..y + 1] == rows[..y] + [rows[y]];
    JoinSnoc(rows[..y], rows[y], cols);
  }

  lemma ReusedRow(n: Native, previous: Option<VtFrame>, unreadable: set<nat>, y: nat, cells: seq<VtCell>)
    requires Shaped(n) && y < n.rows && (previous.Some? ==> WellSized(previous.value)) && PathOf(n, previous).Reuse?
    requires previous.value.cells == cells
    ensures Times(y, n.cols) + n.cols <= |cells|
    ensures ProjectRow(n, previous, unreadable, y) == cells[Times(y, n.cols)..Times(y, n.cols) + n.cols]
  {
    RowFits(n.rows, n.cols, y);
  }

  lemma ReusedNext(n: Native, previous: Option<VtFrame>, unreadable: set<nat>, y: nat, cells: seq<VtCell>)
    requires Shaped(n) && y < n.rows && (previous.Some? ==> WellSized(previous.value)) && PathOf(n, previous).Reuse?
    requires previous.value.cells == cells && Times(y, n.cols) <= |cells|
    requires RowsUpTo(n, previous, unreadable, y) == cells[..Times(y, n.cols)]
    ensures Times(y + 1, n.cols) <= |cells| && RowsUpTo(n, previous, unreadable, y + 1) == cells[..Times(y + 1, n.cols)]
  {
    ReusedRow(n, previous, unreadable, y, cells);
    TakeMore(cells, Times(y, n.cols), n.cols);
  }

  /** On the reuse path the projected rows are the previous cells. */
  lemma {:induction false} ReusedUpTo(n: Native, previous: Option<VtFrame>, unreadable: set<nat>, y: nat)
    requires Shaped(n) && y <= n.rows && (previous.Some? ==> WellSized(previous.value)) && PathOf(n, previous).Reuse?
    ensures Times(y, n.cols) <= |previous.value.cells|
    ensures RowsUpTo(n, previous, unreadable, y) == previous.value.cells[..Times(y, n.cols)]
  {
    if y > 0 {
      ReusedUpTo(n, previous, unreadable, y - 1);
      ReusedNext(n, previous, unreadable, y - 1, previous.value.cells);
    }
  }

  lemma ReusedRows(n: Native, previous: Option<VtFrame>, unreadable: set<nat>)
    requires Shaped(n) && (previous.Some? ==> WellSized(previous.value)) && PathOf(n, previous).Reuse?
    ensures Join(ProjectRows(n, previous, unreadable), n.cols) == previous.value.cells
  {
    ReusedUpTo(n, previous, unreadable, n.rows);
    JoinAll(n, previous, unreadable);
    assert previous.value.cells[..|previous.value.cells|] == previous.value.cells;
  }
}
