/** controller.dart and document.dart: the notebook's timeline and the operations that grow it. */
module Notebook {
  import opened Bytes
  import opened Frame
  import opened Texts
  import opened Freeze

  datatype InputMode = Terminal | NaturalLanguage

  datatype NotebookCell =
    | TerminalFreeze(id: string, frame: VtFrame)
    | UserMessage(id: string, text: string)
    | AgentTurn(id: string, summary: string)

  datatype ActiveCell = ActiveCell(mode: InputMode, askDraft: string)

  datatype NotebookDocument = NotebookDocument(
    timeline: seq<NotebookCell>, active: ActiveCell, paletteOpen: bool, statusFlash: Option<string>, revision: nat)

  /** The controller: its document, and the number last used in an id. */
  datatype State = State(doc: NotebookDocument, count: nat)

  const NEW := State(NotebookDocument([], ActiveCell(Terminal, ""), false, None, 0), 0)

  const SUMMARY := "Agent not connected yet — message recorded on this machine."

  function Decimal(n: nat): string {
    if n < 10 then [Digit(n)] else Decimal(n / 10) + [Digit(n % 10)]
  }

  function Digit(n: nat): char
    requires n < 10
  {
    '0' + n as char
  }

  function FreezeId(n: nat): string { "term-" + Decimal(n) }
  function MessageId(n: nat): string { "msg-" + Decimal(n) }
  function AgentId(n: nat): string { "agent-" + Decimal(n) }

  // ---------- the operations ----------

  function SetMode(s: State, mode: InputMode): State {
    if s.doc.active.mode == mode then s
    else s.(doc := s.doc.(active := s.doc.active.(mode := mode), statusFlash := None))
  }

  predicate Freezes(s: State, live: Option<VtFrame>)
    requires live.Some? ==> WellSized(live.value)
  {
    s.doc.active.mode != NaturalLanguage && live.Some? && IsWorthFreezing(live.value)
  }

  function EnterAsk(s: State, live: Option<VtFrame>): State
    requires live.Some? ==> WellSized(live.value)
  {
    if s.doc.active.mode == NaturalLanguage then s
    else
      var asking := s.doc.(active := s.doc.active.(mode := NaturalLanguage), statusFlash := None);
      if Freezes(s, live) then
        State(asking.(timeline := s.doc.timeline + [TerminalFreeze(FreezeId(s.count + 1), Apply(live.value))],
                      revision := s.doc.revision + 1), s.count + 1)
      else s.(doc := asking)
  }

  function SetPaletteOpen(s: State, on: bool): State {
    s.(doc := s.doc.(paletteOpen := on))
  }

  function SubmitUserMessage(s: State, text: string): State {
    if Trim(text) == "" then s.(doc := s.doc.(statusFlash := Some("empty message")))
    else
      State(s.doc.(
        timeline := s.doc.timeline
          + [UserMessage(MessageId(s.count + 1), Trim(text)), AgentTurn(AgentId(s.count + 2), SUMMARY)],
        revision := s.doc.revision + 1, active := ActiveCell(NaturalLanguage, ""), statusFlash := None),
        s.count + 2)
  }

  function ClearStatusFlash(s: State): State {
    s.(doc := s.doc.(statusFlash := None))
  }

  datatype Op =
    | DoSetMode(mode: InputMode)
    | DoEnterAsk(live: Option<VtFrame>)
    | DoSetPaletteOpen(on: bool)
    | DoSubmit(text: string)
    | DoClearFlash

  /** Screens come from the terminal, with as many cells as rows times columns. */
  predicate ValidOp(op: Op) {
    op.DoEnterAsk? && op.live.Some? ==> WellSized(op.live.value)
  }

  function Next(s: State, op: Op): State
    requires ValidOp(op)
  {
    match op
    case DoSetMode(mode) => SetMode(s, mode)
    case DoEnterAsk(live) => EnterAsk(s, live)
    case DoSetPaletteOpen(on) => SetPaletteOpen(s, on)
    case DoSubmit(text) => SubmitUserMessage(s, text)
    case DoClearFlash => ClearStatusFlash(s)
  }

  predicate ValidOps(ops: seq<Op>) {
    forall k :: 0 <= k < |ops| ==> ValidOp(ops[k])
  }

  function Run(ops: seq<Op>): State
    requires ValidOps(ops)
  {
    if ops == [] then NEW else Next(Run(ops[..|ops| - 1]), ops[|ops| - 1])
  }

  // ---------- ids ----------

  lemma DigitInjective(m: nat, n: nat)
    requires m < 10 && n < 10 && Digit(m) == Digit(n)
    ensures m == n
  {
  }

  lemma {:induction false} DecimalInjective(m: nat, n: nat)
    requires Decimal(m) == Decimal(n)
    ensures m == n
  {
    var x, y := Decimal(m), Decimal(n);
    assert x[|x| - 1] == Digit(m % 10) && y[|y| - 1] == Digit(n % 10);
    DigitInjective(m % 10, n % 10);
    if m >= 10 && n >= 10 {
      assert x[..|x| - 1] == Decimal(m / 10) && y[..|y| - 1] == Decimal(n / 10);
      DecimalInjective(m / 10, n / 10);
    }
  }

  /** The number that decimal digits say. */
  function NumberOf(s: string): int {
    if s == "" then 0 else 10 * NumberOf(s[..|s| - 1]) + (s[|s| - 1] as int - '0' as int)
  }

  /** They are digits, without a leading zero, and say that number. */
  lemma {:induction false} DecimalSays(n: nat)
    ensures NumberOf(Decimal(n)) == n && Decimal(n) != ""
    ensures forall k :: 0 <= k < |Decimal(n)| ==> '0' <= Decimal(n)[k] <= '9'
    ensures n > 0 ==> Decimal(n)[0] != '0'
  {
    if n >= 10 {
      DecimalSays(n / 10);
      assert Decimal(n)[..|Decimal(n)| - 1] == Decimal(n / 10);
    } else {
      assert [Digit(n)][..0] == "";
    }
  }

  function IdFor(cell: NotebookCell, n: nat): string {
    match cell
    case TerminalFreeze(_, _) => FreezeId(n)
    case UserMessage(_, _) => MessageId(n)
    case AgentTurn(_, _) => AgentId(n)
  }

  /** Cells of whatever kinds with the same id were numbered the same. */
  lemma IdsInjective(a: NotebookCell, m: nat, b: NotebookCell, n: nat)
    requires IdFor(a, m) == IdFor(b, n)
    ensures m == n
  {
    var x, y := IdFor(a, m), IdFor(b, n);
    assert x[0] == y[0];
    if a.TerminalFreeze? {
      assert x[5..] == Decimal(m) && y[5..] == Decimal(n);
    } else if a.UserMessage? {
      assert x[4..] == Decimal(m) && y[4..] == Decimal(n);
    } else {
      assert x[6..] == Decimal(m) && y[6..] == Decimal(n);
    }
    DecimalInjective(m, n);
  }

  // ---------- every timeline ----------

  /** A freeze shows work and no cursor; a message has text and is followed by a turn; a turn follows a message. */
  ghost predicate GoodCell(timeline: seq<NotebookCell>, k: nat)
    requires k < |timeline|
  {
    match timeline[k]
    case TerminalFreeze(_, frame) =>
      WellSized(frame) && !frame.meta.cursorVisible && Apply(frame) == frame
      && exists y :: 0 <= y < frame.rows && !RowIsBarePrompt(frame, y)
    case UserMessage(_, text) => text != "" && k + 1 < |timeline| && timeline[k + 1].AgentTurn?
    case AgentTurn(_, _) => k > 0 && timeline[k - 1].UserMessage?
  }

  function CountFreezes(timeline: seq<NotebookCell>): nat {
    if timeline == [] then 0
    else CountFreezes(timeline[..|timeline| - 1]) + if timeline[|timeline| - 1].TerminalFreeze? then 1 else 0
  }

  function CountMessages(timeline: seq<NotebookCell>): nat {
    if timeline == [] then 0
    else CountMessages(timeline[..|timeline| - 1]) + if timeline[|timeline| - 1].UserMessage? then 1 else 0
  }

  /** Cells are numbered from 1, and named by their number. */
  predicate Numbered(t: seq<NotebookCell>, count: nat) {
    count == |t| && forall k :: 0 <= k < |t| ==> t[k].id == IdFor(t[k], k + 1)
  }

  ghost predicate AllGood(t: seq<NotebookCell>) {
    forall k :: 0 <= k < |t| ==> GoodCell(t, k)
  }

  predicate Counted(t: seq<NotebookCell>, revision: nat) {
    revision == CountFreezes(t) + CountMessages(t) && |t| == CountFreezes(t) + 2 * CountMessages(t)
  }

  ghost predicate Good(s: State) {
    Numbered(s.doc.timeline, s.count) && AllGood(s.doc.timeline) && Counted(s.doc.timeline, s.doc.revision)
  }

  lemma GoodCellsStay(t: seq<NotebookCell>, more: seq<NotebookCell>)
    requires AllGood(t)
    ensures forall k :: 0 <= k < |t| ==> GoodCell(t + more, k)
  {
    forall k | 0 <= k < |t| ensures GoodCell(t + more, k) {
      assert GoodCell(t, k);
    }
  }

  lemma CountOne(t: seq<NotebookCell>, cell: NotebookCell)
    ensures CountFreezes(t + [cell]) == CountFreezes(t) + if cell.TerminalFreeze? then 1 else 0
    ensures CountMessages(t + [cell]) == CountMessages(t) + if cell.UserMessage? then 1 else 0
  {
    assert (t + [cell])[..|t|] == t;
  }

  /** What a freeze cell is made of. */
  lemma FrozenIsGood(frame: VtFrame)
    requires WellSized(frame) && IsWorthFreezing(frame)
    ensures var g := Apply(frame);
      WellSized(g) && !g.meta.cursorVisible && Apply(g) == g
      && exists y :: 0 <= y < g.rows && !RowIsBarePrompt(g, y)
  {
    ApplyKeepsWork(frame);
    ApplyIdempotent(frame);
    WorthUnchanged(frame);
    WorthIff(Apply(frame));
  }

  lemma NumberedOne(t: seq<NotebookCell>, cell: NotebookCell)
    requires Numbered(t, |t|) && cell.id == IdFor(cell, |t| + 1)
    ensures Numbered(t + [cell], |t| + 1)
  {
  }

  lemma AppendFreeze(t: seq<NotebookCell>, revision: nat, cell: NotebookCell)
    requires Numbered(t, |t|) && AllGood(t) && Counted(t, revision)
    requires cell.TerminalFreeze? && GoodCell([cell], 0) && cell.id == IdFor(cell, |t| + 1)
    ensures Numbered(t + [cell], |t| + 1) && AllGood(t + [cell]) && Counted(t + [cell], revision + 1)
  {
    NumberedOne(t, cell);
    GoodCellsStay(t, [cell]);
    CountOne(t, cell);
    assert (t + [cell])[|t|] == cell;
  }

  lemma GoodFreeze(s: State, live: Option<VtFrame>)
    requires Good(s) && (live.Some? ==> WellSized(live.value)) && Freezes(s, live)
    ensures Good(EnterAsk(s, live))
  {
    FrozenIsGood(live.value);
    AppendFreeze(s.doc.timeline, s.doc.revision, TerminalFreeze(FreezeId(s.count + 1), Apply(live.value)));
  }

  lemma AppendTurn(t: seq<NotebookCell>, revision: nat, you: NotebookCell, agent: NotebookCell)
    requires Numbered(t, |t|) && AllGood(t) && Counted(t, revision)
    requires you.UserMessage? && you.text != "" && you.id == IdFor(you, |t| + 1)
    requires agent.AgentTurn? && agent.id == IdFor(agent, |t| + 2)
    ensures var after := t + [you, agent];
      Numbered(after, |t| + 2) && AllGood(after) && Counted(after, revision + 1)
  {
    OneThenOne(t, you, agent);
    NumberedOne(t, you);
    NumberedOne(t + [you], agent);
    CountTurn(t, revision, you, agent);
    GoodTurn(t, you, agent);
  }

  lemma OneThenOne(t: seq<NotebookCell>, you: NotebookCell, agent: NotebookCell)
    ensures t + [you] + [agent] == t + [you, agent]
  {
  }

  lemma CountTurn(t: seq<NotebookCell>, revision: nat, you: NotebookCell, agent: NotebookCell)
    requires Counted(t, revision) && you.UserMessage? && agent.AgentTurn?
    ensures Counted(t + [you, agent], revision + 1)
  {
    OneThenOne(t, you, agent);
    CountOne(t, you);
    CountOne(t + [you], agent);
  }

  lemma GoodTurn(t: seq<NotebookCell>, you: NotebookCell, agent: NotebookCell)
    requires AllGood(t) && you.UserMessage? && you.text != "" && agent.AgentTurn?
    ensures AllGood(t + [you, agent])
  {
    GoodCellsStay(t, [you, agent]);
    assert (t + [you, agent])[|t|] == you && (t + [you, agent])[|t| + 1] == agent;
  }

  lemma GoodSubmit(s: State, text: string)
    requires Good(s) && Trim(text) != ""
    ensures Good(SubmitUserMessage(s, text))
  {
    AppendTurn(s.doc.timeline, s.doc.revision, UserMessage(MessageId(s.count + 1), Trim(text)),
               AgentTurn(AgentId(s.count + 2), SUMMARY));
  }

  lemma GoodStep(s: State, op: Op)
    requires Good(s) && ValidOp(op)
    ensures Good(Next(s, op)) && s.doc.timeline <= Next(s, op).doc.timeline
  {
    match op
    case DoEnterAsk(live) => if Freezes(s, live) { GoodFreeze(s, live); }
    case DoSubmit(text) => if Trim(text) != "" { GoodSubmit(s, text); }
    case _ =>
  }

  /** Over every run: cells as they should be, and the revision and the length say how many freezes and messages. */
  lemma {:induction false} TimelineInvariant(ops: seq<Op>)
    requires ValidOps(ops)
    ensures Good(Run(ops))
  {
    if ops != [] {
      TimelineInvariant(ops[..|ops| - 1]);
      GoodStep(Run(ops[..|ops| - 1]), ops[|ops| - 1]);
    }
  }

  /** No two cells have the same id. */
  lemma IdsAreDistinct(ops: seq<Op>, i: nat, j: nat)
    requires ValidOps(ops)
    requires i < j < |Run(ops).doc.timeline|
    ensures Run(ops).doc.timeline[i].id != Run(ops).doc.timeline[j].id
  {
    TimelineInvariant(ops);
    NumberedDistinct(Run(ops).doc.timeline, i, j);
  }

  lemma NumberedDistinct(t: seq<NotebookCell>, i: nat, j: nat)
    requires Numbered(t, |t|) && i < j < |t|
    ensures t[i].id != t[j].id
  {
    if t[i].id == t[j].id {
      IdsInjective(t[i], i + 1, t[j], j + 1);
    }
  }

  /** The timeline only grows, and only at its end. */
  lemma {:induction false} TimelineGrows(ops: seq<Op>, n: nat)
    requires n <= |ops| && ValidOps(ops)
    ensures Run(ops[..n]).doc.timeline <= Run(ops).doc.timeline
  {
    if n == |ops| {
      assert ops[..n] == ops;
    } else {
      var init := ops[..|ops| - 1];
      assert init[..n] == ops[..n];
      TimelineGrows(init, n);
      TimelineInvariant(init);
      GoodStep(Run(init), ops[|ops| - 1]);
    }
  }

  // ---------- the document, from the history ----------

  /** What has been trimmed of a message: nothing but white space around it. */
  ghost predicate IsMessage(text: string, message: string) {
    exists front, back :: IsTrimmed(front, message, back) && text == front + message + back
  }

  /** The frame has a row that is neither blank nor a bare prompt. */
  ghost predicate HasWork(f: VtFrame)
    requires WellSized(f)
  {
    exists y :: 0 <= y < f.rows && !RowIsBarePrompt(f, y)
  }

  /** The mode after the operations: the one last set, or asked in. */
  function ModeOf(ops: seq<Op>): InputMode {
    if ops == [] then Terminal
    else
      match ops[|ops| - 1]
      case DoSetMode(mode) => mode
      case DoEnterAsk(_) => NaturalLanguage
      case DoSubmit(text) => if Trim(text) != "" then NaturalLanguage else ModeOf(ops[..|ops| - 1])
      case _ => ModeOf(ops[..|ops| - 1])
  }

  /** The flash: shown by an empty message, cleared by the next one, by request, and by a change of mode. */
  function FlashOf(ops: seq<Op>): Option<string> {
    if ops == [] then None
    else
      var before := ops[..|ops| - 1];
      match ops[|ops| - 1]
      case DoSetMode(mode) => if mode == ModeOf(before) then FlashOf(before) else None
      case DoEnterAsk(_) => if ModeOf(before).NaturalLanguage? then FlashOf(before) else None
      case DoSetPaletteOpen(_) => FlashOf(before)
      case DoSubmit(text) => if Trim(text) == "" then Some("empty message") else None
      case DoClearFlash => None
  }

  function PaletteOf(ops: seq<Op>): bool {
    if ops == [] then false
    else if ops[|ops| - 1].DoSetPaletteOpen? then ops[|ops| - 1].on
    else PaletteOf(ops[..|ops| - 1])
  }

  ghost predicate IsTurn(cells: seq<NotebookCell>, text: string, message: string, n: nat) {
    && message != "" && IsMessage(text, message)
    && cells == [UserMessage("msg-" + Decimal(n + 1), message), AgentTurn("agent-" + Decimal(n + 2), SUMMARY)]
  }

  /** The cells an operation adds after `n` others in the given mode. */
  ghost predicate Adds(cells: seq<NotebookCell>, op: Op, mode: InputMode, n: nat)
    requires ValidOp(op)
  {
    match op
    case DoSubmit(text) => (cells == [] && IsMessage(text, "")) || (exists message :: IsTurn(cells, text, message, n))
    case DoEnterAsk(live) =>
      if mode.Terminal? && live.Some? && HasWork(live.value)
      then cells == [TerminalFreeze("term-" + Decimal(n + 1), Apply(live.value))]
      else cells == []
    case _ => cells == []
  }

  /** The document after the operations but for its timeline. */
  predicate LooksAs(doc: NotebookDocument, ops: seq<Op>) {
    doc.active == ActiveCell(ModeOf(ops), "") && doc.statusFlash == FlashOf(ops) && doc.paletteOpen == PaletteOf(ops)
  }

  lemma {:induction false} DocumentFollows(ops: seq<Op>)
    requires ValidOps(ops)
    ensures LooksAs(Run(ops).doc, ops)
  {
    if ops != [] {
      DocumentFollows(ops[..|ops| - 1]);
    }
  }

  /**
   Every operation leaves the timeline that was there and adds to it: a message, as it was typed but for the white space
   around it, and its turn; the frozen screen when ask mode is entered from a terminal with work on it; or nothing.
   */
  lemma TimelineFollows(ops: seq<Op>, op: Op) returns (cells: seq<NotebookCell>)
    requires ValidOps(ops) && ValidOp(op)
    ensures Next(Run(ops), op).doc.timeline == Run(ops).doc.timeline + cells
    ensures Adds(cells, op, ModeOf(ops), |Run(ops).doc.timeline|)
    ensures Next(Run(ops), op).doc.revision == Run(ops).doc.revision + if cells == [] then 0 else 1
  {
    var s := Run(ops);
    DocumentFollows(ops);
    TimelineInvariant(ops);
    cells := Next(s, op).doc.timeline[|s.doc.timeline|..];
    match op
    case DoSubmit(text) => SubmitAdds(s, text, cells);
    case DoEnterAsk(live) => AskAdds(s, live, cells);
    case _ =>
  }

  lemma SubmitAdds(s: State, text: string, cells: seq<NotebookCell>)
    requires s.count == |s.doc.timeline|
    requires |SubmitUserMessage(s, text).doc.timeline| >= |s.doc.timeline|
    requires cells == SubmitUserMessage(s, text).doc.timeline[|s.doc.timeline|..]
    ensures SubmitUserMessage(s, text).doc.timeline == s.doc.timeline + cells
    ensures Adds(cells, DoSubmit(text), s.doc.active.mode, |s.doc.timeline|)
    ensures cells == [] <==> Trim(text) == ""
  {
    TrimIff(text, Trim(text));
    assert IsMessage(text, Trim(text));
    if Trim(text) != "" {
      assert IsTurn(cells, text, Trim(text), |s.doc.timeline|);
    }
  }

  lemma AskAdds(s: State, live: Option<VtFrame>, cells: seq<NotebookCell>)
    requires s.count == |s.doc.timeline| && (live.Some? ==> WellSized(live.value))
    requires |EnterAsk(s, live).doc.timeline| >= |s.doc.timeline|
    requires cells == EnterAsk(s, live).doc.timeline[|s.doc.timeline|..]
    ensures EnterAsk(s, live).doc.timeline == s.doc.timeline + cells
    ensures Adds(cells, DoEnterAsk(live), s.doc.active.mode, |s.doc.timeline|)
    ensures cells == [] <==> !Freezes(s, live)
  {
    if live.Some? {
      WorthIff(live.value);
    }
  }

  /** Entering ask mode appends a cell exactly if a terminal is shown that has a row of real work. */
  lemma FreezesIff(s: State, live: Option<VtFrame>)
    requires live.Some? ==> WellSized(live.value)
    ensures |EnterAsk(s, live).doc.timeline| == |s.doc.timeline| + 1
      <==> (s.doc.active.mode == Terminal && live.Some?
            && exists y :: 0 <= y < live.value.rows && !RowIsBarePrompt(live.value, y))
  {
    if live.Some? {
      WorthIff(live.value);
    }
  }
}
