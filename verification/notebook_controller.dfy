/**
 The controller as the class it is: each method replaces the document in place, as its operation of Notebook
 says. `ops` is the history of the object, so all that is proved about runs holds of it.
 */
module NotebookControllers {
  import opened Bytes
  import opened Frame
  import opened Texts
  import opened Freeze
  import opened Notebook
  import N = Notebook

  function FrozenOf(live: Option<VtFrame>): Option<VtFrame>
    requires live.Some? ==> WellSized(live.value)
  {
    if live.Some? && IsWorthFreezing(live.value) then Some(Apply(live.value)) else None
  }

  function Asked(s: State, frozen: Option<VtFrame>): State {
    var asking := s.doc.(active := s.doc.active.(mode := NaturalLanguage), statusFlash := None);
    if frozen.Some? then
      State(asking.(timeline := s.doc.timeline + [TerminalFreeze(FreezeId(s.count + 1), frozen.value)],
                    revision := s.doc.revision + 1), s.count + 1)
    else s.(doc := asking)
  }

  lemma AskedIs(s: State, live: Option<VtFrame>, frozen: Option<VtFrame>)
    requires (live.Some? ==> WellSized(live.value)) && frozen == FrozenOf(live)
    requires s.doc.active.mode != NaturalLanguage
    ensures Asked(s, frozen) == N.EnterAsk(s, live) && (frozen.Some? <==> Freezes(s, live))
  {
  }

  class NotebookController {
    var doc: NotebookDocument
    var seqNo: nat
    // all operations so far
    ghost var ops: seq<Op>

    ghost function View(): State
      reads this
    {
      State(doc, seqNo)
    }

    /** The object is what its history makes it. */
    ghost predicate Valid()
      reads this
    {
      ValidOps(ops) && Run(ops) == View()
    }

    constructor ()
      ensures Valid() && ops == []
    {
      ops := [];
      doc := NotebookDocument([], ActiveCell(Terminal, ""), false, None, 0);
      seqNo := 0;
    }

    /** Enters the operation that is about to be done into the history. */
    ghost method Does(op: Op)
      requires Valid() && ValidOp(op)
      modifies this`ops
      ensures ops == old(ops) + [op] && ValidOps(ops)
      ensures Run(ops) == Next(View(), op)
    {
      assert (ops + [op])[..|ops|] == ops;
      ops := ops + [op];
    }

    method SetMode(mode: InputMode)
      requires Valid()
      modifies this
      ensures Valid() && ops == old(ops) + [DoSetMode(mode)]
      ensures View() == N.SetMode(old(View()), mode)
    {
      Does(DoSetMode(mode));
      if doc.active.mode == mode {
        return;
      }
      doc := doc.(active := doc.active.(mode := mode), statusFlash := None);
    }

    method EnterAsk(liveFrame: Option<VtFrame>) returns (froze: bool)
      requires Valid() && (liveFrame.Some? ==> WellSized(liveFrame.value))
      modifies this
      ensures Valid() && ops == old(ops) + [DoEnterAsk(liveFrame)]
      ensures View() == N.EnterAsk(old(View()), liveFrame) && froze == Freezes(old(View()), liveFrame)
    {
      Does(DoEnterAsk(liveFrame));
      if doc.active.mode == NaturalLanguage {
        return false;
      }
      var frozen := FreezeWork(liveFrame);
      Ask(frozen);
      froze := frozen.Some?;
      AskedIs(old(View()), liveFrame, frozen);
    }

    /** The frozen frame, if one is shown that is worth it. */
    method FreezeWork(liveFrame: Option<VtFrame>) returns (frozen: Option<VtFrame>)
      requires liveFrame.Some? ==> WellSized(liveFrame.value)
      ensures frozen == FrozenOf(liveFrame)
    {
      if liveFrame.Some? {
        var worth := CheckWorthFreezing(liveFrame.value);
        if worth {
          var frame := ApplyFreeze(liveFrame.value);
          return Some(frame);
        }
      }
      return None;
    }

    /** Appends the freeze, and turns to ask mode. */
    method Ask(frozen: Option<VtFrame>)
      modifies this`doc, this`seqNo
      ensures View() == Asked(old(View()), frozen)
    {
      var next := doc.timeline;
      if frozen.Some? {
        seqNo := seqNo + 1;
        next := next + [TerminalFreeze(FreezeId(seqNo), frozen.value)];
      }
      doc := doc.(timeline := next, revision := if frozen.Some? then doc.revision + 1 else doc.revision,
                  active := doc.active.(mode := NaturalLanguage), statusFlash := None);
    }

    method EnterTerminal()
      requires Valid()
      modifies this
      ensures Valid() && ops == old(ops) + [DoSetMode(Terminal)]
      ensures View() == N.SetMode(old(View()), Terminal)
    {
      SetMode(Terminal);
    }

    method SetPaletteOpen(on: bool)
      requires Valid()
      modifies this
      ensures Valid() && ops == old(ops) + [DoSetPaletteOpen(on)]
      ensures View() == N.SetPaletteOpen(old(View()), on)
    {
      Does(DoSetPaletteOpen(on));
      if doc.paletteOpen == on {
        return;
      }
      doc := doc.(paletteOpen := on);
    }

    method SubmitUserMessage(text: string) returns (sent: bool)
      requires Valid()
      modifies this
      ensures Valid() && ops == old(ops) + [DoSubmit(text)]
      ensures View() == N.SubmitUserMessage(old(View()), text) && sent == (Trim(text) != "")
    {
      Does(DoSubmit(text));
      var t := Trim(text);
      if t == "" {
        Flash("empty message");
        return false;
      }
      seqNo := seqNo + 1;
      var you := UserMessage(MessageId(seqNo), t);
      seqNo := seqNo + 1;
      var agent := AgentTurn(AgentId(seqNo), SUMMARY);
      doc := doc.(timeline := doc.timeline + [you, agent], revision := doc.revision + 1,
                  active := doc.active.(mode := NaturalLanguage, askDraft := ""), statusFlash := None);
      return true;
    }

    method ClearStatusFlash()
      requires Valid()
      modifies this
      ensures Valid() && ops == old(ops) + [DoClearFlash]
      ensures View() == N.ClearStatusFlash(old(View()))
    {
      Does(DoClearFlash);
      if doc.statusFlash.None? {
        return;
      }
      doc := doc.(statusFlash := None);
    }

    method Flash(message: string)
      modifies this`doc
      ensures View() == old(View()).(doc := old(doc).(statusFlash := Some(message)))
    {
      doc := doc.(statusFlash := Some(message));
    }
  }
}
