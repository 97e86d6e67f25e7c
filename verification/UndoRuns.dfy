/** Undo and redo over whole editing sessions. */
module UndoRuns {
  import opened Bytes
  import opened UndoSpec
  import opened UndoTheorems

  // ---- Edits ----

  /** Whether a deletion of n bytes gets a record: the table has room, or the history restarts. */
  predicate RecordsDelete(l: Log, n: nat)
    requires l.cursor <= |l.recs|
  {
    var t := Truncate(l);
    t.used + n > |t.arena| || |t.recs| < REC_CAP
  }

  /** The history after a deletion: one more text, or a restart when the arena is full. */
  function TextsAfterDelete(e: Editor, texts: seq<Text>, lo: nat, hi: nat): seq<Text>
    requires Ready(e) && lo <= hi <= |e.text| && |texts| > e.log.cursor
  {
    var after := Cut(e.text, lo, hi - lo);
    if Truncate(e.log).used + (hi - lo) > |e.log.arena| then [e.text, after]
    else texts[..e.log.cursor + 1] + [after]
  }

  /** The history after an insertion: the last text replaced, one more text, or a restart. */
  function PutTexts(l: Log, texts: seq<Text>, pos: nat, after: Text): seq<Text>
    requires l.cursor <= |l.recs| && |texts| > l.cursor
  {
    var t := Truncate(l);
    if Merges(t, pos, 1) then texts[..l.cursor] + [after]
    else if |t.recs| >= REC_CAP then [texts[l.cursor], after]
    else if t.used + 1 > |t.arena| then [after]
    else texts[..l.cursor + 1] + [after]
  }

  function TextsAfterPut(e: Editor, texts: seq<Text>, b: Byte): seq<Text>
    requires Ready(e) && |texts| > e.log.cursor
  {
    if |e.text| + 1 >= CODE_CAP - 1 then texts else PutTexts(e.log, texts, e.caret, Splice(e.text, e.caret, [b]))
  }

  lemma LogBounds(l: Log, texts: seq<Text>, redo: bool)
    requires ExactLog(l, texts, redo)
    ensures l.cursor <= |l.recs| && l.used <= |l.arena| && |texts| == |l.recs| + 1
  {
    hide Joins, Layout;
  }

  /** A deletion pushed onto an exact log, record by record. */
  lemma PushDeleteExact(l: Log, texts: seq<Text>, redo: bool, pos: nat, bytes: Text, caret: nat, after: Text)
    requires ExactLog(l, texts, redo) && (redo ==> Disciplined(l)) && 1 <= |bytes| <= |l.arena|
    requires |texts| > l.cursor && pos + |bytes| <= |texts[l.cursor]| && RecordsDelete(l, |bytes|)
    requires bytes == texts[l.cursor][pos..pos + |bytes|] && after == Cut(texts[l.cursor], pos, |bytes|)
    ensures ExactLog(PushDelete(l, pos, bytes, caret),
      if Truncate(l).used + |bytes| > |l.arena| then [texts[l.cursor], after] else texts[..l.cursor + 1] + [after], redo)
  {
    hide ExactLog, Truncate, Append, Cut;
    LogBounds(l, texts, redo);
    var t, past := Truncate(l), texts[..l.cursor + 1];
    TruncateExact(l, texts, redo);
    TruncateFacts(l);
    if t.used + |bytes| > |t.arena| {
      ResetExact(t, texts[l.cursor], redo);
      AppendExact(Reset(t), [texts[l.cursor]], redo, Delete, pos, bytes, caret, after);
      assert [texts[l.cursor]] + [after] == [texts[l.cursor], after];
    } else {
      AppendExact(t, past, redo, Delete, pos, bytes, caret, after);
    }
  }

  /** An unrecorded deletion leaves the log one text short. */
  lemma PushDeleteUnrecorded(l: Log, texts: seq<Text>, redo: bool, pos: nat, bytes: Text, caret: nat, after: Text)
    requires l.cursor <= |l.recs| && |texts| > l.cursor && |bytes| <= |l.arena| && !RecordsDelete(l, |bytes|)
    ensures !ExactLog(PushDelete(l, pos, bytes, caret), texts[..l.cursor + 1] + [after], redo)
  {
    hide Truncate, Append, Joins, Layout;
    TruncateFacts(l);
  }

  lemma PushDeleteSize(l: Log, pos: nat, bytes: Text, caret: nat)
    requires l.cursor <= |l.recs| <= REC_CAP && |bytes| <= |l.arena| && l.used <= |l.arena|
    ensures var r := PushDelete(l, pos, bytes, caret);
      && r.cursor <= |r.recs| <= REC_CAP && |r.arena| == |l.arena| && r.used <= |r.arena|
      && (RecordsDelete(l, |bytes|) ==> r.cursor == |r.recs|)
      && r.cursor == if Truncate(l).used + |bytes| > |l.arena| then 1
                     else if RecordsDelete(l, |bytes|) then l.cursor + 1 else l.cursor
  {
    hide Truncate;
    TruncateFacts(l);
    TruncateUsed(l);
  }

  lemma TruncateUsed(l: Log)
    requires l.cursor <= |l.recs| && l.used <= |l.arena|
    ensures l.cursor == |l.recs| ==> Truncate(l).used <= |l.arena|
  {
  }

  lemma DeleteReady(e: Editor, lo: nat, hi: nat)
    requires Ready(e) && lo < hi <= |e.text|
    ensures Ready(DeleteRange(e, lo, hi))
  {
    hide PushDelete;
    PushDeleteSize(e.log, lo, e.text[lo..hi], e.caret);
  }

  lemma DeleteExact(e: Editor, texts: seq<Text>, redo: bool, lo: nat, hi: nat)
    requires Ready(e) && Exact(e, texts, redo) && lo < hi <= |e.text| && (redo ==> Disciplined(e.log))
    requires RecordsDelete(e.log, hi - lo)
    ensures |texts| > e.log.cursor && Exact(DeleteRange(e, lo, hi), TextsAfterDelete(e, texts, lo, hi), redo)
  {
    var bytes, after := e.text[lo..hi], Cut(e.text, lo, hi - lo);
    ExactNow(e, texts, redo);
    PushDeleteSize(e.log, lo, bytes, e.caret);
    assert ExactLog(e.log, texts, redo);
    PushDeleteExact(e.log, texts, redo, lo, bytes, e.caret, after);
    hide PushDelete, Truncate, RecordsDelete, ExactLog, Disciplined;
  }

  lemma DeleteInexact(e: Editor, texts: seq<Text>, redo: bool, lo: nat, hi: nat)
    requires Ready(e) && lo < hi <= |e.text| && |texts| > e.log.cursor && !RecordsDelete(e.log, hi - lo)
    ensures !Exact(DeleteRange(e, lo, hi), TextsAfterDelete(e, texts, lo, hi), redo)
  {
    hide PushDelete, Truncate, RecordsDelete, ExactLog;
    var bytes, after := e.text[lo..hi], Cut(e.text, lo, hi - lo);
    NotRecordedMeansRoom(e.log, |bytes|);
    PushDeleteUnrecorded(e.log, texts, redo, lo, bytes, e.caret, after);
  }

  /** A deletion is recorded exactly, if and only if it gets a record at all. */
  lemma DeleteExactIff(e: Editor, texts: seq<Text>, redo: bool, lo: nat, hi: nat)
    requires Ready(e) && Exact(e, texts, redo) && lo < hi <= |e.text|
    requires redo ==> Disciplined(e.log)
    ensures Ready(DeleteRange(e, lo, hi))
    ensures |texts| > e.log.cursor
    ensures Exact(DeleteRange(e, lo, hi), TextsAfterDelete(e, texts, lo, hi), redo) <==> RecordsDelete(e.log, hi - lo)
  {
    hide Exact, DeleteRange, TextsAfterDelete, RecordsDelete, Disciplined;
    DeleteReady(e, lo, hi);
    ExactNow(e, texts, redo);
    if RecordsDelete(e.log, hi - lo) {
      DeleteExact(e, texts, redo, lo, hi);
    } else {
      DeleteInexact(e, texts, redo, lo, hi);
    }
  }

  lemma NotRecordedMeansRoom(l: Log, n: nat)
    requires l.cursor <= |l.recs| && !RecordsDelete(l, n)
    ensures Truncate(l).used + n <= |l.arena|
  {
    TruncateFacts(l);
  }

  lemma ChainLength(e: Editor, texts: seq<Text>, redo: bool)
    ensures Exact(e, texts, redo) ==> |texts| == |e.log.recs| + 1
  {
  }

  lemma TruncateFacts(l: Log)
    requires l.cursor <= |l.recs|
    ensures var t := Truncate(l);
      t.cursor == |t.recs| == l.cursor && t.recs == l.recs[..l.cursor] && t.arena == l.arena
  {
  }

  /** The three ways an insertion is recorded in a truncated log. */
  lemma InsertExact(t: Log, past: seq<Text>, redo: bool, pos: nat, bytes: Text, after: Text)
    requires ExactLog(t, past, redo) && t.cursor == |t.recs| && |bytes| == 1 && |t.arena| >= 1
    requires pos <= |past[|t.recs|]| && after == Splice(past[|t.recs|], pos, bytes)
    requires redo ==> MergeFits(t, pos, 1)
    ensures ExactLog(PushInsert(t, pos, bytes, pos), PutTexts(t, past, pos, after), redo)
  {
    hide *;
    ExactLogLength(t, past, redo);
    InsertParts(t, past, pos, bytes, after);
    if Merges(t, pos, 1) {
      MergesIsMergeable(t, past, redo, pos, bytes, after);
      MergeExact(t, past, redo, bytes, after);
    } else if |t.recs| >= REC_CAP {
      ResetExact(t, past[|t.recs|], redo);
      AppendExact(Reset(t), [past[|t.recs|]], redo, Insert, pos, bytes, pos, after);
    } else if t.used + 1 > |t.arena| {
      ResetExact(t, after, redo);
    } else {
      ExactLogUsed(t, past, redo);
      AppendExact(t, past, redo, Insert, pos, bytes, pos, after);
    }
  }

  lemma ExactLogUsed(l: Log, texts: seq<Text>, redo: bool)
    requires ExactLog(l, texts, redo)
    ensures l.used <= |l.arena|
  {
    hide Chain, Layout;
  }

  /** A typed byte's record and the history it makes, case by case. */
  lemma InsertParts(t: Log, past: seq<Text>, pos: nat, bytes: Text, after: Text)
    requires t.cursor == |t.recs| && |past| == |t.recs| + 1 && |bytes| == 1 && |t.arena| >= 1
    ensures Merges(t, pos, 1) ==>
      t.recs != [] && PushInsert(t, pos, bytes, pos) == Merge(t, bytes) && PutTexts(t, past, pos, after) == past[|t.recs| := after]
    ensures !Merges(t, pos, 1) && |t.recs| >= REC_CAP ==>
      && Reset(t).recs == [] && Reset(t).cursor == 0 && Reset(t).used == 0 && Reset(t).arena == t.arena
      && PushInsert(t, pos, bytes, pos) == Append(Reset(t), Insert, pos, bytes, pos)
      && PutTexts(t, past, pos, after) == [past[|t.recs|]] + [after]
    ensures !Merges(t, pos, 1) && |t.recs| < REC_CAP && t.used + 1 > |t.arena| ==>
      PushInsert(t, pos, bytes, pos) == Reset(t) && PutTexts(t, past, pos, after) == [after]
    ensures !Merges(t, pos, 1) && |t.recs| < REC_CAP && t.used + 1 <= |t.arena| ==>
      PushInsert(t, pos, bytes, pos) == Append(t, Insert, pos, bytes, pos) && PutTexts(t, past, pos, after) == past + [after]
  {
    assert Truncate(t) == t;
    assert past[|t.recs| := after] == past[..|t.recs|] + [after] && past[..|t.recs| + 1] == past;
    hide Truncate, HighWater, Append, Merge;
  }

  lemma MergesIsMergeable(t: Log, past: seq<Text>, redo: bool, pos: nat, bytes: Text, after: Text)
    requires ExactLog(t, past, redo) && t.cursor == |t.recs| && |bytes| == 1 && Merges(t, pos, 1)
    requires pos <= |past[|t.recs|]| && after == Splice(past[|t.recs|], pos, bytes)
    requires redo ==> MergeFits(t, pos, 1)
    ensures Mergeable(t, past, redo, bytes, after)
  {
    hide ExactLog, Splice, HighWater;
  }

  lemma TruncateOnce(l: Log, pos: nat, bytes: Text)
    requires l.cursor <= |l.recs|
    ensures var t := Truncate(l);
      t.cursor == |t.recs| && MergeFits(t, pos, |bytes|) == MergeFits(l, pos, |bytes|) && PushInsert(t, pos, bytes, pos) == PushInsert(l, pos, bytes, pos)
  {
    hide HighWater;
    TruncateFacts(l);
  }

  /** With every record's bytes apart, no merge leaves the arena, over a redo tail or not. */
  lemma ExactMergeFits(l: Log, texts: seq<Text>, pos: nat)
    requires ExactLog(l, texts, true)
    ensures MergeFits(l, pos, 1)
  {
    if 0 < l.cursor < |l.recs| {
      var top, next := l.cursor - 1, l.cursor;
      assert Joins(l.recs[next], l.arena, texts[next], texts[next + 1], true);
      assert l.recs[top].End() <= l.recs[next].off && l.recs[next].End() <= l.used;
    }
    hide HighWater, Joins;
  }

  lemma PutExact(e: Editor, texts: seq<Text>, redo: bool, b: Byte)
    requires Ready(e) && Exact(e, texts, redo)
    requires redo ==> Disciplined(e.log)
    ensures |texts| > e.log.cursor && Exact(PutByte(e, b), TextsAfterPut(e, texts, b), redo)
  {
    ExactNow(e, texts, redo);
    if |e.text| + 1 < CODE_CAP - 1 {
      var after := Splice(e.text, e.caret, [b]);
      TruncateFacts(e.log);
      assert ExactLog(e.log, texts, redo);
      PutLogExact(e.log, texts, redo, e.caret, [b], after);
      PutCursor(e.log, e.caret, [b]);
      PutShort(e, texts, redo, b);
      hide ExactLog, PushInsert, Merges, Truncate, Splice;
    }
  }

  /** The log and the history after a recorded insertion. */
  lemma PutLogExact(l: Log, texts: seq<Text>, redo: bool, pos: nat, bytes: Text, after: Text)
    requires ExactLog(l, texts, redo) && (redo ==> Disciplined(l)) && |bytes| == 1 && |l.arena| >= 1
    requires |texts| > l.cursor && pos <= |texts[l.cursor]| && after == Splice(texts[l.cursor], pos, bytes)
    ensures ExactLog(PushInsert(l, pos, bytes, pos), PutTexts(l, texts, pos, after), redo)
  {
    var t, past := Truncate(l), texts[..l.cursor + 1];
    TruncateExact(l, texts, redo);
    TruncateFacts(l);
    TruncateOnce(l, pos, bytes);
    if redo {
      ExactMergeFits(l, texts, pos);
    }
    PutTextsTruncated(l, texts, pos, after);
    hide *;
    InsertExact(t, past, redo, pos, bytes, after);
  }

  lemma PutTextsTruncated(l: Log, texts: seq<Text>, pos: nat, after: Text)
    requires l.cursor <= |l.recs| && |texts| > l.cursor
    ensures var t, past := Truncate(l), texts[..l.cursor + 1];
      t.cursor <= |t.recs| && t.cursor < |past| && PutTexts(t, past, pos, after) == PutTexts(l, texts, pos, after)
  {
    TruncateFacts(l);
    var past := texts[..l.cursor + 1];
    assert past[..l.cursor] == texts[..l.cursor] && past[..l.cursor + 1] == past;
    hide HighWater, Merges;
  }

  lemma PutShort(e: Editor, texts: seq<Text>, redo: bool, b: Byte)
    requires Ready(e) && Exact(e, texts, redo) && |e.text| + 1 < CODE_CAP - 1 && |texts| > e.log.cursor
    ensures Short(PutTexts(e.log, texts, e.caret, Splice(e.text, e.caret, [b])))
  {
    hide Truncate, Merges, ExactLog;
  }

  /** Recording leaves nothing to redo. */
  lemma PutCursor(l: Log, pos: nat, bytes: Text)
    requires l.cursor <= |l.recs|
    ensures var r := PushInsert(l, pos, bytes, pos); r.cursor == |r.recs|
  {
    TruncateFacts(l);
  }

  lemma ReadyAfterPut(e: Editor, b: Byte)
    requires Ready(e)
    ensures Ready(PutByte(e, b))
  {
    if |e.text| + 1 < CODE_CAP - 1 {
      TruncateFacts(e.log);
    }
  }

  // ---- Sessions ----

  /** `Place` stands for every caret move and selection change, by key or by mouse. */
  datatype Op = Type(b: Byte) | Backspace | Erase | Undo | Redo | Place(caret: nat, selActive: bool, selAnchor: nat)

  /** What a range deletion needs to be recorded (and, with redo, where it may happen). */
  predicate DeleteAllowed(e: Editor, lo: nat, hi: nat, redo: bool)
    requires Ready(e)
  {
    lo < hi <= |e.text| && RecordsDelete(e.log, hi - lo) && (redo ==> Disciplined(e.log))
  }

  predicate EraseAllowed(e: Editor, redo: bool)
    requires Ready(e)
  {
    HasSelection(e) ==> DeleteAllowed(e, SelLo(e), SelHi(e), redo)
  }

  /** What the operation itself asks of the editor. */
  ghost predicate Possible(e: Editor, op: Op)
    ensures Possible(e, op) ==> Ready(e)
  {
    Ready(e) &&
    match op
    case Type(_) => Ready(DeleteSelection(e))
    case Backspace => true
    case Erase => true
    case Undo => UndoFits(e)
    case Redo => RedoFits(e)
    case Place(caret, selActive, selAnchor) => caret <= |e.text| && (selActive ==> selAnchor <= |e.text|)
  }

  /** A possible operation whose deletion is recorded, and with redo is edited in where `Disciplined` allows. */
  ghost predicate Allowed(e: Editor, op: Op, redo: bool)
    ensures Allowed(e, op, redo) ==> Possible(e, op)
  {
    Possible(e, op) &&
    match op
    case Type(_) => EraseAllowed(e, redo) && (redo ==> Disciplined(DeleteSelection(e).log))
    case Backspace =>
      EraseAllowed(e, redo) &&
      (!HasSelection(e) && e.caret > 0 ==> DeleteAllowed(e, e.caret - 1, e.caret, redo))
    case Erase => EraseAllowed(e, redo)
    case Undo => true
    case Redo => redo
    case Place(_, _, _) => true
  }

  ghost function Step(e: Editor, op: Op): Editor
    requires Possible(e, op)
  {
    match op
    case Type(b) => TypeByte(e, b)
    case Backspace => UndoSpec.Backspace(e)
    case Erase => DeleteSelection(e)
    case Undo => UndoSpec.Undo(e)
    case Redo => UndoSpec.Redo(e)
    case Place(caret, selActive, selAnchor) => e.(caret := caret, selActive := selActive, selAnchor := selAnchor)
  }

  ghost function TextsAfterErase(e: Editor, texts: seq<Text>): seq<Text>
    requires Ready(e) && |texts| > e.log.cursor
  {
    if HasSelection(e) then TextsAfterDelete(e, texts, SelLo(e), SelHi(e)) else texts
  }

  /** The list of texts the history is meant to step through, after one operation. */
  ghost function NextTexts(e: Editor, texts: seq<Text>, op: Op): seq<Text>
    requires Ready(e) && |texts| > e.log.cursor
  {
    match op
    case Type(b) =>
      var past := TextsAfterErase(e, texts);
      var d := DeleteSelection(e);
      if Ready(d) && |past| > d.log.cursor then TextsAfterPut(d, past, b) else past
    case Backspace =>
      if HasSelection(e) || e.caret == 0 then TextsAfterErase(e, texts) else TextsAfterDelete(e, texts, e.caret - 1, e.caret)
    case Erase => TextsAfterErase(e, texts)
    case Undo => texts
    case Redo => texts
    case Place(_, _, _) => texts
  }

  lemma SelectionExact(e: Editor, texts: seq<Text>, redo: bool)
    requires Ready(e) && Exact(e, texts, redo) && EraseAllowed(e, redo)
    ensures Ready(DeleteSelection(e)) && Exact(DeleteSelection(e), TextsAfterErase(e, texts), redo)
  {
    if HasSelection(e) {
      DeleteExactIff(e, texts, redo, SelLo(e), SelHi(e));
    }
  }

  lemma ReadyAfterUndo(e: Editor, texts: seq<Text>, redo: bool)
    requires Ready(e) && Exact(e, texts, redo) && e.log.cursor > 0
    ensures UndoFits(e) && Ready(UndoSpec.Undo(e)) && Exact(UndoSpec.Undo(e), texts, redo)
  {
    ExactIsShown(e, texts, redo);
    UndoSteps(e, texts, redo);
    ExactCursorMoves(e, UndoSpec.Undo(e), texts, redo, e.log.cursor - 1);
    var k := e.log.cursor - 1;
    assert Joins(e.log.recs[k], e.log.arena, texts[k], texts[k + 1], redo);
  }

  lemma ReadyAfterRedo(e: Editor, texts: seq<Text>)
    requires Ready(e) && Exact(e, texts, true) && e.log.cursor < |e.log.recs|
    ensures RedoFits(e) && Ready(UndoSpec.Redo(e)) && Exact(UndoSpec.Redo(e), texts, true)
  {
    var k := e.log.cursor;
    assert Joins(e.log.recs[k], e.log.arena, texts[k], texts[k + 1], true);
    ExactIsIntact(e, texts);
    RedoSteps(e, texts);
    ExactCursorMoves(e, UndoSpec.Redo(e), texts, true, k + 1);
  }

  lemma TypeExact(e: Editor, texts: seq<Text>, b: Byte, redo: bool)
    requires Exact(e, texts, redo) && Allowed(e, Type(b), redo)
    ensures Ready(TypeByte(e, b)) && Exact(TypeByte(e, b), NextTexts(e, texts, Type(b)), redo)
  {
    hide Exact, PutByte, TextsAfterPut, TextsAfterErase, DeleteSelection, DeleteAllowed;
    ExactNow(e, texts, redo);
    SelectionExact(e, texts, redo);
    var d := DeleteSelection(e);
    ReadyAfterPut(d, b);
    PutExact(d, TextsAfterErase(e, texts), redo, b);
    ExactNow(d, TextsAfterErase(e, texts), redo);
  }

  lemma EraseExact(e: Editor, texts: seq<Text>, op: Op, redo: bool)
    requires Exact(e, texts, redo) && Allowed(e, op, redo) && (op.Backspace? || op.Erase?)
    ensures Ready(Step(e, op)) && Exact(Step(e, op), NextTexts(e, texts, op), redo)
  {
    hide DeleteRange, TextsAfterDelete, Chain, Layout, RecordsDelete;
    SelectionExact(e, texts, redo);
    if op.Backspace? && !HasSelection(e) && e.caret > 0 {
      DeleteExactIff(e, texts, redo, e.caret - 1, e.caret);
    }
  }

  lemma MoveExact(e: Editor, texts: seq<Text>, op: Op, redo: bool)
    requires Exact(e, texts, redo) && Allowed(e, op, redo) && (op.Undo? || op.Redo? || op.Place?)
    ensures Ready(Step(e, op)) && Exact(Step(e, op), NextTexts(e, texts, op), redo)
  {
    hide Chain, Layout;
    if op.Undo? && e.log.cursor > 0 {
      ReadyAfterUndo(e, texts, redo);
    } else if op.Redo? && e.log.cursor < |e.log.recs| {
      ReadyAfterRedo(e, texts);
    }
  }

  /** Every operation keeps the history exact. */
  lemma StepExact(e: Editor, texts: seq<Text>, op: Op, redo: bool)
    requires Exact(e, texts, redo) && Allowed(e, op, redo)
    ensures |texts| > e.log.cursor && Ready(Step(e, op)) && Exact(Step(e, op), NextTexts(e, texts, op), redo)
  {
    hide Exact, Allowed, Possible, NextTexts, TypeByte;
    ExactNow(e, texts, redo);
    if op.Type? {
      TypeExact(e, texts, op.b, redo);
    } else if op.Backspace? || op.Erase? {
      EraseExact(e, texts, op, redo);
    } else {
      MoveExact(e, texts, op, redo);
    }
  }

  ghost predicate Session(e: Editor, ops: seq<Op>, redo: bool)
    decreases |ops|
  {
    ops == [] || (Allowed(e, ops[0], redo) && Session(Step(e, ops[0]), ops[1..], redo))
  }

  ghost function After(e: Editor, ops: seq<Op>, redo: bool): Editor
    requires Session(e, ops, redo)
    decreases |ops|
  {
    if ops == [] then e else After(Step(e, ops[0]), ops[1..], redo)
  }

  ghost function TextsAfter(e: Editor, texts: seq<Text>, ops: seq<Op>, redo: bool): seq<Text>
    requires Session(e, ops, redo) && |texts| > e.log.cursor && Exact(e, texts, redo)
    decreases |ops|
  {
    if ops == [] then texts
    else
      StepExact(e, texts, ops[0], redo);
      TextsAfter(Step(e, ops[0]), NextTexts(e, texts, ops[0]), ops[1..], redo)
  }

  lemma {:induction false} SessionExact(e: Editor, texts: seq<Text>, ops: seq<Op>, redo: bool)
    requires Exact(e, texts, redo) && Session(e, ops, redo)
    ensures Exact(After(e, ops, redo), TextsAfter(e, texts, ops, redo), redo)
    decreases |ops|
  {
    if ops != [] {
      StepExact(e, texts, ops[0], redo);
      hide Exact, Allowed, Step, NextTexts;
      SessionExact(Step(e, ops[0]), NextTexts(e, texts, ops[0]), ops[1..], redo);
    }
  }

  /** An editor with a freshly loaded text and an empty history. */
  predicate Loaded(e: Editor) {
    |e.text| <= CODE_CAP - 2 && e.caret <= |e.text| && !e.selActive &&
    e.log == Log([], 0, e.log.arena, 0) && |e.log.arena| == ARENA_CAP
  }

  /**
   Sessions of edits and undos, branching freely after an undo: k undos always show the
   text the history promises, although truncation hands bytes of live insertions to later
   records.
   */
  lemma UndoIsExact(e: Editor, ops: seq<Op>, k: nat)
    requires Loaded(e) && Session(e, ops, false)
    ensures Exact(e, [e.text], false) && e.log.cursor == 0
    ensures var r := After(e, ops, false);
      k <= r.log.cursor ==>
        && r.log.cursor - k < |TextsAfter(e, [e.text], ops, false)|
        && CanUndo(r, k) && UndoTimes(r, k).text == TextsAfter(e, [e.text], ops, false)[r.log.cursor - k]
  {
    hide *;
    LoadedExact(e, false);
    SessionExact(e, [e.text], ops, false);
    var r := After(e, ops, false);
    if k <= r.log.cursor {
      ExactIsShown(r, TextsAfter(e, [e.text], ops, false), false);
      UndoTimesShows(r, TextsAfter(e, [e.text], ops, false), false, k);
    }
  }

  lemma LoadedExact(e: Editor, redo: bool)
    requires Loaded(e)
    ensures Exact(e, [e.text], redo) && e.log.cursor == 0
  {
  }

  /** Sessions with redo, edited over a redo tail only where `Disciplined` allows: k undos and k redos cancel. */
  lemma RedoIsExact(e: Editor, ops: seq<Op>, k: nat)
    requires Loaded(e) && Session(e, ops, true)
    ensures var r := After(e, ops, true);
      k <= r.log.cursor ==>
        && CanUndo(r, k) && CanRedo(UndoTimes(r, k), k)
        && RedoTimes(UndoTimes(r, k), k).text == r.text
  {
    hide *;
    LoadedExact(e, true);
    SessionExact(e, [e.text], ops, true);
    var r := After(e, ops, true);
    if k <= r.log.cursor {
      ExactNow(r, TextsAfter(e, [e.text], ops, true), true);
      ExactIsIntact(r, TextsAfter(e, [e.text], ops, true));
      UndoThenRedo(r, TextsAfter(e, [e.text], ops, true), k);
    }
  }

  // ---- The history holds texts that were really shown ----

  /** The texts on screen while `op` runs: typing over a selection shows the shortened text first. */
  ghost predicate Shows(e: Editor, op: Op, text: Text)
    requires Possible(e, op)
  {
    text == e.text || text == DeleteSelection(e).text || text == Step(e, op).text
  }

  lemma DeleteShown(e: Editor, texts: seq<Text>, lo: nat, hi: nat, text: Text)
    requires Ready(e) && lo <= hi <= |e.text| && |texts| > e.log.cursor
    requires text in TextsAfterDelete(e, texts, lo, hi)
    ensures text in texts || text == e.text || text == DeleteRange(e, lo, hi).text
  {
    hide PushDelete, Truncate, Cut;
  }

  lemma PutShown(e: Editor, texts: seq<Text>, b: Byte, text: Text)
    requires Ready(e) && |texts| > e.log.cursor
    requires text in TextsAfterPut(e, texts, b)
    ensures text in texts || text == e.text || text == PutByte(e, b).text
  {
    hide PushInsert, Truncate, Splice, Merges;
  }

  lemma EraseShown(e: Editor, texts: seq<Text>, text: Text)
    requires Ready(e) && |texts| > e.log.cursor && text in TextsAfterErase(e, texts)
    ensures text in texts || text == e.text || text == DeleteSelection(e).text
  {
    if HasSelection(e) {
      DeleteShown(e, texts, SelLo(e), SelHi(e), text);
    }
  }

  lemma NextTextsShown(e: Editor, texts: seq<Text>, op: Op, redo: bool, text: Text)
    requires Exact(e, texts, redo) && Allowed(e, op, redo) && text in NextTexts(e, texts, op)
    ensures text in texts || Shows(e, op, text)
  {
    match op {
      case Type(b) =>
        SelectionExact(e, texts, redo);
        var past, d := TextsAfterErase(e, texts), DeleteSelection(e);
        ChainLength(d, past, redo);
        hide TextsAfterErase, DeleteSelection, TextsAfterPut, PutByte, Chain, Layout;
        PutShown(d, past, b, text);
        if text in past {
          EraseShown(e, texts, text);
        }
      case Backspace =>
        hide DeleteRange, TextsAfterDelete, Chain, Layout;
        if HasSelection(e) || e.caret == 0 {
          EraseShown(e, texts, text);
        } else {
          DeleteShown(e, texts, e.caret - 1, e.caret, text);
        }
      case Erase =>
        hide DeleteSelection, TextsAfterErase, Chain, Layout;
        EraseShown(e, texts, text);
      case _ =>
    }
  }

  ghost predicate ShownDuring(e: Editor, ops: seq<Op>, redo: bool, text: Text)
    requires Session(e, ops, redo)
    decreases |ops|
  {
    text == e.text ||
    (ops != [] && (Shows(e, ops[0], text) || ShownDuring(Step(e, ops[0]), ops[1..], redo, text)))
  }

  /** Every text the history promises was on screen at some point of the session. */
  lemma {:induction false} HistoryWasShown(e: Editor, texts: seq<Text>, ops: seq<Op>, redo: bool, text: Text)
    requires Exact(e, texts, redo) && Session(e, ops, redo)
    requires text in TextsAfter(e, texts, ops, redo)
    ensures text in texts || ShownDuring(e, ops, redo, text)
    decreases |ops|
  {
    if ops != [] {
      StepExact(e, texts, ops[0], redo);
      hide Exact, Allowed, Step, NextTexts, Shows;
      HistoryWasShown(Step(e, ops[0]), NextTexts(e, texts, ops[0]), ops[1..], redo, text);
      if text in NextTexts(e, texts, ops[0]) {
        NextTextsShown(e, texts, ops[0], redo, text);
      }
    }
  }

  // ---- Where exactness ends ----

  /** A deletion can be undone if and only if the text was at most 65534 bytes long. */
  lemma DeletionUndoneIff(e: Editor, lo: nat, hi: nat)
    requires Ready(e) && lo < hi <= |e.text| && RecordsDelete(e.log, hi - lo)
    ensures UndoFits(DeleteRange(e, lo, hi))
    ensures UndoSpec.Undo(DeleteRange(e, lo, hi)).text == e.text <==> |e.text| <= CODE_CAP - 2
  {
    var bytes := e.text[lo..hi];
    var t := Truncate(e.log);
    TruncateFacts(e.log);
    var u := if t.used + |bytes| > |t.arena| then Reset(t) else t;
    OverwriteStores(u.arena, u.used, bytes);
    SpliceUndoesCut(e.text, lo, hi - lo);
    AppendLast(u, lo, bytes, e.caret);
    hide Truncate, HighWater, Append;
  }

  lemma AppendLast(l: Log, pos: nat, bytes: Text, caretBefore: nat)
    requires l.used + |bytes| <= |l.arena|
    ensures var r := Append(l, Delete, pos, bytes, caretBefore);
      && r.cursor == |r.recs| && r.cursor > 0 && |r.arena| == |l.arena|
      && r.recs[r.cursor - 1] == Rec(Delete, pos, |bytes|, l.used, caretBefore, false)
      && r.arena[l.used..l.used + |bytes|] == bytes
  {
    OverwriteStores(l.arena, l.used, bytes);
  }

  /** After an unrecorded deletion the next undo shows a text short of exactly the deleted bytes. */
  lemma UnrecordedUndo(e: Editor, texts: seq<Text>, lo: nat, hi: nat)
    requires Ready(e) && Exact(e, texts, false) && lo < hi <= |e.text| && !RecordsDelete(e.log, hi - lo)
    ensures var d := DeleteRange(e, lo, hi);
      && d.log.cursor == e.log.cursor > 0 && |texts| > e.log.cursor
      && (UndoFits(d) ==> |UndoSpec.Undo(d).text| == |texts[e.log.cursor - 1]| - (hi - lo))
  {
    hide Exact, Shown, Joins, PushDelete, UndoFits, UndoSpec.Undo, RecordsDelete;
    var d, c := DeleteRange(e, lo, hi), e.log.cursor;
    UnrecordedLog(e.log, lo, e.text[lo..hi], e.caret);
    ExactNow(e, texts, false);
    ExactIsShown(e, texts, false);
    RecordJoins(e, texts, false, c - 1);
    UndoneLength(d, e.log.recs[c - 1], e.log.arena, texts[c - 1], texts[c], hi - lo);
  }

  lemma UnrecordedLog(l: Log, pos: nat, bytes: Text, caret: nat)
    requires l.cursor <= |l.recs| && |bytes| <= |l.arena| && !RecordsDelete(l, |bytes|)
    ensures var r := PushDelete(l, pos, bytes, caret);
      && r.cursor == |r.recs| == l.cursor > 0 && r.recs[l.cursor - 1] == l.recs[l.cursor - 1] && r.arena == l.arena
  {
    hide Truncate, Append;
    TruncateFacts(l);
  }

  /** Undoing a record from a text n bytes shorter than the record left. */
  lemma UndoneLength(d: Editor, r: Rec, arena: Text, before: Text, after: Text, n: nat)
    requires 0 < d.log.cursor <= |d.log.recs| && d.log.recs[d.log.cursor - 1] == r
    requires Joins(r, arena, before, after, false) && |before| <= CODE_CAP - 2 && |d.text| == |after| - n
    requires d.log.arena == arena && n <= |after|
    ensures UndoFits(d) ==> |UndoSpec.Undo(d).text| == |before| - n
  {
  }

  /** The next undo shows the text the history has before the deletion if and only if the deletion was recorded. */
  lemma DeleteUndoneIff(e: Editor, texts: seq<Text>, lo: nat, hi: nat)
    requires Ready(e) && Exact(e, texts, false) && lo < hi <= |e.text|
    ensures |texts| > e.log.cursor
    ensures var d, past := DeleteRange(e, lo, hi), TextsAfterDelete(e, texts, lo, hi);
      && 0 < d.log.cursor <= |past|
      && (UndoFits(d) && UndoSpec.Undo(d).text == past[d.log.cursor - 1] <==> RecordsDelete(e.log, hi - lo))
  {
    hide Exact, Shown, Truncate, PushDelete, UndoFits, UndoSpec.Undo, RecordsDelete;
    ExactNow(e, texts, false);
    var d, past := DeleteRange(e, lo, hi), TextsAfterDelete(e, texts, lo, hi);
    PushDeleteSize(e.log, lo, e.text[lo..hi], e.caret);
    if RecordsDelete(e.log, hi - lo) {
      DeleteExact(e, texts, false, lo, hi);
      ExactIsShown(d, past, false);
      ExactNow(d, past, false);
      UndoSteps(d, past, false);
    } else {
      UnrecordedUndo(e, texts, lo, hi);
      NotRecordedMeansRoom(e.log, hi - lo);
    }
  }

  /** The layout of a truncated log with one more record. */
  lemma AppendedLayoutIff(recs: seq<Rec>, used: nat, r: Rec)
    requires forall i, j :: 0 <= i < j < |recs| ==> recs[i].End() <= recs[j].off
    requires forall i :: 0 <= i < |recs| ==> recs[i].len >= 1
    requires r.off == used
    ensures Layout(recs + [r], used + r.len, true) <==> (recs == [] || recs[|recs| - 1].End() <= used)
  {
    var more := recs + [r];
    assert forall i :: 0 <= i < |recs| ==> more[i] == recs[i];
    if recs != [] {
      var last := |recs| - 1;
      assert forall i :: 0 <= i < last ==> recs[i].End() <= recs[last].off;
      if recs[last].End() > used {
        assert more[last].End() > more[|recs|].off;
      }
    }
  }

  /** After truncation the high-water mark clears the last survivor exactly when that is a deletion. */
  lemma TruncatedTopIff(l: Log)
    requires l.cursor <= |l.recs| && Layout(l.recs, l.used, true)
    requires forall i :: 0 <= i < |l.recs| ==> l.recs[i].len >= 1
    ensures Disciplined(l) <==> l.cursor == 0 || l.recs[l.cursor - 1].End() <= Truncate(l).used
  {
    var kept := l.recs[..l.cursor];
    HighWaterCovers(kept);
    if 0 < l.cursor < |l.recs| {
      var c := l.cursor - 1;
      assert forall i :: 0 <= i < c ==> l.recs[i].End() <= l.recs[c].off;
      assert forall i :: 0 <= i < l.cursor ==> kept[i] == l.recs[i];
    }
  }

  /**
   Recording over a redo tail keeps every record's bytes apart if and only if the edit is
   `Disciplined`: otherwise the new bytes land on a live insertion's.
   */
  lemma LayoutKeptIff(l: Log, kind: Kind, bytes: Text, pos: nat, caretBefore: nat)
    requires l.cursor <= |l.recs| && l.used <= |l.arena|
    requires Layout(l.recs, l.used, true) && (forall i :: 0 <= i < |l.recs| ==> l.recs[i].len >= 1)
    requires |bytes| >= 1 && Truncate(l).used + |bytes| <= |l.arena|
    ensures var r := Append(Truncate(l), kind, pos, bytes, caretBefore);
      Layout(r.recs, r.used, true) <==> Disciplined(l)
  {
    var t := Truncate(l);
    TruncateFacts(l);
    TruncatedTopIff(l);
    assert forall i :: 0 <= i < |t.recs| ==> t.recs[i] == l.recs[i];
    hide Truncate, HighWater, Disciplined, Overwrite;
    AppendedLayoutIff(t.recs, t.used, Rec(kind, pos, |bytes|, t.used, caretBefore, kind == Insert && |bytes| == 1));
  }

  // ---- A session whose redo goes wrong ----

  /** The states of the session below; the arena starts as any array. */
  function Stage(arena: Text, i: nat): Editor
    requires |arena| == ARENA_CAP
  {
    var ab := Overwrite(Overwrite(arena, 0, [97]), 1, [98]);
    var abc := Overwrite(ab, 2, [99]);
    var bbc := Overwrite(abc, 0, [98]);
    var word, c, gone := Rec(Insert, 0, 2, 0, 0, true), Rec(Insert, 0, 1, 2, 0, true), Rec(Delete, 1, 1, 0, 2, false);
    match i
    case 0 => Editor([], 0, false, 0, Log([], 0, arena, 0))
    case 1 => Editor([97], 1, false, 0, Log([Rec(Insert, 0, 1, 0, 0, true)], 1, Overwrite(arena, 0, [97]), 1))
    case 2 => Editor([97, 98], 2, false, 0, Log([word], 1, ab, 2))
    case 3 => Editor([97, 98], 0, false, 0, Log([word], 1, ab, 2))
    case 4 => Editor([99, 97, 98], 1, false, 0, Log([word, c], 2, abc, 3))
    case 5 => Editor([97, 98], 0, false, 0, Log([word, c], 1, abc, 3))
    case 6 => Editor([97, 98], 2, false, 0, Log([word, c], 1, abc, 3))
    case 7 => Editor([97], 1, false, 0, Log([word, gone], 2, bbc, 1))
    case 8 => Editor([97, 98], 2, false, 0, Log([word, gone], 1, bbc, 1))
    case _ => Editor([], 0, false, 0, Log([word, gone], 0, bbc, 1))
  }

  const MISTAKE: seq<Op> := [Type(97), Type(98), Place(0, false, 0), Type(99), Undo, Place(2, false, 0), Backspace, Undo, Undo]

  lemma StageSteps(arena: Text, i: nat)
    requires |arena| == ARENA_CAP && i < 9
    ensures Allowed(Stage(arena, i), MISTAKE[i], false) && Step(Stage(arena, i), MISTAKE[i]) == Stage(arena, i + 1)
  {
    hide *;
    if i < 4 {
      FirstStages(arena, i);
    } else {
      LastStages(arena, i);
    }
  }

  lemma FirstStages(arena: Text, i: nat)
    requires |arena| == ARENA_CAP && i < 4
    ensures Allowed(Stage(arena, i), MISTAKE[i], false) && Step(Stage(arena, i), MISTAKE[i]) == Stage(arena, i + 1)
  {
    var e := Stage(arena, i);
    match i {
      case 0 =>
        assert Truncate(e.log) == e.log;
      case 1 =>
        assert Truncate(e.log) == e.log && Merges(e.log, 1, 1);
      case 2 =>
      case 3 =>
        assert Truncate(e.log) == e.log && !Merges(e.log, 0, 1);
    }
  }

  lemma LastStages(arena: Text, i: nat)
    requires |arena| == ARENA_CAP && 4 <= i < 9
    ensures Allowed(Stage(arena, i), MISTAKE[i], false) && Step(Stage(arena, i), MISTAKE[i]) == Stage(arena, i + 1)
  {
    var e := Stage(arena, i);
    match i {
      case 4 =>
        assert UndoFits(e);
      case 5 =>
      case 6 =>
        assert e.log.recs[..1] == [e.log.recs[0]] && HighWater([e.log.recs[0]]) == 0;
        assert Truncate(e.log) == Log([e.log.recs[0]], 1, e.log.arena, 0);
      case 7 =>
        assert e.log.arena[0..1] == [98];
      case 8 =>
    }
  }

  lemma {:induction false} StageSession(arena: Text, i: nat)
    requires |arena| == ARENA_CAP && i <= 9
    ensures Session(Stage(arena, i), MISTAKE[i..], false)
    ensures After(Stage(arena, i), MISTAKE[i..], false) == Stage(arena, 9)
    decreases 9 - i
  {
    hide Stage, Allowed, Step;
    if i < 9 {
      StageSteps(arena, i);
      assert MISTAKE[i..][0] == MISTAKE[i] && MISTAKE[i..][1..] == MISTAKE[i + 1..];
      StageSession(arena, i + 1);
    }
  }

  /**
   Type "ab", then "c" in front; undo the "c", erase the "b" over that redo tail, and undo
   twice: the history went from "ab" to the empty text, but redo shows "bb".
   */
  lemma UndisciplinedRedo(e0: Editor)
    requires Loaded(e0) && e0.text == [] && e0.selAnchor == 0
    ensures Session(e0, MISTAKE, false) && Session(e0, MISTAKE[..8], false)
    ensures After(e0, MISTAKE[..8], false).text == [97, 98] && After(e0, MISTAKE, false).text == []
    ensures RedoFits(After(e0, MISTAKE, false)) && UndoSpec.Redo(After(e0, MISTAKE, false)).text == [98, 98]
  {
    hide Session, After, Allowed, Step, Overwrite, UndoSpec.Redo;
    var arena := e0.log.arena;
    assert e0 == Stage(arena, 0);
    StageSession(arena, 0);
    assert MISTAKE[0..] == MISTAKE;
    PrefixSession(arena, 0);
    assert MISTAKE[0..8] == MISTAKE[..8];
    LastStage(arena);
  }

  lemma LastStage(arena: Text)
    requires |arena| == ARENA_CAP
    ensures Stage(arena, 8).text == [97, 98] && Stage(arena, 9).text == []
    ensures RedoFits(Stage(arena, 9)) && UndoSpec.Redo(Stage(arena, 9)).text == [98, 98]
  {
    var ab := Overwrite(Overwrite(arena, 0, [97]), 1, [98]);
    var bbc := Overwrite(Overwrite(ab, 2, [99]), 0, [98]);
    assert ab[1] == 98 && Overwrite(ab, 2, [99])[1] == 98;
    assert bbc[0] == 98 && bbc[1] == 98;
    assert bbc[0..2] == [98, 98];
  }

  lemma {:induction false} PrefixSession(arena: Text, i: nat)
    requires |arena| == ARENA_CAP && i <= 8
    ensures Session(Stage(arena, i), MISTAKE[i..8], false)
    ensures After(Stage(arena, i), MISTAKE[i..8], false) == Stage(arena, 8)
    decreases 8 - i
  {
    hide Stage, Allowed, Step;
    if i < 8 {
      StageSteps(arena, i);
      assert MISTAKE[i..8][0] == MISTAKE[i] && MISTAKE[i..8][1..] == MISTAKE[i + 1..8];
      PrefixSession(arena, i + 1);
    }
  }
}
