/**
 What an edit, an undo and a redo do to each byte of the text and to the caret
 (engine/engine_game_tree.mettle:567-622, 687-740, 826-881), told from the caret and the
 anchor of the selection alone.
 */
module EditorBytes {
  import opened Bytes
  import opened UndoSpec
  import UndoRuns

  /** `now` is `text` with `bytes` in the place of its bytes from lo up to hi. */
  ghost predicate Replaced(text: Text, lo: nat, hi: nat, bytes: Text, now: Text) {
    && lo <= hi <= |text| && |now| == |text| - (hi - lo) + |bytes|
    && (forall k :: 0 <= k < lo ==> now[k] == text[k])
    && (forall k :: 0 <= k < |bytes| ==> now[lo + k] == bytes[k])
    && (forall k :: lo + |bytes| <= k < |now| ==> now[k] == text[k - |bytes| + (hi - lo)])
  }

  function Min(a: nat, b: nat): nat {
    if a <= b then a else b
  }

  function Max(a: nat, b: nat): nat {
    if a <= b then b else a
  }

  /** The smaller and the larger of caret and anchor; the caret twice without a selection. */
  function First(e: Editor): nat {
    if e.selActive then Min(e.caret, e.selAnchor) else e.caret
  }

  function Last(e: Editor): nat {
    if e.selActive then Max(e.caret, e.selAnchor) else e.caret
  }

  /** Deleting the selection takes out the bytes between caret and anchor, and those alone. */
  lemma SelectionGoes(e: Editor)
    requires Ready(e)
    ensures var r := DeleteSelection(e);
      Replaced(e.text, First(e), Last(e), [], r.text) && r.caret == First(e) && !r.selActive
  {
    hide PushDelete;
  }

  /** It does not matter at which end of the selection the caret is. */
  lemma EitherDirection(e: Editor)
    requires Ready(e) && e.selActive
    ensures var f := e.(caret := e.selAnchor, selAnchor := e.caret);
      && Ready(f) && DeleteSelection(f).text == DeleteSelection(e).text
      && DeleteSelection(f).caret == DeleteSelection(e).caret
  {
    hide PushDelete;
  }

  /** A typed byte takes the place of the selection; in a full text it is refused and the selection goes. */
  lemma TypedByte(e: Editor, b: Byte)
    requires Ready(e)
    ensures Ready(DeleteSelection(e))
    ensures var r, room := TypeByte(e, b), |e.text| - (Last(e) - First(e)) < 65534;
      && Replaced(e.text, First(e), Last(e), if room then [b] else [], r.text)
      && r.caret == First(e) + (if room then 1 else 0) && !r.selActive
  {
    hide PutByte, DeleteSelection, Ready, Replaced;
    SelectionGoes(e);
    SelectionReady(e);
    var mid := DeleteSelection(e);
    BytePut(mid, b);
    var bytes := if |mid.text| < 65534 then [b] else [];
    ReplacedLength(e.text, First(e), Last(e), [], mid.text);
    ReplacedTwice(e.text, First(e), Last(e), mid.text, bytes, TypeByte(e, b).text);
  }

  lemma ReplacedLength(text: Text, lo: nat, hi: nat, bytes: Text, now: Text)
    requires Replaced(text, lo, hi, bytes, now)
    ensures |now| == |text| - (hi - lo) + |bytes|
  {
  }

  /** Bytes put where others were taken out. */
  lemma ReplacedTwice(text: Text, lo: nat, hi: nat, mid: Text, bytes: Text, now: Text)
    requires Replaced(text, lo, hi, [], mid) && Replaced(mid, lo, lo, bytes, now)
    ensures Replaced(text, lo, hi, bytes, now)
  {
    forall k | lo + |bytes| <= k < |now|
      ensures now[k] == text[k - |bytes| + (hi - lo)]
    {
      assert now[k] == mid[k - |bytes|];
    }
  }

  lemma SelectionReady(e: Editor)
    requires Ready(e)
    ensures Ready(DeleteSelection(e))
  {
    hide DeleteRange;
    if HasSelection(e) {
      UndoRuns.DeleteReady(e, SelLo(e), SelHi(e));
    }
  }

  lemma BytePut(e: Editor, b: Byte)
    requires Ready(e)
    ensures var r, room := PutByte(e, b), |e.text| < 65534;
      && Replaced(e.text, e.caret, e.caret, if room then [b] else [], r.text)
      && r.caret == e.caret + (if room then 1 else 0) && r.selActive == e.selActive
  {
    hide PushInsert;
  }

  /** A refused byte is stored nowhere; an accepted one is stored inside the arena unless it is merged at its end. */
  lemma PutInsideIff(e: Editor)
    requires Ready(e)
    ensures PutStaysInside(e) <==> |e.text| >= 65534 || MergeFits(e.log, e.caret, 1)
  {
  }

  lemma RangeGoes(e: Editor, lo: nat, hi: nat)
    requires Ready(e) && lo <= hi <= |e.text|
    ensures var r := DeleteRange(e, lo, hi);
      Replaced(e.text, lo, hi, [], r.text) && r.caret == lo && !r.selActive
  {
    hide PushDelete;
  }

  /** Backspace takes out the selection, or else the byte before the caret if there is one. */
  lemma BackspacedBytes(e: Editor)
    requires Ready(e)
    ensures var r := Backspace(e);
      var lo := if e.selActive && e.selAnchor != e.caret then Min(e.caret, e.selAnchor)
                else if e.caret > 0 then e.caret - 1 else 0;
      var hi := if e.selActive && e.selAnchor != e.caret then Max(e.caret, e.selAnchor) else e.caret;
      Replaced(e.text, lo, hi, [], r.text) && r.caret == lo && !r.selActive
  {
    hide PushDelete, DeleteSelection, DeleteRange, Ready, Replaced;
    if HasSelection(e) {
      SelectionGoes(e);
    } else if e.caret > 0 {
      CaretInside(e);
      RangeGoes(e, e.caret - 1, e.caret);
    } else {
      NothingReplaced(e.text);
    }
  }

  lemma CaretInside(e: Editor)
    requires Ready(e)
    ensures e.caret <= |e.text|
  {
  }

  lemma NothingReplaced(text: Text)
    ensures Replaced(text, 0, 0, [], text)
  {
  }

  // ---- Undo and redo ----

  /** Undo takes the bytes of an insertion out and leaves the caret where they began. */
  lemma UndoneInsertion(e: Editor)
    requires UndoFits(e) && e.log.cursor > 0 && e.log.recs[e.log.cursor - 1].kind == Insert
    ensures var r, u := e.log.recs[e.log.cursor - 1], Undo(e);
      Replaced(e.text, r.pos, r.pos + r.len, [], u.text) && u.caret == r.pos && !u.selActive
  {
  }

  /** Undo puts the bytes of a deletion back, if they fit, and leaves the caret behind them in any case. */
  lemma UndoneDeletion(e: Editor)
    requires UndoFits(e) && e.log.cursor > 0 && e.log.recs[e.log.cursor - 1].kind == Delete
    ensures var r, u := e.log.recs[e.log.cursor - 1], Undo(e);
      && (if |e.text| + r.len < 65535 then Replaced(e.text, r.pos, r.pos, e.log.arena[r.off..r.End()], u.text)
          else u.text == e.text)
      && u.caret == r.pos + r.len && !u.selActive
  {
  }

  lemma RedoneInsertion(e: Editor)
    requires RedoFits(e) && e.log.cursor < |e.log.recs| && e.log.recs[e.log.cursor].kind == Insert
    ensures var r, d := e.log.recs[e.log.cursor], Redo(e);
      && (if |e.text| + r.len < 65535 then Replaced(e.text, r.pos, r.pos, e.log.arena[r.off..r.End()], d.text)
          else d.text == e.text)
      && d.caret == r.pos + r.len && !d.selActive
  {
  }

  lemma RedoneDeletion(e: Editor)
    requires RedoFits(e) && e.log.cursor < |e.log.recs| && e.log.recs[e.log.cursor].kind == Delete
    ensures var r, d := e.log.recs[e.log.cursor], Redo(e);
      Replaced(e.text, r.pos, r.pos + r.len, [], d.text) && d.caret == r.pos && !d.selActive
  {
  }

  /** With nothing to undo or to redo, the call changes nothing, not even the selection. */
  lemma NothingToGoBackTo(e: Editor)
    ensures e.log.cursor == 0 ==> UndoFits(e) && Undo(e) == e
    ensures e.log.cursor == |e.log.recs| ==> RedoFits(e) && Redo(e) == e
  {
  }

  /**
   After an undo the caret lies inside the text, unless the undone deletion no longer fits
   and reached past the end of the text as it is.
   */
  lemma UndoCaretInsideIff(e: Editor)
    requires UndoFits(e) && e.caret <= |e.text|
    ensures Undo(e).caret <= |Undo(e).text| <==>
      !(e.log.cursor > 0 &&
        var r := e.log.recs[e.log.cursor - 1];
        r.kind == Delete && |e.text| + r.len >= 65535 && r.pos + r.len > |e.text|)
  {
  }

  /** The same for any range: undone and redone. */
  lemma RangeUndone(e: Editor, lo: nat, hi: nat)
    requires Ready(e) && lo < hi <= |e.text| && UndoRuns.RecordsDelete(e.log, hi - lo)
    ensures var d := DeleteRange(e, lo, hi);
      && UndoFits(d) && d.log.cursor > 0 && Undo(d).caret == hi && !Undo(d).selActive
      && Undo(d).log == d.log.(cursor := d.log.cursor - 1)
      && d.log.cursor <= |d.log.recs| && d.log.recs[d.log.cursor - 1].kind == Delete
      && d.log.recs[d.log.cursor - 1].pos == lo && d.log.recs[d.log.cursor - 1].len == hi - lo
      && (Undo(d).text == e.text <==> |e.text| <= 65534)
  {
    hide PushDelete, UndoRuns.RecordsDelete, InsertRaw, Cut;
    UndoRuns.DeletionUndoneIff(e, lo, hi);
    RecordedDeletion(e.log, lo, e.text[lo..hi], e.caret);
  }

  /** Redoing a deletion that undo has put back. */
  lemma RangeRedone(e: Editor, d: Editor, u: Editor, lo: nat, hi: nat)
    requires lo < hi <= |e.text| && d.text == Cut(e.text, lo, hi - lo) && d.caret == lo && u.text == e.text
    requires 0 < d.log.cursor <= |d.log.recs| && u.log == d.log.(cursor := d.log.cursor - 1)
    requires var r := d.log.recs[d.log.cursor - 1]; r.kind == Delete && r.pos == lo && r.len == hi - lo
    ensures RedoFits(u) && Redo(u).text == d.text && Redo(u).caret == d.caret && !Redo(u).selActive
  {
    hide Cut, InsertRaw;
  }

  /**
   A recorded deletion of the selection, undone: the caret is behind the bytes that are back,
   whichever end it was at, and they are the bytes that went if the text had at most 65534.
   Redone: the text and the caret after the deletion.
   */
  lemma SelectionUndone(e: Editor)
    requires Ready(e) && e.selActive && e.selAnchor != e.caret && UndoRuns.RecordsDelete(e.log, Last(e) - First(e))
    ensures var d := DeleteSelection(e);
      && UndoFits(d) && Undo(d).caret == Max(e.caret, e.selAnchor) && !Undo(d).selActive
      && (Undo(d).text == e.text <==> |e.text| <= 65534)
      && (|e.text| <= 65534 ==> RedoFits(Undo(d)) && Redo(Undo(d)).text == d.text && Redo(Undo(d)).caret == d.caret)
  {
    hide PushDelete, UndoRuns.RecordsDelete, Undo, Redo, UndoFits, RedoFits, Cut;
    var lo, hi := First(e), Last(e);
    var d := DeleteSelection(e);
    assert d == DeleteRange(e, lo, hi);
    RangeUndone(e, lo, hi);
    if |e.text| <= 65534 {
      RangeRedone(e, d, Undo(d), lo, hi);
    }
  }

  lemma RecordedDeletion(l: Log, pos: nat, bytes: Text, caret: nat)
    requires l.cursor <= |l.recs| && |bytes| <= |l.arena| && UndoRuns.RecordsDelete(l, |bytes|)
    ensures var r := PushDelete(l, pos, bytes, caret);
      && r.cursor == |r.recs| > 0
      && var last := r.recs[r.cursor - 1]; last.kind == Delete && last.pos == pos && last.len == |bytes|
  {
    hide Truncate;
    UndoRuns.TruncateFacts(l);
  }
}
