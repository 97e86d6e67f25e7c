/**
 Deletions that find the record table full (engine/engine_game_tree.mettle:518-548): the
 sessions that meet none are exactly those in which every undo is right, and a session that
 meets one.
 */
module UndoFull {
  import opened Bytes
  import opened UndoSpec
  import opened UndoTheorems
  import opened UndoRuns
  import opened UndoStray

  // ---- Undo is right exactly while every deletion gets a record ----

  /** Edits and undos, whether or not their deletions get records. */
  ghost predicate Playable(e: Editor, ops: seq<Op>)
    decreases |ops|
  {
    ops == [] || (Possible(e, ops[0]) && !ops[0].Redo? && Playable(Step(e, ops[0]), ops[1..]))
  }

  /** k undos show the text the list has k records back. */
  ghost predicate UndoneTo(e: Editor, texts: seq<Text>, k: nat) {
    k <= e.log.cursor < |texts| && CanUndo(e, k) && UndoTimes(e, k).text == texts[e.log.cursor - k]
  }

  ghost predicate UndoRight(e: Editor, texts: seq<Text>) {
    |texts| > e.log.cursor && forall k: nat :: k <= e.log.cursor ==> UndoneTo(e, texts, k)
  }

  /** Undo is right after the operation, and after the deletion that typing over a selection begins with. */
  ghost predicate RightDuring(e: Editor, texts: seq<Text>, op: Op)
    requires Possible(e, op) && |texts| > e.log.cursor
  {
    && (op.Type? ==> UndoRight(DeleteSelection(e), TextsAfterErase(e, texts)))
    && UndoRight(Step(e, op), NextTexts(e, texts, op))
  }

  ghost predicate RightAllAlong(e: Editor, texts: seq<Text>, ops: seq<Op>)
    requires Playable(e, ops)
    decreases |ops|
  {
    UndoRight(e, texts) &&
    (ops == [] ||
     (RightDuring(e, texts, ops[0]) && RightAllAlong(Step(e, ops[0]), NextTexts(e, texts, ops[0]), ops[1..])))
  }

  lemma ExactIsRight(e: Editor, texts: seq<Text>)
    requires Exact(e, texts, false)
    ensures UndoRight(e, texts)
  {
    hide Exact, Shown, CanUndo, UndoTimes;
    ExactNow(e, texts, false);
    ExactIsShown(e, texts, false);
    forall k: nat | k <= e.log.cursor
      ensures UndoneTo(e, texts, k)
    {
      UndoTimesShows(e, texts, false, k);
    }
  }

  lemma AllowedIsRight(e: Editor, texts: seq<Text>, op: Op)
    requires Exact(e, texts, false) && Allowed(e, op, false)
    ensures |texts| > e.log.cursor && RightDuring(e, texts, op)
  {
    hide Exact, UndoRight, Step, NextTexts, DeleteSelection, TextsAfterErase, DeleteAllowed;
    ExactNow(e, texts, false);
    StepExact(e, texts, op, false);
    ExactIsRight(Step(e, op), NextTexts(e, texts, op));
    if op.Type? {
      SelectionExact(e, texts, false);
      ExactIsRight(DeleteSelection(e), TextsAfterErase(e, texts));
    }
  }

  /** After an unrecorded deletion one undo is already wrong. */
  lemma UnrecordedIsWrong(e: Editor, texts: seq<Text>, lo: nat, hi: nat)
    requires Ready(e) && Exact(e, texts, false) && lo < hi <= |e.text| && !RecordsDelete(e.log, hi - lo)
    ensures |texts| > e.log.cursor && !UndoRight(DeleteRange(e, lo, hi), TextsAfterDelete(e, texts, lo, hi))
  {
    hide Exact, DeleteRange, TextsAfterDelete, RecordsDelete, CanUndo, UndoTimes, UndoFits, UndoSpec.Undo;
    DeleteUndoneIff(e, texts, lo, hi);
    var d, past := DeleteRange(e, lo, hi), TextsAfterDelete(e, texts, lo, hi);
    OneUndo(d);
    assert UndoRight(d, past) ==> UndoneTo(d, past, 1);
  }

  lemma OneUndo(e: Editor)
    ensures CanUndo(e, 1) <==> UndoFits(e)
    ensures CanUndo(e, 1) ==> UndoTimes(e, 1) == UndoSpec.Undo(e)
  {
    hide UndoFits, UndoSpec.Undo;
    assert UndoFits(e) ==> CanUndo(UndoSpec.Undo(e), 0);
  }

  lemma RefusedIsWrong(e: Editor, texts: seq<Text>, op: Op)
    requires Exact(e, texts, false) && Possible(e, op) && !op.Redo? && !Allowed(e, op, false)
    ensures |texts| > e.log.cursor && !RightDuring(e, texts, op)
  {
    hide Exact, UndoRight, RecordsDelete, DeleteRange, TextsAfterDelete, TextsAfterPut, PutByte;
    ExactNow(e, texts, false);
    if HasSelection(e) && !RecordsDelete(e.log, SelHi(e) - SelLo(e)) {
      UnrecordedIsWrong(e, texts, SelLo(e), SelHi(e));
    } else {
      UnrecordedIsWrong(e, texts, e.caret - 1, e.caret);
    }
  }

  /**
   In a session of edits and undos, every number of undos shows the promised text all along
   if and only if every deletion of the session gets a record.
   */
  lemma {:induction false} UndoRightIff(e: Editor, texts: seq<Text>, ops: seq<Op>)
    requires Exact(e, texts, false) && Playable(e, ops)
    ensures RightAllAlong(e, texts, ops) <==> Session(e, ops, false)
    decreases |ops|
  {
    hide Exact, Allowed, Possible, Step, NextTexts, UndoRight, RightDuring;
    ExactIsRight(e, texts);
    if ops != [] {
      if Allowed(e, ops[0], false) {
        AllowedIsRight(e, texts, ops[0]);
        StepExact(e, texts, ops[0], false);
        UndoRightIff(Step(e, ops[0]), NextTexts(e, texts, ops[0]), ops[1..]);
      } else {
        RefusedIsWrong(e, texts, ops[0]);
      }
    }
  }

  /** In particular from a freshly loaded text. */
  lemma LoadedUndoRightIff(e: Editor, ops: seq<Op>)
    requires Loaded(e) && Playable(e, ops)
    ensures RightAllAlong(e, [e.text], ops) <==> Session(e, ops, false)
  {
    hide *;
    LoadedExact(e, false);
    UndoRightIff(e, [e.text], ops);
  }

  // ---- A session that fills the table ----

  /** The records of n bytes, each typed in front of the text. */
  function Singles(n: nat): (recs: seq<Rec>)
    ensures |recs| == n && forall k :: 0 <= k < n ==> recs[k] == Typed(0, 1, k)
  {
    seq(n, k requires 0 <= k < n => Typed(0, 1, k))
  }

  function Rounds(n: nat): seq<Op> {
    if n == 0 then [] else Rounds(n - 1) + [Type(120), Place(0, false, 0)]
  }

  /** One byte typed in front, and the caret back before it. */
  lemma OneRound(e: Editor, n: nat) returns (r: Editor)
    requires At(e, Singles(n), n, n, 0) && n < REC_CAP
    ensures Reaches(e, [Type(120), Place(0, false, 0)], r) && At(r, Singles(n + 1), n + 1, n + 1, 0)
  {
    assert n > 0 ==> e.log.recs[n - 1] == Typed(0, 1, n - 1);
    var m := FirstKey(e, Singles(n), n, n, 0);
    assert Keys(1) == [Type(120)];
    ReachesOne(m, Place(0, false, 0));
    r := Step(m, Place(0, false, 0));
    assert Singles(n) + [Typed(0, 1, n)] == Singles(n + 1);
    assert [Type(120)] + [Place(0, false, 0)] == [Type(120), Place(0, false, 0)];
    hide Reaches;
    ReachesMore(e, Keys(1), m, [Place(0, false, 0)], r);
  }

  lemma {:induction false} ManyRounds(e: Editor, n: nat) returns (r: Editor)
    requires At(e, [], 0, 0, 0) && n <= REC_CAP
    ensures Reaches(e, Rounds(n), r) && At(r, Singles(n), n, n, 0)
  {
    hide Reaches, At;
    if n == 0 {
      assert Singles(0) == [];
      NoKeys(e);
      assert Keys(0) == [];
      r := e;
    } else {
      var m := ManyRounds(e, n - 1);
      r := OneRound(m, n - 1);
      ReachesMore(e, Rounds(n - 1), m, [Type(120), Place(0, false, 0)], r);
    }
  }

  /** 2048 bytes typed one by one in front of the text, and the caret put behind the first. */
  function FillTable(): seq<Op> {
    Rounds(REC_CAP) + [Place(1, false, 0)]
  }

  /**
   From an empty text the session fills the record table. A backspace then gets no record:
   it leaves 2047 of the 2048 bytes, and the next undo shows 2046.
   */
  lemma SessionFillsTable(e: Editor) returns (r: Editor)
    requires Loaded(e) && e.text == []
    ensures Session(e, FillTable(), false) && After(e, FillTable(), false) == r
    ensures |r.text| == 2048 && Possible(r, Backspace) && !Allowed(r, Backspace, false)
    ensures !RecordsDelete(r.log, 1)
    ensures var d := Step(r, Backspace);
      |d.text| == 2047 && UndoFits(d) && |UndoSpec.Undo(d).text| == 2046
  {
    var m := ManyRounds(e, REC_CAP);
    ReachesOne(m, Place(1, false, 0));
    r := Step(m, Place(1, false, 0));
    FullBackspace(r);
    hide At, Rounds;
    ReachesMore(e, Rounds(REC_CAP), m, [Place(1, false, 0)], r);
  }

  lemma FullBackspace(r: Editor)
    requires At(r, Singles(REC_CAP), REC_CAP, REC_CAP, 1)
    ensures Ready(r) && !RecordsDelete(r.log, 1) && !Allowed(r, Backspace, false)
    ensures var d := Step(r, Backspace);
      |d.text| == 2047 && UndoFits(d) && |UndoSpec.Undo(d).text| == 2046
  {
    assert r.log.recs[REC_CAP - 1] == Typed(0, 1, REC_CAP - 1);
    assert Truncate(r.log) == r.log;
  }
}
