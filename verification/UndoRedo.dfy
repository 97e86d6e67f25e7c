/**
 Exactly when redo is right: undo never depends on an insertion's bytes in the arena, redo
 does, and a recording made over a redo tail may store its own bytes on top of them.
 */
module UndoRedo {
  import opened Bytes
  import opened UndoSpec
  import opened UndoTheorems
  import opened UndoRuns

  // ---- Reading a state ----

  /** One redo shows the text the history has next if and only if the record's bytes are intact. */
  lemma RedoShowsIff(e: Editor, texts: seq<Text>)
    requires Shown(e, texts, false) && e.log.cursor < |e.log.recs|
    ensures |texts| == |e.log.recs| + 1
    ensures RedoFits(e) && UndoSpec.Redo(e).text == texts[e.log.cursor + 1] <==> Intact(e.log, texts, e.log.cursor)
  {
    hide Cut, InsertRaw, Joins;
    var c := e.log.cursor;
    RecordJoins(e, texts, false, c);
    assert e.text == texts[c];
    if Intact(e.log, texts, c) {
      RedoSteps(e, texts);
    } else {
      InsertionRedone(e.log.recs[c], e.log.arena, texts[c], texts[c + 1]);
    }
  }

  /** Only an insertion's own bytes redo it. */
  lemma InsertionRedone(r: Rec, arena: Text, before: Text, after: Text)
    requires Joins(r, arena, before, after, false) && r.kind == Insert && |after| <= CODE_CAP - 2
    ensures r.pos <= |before| && r.pos + r.len <= |after|
    ensures r.End() <= |arena| && InsertRaw(before, r.pos, arena[r.off..r.End()]) == after ==>
      arena[r.off..r.End()] == after[r.pos..r.pos + r.len]
  {
    if r.End() <= |arena| {
      CutUndoesSplice(before, r.pos, arena[r.off..r.End()]);
    }
  }

  /** Every record that undo can go back over could be redone exactly. */
  ghost predicate AllIntact(l: Log, texts: seq<Text>) {
    forall i :: 0 <= i < l.cursor ==> Intact(l, texts, i)
  }

  /** k undos and then j redos are possible and show the text the history has there. */
  ghost predicate RightAfter(e: Editor, texts: seq<Text>, k: nat, j: nat)
    requires j <= k <= e.log.cursor
  {
    && CanUndo(e, k) && CanRedo(UndoTimes(e, k), j) && e.log.cursor - k + j < |texts|
    && RedoTimes(UndoTimes(e, k), j).text == texts[e.log.cursor - k + j]
  }

  ghost predicate RedoRight(e: Editor, texts: seq<Text>) {
    forall k: nat, j: nat :: j <= k <= e.log.cursor ==> RightAfter(e, texts, k, j)
  }

  lemma IntactIsRight(e: Editor, texts: seq<Text>, k: nat, j: nat)
    requires Shown(e, texts, false) && AllIntact(e.log, texts) && j <= k <= e.log.cursor
    ensures RightAfter(e, texts, k, j)
  {
    hide Shown, Intact, CanUndo, UndoTimes, CanRedo, RedoTimes;
    ShownNow(e, texts, false);
    UndoTimesShows(e, texts, false, k);
    UndoneIntact(e, texts, k);
    RedoTimesShows(UndoTimes(e, k), texts, j);
  }

  lemma UndoneIntact(e: Editor, texts: seq<Text>, k: nat)
    requires k <= e.log.cursor && CanUndo(e, k) && UndoTimes(e, k).log == e.log.(cursor := e.log.cursor - k)
    requires AllIntact(e.log, texts)
    ensures forall i :: e.log.cursor - k <= i < e.log.cursor ==> Intact(UndoTimes(e, k).log, texts, i)
  {
    hide Intact, CanUndo, UndoTimes;
    forall i | e.log.cursor - k <= i < e.log.cursor
      ensures Intact(UndoTimes(e, k).log, texts, i)
    {
      CursorKeepsIntact(e.log, UndoTimes(e, k).log, texts, i);
    }
  }

  /** A record whose bytes are gone is redone wrong: some k undos and then one redo show it. */
  lemma DamageShows(e: Editor, texts: seq<Text>, i: nat)
    requires Shown(e, texts, false) && i < e.log.cursor && !Intact(e.log, texts, i)
    ensures !RightAfter(e, texts, e.log.cursor - i, 1)
  {
    hide Shown, Intact, CanUndo, UndoTimes, CanRedo, RedoTimes, RedoFits, UndoSpec.Redo;
    var k := e.log.cursor - i;
    ShownNow(e, texts, false);
    UndoTimesShows(e, texts, false, k);
    var u := UndoTimes(e, k);
    CursorKeepsIntact(e.log, u.log, texts, i);
    RedoShowsIff(u, texts);
    if CanRedo(u, 1) {
      OneRedo(u);
    }
  }

  lemma OneRedo(e: Editor)
    requires CanRedo(e, 1)
    ensures RedoFits(e) && RedoTimes(e, 1) == UndoSpec.Redo(e)
  {
    hide RedoFits, UndoSpec.Redo;
    RedoTimesUnfolds(UndoSpec.Redo(e), 0);
  }

  /**
   Every number of undos followed by at most as many redos shows the text promised there, if
   and only if the bytes of every insertion below the cursor are intact.
   */
  lemma RedoRightIff(e: Editor, texts: seq<Text>)
    requires Shown(e, texts, false)
    ensures RedoRight(e, texts) <==> AllIntact(e.log, texts)
  {
    hide Shown, Intact, RightAfter;
    ShownNow(e, texts, false);
    if AllIntact(e.log, texts) {
      forall k: nat, j: nat | j <= k <= e.log.cursor
        ensures RightAfter(e, texts, k, j)
      {
        IntactIsRight(e, texts, k, j);
      }
    } else {
      var i :| 0 <= i < e.log.cursor && !Intact(e.log, texts, i);
      DamageShows(e, texts, i);
    }
  }

  // ---- What a recording does to the survivors ----

  /** Whether storing the bytes at `off` leaves every surviving insertion's bytes as they were. */
  predicate KeepsSurvivors(l: Log, off: nat, bytes: Text)
    requires l.cursor <= |l.recs|
  {
    forall i :: 0 <= i < l.cursor && l.recs[i].kind == Insert && l.recs[i].End() <= |l.arena| ==>
      Store(l.arena, off, bytes)[l.recs[i].off..l.recs[i].End()] == l.arena[l.recs[i].off..l.recs[i].End()]
  }

  /** A survivor of the same record and text stays intact exactly when its bytes stay the same. */
  lemma SurvivorIff(l: Log, texts: seq<Text>, m: Log, texts': seq<Text>, i: nat)
    requires Intact(l, texts, i) && i < |m.recs| && m.recs[i] == l.recs[i] && |m.arena| == |l.arena|
    requires i + 1 < |texts'| && texts'[i + 1] == texts[i + 1]
    ensures Intact(m, texts', i) <==>
      (l.recs[i].kind == Insert ==>
        l.recs[i].End() <= |l.arena| &&
        m.arena[l.recs[i].off..l.recs[i].End()] == l.arena[l.recs[i].off..l.recs[i].End()])
  {
  }

  /** The first n records of m are l's, over an arena that got `bytes` at `off`. */
  lemma SurvivorsIff(l: Log, texts: seq<Text>, m: Log, texts': seq<Text>, off: nat, bytes: Text, n: nat)
    requires l.cursor <= |l.recs| && AllIntact(l, texts) && n <= l.cursor && n <= |m.recs|
    requires m.arena == Store(l.arena, off, bytes)
    requires forall i :: 0 <= i < n ==> m.recs[i] == l.recs[i]
    requires n < |texts'| && n < |texts| && texts'[..n + 1] == texts[..n + 1]
    requires forall i :: n <= i < l.cursor ==> l.recs[i].kind == Insert && off >= l.recs[i].End()
    ensures (forall i :: 0 <= i < n ==> Intact(m, texts', i)) <==> KeepsSurvivors(l, off, bytes)
  {
    forall i | 0 <= i < n
      ensures Intact(m, texts', i) <==>
        (l.recs[i].kind == Insert && l.recs[i].End() <= |l.arena| ==>
          m.arena[l.recs[i].off..l.recs[i].End()] == l.arena[l.recs[i].off..l.recs[i].End()])
    {
      assert Intact(l, texts, i) && texts'[..n + 1][i + 1] == texts[..n + 1][i + 1];
      SurvivorIff(l, texts, m, texts', i);
    }
    forall i | n <= i < l.cursor && l.recs[i].End() <= |l.arena|
      ensures m.arena[l.recs[i].off..l.recs[i].End()] == l.arena[l.recs[i].off..l.recs[i].End()]
    {
      if off + |bytes| <= |l.arena| {
        OverwriteKeeps(l.arena, off, bytes, l.recs[i].off, l.recs[i].End());
      }
    }
    hide Intact, Store;
  }

  /** A new record over a truncated log: redo stays right exactly when the survivors keep their bytes. */
  lemma AppendRedoIff(l: Log, texts: seq<Text>, kind: Kind, pos: nat, bytes: Text, caret: nat, after: Text)
    requires l.cursor <= |l.recs| && AllIntact(l, texts) && |texts| > l.cursor
    requires Truncate(l).used + |bytes| <= |l.arena|
    requires kind == Insert ==> pos <= |texts[l.cursor]| && after == Splice(texts[l.cursor], pos, bytes)
    ensures AllIntact(Append(Truncate(l), kind, pos, bytes, caret), texts[..l.cursor + 1] + [after]) <==>
      KeepsSurvivors(l, Truncate(l).used, bytes)
  {
    TruncateFacts(l);
    var t := Truncate(l);
    var m, texts' := Append(t, kind, pos, bytes, caret), texts[..l.cursor + 1] + [after];
    AppendLastIntact(t, texts', kind, pos, bytes, caret);
    assert texts'[..l.cursor + 1] == texts[..l.cursor + 1];
    assert forall i :: 0 <= i < l.cursor ==> m.recs[i] == t.recs[i] == l.recs[i];
    hide Intact, Truncate, KeepsSurvivors, Overwrite;
    SurvivorsIff(l, texts, m, texts', t.used, bytes, l.cursor);
  }

  lemma AppendLastIntact(t: Log, texts': seq<Text>, kind: Kind, pos: nat, bytes: Text, caret: nat)
    requires t.used + |bytes| <= |t.arena| && |texts'| == |t.recs| + 2
    requires kind == Insert ==>
      var before := texts'[|t.recs|]; pos <= |before| && texts'[|t.recs| + 1] == Splice(before, pos, bytes)
    ensures Intact(Append(t, kind, pos, bytes, caret), texts', |t.recs|)
  {
    OverwriteStores(t.arena, t.used, bytes);
    if kind == Insert {
      CutUndoesSplice(texts'[|t.recs|], pos, bytes);
    }
    hide Overwrite, Splice;
  }

  /** Where a typed byte's copy goes: after the last insertion's bytes when it merges. */
  function WriteAt(l: Log, pos: nat): nat
    requires l.cursor <= |l.recs|
  {
    var t := Truncate(l);
    if Merges(t, pos, 1) then t.recs[|t.recs| - 1].End() else t.used
  }

  /** The history starts over, so nothing old is left to redo. */
  predicate RestartsAtPut(l: Log, pos: nat)
    requires l.cursor <= |l.recs|
  {
    var t := Truncate(l);
    !Merges(t, pos, 1) && (|t.recs| >= REC_CAP || t.used + 1 > |t.arena|)
  }

  /** A merge stores right after the last insertion's bytes, inside the arena or not. */
  lemma MergeLastIff(t: Log, texts: seq<Text>, bytes: Text, after: Text)
    requires t.recs != [] && |bytes| == 1 && |texts| == |t.recs| + 1 && Intact(t, texts, |t.recs| - 1)
    requires var last := t.recs[|t.recs| - 1];
      && last.kind == Insert && last.pos + last.len <= |texts[|t.recs|]|
      && after == Splice(texts[|t.recs|], last.pos + last.len, bytes)
    ensures var n := |t.recs| - 1; var texts' := texts[..n + 1] + [after];
      Intact(Merge(t, bytes), texts', n) <==> t.recs[n].End() < |t.arena|
  {
    var n := |t.recs| - 1;
    var last := t.recs[n];
    StretchGrows(texts[n + 1], last.pos, last.len, bytes);
    if last.End() < |t.arena| {
      OverwriteExtends(t.arena, last.off, last.End(), bytes);
    }
    hide Splice, Overwrite;
  }

  lemma MergeRedoIff(l: Log, texts: seq<Text>, pos: nat, bytes: Text, after: Text)
    requires l.cursor <= |l.recs| && AllIntact(l, texts) && |texts| > l.cursor && |bytes| == 1
    requires Merges(Truncate(l), pos, 1) && pos <= |texts[l.cursor]| && after == Splice(texts[l.cursor], pos, bytes)
    ensures l.cursor > 0
    ensures AllIntact(Merge(Truncate(l), bytes), texts[..l.cursor] + [after]) <==>
      MergeFits(l, pos, 1) && KeepsSurvivors(l, WriteAt(l, pos), bytes)
  {
    TruncateFacts(l);
    var t, n := Truncate(l), l.cursor - 1;
    var m, texts' := Merge(t, bytes), texts[..l.cursor] + [after];
    assert t.recs[n] == l.recs[n] && Intact(l, texts, n);
    TruncatedIntact(l, texts, n);
    assert texts[..l.cursor + 1][..n + 1] == texts[..l.cursor];
    MergeLastIff(t, texts[..l.cursor + 1], bytes, after);
    assert forall i :: 0 <= i < n ==> m.recs[i] == t.recs[i] == l.recs[i];
    assert texts'[..n + 1] == texts[..n + 1];
    assert WriteAt(l, pos) == l.recs[n].End() && (MergeFits(l, pos, 1) <==> l.recs[n].End() < |l.arena|);
    hide Intact, Truncate, KeepsSurvivors, Store, MergeFits, WriteAt, Merges;
    SurvivorsIff(l, texts, m, texts', l.recs[n].End(), bytes, n);
  }

  lemma TruncatedIntact(l: Log, texts: seq<Text>, i: nat)
    requires l.cursor <= |l.recs| && i < l.cursor && |texts| > l.cursor && Intact(l, texts, i)
    ensures Intact(Truncate(l), texts[..l.cursor + 1], i)
  {
    TruncateFacts(l);
    assert texts[..l.cursor + 1][i + 1] == texts[i + 1];
  }

  lemma PutLogRedoIff(l: Log, texts: seq<Text>, pos: nat, bytes: Text, after: Text)
    requires l.cursor <= |l.recs| && AllIntact(l, texts) && |texts| > l.cursor && |bytes| == 1 && |l.arena| >= 1
    requires pos <= |texts[l.cursor]| && after == Splice(texts[l.cursor], pos, bytes)
    ensures AllIntact(PushInsert(l, pos, bytes, pos), PutTexts(l, texts, pos, after)) <==>
      RestartsAtPut(l, pos) || (MergeFits(l, pos, 1) && KeepsSurvivors(l, WriteAt(l, pos), bytes))
  {
    var t := Truncate(l);
    TruncateFacts(l);
    if Merges(t, pos, 1) {
      MergeRedoIff(l, texts, pos, bytes, after);
    } else if |t.recs| >= REC_CAP {
      AppendLastIntact(Reset(t), [texts[l.cursor], after], Insert, pos, bytes, pos);
    } else if t.used + 1 <= |t.arena| {
      AppendRedoIff(l, texts, Insert, pos, bytes, pos, after);
    }
    hide Truncate, KeepsSurvivors, Append, Merge, Intact, Merges;
  }

  lemma DeleteLogRedoIff(l: Log, texts: seq<Text>, pos: nat, bytes: Text, caret: nat, after: Text)
    requires l.cursor <= |l.recs| && AllIntact(l, texts) && |texts| > l.cursor && |bytes| <= |l.arena|
    requires RecordsDelete(l, |bytes|)
    ensures var t := Truncate(l); var restarts := t.used + |bytes| > |l.arena|;
      var texts' := if restarts then [texts[l.cursor], after] else texts[..l.cursor + 1] + [after];
      AllIntact(PushDelete(l, pos, bytes, caret), texts') <==> restarts || KeepsSurvivors(l, t.used, bytes)
  {
    var t := Truncate(l);
    TruncateFacts(l);
    if t.used + |bytes| > |t.arena| {
      AppendLastIntact(Reset(t), [texts[l.cursor], after], Delete, pos, bytes, caret);
    } else {
      AppendRedoIff(l, texts, Delete, pos, bytes, caret, after);
    }
    hide Truncate, KeepsSurvivors, Append, Intact;
  }

  // ---- What an edit does to redo ----

  /** What decides, before a byte is typed, whether redo will still be right after it. */
  predicate PutKeepsRedo(e: Editor, b: Byte)
    requires Ready(e)
  {
    || |e.text| + 1 >= CODE_CAP - 1
    || RestartsAtPut(e.log, e.caret)
    || (MergeFits(e.log, e.caret, 1) && KeepsSurvivors(e.log, WriteAt(e.log, e.caret), [b]))
  }

  /** Likewise for a deletion: the history restarts, or no survivor's bytes change. */
  predicate DeleteKeepsRedo(e: Editor, lo: nat, hi: nat)
    requires Ready(e) && lo <= hi <= |e.text|
  {
    var t := Truncate(e.log);
    t.used + (hi - lo) > |e.log.arena| || KeepsSurvivors(e.log, t.used, e.text[lo..hi])
  }

  /** Typing leaves redo right for every number of undos and redos if and only if it changes no survivor's bytes. */
  lemma PutRedoIff(e: Editor, texts: seq<Text>, b: Byte)
    requires Ready(e) && Exact(e, texts, false) && RedoRight(e, texts)
    ensures |texts| > e.log.cursor
    ensures RedoRight(PutByte(e, b), TextsAfterPut(e, texts, b)) <==> PutKeepsRedo(e, b)
  {
    hide Exact, Shown, RedoRight;
    PutExact(e, texts, false, b);
    ExactNow(e, texts, false);
    ExactIsShown(e, texts, false);
    ExactIsShown(PutByte(e, b), TextsAfterPut(e, texts, b), false);
    RedoRightIff(e, texts);
    RedoRightIff(PutByte(e, b), TextsAfterPut(e, texts, b));
    if |e.text| + 1 < CODE_CAP - 1 {
      PutLogRedoIff(e.log, texts, e.caret, [b], Splice(e.text, e.caret, [b]));
    }
    hide AllIntact, PushInsert, PutTexts, RestartsAtPut, WriteAt, KeepsSurvivors, MergeFits, Splice;
  }

  /** So does a recorded deletion. */
  lemma DeleteRedoIff(e: Editor, texts: seq<Text>, lo: nat, hi: nat)
    requires Ready(e) && Exact(e, texts, false) && RedoRight(e, texts)
    requires lo < hi <= |e.text| && RecordsDelete(e.log, hi - lo)
    ensures |texts| > e.log.cursor
    ensures RedoRight(DeleteRange(e, lo, hi), TextsAfterDelete(e, texts, lo, hi)) <==> DeleteKeepsRedo(e, lo, hi)
  {
    hide Exact, Shown, RedoRight;
    DeleteExact(e, texts, false, lo, hi);
    ExactNow(e, texts, false);
    ExactIsShown(e, texts, false);
    ExactIsShown(DeleteRange(e, lo, hi), TextsAfterDelete(e, texts, lo, hi), false);
    RedoRightIff(e, texts);
    RedoRightIff(DeleteRange(e, lo, hi), TextsAfterDelete(e, texts, lo, hi));
    DeleteLogRedoIff(e.log, texts, lo, e.text[lo..hi], e.caret, Cut(e.text, lo, hi - lo));
    hide AllIntact, PushDelete, KeepsSurvivors, RecordsDelete, Cut, Truncate;
  }
}
