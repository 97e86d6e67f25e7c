/**
 Undo and redo against the plain list of texts they are meant to step through.
 `Exact(e, texts, redo)`: record k leads from texts[k] to texts[k + 1] and the text shown is
 texts[cursor]; the arena still holds the bytes of every deletion and, when `redo`, of every
 insertion as well.
 */
module UndoTheorems {
  import opened Bytes
  import opened UndoSpec

  /** Whether the bytes of `r` must be intact. */
  predicate Matters(r: Rec, redo: bool) {
    redo || r.kind == Delete
  }

  ghost predicate Joins(r: Rec, arena: Text, before: Text, after: Text, redo: bool) {
    var longer, shorter := if r.kind == Insert then after else before, if r.kind == Insert then before else after;
    && r.len >= 1 && r.pos + r.len <= |longer| && shorter == Cut(longer, r.pos, r.len)
    && (Matters(r, redo) ==> r.End() <= |arena| && arena[r.off..r.End()] == longer[r.pos..r.pos + r.len])
  }

  /** Bytes that matter lie below all later records and below `used`. */
  ghost predicate Layout(recs: seq<Rec>, used: nat, redo: bool) {
    && (forall i, j :: 0 <= i < j < |recs| && Matters(recs[i], redo) ==> recs[i].End() <= recs[j].off)
    && (forall i :: 0 <= i < |recs| && Matters(recs[i], redo) ==> recs[i].End() <= used)
  }

  ghost predicate Chain(recs: seq<Rec>, arena: Text, texts: seq<Text>, redo: bool) {
    && |texts| == |recs| + 1
    && (forall k :: 0 <= k < |recs| ==> Joins(recs[k], arena, texts[k], texts[k + 1], redo))
  }

  ghost predicate Short(texts: seq<Text>) {
    forall k :: 0 <= k < |texts| ==> |texts[k]| <= CODE_CAP - 2
  }

  ghost predicate ExactLog(l: Log, texts: seq<Text>, redo: bool) {
    && l.cursor <= |l.recs| && l.used <= |l.arena|
    && Chain(l.recs, l.arena, texts, redo) && Layout(l.recs, l.used, redo)
  }

  ghost predicate Exact(e: Editor, texts: seq<Text>, redo: bool) {
    ExactLog(e.log, texts, redo) && Short(texts) && e.text == texts[e.log.cursor]
  }

  // ---- Text facts ----

  lemma SpliceUndoesCut(text: Text, pos: nat, len: nat)
    requires pos + len <= |text|
    ensures Splice(Cut(text, pos, len), pos, text[pos..pos + len]) == text
  {
  }

  lemma CutUndoesSplice(text: Text, pos: nat, bytes: Text)
    requires pos <= |text|
    ensures var r := Splice(text, pos, bytes);
      Cut(r, pos, |bytes|) == text && r[pos..pos + |bytes|] == bytes
  {
  }

  // ---- One step of undo or redo ----

  /** A record's own bytes are enough to go back over it. */
  lemma JoinsUndone(r: Rec, arena: Text, before: Text, after: Text, redo: bool)
    requires Joins(r, arena, before, after, redo) && |before| <= CODE_CAP - 2
    ensures r.kind == Insert ==> r.pos + r.len <= |after| && Cut(after, r.pos, r.len) == before
    ensures r.kind == Delete ==>
      r.pos <= |after| && r.End() <= |arena| && InsertRaw(after, r.pos, arena[r.off..r.End()]) == before
  {
    if r.kind == Delete {
      SpliceUndoesCut(before, r.pos, r.len);
    }
  }

  lemma JoinsRedone(r: Rec, arena: Text, before: Text, after: Text)
    requires Joins(r, arena, before, after, true) && |after| <= CODE_CAP - 2
    ensures r.kind == Delete ==> r.pos + r.len <= |before| && Cut(before, r.pos, r.len) == after
    ensures r.kind == Insert ==>
      r.pos <= |before| && r.End() <= |arena| && InsertRaw(before, r.pos, arena[r.off..r.End()]) == after
  {
    if r.kind == Insert {
      SpliceUndoesCut(after, r.pos, r.len);
    }
  }

  /** The text is the one the history has at the cursor, and every record that matters leads to the next. */
  ghost predicate Shown(e: Editor, texts: seq<Text>, redo: bool) {
    && e.log.cursor <= |e.log.recs| && Chain(e.log.recs, e.log.arena, texts, redo)
    && Short(texts) && e.text == texts[e.log.cursor]
  }

  lemma ExactIsShown(e: Editor, texts: seq<Text>, redo: bool)
    requires Exact(e, texts, redo)
    ensures Shown(e, texts, redo)
  {
    hide Chain, Layout, Short;
  }

  lemma WeakerShown(e: Editor, texts: seq<Text>)
    requires Shown(e, texts, true)
    ensures Shown(e, texts, false)
  {
  }

  lemma ShownNow(e: Editor, texts: seq<Text>, redo: bool)
    requires Shown(e, texts, redo)
    ensures e.log.cursor <= |e.log.recs| && |texts| == |e.log.recs| + 1 && e.text == texts[e.log.cursor]
  {
    hide Joins, Short;
  }

  /** What the history says of one record. */
  lemma RecordJoins(e: Editor, texts: seq<Text>, redo: bool, k: nat)
    requires Shown(e, texts, redo) && k < |e.log.recs|
    ensures |texts| == |e.log.recs| + 1 && |texts[k]| <= CODE_CAP - 2 && |texts[k + 1]| <= CODE_CAP - 2
    ensures Joins(e.log.recs[k], e.log.arena, texts[k], texts[k + 1], redo)
  {
    hide Joins;
  }

  lemma CursorMoves(e: Editor, f: Editor, texts: seq<Text>, redo: bool, c: nat)
    requires Shown(e, texts, redo) && c <= |e.log.recs|
    requires f.log == e.log.(cursor := c) && |texts| > c && f.text == texts[c]
    ensures Shown(f, texts, redo)
  {
    hide Chain, Short;
  }

  lemma ExactCursorMoves(e: Editor, f: Editor, texts: seq<Text>, redo: bool, c: nat)
    requires Exact(e, texts, redo) && c <= |e.log.recs|
    requires f.log == e.log.(cursor := c) && |texts| > c && f.text == texts[c]
    ensures Exact(f, texts, redo)
  {
    hide Chain, Layout, Short;
  }

  lemma UndoneText(e: Editor, before: Text, after: Text, redo: bool)
    requires 0 < e.log.cursor <= |e.log.recs| && e.text == after && |before| <= CODE_CAP - 2
    requires Joins(e.log.recs[e.log.cursor - 1], e.log.arena, before, after, redo)
    ensures UndoFits(e) && Undo(e).text == before && Undo(e).log == e.log.(cursor := e.log.cursor - 1)
  {
    hide Joins, Cut, InsertRaw;
    JoinsUndone(e.log.recs[e.log.cursor - 1], e.log.arena, before, after, redo);
  }

  /** Undo steps back to the text before the record. */
  lemma UndoSteps(e: Editor, texts: seq<Text>, redo: bool)
    requires Shown(e, texts, redo) && e.log.cursor > 0
    ensures UndoFits(e) && |texts| >= e.log.cursor && Undo(e).text == texts[e.log.cursor - 1]
    ensures Shown(Undo(e), texts, redo) && Undo(e).log == e.log.(cursor := e.log.cursor - 1)
  {
    hide *;
    var k := e.log.cursor - 1;
    ShownNow(e, texts, redo);
    RecordJoins(e, texts, redo, k);
    UndoneText(e, texts[k], texts[k + 1], redo);
    CursorMoves(e, Undo(e), texts, redo, k);
  }

  /** The bytes an insertion would redo are those it inserted. */
  ghost predicate Intact(l: Log, texts: seq<Text>, i: nat) {
    && i < |l.recs| && i + 1 < |texts|
    && var r := l.recs[i];
      r.kind == Insert ==>
        && r.End() <= |l.arena| && r.pos + r.len <= |texts[i + 1]|
        && l.arena[r.off..r.End()] == texts[i + 1][r.pos..r.pos + r.len]
  }

  lemma IntactJoins(e: Editor, texts: seq<Text>, i: nat)
    requires Shown(e, texts, false) && i < |e.log.recs|
    ensures |texts| == |e.log.recs| + 1
    ensures Intact(e.log, texts, i) <==> Joins(e.log.recs[i], e.log.arena, texts[i], texts[i + 1], true)
  {
    hide Shown, Cut;
    RecordJoins(e, texts, false, i);
  }

  /** Redo steps forward to the text after the record, if the record's bytes are intact. */
  lemma RedoSteps(e: Editor, texts: seq<Text>)
    requires Shown(e, texts, false) && e.log.cursor < |e.log.recs| && Intact(e.log, texts, e.log.cursor)
    ensures RedoFits(e) && |texts| > e.log.cursor + 1 && Redo(e).text == texts[e.log.cursor + 1]
    ensures Redo(e).log == e.log.(cursor := e.log.cursor + 1) && Shown(Redo(e), texts, false)
  {
    var k := e.log.cursor;
    assert e.text == texts[k];
    RecordJoins(e, texts, false, k);
    IntactJoins(e, texts, k);
    hide Shown, Intact, Joins, Cut, InsertRaw;
    JoinsRedone(e.log.recs[k], e.log.arena, texts[k], texts[k + 1]);
    CursorMoves(e, Redo(e), texts, false, k + 1);
  }

  ghost predicate CanUndo(e: Editor, k: nat)
    decreases k
  {
    k == 0 || (UndoFits(e) && CanUndo(Undo(e), k - 1))
  }

  function UndoTimes(e: Editor, k: nat): Editor
    requires CanUndo(e, k)
    decreases k
  {
    if k == 0 then e else UndoTimes(Undo(e), k - 1)
  }

  ghost predicate CanRedo(e: Editor, k: nat)
    decreases k
  {
    k == 0 || (RedoFits(e) && CanRedo(Redo(e), k - 1))
  }

  function RedoTimes(e: Editor, k: nat): Editor
    requires CanRedo(e, k)
    decreases k
  {
    if k == 0 then e else RedoTimes(Redo(e), k - 1)
  }

  lemma UndoTimesUnfolds(e: Editor, k: nat)
    ensures CanUndo(e, 0) && UndoTimes(e, 0) == e
    ensures k > 0 && UndoFits(e) && CanUndo(Undo(e), k - 1) ==>
      CanUndo(e, k) && UndoTimes(e, k) == UndoTimes(Undo(e), k - 1)
  {
    hide UndoFits, Undo;
  }

  lemma RedoTimesUnfolds(e: Editor, k: nat)
    ensures CanRedo(e, 0) && RedoTimes(e, 0) == e
    ensures k > 0 && RedoFits(e) && CanRedo(Redo(e), k - 1) ==>
      CanRedo(e, k) && RedoTimes(e, k) == RedoTimes(Redo(e), k - 1)
  {
    hide RedoFits, Redo;
  }

  lemma ExactNow(e: Editor, texts: seq<Text>, redo: bool)
    requires Exact(e, texts, redo)
    ensures e.log.cursor <= |e.log.recs| && |texts| == |e.log.recs| + 1 && e.text == texts[e.log.cursor]
  {
    hide Joins, Layout, Short;
  }

  /** k undos show the text k records earlier, byte for byte. */
  lemma {:induction false} UndoTimesShows(e: Editor, texts: seq<Text>, redo: bool, k: nat)
    requires Shown(e, texts, redo) && k <= e.log.cursor
    ensures CanUndo(e, k) && |texts| > e.log.cursor - k
    ensures var r := UndoTimes(e, k);
      Shown(r, texts, redo) && r.text == texts[e.log.cursor - k] && r.log == e.log.(cursor := e.log.cursor - k)
    decreases k
  {
    hide *;
    ShownNow(e, texts, redo);
    UndoTimesUnfolds(e, k);
    if k > 0 {
      UndoSteps(e, texts, redo);
      UndoTimesShows(Undo(e), texts, redo, k - 1);
    }
  }

  /** k redos over intact records show the text k records later. */
  lemma {:induction false} RedoTimesShows(e: Editor, texts: seq<Text>, k: nat)
    requires Shown(e, texts, false) && e.log.cursor + k <= |e.log.recs|
    requires forall i :: e.log.cursor <= i < e.log.cursor + k ==> Intact(e.log, texts, i)
    ensures CanRedo(e, k) && |texts| > e.log.cursor + k
    ensures var r := RedoTimes(e, k);
      Shown(r, texts, false) && r.text == texts[e.log.cursor + k] && r.log == e.log.(cursor := e.log.cursor + k)
    decreases k
  {
    hide Shown, Intact, Joins, RedoFits, Redo, CanRedo, RedoTimes;
    ShownNow(e, texts, false);
    RedoTimesUnfolds(e, k);
    if k > 0 {
      assert Intact(e.log, texts, e.log.cursor);
      RedoSteps(e, texts);
      forall i | e.log.cursor + 1 <= i < e.log.cursor + k
        ensures Intact(Redo(e).log, texts, i)
      {
        CursorKeepsIntact(e.log, Redo(e).log, texts, i);
      }
      RedoTimesShows(Redo(e), texts, k - 1);
    }
  }

  lemma CursorKeepsIntact(l: Log, m: Log, texts: seq<Text>, i: nat)
    requires m == l.(cursor := m.cursor)
    ensures Intact(m, texts, i) <==> Intact(l, texts, i)
  {
  }

  /** Where every record below the cursor is intact, k undos and then k redos bring back the identical text. */
  lemma UndoThenRedo(e: Editor, texts: seq<Text>, k: nat)
    requires Shown(e, texts, false) && k <= e.log.cursor
    requires forall i :: 0 <= i < e.log.cursor ==> Intact(e.log, texts, i)
    ensures CanUndo(e, k) && CanRedo(UndoTimes(e, k), k)
    ensures RedoTimes(UndoTimes(e, k), k).text == e.text
    ensures RedoTimes(UndoTimes(e, k), k).log == e.log
  {
    hide Shown, Intact, UndoTimes, RedoTimes, CanUndo, CanRedo;
    ShownNow(e, texts, false);
    UndoTimesShows(e, texts, false, k);
    var u := UndoTimes(e, k);
    forall i | u.log.cursor <= i < u.log.cursor + k
      ensures Intact(u.log, texts, i)
    {
      CursorKeepsIntact(e.log, u.log, texts, i);
    }
    RedoTimesShows(u, texts, k);
  }

  lemma ExactIsIntact(e: Editor, texts: seq<Text>)
    requires Exact(e, texts, true)
    ensures Shown(e, texts, false) && forall i :: 0 <= i < |e.log.recs| ==> Intact(e.log, texts, i)
  {
    hide Exact;
    ExactIsShown(e, texts, true);
    WeakerShown(e, texts);
    forall i | 0 <= i < |e.log.recs|
      ensures Intact(e.log, texts, i)
    {
      RecordJoins(e, texts, true, i);
      IntactJoins(e, texts, i);
    }
  }

  // ---- Recording ----

  lemma {:induction false} HighWaterCovers(recs: seq<Rec>)
    ensures forall i :: 0 <= i < |recs| && recs[i].kind == Delete ==> recs[i].End() <= HighWater(recs)
    ensures HighWater(recs) == 0 || exists i :: 0 <= i < |recs| && recs[i].kind == Delete && recs[i].End() == HighWater(recs)
  {
    if recs != [] {
      HighWaterCovers(recs[..|recs| - 1]);
    }
  }

  /** Edits over a redo tail keep redo exact only at the bottom of the log or right above a deletion. */
  predicate Disciplined(l: Log)
    requires l.cursor <= |l.recs|
  {
    l.cursor == |l.recs| || l.cursor == 0 || l.recs[l.cursor - 1].kind == Delete
  }

  lemma ChainPrefix(recs: seq<Rec>, arena: Text, texts: seq<Text>, redo: bool, c: nat)
    requires Chain(recs, arena, texts, redo) && c <= |recs|
    ensures Chain(recs[..c], arena, texts[..c + 1], redo)
  {
    hide Joins;
  }

  lemma LayoutPrefix(recs: seq<Rec>, used: nat, redo: bool, c: nat)
    requires Layout(recs, used, redo) && c <= |recs|
    requires redo ==> c == 0 || recs[c - 1].kind == Delete
    ensures HighWater(recs[..c]) <= used && Layout(recs[..c], HighWater(recs[..c]), redo)
  {
    hide HighWater;
    var kept := recs[..c];
    HighWaterCovers(kept);
    assert forall i :: 0 <= i < c ==> kept[i] == recs[i];
    if redo && c > 0 {
      assert kept[c - 1].kind == Delete;
      assert forall i :: 0 <= i < c - 1 ==> recs[i].End() <= recs[c - 1].off;
    }
  }

  lemma TruncateExact(l: Log, texts: seq<Text>, redo: bool)
    requires ExactLog(l, texts, redo)
    requires redo ==> Disciplined(l)
    ensures ExactLog(Truncate(l), texts[..l.cursor + 1], redo)
  {
    hide Chain, Layout, HighWater;
    if l.cursor < |l.recs| {
      ChainPrefix(l.recs, l.arena, texts, redo, l.cursor);
      LayoutPrefix(l.recs, l.used, redo, l.cursor);
    } else {
      ExactLogLength(l, texts, redo);
      assert texts[..l.cursor + 1] == texts;
    }
  }

  lemma ExactLogLength(l: Log, texts: seq<Text>, redo: bool)
    requires ExactLog(l, texts, redo)
    ensures |texts| == |l.recs| + 1
  {
    hide Joins, Layout;
  }

  lemma OverwriteKeeps(arena: Text, off: nat, bytes: Text, lo: nat, hi: nat)
    requires off + |bytes| <= |arena| && lo <= hi <= off
    ensures Overwrite(arena, off, bytes)[lo..hi] == arena[lo..hi]
  {
  }

  lemma OverwriteStores(arena: Text, off: nat, bytes: Text)
    requires off + |bytes| <= |arena|
    ensures Overwrite(arena, off, bytes)[off..off + |bytes|] == bytes
    ensures |Overwrite(arena, off, bytes)| == |arena|
  {
  }

  /** A record appended to a truncated log adds its text to the list and harms no other record. */
  lemma AppendExact(l: Log, texts: seq<Text>, redo: bool, kind: Kind, pos: nat, bytes: Text, caretBefore: nat, after: Text)
    requires ExactLog(l, texts, redo) && l.cursor == |l.recs|
    requires l.used + |bytes| <= |l.arena| && |bytes| >= 1
    requires var before := texts[|l.recs|];
      if kind == Insert then pos <= |before| && after == Splice(before, pos, bytes)
      else pos + |bytes| <= |before| && bytes == before[pos..pos + |bytes|] && after == Cut(before, pos, |bytes|)
    ensures ExactLog(Append(l, kind, pos, bytes, caretBefore), texts + [after], redo)
  {
    var r := Append(l, kind, pos, bytes, caretBefore);
    var texts' := texts + [after];
    OverwriteStores(l.arena, l.used, bytes);
    forall k | 0 <= k < |r.recs|
      ensures Joins(r.recs[k], r.arena, texts'[k], texts'[k + 1], redo)
    {
      if k < |l.recs| {
        assert Joins(l.recs[k], l.arena, texts[k], texts[k + 1], redo);
        if Matters(l.recs[k], redo) {
          OverwriteKeeps(l.arena, l.used, bytes, l.recs[k].off, l.recs[k].End());
        }
      } else if kind == Insert {
        CutUndoesSplice(texts[k], pos, bytes);
      }
    }
  }

  /** A byte spliced in right after a stretch makes the stretch one longer. */
  lemma StretchGrows(text: Text, pos: nat, len: nat, bytes: Text)
    requires pos + len <= |text| && |bytes| == 1
    ensures var longer := Splice(text, pos + len, bytes);
      && |longer| == |text| + 1
      && Cut(longer, pos, len + 1) == Cut(text, pos, len)
      && longer[pos..pos + len + 1] == text[pos..pos + len] + bytes
  {
    var longer := Splice(text, pos + len, bytes);
    assert longer[..pos] == text[..pos];
    assert longer[pos + len + 1..] == text[pos + len..];
  }

  lemma OverwriteExtends(arena: Text, lo: nat, off: nat, bytes: Text)
    requires lo <= off && off + |bytes| <= |arena|
    ensures Overwrite(arena, off, bytes)[lo..off + |bytes|] == arena[lo..off] + bytes
  {
  }

  lemma MergedRecord(last: Rec, arena: Text, before: Text, middle: Text, redo: bool, bytes: Text)
    requires Joins(last, arena, before, middle, redo) && last.kind == Insert && |bytes| == 1
    requires redo ==> last.End() < |arena|
    ensures last.pos + last.len <= |middle|
    ensures Joins(last.(len := last.len + 1), Store(arena, last.End(), bytes), before,
                  Splice(middle, last.pos + last.len, bytes), redo)
  {
    StretchGrows(middle, last.pos, last.len, bytes);
    if last.End() < |arena| {
      OverwriteExtends(arena, last.off, last.End(), bytes);
      OverwriteStores(arena, last.End(), bytes);
    }
    hide Splice, Cut, Overwrite;
  }

  lemma MergeLayout(recs: seq<Rec>, used: nat, redo: bool)
    requires Layout(recs, used, redo) && recs != [] && recs[|recs| - 1].kind == Insert
    ensures var n := |recs| - 1; Layout(recs[n := recs[n].(len := recs[n].len + 1)], used + 1, redo)
  {
    var n := |recs| - 1;
    var r := recs[n := recs[n].(len := recs[n].len + 1)];
    assert forall i :: 0 <= i < n ==> r[i] == recs[i];
  }

  /** What a merge asks of the log and of the text it is to produce. */
  ghost predicate Mergeable(l: Log, texts: seq<Text>, redo: bool, bytes: Text, after: Text) {
    && ExactLog(l, texts, redo) && l.cursor == |l.recs| && l.recs != [] && |bytes| == 1
    && var last := l.recs[|l.recs| - 1];
      && last.kind == Insert && (redo ==> last.End() < |l.arena|) && l.used + 1 <= |l.arena|
      && last.pos + last.len <= |texts[|l.recs|]|
      && after == Splice(texts[|l.recs|], last.pos + last.len, bytes)
  }

  lemma MergeParts(l: Log, texts: seq<Text>, bytes: Text, after: Text, k: nat)
    requires l.recs != [] && |bytes| == 1
    requires k < |l.recs| && |texts| == |l.recs| + 1
    ensures var m, n, texts' := Merge(l, bytes), |l.recs| - 1, texts[|l.recs| := after];
      && |m.recs| == n + 1 && m.arena == Store(l.arena, l.recs[n].End(), bytes)
      && m.recs[k] == (if k == n then l.recs[n].(len := l.recs[n].len + 1) else l.recs[k])
      && texts'[k] == texts[k] && texts'[k + 1] == if k == n then after else texts[k + 1]
  {
    hide Overwrite;
  }

  lemma MergeableFacts(l: Log, texts: seq<Text>, redo: bool, bytes: Text, after: Text, k: nat)
    requires Mergeable(l, texts, redo, bytes, after) && k < |l.recs|
    ensures |texts| == |l.recs| + 1 && |bytes| == 1 && (redo ==> l.recs[|l.recs| - 1].End() < |l.arena|)
    ensures Joins(l.recs[k], l.arena, texts[k], texts[k + 1], redo)
    ensures Layout(l.recs, l.used, redo) && l.recs[|l.recs| - 1].kind == Insert
    ensures var last := l.recs[|l.recs| - 1];
      && last.pos + last.len <= |texts[|l.recs|]|
      && after == Splice(texts[|l.recs|], last.pos + last.len, bytes)
  {
    hide Joins, Layout, Splice;
  }

  lemma MergeJoins(l: Log, texts: seq<Text>, redo: bool, bytes: Text, after: Text, k: nat)
    requires Mergeable(l, texts, redo, bytes, after) && k < |l.recs| && |texts| == |l.recs| + 1
    requires |bytes| == 1
    ensures var m, texts' := Merge(l, bytes), texts[|l.recs| := after];
      |m.recs| == |l.recs| && Joins(m.recs[k], m.arena, texts'[k], texts'[k + 1], redo)
  {
    hide Mergeable, Merge, Splice, Cut, Overwrite, Store, Joins, Layout;
    MergeParts(l, texts, bytes, after, k);
    MergeableFacts(l, texts, redo, bytes, after, k);
    var n := |l.recs| - 1;
    var last := l.recs[n];
    if k == n {
      MergedRecord(last, l.arena, texts[n], texts[n + 1], redo, bytes);
    } else {
      JoinsBelow(l.recs[k], l.arena, texts[k], texts[k + 1], redo, last.End(), bytes, last.off, l.recs, k, l.used);
    }
  }

  /** Extending the last insertion replaces the last text and harms no deletion's bytes. */
  lemma MergeExact(l: Log, texts: seq<Text>, redo: bool, bytes: Text, after: Text)
    requires Mergeable(l, texts, redo, bytes, after)
    ensures ExactLog(Merge(l, bytes), texts[|l.recs| := after], redo)
  {
    hide Splice, Overwrite, Store, Joins, Layout, Chain;
    MergeLayout(l.recs, l.used, redo);
    MergeChain(l, texts, redo, bytes, after);
  }

  lemma MergeChain(l: Log, texts: seq<Text>, redo: bool, bytes: Text, after: Text)
    requires Mergeable(l, texts, redo, bytes, after)
    ensures |texts| == |l.recs| + 1 && Chain(Merge(l, bytes).recs, Merge(l, bytes).arena, texts[|l.recs| := after], redo)
  {
    hide Splice, Overwrite, Store, Joins, Layout, Merge;
    MergeableFacts(l, texts, redo, bytes, after, 0);
    MergeParts(l, texts, bytes, after, 0);
    forall k | 0 <= k < |l.recs|
      ensures var m, texts' := Merge(l, bytes), texts[|l.recs| := after];
        |m.recs| == |l.recs| && Joins(m.recs[k], m.arena, texts'[k], texts'[k + 1], redo)
    {
      MergeJoins(l, texts, redo, bytes, after, k);
    }
  }

  /** A write above a record's bytes leaves the record as it was. */
  lemma JoinsBelow(r: Rec, arena: Text, before: Text, after: Text, redo: bool, off: nat, bytes: Text,
                   floor: nat, recs: seq<Rec>, k: nat, used: nat)
    requires Joins(r, arena, before, after, redo)
    requires Layout(recs, used, redo) && k < |recs| - 1 && recs[k] == r && recs[|recs| - 1].off == floor <= off
    ensures Joins(r, Store(arena, off, bytes), before, after, redo)
  {
    if Matters(r, redo) && off + |bytes| <= |arena| {
      OverwriteStores(arena, off, bytes);
      assert recs[k].End() <= recs[|recs| - 1].off;
      OverwriteKeeps(arena, off, bytes, r.off, r.End());
    }
  }

  lemma ResetExact(l: Log, text: Text, redo: bool)
    ensures ExactLog(Reset(l), [text], redo)
  {
  }
}
