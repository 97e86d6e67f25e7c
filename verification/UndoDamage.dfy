/** A session whose redo goes wrong on the way and ends on the right text. */
module UndoDamage {
  import opened Bytes
  import opened UndoSpec
  import opened UndoTheorems
  import opened UndoRuns
  import opened UndoRedo
  import opened UndoStray

  /** "aab" typed, "z" typed in front and undone, and "ab" deleted over that redo tail. */
  const PATCH: seq<Op> := [Type(97), Type(97), Type(98), Place(0, false, 0), Type(122), Op.Undo, Place(3, true, 1), Erase]

  const AAB: Rec := Rec(Insert, 0, 3, 0, 0, true)

  /** Where the session ends: the deletion's bytes lie on the insertion's first two. */
  function Patched(arena: Text): Editor {
    Editor([97], 1, false, 1, Log([AAB, Rec(Delete, 1, 2, 0, 3, false)], 2, arena, 2))
  }

  const PATCHED_TEXTS: seq<Text> := [[], [97, 97, 98], [97]]

  // ---- The session ----

  function TypedAll(arena: Text): Text
    requires |arena| == ARENA_CAP
  {
    Overwrite(Overwrite(Overwrite(arena, 0, [97]), 1, [97]), 2, [98])
  }

  function PatchArena(arena: Text): (a: Text)
    requires |arena| == ARENA_CAP
    ensures |a| == ARENA_CAP
  {
    Overwrite(Overwrite(TypedAll(arena), 3, [122]), 0, [97, 98])
  }

  /** A key at the end of what was typed makes its record one longer. */
  lemma KeyAppends(e: Editor, b: Byte, text: Text, arena: Text) returns (r: Editor)
    requires |arena| == ARENA_CAP && 1 <= |text| <= 2
    requires e == Editor(text, |text|, false, e.selAnchor, Log([Rec(Insert, 0, |text|, 0, 0, true)], 1, arena, |text|))
    ensures Reaches(e, [Type(b)], r)
    ensures r == Editor(text + [b], |text| + 1, false, e.selAnchor,
                        Log([Rec(Insert, 0, |text| + 1, 0, 0, true)], 1, Overwrite(arena, |text|, [b]), |text| + 1))
  {
    assert DeleteSelection(e) == e && Truncate(e.log) == e.log && Merges(e.log, |text|, 1);
    ReachesOne(e, Type(b));
    r := Step(e, Type(b));
    hide Reaches;
    assert r.text == text + [b];
  }

  lemma FirstLetter(e: Editor) returns (r: Editor)
    requires Loaded(e) && e.text == []
    ensures Reaches(e, [Type(97)], r)
    ensures r == Editor([97], 1, false, e.selAnchor,
                        Log([Rec(Insert, 0, 1, 0, 0, true)], 1, Overwrite(e.log.arena, 0, [97]), 1))
  {
    assert DeleteSelection(e) == e && Truncate(e.log) == e.log;
    ReachesOne(e, Type(97));
    r := Step(e, Type(97));
    assert r.text == [97];
  }

  /** "aab" is one record. */
  lemma TypesAab(e: Editor) returns (r: Editor)
    requires Loaded(e) && e.text == []
    ensures Reaches(e, [Type(97), Type(97), Type(98)], r)
    ensures r == Editor([97, 97, 98], 3, false, e.selAnchor, Log([AAB], 1, TypedAll(e.log.arena), 3))
  {
    hide Reaches;
    var a := FirstLetter(e);
    var b := KeyAppends(a, 97, [97], Overwrite(e.log.arena, 0, [97]));
    r := KeyAppends(b, 98, [97, 97], Overwrite(Overwrite(e.log.arena, 0, [97]), 1, [97]));
    ReachesMore(e, [Type(97)], a, [Type(97)], b);
    ReachesMore(e, [Type(97)] + [Type(97)], b, [Type(98)], r);
    assert [Type(97)] + [Type(97)] + [Type(98)] == [Type(97), Type(97), Type(98)];
  }

  /** "z" is typed in front and undone. */
  lemma TypesAndUndoesZ(e: Editor, arena: Text, anchor: nat) returns (r: Editor)
    requires |arena| == ARENA_CAP && e == Editor([97, 97, 98], 3, false, anchor, Log([AAB], 1, arena, 3))
    ensures Reaches(e, [Place(0, false, 0), Type(122), Op.Undo], r)
    ensures r == Editor([97, 97, 98], 0, false, 0,
                        Log([AAB, Rec(Insert, 0, 1, 3, 0, true)], 1, Overwrite(arena, 3, [122]), 4))
  {
    ReachesOne(e, Place(0, false, 0));
    var a := Step(e, Place(0, false, 0));
    assert DeleteSelection(a) == a && Truncate(a.log) == a.log && !Merges(a.log, 0, 1);
    ReachesOne(a, Type(122));
    var b := Step(a, Type(122));
    assert b.text == [122, 97, 97, 98] && b.log.recs == [AAB, Rec(Insert, 0, 1, 3, 0, true)];
    assert UndoFits(b);
    ReachesOne(b, Op.Undo);
    r := Step(b, Op.Undo);
    hide Reaches;
    ReachesMore(e, [Place(0, false, 0)], a, [Type(122)], b);
    ReachesMore(e, [Place(0, false, 0)] + [Type(122)], b, [Op.Undo], r);
    assert [Place(0, false, 0)] + [Type(122)] + [Op.Undo] == [Place(0, false, 0), Type(122), Op.Undo];
  }

  /** Deleting "ab" truncates, and reuses the arena from its start. */
  lemma DeletesAb(e: Editor, arena: Text)
    requires |arena| == ARENA_CAP
    requires e == Editor([97, 97, 98], 0, false, 0, Log([AAB, Rec(Insert, 0, 1, 3, 0, true)], 1, arena, 4))
    ensures Reaches(e, [Place(3, true, 1), Erase], Patched(Overwrite(arena, 0, [97, 98])))
  {
    ReachesOne(e, Place(3, true, 1));
    var a := Step(e, Place(3, true, 1));
    assert HasSelection(a) && SelLo(a) == 1 && SelHi(a) == 3 && a.text[1..3] == [97, 98];
    assert a.log.recs[..1] == [AAB] && HighWater([AAB]) == 0;
    assert Truncate(a.log) == Log([AAB], 1, arena, 0);
    ReachesOne(a, Erase);
    assert Step(a, Erase) == Patched(Overwrite(arena, 0, [97, 98]));
    hide Reaches;
    ReachesMore(e, [Place(3, true, 1)], a, [Erase], Step(a, Erase));
    assert [Place(3, true, 1)] + [Erase] == [Place(3, true, 1), Erase];
  }

  lemma PatchReached(e: Editor)
    requires Loaded(e) && e.text == []
    ensures Reaches(e, PATCH, Patched(PatchArena(e.log.arena)))
  {
    hide Reaches, Patched;
    var a := TypesAab(e);
    var b := TypesAndUndoesZ(a, TypedAll(e.log.arena), e.selAnchor);
    DeletesAb(b, Overwrite(TypedAll(e.log.arena), 3, [122]));
    ReachesMore(e, [Type(97), Type(97), Type(98)], a, [Place(0, false, 0), Type(122), Op.Undo], b);
    ReachesMore(e, [Type(97), Type(97), Type(98)] + [Place(0, false, 0), Type(122), Op.Undo], b,
                [Place(3, true, 1), Erase], Patched(PatchArena(e.log.arena)));
    assert [Type(97), Type(97), Type(98)] + [Place(0, false, 0), Type(122), Op.Undo] + [Place(3, true, 1), Erase] == PATCH;
  }

  lemma PatchedBytes(arena: Text)
    requires |arena| == ARENA_CAP
    ensures PatchArena(arena)[..3] == [97, 98, 98]
  {
    assert TypedAll(arena)[2] == 98;
  }

  // ---- What its end shows ----

  lemma PatchedShown(arena: Text)
    requires |arena| == ARENA_CAP && arena[..3] == [97, 98, 98]
    ensures Shown(Patched(arena), PATCHED_TEXTS, false) && !AllIntact(Patched(arena).log, PATCHED_TEXTS)
  {
    var e := Patched(arena);
    assert arena[0..2] == arena[..3][..2] && arena[0..3] == arena[..3];
    assert Joins(e.log.recs[0], arena, PATCHED_TEXTS[0], PATCHED_TEXTS[1], false);
    assert Joins(e.log.recs[1], arena, PATCHED_TEXTS[1], PATCHED_TEXTS[2], false);
    assert arena[0..3][1] == 98 && PATCHED_TEXTS[1][0..3][1] == 97;
    assert !Intact(e.log, PATCHED_TEXTS, 0);
  }

  /** The states that undo and redo go through. */
  lemma PatchedMoves(arena: Text)
    requires |arena| == ARENA_CAP && arena[..3] == [97, 98, 98]
    ensures var e := Patched(arena);
      var u1 := e.(text := [97, 97, 98], caret := 3, log := e.log.(cursor := 1));
      var u2 := u1.(text := [], caret := 0, log := e.log.(cursor := 0));
      var r1 := u2.(text := [97, 98, 98], caret := 3, log := e.log.(cursor := 1));
      && UndoFits(e) && UndoSpec.Undo(e) == u1 && UndoFits(u1) && UndoSpec.Undo(u1) == u2
      && RedoFits(u2) && UndoSpec.Redo(u2) == r1
      && RedoFits(u1) && UndoSpec.Redo(u1).text == [97] && RedoFits(r1) && UndoSpec.Redo(r1).text == [97]
  {
    assert arena[0..2] == arena[..3][..2] && arena[0..3] == arena[..3];
  }

  /** As many redos as undos always come back to the text "a". */
  lemma PatchedComesBack(arena: Text, k: nat)
    requires |arena| == ARENA_CAP && arena[..3] == [97, 98, 98] && k <= 2
    ensures var e := Patched(arena);
      CanUndo(e, k) && CanRedo(UndoTimes(e, k), k) && RedoTimes(UndoTimes(e, k), k).text == e.text
  {
    hide UndoFits, RedoFits, UndoSpec.Undo, UndoSpec.Redo, CanUndo, CanRedo, UndoTimes, RedoTimes;
    PatchedMoves(arena);
    var e := Patched(arena);
    var u1 := UndoSpec.Undo(e);
    var u2 := UndoSpec.Undo(u1);
    var r1 := UndoSpec.Redo(u2);
    UndoTimesUnfolds(e, k);
    UndoTimesUnfolds(u1, 1);
    UndoTimesUnfolds(u1, 0);
    UndoTimesUnfolds(u2, 0);
    RedoTimesUnfolds(u1, 1);
    RedoTimesUnfolds(u2, 2);
    RedoTimesUnfolds(r1, 1);
    RedoTimesUnfolds(UndoSpec.Redo(u1), 0);
    RedoTimesUnfolds(UndoSpec.Redo(r1), 0);
    RedoTimesUnfolds(e, 0);
  }

  /**
   From an empty text: after the session, undoing everything and redoing everything ends on
   the right text although a redo on the way showed a wrong one. So the final text alone does
   not tell whether redo is right.
   */
  lemma DamageCanHide(e: Editor, k: nat) returns (r: Editor)
    requires Loaded(e) && e.text == [] && k <= 2
    ensures Session(e, PATCH, false) && After(e, PATCH, false) == r && r.log.cursor == 2
    ensures Shown(r, PATCHED_TEXTS, false) && !RedoRight(r, PATCHED_TEXTS)
    ensures CanUndo(r, k) && CanRedo(UndoTimes(r, k), k) && RedoTimes(UndoTimes(r, k), k).text == r.text
  {
    var arena := PatchArena(e.log.arena);
    hide Shown, AllIntact, RedoRight, Session, After, CanUndo, CanRedo, UndoTimes, RedoTimes, PatchArena;
    r := Patched(arena);
    PatchReached(e);
    PatchedBytes(e.log.arena);
    PatchedShown(arena);
    RedoRightIff(r, PATCHED_TEXTS);
    PatchedComesBack(arena, k);
  }
}
