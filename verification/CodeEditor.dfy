/**
 The code editor's buffer and undo log, updated in place by shifting and copying loops
 (engine/engine_game_tree.mettle:417-622, 684-740, 826-881), proved equal to `UndoSpec`.
 */
module CodeEditor {
  import opened Bytes
  import opened UndoSpec

  class UndoLog {
    const recs: array<Rec>
    const arena: array<Byte>
    var count: nat
    var cursor: nat
    var arenaUsed: nat

    ghost predicate Valid()
      reads this, recs
    {
      && recs.Length == REC_CAP && arena.Length == ARENA_CAP
      && cursor <= count <= REC_CAP && arenaUsed <= ARENA_CAP
      && forall i :: 0 <= i < count && recs[i].kind == Delete ==> recs[i].End() <= ARENA_CAP
    }

    ghost function Value(): Log
      requires Valid()
      reads this, recs, arena
    {
      Log(recs[..count], cursor, arena[..], arenaUsed)
    }

    constructor ()
      ensures Valid() && fresh(recs) && fresh(arena)
      ensures Value().recs == [] && cursor == 0 && arenaUsed == 0
    {
      recs := new Rec[REC_CAP](_ => Rec(Insert, 0, 0, 0, 0, false));
      arena := new Byte[ARENA_CAP](_ => 0);
      count, cursor, arenaUsed := 0, 0, 0;
    }

    method Reset()
      requires Valid()
      modifies this`count, this`cursor, this`arenaUsed
      ensures Valid() && Value() == UndoSpec.Reset(old(Value()))
    {
      count, cursor, arenaUsed := 0, 0, 0;
    }

    /** Drop the redo tail; the arena is cut back to the surviving deletions. */
    method Truncate()
      requires Valid()
      modifies this`count, this`arenaUsed
      ensures Valid() && Value() == UndoSpec.Truncate(old(Value()))
    {
      if cursor < count {
        var au := 0;
        var i := 0;
        while i < cursor
          invariant 0 <= i <= cursor && au == HighWater(recs[..i]) && au <= ARENA_CAP
        {
          assert recs[..i + 1][..i] == recs[..i];
          var r := recs[i];
          if r.kind == Delete {
            var end := r.off + r.len;
            if end > au {
              au := end;
            }
          }
          i := i + 1;
        }
        arenaUsed := au;
        assert recs[..cursor] == recs[..count][..cursor];
      }
      count := cursor;
    }

    /** Copy `len` bytes of `src` from `pos` on into the arena at `off`. */
    method Store(src: array<Byte>, pos: nat, len: nat, off: nat)
      requires Valid() && src != arena && pos + len <= src.Length && off + len <= ARENA_CAP
      modifies arena
      ensures arena[..] == Overwrite(old(arena[..]), off, src[pos..pos + len])
    {
      var i := 0;
      while i < len
        invariant 0 <= i <= len
        invariant arena[..off] == old(arena[..off])
        invariant arena[off..off + i] == src[pos..pos + i]
        invariant arena[off + i..] == old(arena[off + i..])
      {
        arena[off + i] := src[pos + i];
        i := i + 1;
      }
      assert arena[..] == arena[..off] + arena[off..off + len] + arena[off + len..];
    }

    method AppendRec(kind: Kind, src: array<Byte>, pos: nat, len: nat, caretBefore: nat)
      requires Valid() && src != arena && pos + len <= src.Length
      requires cursor == count < REC_CAP && arenaUsed + len <= ARENA_CAP
      modifies this`count, this`cursor, this`arenaUsed, recs, arena
      ensures Valid() && Value() == Append(old(Value()), kind, pos, src[pos..pos + len], caretBefore)
    {
      var off := arenaUsed;
      Store(src, pos, len, off);
      arenaUsed := arenaUsed + len;
      recs[count] := Rec(kind, pos, len, off, caretBefore, kind == Insert && len == 1);
      count := count + 1;
      cursor := count;
    }

    /**
     After the insertion: buf[pos..pos + len] holds the new bytes. `inside` tells whether a merge
     stored its byte in the arena; the code stores it past the end otherwise.
     */
    method PushInsert(buf: array<Byte>, pos: nat, len: nat, caretBefore: nat) returns (inside: bool)
      requires Valid() && buf != arena && pos + len <= buf.Length && 1 <= len
      modifies this`count, this`cursor, this`arenaUsed, recs, arena
      ensures Valid() && Value() == UndoSpec.PushInsert(old(Value()), pos, buf[pos..pos + len], caretBefore)
      ensures inside == MergeFits(old(Value()), pos, len)
    {
      Truncate();
      inside := true;
      if len == 1 && count > 0 {
        var prev := recs[count - 1];
        if prev.kind == Insert && prev.coalesce && prev.pos + prev.len == pos {
          if arenaUsed + 1 <= arena.Length {
            inside := MergeInto(prev, buf, pos);
            return;
          }
        }
      }
      assert !Merges(Value(), pos, len);
      if count >= REC_CAP {
        Reset();
      }
      if arenaUsed + len > arena.Length {
        Reset();
        return;
      }
      AppendRec(Insert, buf, pos, len, caretBefore);
    }

    /** Extend the last record by the byte at buf[pos]. */
    method MergeInto(prev: Rec, buf: array<Byte>, pos: nat) returns (inside: bool)
      requires Valid() && buf != arena && pos < buf.Length && cursor == count > 0 && prev == recs[count - 1]
      requires prev.kind == Insert && arenaUsed + 1 <= arena.Length
      modifies this`cursor, this`arenaUsed, recs, arena
      ensures Valid() && Value() == Merge(old(Value()), buf[pos..pos + 1]) && inside == (prev.End() < ARENA_CAP)
    {
      ghost var t := Value();
      inside := prev.off + prev.len < arena.Length;
      if inside {
        Store(buf, pos, 1, prev.off + prev.len);
      }
      arenaUsed := arenaUsed + 1;
      recs[count - 1] := prev.(len := prev.len + 1);
      cursor := count;
      assert Value().recs == Merge(t, buf[pos..pos + 1]).recs;
    }

    /** Before the deletion: buf[pos..pos + len] holds the bytes about to go. */
    method PushDelete(buf: array<Byte>, pos: nat, len: nat, caretBefore: nat)
      requires Valid() && buf != arena && pos + len <= buf.Length && 1 <= len <= ARENA_CAP
      modifies this`count, this`cursor, this`arenaUsed, recs, arena
      ensures Valid() && Value() == UndoSpec.PushDelete(old(Value()), pos, buf[pos..pos + len], caretBefore)
    {
      Truncate();
      if arenaUsed + len > arena.Length {
        Reset();
      }
      if count >= REC_CAP {
        return;
      }
      AppendRec(Delete, buf, pos, len, caretBefore);
    }
  }

  class CodeEditor {
    const buf: array<Byte>
    var length: nat
    var caret: nat
    var selActive: bool
    var selAnchor: nat
    const undo: UndoLog

    constructor ()
      ensures Valid() && Value().text == [] && caret == 0 && !selActive && undo.Value().recs == []
    {
      buf := new Byte[CODE_CAP](_ => 0);
      length, caret, selActive, selAnchor := 0, 0, false, 0;
      undo := new UndoLog();
    }

    /** The text, the log and their separation; the byte after the text is NUL. */
    ghost predicate Valid()
      reads this, buf, undo, undo.recs
    {
      && buf.Length == CODE_CAP && length < CODE_CAP && buf[length] == 0
      && undo.Valid() && buf != undo.arena
    }

    ghost function Value(): Editor
      requires Valid()
      reads this, buf, undo, undo.recs, undo.arena
    {
      Editor(buf[..length], caret, selActive, selAnchor, undo.Value())
    }

    // ---- Raw splices ----

    method DeleteRaw(pos: nat, len: nat)
      requires Valid() && pos + len <= length
      modifies this`length, buf
      ensures Valid() && buf[..length] == Cut(old(buf[..length]), pos, len)
    {
      hide Cut;
      ghost var text := buf[..length];
      var i := pos;
      while i + len < length
        invariant pos <= i <= length - len
        invariant forall k :: 0 <= k < pos ==> buf[k] == text[k]
        invariant forall k :: pos <= k < i ==> buf[k] == text[k + len]
        invariant forall k :: i <= k < length ==> buf[k] == text[k]
        modifies buf
      {
        buf[i] := buf[i + len];
        i := i + 1;
      }
      ghost var now := buf[..length - len];
      CutByBytes(text, pos, len, now);
      length := length - len;
      buf[length] := 0;
      assert buf[..length] == now;
    }

    lemma CutByBytes(text: Text, pos: nat, len: nat, now: Text)
      requires pos + len <= |text| && |now| == |text| - len
      requires forall k :: 0 <= k < pos ==> now[k] == text[k]
      requires forall k :: pos <= k < |now| ==> now[k] == text[k + len]
      ensures now == Cut(text, pos, len)
    {
    }

    /** Shift the tail up by `len`, last byte first. */
    method OpenGap(pos: nat, len: nat)
      requires Valid() && pos <= length && length + len < CODE_CAP
      modifies buf
      ensures buf[..pos] == old(buf[..pos]) && buf[pos + len..length + len] == old(buf[pos..length])
    {
      ghost var text := buf[..length];
      var i: int := length - 1;
      while i >= pos
        invariant pos - 1 <= i < length
        invariant forall k :: 0 <= k <= i ==> buf[k] == text[k]
        invariant forall k :: i + len < k < length + len ==> buf[k] == text[k - len]
        modifies buf
      {
        buf[i + len] := buf[i];
        i := i - 1;
      }
    }

    /** Copy `len` bytes of `src` over the gap at pos. */
    method FillGap(pos: nat, src: array<Byte>, off: nat, len: nat)
      requires src != buf && pos + len <= buf.Length && off + len <= src.Length
      modifies buf
      ensures buf[..pos] == old(buf[..pos]) && buf[pos + len..] == old(buf[pos + len..])
      ensures buf[pos..pos + len] == src[off..off + len]
    {
      var k := 0;
      while k < len
        invariant 0 <= k <= len
        invariant buf[..pos] == old(buf[..pos]) && buf[pos + k..] == old(buf[pos + k..])
        invariant buf[pos..pos + k] == src[off..off + k]
      {
        buf[pos + k] := src[off + k];
        k := k + 1;
      }
    }

    method InsertRaw(pos: nat, src: array<Byte>, off: nat, len: nat)
      requires Valid() && src != buf && pos <= length && off + len <= src.Length
      modifies this`length, buf
      ensures Valid() && buf[..length] == UndoSpec.InsertRaw(old(buf[..length]), pos, src[off..off + len])
    {
      if length + len >= CODE_CAP - 1 {
        return;
      }
      ghost var text := buf[..length];
      OpenGap(pos, len);
      assert buf[..pos] == text[..pos];
      assert buf[pos + len..][..length - pos] == text[pos..];
      FillGap(pos, src, off, len);
      length := length + len;
      assert buf[pos + len..length] == buf[pos + len..][..length - pos - len];
      assert buf[..length] == buf[..pos] + buf[pos..pos + len] + buf[pos + len..length];
      buf[length] := 0;
      assert buf[..length] == Splice(text, pos, src[off..off + len]);
    }

    // ---- Undo and redo ----

    method Undo() returns (done: bool)
      requires Valid() && UndoFits(Value())
      modifies this, buf, undo`cursor
      ensures Valid() && Value() == UndoSpec.Undo(old(Value()))
      ensures done == (old(undo.cursor) > 0)
    {
      hide Cut, UndoSpec.InsertRaw, Splice;
      if undo.cursor <= 0 {
        return false;
      }
      undo.cursor := undo.cursor - 1;
      var rec := undo.recs[undo.cursor];
      if rec.kind == Insert {
        DeleteRaw(rec.pos, rec.len);
        caret := rec.pos;
      } else {
        InsertRaw(rec.pos, undo.arena, rec.off, rec.len);
        caret := rec.pos + rec.len;
      }
      selActive := false;
      done := true;
    }

    method Redo() returns (done: bool)
      requires Valid() && RedoFits(Value())
      modifies this, buf, undo`cursor
      ensures Valid() && Value() == UndoSpec.Redo(old(Value()))
      ensures done == (old(undo.cursor) < old(undo.count))
    {
      hide Cut, UndoSpec.InsertRaw, Splice;
      if undo.cursor >= undo.count {
        return false;
      }
      var rec := undo.recs[undo.cursor];
      undo.cursor := undo.cursor + 1;
      if rec.kind == Insert {
        InsertRaw(rec.pos, undo.arena, rec.off, rec.len);
        caret := rec.pos + rec.len;
      } else {
        DeleteRaw(rec.pos, rec.len);
        caret := rec.pos;
      }
      selActive := false;
      done := true;
    }

    // ---- Edits ----

    /** Record bytes lo..hi and close the gap, leaving the caret at lo. */
    method DeleteRange(lo: nat, hi: nat)
      requires Valid() && Ready(Value()) && lo < hi <= length
      modifies this, buf, undo, undo.recs, undo.arena
      ensures Valid() && Value() == UndoSpec.DeleteRange(old(Value()), lo, hi)
    {
      assert buf[lo..hi] == buf[..length][lo..hi];
      undo.PushDelete(buf, lo, hi - lo, caret);
      DeleteRaw(lo, hi - lo);
      caret := lo;
      selActive := false;
    }

    method DeleteSelection() returns (removed: bool)
      requires Valid() && Ready(Value())
      modifies this, buf, undo, undo.recs, undo.arena
      ensures Valid() && Value() == UndoSpec.DeleteSelection(old(Value()))
      ensures removed == HasSelection(old(Value()))
    {
      if !selActive || selAnchor == caret {
        selActive := false;
        return false;
      }
      var lo := if selAnchor < caret then selAnchor else caret;
      var hi := if selAnchor > caret then selAnchor else caret;
      DeleteRange(lo, hi);
      removed := true;
    }

    method Backspace()
      requires Valid() && Ready(Value())
      modifies this, buf, undo, undo.recs, undo.arena
      ensures Valid() && Value() == UndoSpec.Backspace(old(Value()))
    {
      if selActive && selAnchor != caret {
        var _ := DeleteSelection();
        return;
      }
      selActive := false;
      if caret <= 0 {
        return;
      }
      DeleteRange(caret - 1, caret);
    }

    method InsertByte(b: Byte) returns (inside: bool)
      requires Valid() && Ready(Value()) && Ready(UndoSpec.DeleteSelection(Value()))
      modifies this, buf, undo, undo.recs, undo.arena
      ensures Valid() && Value() == TypeByte(old(Value()), b)
      ensures inside == PutStaysInside(UndoSpec.DeleteSelection(old(Value())))
    {
      if selActive && selAnchor != caret {
        var _ := DeleteSelection();
      }
      selActive := false;
      inside := PutByte(b);
    }

    method PutByte(b: Byte) returns (inside: bool)
      requires Valid() && Ready(Value())
      modifies this, buf, undo, undo.recs, undo.arena
      ensures Valid() && Value() == UndoSpec.PutByte(old(Value()), b)
      ensures inside == PutStaysInside(old(Value()))
    {
      if length + 1 >= CODE_CAP - 1 {
        return true;
      }
      var caretBefore := caret;
      InsertAtCaret(b);
      inside := undo.PushInsert(buf, caretBefore, 1, caretBefore);
    }

    /** The shifting loop of gt_editor_insert. */
    method InsertAtCaret(b: Byte)
      requires Valid() && caret <= length && length + 1 < CODE_CAP - 1
      modifies this`length, this`caret, buf
      ensures Valid() && caret == old(caret) + 1 <= length
      ensures buf[..length] == Splice(old(buf[..length]), old(caret), [b])
      ensures buf[old(caret)..caret] == [b]
    {
      ghost var text := buf[..length];
      OpenGap(caret, 1);
      buf[caret] := b;
      length := length + 1;
      buf[length] := 0;
      assert buf[..caret] == text[..caret] && buf[caret + 1..length] == text[caret..];
      assert buf[..length] == buf[..caret] + [buf[caret]] + buf[caret + 1..length];
      caret := caret + 1;
    }
  }
}
