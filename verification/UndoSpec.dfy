/**
 The code editor's text, selection and undo log as values
 (engine/engine_game_tree.mettle:417-622, 684-740, 826-881). The class in `CodeEditor`
 does these updates in place; `UndoTheorems` says what undo and redo are worth.
 */
module UndoSpec {
  import opened Bytes

  type Text = seq<Byte>

  const CODE_CAP: nat := 65536
  const REC_CAP: nat := 2048
  const ARENA_CAP: nat := 262144

  datatype Kind = Insert | Delete

  /** A recorded insertion or deletion of `len` bytes at `pos`; its bytes lie in the arena at `off`. */
  datatype Rec = Rec(kind: Kind, pos: nat, len: nat, off: nat, caretBefore: nat, coalesce: bool) {
    function End(): nat {
      off + len
    }
  }

  /** Records below `cursor` can be undone, the others redone. */
  datatype Log = Log(recs: seq<Rec>, cursor: nat, arena: Text, used: nat)

  datatype Editor = Editor(text: Text, caret: nat, selActive: bool, selAnchor: nat, log: Log)

  // ---- Text ----

  function Splice(text: Text, pos: nat, bytes: Text): Text
    requires pos <= |text|
  {
    text[..pos] + bytes + text[pos..]
  }

  function Cut(text: Text, pos: nat, len: nat): Text
    requires pos + len <= |text|
  {
    text[..pos] + text[pos + len..]
  }

  /** The raw insertion refuses a text that would reach the last usable byte. */
  function InsertRaw(text: Text, pos: nat, bytes: Text): Text
    requires pos <= |text|
  {
    if |text| + |bytes| >= CODE_CAP - 1 then text else Splice(text, pos, bytes)
  }

  // ---- The log ----

  function Reset(l: Log): Log {
    Log([], 0, l.arena, 0)
  }

  /** How far into the arena the deletions among `recs` reach. */
  function HighWater(recs: seq<Rec>): nat {
    if recs == [] then 0
    else
      var rest := HighWater(recs[..|recs| - 1]);
      var last := recs[|recs| - 1];
      if last.kind == Delete && last.End() > rest then last.End() else rest
  }

  function Truncate(l: Log): Log
    requires l.cursor <= |l.recs|
  {
    if l.cursor < |l.recs| then
      Log(l.recs[..l.cursor], l.cursor, l.arena, HighWater(l.recs[..l.cursor]))
    else l
  }

  function Overwrite(arena: Text, off: nat, bytes: Text): Text
    requires off + |bytes| <= |arena|
  {
    arena[..off] + bytes + arena[off + |bytes|..]
  }

  /** Whether an insertion extends the last record of a truncated log. */
  predicate Merges(l: Log, pos: nat, len: nat) {
    len == 1 && l.recs != [] && l.used + 1 <= |l.arena| &&
    var last := l.recs[|l.recs| - 1];
    last.kind == Insert && last.coalesce && last.pos + last.len == pos
  }

  /** Bytes past the arena's end are not stored in it. */
  function Store(arena: Text, off: nat, bytes: Text): (r: Text)
    ensures |r| == |arena|
  {
    if off + |bytes| <= |arena| then Overwrite(arena, off, bytes) else arena
  }

  /** An insertion at pos does not merge, or the byte its merge stores lies inside the arena. */
  predicate MergeFits(l: Log, pos: nat, len: nat)
    requires l.cursor <= |l.recs|
  {
    var t := Truncate(l);
    Merges(t, pos, len) ==> t.recs[|t.recs| - 1].End() < |t.arena|
  }

  function Append(l: Log, kind: Kind, pos: nat, bytes: Text, caretBefore: nat): Log
    requires l.used + |bytes| <= |l.arena|
  {
    Log(l.recs + [Rec(kind, pos, |bytes|, l.used, caretBefore, kind == Insert && |bytes| == 1)], |l.recs| + 1,
        Overwrite(l.arena, l.used, bytes), l.used + |bytes|)
  }

  function Merge(l: Log, bytes: Text): Log
    requires l.recs != [] && |bytes| == 1
  {
    var n := |l.recs| - 1;
    Log(l.recs[n := l.recs[n].(len := l.recs[n].len + 1)], |l.recs|,
        Store(l.arena, l.recs[n].End(), bytes), l.used + 1)
  }

  function PushInsert(l: Log, pos: nat, bytes: Text, caretBefore: nat): Log
    requires l.cursor <= |l.recs|
  {
    var t := Truncate(l);
    if Merges(t, pos, |bytes|) then Merge(t, bytes)
    else
      var u := if |t.recs| >= REC_CAP then Reset(t) else t;
      if u.used + |bytes| > |u.arena| then Reset(u) else Append(u, Insert, pos, bytes, caretBefore)
  }

  /** A full record table makes the deletion go unrecorded. */
  function PushDelete(l: Log, pos: nat, bytes: Text, caretBefore: nat): Log
    requires l.cursor <= |l.recs| && |bytes| <= |l.arena|
  {
    var t := Truncate(l);
    var u := if t.used + |bytes| > |t.arena| then Reset(t) else t;
    if |u.recs| >= REC_CAP then u else Append(u, Delete, pos, bytes, caretBefore)
  }

  // ---- The editor ----

  /** The record undo would apply fits the text. */
  predicate UndoFits(e: Editor) {
    e.log.cursor <= |e.log.recs| &&
    (e.log.cursor > 0 ==>
      var r := e.log.recs[e.log.cursor - 1];
      if r.kind == Insert then r.pos + r.len <= |e.text| else r.pos <= |e.text| && r.End() <= |e.log.arena|)
  }

  predicate RedoFits(e: Editor) {
    e.log.cursor <= |e.log.recs| &&
    (e.log.cursor < |e.log.recs| ==>
      var r := e.log.recs[e.log.cursor];
      if r.kind == Delete then r.pos + r.len <= |e.text| else r.pos <= |e.text| && r.End() <= |e.log.arena|)
  }

  function Undo(e: Editor): Editor
    requires UndoFits(e)
  {
    if e.log.cursor <= 0 then e
    else
      var r := e.log.recs[e.log.cursor - 1];
      var l := e.log.(cursor := e.log.cursor - 1);
      if r.kind == Insert then
        e.(text := Cut(e.text, r.pos, r.len), caret := r.pos, selActive := false, log := l)
      else
        e.(text := InsertRaw(e.text, r.pos, e.log.arena[r.off..r.End()]), caret := r.pos + r.len, selActive := false, log := l)
  }

  function Redo(e: Editor): Editor
    requires RedoFits(e)
  {
    if e.log.cursor >= |e.log.recs| then e
    else
      var r := e.log.recs[e.log.cursor];
      var l := e.log.(cursor := e.log.cursor + 1);
      if r.kind == Insert then
        e.(text := InsertRaw(e.text, r.pos, e.log.arena[r.off..r.End()]), caret := r.pos + r.len, selActive := false, log := l)
      else
        e.(text := Cut(e.text, r.pos, r.len), caret := r.pos, selActive := false, log := l)
  }

  predicate HasSelection(e: Editor) {
    e.selActive && e.selAnchor != e.caret
  }

  function SelLo(e: Editor): nat {
    if e.selAnchor < e.caret then e.selAnchor else e.caret
  }

  function SelHi(e: Editor): nat {
    if e.selAnchor > e.caret then e.selAnchor else e.caret
  }

  /** What every edit asks of the editor: a caret in the text, a selection inside it, room in the buffer. */
  predicate Ready(e: Editor) {
    && e.caret <= |e.text| < CODE_CAP
    && (e.selActive ==> e.selAnchor <= |e.text|)
    && e.log.cursor <= |e.log.recs| <= REC_CAP
    && |e.log.arena| == ARENA_CAP && e.log.used <= ARENA_CAP
  }

  function DeleteRange(e: Editor, lo: nat, hi: nat): Editor
    requires Ready(e) && lo <= hi <= |e.text|
  {
    e.(text := Cut(e.text, lo, hi - lo), caret := lo, selActive := false,
       log := PushDelete(e.log, lo, e.text[lo..hi], e.caret))
  }

  function DeleteSelection(e: Editor): Editor
    requires Ready(e)
  {
    if HasSelection(e) then DeleteRange(e, SelLo(e), SelHi(e)) else e.(selActive := false)
  }

  function Backspace(e: Editor): Editor
    requires Ready(e)
  {
    if HasSelection(e) then DeleteSelection(e)
    else if e.caret == 0 then e.(selActive := false)
    else DeleteRange(e, e.caret - 1, e.caret)
  }

  /** The insertion itself, once no selection is left. */
  function PutByte(e: Editor, b: Byte): Editor
    requires Ready(e)
  {
    if |e.text| + 1 >= CODE_CAP - 1 then e
    else e.(text := Splice(e.text, e.caret, [b]), caret := e.caret + 1, log := PushInsert(e.log, e.caret, [b], e.caret))
  }

  /** A byte typed here is refused, or its copy goes into the arena. */
  predicate PutStaysInside(e: Editor)
    requires e.log.cursor <= |e.log.recs|
  {
    |e.text| + 1 >= CODE_CAP - 1 || MergeFits(e.log, e.caret, 1)
  }

  function TypeByte(e: Editor, b: Byte): Editor
    requires Ready(e) && Ready(DeleteSelection(e))
  {
    PutByte(DeleteSelection(e), b)
  }
}
