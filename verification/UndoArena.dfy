/**
 Whether the byte a merge stores lies inside the arena. The code compares `arena_used` with the
 capacity and then stores after the last insertion's bytes, which truncation may have left far
 above `arena_used` (engine/engine_game_tree.mettle:432-454, 481-494).
 */
module UndoArena {
  import opened Bytes
  import opened UndoSpec
  import opened UndoTheorems
  import opened UndoRuns

  /** What the next record may overwrite from: the mark a truncation would leave. */
  function Mark(l: Log): nat
    requires l.cursor <= |l.recs|
  {
    if l.cursor < |l.recs| then HighWater(l.recs[..l.cursor]) else l.used
  }

  /** Typing at pos would extend the record below the cursor. */
  predicate ExtendsTop(l: Log, pos: nat)
    requires l.cursor <= |l.recs|
  {
    l.cursor > 0 &&
    var top := l.recs[l.cursor - 1];
    top.kind == Insert && top.coalesce && top.pos + top.len == pos
  }

  /**
   A merge stores its byte outside the arena exactly when the surviving insertion reaches the
   arena's end although the mark does not.
   */
  lemma MergeStraysIff(l: Log, pos: nat)
    requires l.cursor <= |l.recs|
    ensures !MergeFits(l, pos, 1) <==>
      ExtendsTop(l, pos) && Mark(l) < |l.arena| <= l.recs[l.cursor - 1].End()
  {
    hide HighWater;
    TruncateFacts(l);
  }

  /** The operation types a byte whose copy is stored outside the arena. */
  predicate Strays(e: Editor, op: Op) {
    op.Type? && Ready(e) && Ready(DeleteSelection(e)) && !PutStaysInside(DeleteSelection(e))
  }

  ghost predicate NeverStrays(e: Editor, ops: seq<Op>, redo: bool)
    requires Session(e, ops, redo)
    decreases |ops|
  {
    ops == [] || (!Strays(e, ops[0]) && NeverStrays(Step(e, ops[0]), ops[1..], redo))
  }

  // ---- Sessions that keep the records apart ----

  /** A session with redo edited only where `Disciplined` allows stores every byte inside the arena. */
  lemma {:induction false} DisciplinedNeverStrays(e: Editor, texts: seq<Text>, ops: seq<Op>)
    requires Exact(e, texts, true) && Session(e, ops, true)
    ensures NeverStrays(e, ops, true)
    decreases |ops|
  {
    if ops != [] {
      DisciplinedStays(e, texts, ops[0]);
      StepExact(e, texts, ops[0], true);
      hide Exact, Allowed, Step, NextTexts, Strays;
      DisciplinedNeverStrays(Step(e, ops[0]), NextTexts(e, texts, ops[0]), ops[1..]);
    }
  }

  lemma DisciplinedStays(e: Editor, texts: seq<Text>, op: Op)
    requires Exact(e, texts, true) && Allowed(e, op, true)
    ensures !Strays(e, op)
  {
    if op.Type? {
      SelectionExact(e, texts, true);
      var d := DeleteSelection(e);
      assert ExactLog(d.log, TextsAfterErase(e, texts), true);
      ExactMergeFits(d.log, TextsAfterErase(e, texts), d.caret);
    }
    hide DeleteSelection, TextsAfterErase, MergeFits, Exact, ExactLog;
  }

  // ---- Sessions within a byte budget ----

  /** Nothing recorded since the history began reaches beyond `paid` bytes. */
  ghost predicate Within(l: Log, paid: nat) {
    l.cursor <= |l.recs| && l.used <= paid && forall i :: 0 <= i < |l.recs| ==> l.recs[i].End() <= paid
  }

  /** As long as the bytes recorded so far leave room, a merge stays inside the arena. */
  lemma WithinFits(l: Log, paid: nat, pos: nat)
    requires Within(l, paid) && paid < |l.arena|
    ensures MergeFits(l, pos, 1)
  {
    TruncateFacts(l);
  }

  lemma WithinAfterTruncate(l: Log, paid: nat)
    requires Within(l, paid)
    ensures Within(Truncate(l), paid)
  {
    HighWaterCovers(l.recs[..l.cursor]);
  }

  lemma WithinAfterInsert(l: Log, paid: nat, pos: nat, b: Byte, caretBefore: nat)
    requires Within(l, paid) && paid < |l.arena|
    ensures Within(PushInsert(l, pos, [b], caretBefore), paid + 1)
    ensures |PushInsert(l, pos, [b], caretBefore).arena| == |l.arena|
  {
    hide HighWater, Truncate;
    WithinFits(l, paid, pos);
    WithinAfterTruncate(l, paid);
    TruncateFacts(l);
  }

  lemma WithinAfterDelete(l: Log, paid: nat, pos: nat, bytes: Text, caretBefore: nat)
    requires Within(l, paid) && paid + |bytes| <= |l.arena|
    ensures Within(PushDelete(l, pos, bytes, caretBefore), paid + |bytes|)
    ensures |PushDelete(l, pos, bytes, caretBefore).arena| == |l.arena|
  {
    hide HighWater, Truncate;
    WithinAfterTruncate(l, paid);
    TruncateFacts(l);
  }

  /** The bytes an operation records. */
  function Cost(e: Editor, op: Op): nat {
    var selected := if HasSelection(e) then SelHi(e) - SelLo(e) else 0;
    match op
    case Type(_) => selected + 1
    case Backspace => selected + 1
    case Erase => selected
    case Undo => 0
    case Redo => 0
    case Place(_, _, _) => 0
  }

  /** One operation records at most its cost, and strays only when that exceeds the room left. */
  lemma StepWithin(e: Editor, op: Op, redo: bool, paid: nat)
    requires Allowed(e, op, redo) && Within(e.log, paid) && paid + Cost(e, op) <= |e.log.arena|
    ensures Within(Step(e, op).log, paid + Cost(e, op)) && |Step(e, op).log.arena| == |e.log.arena|
    ensures !Strays(e, op)
  {
    hide PushInsert, PushDelete, Truncate, HighWater, MergeFits;
    var selected := if HasSelection(e) then SelHi(e) - SelLo(e) else 0;
    if HasSelection(e) && (op.Type? || op.Backspace? || op.Erase?) {
      WithinAfterDelete(e.log, paid, SelLo(e), e.text[SelLo(e)..SelHi(e)], e.caret);
    }
    match op {
      case Type(b) =>
        var d := DeleteSelection(e);
        WithinAfterInsert(d.log, paid + selected, d.caret, b, d.caret);
        WithinFits(d.log, paid + selected, d.caret);
      case Backspace =>
        if !HasSelection(e) && e.caret > 0 {
          WithinAfterDelete(e.log, paid, e.caret - 1, e.text[e.caret - 1..e.caret], e.caret);
        }
      case _ =>
    }
  }

  /** The bytes a session records at most. */
  ghost function TotalCost(e: Editor, ops: seq<Op>, redo: bool): nat
    requires Session(e, ops, redo)
    decreases |ops|
  {
    if ops == [] then 0 else Cost(e, ops[0]) + TotalCost(Step(e, ops[0]), ops[1..], redo)
  }

  lemma {:induction false} BudgetNeverStrays(e: Editor, ops: seq<Op>, redo: bool, paid: nat)
    requires Session(e, ops, redo) && Within(e.log, paid) && paid + TotalCost(e, ops, redo) <= |e.log.arena|
    ensures NeverStrays(e, ops, redo)
    decreases |ops|
  {
    if ops != [] {
      StepWithin(e, ops[0], redo, paid);
      hide Within, Allowed, Step, Strays, Cost;
      BudgetNeverStrays(Step(e, ops[0]), ops[1..], redo, paid + Cost(e, ops[0]));
    }
  }

  /** From a loaded text, 256 KB of typing and deleting never store outside the arena. */
  lemma SmallSessionNeverStrays(e: Editor, ops: seq<Op>, redo: bool)
    requires Loaded(e) && Session(e, ops, redo) && TotalCost(e, ops, redo) <= ARENA_CAP
    ensures NeverStrays(e, ops, redo)
  {
    BudgetNeverStrays(e, ops, redo, 0);
  }
}
