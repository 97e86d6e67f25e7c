/**
 A session that stores a typed byte outside the arena: the deletions' mark is pushed close to
 the arena's end, a typed run is filled up to the end, and an undone edit lets truncation take
 `arena_used` back below the run.
 */
module UndoStray {
  import opened Bytes
  import opened UndoSpec
  import opened UndoTheorems
  import opened UndoRuns
  import opened UndoArena

  ghost predicate Reaches(e: Editor, ops: seq<Op>, r: Editor) {
    Session(e, ops, false) && After(e, ops, false) == r
  }

  lemma {:induction false} ReachesMore(e: Editor, a: seq<Op>, m: Editor, b: seq<Op>, r: Editor)
    requires Reaches(e, a, m) && Reaches(m, b, r)
    ensures Reaches(e, a + b, r)
    decreases |a|
  {
    hide Allowed, Step;
    if a == [] {
      assert a + b == b;
    } else {
      assert (a + b)[0] == a[0] && (a + b)[1..] == a[1..] + b;
      ReachesMore(Step(e, a[0]), a[1..], m, b, r);
    }
  }

  lemma ReachesOne(e: Editor, op: Op)
    requires Allowed(e, op, false)
    ensures Reaches(e, [op], Step(e, op))
  {
    hide Allowed, Step;
    var r := Step(e, op);
    assert [op][0] == op && [op][1..] == [];
    assert Session(r, [op][1..], false) && After(r, [op][1..], false) == r;
  }

  /** All that the session depends on: the records, the mark, and how long the text is. */
  ghost predicate At(e: Editor, recs: seq<Rec>, used: nat, length: nat, caret: nat) {
    && e.log.recs == recs && e.log.cursor == |recs| <= REC_CAP && e.log.used == used <= ARENA_CAP
    && |e.log.arena| == ARENA_CAP && |e.text| == length < CODE_CAP && e.caret == caret <= length
    && !e.selActive
  }

  function Typed(pos: nat, len: nat, off: nat): Rec {
    Rec(Insert, pos, len, off, pos, true)
  }

  function Keys(n: nat): (ops: seq<Op>)
    ensures |ops| == n
  {
    seq(n, _ => Type(120))
  }

  lemma FirstKey(e: Editor, recs: seq<Rec>, used: nat, length: nat, caret: nat) returns (r: Editor)
    requires At(e, recs, used, length, caret) && length <= 65533 && used < ARENA_CAP && |recs| < REC_CAP
    requires !Merges(e.log, caret, 1)
    ensures Reaches(e, Keys(1), r) && At(r, recs + [Typed(caret, 1, used)], used + 1, length + 1, caret + 1)
  {
    assert Keys(1) == [Type(120)] && Truncate(e.log) == e.log && DeleteSelection(e) == e;
    ReachesOne(e, Type(120));
    r := Step(e, Type(120));
  }

  lemma NextKey(e: Editor, recs: seq<Rec>, len: nat, off: nat, used: nat, length: nat, caret: nat) returns (r: Editor)
    requires caret >= len >= 1
    requires At(e, recs + [Typed(caret - len, len, off)], used, length, caret) && length <= 65533 && used < ARENA_CAP
    ensures Reaches(e, Keys(1), r)
    ensures At(r, recs + [Typed(caret - len, len + 1, off)], used + 1, length + 1, caret + 1)
    ensures Strays(e, Type(120)) <==> off + len >= ARENA_CAP
  {
    var n := |recs|;
    assert Keys(1) == [Type(120)] && Truncate(e.log) == e.log && DeleteSelection(e) == e;
    assert e.log.recs[|e.log.recs| - 1] == Typed(caret - len, len, off) && Merges(e.log, caret, 1);
    ReachesOne(e, Type(120));
    r := Step(e, Type(120));
    assert r.log.recs == recs + [Typed(caret - len, len + 1, off)];
  }

  lemma {:induction false} MoreKeys(e: Editor, recs: seq<Rec>, len: nat, off: nat, used: nat, length: nat, caret: nat, n: nat)
    returns (r: Editor)
    requires caret >= len >= 1 && length + n <= 65534 && used + n <= ARENA_CAP
    requires At(e, recs + [Typed(caret - len, len, off)], used, length, caret)
    ensures Reaches(e, Keys(n), r)
    ensures At(r, recs + [Typed(caret - len, len + n, off)], used + n, length + n, caret + n)
    decreases n
  {
    hide Reaches, Strays;
    if n == 0 {
      NoKeys(e);
      r := e;
    } else {
      var m := NextKey(e, recs, len, off, used, length, caret);
      assert (caret + 1) - (len + 1) == caret - len;
      r := MoreKeys(m, recs, len + 1, off, used + 1, length + 1, caret + 1, n - 1);
      assert Keys(n) == Keys(1) + Keys(n - 1);
      ReachesMore(e, Keys(1), m, Keys(n - 1), r);
    }
  }

  lemma NoKeys(e: Editor)
    ensures Reaches(e, Keys(0), e)
  {
    assert Keys(0) == [];
  }

  /** A run of keys is one record. */
  lemma TypeRun(e: Editor, recs: seq<Rec>, used: nat, length: nat, caret: nat, n: nat) returns (r: Editor)
    requires At(e, recs, used, length, caret) && !Merges(e.log, caret, 1) && |recs| < REC_CAP
    requires n >= 1 && length + n <= 65534 && used + n <= ARENA_CAP
    ensures Reaches(e, Keys(n), r)
    ensures At(r, recs + [Typed(caret, n, used)], used + n, length + n, caret + n)
  {
    hide Reaches, Merges;
    var m := FirstKey(e, recs, used, length, caret);
    r := MoreKeys(m, recs, 1, used, used + 1, length + 1, caret + 1, n - 1);
    assert Keys(n) == Keys(1) + Keys(n - 1);
    ReachesMore(e, Keys(1), m, Keys(n - 1), r);
  }

  /** Selecting everything from the end of the text and erasing it. */
  lemma EraseAll(e: Editor, recs: seq<Rec>, used: nat, n: nat) returns (r: Editor)
    requires At(e, recs, used, n, n) && n >= 1 && used + n <= ARENA_CAP && |recs| < REC_CAP
    ensures Reaches(e, [Place(n, true, 0), Erase], r)
    ensures At(r, recs + [Rec(Delete, 0, n, used, n, false)], used + n, 0, 0)
  {
    var s := Step(e, Place(n, true, 0));
    ReachesOne(e, Place(n, true, 0));
    assert Truncate(s.log) == s.log && HasSelection(s) && SelLo(s) == 0 && SelHi(s) == n;
    ReachesOne(s, Erase);
    r := Step(s, Erase);
    hide Reaches;
    ReachesMore(e, [Place(n, true, 0)], s, [Erase], r);
    assert [Place(n, true, 0)] + [Erase] == [Place(n, true, 0), Erase];
  }

  // ---- The session ----

  const FULL: nat := 65534

  /** Two full texts typed and erased leave the deletions' mark at 262136. */
  function Filled(): seq<Rec> {
    [Typed(0, FULL, 0), Rec(Delete, 0, FULL, 65534, FULL, false),
     Typed(0, FULL, 131068), Rec(Delete, 0, FULL, 196602, FULL, false)]
  }

  function FillOnce(): seq<Op> {
    Keys(FULL) + [Place(FULL, true, 0), Erase]
  }

  /** A byte in front of the run, undone, and the caret back at the run's end. */
  function Detour(): seq<Op> {
    [Place(0, false, 0), Type(120), Op.Undo, Place(7, false, 0)]
  }

  /** All of the session but its last key. */
  function Prelude(): seq<Op> {
    FillOnce() + FillOnce() + Keys(7) + Detour() + Keys(1)
  }

  lemma FillTwice(e: Editor) returns (r: Editor)
    requires Loaded(e) && e.text == []
    ensures Reaches(e, FillOnce() + FillOnce(), r) && At(r, Filled(), 262136, 0, 0)
  {
    var a := TypeRun(e, [], 0, 0, 0, FULL);
    assert [] + [Typed(0, FULL, 0)] == [Typed(0, FULL, 0)];
    var b := EraseAll(a, [Typed(0, FULL, 0)], FULL, FULL);
    var two := [Typed(0, FULL, 0)] + [Rec(Delete, 0, FULL, FULL, FULL, false)];
    assert two[|two| - 1].kind == Delete;
    var c := TypeRun(b, two, 131068, 0, 0, FULL);
    r := EraseAll(c, two + [Typed(0, FULL, 131068)], 196602, FULL);
    hide Reaches, At;
    assert two + [Typed(0, FULL, 131068)] + [Rec(Delete, 0, FULL, 196602, FULL, false)] == Filled();
    ReachesMore(e, Keys(FULL), a, [Place(FULL, true, 0), Erase], b);
    ReachesMore(b, Keys(FULL), c, [Place(FULL, true, 0), Erase], r);
    ReachesMore(e, FillOnce(), b, FillOnce(), r);
  }

  /** The detour leaves an undone record behind the seven-byte run. */
  lemma DetourTaken(e: Editor) returns (r: Editor)
    requires At(e, Filled() + [Typed(0, 7, 262136)], 262143, 7, 7)
    ensures Reaches(e, Detour(), r)
    ensures r.log.recs == Filled() + [Typed(0, 7, 262136), Typed(0, 1, 262143)] && r.log.cursor == 5
    ensures |r.log.arena| == ARENA_CAP && r.log.used == ARENA_CAP && |r.text| == 7 && r.caret == 7 && !r.selActive
  {
    var five := Filled() + [Typed(0, 7, 262136)];
    var a := Step(e, Place(0, false, 0));
    ReachesOne(e, Place(0, false, 0));
    assert five[4] == Typed(0, 7, 262136) && !Merges(a.log, 0, 1);
    var b := FirstKey(a, five, 262143, 7, 0);
    assert Keys(1) == [Type(120)];
    assert b.log.recs == five + [Typed(0, 1, 262143)] && b.log.recs[5] == Typed(0, 1, 262143);
    assert UndoFits(b);
    ReachesOne(b, Op.Undo);
    var c := Step(b, Op.Undo);
    ReachesOne(c, Place(7, false, 0));
    r := Step(c, Place(7, false, 0));
    hide Reaches;
    ReachesMore(e, [Place(0, false, 0)], a, Keys(1), b);
    ReachesMore(c, [], c, [Place(7, false, 0)], r);
    ReachesMore(b, [Op.Undo], c, [Place(7, false, 0)], r);
    ReachesMore(e, [Place(0, false, 0)] + Keys(1), b, [Op.Undo] + [Place(7, false, 0)], r);
    assert [Place(0, false, 0)] + Keys(1) + ([Op.Undo] + [Place(7, false, 0)]) == Detour();
    assert five + [Typed(0, 1, 262143)] == Filled() + [Typed(0, 7, 262136), Typed(0, 1, 262143)];
  }

  lemma MarkOfFilled()
    ensures HighWater(Filled() + [Typed(0, 7, 262136)]) == 262136
  {
    var f := Filled() + [Typed(0, 7, 262136)];
    assert f[..4][..3][..2][..1][..0] == [];
    assert HighWater(f[..4][..3][..2][..1]) == 0;
    assert HighWater(f[..4][..3][..2]) == 131068;
    assert HighWater(f[..4][..3]) == 131068;
    assert HighWater(f[..4]) == 262136;
  }

  /** The next key truncates, and its byte is the last one the arena holds. */
  lemma KeyBackInRun(e: Editor) returns (r: Editor)
    requires e.log.recs == Filled() + [Typed(0, 7, 262136), Typed(0, 1, 262143)] && e.log.cursor == 5
    requires |e.log.arena| == ARENA_CAP && e.log.used == ARENA_CAP && |e.text| == 7 && e.caret == 7 && !e.selActive
    ensures Reaches(e, Keys(1), r) && At(r, Filled() + [Typed(0, 8, 262136)], 262137, 8, 8)
  {
    var five := Filled() + [Typed(0, 7, 262136)];
    MarkOfFilled();
    assert e.log.recs[..5] == five;
    hide HighWater;
    var t := Truncate(e.log);
    assert t == Log(five, 5, e.log.arena, 262136);
    assert five[4] == Typed(0, 7, 262136) && Merges(t, 7, 1);
    assert Keys(1) == [Type(120)] && DeleteSelection(e) == e;
    ReachesOne(e, Type(120));
    r := Step(e, Type(120));
    assert five[4 := Typed(0, 8, 262136)] == Filled() + [Typed(0, 8, 262136)];
  }

  /** From an empty text the session reaches a state in which the next key is stored outside the arena. */
  lemma SessionStrays(e: Editor) returns (r: Editor)
    requires Loaded(e) && e.text == []
    ensures Session(e, Prelude(), false) && After(e, Prelude(), false) == r
    ensures Allowed(r, Type(120), false) && Strays(r, Type(120))
  {
    var a := FillTwice(e);
    assert Filled()[3].kind == Delete && !Merges(a.log, 0, 1);
    var b := TypeRun(a, Filled(), 262136, 0, 0, 7);
    var c := DetourTaken(b);
    r := KeyBackInRun(c);
    var beyond := NextKey(r, Filled(), 8, 262136, 262137, 8, 8);
    assert DeleteSelection(r) == r;
    hide At, Strays, Filled;
    ReachesMore(e, FillOnce() + FillOnce(), a, Keys(7), b);
    ReachesMore(e, FillOnce() + FillOnce() + Keys(7), b, Detour(), c);
    ReachesMore(e, FillOnce() + FillOnce() + Keys(7) + Detour(), c, Keys(1), r);
  }
}
