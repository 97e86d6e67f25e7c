/**
 The wire round trip: what a receiver sees is what was sent, however the bytes are chunked.
 */
module PlayWireTheorems {
  import opened Bytes
  import opened PlayWire

  // ---- Numbers ----

  lemma {:induction false} DigitsValue(n: nat)
    requires n <= 0x8000_0000_0000_0000
    ensures DigitValue(Digits(n)) == Wrap64(n)
  {
    var s := Digits(n);
    if n >= 10 {
      DigitsValue(n / 10);
      assert s[..|s| - 1] == Digits(n / 10);
    } else {
      assert s[..|s| - 1] == [];
      assert DigitValue([]) == 0;
    }
  }

  lemma {:induction false} DigitsEndAt(s: seq<Byte>, i: nat, e: nat)
    requires i <= e <= |s| && (forall k :: i <= k < e ==> IsDigit(s[k])) && (e == |s| || !IsDigit(s[e]))
    ensures DigitsEnd(s, i) == e
    decreases e - i
  {
    if i < e {
      DigitsEndAt(s, i + 1, e);
    }
  }

  lemma DigitsAtol(n: nat)
    requires n < 0x8000_0000_0000_0000
    ensures Atol(Digits(n)) == n
  {
    var s := Digits(n);
    DigitsEndAt(s, 0, |s|);
    DigitsValue(n);
    hide Digits, DigitValue;
    assert s[..|s|] == s;
  }

  lemma MinusAtol(n: nat)
    requires n <= 0x8000_0000_0000_0000
    ensures Atol([MINUS] + Digits(n)) + n == 0
  {
    var d := Digits(n);
    var s := [MINUS] + d;
    hide Digits, DigitValue;
    assert forall k :: 1 <= k < |s| ==> s[k] == d[k - 1];
    DigitsEndAt(s, 1, |s|);
    assert s[1..|s|] == d;
    DigitsValue(n);
  }

  /** Parsing undoes printing on every 64-bit number. */
  lemma DecimalRoundTrip(v: int)
    requires Int64(v)
    ensures Atol(Decimal(v)) == v
  {
    if v < 0 {
      MinusAtol(-v);
    } else {
      DigitsAtol(v);
    }
  }

  function Pow10(k: nat): nat {
    if k == 0 then 1 else 10 * Pow10(k - 1)
  }

  lemma {:induction false} DigitsLength(n: nat, k: nat)
    requires k >= 1 && n < Pow10(k)
    ensures |Digits(n)| <= k
  {
    if n >= 10 {
      assert Pow10(k) == 10 * Pow10(k - 1);
      assert k > 1;
      DigitsLength(n / 10, k - 1);
    }
  }

  lemma Decimal32Length(v: int)
    requires Int32(v)
    ensures 1 <= |Decimal(v)| <= 11
  {
    assert Pow10(5) == 100000 by {
      assert Pow10(2) == 100;
    }
    assert Pow10(8) == 100000000;
    assert Pow10(10) == 10000000000;
    DigitsLength(if v < 0 then -v else v, 10);
  }

  lemma {:induction false} FieldsLength(vs: seq<int>)
    requires AllInt32(vs)
    ensures |IntFields(vs)| <= 12 * |vs|
    ensures vs != [] ==> IntFields(vs) != [] && IntFields(vs)[|IntFields(vs)| - 1] == SPACE
  {
    if vs != [] {
      FieldsLength(vs[..|vs| - 1]);
      Decimal32Length(vs[|vs| - 1]);
    }
  }

  // ---- Tokens ----

  lemma {:induction false} SkipSpacesAt(line: seq<Byte>, pos: nat, start: nat)
    requires pos <= start <= MAX_LINE && At(line, start) != SPACE
    requires forall k :: pos <= k < start ==> At(line, k) == SPACE
    ensures SkipSpaces(line, pos) == start
    decreases start - pos
  {
    if pos < start {
      SkipSpacesAt(line, pos + 1, start);
    }
  }

  lemma {:induction false} TokenEndAt(line: seq<Byte>, pos: nat, end: nat, room: nat)
    requires pos <= end <= MAX_LINE && end - pos <= room && (EndsToken(At(line, end)) || end - pos == room)
    requires forall k :: pos <= k < end ==> !EndsToken(At(line, k))
    ensures TokenEnd(line, pos, room) == end
    decreases room
  {
    if pos < end {
      TokenEndAt(line, pos + 1, end, room - 1);
    }
  }

  /** pos stands before `start`, with at most one space between. */
  predicate JustBefore(line: seq<Byte>, pos: nat, start: nat) {
    pos == start || (pos + 1 == start && At(line, pos) == SPACE)
  }

  predicate Holds(line: seq<Byte>, start: nat, s: seq<Byte>) {
    start + |s| <= |line| && forall k :: start <= k < start + |s| ==> line[k] == s[k - start]
  }

  lemma HoldsBoth(line: seq<Byte>, start: nat, a: seq<Byte>, b: seq<Byte>)
    ensures Holds(line, start, a + b) <==> Holds(line, start, a) && Holds(line, start + |a|, b)
  {
    if Holds(line, start, a + b) {
      assert forall k :: start + |a| <= k < start + |a + b| ==> line[k] == (a + b)[k - start];
    }
  }

  lemma HoldsAt(line: seq<Byte>, start: nat, s: seq<Byte>, k: nat)
    requires Holds(line, start, s) && k < |s|
    ensures At(line, start + k) == s[k]
  {
  }

  lemma HoldsSpan(line: seq<Byte>, start: nat, s: seq<Byte>)
    requires Holds(line, start, s)
    ensures Span(line, start, start + |s|) == s
  {
  }

  lemma DecimalBytes(v: int, k: nat)
    requires k < |Decimal(v)|
    ensures IsDigit(Decimal(v)[k]) || Decimal(v)[k] == MINUS
  {
    if v < 0 && k > 0 {
      assert Decimal(v)[k] == Digits(-v)[k - 1];
    }
  }

  lemma IntAt(line: seq<Byte>, pos: nat, start: nat, v: int)
    requires Holds(line, start, IntField(v)) && |line| <= MAX_LINE
    requires Int32(v) && JustBefore(line, pos, start)
    ensures NextInt(line, pos) == (v, start + |Decimal(v)|)
    ensures At(line, start + |Decimal(v)|) == SPACE
  {
    var d := Decimal(v);
    var end := start + |d|;
    Decimal32Length(v);
    HoldsBoth(line, start, d, [SPACE]);
    HoldsAt(line, end, [SPACE], 0);
    NumberAt(line, start, v);
    SkipSpacesAt(line, pos, start);
    hide Decimal, Atol, Holds, SkipSpaces, TokenEnd, Wrap32;
    TokenEndAt(line, start, end, TOKEN_CAP - 1);
    HoldsSpan(line, start, d);
    DecimalRoundTrip(v);
  }

  lemma NumberAt(line: seq<Byte>, start: nat, v: int)
    requires Holds(line, start, Decimal(v)) && Decimal(v) != []
    ensures forall k :: start <= k < start + |Decimal(v)| ==> !EndsToken(At(line, k))
    ensures At(line, start) != SPACE
  {
    hide Decimal;
    forall k | start <= k < start + |Decimal(v)|
      ensures !EndsToken(At(line, k))
    {
      DecimalBytes(v, k - start);
    }
  }

  lemma FieldsSplit(vs: seq<int>)
    requires vs != []
    ensures IntFields(vs) == IntFields(vs[..|vs| - 1]) + IntField(vs[|vs| - 1])
    ensures |IntField(vs[|vs| - 1])| == |Decimal(vs[|vs| - 1])| + 1
  {
  }

  lemma ReadStep(line: seq<Byte>, pos: nat, n: nat, before: (seq<int>, nat), last: (int, nat))
    requires n > 0 && ReadInts(line, pos, n - 1) == before && NextInt(line, before.1) == last
    ensures ReadInts(line, pos, n) == (before.0 + [last.0], last.1)
  {
  }

  lemma ReadNone(line: seq<Byte>, pos: nat)
    ensures ReadInts(line, pos, 0) == ([], pos) && IntFields([]) == []
  {
  }

  lemma {:induction false} IntsAt(line: seq<Byte>, pos: nat, vs: seq<int>)
    requires Holds(line, pos + 1, IntFields(vs)) && |line| <= MAX_LINE
    requires AllInt32(vs) && At(line, pos) == SPACE
    ensures ReadInts(line, pos, |vs|) == (vs, pos + |IntFields(vs)|)
    ensures At(line, pos + |IntFields(vs)|) == SPACE
  {
    hide Holds, NextInt, IntFields, ReadInts, IntField, Decimal, At;
    if vs == [] {
      ReadNone(line, pos);
    } else {
      var most, last := vs[..|vs| - 1], vs[|vs| - 1];
      FieldsSplit(vs);
      HoldsBoth(line, pos + 1, IntFields(most), IntField(last));
      IntsAt(line, pos, most);
      var q := pos + |IntFields(most)|;
      assert q + 1 == pos + 1 + |IntFields(most)|;
      IntAt(line, q, q + 1, last);
      ReadStep(line, pos, |vs|, (most, q), (last, q + 1 + |Decimal(last)|));
      assert vs == most + [last];
    }
  }

  lemma {:induction false} StrEndAt(line: seq<Byte>, pos: nat, end: nat)
    requires pos <= end <= MAX_LINE && forall k :: pos <= k < end ==> !Breaks(At(line, k))
    ensures StrEnd(line, pos, end - pos) == end
    decreases end - pos
  {
    if pos < end {
      StrEndAt(line, pos + 1, end);
    }
  }

  lemma StrFieldParts(s: seq<Byte>, limit: nat)
    requires limit < 0x8000_0000
    ensures var c := Cut(s, limit); var n := IntField(|c|);
      && StrField(s, limit) == n + c + [SPACE] && |n| == |Decimal(|c|)| + 1 && |c| <= limit && Int32(|c|)
  {
    hide Decimal;
  }

  /** A length-prefixed string comes back up to its first break or the limit, spaces and all. */
  lemma StrAt(line: seq<Byte>, pos: nat, start: nat, s: seq<Byte>, limit: nat)
    requires Holds(line, start, StrField(s, limit)) && |line| <= MAX_LINE && limit < 0x8000_0000
    requires JustBefore(line, pos, start)
    ensures ReadLenStr(line, pos, limit + 1) == (Cut(s, limit), start + |StrField(s, limit)|)
  {
    var c := Cut(s, limit);
    var n := IntField(|c|);
    hide *;
    StrFieldParts(s, limit);
    HoldsBoth(line, start, n + c, [SPACE]);
    HoldsBoth(line, start, n, c);
    HoldsAt(line, start + |n + c|, [SPACE], 0);
    IntAt(line, pos, start, |c|);
    CutAt(line, start + |n|, s, limit);
    HoldsSpan(line, start + |n|, c);
    ReadLenStrIs(line, pos, limit + 1, |c|, start + |n|, c);
  }

  lemma ReadLenStrIs(line: seq<Byte>, pos: nat, cap: nat, want: nat, start: nat, c: seq<Byte>)
    requires start > 0 && NextInt(line, pos) == (want, start - 1) && At(line, start - 1) == SPACE
    requires StrEnd(line, start, want) == start + |c| && |c| < cap && Span(line, start, start + |c|) == c
    requires At(line, start + |c|) == SPACE
    ensures ReadLenStr(line, pos, cap) == (c, start + |c| + 1)
  {
    hide NextInt, StrEnd, Span;
  }

  lemma CutAt(line: seq<Byte>, start: nat, s: seq<Byte>, limit: nat)
    requires Holds(line, start, Cut(s, limit)) && |line| <= MAX_LINE
    ensures StrEnd(line, start, |Cut(s, limit)|) == start + |Cut(s, limit)|
  {
    StrEndAt(line, start, start + |Cut(s, limit)|);
  }

  // ---- Lines ----

  lemma BodyFits(m: Message)
    requires Encodable(m)
    ensures if m.Stop? then |Body(m)| == |m.reason| + 6 else |Body(m)| <= 900
  {
    match m {
      case Welcome(vs) => FieldsLength(vs);
      case SceneBegin(vs) => FieldsLength(vs);
      case SceneEnd =>
      case EntityRow(vs, mesh, name) =>
        FieldsLength(vs);
        Decimal32Length(|Cut(mesh, 519)|);
        Decimal32Length(|Cut(name, 127)|);
      case Input(vs) => FieldsLength(vs);
      case Xform(vs) => FieldsLength(vs);
      case Stop(reason) =>
    }
  }

  predicate Unbroken(s: seq<Byte>) {
    forall k :: 0 <= k < |s| ==> !Breaks(s[k])
  }

  lemma {:induction false} FieldsUnbroken(vs: seq<int>)
    ensures Unbroken(IntFields(vs))
  {
    if vs != [] {
      FieldsUnbroken(vs[..|vs| - 1]);
      DecimalUnbroken(vs[|vs| - 1]);
    }
  }

  lemma DecimalUnbroken(v: int)
    ensures Unbroken(IntField(v))
  {
    assert forall k :: 0 <= k < |Decimal(v)| ==> IsDigit(Decimal(v)[k]) || Decimal(v)[k] == MINUS;
  }

  lemma UnbrokenBoth(a: seq<Byte>, b: seq<Byte>)
    requires Unbroken(a) && Unbroken(b)
    ensures Unbroken(a + b)
  {
  }

  lemma StrUnbroken(s: seq<Byte>, limit: nat)
    ensures Unbroken(StrField(s, limit))
  {
    DecimalUnbroken(|Cut(s, limit)|);
    UnbrokenBoth(IntField(|Cut(s, limit)|), Cut(s, limit));
  }

  lemma BodyUnbroken(m: Message)
    requires Encodable(m) && (m.Stop? ==> Unbroken(m.reason))
    ensures Unbroken(Body(m))
  {
    hide IntFields, StrField, AllInt32;
    match m {
      case Welcome(vs) => FieldsUnbroken(vs); UnbrokenBoth(WELCOME + [SPACE], IntFields(vs));
      case SceneBegin(vs) => FieldsUnbroken(vs); UnbrokenBoth(SCENE_BEGIN + [SPACE], IntFields(vs));
      case SceneEnd =>
      case EntityRow(vs, mesh, name) =>
        FieldsUnbroken(vs);
        StrUnbroken(mesh, 519);
        StrUnbroken(name, 127);
        UnbrokenBoth(ENTITY + [SPACE], IntFields(vs));
        UnbrokenBoth(ENTITY + [SPACE] + IntFields(vs), StrField(mesh, 519));
        UnbrokenBoth(ENTITY + [SPACE] + IntFields(vs) + StrField(mesh, 519), StrField(name, 127));
      case Input(vs) => FieldsUnbroken(vs); UnbrokenBoth(INPUT + [SPACE], IntFields(vs));
      case Xform(vs) => FieldsUnbroken(vs); UnbrokenBoth(XFORM + [SPACE], IntFields(vs));
      case Stop(reason) => UnbrokenBoth(STOP + [SPACE] + reason, [SPACE]);
    }
  }

  /** The one newline of an encoded line is its last byte, unless a stop reason brings its own. */
  lemma OneNewlineIff(m: Message)
    requires Encodable(m)
    ensures Encode(m)[|Encode(m)| - 1] == LF
    ensures LF !in Body(m) <==> OneLine(m)
  {
    if m.Stop? {
      assert Body(m) == STOP + [SPACE] + m.reason + [SPACE];
      assert LF !in STOP && LF !in [SPACE];
    } else {
      BodyUnbroken(m);
    }
  }

  lemma CommandAt(line: seq<Byte>, keyword: seq<Byte>)
    requires Holds(line, 0, keyword) && |keyword| < TOKEN_CAP && EndsToken(At(line, |keyword|))
    requires forall k :: 0 <= k < |keyword| ==> !EndsToken(keyword[k])
    ensures TokenEnd(line, 0, TOKEN_CAP - 1) == |keyword| && Span(line, 0, |keyword|) == keyword
  {
    TokenEndAt(line, 0, |keyword|, TOKEN_CAP - 1);
  }

  lemma IntsLine(line: seq<Byte>, keyword: seq<Byte>, vs: seq<int>)
    requires Holds(line, 0, keyword + [SPACE] + IntFields(vs)) && |line| <= MAX_LINE
    requires AllInt32(vs) && |keyword| < TOKEN_CAP
    requires forall k :: 0 <= k < |keyword| ==> !EndsToken(keyword[k])
    ensures TokenEnd(line, 0, TOKEN_CAP - 1) == |keyword| && Span(line, 0, |keyword|) == keyword
    ensures ReadInts(line, |keyword|, |vs|) == (vs, |keyword| + |IntFields(vs)|)
    ensures At(line, |keyword| + |IntFields(vs)|) == SPACE
  {
    hide ReadInts, IntFields, TokenEnd, Span, Holds, At;
    HoldsBoth(line, 0, keyword + [SPACE], IntFields(vs));
    HoldsBoth(line, 0, keyword, [SPACE]);
    HoldsAt(line, |keyword|, [SPACE], 0);
    CommandAt(line, keyword);
    IntsAt(line, |keyword|, vs);
  }

  lemma EntityLine(line: seq<Byte>, vs: seq<int>, mesh: seq<Byte>, name: seq<Byte>)
    requires Encodable(EntityRow(vs, mesh, name)) && |line| <= MAX_LINE
    requires Holds(line, 0, Body(EntityRow(vs, mesh, name)))
    ensures TokenEnd(line, 0, TOKEN_CAP - 1) == |ENTITY| && Span(line, 0, |ENTITY|) == ENTITY
    ensures DecodeEntity(line, |ENTITY|) == Meaning(EntityRow(vs, mesh, name))
  {
    var a := ENTITY + [SPACE] + IntFields(vs);
    hide IntFields, StrField, ReadInts, ReadLenStr, Cut, Holds, TokenEnd, Span, At;
    HoldsBoth(line, 0, a + StrField(mesh, 519), StrField(name, 127));
    HoldsBoth(line, 0, a, StrField(mesh, 519));
    IntsLine(line, ENTITY, vs);
    StrAt(line, |a| - 1, |a|, mesh, 519);
    StrAt(line, |a| + |StrField(mesh, 519)|, |a| + |StrField(mesh, 519)|, name, 127);
  }

  lemma StopParts(line: seq<Byte>, reason: seq<Byte>)
    requires Holds(line, 0, Body(Stop(reason)))
    ensures |Body(Stop(reason))| == |reason| + 6
    ensures Holds(line, 0, STOP) && At(line, 4) == SPACE && Holds(line, 5, reason) && At(line, |reason| + 5) == SPACE
  {
    hide Holds, At;
    HoldsBoth(line, 0, STOP + [SPACE] + reason, [SPACE]);
    HoldsBoth(line, 0, STOP + [SPACE], reason);
    HoldsBoth(line, 0, STOP, [SPACE]);
    HoldsAt(line, 4, [SPACE], 0);
    HoldsAt(line, |reason| + 5, [SPACE], 0);
  }

  lemma StopWord(line: seq<Byte>)
    requires Holds(line, 0, STOP) && At(line, 4) == SPACE
    ensures TokenEnd(line, 0, TOKEN_CAP - 1) == |STOP| && Span(line, 0, |STOP|) == STOP
  {
    hide TokenEnd, Span, Holds, At;
    CommandAt(line, STOP);
  }

  lemma AfterStop(line: seq<Byte>)
    requires At(line, 4) == SPACE
    ensures NextToken(line, |STOP|, 520) == NextToken(line, 5, 520)
  {
    hide TokenEnd, Span, At;
    assert SkipSpaces(line, 4) == SkipSpaces(line, 5);
  }

  lemma StopLine(line: seq<Byte>, reason: seq<Byte>)
    requires Encodable(Stop(reason)) && Holds(line, 0, Body(Stop(reason))) && |reason| <= 2041
    requires |line| <= |Body(Stop(reason))| + 1 && EndsToken(At(line, |Body(Stop(reason))|))
    requires At(line, |Body(Stop(reason))|) != SPACE
    ensures TokenEnd(line, 0, TOKEN_CAP - 1) == |STOP| && Span(line, 0, |STOP|) == STOP
    ensures NextToken(line, |STOP|, 520).0 == NextToken(reason, 0, 520).0
  {
    hide Holds, At, NextToken, TokenEnd, Span, Body, EndsToken;
    StopParts(line, reason);
    StopWord(line);
    AfterStop(line);
    ShiftedToken(line, reason, 0);
  }

  lemma {:induction false} ShiftedToken(line: seq<Byte>, reason: seq<Byte>, i: nat)
    requires Holds(line, 5, reason) && i <= |reason| <= 2041 && NUL !in reason
    requires At(line, |reason| + 5) == SPACE && EndsToken(At(line, |reason| + 6)) && At(line, |reason| + 6) != SPACE
    ensures NextToken(line, i + 5, 520).0 == NextToken(reason, i, 520).0
    decreases |reason| - i
  {
    hide Holds, TokenEnd, Span;
    if i < |reason| {
      HoldsAt(line, 5, reason, i);
    }
    if i < |reason| && reason[i] == SPACE {
      ShiftedToken(line, reason, i + 1);
    } else if i < |reason| {
      assert SkipSpaces(line, i + 5) == i + 5 && SkipSpaces(reason, i) == i;
      ShiftedWord(line, reason, i);
    } else {
      SkipSpacesAt(line, i + 5, i + 6);
      assert SkipSpaces(reason, i) == i;
      EmptyToken(line, i + 6);
      EmptyToken(reason, i);
    }
  }

  lemma EmptyToken(line: seq<Byte>, pos: nat)
    requires EndsToken(At(line, pos))
    ensures TokenEnd(line, pos, 519) == pos && Span(line, pos, pos) == []
  {
  }

  lemma ShiftedSpan(line: seq<Byte>, reason: seq<Byte>, i: nat, e: nat)
    requires Holds(line, 5, reason) && i <= e <= |reason|
    ensures Span(line, i + 5, e + 5) == Span(reason, i, e)
  {
    forall k | 0 <= k < e - i
      ensures Span(line, i + 5, e + 5)[k] == Span(reason, i, e)[k]
    {
      HoldsAt(line, 5, reason, i + k);
    }
  }

  lemma ShiftedWord(line: seq<Byte>, reason: seq<Byte>, i: nat)
    requires Holds(line, 5, reason) && i <= |reason| <= 2041 && At(line, |reason| + 5) == SPACE
    ensures Span(line, i + 5, TokenEnd(line, i + 5, 519)) == Span(reason, i, TokenEnd(reason, i, 519))
  {
    hide TokenEnd, Span, Holds, At;
    ShiftedEnd(line, reason, i, 519);
    ShiftedSpan(line, reason, i, TokenEnd(reason, i, 519));
  }

  lemma {:induction false} ShiftedEnd(line: seq<Byte>, reason: seq<Byte>, i: nat, room: nat)
    requires Holds(line, 5, reason) && i <= |reason| <= 2041 && At(line, |reason| + 5) == SPACE
    ensures TokenEnd(line, i + 5, room) == TokenEnd(reason, i, room) + 5
    ensures TokenEnd(reason, i, room) <= |reason|
    decreases room
  {
    if room > 0 && i < |reason| && !EndsToken(reason[i]) {
      ShiftedEnd(line, reason, i + 1, room - 1);
    }
  }

  lemma NotPrefix(a: seq<Byte>, b: seq<Byte>, k: nat)
    requires k < |a| && k < |b| && a[k] != b[k]
    ensures !(a <= b)
  {
  }

  lemma NotBeforeSceneBegin(cmd: seq<Byte>)
    requires cmd == SCENE_BEGIN
    ensures !(WELCOME <= cmd)
  {
    NotPrefix(WELCOME, cmd, 0);
  }

  lemma NotBeforeSceneEnd(cmd: seq<Byte>)
    requires cmd == SCENE_END
    ensures !(WELCOME <= cmd) && !(SCENE_BEGIN <= cmd)
  {
    NotPrefix(WELCOME, cmd, 0);
    NotPrefix(SCENE_BEGIN, cmd, 6);
  }

  lemma NotBeforeEntity(cmd: seq<Byte>)
    requires cmd == ENTITY
    ensures !(WELCOME <= cmd) && !(SCENE_BEGIN <= cmd) && !(SCENE_END <= cmd)
  {
    NotPrefix(WELCOME, cmd, 0);
    NotPrefix(SCENE_BEGIN, cmd, 0);
    NotPrefix(SCENE_END, cmd, 0);
  }

  lemma NotBeforeInput(cmd: seq<Byte>)
    requires cmd == INPUT
    ensures !(WELCOME <= cmd) && !(SCENE_BEGIN <= cmd) && !(SCENE_END <= cmd) && !(ENTITY <= cmd)
  {
    NotPrefix(WELCOME, cmd, 0);
    NotPrefix(SCENE_BEGIN, cmd, 0);
    NotPrefix(SCENE_END, cmd, 0);
    NotPrefix(ENTITY, cmd, 0);
  }

  lemma NotBeforeXform(cmd: seq<Byte>)
    requires cmd == XFORM
    ensures !(WELCOME <= cmd) && !(SCENE_BEGIN <= cmd) && !(SCENE_END <= cmd) && !(ENTITY <= cmd) && !(INPUT <= cmd)
  {
    NotPrefix(WELCOME, cmd, 0);
    NotPrefix(SCENE_BEGIN, cmd, 0);
    NotPrefix(SCENE_END, cmd, 0);
    NotPrefix(ENTITY, cmd, 0);
    NotPrefix(INPUT, cmd, 0);
  }

  lemma NotBeforeStop(cmd: seq<Byte>)
    requires cmd == STOP
    ensures !(WELCOME <= cmd) && !(SCENE_BEGIN <= cmd) && !(SCENE_END <= cmd) && !(ENTITY <= cmd) && !(INPUT <= cmd) && !(XFORM <= cmd)
  {
    NotPrefix(WELCOME, cmd, 0);
    NotPrefix(SCENE_BEGIN, cmd, 1);
    NotPrefix(SCENE_END, cmd, 1);
    NotPrefix(ENTITY, cmd, 0);
    NotPrefix(INPUT, cmd, 0);
    NotPrefix(XFORM, cmd, 0);
  }

  lemma IntsRoundTrip(m: Message, line: seq<Byte>)
    requires Encodable(m) && (m.Welcome? || m.SceneBegin? || m.Input? || m.Xform?)
    requires Holds(line, 0, Body(m)) && |line| <= MAX_LINE
    ensures Decode(line) == Meaning(m)
  {
    hide IntFields, ReadInts, TokenEnd, Span, AllInt32, Holds;
    match m {
      case Welcome(vs) => IntsLine(line, WELCOME, vs);
      case SceneBegin(vs) => IntsLine(line, SCENE_BEGIN, vs); NotBeforeSceneBegin(SCENE_BEGIN);
      case Input(vs) => IntsLine(line, INPUT, vs); NotBeforeInput(INPUT);
      case Xform(vs) => IntsLine(line, XFORM, vs); NotBeforeXform(XFORM);
    }
  }

  /** Decoding a line that fits the buffer, with or without its newline, gives the message back. */
  lemma LineRoundTrip(m: Message, tail: seq<Byte>)
    requires Encodable(m) && |Body(m)| < MAX_LINE && (tail == [] || tail == [LF])
    ensures Decode(Body(m) + tail) == Meaning(m)
  {
    BodyFits(m);
    var line := Body(m) + tail;
    HoldsBoth(line, 0, Body(m), tail);
    hide IntFields, StrField, ReadInts, DecodeEntity, TokenEnd, Span, NextToken, AllInt32;
    match m {
      case SceneEnd => CommandAt(line, SCENE_END); NotBeforeSceneEnd(SCENE_END);
      case EntityRow(vs, mesh, name) => EntityLine(line, vs, mesh, name); NotBeforeEntity(ENTITY);
      case Stop(reason) => StopLine(line, reason); NotBeforeStop(STOP);
      case _ => IntsRoundTrip(m, line);
    }
  }

  /** A string field arrives whole exactly when it is short enough and holds no NUL, CR or LF. */
  lemma CutIsWholeIff(s: seq<Byte>, limit: nat)
    ensures Cut(s, limit) == s <==> |s| <= limit && Unbroken(s)
  {
    if Cut(s, limit) == s {
      assert |Cut(s, limit)| == CutLen(s, limit, 0);
    }
  }

  /** A stop reason arrives whole exactly when it is one word of at most 519 bytes without CR. */
  lemma StopIsWholeIff(reason: seq<Byte>)
    requires Encodable(Stop(reason))
    ensures Meaning(Received(Stop(reason))).s0 == reason <==>
      |reason| <= 519 && SPACE !in reason && CR !in reason && LF !in reason
  {
    if |reason| <= 519 && SPACE !in reason && CR !in reason && LF !in reason {
      WordIsToken(reason);
    } else {
      TokenInside(WithoutCr(reason), 0, 520);
    }
    hide NextToken;
  }

  lemma WordIsToken(word: seq<Byte>)
    requires |word| <= 519 && forall b :: b in word ==> !EndsToken(b)
    ensures NextToken(word, 0, 520).0 == word
  {
    assert forall k :: 0 <= k < |word| ==> word[k] in word;
    SkipSpacesAt(word, 0, 0);
    TokenEndAt(word, 0, |word|, 519);
    assert Span(word, 0, |word|) == word;
  }

  /** A token is made of the line's own bytes. */
  lemma TokenInside(line: seq<Byte>, pos: nat, cap: nat)
    requires cap > 0
    ensures var t := NextToken(line, pos, cap).0;
      |t| < cap && forall b :: b in t ==> b in line && !EndsToken(b)
  {
    var t, start := NextToken(line, pos, cap).0, SkipSpaces(line, pos);
    forall b | b in t
      ensures b in line && !EndsToken(b)
    {
      var k :| 0 <= k < |t| && t[k] == b;
      assert b == At(line, start + k);
    }
  }

  // ---- Streams ----

  lemma {:induction false} FeedAppend(r: Receiver, a: seq<Byte>, b: seq<Byte>)
    ensures FeedAll(r, a + b) == FeedAll(FeedAll(r, a), b)
    decreases |b|
  {
    if b == [] {
      assert a + b == a;
    } else {
      assert (a + b)[..|a + b| - 1] == a + b[..|b| - 1];
      FeedAppend(r, a, b[..|b| - 1]);
    }
  }

  lemma RememberedNext(most: seq<Byte>, last: Byte)
    ensures |Remembered(most)| == |most| % MAX_LINE
    ensures Remembered(most + [last]) == if |most| % MAX_LINE + 1 == MAX_LINE then [] else Remembered(most) + [last]
  {
  }

  lemma ShortRemembered(s: seq<Byte>)
    requires |s| < MAX_LINE
    ensures Remembered(s) == s
  {
  }

  /** What the receiver remembers of a line, however long. */
  lemma {:induction false} FeedPlain(seen: seq<Packet>, data: seq<Byte>)
    requires Unbroken(data)
    ensures FeedAll(Receiver([], seen), data) == Receiver(Remembered(data), seen)
  {
    hide FeedAll, Remembered, Decode;
    if data == [] {
      NothingSent(Receiver([], seen));
      ShortRemembered([]);
    } else {
      var most, last := data[..|data| - 1], data[|data| - 1];
      FeedPlain(seen, most);
      assert data == most + [last];
      FeedLast(Receiver([], seen), most, last);
      RememberedNext(most, last);
    }
  }

  lemma FeedLast(r: Receiver, data: seq<Byte>, b: Byte)
    ensures FeedAll(r, data + [b]) == Feed(FeedAll(r, data), b)
    ensures WithoutCr(data + [b]) == if b == CR then WithoutCr(data) else WithoutCr(data) + [b]
  {
    assert (data + [b])[..|data + [b]| - 1] == data;
  }

  lemma NothingSent(r: Receiver)
    ensures FeedAll(r, []) == r && WithoutCr([]) == []
  {
  }

  lemma CrStep(r: Receiver, most: seq<Byte>, last: Byte)
    requires FeedAll(r, most) == FeedAll(r, WithoutCr(most))
    ensures FeedAll(r, most + [last]) == FeedAll(r, WithoutCr(most + [last]))
  {
    hide FeedAll, WithoutCr, Decode;
    FeedLast(r, most, last);
    FeedLast(r, WithoutCr(most), last);
  }

  /** Carriage returns might as well not have been sent. */
  lemma {:induction false} FeedWithoutCr(r: Receiver, data: seq<Byte>)
    ensures FeedAll(r, data) == FeedAll(r, WithoutCr(data))
  {
    hide FeedAll, WithoutCr;
    if data == [] {
      NothingSent(r);
    } else {
      var most, last := data[..|data| - 1], data[|data| - 1];
      FeedWithoutCr(r, most);
      CrStep(r, most, last);
      assert data == most + [last];
    }
  }

  lemma {:induction false} WithoutCrJoins(a: seq<Byte>, b: seq<Byte>)
    ensures WithoutCr(a + b) == WithoutCr(a) + WithoutCr(b)
    decreases |b|
  {
    if b == [] {
      assert a + b == a;
    } else {
      assert (a + b)[..|a + b| - 1] == a + b[..|b| - 1];
      WithoutCrJoins(a, b[..|b| - 1]);
    }
  }

  lemma ReceivedReason(reason: seq<Byte>)
    requires NUL !in reason && LF !in reason
    ensures NUL !in WithoutCr(reason) && Unbroken(WithoutCr(reason))
    ensures WithoutCr(STOP + [SPACE] + reason + [SPACE]) == STOP + [SPACE] + WithoutCr(reason) + [SPACE]
  {
    WithoutCrJoins(STOP + [SPACE] + reason, [SPACE]);
    WithoutCrJoins(STOP + [SPACE], reason);
    assert CR !in STOP + [SPACE] && CR !in [SPACE];
  }

  /** The body as the receiver's line buffer gets it. */
  lemma ReceivedBody(m: Message)
    requires Encodable(m) && OneLine(m)
    ensures WithoutCr(Body(m)) == Body(Received(m)) && Encodable(Received(m)) && Unbroken(Body(Received(m)))
  {
    hide WithoutCr, IntFields, StrField;
    if m.Stop? {
      ReceivedReason(m.reason);
      BodyUnbroken(Received(m));
    } else {
      BodyUnbroken(m);
      UnbrokenNoCr(Body(m));
    }
  }

  lemma UnbrokenNoCr(s: seq<Byte>)
    requires Unbroken(s)
    ensures WithoutCr(s) == s
  {
  }

  lemma FeedMessage(seen: seq<Packet>, m: Message)
    requires Encodable(m) && OneLine(m)
    ensures FeedAll(Receiver([], seen), Encode(m)) == Receiver([], seen + [Arrival(m)])
  {
    hide Body, Decode, Meaning, Encodable, OneLine, FeedAll, Received, WithoutCr, Remembered, Unbroken;
    var body := Body(Received(m));
    ReceivedBody(m);
    FeedWithoutCr(Receiver([], seen), Body(m));
    FeedPlain(seen, body);
    FeedLast(Receiver([], seen), Body(m), LF);
    if |body| < MAX_LINE {
      LineRoundTrip(Received(m), []);
      ShortRemembered(body);
      assert body + [] == body;
    }
  }

  predicate AllOneLine(ms: seq<Message>) {
    forall k :: 0 <= k < |ms| ==> Encodable(ms[k]) && OneLine(ms[k])
  }

  function Arrivals(ms: seq<Message>): seq<Packet>
    requires AllOneLine(ms)
  {
    if ms == [] then [] else Arrivals(ms[..|ms| - 1]) + [Arrival(ms[|ms| - 1])]
  }

  lemma {:induction false} FeedStream(ms: seq<Message>)
    requires AllOneLine(ms)
    ensures FeedAll(Receiver([], []), Stream(ms)) == Receiver([], Arrivals(ms))
  {
    if ms != [] {
      var most, last := ms[..|ms| - 1], ms[|ms| - 1];
      FeedStream(most);
      FeedAppend(Receiver([], []), Stream(most), Encode(last));
      FeedMessage(Arrivals(most), last);
      hide Encode, FeedAll, Arrival, Encodable;
    }
  }

  /** Every newline ends one packet, and nothing else does. */
  lemma {:induction false} PacketsAreNewlines(r: Receiver, data: seq<Byte>)
    ensures |FeedAll(r, data).seen| == |r.seen| + Newlines(data)
  {
    if data != [] {
      PacketsAreNewlines(r, data[..|data| - 1]);
      hide Decode;
    }
  }

  lemma {:induction false} NoNewlines(data: seq<Byte>)
    ensures Newlines(data) == 0 <==> LF !in data
  {
    if data != [] {
      NoNewlines(data[..|data| - 1]);
      assert data == data[..|data| - 1] + [data[|data| - 1]];
    }
  }

  /** One message is received as one packet if and only if it is on one line. */
  lemma OnePacketIff(m: Message)
    requires Encodable(m)
    ensures |FeedAll(Receiver([], []), Encode(m)).seen| == 1 <==> OneLine(m)
  {
    PacketsAreNewlines(Receiver([], []), Encode(m));
    OneNewlineIff(m);
    NoNewlines(Body(m));
    assert Encode(m)[..|Encode(m)| - 1] == Body(m);
    hide FeedAll, Body;
  }

  /** A receiver cannot tell how the bytes were cut into reads. */
  lemma {:induction false} ChunksDoNotMatter(r: Receiver, chunks: seq<seq<Byte>>)
    ensures FeedChunks(r, chunks) == FeedAll(r, Joined(chunks))
  {
    if chunks != [] {
      var most := chunks[..|chunks| - 1];
      ChunksDoNotMatter(r, most);
      FeedAppend(r, Joined(most), chunks[|chunks| - 1]);
    }
  }

  /** Whatever was sent arrives, once and in order, under any chunking. */
  lemma DeliveredExactly(ms: seq<Message>, chunks: seq<seq<Byte>>)
    requires AllOneLine(ms) && Joined(chunks) == Stream(ms)
    ensures FeedChunks(Receiver([], []), chunks) == Receiver([], Arrivals(ms))
  {
    ChunksDoNotMatter(Receiver([], []), chunks);
    FeedStream(ms);
  }

  /** Equal streams carry equal packets. */
  lemma StreamsSplitUniquely(a: seq<Message>, b: seq<Message>)
    requires AllOneLine(a) && AllOneLine(b) && Stream(a) == Stream(b)
    ensures Arrivals(a) == Arrivals(b)
  {
    FeedStream(a);
    FeedStream(b);
  }
}
