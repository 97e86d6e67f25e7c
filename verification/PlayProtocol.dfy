/**
 The protocol's buffer code: writers and encoders over a byte buffer, the line decoder that
 fills a packet, and the receive loop (engine/engine_play_protocol.mettle:41-560;
 bin/stdlib/std/conv.mettle:85-128; examples/engine_play_client.mettle:240-264).
 Consecutive fields of one packet are passed as a sequence.
 */
module PlayProtocol {
  import opened Bytes
  import opened PlayWire
  import T = PlayWireTheorems

  function Abs(v: int): nat {
    if v < 0 then -v else v
  }

  /** The language's division and remainder truncate toward zero. */
  function TruncDiv10(v: int): int {
    if v < 0 then -(-v / 10) else v / 10
  }

  function TruncMod10(v: int): int {
    if v < 0 then -(-v % 10) else v % 10
  }

  predicate AllDigits(ds: seq<int>) {
    forall k :: 0 <= k < |ds| ==> 0 <= ds[k] <= 9
  }

  function Backwards(ds: seq<int>): (s: seq<Byte>)
    requires AllDigits(ds)
    ensures |s| == |ds|
  {
    if ds == [] then [] else [(48 + ds[|ds| - 1]) as Byte] + Backwards(ds[..|ds| - 1])
  }

  lemma Int64Digits(n: nat)
    requires n <= 0x8000_0000_0000_0000
    ensures 1 <= |Digits(n)| <= 19
  {
    assert T.Pow10(9) == 1000000000;
    assert T.Pow10(14) == 100000000000000 by {
      assert T.Pow10(12) == 1000000000000;
    }
    assert T.Pow10(19) == 10000000000000000000 by {
      assert T.Pow10(17) == 100000000000000000;
    }
    T.DigitsLength(n, 19);
  }

  lemma OneDigit(d: nat)
    requires d <= 9
    ensures |Digits(d)| == 1
  {
  }

  lemma DigitsStep(value: int, ds: seq<int>)
    requires Abs(value) >= 10 && AllDigits(ds)
    ensures Digits(Abs(value)) + Backwards(ds) == Digits(Abs(TruncDiv10(value))) + Backwards(ds + [Abs(TruncMod10(value))])
    ensures |Digits(Abs(value))| == |Digits(Abs(TruncDiv10(value)))| + 1
  {
    var more := ds + [Abs(TruncMod10(value))];
    assert more[..|more| - 1] == ds;
  }

  lemma NoDigits()
    ensures Backwards([]) == []
  {
  }

  /** The digits of a non-zero number, last first. */
  method SplitDigits(n: int, tmp: array<int>) returns (digits: nat)
    requires Int64(n) && n != 0 && tmp.Length >= 20
    modifies tmp
    ensures digits == |Digits(Abs(n))| <= 19 && AllDigits(tmp[..digits])
    ensures Backwards(tmp[..digits]) == Digits(Abs(n))
  {
    hide Digits, Backwards;
    Int64Digits(Abs(n));
    NoDigits();
    var value := n;
    digits := 0;
    assert tmp[..0] == [];
    while value <= -10 || value >= 10
      invariant digits + |Digits(Abs(value))| == |Digits(Abs(n))| && value != 0
      invariant 0 <= digits < 19 && Int64(value)
      invariant AllDigits(tmp[..digits])
      invariant Digits(Abs(n)) == Digits(Abs(value)) + Backwards(tmp[..digits])
      decreases Abs(value)
    {
      var digit := TruncMod10(value);
      if digit < 0 {
        digit := -digit;
      }
      DigitsStep(value, tmp[..digits]);
      PushDigit(tmp, digits, digit);
      digits := digits + 1;
      value := TruncDiv10(value);
    }
    var final := value;
    if final < 0 {
      final := -final;
    }
    LastDigit(final, tmp[..digits]);
    OneDigit(final);
    PushDigit(tmp, digits, final);
    digits := digits + 1;
  }

  method PushDigit(tmp: array<int>, digits: nat, digit: int)
    requires digits < tmp.Length && 0 <= digit <= 9 && AllDigits(tmp[..digits])
    modifies tmp
    ensures tmp[..digits + 1] == old(tmp[..digits]) + [digit] && AllDigits(tmp[..digits + 1])
  {
    tmp[digits] := digit;
  }

  /** Digits come off from the right, then are written out from the left. */
  method IntToDec(buf: array<Byte>, n: int) returns (len: nat)
    requires Int64(n) && buf.Length >= 32
    modifies buf
    ensures len == |Decimal(n)| && len < 32
    ensures buf[..len] == Decimal(n) && buf[len] == NUL
  {
    if n == 0 {
      buf[0], buf[1] := 48, 0;
      assert buf[..1] == [48];
      return 1;
    }
    var tmp := new int[32];
    var pos := 0;
    if n < 0 {
      buf[0] := MINUS;
      pos := 1;
    }
    assert buf[..pos] == if n < 0 then [MINUS] else [];
    var digits := SplitDigits(n, tmp);
    len := WriteBackwards(buf, pos, tmp, digits);
  }

  lemma LastDigit(d: nat, ds: seq<int>)
    requires d <= 9 && AllDigits(ds)
    ensures Digits(d) + Backwards(ds) == Backwards(ds + [d])
  {
    assert (ds + [d])[..|ds|] == ds;
  }

  lemma BackwardsFirst(ds: seq<int>)
    requires AllDigits(ds) && ds != []
    ensures Backwards(ds) == [(48 + ds[|ds| - 1]) as Byte] + Backwards(ds[..|ds| - 1])
  {
  }

  method WriteBackwards(buf: array<Byte>, start: nat, tmp: array<int>, digits: nat) returns (pos: nat)
    requires digits <= tmp.Length && AllDigits(tmp[..digits]) && start + digits < buf.Length
    modifies buf
    ensures pos == start + digits && buf[..pos] == old(buf[..start]) + Backwards(tmp[..digits]) && buf[pos] == NUL
  {
    hide Backwards;
    NoDigits();
    pos := start;
    var i := digits - 1;
    while i >= 0
      invariant -1 <= i < digits && pos == start + (digits - 1 - i)
      invariant buf[..pos] + Backwards(tmp[..i + 1]) == old(buf[..start]) + Backwards(tmp[..digits])
    {
      ghost var sofar := buf[..pos];
      BackwardsFirst(tmp[..i + 1]);
      assert tmp[..i + 1][..i] == tmp[..i];
      buf[pos] := (48 + tmp[i]) as Byte;
      assert buf[..pos + 1] == sofar + [(48 + tmp[i]) as Byte];
      pos := pos + 1;
      i := i - 1;
    }
    buf[pos] := 0;
  }

  // ---- Writers ----

  /** A write before the buffer is not stored; says whether it was inside. */
  method Put(buf: array<Byte>, pos: int, b: Byte) returns (inside: bool)
    requires -1 <= pos < buf.Length
    modifies buf
    ensures inside == (pos >= 0)
    ensures buf[..] == if pos >= 0 then old(buf[..])[pos := b] else old(buf[..])
  {
    if pos < 0 {
      return false;
    }
    buf[pos] := b;
    inside := true;
  }

  /**
   -1 as soon as a byte would leave no room for the terminator. Called with that -1 it starts
   one byte before the buffer.
   */
  method WriteI32(buf: array<Byte>, cap: nat, pos: int, v: int) returns (next: int, inside: bool)
    requires 0 < cap <= buf.Length && -1 <= pos <= cap && Int32(v)
    modifies buf
    ensures next == if pos + |IntField(v)| < cap then pos + |IntField(v)| else -1
    ensures inside == (pos >= 0)
    ensures pos >= 0 && next >= 0 ==> buf[..next] == old(buf[..pos]) + IntField(v)
  {
    var tmp := new Byte[32];
    var n := IntToDec(tmp, v);
    DecimalHasNoNul(v);
    assert forall k :: 0 <= k < n ==> tmp[k] == tmp[..n][k] == Decimal(v)[k];
    hide Decimal;
    var at, j := pos, 0;
    inside := true;
    while j < 32 && tmp[j] != 0
      invariant 0 <= j <= n && at == pos + j && at <= cap
      invariant inside == (pos >= 0 || j == 0)
      invariant pos >= 0 ==> buf[..at] == old(buf[..pos]) + Decimal(v)[..j]
      modifies buf
    {
      if at + 1 >= cap {
        return -1, pos >= 0;
      }
      ghost var sofar := buf[..];
      var stored := Put(buf, at, tmp[j]);
      inside := inside && stored;
      assert pos >= 0 ==> buf[..at + 1] == sofar[..at] + [Decimal(v)[j]];
      at := at + 1;
      j := j + 1;
    }
    assert Decimal(v)[..j] == Decimal(v);
    if at + 1 >= cap {
      return -1, pos >= 0;
    }
    ghost var sofar := buf[..at];
    buf[at] := 32;
    assert buf[..at + 1] == sofar + [SPACE];
    next := at + 1;
  }

  lemma DecimalHasNoNul(v: int)
    ensures forall k :: 0 <= k < |Decimal(v)| ==> Decimal(v)[k] != NUL
  {
    forall k | 0 <= k < |Decimal(v)|
      ensures Decimal(v)[k] != NUL
    {
      T.DecimalBytes(v, k);
    }
  }

  method StrlenCap(s: seq<Byte>, limit: nat) returns (n: nat)
    ensures n == CutLen(s, limit, 0)
  {
    n := 0;
    while n < limit && At(s, n) != 0 && At(s, n) != 10 && At(s, n) != 13
      invariant n <= limit && n <= |s| && CutLen(s, limit, n) == CutLen(s, limit, 0)
    {
      n := n + 1;
    }
  }

  /** Copy bytes while they leave room for the terminator. */
  method WriteBytes(buf: array<Byte>, cap: nat, pos: nat, s: seq<Byte>) returns (next: int)
    requires cap <= buf.Length && pos <= cap
    modifies buf
    ensures next == if s == [] || pos + |s| < cap then pos + |s| else -1
    ensures next >= 0 ==> buf[..next] == old(buf[..pos]) + s
  {
    var i := 0;
    while i < |s|
      invariant 0 <= i <= |s| && pos + i <= cap && (i > 0 ==> pos + i < cap)
      invariant buf[..pos + i] == old(buf[..pos]) + s[..i]
    {
      if pos + i + 1 >= cap {
        return -1;
      }
      ghost var sofar := buf[..pos + i];
      buf[pos + i] := s[i];
      assert buf[..pos + i + 1] == sofar + [s[i]];
      i := i + 1;
    }
    next := pos + i;
  }

  method WriteLenStr(buf: array<Byte>, cap: nat, pos: int, s: seq<Byte>, limit: nat) returns (next: int, inside: bool)
    requires 0 < cap <= buf.Length && -1 <= pos <= cap && limit < 0x8000_0000
    modifies buf
    ensures next == if pos + |StrField(s, limit)| < cap then pos + |StrField(s, limit)| else -1
    ensures inside == (pos >= 0)
    ensures pos >= 0 && next >= 0 ==> buf[..next] == old(buf[..pos]) + StrField(s, limit)
  {
    hide IntField;
    var n := StrlenCap(s, limit);
    IntFieldSize(n);
    next, inside := WriteI32(buf, cap, pos, n);
    if next < 0 {
      return;
    }
    next := WriteBytes(buf, cap, next, s[..n]);
    if next < 0 {
      return;
    }
    next := WriteBytes(buf, cap, next, [SPACE]);
  }

  lemma IntFieldSize(v: int)
    ensures |IntField(v)| >= 2
  {
  }

  /** The bytes of a C string and a space. */
  method WriteStr(buf: array<Byte>, cap: nat, pos: nat, s: seq<Byte>) returns (next: int)
    requires pos <= cap <= buf.Length
    modifies buf
    ensures next == if pos + |s| + 1 < cap then pos + |s| + 1 else -1
    ensures next >= 0 ==> buf[..next] == old(buf[..pos]) + s + [SPACE]
  {
    next := WriteBytes(buf, cap, pos, s);
    if next < 0 {
      return;
    }
    next := WriteBytes(buf, cap, next, [SPACE]);
  }

  function Nth(vs: seq<int>, k: nat): (v: int)
    requires k < |vs| && AllInt32(vs)
    ensures Int32(v) && v == vs[k]
  {
    vs[k]
  }

  // ---- Encoders ----

  /** n bytes of line and a terminator, or -1 when the newline does not fit. */
  ghost predicate Wrote(buf: seq<Byte>, cap: int, n: int, m: Message) {
    && n == (if |Body(m)| + 1 < cap then |Body(m)| + 1 else -1)
    && (n >= 0 ==> n < |buf| && buf[..n] == Encode(m) && buf[n] == NUL)
  }

  /**
   An encoder stays inside its buffer exactly when all the fields fit, and then writes the
   line. It does not look at the -1 of a field that does not fit, and goes on from there.
   */
  ghost predicate Encoded(buf: seq<Byte>, cap: int, n: int, inside: bool, m: Message) {
    && (inside <==> !(0 < cap <= |Body(m)|))
    && (inside ==> Wrote(buf, cap, n, m))
  }

  /** Where an encoder stands once `base` should have been written; `fields` once a field was. */
  ghost predicate Reached(buf: seq<Byte>, cap: nat, pos: int, inside: bool, base: seq<Byte>, fields: bool) {
    && -1 <= pos < cap <= |buf|
    && if |base| < cap then inside && pos == |base| && buf[..pos] == base
       else !inside || pos == -1 || (!fields && pos == cap - 1)
  }

  /** One field further, from what its writer promises. */
  lemma NextField(was: seq<Byte>, now: seq<Byte>, cap: nat, pos: int, next: int, inside: bool, stayed: bool,
                  base: seq<Byte>, fields: bool, field: seq<Byte>)
    requires Reached(was, cap, pos, inside, base, fields) && |now| == |was| && field != []
    requires next == if pos + |field| < cap then pos + |field| else -1
    requires stayed == (pos >= 0)
    requires pos >= 0 && next >= 0 ==> now[..next] == was[..pos] + field
    ensures Reached(now, cap, next, inside && stayed, base + field, true)
  {
  }

  method Finish(buf: array<Byte>, cap: nat, pos: int, sofar: bool, ghost m: Message) returns (n: int, inside: bool)
    requires 0 < cap <= buf.Length && Reached(buf[..], cap, pos, sofar, Body(m), true)
    modifies buf
    ensures Encoded(buf[..], cap, n, inside, m)
  {
    hide Body;
    inside := sofar;
    if pos + 1 >= cap {
      return -1, inside;
    }
    ghost var before := buf[..];
    var stored := Put(buf, pos, 10);
    inside := inside && stored;
    assert pos >= 0 ==> buf[..pos + 1] == before[..pos] + [LF];
    buf[pos + 1] := 0;
    n := pos + 1;
  }

  method WriteCommand(buf: array<Byte>, cap: nat, keyword: seq<Byte>) returns (pos: nat)
    requires 0 < cap <= buf.Length
    modifies buf
    ensures Reached(buf[..], cap, pos, true, keyword + [SPACE], false)
  {
    var pre := keyword + [SPACE];
    pos := 0;
    while pos < |pre| && pos + 1 < cap
      invariant pos <= |pre| && pos < cap && buf[..pos] == pre[..pos]
    {
      buf[pos] := pre[pos];
      pos := pos + 1;
    }
    assert pos == |pre| ==> pre[..pos] == pre;
  }

  lemma FieldsNext(vs: seq<int>, k: nat)
    requires k < |vs|
    ensures IntFields(vs[..k + 1]) == IntFields(vs[..k]) + IntField(vs[k])
  {
    assert vs[..k + 1][..k] == vs[..k];
  }

  method WriteInts(buf: array<Byte>, cap: nat, pos: int, vs: seq<int>, ghost base: seq<Byte>) returns (next: int, inside: bool)
    requires 0 < cap <= buf.Length && -1 <= pos < cap && AllInt32(vs) && Reached(buf[..], cap, pos, true, base, false)
    modifies buf
    ensures Reached(buf[..], cap, next, inside, base + IntFields(vs), vs != [])
  {
    hide IntFields, AllInt32, Reached;
    next, inside := pos, true;
    var k := 0;
    NoFields(base, vs);
    while k < |vs|
      invariant 0 <= k <= |vs| && -1 <= next < cap
      invariant Reached(buf[..], cap, next, inside, base + IntFields(vs[..k]), k > 0)
    {
      next, inside := WriteNth(buf, cap, next, inside, vs, k, base);
      k := k + 1;
    }
    assert vs[..k] == vs;
  }

  lemma NoFields(base: seq<Byte>, vs: seq<int>)
    ensures base + IntFields(vs[..0]) == base
  {
    assert vs[..0] == [];
  }

  method WriteNth(buf: array<Byte>, cap: nat, pos: int, sofar: bool, vs: seq<int>, k: nat, ghost base: seq<Byte>)
    returns (next: int, inside: bool)
    requires 0 < cap <= buf.Length && AllInt32(vs) && k < |vs| && -1 <= pos < cap
    requires Reached(buf[..], cap, pos, sofar, base + IntFields(vs[..k]), k > 0)
    modifies buf
    ensures -1 <= next < cap && Reached(buf[..], cap, next, inside, base + IntFields(vs[..k + 1]), true)
  {
    hide IntField, IntFields, AllInt32, Reached;
    ghost var before, done := buf[..], base + IntFields(vs[..k]);
    var stayed: bool;
    next, stayed := WriteI32(buf, cap, pos, Nth(vs, k));
    inside := sofar && stayed;
    IntFieldSize(vs[k]);
    FieldsNext(vs, k);
    NextField(before, buf[..], cap, pos, next, sofar, stayed, done, k > 0, IntField(vs[k]));
    assert done + IntField(vs[k]) == base + IntFields(vs[..k + 1]);
  }

  method EncodeInts(buf: array<Byte>, cap: int, keyword: seq<Byte>, vs: seq<int>, ghost m: Message) returns (n: int, inside: bool)
    requires cap <= buf.Length && AllInt32(vs) && Body(m) == keyword + [SPACE] + IntFields(vs) && vs != []
    modifies buf
    ensures Encoded(buf[..], cap, n, inside, m)
  {
    hide Body, IntFields, AllInt32;
    if cap <= 0 {
      return -1, true;
    }
    var pos: int := WriteCommand(buf, cap, keyword);
    pos, inside := WriteInts(buf, cap, pos, vs, keyword + [SPACE]);
    n, inside := Finish(buf, cap, pos, inside, m);
  }

  method EncodeWelcome(buf: array<Byte>, cap: int, session: int, tickHz: int) returns (n: int, inside: bool)
    requires cap <= buf.Length && Int32(session) && Int32(tickHz)
    modifies buf
    ensures Encoded(buf[..], cap, n, inside, Welcome([session, tickHz]))
  {
    n, inside := EncodeInts(buf, cap, WELCOME, [session, tickHz], Welcome([session, tickHz]));
  }

  method EncodeSceneBegin(buf: array<Byte>, cap: int, entities: int) returns (n: int, inside: bool)
    requires cap <= buf.Length && Int32(entities)
    modifies buf
    ensures Encoded(buf[..], cap, n, inside, SceneBegin([entities]))
  {
    n, inside := EncodeInts(buf, cap, SCENE_BEGIN, [entities], SceneBegin([entities]));
  }

  method EncodeSceneEnd(buf: array<Byte>, cap: int) returns (n: int)
    requires cap <= buf.Length
    modifies buf
    ensures Wrote(buf[..], cap, n, SceneEnd)
  {
    if cap < 11 {
      return -1;
    }
    var s := SCENE_END + [LF];
    var i := 0;
    while i < |s| && i + 1 < cap
      invariant 0 <= i <= |s| && buf[..i] == s[..i]
    {
      buf[i] := s[i];
      i := i + 1;
    }
    buf[i] := 0;
    n := i;
  }

  method EncodeEntity(buf: array<Byte>, cap: int, vs: seq<int>, mesh: seq<Byte>, name: seq<Byte>) returns (n: int, inside: bool)
    requires cap <= buf.Length && |vs| == 16 && AllInt32(vs)
    modifies buf
    ensures Encoded(buf[..], cap, n, inside, EntityRow(vs, mesh, name))
  {
    hide StrField, IntFields, AllInt32;
    if cap <= 0 {
      return -1, true;
    }
    var pos: int := WriteCommand(buf, cap, ENTITY);
    pos, inside := WriteInts(buf, cap, pos, vs, ENTITY + [SPACE]);
    pos, inside := WriteStrField(buf, cap, pos, inside, mesh, 519, ENTITY + [SPACE] + IntFields(vs));
    pos, inside := WriteStrField(buf, cap, pos, inside, name, 127, ENTITY + [SPACE] + IntFields(vs) + StrField(mesh, 519));
    n, inside := Finish(buf, cap, pos, inside, EntityRow(vs, mesh, name));
  }

  method WriteStrField(buf: array<Byte>, cap: nat, pos: int, sofar: bool, s: seq<Byte>, limit: nat, ghost base: seq<Byte>)
    returns (next: int, inside: bool)
    requires 0 < cap <= buf.Length && limit < 0x8000_0000 && Reached(buf[..], cap, pos, sofar, base, true)
    modifies buf
    ensures Reached(buf[..], cap, next, inside, base + StrField(s, limit), true)
  {
    hide StrField;
    ghost var before := buf[..];
    var stayed: bool;
    next, stayed := WriteLenStr(buf, cap, pos, s, limit);
    inside := sofar && stayed;
    StrFieldSize(s, limit);
    NextField(before, buf[..], cap, pos, next, sofar, stayed, base, true, StrField(s, limit));
  }

  lemma StrFieldSize(s: seq<Byte>, limit: nat)
    ensures StrField(s, limit) != []
  {
  }

  method EncodeInput(buf: array<Byte>, cap: int, vs: seq<int>) returns (n: int, inside: bool)
    requires cap <= buf.Length && |vs| == 5 && AllInt32(vs)
    modifies buf
    ensures Encoded(buf[..], cap, n, inside, Input(vs))
  {
    n, inside := EncodeInts(buf, cap, INPUT, vs, Input(vs));
  }

  method EncodeXform(buf: array<Byte>, cap: int, vs: seq<int>) returns (n: int, inside: bool)
    requires cap <= buf.Length && |vs| == 10 && AllInt32(vs)
    modifies buf
    ensures Encoded(buf[..], cap, n, inside, Xform(vs))
  {
    n, inside := EncodeInts(buf, cap, XFORM, vs, Xform(vs));
  }

  method EncodeStop(buf: array<Byte>, cap: int, reason: seq<Byte>) returns (n: int, inside: bool)
    requires cap <= buf.Length && NUL !in reason
    modifies buf
    ensures Encoded(buf[..], cap, n, inside, Stop(reason))
  {
    if cap <= 0 {
      return -1, true;
    }
    var pos: int := WriteCommand(buf, cap, STOP);
    ghost var before, base := buf[..], STOP + [SPACE];
    var next := WriteStr(buf, cap, pos, reason);
    NextField(before, buf[..], cap, pos, next, true, true, base, false, reason + [SPACE]);
    assert base + (reason + [SPACE]) == Body(Stop(reason));
    n, inside := Finish(buf, cap, next, true, Stop(reason));
  }

  /** A buffer of 1024 bytes is room for a packet unless it is a stop with a reason over 1016 bytes. */
  lemma KilobyteIsEnoughIff(m: Message)
    requires Encodable(m)
    ensures |Encode(m)| < 1024 <==> (m.Stop? ==> |m.reason| <= 1016)
  {
    T.BodyFits(m);
  }
}
