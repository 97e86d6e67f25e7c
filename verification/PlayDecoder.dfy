/**
 The line decoder and the receive loop
 (engine/engine_play_protocol.mettle:346-560; examples/engine_play_client.mettle:240-264).
 */
module PlayDecoder {
  import opened Bytes
  import opened PlayWire
  import T = PlayWireTheorems

  /** The C string a buffer holds. */
  function Text(a: seq<Byte>): seq<Byte> {
    a[..NulAt(a, 0)]
  }

  function NulAt(a: seq<Byte>, i: nat): (n: nat)
    requires i <= |a|
    ensures i <= n <= |a|
    decreases |a| - i
  {
    if i < |a| && a[i] != NUL then NulAt(a, i + 1) else i
  }

  predicate HoldsText(a: seq<Byte>, t: seq<Byte>) {
    && |t| < |a| && a[|t|] == NUL
    && forall k :: 0 <= k < |t| ==> a[k] == t[k] && t[k] != NUL
  }

  lemma TextIs(a: seq<Byte>, t: seq<Byte>)
    requires HoldsText(a, t)
    ensures Text(a) == t
  {
    NulIs(a, t, 0);
    assert a[..|t|] == t;
  }

  lemma {:induction false} NulIs(a: seq<Byte>, t: seq<Byte>, i: nat)
    requires HoldsText(a, t) && i <= |t|
    ensures NulAt(a, i) == |t|
    decreases |t| - i
  {
    if i < |t| {
      NulIs(a, t, i + 1);
    }
  }

  /** The next token goes into `out`; its size is the capacity. */
  method NextTokenInto(line: seq<Byte>, pos: nat, out: array<Byte>) returns (next: nat)
    requires out.Length > 0
    modifies out
    ensures next == PlayWire.NextToken(line, pos, out.Length).1
    ensures HoldsText(out[..], PlayWire.NextToken(line, pos, out.Length).0)
  {
    next := pos;
    while next < 2048 && At(line, next) == 32
      invariant SkipSpaces(line, next) == SkipSpaces(line, pos)
      decreases 2048 - next
      modifies {}
    {
      next := next + 1;
    }
    next := TakeToken(line, next, out);
  }

  method TakeToken(line: seq<Byte>, start: nat, out: array<Byte>) returns (next: nat)
    requires out.Length > 0
    modifies out
    ensures next == TokenEnd(line, start, out.Length - 1)
    ensures HoldsText(out[..], Span(line, start, next))
  {
    next := start;
    var j := 0;
    while next < 2048 && j + 1 < out.Length
      invariant 0 <= j < out.Length && next == start + j
      invariant TokenEnd(line, next, out.Length - 1 - j) == TokenEnd(line, start, out.Length - 1)
      invariant forall k :: 0 <= k < j ==> out[k] == At(line, start + k) && out[k] != NUL
    {
      var b := At(line, next);
      if b == 0 || b == 32 || b == 10 {
        break;
      }
      out[j] := b;
      j := j + 1;
      next := next + 1;
    }
    out[j] := 0;
  }

  method Atol(s: array<Byte>, ghost t: seq<Byte>) returns (v: int)
    requires HoldsText(s[..], t)
    ensures v == PlayWire.Atol(t)
  {
    var neg := false;
    var i := 0;
    v := 0;
    if s[0] == 45 {
      neg := true;
      i := 1;
    }
    assert s[..] [|t|] == NUL && s[|t|] == NUL;
    assert forall k :: 0 <= k < |t| ==> s[k] == s[..][k] == t[k];
    ghost var start: nat := i;
    assert neg <==> t != [] && t[0] == MINUS;
    while 48 <= s[i] <= 57
      invariant start <= i <= |t| && DigitsEnd(t, i) == DigitsEnd(t, start)
      invariant forall k :: start <= k < i ==> IsDigit(t[k])
      invariant v == DigitValue(t[start..i])
      decreases |t| - i
    {
      assert t[start..i + 1][..i - start] == t[start..i];
      v := Wrap64(v * 10 + (s[i] as int - 48));
      i := i + 1;
    }
    if neg {
      v := Wrap64(0 - v);
    }
  }

  /** Whether the text starts with the prefix. */
  method Starts(s: array<Byte>, ghost t: seq<Byte>, prefix: seq<Byte>) returns (b: bool)
    requires HoldsText(s[..], t) && NUL !in prefix
    ensures b == (prefix <= t)
  {
    assert s[|t|] == s[..][|t|];
    assert forall k :: 0 <= k < |t| ==> s[k] == s[..][k] == t[k];
    var i := 0;
    while i < |prefix|
      invariant 0 <= i <= |prefix| && i <= |t| && prefix[..i] == t[..i]
    {
      if s[i] != prefix[i] {
        assert i < |t| ==> t[i] != prefix[i];
        return false;
      }
      i := i + 1;
    }
    b := true;
  }

  class PlayPacket {
    var typ: int
    const ints: array<int>
    const s0: array<Byte>
    const s1: array<Byte>

    predicate Valid() {
      ints.Length == 16 && s0.Length == 520 && s1.Length == 128 && s0 != s1
    }

    ghost function Value(): Packet
      reads this, ints, s0, s1
    {
      Packet(typ, ints[..], Text(s0[..]), Text(s1[..]))
    }

    constructor ()
      ensures Valid() && fresh(ints) && fresh(s0) && fresh(s1) && Value() == BLANK
    {
      typ := 0;
      ints := new int[16](_ => 0);
      s0 := new Byte[520](_ => 0);
      s1 := new Byte[128](_ => 0);
      new;
      TextIs(s0[..], []);
      TextIs(s1[..], []);
      assert ints[..] == Zeros(16);
    }

    method Reset()
      requires Valid()
      modifies this, ints, s0, s1
      ensures Value() == BLANK
    {
      typ := 0;
      var k := 0;
      while k < 16
        invariant 0 <= k <= 16 && ints[..k] == Zeros(k)
        modifies ints
      {
        ints[k] := 0;
        k := k + 1;
      }
      s0[0] := 0;
      s1[0] := 0;
      TextIs(s0[..], []);
      TextIs(s1[..], []);
      assert ints[..] == ints[..16];
    }

    /** Read n integer tokens into the first fields. */
    method ReadInts(line: seq<Byte>, pos: nat, tok: array<Byte>, n: nat) returns (next: nat)
      requires Valid() && n <= 16 && tok.Length == TOKEN_CAP && tok != s0 && tok != s1
      modifies ints, tok
      ensures next == PlayWire.ReadInts(line, pos, n).1
      ensures ints[..n] == PlayWire.ReadInts(line, pos, n).0 && ints[n..] == old(ints[n..])
    {
      next := pos;
      var k := 0;
      T.ReadNone(line, pos);
      hide NextInt, PlayWire.ReadInts;
      while k < n
        invariant 0 <= k <= n && (ints[..k], next) == PlayWire.ReadInts(line, pos, k)
        invariant ints[k..] == old(ints[k..])
      {
        ghost var before := (ints[..k], next);
        var v: int;
        v, next := ReadInt(line, next, tok);
        ints[k] := v;
        assert ints[..k + 1] == before.0 + [v];
        T.ReadStep(line, pos, k + 1, before, (v, next));
        k := k + 1;
      }
    }

    /** A length token, one space, then that many bytes up to a break; extra bytes are skipped. */
    method ReadLenStr(line: seq<Byte>, pos: nat, out: array<Byte>) returns (next: nat)
      requires out.Length > 0
      modifies out
      ensures next == PlayWire.ReadLenStr(line, pos, out.Length).1
      ensures HoldsText(out[..], PlayWire.ReadLenStr(line, pos, out.Length).0)
    {
      hide StrEnd, NextInt, HoldsText, Span;
      var tok := new Byte[64];
      var want: int;
      want, next := ReadInt(line, pos, tok);
      if want < 0 {
        want := 0;
      }
      if At(line, next) == 32 {
        next := next + 1;
      }
      next := TakeBytes(line, next, want, out);
      if At(line, next) == 32 {
        next := next + 1;
      }
    }

    method DecodeLine(line: seq<Byte>) returns (result: int)
      requires Valid()
      modifies this, ints, s0, s1
      ensures Value() == Decode(line) && result == typ
    {
      Reset();
      var tok := new Byte[64];
      var p := TakeToken(line, 0, tok);
      result := Dispatch(line, p, tok);
    }

    method Dispatch(line: seq<Byte>, pos: nat, tok: array<Byte>) returns (result: int)
      requires Valid() && Value() == BLANK && tok.Length == TOKEN_CAP && tok != s0 && tok != s1
      requires pos == TokenEnd(line, 0, TOKEN_CAP - 1) && HoldsText(tok[..], Span(line, 0, pos))
      modifies this, ints, s0, s1, tok
      ensures Value() == Decode(line) && result == typ
    {
      hide Span, TokenEnd, PlayWire.ReadInts, PlayWire.ReadLenStr, PlayWire.NextToken, HoldsText, Text, Zeros;
      ghost var cmd := Span(line, 0, pos);
      var hit := Starts(tok, cmd, WELCOME);
      if hit {
        result := DecodeInts(2, line, pos, tok, 2);
        return;
      }
      hit := Starts(tok, cmd, SCENE_BEGIN);
      if hit {
        result := DecodeInts(3, line, pos, tok, 1);
        return;
      }
      hit := Starts(tok, cmd, SCENE_END);
      if hit {
        typ := 6;
        return typ;
      }
      hit := Starts(tok, cmd, ENTITY);
      if hit {
        result := DecodeEntity(line, pos, tok);
        return;
      }
      hit := Starts(tok, cmd, INPUT);
      if hit {
        result := DecodeInts(7, line, pos, tok, 5);
        return;
      }
      hit := Starts(tok, cmd, XFORM);
      if hit {
        result := DecodeInts(8, line, pos, tok, 10);
        return;
      }
      hit := Starts(tok, cmd, STOP);
      if hit {
        result := DecodeStop(line, pos);
        return;
      }
      result := 0;
    }

    method DecodeInts(kind: int, line: seq<Byte>, pos: nat, tok: array<Byte>, n: nat) returns (result: int)
      requires Valid() && Value() == BLANK && n <= 16 && tok.Length == TOKEN_CAP && tok != s0 && tok != s1
      modifies this, ints, tok
      ensures Value() == WithInts(kind, line, pos, n) && result == typ
    {
      typ := kind;
      ghost var _ := ints[n..];
      var _ := ReadInts(line, pos, tok, n);
      assert ints[..] == ints[..n] + ints[n..];
      result := typ;
    }

    method DecodeEntity(line: seq<Byte>, pos: nat, tok: array<Byte>) returns (result: int)
      requires Valid() && Value() == BLANK && tok.Length == TOKEN_CAP && tok != s0 && tok != s1
      modifies this, ints, s0, s1, tok
      ensures Value() == PlayWire.DecodeEntity(line, pos) && result == typ
    {
      hide PlayWire.ReadInts, PlayWire.ReadLenStr, HoldsText, Text;
      typ := 4;
      var p := ReadInts(line, pos, tok, 16);
      assert ints[..] == ints[..16];
      p := ReadLenStr(line, p, s0);
      TextIs(s0[..], PlayWire.ReadLenStr(line, PlayWire.ReadInts(line, pos, 16).1, 520).0);
      ghost var second := PlayWire.ReadLenStr(line, p, 128).0;
      p := ReadLenStr(line, p, s1);
      TextIs(s1[..], second);
      result := typ;
    }

    method DecodeStop(line: seq<Byte>, pos: nat) returns (result: int)
      requires Valid() && Value() == BLANK
      modifies this, s0
      ensures Value() == BLANK.(typ := 10, s0 := PlayWire.NextToken(line, pos, 520).0) && result == typ
    {
      hide PlayWire.NextToken, HoldsText, Text;
      typ := 10;
      var _ := NextTokenInto(line, pos, s0);
      TextIs(s0[..], PlayWire.NextToken(line, pos, 520).0);
      result := typ;
    }
  }

  method ReadInt(line: seq<Byte>, pos: nat, tok: array<Byte>) returns (v: int, next: nat)
    requires tok.Length == TOKEN_CAP
    modifies tok
    ensures (v, next) == NextInt(line, pos)
  {
    next := NextTokenInto(line, pos, tok);
    var wide := Atol(tok, PlayWire.NextToken(line, pos, TOKEN_CAP).0);
    v := Wrap32(wide);
  }

  method TakeBytes(line: seq<Byte>, start: nat, want: nat, out: array<Byte>) returns (next: nat)
    requires out.Length > 0
    modifies out
    ensures next == StrEnd(line, start, want)
    ensures HoldsText(out[..], Span(line, start, if next - start < out.Length then next else start + out.Length - 1))
  {
    next := start;
    var i, j := 0, 0;
    while i < want && next < 2048
      invariant 0 <= i <= want && next == start + i && j == if i < out.Length then i else out.Length - 1
      invariant StrEnd(line, next, want - i) == StrEnd(line, start, want)
      invariant forall k :: 0 <= k < j ==> out[k] == At(line, start + k) && out[k] != NUL
      decreases want - i
    {
      var b := At(line, next);
      if b == 0 || b == 10 || b == 13 {
        break;
      }
      if j + 1 < out.Length {
        out[j] := b;
        j := j + 1;
      }
      next := next + 1;
      i := i + 1;
    }
    out[j] := 0;
  }

  /** The receiving end of a connection: a line buffer, and what has been decoded so far. */
  class LineReader {
    const line: array<Byte>
    var lineLen: nat
    const pkt: PlayPacket
    ghost var seen: seq<Packet>

    ghost predicate Valid()
      reads this
    {
      && line.Length == MAX_LINE && lineLen < MAX_LINE && pkt.Valid()
      && line != pkt.s0 && line != pkt.s1
    }

    ghost function Value(): Receiver
      reads this, line
      requires Valid()
    {
      Receiver(line[..lineLen], seen)
    }

    constructor ()
      ensures Valid() && fresh(line) && fresh(pkt) && fresh(pkt.ints) && fresh(pkt.s0) && fresh(pkt.s1)
      ensures Value() == Receiver([], [])
    {
      line := new Byte[2048];
      lineLen := 0;
      pkt := new PlayPacket();
      seen := [];
    }

    method ProcessBytes(data: seq<Byte>)
      requires Valid()
      modifies this, line, pkt, pkt.ints, pkt.s0, pkt.s1
      ensures Valid() && Value() == FeedAll(old(Value()), data)
    {
      var i := 0;
      while i < |data|
        invariant 0 <= i <= |data| && Valid() && Value() == FeedAll(old(Value()), data[..i])
      {
        ProcessByte(data[i]);
        i := i + 1;
        assert data[..i][..i - 1] == data[..i - 1];
      }
      assert data[..i] == data;
    }

    method ProcessByte(b: Byte)
      requires Valid()
      modifies this, line, pkt, pkt.ints, pkt.s0, pkt.s1
      ensures Valid() && Value() == Feed(old(Value()), b)
    {
      if b == 10 {
        line[lineLen] := 0;
        var _ := pkt.DecodeLine(line[..lineLen]);
        seen := seen + [pkt.Value()];
        lineLen := 0;
      } else if b != 13 {
        if lineLen + 1 < 2048 {
          line[lineLen] := b;
          lineLen := lineLen + 1;
        } else {
          lineLen := 0;
        }
      }
    }
  }
}
