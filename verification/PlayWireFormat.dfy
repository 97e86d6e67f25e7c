/**
 The playtest lines byte for byte (engine/engine_play_protocol.mettle:86-270, 330-560), told
 with words and decimal numerals rather than with the encoder's own pieces.
 */
module PlayWireFormat {
  import opened Bytes
  import opened PlayWire
  import opened PlayWireTheorems

  /** The low bytes of a text's characters. */
  function Ascii(s: string): seq<Byte> {
    seq(|s|, k requires 0 <= k < |s| => (s[k] as int % 256) as Byte)
  }

  // ---- Numerals ----

  /** The k-th digit from the right is that of n in base ten, and only 0 begins with a 0. */
  lemma {:induction false} DigitsAreDecimal(n: nat, k: nat)
    requires k < |Digits(n)|
    ensures Pow10(k) > 0 && Digits(n)[|Digits(n)| - 1 - k] as int == '0' as int + n / Pow10(k) % 10
    ensures Digits(n)[0] == '0' as int as Byte ==> n == 0
    decreases n
  {
    PowerPositive(k);
    if n >= 10 {
      DigitsAreDecimal(n / 10, if k == 0 then 0 else k - 1);
      if k > 0 {
        PowerPositive(k - 1);
        DivideTwice(n, Pow10(k - 1));
      }
    }
  }

  lemma {:induction false} PowerPositive(k: nat)
    ensures Pow10(k) > 0 && Pow10(0) == 1
  {
    if k > 0 {
      PowerPositive(k - 1);
    }
  }

  lemma DivideTwice(n: nat, p: nat)
    requires p > 0
    ensures n / 10 / p == n / (10 * p)
  {
    var q := n / 10 / p;
    var a, b := n / 10, n % 10;
    var r := a % p;
    assert n == 10 * a + b && a == p * q + r;
    assert n == 10 * (p * q) + (10 * r + b) && 10 * (p * q) == (10 * p) * q;
    assert 0 <= 10 * r + b < 10 * p;
    QuotientIs(n, 10 * p, q, 10 * r + b);
  }

  lemma QuotientIs(n: nat, d: nat, q: nat, r: nat)
    requires d > 0 && n == d * q + r && r < d
    ensures n / d == q
  {
    var p, s := n / d, n % d;
    assert n == d * p + s;
    if p < q {
      Bigger(d, p, q);
    } else if q < p {
      Bigger(d, q, p);
    }
  }

  lemma Bigger(d: nat, p: nat, q: nat)
    requires p < q
    ensures d * q >= d * p + d
  {
    Ordered(p + 1, q, d);
    assert d * (p + 1) == d * p + d;
  }

  lemma Ordered(a: nat, b: nat, c: nat)
    requires a <= b
    ensures c * a <= c * b
  {
  }

  /** A negative number has a minus sign before the digits of its size. */
  lemma NegativeSigned(n: nat)
    requires n > 0
    ensures Decimal(n) == Digits(n) && Decimal(0 - n) == Ascii("-") + Digits(n)
  {
  }

  /** A numeral is read up to the first byte that is no digit. */
  lemma AtolStops(v: int, rest: seq<Byte>)
    requires Int64(v) && (rest != [] ==> rest[0] < 48 || rest[0] > 57)
    ensures Atol(Decimal(v) + rest) == v
  {
    hide DigitValue;
    var d := Decimal(v);
    var s := d + rest;
    DecimalRoundTrip(v);
    var from := if v < 0 then 1 else 0;
    assert forall k :: from <= k < |d| ==> IsDigit(d[k]);
    DigitsEndAt(d, from, |d|);
    DigitsEndAt(s, from, |d|);
    assert s[from..|d|] == d[from..|d|];
    assert v >= 0 ==> d[0] != MINUS;
  }

  /** Without a digit in front a token counts as 0. */
  lemma AtolOfOther(s: seq<Byte>)
    requires s == [] || (s[0] != 45 && (s[0] < 48 || s[0] > 57))
    ensures Atol(s) == 0
  {
  }

  // ---- Fields ----

  /** Numbers follow each other in order, each with one space behind it. */
  lemma {:induction false} FieldsInOrder(a: seq<int>, b: seq<int>)
    ensures IntFields([]) == [] && IntFields(a + b) == IntFields(a) + IntFields(b)
    ensures forall v :: IntFields([v]) == Decimal(v) + Ascii(" ")
    decreases |b|
  {
    hide Decimal;
    forall v
      ensures IntFields([v]) == Decimal(v) + Ascii(" ")
    {
      assert [v][..0] == [];
      assert IntFields([v]) == IntFields([]) + IntField(v);
    }
    if b == [] {
      assert a + b == a;
    } else {
      var most, last := b[..|b| - 1], b[|b| - 1];
      FieldsInOrder(a, most);
      assert (a + b)[..|a + b| - 1] == a + most;
    }
  }

  /**
   A string is sent as its length, a space, its bytes and a space; it ends at its own end, at a
   byte 0, 10 or 13, or at the limit, whichever comes first.
   */
  lemma StringField(s: seq<Byte>, limit: nat) returns (n: nat)
    ensures n <= |s| && n <= limit && 0 !in s[..n] && 10 !in s[..n] && 13 !in s[..n]
    ensures n == |s| || n == limit || s[n] == 0 || s[n] == 10 || s[n] == 13
    ensures StrField(s, limit) == Decimal(n) + Ascii(" ") + s[..n] + Ascii(" ")
  {
    hide Decimal;
    n := CutLen(s, limit, 0);
    assert forall b :: b in s[..n] ==> !Breaks(b);
  }

  lemma Ends()
    ensures Ascii("\n") == [LF] && Ascii(" ") == [SPACE]
  {
  }

  lemma WelcomeForm(vs: seq<int>)
    ensures Encode(Welcome(vs)) == Ascii("WELCOME ") + IntFields(vs) + Ascii("\n")
  {
    hide IntFields, StrField;
    Ends();
    assert Ascii("WELCOME ") == WELCOME + [SPACE];
  }

  lemma SceneBeginForm(vs: seq<int>)
    ensures Encode(SceneBegin(vs)) == Ascii("SCENE_BEGIN ") + IntFields(vs) + Ascii("\n")
  {
    hide IntFields, StrField;
    Ends();
    assert Ascii("SCENE_BEGIN ") == SCENE_BEGIN + [SPACE];
  }

  lemma InputForm(vs: seq<int>)
    ensures Encode(Input(vs)) == Ascii("INPUT ") + IntFields(vs) + Ascii("\n")
  {
    hide IntFields, StrField;
    Ends();
    assert Ascii("INPUT ") == INPUT + [SPACE];
  }

  lemma XformForm(vs: seq<int>)
    ensures Encode(Xform(vs)) == Ascii("XFORM ") + IntFields(vs) + Ascii("\n")
  {
    hide IntFields, StrField;
    Ends();
    assert Ascii("XFORM ") == XFORM + [SPACE];
  }

  lemma SceneEndForm()
    ensures Encode(SceneEnd) == Ascii("SCENE_END") + Ascii("\n")
  {
    hide IntFields, StrField;
    Ends();
    assert Ascii("SCENE_END") == SCENE_END;
  }

  lemma EntityForm(vs: seq<int>, mesh: seq<Byte>, name: seq<Byte>)
    ensures Encode(EntityRow(vs, mesh, name)) ==
            Ascii("ENTITY ") + IntFields(vs) + StrField(mesh, 519) + StrField(name, 127) + Ascii("\n")
  {
    hide IntFields, StrField;
    Ends();
    assert Ascii("ENTITY ") == ENTITY + [SPACE];
  }

  lemma StopForm(reason: seq<Byte>)
    ensures Encode(Stop(reason)) == Ascii("STOP ") + reason + Ascii(" ") + Ascii("\n")
  {
    hide IntFields, StrField;
    Ends();
    assert Ascii("STOP ") == STOP + [SPACE];
  }

  /** The seven kinds of line. */
  lemma LineForms(vs: seq<int>, mesh: seq<Byte>, name: seq<Byte>)
    ensures Encode(Welcome(vs)) == Ascii("WELCOME ") + IntFields(vs) + Ascii("\n")
    ensures Encode(SceneBegin(vs)) == Ascii("SCENE_BEGIN ") + IntFields(vs) + Ascii("\n")
    ensures Encode(SceneEnd) == Ascii("SCENE_END") + Ascii("\n")
    ensures Encode(EntityRow(vs, mesh, name)) ==
            Ascii("ENTITY ") + IntFields(vs) + StrField(mesh, 519) + StrField(name, 127) + Ascii("\n")
    ensures Encode(Input(vs)) == Ascii("INPUT ") + IntFields(vs) + Ascii("\n")
    ensures Encode(Xform(vs)) == Ascii("XFORM ") + IntFields(vs) + Ascii("\n")
    ensures Encode(Stop(name)) == Ascii("STOP ") + name + Ascii(" ") + Ascii("\n")
  {
    hide *;
    WelcomeForm(vs);
    SceneBeginForm(vs);
    SceneEndForm();
    EntityForm(vs, mesh, name);
    InputForm(vs);
    XformForm(vs);
    StopForm(name);
  }

  lemma Words()
    ensures Ascii("WELCOME") == WELCOME && Ascii("SCENE_BEGIN") == SCENE_BEGIN && Ascii("SCENE_END") == SCENE_END
    ensures Ascii("ENTITY") == ENTITY && Ascii("INPUT") == INPUT && Ascii("XFORM") == XFORM && Ascii("STOP") == STOP
  {
  }

  // ---- What kind of line it is ----

  predicate IsWord(word: seq<Byte>) {
    0 < |word| < TOKEN_CAP && forall k :: 0 <= k < |word| ==> !EndsToken(word[k])
  }

  lemma WordsAreWords()
    ensures IsWord(Ascii("WELCOME")) && IsWord(Ascii("SCENE_BEGIN")) && IsWord(Ascii("SCENE_END"))
    ensures IsWord(Ascii("ENTITY")) && IsWord(Ascii("INPUT")) && IsWord(Ascii("XFORM")) && IsWord(Ascii("STOP"))
  {
    hide Ascii;
    Words();
  }

  /** A line begins with one of the words if and only if its first token does. */
  lemma WordIsPrefix(line: seq<Byte>, word: seq<Byte>)
    requires IsWord(word)
    ensures word <= Span(line, 0, TokenEnd(line, 0, TOKEN_CAP - 1)) <==> word <= line
  {
    var end := TokenEnd(line, 0, TOKEN_CAP - 1);
    var cmd := Span(line, 0, end);
    if word <= line {
      TokenCovers(line, 0, |word|, TOKEN_CAP - 1);
      assert forall k :: 0 <= k < |word| ==> cmd[k] == word[k];
    }
    if word <= cmd {
      TokenInLine(line, word, end);
    }
  }

  lemma TokenInLine(line: seq<Byte>, word: seq<Byte>, end: nat)
    requires IsWord(word) && word <= Span(line, 0, end)
    ensures word <= line
  {
    var cmd := Span(line, 0, end);
    forall k | 0 <= k < |word|
      ensures k < |line| && line[k] == word[k]
    {
      assert cmd[k] == At(line, k) && word[k] == cmd[k];
      assert !EndsToken(word[k]);
    }
    assert word[|word| - 1] == cmd[|word| - 1];
    assert word == line[..|word|];
  }

  lemma {:induction false} TokenCovers(line: seq<Byte>, pos: nat, end: nat, room: nat)
    requires pos <= end <= MAX_LINE && end - pos <= room && forall k :: pos <= k < end ==> !EndsToken(At(line, k))
    ensures TokenEnd(line, pos, room) >= end
    decreases room
  {
    if pos < end {
      TokenCovers(line, pos + 1, end, room - 1);
    }
  }

  /** The packet type that a line has by the word it begins with; 0 for none of the seven. */
  function Kind(line: seq<Byte>): int {
    if Ascii("WELCOME") <= line then 2 else if Ascii("SCENE_BEGIN") <= line then 3
    else if Ascii("SCENE_END") <= line then 6 else if Ascii("ENTITY") <= line then 4
    else if Ascii("INPUT") <= line then 7 else if Ascii("XFORM") <= line then 8
    else if Ascii("STOP") <= line then 10 else 0
  }

  lemma KindOfToken(line: seq<Byte>)
    ensures Decode(line).typ == Kind(Span(line, 0, TokenEnd(line, 0, TOKEN_CAP - 1)))
    ensures Decode(line).typ == 0 ==> Decode(line) == Packet(0, Zeros(16), [], [])
  {
    hide TokenEnd, Span, ReadInts, NextToken, ReadLenStr, Ascii;
    Words();
  }

  lemma SameKind(a: seq<Byte>, b: seq<Byte>)
    requires Ascii("WELCOME") <= a <==> Ascii("WELCOME") <= b
    requires Ascii("SCENE_BEGIN") <= a <==> Ascii("SCENE_BEGIN") <= b
    requires Ascii("SCENE_END") <= a <==> Ascii("SCENE_END") <= b
    requires Ascii("ENTITY") <= a <==> Ascii("ENTITY") <= b
    requires Ascii("INPUT") <= a <==> Ascii("INPUT") <= b
    requires Ascii("XFORM") <= a <==> Ascii("XFORM") <= b
    requires Ascii("STOP") <= a <==> Ascii("STOP") <= b
    ensures Kind(a) == Kind(b)
  {
    hide Ascii;
  }

  /** The word a line begins with decides what it is; a line that begins with none of them is nothing. */
  lemma KindByWord(line: seq<Byte>)
    ensures Decode(line).typ == Kind(line)
    ensures Decode(line).typ == 0 ==> Decode(line) == Packet(0, Zeros(16), [], [])
  {
    hide *;
    KindOfToken(line);
    WordsAreWords();
    WordIsPrefix(line, Ascii("WELCOME"));
    WordIsPrefix(line, Ascii("SCENE_BEGIN"));
    WordIsPrefix(line, Ascii("SCENE_END"));
    WordIsPrefix(line, Ascii("ENTITY"));
    WordIsPrefix(line, Ascii("INPUT"));
    WordIsPrefix(line, Ascii("XFORM"));
    WordIsPrefix(line, Ascii("STOP"));
    SameKind(Span(line, 0, TokenEnd(line, 0, TOKEN_CAP - 1)), line);
  }

  // ---- Fields that are not there ----

  /** Behind the end of a line every number reads as 0 and every string as empty. */
  lemma {:induction false} PastTheEnd(line: seq<Byte>, pos: nat, n: nat, cap: nat)
    requires |line| <= pos && cap > 0
    ensures ReadInts(line, pos, n) == (Zeros(n), pos)
    ensures ReadLenStr(line, pos, cap) == ([], pos) && NextToken(line, pos, cap) == ([], pos)
  {
    hide NextToken, NextInt, ReadLenStr;
    NothingThere(line, pos, cap);
    if n > 0 {
      PastTheEnd(line, pos, n - 1, cap);
      assert Zeros(n - 1) + [0] == Zeros(n);
    }
  }

  lemma NothingThere(line: seq<Byte>, pos: nat, cap: nat)
    requires |line| <= pos && cap > 0
    ensures NextToken(line, pos, cap) == ([], pos) && NextInt(line, pos) == (0, pos)
    ensures ReadLenStr(line, pos, cap) == ([], pos)
  {
    assert At(line, pos) == NUL;
    assert Span(line, pos, pos) == [];
    assert Atol([]) == 0;
  }

  /** A number is read from at most 63 bytes; what follows them is left for the next field. */
  lemma LongToken(line: seq<Byte>, pos: nat)
    requires pos + 63 <= |line| <= MAX_LINE && forall k :: pos <= k < pos + 63 ==> !EndsToken(line[k])
    ensures NextInt(line, pos) == (Wrap32(Atol(line[pos..pos + 63])), pos + 63)
  {
    hide Atol;
    assert At(line, pos) == line[pos];
    TokenEndAt(line, pos, pos + 63, TOKEN_CAP - 1);
    assert Span(line, pos, pos + 63) == line[pos..pos + 63];
  }
}
