/**
 The playtest line protocol as functions on byte sequences
 (engine/engine_play_protocol.mettle:86-560; bin/stdlib/std/conv.mettle:85-128).
 A line is read like a C string: every byte past its end is NUL.
 */
module PlayWire {
  import opened Bytes

  const NUL: Byte := 0
  const LF: Byte := 10
  const CR: Byte := 13
  const SPACE: Byte := 32
  const MINUS: Byte := 45
  const MAX_LINE: nat := 2048
  const TOKEN_CAP: nat := 64

  const WELCOME: seq<Byte> := [87, 69, 76, 67, 79, 77, 69]
  const SCENE_BEGIN: seq<Byte> := [83, 67, 69, 78, 69, 95, 66, 69, 71, 73, 78]
  const SCENE_END: seq<Byte> := [83, 67, 69, 78, 69, 95, 69, 78, 68]
  const ENTITY: seq<Byte> := [69, 78, 84, 73, 84, 89]
  const INPUT: seq<Byte> := [73, 78, 80, 85, 84]
  const XFORM: seq<Byte> := [88, 70, 79, 82, 77]
  const STOP: seq<Byte> := [83, 84, 79, 80]

  /** Fields past those a packet type uses stay 0 or empty. */
  datatype Packet = Packet(typ: int, ints: seq<int>, s0: seq<Byte>, s1: seq<Byte>)

  predicate Int32(v: int) {
    -0x8000_0000 <= v < 0x8000_0000
  }

  predicate Int64(v: int) {
    -0x8000_0000_0000_0000 <= v < 0x8000_0000_0000_0000
  }

  function Wrap32(v: int): (r: int)
    ensures Int32(r) && (Int32(v) ==> r == v)
  {
    (v + 0x8000_0000) % 0x1_0000_0000 - 0x8000_0000
  }

  function Wrap64(v: int): (r: int)
    ensures Int64(r) && (Int64(v) ==> r == v)
  {
    (v + 0x8000_0000_0000_0000) % 0x1_0000_0000_0000_0000 - 0x8000_0000_0000_0000
  }

  // ---- Decimal numbers ----

  function Digits(n: nat): (s: seq<Byte>)
    ensures |s| >= 1 && forall k :: 0 <= k < |s| ==> IsDigit(s[k])
  {
    if n < 10 then [(48 + n) as Byte] else Digits(n / 10) + [(48 + n % 10) as Byte]
  }

  /** Canonical signed decimal. */
  function Decimal(v: int): seq<Byte> {
    if v < 0 then [MINUS] + Digits(-v) else Digits(v)
  }

  predicate IsDigit(b: Byte) {
    48 <= b <= 57
  }

  function DigitsEnd(s: seq<Byte>, i: nat): (e: nat)
    requires i <= |s|
    ensures i <= e <= |s| && forall k :: i <= k < e ==> IsDigit(s[k])
    decreases |s| - i
  {
    if i < |s| && IsDigit(s[i]) then DigitsEnd(s, i + 1) else i
  }

  /** The digits' value in 64-bit arithmetic. */
  function DigitValue(s: seq<Byte>): int
    requires forall k :: 0 <= k < |s| ==> IsDigit(s[k])
  {
    if s == [] then 0 else Wrap64(DigitValue(s[..|s| - 1]) * 10 + (s[|s| - 1] as int - 48))
  }

  function Atol(s: seq<Byte>): int {
    if s != [] && s[0] == MINUS then Wrap64(-DigitValue(s[1..DigitsEnd(s, 1)])) else DigitValue(s[..DigitsEnd(s, 0)])
  }

  // ---- Encoding ----

  function IntField(v: int): seq<Byte> {
    Decimal(v) + [SPACE]
  }

  function IntFields(vs: seq<int>): seq<Byte> {
    if vs == [] then [] else IntFields(vs[..|vs| - 1]) + IntField(vs[|vs| - 1])
  }

  predicate Breaks(b: Byte) {
    b == NUL || b == LF || b == CR
  }

  /** Where the string stops: its end, a byte that would break the line, or the limit. */
  function CutLen(s: seq<Byte>, limit: nat, i: nat): (n: nat)
    requires i <= limit && i <= |s|
    ensures i <= n <= limit && n <= |s| && forall k :: i <= k < n ==> !Breaks(s[k])
    ensures n == limit || n == |s| || Breaks(s[n])
    decreases limit - i
  {
    if i < limit && i < |s| && !Breaks(s[i]) then CutLen(s, limit, i + 1) else i
  }

  function Cut(s: seq<Byte>, limit: nat): seq<Byte> {
    s[..CutLen(s, limit, 0)]
  }

  function StrField(s: seq<Byte>, limit: nat): seq<Byte> {
    IntField(|Cut(s, limit)|) + Cut(s, limit) + [SPACE]
  }

  datatype Message =
    | Welcome(ints: seq<int>)
    | SceneBegin(ints: seq<int>)
    | SceneEnd
    | EntityRow(ints: seq<int>, mesh: seq<Byte>, name: seq<Byte>)
    | Input(ints: seq<int>)
    | Xform(ints: seq<int>)
    | Stop(reason: seq<Byte>)

  predicate AllInt32(vs: seq<int>) {
    forall k :: 0 <= k < |vs| ==> Int32(vs[k])
  }

  /** The field counts are the encoders' parameter counts; a stop reason is a C string. */
  predicate Encodable(m: Message) {
    match m
    case Welcome(vs) => |vs| == 2 && AllInt32(vs)
    case SceneBegin(vs) => |vs| == 1 && AllInt32(vs)
    case SceneEnd => true
    case EntityRow(vs, _, _) => |vs| == 16 && AllInt32(vs)
    case Input(vs) => |vs| == 5 && AllInt32(vs)
    case Xform(vs) => |vs| == 10 && AllInt32(vs)
    case Stop(reason) => NUL !in reason
  }

  /** A line without its newline. */
  function Body(m: Message): seq<Byte> {
    match m
    case Welcome(vs) => WELCOME + [SPACE] + IntFields(vs)
    case SceneBegin(vs) => SCENE_BEGIN + [SPACE] + IntFields(vs)
    case SceneEnd => SCENE_END
    case EntityRow(vs, mesh, name) => ENTITY + [SPACE] + IntFields(vs) + StrField(mesh, 519) + StrField(name, 127)
    case Input(vs) => INPUT + [SPACE] + IntFields(vs)
    case Xform(vs) => XFORM + [SPACE] + IntFields(vs)
    case Stop(reason) => STOP + [SPACE] + reason + [SPACE]
  }

  function Encode(m: Message): seq<Byte> {
    Body(m) + [LF]
  }

  // ---- Decoding ----

  function At(line: seq<Byte>, pos: nat): Byte {
    if pos < |line| then line[pos] else NUL
  }

  function Span(line: seq<Byte>, i: nat, j: nat): (r: seq<Byte>)
    requires i <= j
    ensures |r| == j - i && forall k :: 0 <= k < j - i ==> r[k] == At(line, i + k)
  {
    seq(j - i, k requires 0 <= k < j - i => At(line, i + k))
  }

  predicate EndsToken(b: Byte) {
    b == NUL || b == SPACE || b == LF
  }

  function SkipSpaces(line: seq<Byte>, pos: nat): (p: nat)
    ensures pos <= p && (p == pos || p <= MAX_LINE)
    decreases MAX_LINE - pos
  {
    if pos < MAX_LINE && At(line, pos) == SPACE then SkipSpaces(line, pos + 1) else pos
  }

  /** Where the token ends, `room` bytes away at most. */
  function TokenEnd(line: seq<Byte>, pos: nat, room: nat): (e: nat)
    ensures pos <= e <= pos + room && forall k :: pos <= k < e ==> !EndsToken(At(line, k))
    ensures e > pos ==> e <= MAX_LINE
    decreases room
  {
    if pos < MAX_LINE && room > 0 && !EndsToken(At(line, pos)) then TokenEnd(line, pos + 1, room - 1) else pos
  }

  function NextToken(line: seq<Byte>, pos: nat, cap: nat): (r: (seq<Byte>, nat))
    requires cap > 0
    ensures |r.0| < cap && r.1 >= pos && forall k :: 0 <= k < |r.0| ==> !EndsToken(r.0[k])
  {
    var start := SkipSpaces(line, pos);
    var end := TokenEnd(line, start, cap - 1);
    (Span(line, start, end), end)
  }

  function NextInt(line: seq<Byte>, pos: nat): (r: (int, nat)) {
    var t := NextToken(line, pos, TOKEN_CAP);
    (Wrap32(Atol(t.0)), t.1)
  }

  function ReadInts(line: seq<Byte>, pos: nat, n: nat): (r: (seq<int>, nat))
    ensures |r.0| == n
  {
    if n == 0 then ([], pos)
    else
      var before := ReadInts(line, pos, n - 1);
      var v := NextInt(line, before.1);
      (before.0 + [v.0], v.1)
  }

  function SkipOneSpace(line: seq<Byte>, pos: nat): nat {
    if At(line, pos) == SPACE then pos + 1 else pos
  }

  function StrEnd(line: seq<Byte>, pos: nat, want: nat): (e: nat)
    ensures pos <= e <= pos + want && forall k :: pos <= k < e ==> !Breaks(At(line, k))
    decreases want
  {
    if want > 0 && pos < MAX_LINE && !Breaks(At(line, pos)) then StrEnd(line, pos + 1, want - 1) else pos
  }

  /** A length, then that many bytes, of which cap - 1 are kept. */
  function ReadLenStr(line: seq<Byte>, pos: nat, cap: nat): (r: (seq<Byte>, nat))
    requires cap > 0
    ensures |r.0| < cap && forall k :: 0 <= k < |r.0| ==> r.0[k] != NUL
  {
    var n := NextInt(line, pos);
    var start := SkipOneSpace(line, n.1);
    var end := StrEnd(line, start, if n.0 < 0 then 0 else n.0);
    (Span(line, start, if end - start < cap then end else start + cap - 1), SkipOneSpace(line, end))
  }

  function Zeros(n: nat): (s: seq<int>)
    ensures |s| == n && forall k :: 0 <= k < n ==> s[k] == 0
  {
    seq(n, _ => 0)
  }

  const BLANK := Packet(0, Zeros(16), [], [])

  function WithInts(typ: int, line: seq<Byte>, pos: nat, n: nat): Packet
    requires n <= 16
  {
    BLANK.(typ := typ, ints := ReadInts(line, pos, n).0 + Zeros(16 - n))
  }

  function DecodeEntity(line: seq<Byte>, pos: nat): Packet {
    var ints := ReadInts(line, pos, 16);
    var s0 := ReadLenStr(line, ints.1, 520);
    Packet(4, ints.0, s0.0, ReadLenStr(line, s0.1, 128).0)
  }

  /** The first token, not skipping spaces, picks the packet by prefix; type 0 is no packet. */
  function Decode(line: seq<Byte>): Packet {
    var end := TokenEnd(line, 0, TOKEN_CAP - 1);
    var cmd := Span(line, 0, end);
    if WELCOME <= cmd then WithInts(2, line, end, 2)
    else if SCENE_BEGIN <= cmd then WithInts(3, line, end, 1)
    else if SCENE_END <= cmd then BLANK.(typ := 6)
    else if ENTITY <= cmd then DecodeEntity(line, end)
    else if INPUT <= cmd then WithInts(7, line, end, 5)
    else if XFORM <= cmd then WithInts(8, line, end, 10)
    else if STOP <= cmd then BLANK.(typ := 10, s0 := NextToken(line, end, 520).0)
    else BLANK
  }

  /** What a message's line should decode to. */
  function Meaning(m: Message): Packet
    requires Encodable(m)
  {
    match m
    case Welcome(vs) => BLANK.(typ := 2, ints := vs + Zeros(14))
    case SceneBegin(vs) => BLANK.(typ := 3, ints := vs + Zeros(15))
    case SceneEnd => BLANK.(typ := 6)
    case EntityRow(vs, mesh, name) => Packet(4, vs, Cut(mesh, 519), Cut(name, 127))
    case Input(vs) => BLANK.(typ := 7, ints := vs + Zeros(11))
    case Xform(vs) => BLANK.(typ := 8, ints := vs + Zeros(6))
    case Stop(reason) => BLANK.(typ := 10, s0 := NextToken(reason, 0, 520).0)
  }

  // ---- Receiving ----

  /** The bytes of the unfinished line and the packets seen. */
  datatype Receiver = Receiver(line: seq<Byte>, seen: seq<Packet>)

  /** CR is dropped; a line that outgrows the buffer is forgotten so far. */
  function Feed(r: Receiver, b: Byte): Receiver {
    if b == LF then Receiver([], r.seen + [Decode(r.line)])
    else if b == CR then r
    else if |r.line| + 1 < MAX_LINE then r.(line := r.line + [b])
    else r.(line := [])
  }

  function WithoutCr(s: seq<Byte>): (r: seq<Byte>)
    ensures |r| <= |s| && forall k :: 0 <= k < |r| ==> r[k] in s && r[k] != CR
    ensures CR !in s ==> r == s
  {
    if s == [] then []
    else WithoutCr(s[..|s| - 1]) + if s[|s| - 1] == CR then [] else [s[|s| - 1]]
  }

  /** What is left of a line's bytes: every time MAX_LINE of them come, they are forgotten. */
  function Remembered(s: seq<Byte>): seq<Byte> {
    s[|s| - |s| % MAX_LINE..]
  }

  /** The message as the receiver's line buffer gets it. */
  function Received(m: Message): Message {
    if m.Stop? then Stop(WithoutCr(m.reason)) else m
  }

  /** Only a stop reason can hold a newline of its own. */
  predicate OneLine(m: Message) {
    m.Stop? ==> LF !in m.reason
  }

  /** What arrives for a message on one line. */
  function Arrival(m: Message): Packet
    requires Encodable(m)
  {
    if |Body(Received(m))| < MAX_LINE then Meaning(Received(m)) else Decode(Remembered(Body(Received(m))))
  }

  function FeedAll(r: Receiver, data: seq<Byte>): Receiver {
    if data == [] then r else Feed(FeedAll(r, data[..|data| - 1]), data[|data| - 1])
  }

  function FeedChunks(r: Receiver, chunks: seq<seq<Byte>>): Receiver {
    if chunks == [] then r else FeedAll(FeedChunks(r, chunks[..|chunks| - 1]), chunks[|chunks| - 1])
  }

  function Joined(chunks: seq<seq<Byte>>): seq<Byte> {
    if chunks == [] then [] else Joined(chunks[..|chunks| - 1]) + chunks[|chunks| - 1]
  }

  function Newlines(data: seq<Byte>): nat {
    if data == [] then 0 else Newlines(data[..|data| - 1]) + if data[|data| - 1] == LF then 1 else 0
  }

  function Stream(ms: seq<Message>): seq<Byte> {
    if ms == [] then [] else Stream(ms[..|ms| - 1]) + Encode(ms[|ms| - 1])
  }
}
