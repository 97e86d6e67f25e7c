/**
 Integer line clipping and Bresenham rasterisation (engine/engine_viewport.mettle:747-846)
 as functions over points, and what they guarantee.
 */
module LineSpec {
  datatype Point = Point(x: int, y: int)

  datatype Segment = Segment(a: Point, b: Point)

  function Abs(v: int): nat {
    if v < 0 then -v else v
  }

  function Max(a: nat, b: nat): nat {
    if a > b then a else b
  }

  // ---- Bresenham ----

  /** Absolute extents and directions of a segment. */
  datatype Slope = Slope(dx: nat, dy: nat, sx: int, sy: int) {
    function Length(): nat {
      Max(dx, dy)
    }
  }

  function SlopeOf(s: Segment): Slope {
    Slope(Abs(s.b.x - s.a.x), Abs(s.b.y - s.a.y), if s.a.x > s.b.x then -1 else 1, if s.a.y > s.b.y then -1 else 1)
  }

  datatype Cursor = Cursor(x: int, y: int, err: int)

  /** One turn of the loop after plotting. */
  function Advance(c: Cursor, m: Slope): Cursor {
    var e2 := c.err * 2;
    var c1 := if e2 > 0 - m.dy then Cursor(c.x + m.sx, c.y, c.err - m.dy) else c;
    if e2 < m.dx then Cursor(c1.x, c1.y + m.sy, c1.err + m.dx) else c1
  }

  function Begin(s: Segment): Cursor {
    Cursor(s.a.x, s.a.y, SlopeOf(s).dx - SlopeOf(s).dy)
  }

  /** The loop's state after k turns. */
  function CursorAt(s: Segment, k: nat): Cursor {
    if k == 0 then Begin(s) else Advance(CursorAt(s, k - 1), SlopeOf(s))
  }

  function PointAt(s: Segment, k: nat): Point {
    Point(CursorAt(s, k).x, CursorAt(s, k).y)
  }

  /** The plotted points, in order. */
  function Path(s: Segment): (path: seq<Point>)
    ensures |path| == SlopeOf(s).Length() + 1
    ensures forall k :: 0 <= k < |path| ==> path[k] == PointAt(s, k)
  {
    seq(SlopeOf(s).Length() + 1, k requires 0 <= k => PointAt(s, k))
  }

  /** i horizontal and j vertical steps from the start; `drift` is i * dy - j * dx. */
  datatype Grid = Grid(i: int, j: int, drift: int)

  ghost predicate OnGrid(s: Segment, c: Cursor, g: Grid) {
    var m := SlopeOf(s);
    && c.x == s.a.x + m.sx * g.i && c.y == s.a.y + m.sy * g.j
    && c.err == m.dx - m.dy - g.drift
    && g.drift == g.i * m.dy - g.j * m.dx
  }

  /** Within half a pixel of the true line, and as many steps along the longer axis as turns. */
  ghost predicate Near(m: Slope, g: Grid, k: nat) {
    && 2 * Abs(g.drift) <= m.Length()
    && (if m.dx >= m.dy then g.i == k && 0 <= g.j else g.j == k && 0 <= g.i)
  }

  // ---- Products ----

  lemma Distribute(a: int, b: int, c: int)
    ensures (a - b) * c == a * c - b * c
    ensures (a + b) * c == a * c + b * c
  {
  }

  lemma Monotone(a: int, b: int, c: nat)
    requires a <= b
    ensures a * c <= b * c
  {
  }

  /** With equal extents the drift can only be zero. */
  lemma DiagonalDrift(m: Slope, g: Grid, k: nat)
    requires Near(m, g, k) && m.dx == m.dy && m.dx > 0 && g.drift == g.i * m.dy - g.j * m.dx
    ensures g.drift == 0
  {
    var q, d := g.i - g.j, m.dx;
    Distribute(g.i, g.j, d);
    assert g.drift == q * d;
    assert 2 * Abs(g.drift) <= d;
    hide Near;
    if q >= 1 {
      Monotone(1, q, d);
    } else if q <= -1 {
      Monotone(q, -1, d);
    }
  }

  function NextGrid(m: Slope, g: Grid): Grid {
    var e2 := 2 * (m.dx - m.dy - g.drift);
    var right, down := e2 > 0 - m.dy, e2 < m.dx;
    Grid(if right then g.i + 1 else g.i, if down then g.j + 1 else g.j,
         g.drift + (if right then m.dy else 0) - (if down then m.dx else 0))
  }

  lemma NextNear(m: Slope, g: Grid, k: nat)
    requires Near(m, g, k) && k < m.Length() && g.drift == g.i * m.dy - g.j * m.dx
    ensures Near(m, NextGrid(m, g), k + 1)
  {
    if m.dx == m.dy {
      DiagonalDrift(m, g, k);
    }
  }

  lemma OneMore(n: int, b: int)
    ensures (n + 1) * b == n * b + b && b * (n + 1) == b * n + b
  {
  }

  lemma NextOnGrid(s: Segment, c: Cursor, g: Grid)
    requires OnGrid(s, c, g)
    ensures OnGrid(s, Advance(c, SlopeOf(s)), NextGrid(SlopeOf(s), g))
  {
    hide SlopeOf;
    var m := SlopeOf(s);
    OneMore(g.i, m.dy);
    OneMore(g.j, m.dx);
    OneMore(g.i, m.sx);
    OneMore(g.j, m.sy);
  }

  /** Point k of the path, as step counts. */
  lemma {:induction false} GridAt(s: Segment, k: nat) returns (g: Grid)
    requires k <= SlopeOf(s).Length()
    ensures OnGrid(s, CursorAt(s, k), g) && Near(SlopeOf(s), g, k)
  {
    if k == 0 {
      g := Grid(0, 0, 0);
    } else {
      var h := GridAt(s, k - 1);
      NextNear(SlopeOf(s), h, k - 1);
      NextOnGrid(s, CursorAt(s, k - 1), h);
      g := NextGrid(SlopeOf(s), h);
    }
  }

  /** Steps along the shorter axis never exceed its extent. */
  lemma ShortAxisBound(long: nat, short: nat, k: nat, n: int, drift: int)
    requires k <= long && long >= 1 && n >= 0 && drift == k * short - n * long && 2 * Abs(drift) <= long
    ensures n <= short
    ensures k == long ==> n == short
  {
    Monotone(k, long, short);
    if n > short {
      Monotone(short + 1, n, long);
      Distribute(short, -1, long);
    }
    if k == long && n < short {
      Monotone(n, short - 1, long);
      Distribute(short, 1, long);
    }
  }

  /** Every plotted point is within half a pixel of the true line and inside the endpoints' box. */
  lemma PathIsNear(s: Segment, k: nat) returns (i: nat, j: nat)
    requires k < |Path(s)|
    ensures var m := SlopeOf(s);
      && i <= m.dx && j <= m.dy
      && Path(s)[k] == Point(s.a.x + m.sx * i, s.a.y + m.sy * j)
      && 2 * Abs(i * m.dy - j * m.dx) <= m.Length()
      && (if m.dx >= m.dy then i == k else j == k)
      && (k == m.Length() ==> i == m.dx && j == m.dy)
  {
    var m := SlopeOf(s);
    var g := GridAt(s, k);
    if m.Length() == 0 {
      assert g.i == 0 && g.j == 0;
    } else if m.dx >= m.dy {
      ShortAxisBound(m.dx, m.dy, k, g.j, g.drift);
    } else {
      ShortAxisBound(m.dy, m.dx, k, g.i, -g.drift);
    }
    i, j := g.i, g.j;
  }

  predicate Between(v: int, a: int, b: int) {
    a <= v <= b || b <= v <= a
  }

  predicate InBox(p: Point, s: Segment) {
    Between(p.x, s.a.x, s.b.x) && Between(p.y, s.a.y, s.b.y)
  }

  /** The path starts at a, ends at b, reaches b nowhere before, and stays in the box of a and b. */
  lemma PathEnds(s: Segment)
    ensures Path(s)[0] == s.a && Path(s)[|Path(s)| - 1] == s.b
    ensures forall k :: 0 <= k < |Path(s)| - 1 ==> Path(s)[k] != s.b
    ensures forall k :: 0 <= k < |Path(s)| ==> InBox(Path(s)[k], s)
  {
    var m := SlopeOf(s);
    forall k | 0 <= k < |Path(s)|
      ensures InBox(Path(s)[k], s) && (Path(s)[k] == s.b <==> k == |Path(s)| - 1)
    {
      var i, j := PathIsNear(s, k);
    }
  }

  /** The doubled error never leaves three times the longer extent, so int32 holds it. */
  lemma {:induction false} ErrorFits(s: Segment, k: nat)
    requires k <= SlopeOf(s).Length()
    ensures Abs(CursorAt(s, k).err * 2) <= 3 * SlopeOf(s).Length()
  {
    var g := GridAt(s, k);
  }

  // ---- Clipping ----

  /** The viewport rectangle's inclusive bounds. */
  datatype Rect = Rect(minx: int, miny: int, maxx: int, maxy: int)

  /** The bits 1, 2, 4 and 8 of the outcode. */
  datatype Outcode = Outcode(left: bool, right: bool, above: bool, below: bool) {
    predicate Zero() {
      !left && !right && !above && !below
    }

    /** A common bit of two outcodes. */
    predicate Meets(o: Outcode) {
      (left && o.left) || (right && o.right) || (above && o.above) || (below && o.below)
    }
  }

  function OutcodeOf(p: Point, r: Rect): Outcode {
    Outcode(p.x < r.minx, p.x > r.maxx, p.y < r.miny, p.y > r.maxy)
  }

  predicate Inside(p: Point, r: Rect) {
    r.minx <= p.x <= r.maxx && r.miny <= p.y <= r.maxy
  }

  /** Division rounding toward zero. */
  function TruncDiv(a: int, b: int): int
    requires b != 0
  {
    if (a >= 0) == (b > 0) then Abs(a) / Abs(b) else -(Abs(a) / Abs(b))
  }

  /** Where the line through a and b meets the horizontal y; divides by b.y - a.y. */
  function AtY(s: Segment, y: int): Point
    requires s.a.y != s.b.y
  {
    Point(s.a.x + TruncDiv((s.b.x - s.a.x) * (y - s.a.y), s.b.y - s.a.y), y)
  }

  function AtX(s: Segment, x: int): Point
    requires s.a.x != s.b.x
  {
    Point(x, s.a.y + TruncDiv((s.b.y - s.a.y) * (x - s.a.x), s.b.x - s.a.x))
  }

  /** The replacement for the endpoint whose outcode is `out`; None where the source returns early. */
  datatype Cut = NoCut | CutAt(p: Point)

  function Intersect(s: Segment, r: Rect, out: Outcode): Cut {
    if out.below then (if s.b.y == s.a.y then NoCut else CutAt(AtY(s, r.maxy)))
    else if out.above then (if s.b.y == s.a.y then NoCut else CutAt(AtY(s, r.miny)))
    else if out.right then (if s.b.x == s.a.x then NoCut else CutAt(AtX(s, r.maxx)))
    else if out.left then (if s.b.x == s.a.x then NoCut else CutAt(AtX(s, r.minx)))
    else CutAt(s.a)
  }

  function Manhattan(s: Segment): nat {
    Abs(s.b.x - s.a.x) + Abs(s.b.y - s.a.y)
  }

  /** Truncation loses less than one divisor. */
  lemma TruncLoss(p: int, den: int)
    requires den != 0
    ensures Abs(TruncDiv(p, den) * den - p) < Abs(den)
  {
    hide TruncDiv;
    var q, t := Abs(p) / Abs(den), TruncDiv(p, den);
    QuotientSign(p, den);
    Remainder(Abs(p), Abs(den));
    AbsProduct(t, den);
    SignProduct(t, den);
    assert Abs(t * den) == q * Abs(den);
  }

  lemma QuotientSign(p: int, den: int)
    requires den != 0
    ensures var t := TruncDiv(p, den);
      Abs(t) == Abs(p) / Abs(den) && if (p >= 0) == (den > 0) then t >= 0 else t <= 0
  {
    var q: int := NatQuotient(Abs(p), Abs(den));
    assert TruncDiv(p, den) == if (p >= 0) == (den > 0) then q else -q;
  }

  lemma NatQuotient(a: nat, d: nat) returns (q: nat)
    requires d > 0
    ensures q == a / d
  {
    q := a / d;
  }

  lemma Remainder(a: nat, d: nat)
    requires d > 0
    ensures 0 <= a - a / d * d < d
  {
    assert a == a / d * d + a % d;
  }

  /** ... and a quotient of a product bounded by v * den has size at most v. */
  lemma TruncSize(p: int, v: int, den: int)
    requires den != 0 && Abs(p) <= Abs(v) * Abs(den)
    ensures Abs(TruncDiv(p, den)) <= Abs(v)
  {
    hide TruncDiv;
    QuotientSign(p, den);
    DivBound(Abs(p), Abs(den), Abs(v));
  }

  lemma DivBound(a: nat, d: nat, v: nat)
    requires d > 0 && a <= v * d
    ensures a / d <= v
  {
    var q := a / d;
    assert a == q * d + a % d;
    if q >= v + 1 {
      Monotone(v + 1, q, d);
      Distribute(v, -1, d);
    }
  }

  /** num lies between 0 and den, so v * num lies between 0 and v * den. */
  lemma ProductBetween(v: int, num: int, den: int)
    requires den != 0 && Between(num, 0, den)
    ensures Abs(v * num) <= Abs(v) * Abs(den)
    ensures v >= 0 ==> (if den > 0 then v * num >= 0 else v * num <= 0)
    ensures v <= 0 ==> (if den > 0 then v * num <= 0 else v * num >= 0)
  {
    AbsProduct(v, num);
    Monotone(Abs(num), Abs(den), Abs(v));
    assert Abs(v) * Abs(num) == Abs(num) * Abs(v) && Abs(v) * Abs(den) == Abs(den) * Abs(v);
    SignProduct(v, num);
  }

  lemma SignProduct(a: int, b: int)
    ensures a >= 0 && b >= 0 ==> a * b >= 0
    ensures a >= 0 && b <= 0 ==> a * b <= 0
    ensures a <= 0 && b >= 0 ==> a * b <= 0
    ensures a <= 0 && b <= 0 ==> a * b >= 0
  {
  }

  lemma AbsProduct(a: int, b: int)
    ensures Abs(a * b) == Abs(a) * Abs(b)
  {
    SignProduct(a, b);
    assert (-a) * b == -(a * b) && a * (-b) == -(a * b) && (-a) * (-b) == a * b;
  }

  /** A rounded proportion of v lies between 0 and v, less than one divisor off. */
  lemma TruncBetween(v: int, num: int, den: int)
    requires den != 0 && Between(num, 0, den)
    ensures Between(TruncDiv(v * num, den), 0, v)
    ensures Abs(TruncDiv(v * num, den) * den - v * num) < Abs(den)
  {
    var p := v * num;
    ProductBetween(v, num, den);
    TruncSize(p, v, den);
    TruncLoss(p, den);
    TruncSign(p, den);
    hide TruncDiv;
  }

  lemma TruncSign(p: int, den: int)
    requires den != 0
    ensures (if den > 0 then p >= 0 else p <= 0) ==> TruncDiv(p, den) >= 0
    ensures (if den > 0 then p <= 0 else p >= 0) ==> TruncDiv(p, den) <= 0
  {
  }

  // ---- Rounds of the clipping loop ----

  /** The endpoint that is replaced: a when it is outside, else b. */
  function OutOf(s: Segment, r: Rect): Outcode {
    if OutcodeOf(s.a, r).Zero() then OutcodeOf(s.b, r) else OutcodeOf(s.a, r)
  }

  function Replace(s: Segment, r: Rect, p: Point): Segment {
    if OutcodeOf(s.a, r).Zero() then Segment(s.a, p) else Segment(p, s.b)
  }

  predicate Continues(s: Segment, r: Rect) {
    !(OutcodeOf(s.a, r).Zero() && OutcodeOf(s.b, r).Zero()) && !OutcodeOf(s.a, r).Meets(OutcodeOf(s.b, r))
  }

  lemma AtYShrinks(s: Segment, y: int)
    requires s.a.y != s.b.y && Between(y, s.a.y, s.b.y)
    ensures InBox(AtY(s, y), s)
    ensures y != s.a.y ==> Manhattan(Segment(AtY(s, y), s.b)) < Manhattan(s)
    ensures y != s.b.y ==> Manhattan(Segment(s.a, AtY(s, y))) < Manhattan(s)
    ensures Abs((AtY(s, y).x - s.a.x) * (s.b.y - s.a.y) - (s.b.x - s.a.x) * (y - s.a.y)) < Abs(s.b.y - s.a.y)
  {
    TruncBetween(s.b.x - s.a.x, y - s.a.y, s.b.y - s.a.y);
  }

  lemma AtXShrinks(s: Segment, x: int)
    requires s.a.x != s.b.x && Between(x, s.a.x, s.b.x)
    ensures InBox(AtX(s, x), s)
    ensures x != s.a.x ==> Manhattan(Segment(AtX(s, x), s.b)) < Manhattan(s)
    ensures x != s.b.x ==> Manhattan(Segment(s.a, AtX(s, x))) < Manhattan(s)
    ensures Abs((AtX(s, x).y - s.a.y) * (s.b.x - s.a.x) - (s.b.y - s.a.y) * (x - s.a.x)) < Abs(s.b.x - s.a.x)
  {
    TruncBetween(s.b.y - s.a.y, x - s.a.x, s.b.x - s.a.x);
  }

  /** How far p may be from the line through s, in units of the divisor. */
  predicate NearLine(p: Point, s: Segment) {
    var cross := (p.x - s.a.x) * (s.b.y - s.a.y) - (s.b.x - s.a.x) * (p.y - s.a.y);
    Abs(cross) < Max(Abs(s.b.x - s.a.x), Abs(s.b.y - s.a.y))
  }

  /**
   A round that goes on never divides by zero, moves the endpoint inside the segment's box
   to within one pixel of its line, and strictly shortens the segment.
   */
  lemma RoundShrinks(s: Segment, r: Rect)
    requires Continues(s, r)
    ensures Intersect(s, r, OutOf(s, r)).CutAt?
    ensures var p := Intersect(s, r, OutOf(s, r)).p;
      && InBox(p, s) && NearLine(p, s)
      && Manhattan(Replace(s, r, p)) < Manhattan(s)
  {
    var out := OutOf(s, r);
    hide AtY, AtX, Manhattan;
    if out.below {
      AtYShrinks(s, r.maxy);
      AtYNear(s, r.maxy);
    } else if out.above {
      AtYShrinks(s, r.miny);
      AtYNear(s, r.miny);
    } else if out.right {
      AtXShrinks(s, r.maxx);
      AtXNear(s, r.maxx);
    } else {
      AtXShrinks(s, r.minx);
      AtXNear(s, r.minx);
    }
  }

  lemma AtYNear(s: Segment, y: int)
    requires s.a.y != s.b.y && Between(y, s.a.y, s.b.y)
    ensures NearLine(AtY(s, y), s)
  {
    hide AtY;
    AtYShrinks(s, y);
    AtYRow(s, y);
  }

  lemma AtYRow(s: Segment, y: int)
    requires s.a.y != s.b.y
    ensures AtY(s, y).y == y
  {
  }

  lemma AtXNear(s: Segment, x: int)
    requires s.a.x != s.b.x && Between(x, s.a.x, s.b.x)
    ensures NearLine(AtX(s, x), s)
  {
    hide AtX;
    AtXShrinks(s, x);
    AtXColumn(s, x);
    var p := AtX(s, x);
    Commutes(p.x - s.a.x, s.b.y - s.a.y);
    Commutes(s.b.x - s.a.x, p.y - s.a.y);
  }

  lemma AtXColumn(s: Segment, x: int)
    requires s.a.x != s.b.x
    ensures AtX(s, x).x == x
  {
  }

  lemma Commutes(a: int, b: int)
    ensures a * b == b * a
  {
  }

  datatype Clipped = Rejected | Visible(s: Segment)

  function Clip(s: Segment, r: Rect): Clipped
    decreases Manhattan(s)
  {
    if OutcodeOf(s.a, r).Zero() && OutcodeOf(s.b, r).Zero() then Visible(s)
    else if OutcodeOf(s.a, r).Meets(OutcodeOf(s.b, r)) then Rejected
    else
      match Intersect(s, r, OutOf(s, r))
      case NoCut => Rejected
      case CutAt(p) =>
        RoundShrinks(s, r);
        Clip(Replace(s, r, p), r)
  }

  /** What survives clipping lies inside the rectangle and inside the segment's box. */
  lemma {:induction false} ClippedInside(s: Segment, r: Rect)
    ensures var c := Clip(s, r);
      c.Visible? ==> Inside(c.s.a, r) && Inside(c.s.b, r) && InBox(c.s.a, s) && InBox(c.s.b, s)
    decreases Manhattan(s)
  {
    if Continues(s, r) {
      RoundShrinks(s, r);
      hide Intersect, Manhattan;
      ClippedInside(Replace(s, r, Intersect(s, r, OutOf(s, r)).p), r);
    }
  }

  /** A segment with an endpoint inside is never rejected, and keeps that endpoint. */
  lemma {:induction false} VisibleEndKept(s: Segment, r: Rect)
    requires Inside(s.a, r) || Inside(s.b, r)
    ensures Clip(s, r).Visible?
    ensures Inside(s.a, r) ==> Clip(s, r).s.a == s.a
    ensures Inside(s.b, r) ==> Clip(s, r).s.b == s.b
    decreases Manhattan(s)
  {
    if Continues(s, r) {
      RoundShrinks(s, r);
      hide Intersect, Manhattan;
      VisibleEndKept(Replace(s, r, Intersect(s, r, OutOf(s, r)).p), r);
    }
  }

  // ---- Pixels ----

  predicate InFrame(p: Point, fw: int, fh: int) {
    0 <= p.x < fw && 0 <= p.y < fh
  }

  function Index(p: Point, fw: int): int {
    p.y * fw + p.x
  }

  /** The buffer holds the whole frame. */
  predicate Holds(size: nat, fw: int, fh: int) {
    fw > 0 && fh > 0 ==> fw * fh <= size
  }

  lemma IndexInBuffer(p: Point, size: nat, fw: int, fh: int)
    requires InFrame(p, fw, fh) && Holds(size, fw, fh)
    ensures 0 <= Index(p, fw) < size
  {
    Monotone(p.y + 1, fh, fw);
    Distribute(p.y, -1, fw);
    Monotone(0, p.y, fw);
    assert fh * fw == fw * fh;
  }

  lemma IndexUnique(p: Point, q: Point, fw: int, fh: int)
    requires InFrame(p, fw, fh) && InFrame(q, fw, fh) && Index(p, fw) == Index(q, fw)
    ensures p == q
  {
    if p.y < q.y {
      Monotone(p.y + 1, q.y, fw);
      Distribute(p.y, -1, fw);
    } else if q.y < p.y {
      Monotone(q.y + 1, p.y, fw);
      Distribute(q.y, -1, fw);
    }
  }

  function Put(px: seq<int>, fw: int, fh: int, p: Point, c: int): (r: seq<int>)
    requires Holds(|px|, fw, fh)
    ensures |r| == |px|
  {
    if InFrame(p, fw, fh) then
      IndexInBuffer(p, |px|, fw, fh);
      px[Index(p, fw) := c]
    else px
  }

  function Paint(px: seq<int>, fw: int, fh: int, path: seq<Point>, c: int): (r: seq<int>)
    requires Holds(|px|, fw, fh)
    ensures |r| == |px|
  {
    if path == [] then px
    else Put(Paint(px, fw, fh, path[..|path| - 1], c), fw, fh, path[|path| - 1], c)
  }

  /** Painting colours exactly the path's pixels that lie in the frame. */
  lemma {:induction false} PaintColours(px: seq<int>, fw: int, fh: int, path: seq<Point>, c: int, p: Point)
    requires Holds(|px|, fw, fh) && InFrame(p, fw, fh)
    ensures 0 <= Index(p, fw) < |px|
    ensures Paint(px, fw, fh, path, c)[Index(p, fw)] == if p in path then c else px[Index(p, fw)]
    decreases |path|
  {
    IndexInBuffer(p, |px|, fw, fh);
    if path != [] {
      var front, last := path[..|path| - 1], path[|path| - 1];
      assert path == front + [last];
      PaintColours(px, fw, fh, front, c, p);
      if InFrame(last, fw, fh) {
        IndexInBuffer(last, |px|, fw, fh);
        if Index(last, fw) == Index(p, fw) {
          IndexUnique(p, last, fw, fh);
        }
      }
    }
  }

  function Draw(px: seq<int>, fw: int, fh: int, r: Rect, s: Segment, c: int): (d: seq<int>)
    requires Holds(|px|, fw, fh)
    ensures |d| == |px|
  {
    match Clip(s, r)
    case Rejected => px
    case Visible(v) => Paint(px, fw, fh, Path(v), c)
  }

  /** Drawing any segment touches no pixel outside the viewport rectangle. */
  lemma DrawStaysInside(px: seq<int>, fw: int, fh: int, r: Rect, s: Segment, c: int, p: Point)
    requires Holds(|px|, fw, fh) && InFrame(p, fw, fh) && !Inside(p, r)
    ensures 0 <= Index(p, fw) < |px|
    ensures Draw(px, fw, fh, r, s, c)[Index(p, fw)] == px[Index(p, fw)]
  {
    IndexInBuffer(p, |px|, fw, fh);
    match Clip(s, r)
    case Rejected =>
    case Visible(v) =>
      ClippedInside(s, r);
      PathEnds(v);
      PaintColours(px, fw, fh, Path(v), c, p);
      hide Paint;
  }

  /** A segment that lies inside both frame and viewport is drawn point for point. */
  lemma DrawColoursPath(px: seq<int>, fw: int, fh: int, r: Rect, s: Segment, c: int, k: nat)
    requires Holds(|px|, fw, fh) && Inside(s.a, r) && Inside(s.b, r)
    requires k < |Path(s)| && InFrame(Path(s)[k], fw, fh)
    ensures 0 <= Index(Path(s)[k], fw) < |px|
    ensures Draw(px, fw, fh, r, s, c)[Index(Path(s)[k], fw)] == c
  {
    PaintColours(px, fw, fh, Path(s), c, Path(s)[k]);
  }
}
