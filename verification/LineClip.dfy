/**
 Which segments the clipping loop rejects (engine/engine_viewport.mettle:747-812), told from
 the true line: cross-multiplied crossings of the rectangle's borders, without a division.
 */
module LineClip {
  import opened LineSpec

  predicate NonEmpty(r: Rect) {
    r.minx <= r.maxx && r.miny <= r.maxy
  }

  /** Both ends lie strictly beyond one and the same side. */
  predicate SameSide(s: Segment, r: Rect) {
    || (s.a.x < r.minx && s.b.x < r.minx) || (s.a.x > r.maxx && s.b.x > r.maxx)
    || (s.a.y < r.miny && s.b.y < r.miny) || (s.a.y > r.maxy && s.b.y > r.maxy)
  }

  /** A round goes on unless both ends are inside or both beyond one side. */
  lemma ContinuesIff(s: Segment, r: Rect)
    ensures Continues(s, r) <==> !(Inside(s.a, r) && Inside(s.b, r)) && !SameSide(s, r)
  {
  }

  /** An empty rectangle shows nothing. */
  lemma EmptyShowsNothing(s: Segment, r: Rect)
    requires !NonEmpty(r)
    ensures Clip(s, r).Rejected?
  {
    ClippedInside(s, r);
  }

  // ---- Where the true line crosses a row or a column ----

  /** The line through s has an x of at least v on row y, which lies between its ends. */
  predicate RowAtLeast(s: Segment, y: int, v: int) {
    (s.b.x - s.a.x) * Abs(y - s.a.y) >= (v - s.a.x) * Abs(s.b.y - s.a.y)
  }

  predicate RowAtMost(s: Segment, y: int, v: int) {
    (s.b.x - s.a.x) * Abs(y - s.a.y) <= (v - s.a.x) * Abs(s.b.y - s.a.y)
  }

  /** Rows and columns exchanged. */
  function Turned(s: Segment): Segment {
    Segment(Point(s.a.y, s.a.x), Point(s.b.y, s.b.x))
  }

  /** On column x the line is at least a whole pixel above or below the rectangle. */
  predicate ColumnBeyond(s: Segment, x: int, r: Rect) {
    RowAtMost(Turned(s), x, r.miny - 1) || RowAtLeast(Turned(s), x, r.maxy + 1)
  }

  predicate RowBeyond(s: Segment, y: int, r: Rect) {
    RowAtMost(s, y, r.minx - 1) || RowAtLeast(s, y, r.maxx + 1)
  }

  /** The x on row y, a fraction dropped toward a. */
  function TowardA(s: Segment, y: int): int
    requires s.a.y != s.b.y
  {
    var n, d := Abs(y - s.a.y), Abs(s.b.y - s.a.y);
    if s.b.x >= s.a.x then s.a.x + (s.b.x - s.a.x) * n / d else s.a.x - (s.a.x - s.b.x) * n / d
  }

  lemma FloorIff(p: nat, d: nat, k: nat)
    requires d > 0
    ensures p / d >= k <==> p >= k * d
  {
    var q := p / d;
    assert p == q * d + p % d;
    if q >= k {
      Monotone(k, q, d);
    } else {
      Monotone(q + 1, k, d);
      Distribute(q, -1, d);
    }
  }

  /** The quotient that the code takes, with the signs of numerator and divisor dealt with. */
  lemma TruncToward(v: int, num: int, den: int)
    requires den != 0 && Between(num, 0, den)
    ensures TruncDiv(v * num, den) == if v >= 0 then v * Abs(num) / Abs(den) else -((-v) * Abs(num) / Abs(den))
  {
    AbsProduct(v, num);
    SignProduct(v, num);
    var q := NatQuotient(Abs(v) * Abs(num), Abs(den));
    QuotientSign(v * num, den);
    if v * num == 0 {
      ZeroQuotient(Abs(den));
    }
    hide TruncDiv;
  }

  lemma ZeroQuotient(d: nat)
    requires d > 0
    ensures 0 / d == 0
  {
  }

  lemma RowIsTowardA(s: Segment, y: int)
    requires s.a.y != s.b.y && Between(y, s.a.y, s.b.y)
    ensures AtY(s, y) == Point(TowardA(s, y), y)
  {
    TruncToward(s.b.x - s.a.x, y - s.a.y, s.b.y - s.a.y);
    hide TruncDiv;
  }

  /** The code's crossing is past v exactly when the true one is. */
  lemma CrossingIff(s: Segment, y: int, v: int)
    requires s.a.y != s.b.y && Between(y, s.a.y, s.b.y)
    ensures v > s.a.x ==> (AtY(s, y).x >= v <==> RowAtLeast(s, y, v))
    ensures v < s.a.x ==> (AtY(s, y).x <= v <==> RowAtMost(s, y, v))
  {
    RowIsTowardA(s, y);
    hide AtY;
    TowardAIff(s, y, v);
  }

  lemma TowardAIff(s: Segment, y: int, v: int)
    requires s.a.y != s.b.y
    ensures v > s.a.x ==> (TowardA(s, y) >= v <==> RowAtLeast(s, y, v))
    ensures v < s.a.x ==> (TowardA(s, y) <= v <==> RowAtMost(s, y, v))
  {
    var w, n, d := s.b.x - s.a.x, Abs(y - s.a.y), Abs(s.b.y - s.a.y);
    var k := v - s.a.x;
    SignProduct(w, n);
    SignProduct(k, d);
    if k > 0 {
      Monotone(1, k, d);
    } else if k < 0 {
      Monotone(k, -1, d);
    }
    if w >= 0 {
      NonNegative(w, n);
      NatQuotientSign(w * n, d);
      if k > 0 {
        FloorIff(w * n, d, k);
      }
    } else {
      NonNegative(-w, n);
      NatQuotientSign((-w) * n, d);
      assert (-w) * n == -(w * n) && (-k) * d == -(k * d);
      if k < 0 {
        FloorIff((-w) * n, d, -k);
      }
    }
  }

  lemma NonNegative(a: nat, b: nat)
    ensures a * b >= 0
  {
  }

  lemma NatQuotientSign(p: nat, d: nat)
    requires d > 0
    ensures p / d >= 0
  {
  }

  // ---- One cut of the first end ----

  lemma ColumnIsTurned(s: Segment, x: int)
    requires s.a.x != s.b.x
    ensures AtX(s, x) == Point(x, AtY(Turned(s), x).x)
  {
  }

  function SideColumn(p: Point, r: Rect): int {
    if p.x < r.minx then r.minx else r.maxx
  }

  function EndRow(p: Point, r: Rect): int {
    if p.y < r.miny then r.miny else r.maxy
  }

  /** An end beside the rectangle moves to that side's column; the segment is lost if that point is still outside. */
  lemma SideCut(s: Segment, r: Rect)
    requires NonEmpty(r) && !SameSide(s, r) && !Inside(s.a, r) && r.miny <= s.a.y <= r.maxy
    ensures s.a.x != s.b.x && Between(SideColumn(s.a, r), s.a.x, s.b.x)
    ensures var p, c := AtX(s, SideColumn(s.a, r)), Clip(s, r);
      if Inside(p, r) then c.Visible? && c.s.a == p else c.Rejected?
  {
    var x := SideColumn(s.a, r);
    var p := AtX(s, x);
    AtXShrinks(s, x);
    hide AtX, Manhattan;
    RoundShrinks(s, r);
    assert Intersect(s, r, OutcodeOf(s.a, r)) == CutAt(p);
    assert Clip(s, r) == Clip(Segment(p, s.b), r);
    AtXColumn(s, x);
    if Inside(p, r) {
      VisibleEndKept(Segment(p, s.b), r);
    } else {
      assert SameSide(Segment(p, s.b), r);
      SameSideRejected(Segment(p, s.b), r);
    }
  }

  lemma SameSideRejected(s: Segment, r: Rect)
    requires SameSide(s, r)
    ensures Clip(s, r).Rejected?
  {
    if NonEmpty(r) {
      ContinuesIff(s, r);
    } else {
      EmptyShowsNothing(s, r);
    }
  }

  /** An end above or below moves to that row. */
  lemma EndCut(s: Segment, r: Rect)
    requires NonEmpty(r) && !SameSide(s, r) && !(r.miny <= s.a.y <= r.maxy)
    ensures s.a.y != s.b.y && Between(EndRow(s.a, r), s.a.y, s.b.y)
    ensures var p := AtY(s, EndRow(s.a, r));
      p.y == EndRow(s.a, r) && Between(p.x, s.a.x, s.b.x) && Clip(s, r) == Clip(Segment(p, s.b), r)
  {
    var y := EndRow(s.a, r);
    var p := AtY(s, y);
    AtYShrinks(s, y);
    hide AtY, Manhattan;
    RoundShrinks(s, r);
    assert Intersect(s, r, OutcodeOf(s.a, r)) == CutAt(p);
    AtYRow(s, y);
  }

  // ---- Exactly which segments are rejected ----

  /** a lies beyond a corner, and the line reaches the corner's row before the corner's column. */
  predicate RoundsCorner(s: Segment, r: Rect) {
    && !(r.miny <= s.a.y <= r.maxy)
    && ((s.a.x < r.minx && !RowAtLeast(s, EndRow(s.a, r), r.minx))
        || (s.a.x > r.maxx && !RowAtMost(s, EndRow(s.a, r), r.maxx)))
  }

  /** From the crossing of the corner's row, its fraction dropped, to b. */
  function Chord(s: Segment, r: Rect): Segment
    requires s.a.y != s.b.y
  {
    Segment(Point(TowardA(s, EndRow(s.a, r)), EndRow(s.a, r)), s.b)
  }

  /** The border that is crossed first is crossed a whole pixel beyond the rectangle; at a corner the chord counts. */
  predicate Misses(s: Segment, r: Rect) {
    if r.miny <= s.a.y <= r.maxy then ColumnBeyond(s, SideColumn(s.a, r), r)
    else if RoundsCorner(s, r) then s.a.y != s.b.y && ColumnBeyond(Chord(s, r), SideColumn(s.a, r), r)
    else RowBeyond(s, EndRow(s.a, r), r)
  }

  lemma SideRejectedIff(s: Segment, r: Rect)
    requires NonEmpty(r) && !SameSide(s, r) && !Inside(s.a, r) && r.miny <= s.a.y <= r.maxy
    ensures Clip(s, r).Rejected? <==> ColumnBeyond(s, SideColumn(s.a, r), r)
  {
    var x := SideColumn(s.a, r);
    SideCut(s, r);
    hide AtX, AtY, RowAtLeast, RowAtMost;
    ColumnIsTurned(s, x);
    CrossingIff(Turned(s), x, r.miny - 1);
    CrossingIff(Turned(s), x, r.maxy + 1);
    CrossingBetween(Turned(s), x);
  }

  lemma CrossingBetween(s: Segment, y: int)
    requires s.a.y != s.b.y && Between(y, s.a.y, s.b.y)
    ensures Between(AtY(s, y).x, s.a.x, s.b.x)
  {
    AtYShrinks(s, y);
  }

  lemma EndRejectedIff(s: Segment, r: Rect)
    requires NonEmpty(r) && !SameSide(s, r) && !(r.miny <= s.a.y <= r.maxy)
    ensures Clip(s, r).Rejected? <==> Misses(s, r)
  {
    var y := EndRow(s.a, r);
    EndCut(s, r);
    hide AtX, AtY, RowAtLeast, RowAtMost, Turned, Clip, TowardA;
    RowIsTowardA(s, y);
    CrossingIff(s, y, r.minx - 1);
    CrossingIff(s, y, r.maxx + 1);
    CrossingIff(s, y, r.minx);
    CrossingIff(s, y, r.maxx);
    RowOrder(s, y, r);
    var t := Chord(s, r);
    if Inside(t.a, r) {
      VisibleEndKept(t, r);
    } else if SameSide(t, r) {
      SameSideRejected(t, r);
    } else {
      SideRejectedIff(t, r);
    }
  }

  /** A line that crosses the row beyond one side does not cross it short of the other. */
  lemma RowOrder(s: Segment, y: int, r: Rect)
    requires NonEmpty(r) && s.a.y != s.b.y
    ensures RowAtLeast(s, y, r.minx) ==> !RowAtMost(s, y, r.minx - 1)
    ensures RowAtMost(s, y, r.maxx) ==> !RowAtLeast(s, y, r.maxx + 1)
    ensures !RowAtLeast(s, y, r.minx) ==> !RowAtLeast(s, y, r.maxx + 1)
    ensures !RowAtMost(s, y, r.maxx) ==> !RowAtMost(s, y, r.minx - 1)
  {
    var d: nat := Abs(s.b.y - s.a.y);
    Distribute(r.minx - s.a.x, 1, d);
    Distribute(r.maxx - s.a.x, 1, d);
    Monotone(r.minx - s.a.x, r.maxx - s.a.x, d);
  }

  /**
   In a rectangle that is not empty a segment is rejected if and only if both its ends lie
   beyond one side, or its first end is outside and the border met first is crossed at least a
   whole pixel beyond the rectangle. Where that is the second border behind a corner, the line
   from the rounded crossing of the first counts in the place of the true one.
   */
  lemma RejectedIff(s: Segment, r: Rect)
    requires NonEmpty(r)
    ensures Clip(s, r).Rejected? <==> SameSide(s, r) || (!Inside(s.a, r) && Misses(s, r))
  {
    hide Clip, Misses;
    if SameSide(s, r) {
      SameSideRejected(s, r);
    } else if Inside(s.a, r) {
      VisibleEndKept(s, r);
    } else if r.miny <= s.a.y <= r.maxy {
      SideRejectedIff(s, r);
      MissesBeside(s, r);
    } else {
      EndRejectedIff(s, r);
    }
  }

  lemma MissesBeside(s: Segment, r: Rect)
    requires r.miny <= s.a.y <= r.maxy
    ensures Misses(s, r) <==> ColumnBeyond(s, SideColumn(s.a, r), r)
  {
  }

  // ---- The true line ----

  /** The true line crosses the border that it meets first at least a whole pixel beyond the rectangle. */
  predicate TrueMisses(s: Segment, r: Rect) {
    if r.miny <= s.a.y <= r.maxy || RoundsCorner(s, r) then ColumnBeyond(s, SideColumn(s.a, r), r)
    else RowBeyond(s, EndRow(s.a, r), r)
  }

  /** The fraction dropped at the corner's row alone makes the segment miss. */
  predicate LostAtCorner(s: Segment, r: Rect) {
    && RoundsCorner(s, r) && s.a.y != s.b.y
    && ColumnBeyond(Chord(s, r), SideColumn(s.a, r), r) && !ColumnBeyond(s, SideColumn(s.a, r), r)
  }

  /**
   The chord from the rounded crossing is ahead of the true line: w and d are the extents of the
   segment, k and e those of the part before the row, u and h those up to the column and the far row.
   */
  lemma ChordAhead(d: nat, w: nat, u: nat, h: nat, e: nat, k: nat)
    requires 0 < d && e <= d && h <= d && u <= w && k * d <= w * e && d * u >= h * w
    ensures (d - e) * (u - k) >= (h - e) * (w - k)
  {
    var gain := d * u - h * w;
    Products(d, w, u, h, e, k);
    var rest := gain + e * (w - u) - k * (d - h);
    assert (d - e) * (u - k) - (h - e) * (w - k) == rest;
    ScaledRest(d, w, u, h, e, k);
    SignProduct(d - e, gain);
    if rest < 0 {
      Monotone(rest, -1, d);
    }
  }

  lemma Products(d: int, w: int, u: int, h: int, e: int, k: int)
    ensures (d - e) * (u - k) - (h - e) * (w - k) == d * u - h * w + e * (w - u) - k * (d - h)
  {
  }

  lemma Associates(a: int, b: int, c: int)
    ensures (a * b) * c == a * (b * c)
  {
  }

  lemma DistributeRight(a: int, b: int, c: int)
    ensures a * (b - c) == a * b - a * c
  {
  }

  lemma SumTimes(a: int, b: int, c: int, d: int)
    ensures (a + b - c) * d == a * d + b * d - c * d
  {
  }

  lemma ScaledRest(d: nat, w: nat, u: nat, h: nat, e: nat, k: nat)
    requires h <= d && k * d <= w * e
    ensures (d * u - h * w + e * (w - u) - k * (d - h)) * d >= (d - e) * (d * u - h * w)
  {
    var gain, g: nat := d * u - h * w, d - h;
    Monotone(k * d, w * e, g);
    SumTimes(gain, e * (w - u), k * g, d);
    FactorsOfRest(d, w, u, h, e, k, g);
    Distribute(d, e, gain);
    DistributeRight(e, d * u, h * w);
    Commutes(gain, d);
  }

  lemma FactorsOfRest(d: int, w: int, u: int, h: int, e: int, k: int, g: int)
    requires g == d - h
    ensures (k * g) * d == (k * d) * g
    ensures (e * (w - u)) * d == e * (w * d) - e * (d * u)
    ensures (w * e) * g == e * (w * d) - e * (h * w)
  {
    Associates(k, g, d);
    Associates(k, d, g);
    Commutes(g, d);
    Associates(e, w - u, d);
    Distribute(w, u, d);
    Commutes(u, d);
    DistributeRight(e, w * d, d * u);
    Commutes(w, e);
    Associates(e, w, g);
    DistributeRight(w, d, h);
    Commutes(w, h);
    DistributeRight(e, w * d, h * w);
  }

  /** The row just beyond the border opposite the one that a lies beyond. */
  function FarRow(p: Point, r: Rect): int {
    if p.y < r.miny then r.maxy + 1 else r.miny - 1
  }

  lemma CancelFactor(a: int, b: int, d: nat)
    requires d > 0 && a * d <= b * d
    ensures a <= b
  {
    if a > b {
      Monotone(b + 1, a, d);
    }
  }

  lemma CornerShape(s: Segment, r: Rect)
    requires NonEmpty(r) && !SameSide(s, r) && RoundsCorner(s, r)
    ensures s.a.y != s.b.y && s.a.x != s.b.x && !(r.miny <= s.a.y <= r.maxy) && !(r.minx <= s.a.x <= r.maxx)
    ensures var w, d := Abs(s.b.x - s.a.x), Abs(s.b.y - s.a.y);
      var u, e, h := Abs(SideColumn(s.a, r) - s.a.x), Abs(EndRow(s.a, r) - s.a.y), Abs(FarRow(s.a, r) - s.a.y);
      0 < u <= w && 0 < e <= d && e < h
  {
    hide RowAtLeast, RowAtMost;
  }

  lemma CornerRow(s: Segment, r: Rect)
    requires NonEmpty(r) && !SameSide(s, r) && RoundsCorner(s, r)
    ensures Abs(s.b.x - s.a.x) * Abs(EndRow(s.a, r) - s.a.y) < Abs(SideColumn(s.a, r) - s.a.x) * Abs(s.b.y - s.a.y)
  {
    hide EndRow, Abs;
    SignedProducts(s.b.x - s.a.x, Abs(EndRow(s.a, r) - s.a.y));
    SignedProducts(SideColumn(s.a, r) - s.a.x, Abs(s.b.y - s.a.y));
    AbsOf(s.b.x - s.a.x);
    AbsOf(SideColumn(s.a, r) - s.a.x);
  }

  lemma AbsOf(v: int)
    ensures Abs(v) == if v < 0 then -v else v
  {
  }

  lemma SignedProducts(a: int, b: int)
    ensures Abs(a) * b == if a < 0 then -(a * b) else a * b
  {
    Negated(a, b);
  }

  /** Round a corner only the far row can be missed. */
  lemma CornerColumn(s: Segment, r: Rect)
    requires NonEmpty(r) && !SameSide(s, r) && RoundsCorner(s, r)
    ensures var w, d := Abs(s.b.x - s.a.x), Abs(s.b.y - s.a.y);
      var u, h := Abs(SideColumn(s.a, r) - s.a.x), Abs(FarRow(s.a, r) - s.a.y);
      && (ColumnBeyond(s, SideColumn(s.a, r), r) <==> d * u >= h * w)
      && (s.a.y < r.miny ==> !RowAtMost(Turned(s), SideColumn(s.a, r), r.miny - 1))
      && (s.a.y > r.maxy ==> !RowAtLeast(Turned(s), SideColumn(s.a, r), r.maxy + 1))
  {
    hide RoundsCorner, SideColumn;
    CornerShape(s, r);
    CornerRow(s, r);
    var w, u := Abs(s.b.x - s.a.x), Abs(SideColumn(s.a, r) - s.a.x);
    SignedProducts(s.b.y - s.a.y, u);
    SignedProducts(FarRow(s.a, r) - s.a.y, w);
    SignedProducts(EndRow(s.a, r) - s.a.y, w);
    Distribute(EndRow(s.a, r) - s.a.y, 1, w);
    Commutes(Abs(s.b.y - s.a.y), u);
    Commutes(Abs(EndRow(s.a, r) - s.a.y), w);
  }

  lemma Negated(a: int, b: int)
    ensures (-a) * b == -(a * b)
  {
  }

  /** The crossing of the corner's row, its fraction dropped, still lies short of the corner's column. */
  lemma ChordStarts(s: Segment, r: Rect) returns (k: nat)
    requires NonEmpty(r) && !SameSide(s, r) && RoundsCorner(s, r)
    ensures s.a.y != s.b.y && k * Abs(s.b.y - s.a.y) <= Abs(s.b.x - s.a.x) * Abs(EndRow(s.a, r) - s.a.y)
    ensures k < Abs(SideColumn(s.a, r) - s.a.x)
    ensures TowardA(s, EndRow(s.a, r)) == if s.b.x >= s.a.x then s.a.x + k else s.a.x - k
  {
    hide RoundsCorner, EndRow, SideColumn, TowardA, Abs;
    CornerShape(s, r);
    CornerRow(s, r);
    AbsOf(s.b.y - s.a.y);
    var p, d := Abs(s.b.x - s.a.x) * Abs(EndRow(s.a, r) - s.a.y), Abs(s.b.y - s.a.y);
    NonNegative(Abs(s.b.x - s.a.x), Abs(EndRow(s.a, r) - s.a.y));
    k := TowardAExtent(s, EndRow(s.a, r));
    Quotient(p, d);
    if k >= Abs(SideColumn(s.a, r) - s.a.x) {
      Monotone(Abs(SideColumn(s.a, r) - s.a.x), k, d);
    }
  }

  /** What the true line misses behind a corner the chord misses too. */
  lemma TrueImpliesChord(s: Segment, r: Rect)
    requires NonEmpty(r) && !SameSide(s, r) && RoundsCorner(s, r) && ColumnBeyond(s, SideColumn(s.a, r), r)
    ensures s.a.y != s.b.y && ColumnBeyond(Chord(s, r), SideColumn(s.a, r), r)
  {
    hide RoundsCorner, ColumnBeyond, Chord, EndRow, SideColumn, FarRow, TowardA, Abs;
    CornerShape(s, r);
    CornerColumn(s, r);
    var k := ChordStarts(s, r);
    var w, d := Abs(s.b.x - s.a.x), Abs(s.b.y - s.a.y);
    var u, e, h := Abs(SideColumn(s.a, r) - s.a.x), Abs(EndRow(s.a, r) - s.a.y), Abs(FarRow(s.a, r) - s.a.y);
    Monotone(u, w, d);
    Commutes(d, u);
    Commutes(d, w);
    CancelFactor(h, d, w);
    ChordAhead(d, w, u, h, e, k);
    CornerChordBeyond(s, r, k);
  }

  lemma Quotient(p: nat, d: nat)
    requires d > 0
    ensures p / d >= 0 && p / d * d <= p
  {
    Remainder(p, d);
  }

  lemma TowardAExtent(s: Segment, y: int) returns (k: nat)
    requires s.a.y != s.b.y
    ensures k == Abs(TowardA(s, y) - s.a.x) == Abs(s.b.x - s.a.x) * Abs(y - s.a.y) / Abs(s.b.y - s.a.y)
    ensures TowardA(s, y) == if s.b.x >= s.a.x then s.a.x + k else s.a.x - k
  {
    NonNegative(Abs(s.b.x - s.a.x), Abs(y - s.a.y));
    NatQuotientSign(Abs(s.b.x - s.a.x) * Abs(y - s.a.y), Abs(s.b.y - s.a.y));
    k := Abs(TowardA(s, y) - s.a.x);
  }

  lemma CornerChordBeyond(s: Segment, r: Rect, k: nat)
    requires NonEmpty(r) && !SameSide(s, r) && s.a.y != s.b.y
    requires !(r.miny <= s.a.y <= r.maxy) && !(r.minx <= s.a.x <= r.maxx) && k < Abs(SideColumn(s.a, r) - s.a.x)
    requires TowardA(s, EndRow(s.a, r)) == if s.b.x >= s.a.x then s.a.x + k else s.a.x - k
    requires var w, d := Abs(s.b.x - s.a.x), Abs(s.b.y - s.a.y);
      var u, e, h := Abs(SideColumn(s.a, r) - s.a.x), Abs(EndRow(s.a, r) - s.a.y), Abs(FarRow(s.a, r) - s.a.y);
      (d - e) * (u - k) >= (h - e) * (w - k)
    ensures ColumnBeyond(Chord(s, r), SideColumn(s.a, r), r)
  {
    var y := EndRow(s.a, r);
    Negated(Abs(s.b.y - y), Abs(SideColumn(s.a, r) - s.a.x) - k);
    Negated(Abs(FarRow(s.a, r) - y), Abs(s.b.x - s.a.x) - k);
  }

  /**
   Told from the true line: a segment with its first end outside is rejected if and only if both
   ends lie beyond one side, or the true line misses by a whole pixel, or it is lost at a corner.
   */
  lemma RejectedIffTrue(s: Segment, r: Rect)
    requires NonEmpty(r) && !Inside(s.a, r)
    ensures Clip(s, r).Rejected? <==> SameSide(s, r) || TrueMisses(s, r) || LostAtCorner(s, r)
  {
    hide Clip, SameSide, RoundsCorner, ColumnBeyond, RowBeyond, Chord;
    RejectedIff(s, r);
    if !SameSide(s, r) && RoundsCorner(s, r) {
      CornerShape(s, r);
      if ColumnBeyond(s, SideColumn(s.a, r), r) {
        TrueImpliesChord(s, r);
      }
    }
  }

  /** q is a pixel of the rectangle that the true line through s goes through between the ends. */
  predicate PassesThrough(s: Segment, r: Rect, q: Point) {
    && Inside(q, r) && InBox(q, s)
    && (q.x - s.a.x) * (s.b.y - s.a.y) == (s.b.x - s.a.x) * (q.y - s.a.y)
  }

  /** Between a and q the line does not leave the rows from v on, nor those up to v, that hold both. */
  lemma CrossingsBetween(s: Segment, y: int, v: int, q: Point)
    requires s.a.y != s.b.y && InBox(q, s) && Between(y, s.a.y, q.y)
    requires (q.x - s.a.x) * (s.b.y - s.a.y) == (s.b.x - s.a.x) * (q.y - s.a.y)
    ensures s.a.x >= v && q.x >= v ==> !RowAtMost(s, y, v - 1)
    ensures s.a.x <= v && q.x <= v ==> !RowAtLeast(s, y, v + 1)
  {
    var n, m, d := Abs(y - s.a.y), Abs(q.y - s.a.y), Abs(s.b.y - s.a.y);
    Sides(s, q);
    Between1(s.b.x - s.a.x, n, m, q.x - s.a.x, d, v - s.a.x);
  }

  /** The collinearity of q with the signs of the second coordinates taken out. */
  lemma Sides(s: Segment, q: Point)
    requires s.a.y != s.b.y && InBox(q, s)
    requires (q.x - s.a.x) * (s.b.y - s.a.y) == (s.b.x - s.a.x) * (q.y - s.a.y)
    ensures (q.x - s.a.x) * Abs(s.b.y - s.a.y) == (s.b.x - s.a.x) * Abs(q.y - s.a.y)
  {
    Commutes(q.x - s.a.x, s.b.y - s.a.y);
    Commutes(s.b.x - s.a.x, q.y - s.a.y);
    SignedProducts(s.b.y - s.a.y, q.x - s.a.x);
    SignedProducts(q.y - s.a.y, s.b.x - s.a.x);
    Commutes(q.x - s.a.x, Abs(s.b.y - s.a.y));
    Commutes(s.b.x - s.a.x, Abs(q.y - s.a.y));
  }

  lemma Between1(w: int, n: nat, m: nat, g: int, d: nat, v: int)
    requires n <= m && d > 0 && g * d == w * m
    ensures v <= 0 && v <= g ==> w * n > (v - 1) * d
    ensures v >= 0 && v >= g ==> w * n < (v + 1) * d
  {
    Distribute(v, 1, d);
    if w >= 0 {
      Monotone(n, m, w);
      NonNegative(w, n);
    } else {
      Monotone(n, m, -w);
      NonNegative(-w, n);
      assert (-w) * n == -(w * n) && (-w) * m == -(w * m);
    }
    if v <= g {
      Monotone(v, g, d);
    }
    if v >= g {
      Monotone(g, v, d);
    }
    if v <= 0 {
      Monotone(v, 0, d);
    }
    if v >= 0 {
      Monotone(0, v, d);
    }
    assert n * w == w * n && m * w == w * m;
  }

  lemma PixelBeside(s: Segment, r: Rect, q: Point)
    requires NonEmpty(r) && PassesThrough(s, r, q) && !(r.minx <= s.a.x <= r.maxx)
    ensures s.a.y >= r.miny ==> !RowAtMost(Turned(s), SideColumn(s.a, r), r.miny - 1)
    ensures s.a.y <= r.maxy ==> !RowAtLeast(Turned(s), SideColumn(s.a, r), r.maxy + 1)
  {
    hide RowAtMost, RowAtLeast;
    Commutes(q.x - s.a.x, s.b.y - s.a.y);
    Commutes(s.b.x - s.a.x, q.y - s.a.y);
    CrossingsBetween(Turned(s), SideColumn(s.a, r), r.miny, Point(q.y, q.x));
    CrossingsBetween(Turned(s), SideColumn(s.a, r), r.maxy, Point(q.y, q.x));
  }

  lemma PixelBehind(s: Segment, r: Rect, q: Point)
    requires NonEmpty(r) && PassesThrough(s, r, q) && !(r.miny <= s.a.y <= r.maxy)
    ensures s.a.x >= r.minx ==> !RowAtMost(s, EndRow(s.a, r), r.minx - 1)
    ensures s.a.x <= r.maxx ==> !RowAtLeast(s, EndRow(s.a, r), r.maxx + 1)
    ensures s.a.y != s.b.y
  {
    hide RowAtMost, RowAtLeast;
    CrossingsBetween(s, EndRow(s.a, r), r.minx, q);
    CrossingsBetween(s, EndRow(s.a, r), r.maxx, q);
  }

  lemma NotSameSide(s: Segment, r: Rect, q: Point)
    requires PassesThrough(s, r, q)
    ensures !SameSide(s, r)
  {
  }

  lemma PixelNotMissed(s: Segment, r: Rect, q: Point)
    requires NonEmpty(r) && PassesThrough(s, r, q) && !Inside(s.a, r)
    ensures !SameSide(s, r) && !TrueMisses(s, r)
  {
    hide RowAtMost, RowAtLeast, Turned, EndRow, SideColumn;
    if r.miny <= s.a.y <= r.maxy {
      PixelBeside(s, r, q);
    } else if RoundsCorner(s, r) {
      NotSameSide(s, r, q);
      CornerShape(s, r);
      CornerColumn(s, r);
      PixelBeside(s, r, q);
    } else {
      PixelBehind(s, r, q);
      RowOrder(s, EndRow(s.a, r), r);
    }
  }

  /** A segment whose line goes through a pixel of the rectangle is drawn unless it is lost at a corner. */
  lemma ThroughPixelRejectedIff(s: Segment, r: Rect, q: Point)
    requires PassesThrough(s, r, q)
    ensures Clip(s, r).Rejected? <==> !Inside(s.a, r) && LostAtCorner(s, r)
  {
    hide LostAtCorner;
    if Inside(s.a, r) {
      VisibleEndKept(s, r);
    } else {
      PixelNotMissed(s, r, q);
      RejectedIffTrue(s, r);
    }
  }

  /** Such a segment: it goes through the pixel (0, 8) of a rectangle of ten by ten and is not drawn. */
  lemma PixelLostAtCorner()
    ensures var s, r := Segment(Point(-1, 1016), Point(1, -1000)), Rect(0, 0, 9, 9);
      PassesThrough(s, r, Point(0, 8)) && Clip(s, r).Rejected?
  {
    var s, r := Segment(Point(-1, 1016), Point(1, -1000)), Rect(0, 0, 9, 9);
    assert TowardA(s, 9) == -1;
    ThroughPixelRejectedIff(s, r, Point(0, 8));
  }

  // ---- Segments across the whole rectangle ----

  /** An end beside the rectangle, with the other end inside, moves to that side's column. */
  lemma SecondCut(s: Segment, r: Rect)
    requires NonEmpty(r) && Inside(s.a, r) && !Inside(s.b, r) && r.miny <= s.b.y <= r.maxy
    ensures s.a.x != s.b.x
    ensures var p := AtX(s, SideColumn(s.b, r));
      p.x == SideColumn(s.b, r) && Clip(s, r) == Visible(Segment(s.a, p))
  {
    var x := SideColumn(s.b, r);
    AtXShrinks(s, x);
    AtXColumn(s, x);
    hide AtX, Manhattan;
    RoundShrinks(s, r);
    assert Intersect(s, r, OutcodeOf(s.b, r)) == CutAt(AtX(s, x));
  }

  /** From one side to the opposite one, both ends level with the rectangle: drawn from border to border. */
  lemma AcrossIsDrawn(s: Segment, r: Rect)
    requires NonEmpty(r) && r.miny <= s.a.y <= r.maxy && r.miny <= s.b.y <= r.maxy
    requires (s.a.x < r.minx && s.b.x > r.maxx) || (s.b.x < r.minx && s.a.x > r.maxx)
    ensures var c := Clip(s, r);
      && c.Visible? && Inside(c.s.a, r) && Inside(c.s.b, r)
      && (if s.a.x < r.minx then c.s.a.x == r.minx && c.s.b.x == r.maxx else c.s.a.x == r.maxx && c.s.b.x == r.minx)
  {
    hide AtX, Manhattan, Clip;
    FirstCut(s, r);
    var p := AtX(s, SideColumn(s.a, r));
    SecondCut(Segment(p, s.b), r);
    ClippedInside(s, r);
  }

  lemma FirstCut(s: Segment, r: Rect)
    requires NonEmpty(r) && r.miny <= s.a.y <= r.maxy && r.miny <= s.b.y <= r.maxy
    requires (s.a.x < r.minx && s.b.x > r.maxx) || (s.b.x < r.minx && s.a.x > r.maxx)
    ensures var p := AtX(s, SideColumn(s.a, r));
      p.x == SideColumn(s.a, r) && Inside(p, r) && Clip(s, r) == Clip(Segment(p, s.b), r)
  {
    var x := SideColumn(s.a, r);
    AtXShrinks(s, x);
    AtXColumn(s, x);
    hide AtX, Manhattan;
    RoundShrinks(s, r);
    assert Intersect(s, r, OutcodeOf(s.a, r)) == CutAt(AtX(s, x));
  }

  /** The same from top to bottom. */
  lemma DownIsDrawn(s: Segment, r: Rect)
    requires NonEmpty(r) && r.minx <= s.a.x <= r.maxx && r.minx <= s.b.x <= r.maxx
    requires (s.a.y < r.miny && s.b.y > r.maxy) || (s.b.y < r.miny && s.a.y > r.maxy)
    ensures var c := Clip(s, r);
      && c.Visible? && Inside(c.s.a, r) && Inside(c.s.b, r)
      && (if s.a.y < r.miny then c.s.a.y == r.miny && c.s.b.y == r.maxy else c.s.a.y == r.maxy && c.s.b.y == r.miny)
  {
    var y, z := EndRow(s.a, r), EndRow(s.b, r);
    var p := AtY(s, y);
    var t := Segment(p, s.b);
    EndCut(s, r);
    hide AtY, Manhattan;
    AtYShrinks(t, z);
    AtYRow(t, z);
    RoundShrinks(t, r);
    assert Intersect(t, r, OutcodeOf(t.b, r)) == CutAt(AtY(t, z));
    assert Clip(t, r) == Clip(Segment(p, AtY(t, z)), r);
  }

  // ---- Pixels ----

  /**
   Of a buffer of fw by fh pixels, row by row, drawing colours exactly the pixels of the clipped
   segment's path, those in the first row and column too, and nothing behind the frame.
   */
  lemma DrawnPixels(px: seq<int>, fw: nat, fh: nat, r: Rect, s: Segment, c: int, x: nat, y: nat)
    requires fw * fh <= |px| && x < fw && y < fh
    ensures y * fw + x < |px| && Holds(|px|, fw, fh)
    ensures var v := Clip(s, r);
      Draw(px, fw, fh, r, s, c)[y * fw + x] == if v.Visible? && Point(x, y) in Path(v.s) then c else px[y * fw + x]
  {
    IndexInBuffer(Point(x, y), |px|, fw, fh);
    if Clip(s, r).Visible? {
      PaintColours(px, fw, fh, Path(Clip(s, r).s), c, Point(x, y));
    }
    hide Paint, Clip, Path;
  }

  lemma {:induction false} PaintedBehind(px: seq<int>, fw: nat, fh: nat, path: seq<Point>, c: int, i: nat)
    requires Holds(|px|, fw, fh) && fw * fh <= i < |px|
    ensures Paint(px, fw, fh, path, c)[i] == px[i]
    decreases |path|
  {
    if path != [] {
      var last := path[|path| - 1];
      PaintedBehind(px, fw, fh, path[..|path| - 1], c, i);
      hide Paint;
      if InFrame(last, fw, fh) {
        IndexInBuffer(last, fw * fh, fw, fh);
      }
    }
  }
}
