/** The viewport's line drawing loops over the pixel buffer (engine/engine_viewport.mettle:747-846). */
module Line {
  import opened LineSpec

  method VpPut(px: array<int>, fw: int, fh: int, x: int, y: int, c: int)
    requires Holds(px.Length, fw, fh)
    modifies px
    ensures px[..] == Put(old(px[..]), fw, fh, Point(x, y), c)
  {
    if x < 0 || y < 0 || x >= fw || y >= fh {
      return;
    }
    IndexInBuffer(Point(x, y), px.Length, fw, fh);
    px[y * fw + x] := c;
  }

  lemma PaintNext(px: seq<int>, fw: int, fh: int, path: seq<Point>, c: int, k: nat)
    requires Holds(|px|, fw, fh) && k < |path|
    ensures Paint(px, fw, fh, path[..k + 1], c) == Put(Paint(px, fw, fh, path[..k], c), fw, fh, path[k], c)
  {
    assert path[..k + 1][..k] == path[..k];
  }

  /** What the loop needs to know of its k-th turn. */
  lemma Turn(s: Segment, m: Slope, k: nat)
    requires m == SlopeOf(s) && k < |Path(s)|
    ensures CursorAt(s, k + 1) == Advance(CursorAt(s, k), m)
    ensures Path(s)[k] == Point(CursorAt(s, k).x, CursorAt(s, k).y)
    ensures Path(s)[k] == s.b <==> k == |Path(s)| - 1
  {
    PathEnds(s);
  }

  lemma LineStarts(s: Segment, px: seq<int>, fw: int, fh: int, c: int)
    requires Holds(|px|, fw, fh)
    ensures var dx, dy := Abs(s.b.x - s.a.x), Abs(s.b.y - s.a.y);
      && CursorAt(s, 0) == Cursor(s.a.x, s.a.y, dx - dy) && |Path(s)| > 0
      && SlopeOf(s) == Slope(dx, dy, if s.a.x > s.b.x then -1 else 1, if s.a.y > s.b.y then -1 else 1)
    ensures Paint(px, fw, fh, Path(s)[..0], c) == px
  {
  }

  method VpLineBresenham(px: array<int>, fw: int, fh: int, x0: int, y0: int, x1: int, y1: int, c: int)
    requires Holds(px.Length, fw, fh)
    modifies px
    ensures px[..] == Paint(old(px[..]), fw, fh, Path(Segment(Point(x0, y0), Point(x1, y1))), c)
  {
    hide Paint, Put, CursorAt, Path, SlopeOf, Holds, PointAt, Begin;
    ghost var s := Segment(Point(x0, y0), Point(x1, y1));
    ghost var path, before := Path(s), px[..];
    LineStarts(s, before, fw, fh, c);
    var x, y := x0, y0;
    var dx: int, dy: int := Abs(x1 - x0), Abs(y1 - y0);
    var sx: int := if x0 > x1 then -1 else 1;
    var sy: int := if y0 > y1 then -1 else 1;
    var err: int := dx - dy;
    ghost var k := 0;
    while true
      invariant 0 <= k < |path| && Cursor(x, y, err) == CursorAt(s, k)
      invariant px.Length == |before| && px[..] == Paint(before, fw, fh, path[..k], c)
      decreases |path| - k
    {
      VpPut(px, fw, fh, x, y, c);
      PaintNext(before, fw, fh, path, c, k);
      Turn(s, Slope(dx, dy, sx, sy), k);
      if x == x1 && y == y1 {
        assert path[..k + 1] == path;
        break;
      }
      var e2 := err * 2;
      if e2 > 0 - dy {
        err := err - dy;
        x := x + sx;
      }
      if e2 < dx {
        err := err + dx;
        y := y + sy;
      }
      k := k + 1;
    }
  }

  /** The body of the clipping loop up to the new point; found is false where it returns. */
  method VpLineCut(x0: int, y0: int, x1: int, y1: int, r: Rect, out: Outcode) returns (found: bool, nx: int, ny: int)
    ensures Intersect(Segment(Point(x0, y0), Point(x1, y1)), r, out) == if found then CutAt(Point(nx, ny)) else NoCut
  {
    found, nx, ny := true, x0, y0;
    if out.below {
      if y1 == y0 {
        return false, nx, ny;
      }
      nx := x0 + TruncDiv((x1 - x0) * (r.maxy - y0), y1 - y0);
      ny := r.maxy;
    } else if out.above {
      if y1 == y0 {
        return false, nx, ny;
      }
      nx := x0 + TruncDiv((x1 - x0) * (r.miny - y0), y1 - y0);
      ny := r.miny;
    } else if out.right {
      if x1 == x0 {
        return false, nx, ny;
      }
      ny := y0 + TruncDiv((y1 - y0) * (r.maxx - x0), x1 - x0);
      nx := r.maxx;
    } else if out.left {
      if x1 == x0 {
        return false, nx, ny;
      }
      ny := y0 + TruncDiv((y1 - y0) * (r.minx - x0), x1 - x0);
      nx := r.minx;
    }
  }

  method VpLine(px: array<int>, fw: int, fh: int, vx: int, vy: int, vw: int, vh: int,
                startX: int, startY: int, endX: int, endY: int, c: int)
    requires Holds(px.Length, fw, fh)
    modifies px
    ensures px[..] == Draw(old(px[..]), fw, fh, Rect(vx, vy, vx + vw - 1, vy + vh - 1),
                           Segment(Point(startX, startY), Point(endX, endY)), c)
  {
    var x0, y0, x1, y1 := startX, startY, endX, endY;
    var r := Rect(vx, vy, vx + vw - 1, vy + vh - 1);
    ghost var all := Segment(Point(startX, startY), Point(endX, endY));
    var code0, code1 := OutcodeOf(Point(x0, y0), r), OutcodeOf(Point(x1, y1), r);
    while !(code0.Zero() && code1.Zero())
      invariant code0 == OutcodeOf(Point(x0, y0), r) && code1 == OutcodeOf(Point(x1, y1), r)
      invariant Clip(Segment(Point(x0, y0), Point(x1, y1)), r) == Clip(all, r)
      decreases Manhattan(Segment(Point(x0, y0), Point(x1, y1)))
      modifies {}
    {
      hide Intersect, Manhattan, InBox, NearLine;
      if code0.Meets(code1) {
        return;
      }
      RoundShrinks(Segment(Point(x0, y0), Point(x1, y1)), r);
      var out := if code0.Zero() then code1 else code0;
      var found, nx, ny := VpLineCut(x0, y0, x1, y1, r, out);
      if !found {
        return;
      }
      if out == code0 {
        x0, y0 := nx, ny;
        code0 := OutcodeOf(Point(x0, y0), r);
      } else {
        x1, y1 := nx, ny;
        code1 := OutcodeOf(Point(x1, y1), r);
      }
    }
    assert Clip(all, r) == Visible(Segment(Point(x0, y0), Point(x1, y1)));
    hide Paint, Path, Clip;
    ghost var before := px[..];
    assert before == old(px[..]);
    VpLineBresenham(px, fw, fh, x0, y0, x1, y1, c);
    assert px[..] == Paint(before, fw, fh, Path(Segment(Point(x0, y0), Point(x1, y1))), c);
    assert px[..] == Draw(before, fw, fh, r, all, c);
  }
}
