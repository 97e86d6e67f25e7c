/**
 Height grids over the reals: sampling and brush stamps
 (engine/engine_terrain_store.mettle:229-322, 487-597). `sqrt` is a parameter of which only
 its sign is used.
 */
module TerrainSpec {
  const MIN_HALF: real := 0.000001

  /** Row-major heights of nx * nz cells. */
  datatype Grid = Grid(nx: nat, nz: nat, heights: seq<real>) {
    predicate Valid() {
      nx >= 2 && nz >= 2 && |heights| == nx * nz
    }
  }

  function CellIndex(nx: nat, ix: nat, iz: nat): nat {
    iz * nx + ix
  }

  lemma CellInRange(nx: nat, nz: nat, ix: nat, iz: nat)
    requires ix < nx && iz < nz
    ensures CellIndex(nx, ix, iz) < nx * nz
  {
    assert iz * nx + nx == (iz + 1) * nx;
    assert (iz + 1) * nx <= nz * nx;
  }

  lemma LaterRow(nx: nat, ix: nat, iz: nat, jx: nat, jz: nat)
    requires ix < nx && iz < jz
    ensures CellIndex(nx, ix, iz) < CellIndex(nx, jx, jz)
  {
    assert (iz + 1) * nx <= jz * nx;
    assert (iz + 1) * nx == iz * nx + nx;
  }

  lemma CellUnique(nx: nat, ix: nat, iz: nat, jx: nat, jz: nat)
    requires ix < nx && jx < nx && CellIndex(nx, ix, iz) == CellIndex(nx, jx, jz)
    ensures ix == jx && iz == jz
  {
    if iz < jz {
      LaterRow(nx, ix, iz, jx, jz);
    } else if jz < iz {
      LaterRow(nx, jx, jz, ix, iz);
    }
  }

  function At(g: Grid, ix: nat, iz: nat): real
    requires g.Valid() && ix < g.nx && iz < g.nz
  {
    CellInRange(g.nx, g.nz, ix, iz);
    g.heights[CellIndex(g.nx, ix, iz)]
  }

  function Set(g: Grid, ix: nat, iz: nat, v: real): (r: Grid)
    requires g.Valid() && ix < g.nx && iz < g.nz
    ensures r.Valid() && r.nx == g.nx && r.nz == g.nz
  {
    CellInRange(g.nx, g.nz, ix, iz);
    g.(heights := g.heights[CellIndex(g.nx, ix, iz) := v])
  }

  lemma AtAfterSet(g: Grid, ix: nat, iz: nat, v: real, jx: nat, jz: nat)
    requires g.Valid() && ix < g.nx && iz < g.nz && jx < g.nx && jz < g.nz
    ensures At(Set(g, ix, iz, v), jx, jz) == if (jx, jz) == (ix, iz) then v else At(g, jx, jz)
  {
    CellInRange(g.nx, g.nz, ix, iz);
    CellInRange(g.nx, g.nz, jx, jz);
    if CellIndex(g.nx, ix, iz) == CellIndex(g.nx, jx, jz) {
      CellUnique(g.nx, ix, iz, jx, jz);
    }
  }

  // ---- Sampling ----

  function Clamp01(t: real): real {
    if t < 0.0 then 0.0 else if t > 1.0 then 1.0 else t
  }

  function AtLeast(h: real): real {
    if h < MIN_HALF then MIN_HALF else h
  }

  /** The grid coordinate of a local position along an axis of n nodes. */
  function Coordinate(l: real, half: real, n: nat): real
    requires half > 0.0 && n >= 2
  {
    Clamp01((l + half) / (2.0 * half)) * (n as real - 1.0)
  }

  lemma CoordinateInRange(l: real, half: real, n: nat)
    requires half > 0.0 && n >= 2
    ensures 0.0 <= Coordinate(l, half, n) <= n as real - 1.0
  {
    var u := Clamp01((l + half) / (2.0 * half));
    var m := n as real - 1.0;
    assert 0.0 <= u <= 1.0;
    assert u * m >= 0.0;
    assert (1.0 - u) * m >= 0.0;
    assert (1.0 - u) * m == m - u * m;
  }

  function Lower(f: real, n: nat): nat
    requires 0.0 <= f <= n as real - 1.0 && n >= 2
  {
    f.Floor
  }

  function Upper(f: real, n: nat): nat
    requires 0.0 <= f <= n as real - 1.0 && n >= 2
  {
    if f.Floor + 1 >= n then n - 1 else f.Floor + 1
  }

  function Mix(a: real, b: real, t: real): real {
    a * (1.0 - t) + b * t
  }

  /** The four cells around grid coordinates (fx, fz), mixed by their fractions. */
  function Bilinear(g: Grid, fx: real, fz: real): real
    requires g.Valid() && 0.0 <= fx <= g.nx as real - 1.0 && 0.0 <= fz <= g.nz as real - 1.0
  {
    var ix0, iz0, ix1, iz1 := Lower(fx, g.nx), Lower(fz, g.nz), Upper(fx, g.nx), Upper(fz, g.nz);
    var tx, tz := fx - ix0 as real, fz - iz0 as real;
    Mix(Mix(At(g, ix0, iz0), At(g, ix1, iz0), tx), Mix(At(g, ix0, iz1), At(g, ix1, iz1), tx), tz)
  }

  function Sample(g: Grid, lx: real, lz: real, hx: real, hz: real): real
    requires g.Valid()
  {
    CoordinateInRange(lx, AtLeast(hx), g.nx);
    CoordinateInRange(lz, AtLeast(hz), g.nz);
    Bilinear(g, Coordinate(lx, AtLeast(hx), g.nx), Coordinate(lz, AtLeast(hz), g.nz))
  }

  lemma NonNegative(a: real, b: real)
    requires a >= 0.0 && b >= 0.0
    ensures a * b >= 0.0
  {
  }

  /** A weighted mean lies between its ends. */
  lemma MixBetween(a: real, b: real, t: real, lo: real, hi: real)
    requires lo <= a <= hi && lo <= b <= hi && 0.0 <= t <= 1.0
    ensures lo <= Mix(a, b, t) <= hi
  {
    NonNegative(a - lo, 1.0 - t);
    NonNegative(b - lo, t);
    NonNegative(hi - a, 1.0 - t);
    NonNegative(hi - b, t);
    assert Mix(a, b, t) - lo == (a - lo) * (1.0 - t) + (b - lo) * t;
    assert hi - Mix(a, b, t) == (hi - a) * (1.0 - t) + (hi - b) * t;
  }

  /** The heights of the four cells around a local position. */
  function Corners(g: Grid, lx: real, lz: real, hx: real, hz: real): (c: seq<real>)
    requires g.Valid()
    ensures |c| == 4
  {
    CoordinateInRange(lx, AtLeast(hx), g.nx);
    CoordinateInRange(lz, AtLeast(hz), g.nz);
    var fx, fz := Coordinate(lx, AtLeast(hx), g.nx), Coordinate(lz, AtLeast(hz), g.nz);
    var ix0, iz0, ix1, iz1 := Lower(fx, g.nx), Lower(fz, g.nz), Upper(fx, g.nx), Upper(fz, g.nz);
    [At(g, ix0, iz0), At(g, ix1, iz0), At(g, ix0, iz1), At(g, ix1, iz1)]
  }

  /** Any sample lies between the lowest and the highest of the four cells around it. */
  lemma SampleWithinCorners(g: Grid, lx: real, lz: real, hx: real, hz: real, lo: real, hi: real)
    requires g.Valid() && forall k :: 0 <= k < 4 ==> lo <= Corners(g, lx, lz, hx, hz)[k] <= hi
    ensures lo <= Sample(g, lx, lz, hx, hz) <= hi
  {
    CoordinateInRange(lx, AtLeast(hx), g.nx);
    CoordinateInRange(lz, AtLeast(hz), g.nz);
    var c := Corners(g, lx, lz, hx, hz);
    var fx, fz := Coordinate(lx, AtLeast(hx), g.nx), Coordinate(lz, AtLeast(hz), g.nz);
    var tx, tz := fx - Lower(fx, g.nx) as real, fz - Lower(fz, g.nz) as real;
    hide Coordinate, Mix, At;
    assert lo <= c[0] <= hi && lo <= c[1] <= hi && lo <= c[2] <= hi && lo <= c[3] <= hi;
    MixBetween(c[0], c[1], tx, lo, hi);
    MixBetween(c[2], c[3], tx, lo, hi);
    MixBetween(Mix(c[0], c[1], tx), Mix(c[2], c[3], tx), tz, lo, hi);
  }

  /** The local position of node i along an axis of n nodes. */
  function NodePosition(n: nat, i: nat, half: real): real {
    if n <= 1 then 0.0 else 0.0 - half + (2.0 * half) * (i as real) / (n as real - 1.0)
  }

  lemma ScaledShare(c: real, x: real, m: real)
    requires c > 0.0 && m > 0.0
    ensures (c * x / m) / c == x / m
  {
    var u := x / m;
    assert u * m == x;
    assert c * x == (c * u) * m;
    assert c * x / m == c * u;
  }

  lemma ShareBounds(x: real, m: real)
    requires 0.0 <= x <= m && m > 0.0
    ensures 0.0 <= x / m <= 1.0 && (x / m) * m == x
  {
  }

  lemma NodeCoordinate(n: nat, i: nat, half: real)
    requires n >= 2 && i < n && half > 0.0
    ensures Coordinate(NodePosition(n, i, half), half, n) == i as real
  {
    var m, x := n as real - 1.0, i as real;
    ScaledShare(2.0 * half, x, m);
    ShareBounds(x, m);
    var l := NodePosition(n, i, half);
    assert l + half == (2.0 * half) * x / m;
  }

  /** Sampling at a grid node returns the stored height. */
  lemma SampleAtNode(g: Grid, ix: nat, iz: nat, hx: real, hz: real)
    requires g.Valid() && ix < g.nx && iz < g.nz && hx >= MIN_HALF && hz >= MIN_HALF
    ensures Sample(g, NodePosition(g.nx, ix, hx), NodePosition(g.nz, iz, hz), hx, hz) == At(g, ix, iz)
  {
    NodeCoordinate(g.nx, ix, hx);
    NodeCoordinate(g.nz, iz, hz);
    hide Coordinate, NodePosition;
    assert (ix as real).Floor == ix && (iz as real).Floor == iz;
  }

  // ---- Brush stamps ----

  datatype BrushOp = Raise | Lower | Smooth | Flatten

  /** Where a stamp acts: centre, radius and the terrain's half extents. */
  datatype Disc = Disc(cx: real, cz: real, radius: real, hx: real, hz: real)

  datatype Brush = Brush(disc: Disc, strength: real, op: BrushOp, invert: bool)

  /** `invert` swaps raising and lowering. */
  function Effective(b: Brush): BrushOp {
    if b.invert && b.op.Raise? then BrushOp.Lower
    else if b.invert && b.op.Lower? then Raise
    else b.op
  }

  function Square(v: real): real {
    v * v
  }

  function Distance(d: Disc, sqrt: real -> real, nx: nat, nz: nat, ix: nat, iz: nat): real {
    var dx := NodePosition(nx, ix, AtLeast(d.hx)) - d.cx;
    var dz := NodePosition(nz, iz, AtLeast(d.hz)) - d.cz;
    sqrt(Square(dx) + Square(dz))
  }

  predicate Touches(d: Disc, sqrt: real -> real, nx: nat, nz: nat, ix: nat, iz: nat) {
    Distance(d, sqrt, nx, nz, ix, iz) < d.radius
  }

  function Fall(d: Disc, sqrt: real -> real, nx: nat, nz: nat, ix: nat, iz: nat): real
    requires d.radius > 0.0
  {
    var t := 1.0 - Distance(d, sqrt, nx, nz, ix, iz) / d.radius;
    t * t
  }

  /** The mean of a cell and its neighbours inside the grid. */
  function Average(g: Grid, ix: nat, iz: nat): real
    requires g.Valid() && ix < g.nx && iz < g.nz
  {
    var right := ix + 1 < g.nx;
    var left := ix >= 1;
    var down := iz + 1 < g.nz;
    var up := iz >= 1;
    var acc := At(g, ix, iz)
      + (if right then At(g, ix + 1, iz) else 0.0) + (if left then At(g, ix - 1, iz) else 0.0)
      + (if down then At(g, ix, iz + 1) else 0.0) + (if up then At(g, ix, iz - 1) else 0.0);
    var cnt := 1 + (if right then 1 else 0) + (if left then 1 else 0) + (if down then 1 else 0) + (if up then 1 else 0);
    acc / (cnt as real)
  }

  /** What the brush writes to a touched cell, given the grid as it is by then. */
  function NewHeight(b: Brush, sqrt: real -> real, target: real, g: Grid, ix: nat, iz: nat): real
    requires g.Valid() && ix < g.nx && iz < g.nz && b.disc.radius > 0.0
  {
    var fall := Fall(b.disc, sqrt, g.nx, g.nz, ix, iz);
    var cur := At(g, ix, iz);
    match Effective(b)
    case Raise => cur + b.strength * fall
    case Lower => cur - b.strength * fall
    case Flatten => cur + (target - cur) * fall * 0.25
    case Smooth => cur + (Average(g, ix, iz) - cur) * fall * 0.5
  }

  function StampCell(b: Brush, sqrt: real -> real, target: real, g: Grid, ix: nat, iz: nat): (r: Grid)
    requires g.Valid() && ix < g.nx && iz < g.nz && b.disc.radius > 0.0
    ensures r.Valid() && r.nx == g.nx && r.nz == g.nz
  {
    if Touches(b.disc, sqrt, g.nx, g.nz, ix, iz) then Set(g, ix, iz, NewHeight(b, sqrt, target, g, ix, iz)) else g
  }

  /** The grid once rows below iz and the first ix cells of row iz are done, each reading what went before. */
  function StampUpTo(b: Brush, sqrt: real -> real, target: real, g: Grid, ix: nat, iz: nat): (r: Grid)
    requires g.Valid() && ix <= g.nx && iz <= g.nz && (ix > 0 ==> iz < g.nz) && b.disc.radius > 0.0
    ensures r.Valid() && r.nx == g.nx && r.nz == g.nz
    decreases iz, ix
  {
    if ix > 0 then StampCell(b, sqrt, target, StampUpTo(b, sqrt, target, g, ix - 1, iz), ix - 1, iz)
    else if iz > 0 then StampUpTo(b, sqrt, target, g, g.nx, iz - 1)
    else g
  }

  function Stamp(b: Brush, sqrt: real -> real, g: Grid): (r: Grid)
    requires g.Valid() && b.disc.radius > 0.0
    ensures r.Valid() && r.nx == g.nx && r.nz == g.nz
  {
    StampUpTo(b, sqrt, Sample(g, b.disc.cx, b.disc.cz, AtLeast(b.disc.hx), AtLeast(b.disc.hz)), g, 0, g.nz)
  }

  // ---- Smoothing and flattening stay within the previous range ----

  ghost predicate Within(g: Grid, lo: real, hi: real)
    requires g.Valid()
  {
    forall ix, iz :: 0 <= ix < g.nx && 0 <= iz < g.nz ==> lo <= At(g, ix, iz) <= hi
  }

  ghost predicate SignedRoot(sqrt: real -> real) {
    forall v: real :: v >= 0.0 ==> sqrt(v) >= 0.0
  }

  lemma FallInUnit(d: Disc, sqrt: real -> real, nx: nat, nz: nat, ix: nat, iz: nat)
    requires d.radius > 0.0 && SignedRoot(sqrt) && Touches(d, sqrt, nx, nz, ix, iz)
    ensures 0.0 <= Fall(d, sqrt, nx, nz, ix, iz) <= 1.0
  {
    SquareSign(NodePosition(nx, ix, AtLeast(d.hx)) - d.cx);
    SquareSign(NodePosition(nz, iz, AtLeast(d.hz)) - d.cz);
    var dist := Distance(d, sqrt, nx, nz, ix, iz);
    assert 0.0 <= dist < d.radius;
    hide Distance, NodePosition, Square;
    RatioInUnit(dist, d.radius);
    var t := 1.0 - dist / d.radius;
    NonNegative(t, t);
    NonNegative(t, 1.0 - t);
    assert t * (1.0 - t) == t - t * t;
  }

  lemma SquareSign(v: real)
    ensures Square(v) >= 0.0
  {
    if v < 0.0 {
      NonNegative(-v, -v);
      assert (-v) * (-v) == v * v;
    } else {
      NonNegative(v, v);
    }
  }

  lemma RatioInUnit(a: real, b: real)
    requires 0.0 <= a <= b && b > 0.0
    ensures 0.0 <= a / b <= 1.0
  {
  }

  function Term(present: bool, v: real): real {
    if present then v else 0.0
  }

  lemma MeanWithin(acc: real, cnt: real, lo: real, hi: real, low: real, high: real)
    requires cnt > 0.0 && low == lo * cnt && high == hi * cnt && low <= acc <= high
    ensures lo <= acc / cnt <= hi
  {
    var q := acc / cnt;
    assert q * cnt == acc;
    if q < lo {
      StrictProduct(lo - q, cnt);
    }
    if q > hi {
      StrictProduct(q - hi, cnt);
    }
  }

  lemma StrictProduct(a: real, b: real)
    requires a > 0.0 && b > 0.0
    ensures a * b > 0.0
  {
  }

  lemma ScaledTerms(v: real, r: bool, l: bool, d: bool, u: bool)
    ensures Terms(v, v, v, v, v, r, l, d, u) == v * Terms(1.0, 1.0, 1.0, 1.0, 1.0, r, l, d, u)
  {
  }

  function Terms(a: real, v1: real, v2: real, v3: real, v4: real, r: bool, l: bool, d: bool, u: bool): real {
    a + Term(r, v1) + Term(l, v2) + Term(d, v3) + Term(u, v4)
  }

  lemma TermsMonotone(a: real, v1: real, v2: real, v3: real, v4: real, r: bool, l: bool, d: bool, u: bool, lo: real, hi: real)
    requires lo <= a <= hi && (r ==> lo <= v1 <= hi) && (l ==> lo <= v2 <= hi) && (d ==> lo <= v3 <= hi) && (u ==> lo <= v4 <= hi)
    ensures Terms(lo, lo, lo, lo, lo, r, l, d, u) <= Terms(a, v1, v2, v3, v4, r, l, d, u) <= Terms(hi, hi, hi, hi, hi, r, l, d, u)
    ensures Terms(1.0, 1.0, 1.0, 1.0, 1.0, r, l, d, u) >= 1.0
  {
  }

  lemma TermsWithin(a: real, v1: real, v2: real, v3: real, v4: real, r: bool, l: bool, d: bool, u: bool, lo: real, hi: real)
    requires lo <= a <= hi && (r ==> lo <= v1 <= hi) && (l ==> lo <= v2 <= hi) && (d ==> lo <= v3 <= hi) && (u ==> lo <= v4 <= hi)
    ensures var cnt := Terms(1.0, 1.0, 1.0, 1.0, 1.0, r, l, d, u);
      cnt > 0.0 && lo <= Terms(a, v1, v2, v3, v4, r, l, d, u) / cnt <= hi
  {
    TermsMonotone(a, v1, v2, v3, v4, r, l, d, u, lo, hi);
    ScaledTerms(lo, r, l, d, u);
    ScaledTerms(hi, r, l, d, u);
    hide Terms;
    MeanWithin(Terms(a, v1, v2, v3, v4, r, l, d, u), Terms(1.0, 1.0, 1.0, 1.0, 1.0, r, l, d, u), lo, hi,
               Terms(lo, lo, lo, lo, lo, r, l, d, u), Terms(hi, hi, hi, hi, hi, r, l, d, u));
  }

  lemma AverageWithin(g: Grid, ix: nat, iz: nat, lo: real, hi: real)
    requires g.Valid() && ix < g.nx && iz < g.nz && Within(g, lo, hi)
    ensures lo <= Average(g, ix, iz) <= hi
  {
    var r, l, d, u := ix + 1 < g.nx, ix >= 1, iz + 1 < g.nz, iz >= 1;
    var v1 := if r then At(g, ix + 1, iz) else 0.0;
    var v2 := if l then At(g, ix - 1, iz) else 0.0;
    var v3 := if d then At(g, ix, iz + 1) else 0.0;
    var v4 := if u then At(g, ix, iz - 1) else 0.0;
    hide At;
    TermsWithin(At(g, ix, iz), v1, v2, v3, v4, r, l, d, u, lo, hi);
  }

  predicate Levels(b: Brush) {
    Effective(b).Smooth? || Effective(b).Flatten?
  }

  lemma CellWithin(b: Brush, sqrt: real -> real, target: real, g: Grid, ix: nat, iz: nat, lo: real, hi: real)
    requires g.Valid() && ix < g.nx && iz < g.nz && b.disc.radius > 0.0 && SignedRoot(sqrt)
    requires Levels(b) && Within(g, lo, hi) && lo <= target <= hi
    ensures Within(StampCell(b, sqrt, target, g, ix, iz), lo, hi)
  {
    if Touches(b.disc, sqrt, g.nx, g.nz, ix, iz) {
      var v := NewHeight(b, sqrt, target, g, ix, iz);
      NewHeightWithin(b, sqrt, target, g, ix, iz, lo, hi);
      hide NewHeight, Touches, At, Set;
      forall jx, jz | 0 <= jx < g.nx && 0 <= jz < g.nz
        ensures lo <= At(Set(g, ix, iz, v), jx, jz) <= hi
      {
        AtAfterSet(g, ix, iz, v, jx, jz);
      }
    }
  }

  /** What a levelling brush moves a cell towards, and how fast. */
  function Goal(b: Brush, target: real, g: Grid, ix: nat, iz: nat): real
    requires g.Valid() && ix < g.nx && iz < g.nz
  {
    if Effective(b).Flatten? then target else Average(g, ix, iz)
  }

  lemma LevelForm(b: Brush, sqrt: real -> real, target: real, g: Grid, ix: nat, iz: nat)
    requires g.Valid() && ix < g.nx && iz < g.nz && b.disc.radius > 0.0 && Levels(b)
    ensures var fall := Fall(b.disc, sqrt, g.nx, g.nz, ix, iz);
      var rate := if Effective(b).Flatten? then 0.25 else 0.5;
      NewHeight(b, sqrt, target, g, ix, iz) == Mix(At(g, ix, iz), Goal(b, target, g, ix, iz), fall * rate)
  {
    hide Average, At, Fall, Mix;
    MixForm(At(g, ix, iz), Goal(b, target, g, ix, iz), Fall(b.disc, sqrt, g.nx, g.nz, ix, iz),
            if Effective(b).Flatten? then 0.25 else 0.5);
  }

  lemma NewHeightWithin(b: Brush, sqrt: real -> real, target: real, g: Grid, ix: nat, iz: nat, lo: real, hi: real)
    requires g.Valid() && ix < g.nx && iz < g.nz && b.disc.radius > 0.0 && SignedRoot(sqrt)
    requires Levels(b) && Within(g, lo, hi) && lo <= target <= hi && Touches(b.disc, sqrt, g.nx, g.nz, ix, iz)
    ensures lo <= NewHeight(b, sqrt, target, g, ix, iz) <= hi
  {
    FallInUnit(b.disc, sqrt, g.nx, g.nz, ix, iz);
    AverageWithin(g, ix, iz, lo, hi);
    LevelForm(b, sqrt, target, g, ix, iz);
    assert lo <= At(g, ix, iz) <= hi;
    hide Fall, Average, At, Touches, Within, NewHeight, Mix, SignedRoot;
    var fall := Fall(b.disc, sqrt, g.nx, g.nz, ix, iz);
    MixBetween(At(g, ix, iz), Goal(b, target, g, ix, iz), fall * (if Effective(b).Flatten? then 0.25 else 0.5), lo, hi);
  }

  lemma MixForm(cur: real, goal: real, fall: real, rate: real)
    ensures cur + (goal - cur) * fall * rate == Mix(cur, goal, fall * rate)
  {
    var w := fall * rate;
    assert (goal - cur) * fall * rate == (goal - cur) * w;
    assert cur * (1.0 - w) == cur - cur * w;
    assert (goal - cur) * w == goal * w - cur * w;
  }

  lemma {:induction false} UpToWithin(b: Brush, sqrt: real -> real, target: real, g: Grid, ix: nat, iz: nat, lo: real, hi: real)
    requires g.Valid() && ix <= g.nx && iz <= g.nz && (ix > 0 ==> iz < g.nz) && b.disc.radius > 0.0 && SignedRoot(sqrt)
    requires Levels(b) && Within(g, lo, hi) && lo <= target <= hi
    ensures Within(StampUpTo(b, sqrt, target, g, ix, iz), lo, hi)
    decreases iz, ix
  {
    hide StampCell, Within, SignedRoot;
    if ix > 0 {
      UpToWithin(b, sqrt, target, g, ix - 1, iz, lo, hi);
      CellWithin(b, sqrt, target, StampUpTo(b, sqrt, target, g, ix - 1, iz), ix - 1, iz, lo, hi);
    } else if iz > 0 {
      UpToWithin(b, sqrt, target, g, g.nx, iz - 1, lo, hi);
    }
  }

  /** A smoothing or flattening stamp pushes no cell outside the grid's previous range. */
  lemma LevellingStaysWithin(b: Brush, sqrt: real -> real, g: Grid, lo: real, hi: real)
    requires g.Valid() && b.disc.radius > 0.0 && SignedRoot(sqrt) && Within(g, lo, hi)
    requires b.op == Smooth || b.op == Flatten
    ensures Within(Stamp(b, sqrt, g), lo, hi)
  {
    assert Levels(b);
    var hx, hz := AtLeast(b.disc.hx), AtLeast(b.disc.hz);
    CoordinateInRange(b.disc.cx, AtLeast(hx), g.nx);
    CoordinateInRange(b.disc.cz, AtLeast(hz), g.nz);
    hide Coordinate, At, StampUpTo, SignedRoot, Levels;
    SampleWithinCorners(g, b.disc.cx, b.disc.cz, hx, hz, lo, hi);
    hide Sample;
    UpToWithin(b, sqrt, Sample(g, b.disc.cx, b.disc.cz, hx, hz), g, 0, g.nz, lo, hi);
  }

  // ---- Raising and lowering cancel ----

  /** Whether cell (jx, jz) has been visited once the loops stand at (ix, iz). */
  predicate Visited(ix: nat, iz: nat, jx: nat, jz: nat) {
    jz < iz || (jz == iz && jx < ix)
  }

  /** The change a raising (sign 1) or lowering (sign -1) stamp makes to one cell. */
  function Lift(b: Brush, sqrt: real -> real, nx: nat, nz: nat, jx: nat, jz: nat): real
    requires b.disc.radius > 0.0
  {
    if !Touches(b.disc, sqrt, nx, nz, jx, jz) then 0.0
    else if Effective(b).Raise? then b.strength * Fall(b.disc, sqrt, nx, nz, jx, jz)
    else 0.0 - b.strength * Fall(b.disc, sqrt, nx, nz, jx, jz)
  }

  predicate Moves(b: Brush) {
    Effective(b).Raise? || Effective(b).Lower?
  }

  lemma CellLifts(b: Brush, sqrt: real -> real, target: real, g: Grid, ix: nat, iz: nat, jx: nat, jz: nat)
    requires g.Valid() && ix < g.nx && iz < g.nz && b.disc.radius > 0.0 && Moves(b) && jx < g.nx && jz < g.nz
    ensures At(StampCell(b, sqrt, target, g, ix, iz), jx, jz)
         == At(g, jx, jz) + if (jx, jz) == (ix, iz) then Lift(b, sqrt, g.nx, g.nz, jx, jz) else 0.0
  {
    if Touches(b.disc, sqrt, g.nx, g.nz, ix, iz) {
      AtAfterSet(g, ix, iz, NewHeight(b, sqrt, target, g, ix, iz), jx, jz);
    }
    hide At, Set, Distance, Fall;
  }

  /** Raising and lowering change each visited cell by an amount that ignores the heights. */
  lemma {:induction false} UpToLifts(b: Brush, sqrt: real -> real, target: real, g: Grid, ix: nat, iz: nat, jx: nat, jz: nat)
    requires g.Valid() && ix <= g.nx && iz <= g.nz && (ix > 0 ==> iz < g.nz) && b.disc.radius > 0.0 && Moves(b)
    requires jx < g.nx && jz < g.nz
    ensures At(StampUpTo(b, sqrt, target, g, ix, iz), jx, jz)
         == At(g, jx, jz) + if Visited(ix, iz, jx, jz) then Lift(b, sqrt, g.nx, g.nz, jx, jz) else 0.0
    decreases iz, ix
  {
    hide At, StampCell, Lift, Moves;
    if ix > 0 {
      var before := StampUpTo(b, sqrt, target, g, ix - 1, iz);
      UpToLifts(b, sqrt, target, g, ix - 1, iz, jx, jz);
      CellLifts(b, sqrt, target, before, ix - 1, iz, jx, jz);
    } else if iz > 0 {
      UpToLifts(b, sqrt, target, g, g.nx, iz - 1, jx, jz);
    }
  }

  /** Two grids of the same shape that agree everywhere are equal. */
  lemma SameGrid(g: Grid, h: Grid)
    requires g.Valid() && h.Valid() && g.nx == h.nx && g.nz == h.nz
    requires forall ix, iz :: 0 <= ix < g.nx && 0 <= iz < g.nz ==> At(g, ix, iz) == At(h, ix, iz)
    ensures g == h
  {
    forall k | 0 <= k < |g.heights|
      ensures g.heights[k] == h.heights[k]
    {
      var iz, ix := k / g.nx, k % g.nx;
      assert k == iz * g.nx + ix;
      RowBound(k, g.nx, g.nz);
      assert At(g, ix, iz) == At(h, ix, iz);
    }
  }

  lemma RowBound(k: nat, nx: nat, nz: nat)
    requires nx > 0 && k < nx * nz
    ensures k / nx < nz
  {
    if k / nx >= nz {
      LaterProduct(nz, k / nx, nx);
    }
  }

  lemma LaterProduct(a: nat, b: nat, c: nat)
    requires a <= b
    ensures a * c <= b * c
  {
  }

  /** A raising stamp followed by the matching lowering stamp (or the inverted brush) restores every cell. */
  lemma RaiseThenLower(b: Brush, sqrt: real -> real, g: Grid, undo: Brush)
    requires g.Valid() && b.disc.radius > 0.0 && undo == b.(op := undo.op, invert := undo.invert)
    requires (b.op == Raise || b.op == BrushOp.Lower) && (undo.op == Raise || undo.op == BrushOp.Lower)
    requires undo.op != b.op <==> undo.invert == b.invert
    ensures Stamp(undo, sqrt, Stamp(b, sqrt, g)) == g
  {
    assert Moves(b) && Moves(undo) && Effective(undo) != Effective(b);
    var up := Stamp(b, sqrt, g);
    var back := Stamp(undo, sqrt, up);
    var t1 := Sample(g, b.disc.cx, b.disc.cz, AtLeast(b.disc.hx), AtLeast(b.disc.hz));
    var t2 := Sample(up, b.disc.cx, b.disc.cz, AtLeast(b.disc.hx), AtLeast(b.disc.hz));
    hide Sample, At, StampUpTo;
    forall ix, iz | 0 <= ix < g.nx && 0 <= iz < g.nz
      ensures At(back, ix, iz) == At(g, ix, iz)
    {
      UpToLifts(b, sqrt, t1, g, 0, g.nz, ix, iz);
      UpToLifts(undo, sqrt, t2, up, 0, g.nz, ix, iz);
      LiftsCancel(b, undo, sqrt, g.nx, g.nz, ix, iz);
    }
    SameGrid(back, g);
  }

  lemma LiftsCancel(b: Brush, undo: Brush, sqrt: real -> real, nx: nat, nz: nat, ix: nat, iz: nat)
    requires b.disc.radius > 0.0 && Moves(b) && Moves(undo)
    requires Effective(undo) != Effective(b) && undo == b.(op := undo.op, invert := undo.invert)
    ensures Lift(b, sqrt, nx, nz, ix, iz) + Lift(undo, sqrt, nx, nz, ix, iz) == 0.0
  {
    assert undo.disc == b.disc && undo.strength == b.strength;
    hide Fall, Touches;
  }
}
