/**
 What a brush stamp does to each cell (engine/engine_terrain_store.mettle:503-583), told from
 the brush's own fields; smoothing reads what it has already smoothed.
 */
module TerrainEffects {
  import opened TerrainSpec
  import opened TerrainTable
  import opened TerrainSurface

  /** A half extent is never taken smaller than a millionth. */
  function Half(h: real): real {
    if h < 0.000001 then 0.000001 else h
  }

  function Squared(v: real): real {
    v * v
  }

  lemma SquareIs(v: real)
    ensures Square(v) == Squared(v)
  {
  }

  /** How far node (ix, iz) lies from the brush's centre. */
  function Reach(d: Disc, sqrt: real -> real, nx: nat, nz: nat, ix: nat, iz: nat): real
    requires nx >= 2 && nz >= 2
  {
    sqrt(Squared(Position(nx, ix as real, Half(d.hx)) - d.cx) + Squared(Position(nz, iz as real, Half(d.hz)) - d.cz))
  }

  lemma NodeIsPosition(n: nat, i: nat, half: real)
    requires n >= 2
    ensures NodePosition(n, i, half) == Position(n, i as real, half)
  {
    var x, m, c := i as real, n as real - 1.0, 2.0 * half;
    var u := x / m;
    assert u * m == x;
    assert c * x == (c * u) * m;
    assert c * x / m == c * u;
  }

  lemma HalfIs(d: Disc)
    ensures AtLeast(d.hx) == Half(d.hx) && AtLeast(d.hz) == Half(d.hz)
  {
  }

  lemma ReachIsDistance(d: Disc, sqrt: real -> real, nx: nat, nz: nat, ix: nat, iz: nat)
    requires nx >= 2 && nz >= 2
    ensures Distance(d, sqrt, nx, nz, ix, iz) == Reach(d, sqrt, nx, nz, ix, iz)
    ensures Touches(d, sqrt, nx, nz, ix, iz) <==> Reach(d, sqrt, nx, nz, ix, iz) < d.radius
  {
    HalfIs(d);
    NodeIsPosition(nx, ix, Half(d.hx));
    NodeIsPosition(nz, iz, Half(d.hz));
    SquareIs(NodePosition(nx, ix, AtLeast(d.hx)) - d.cx);
    SquareIs(NodePosition(nz, iz, AtLeast(d.hz)) - d.cz);
    hide NodePosition, Position, AtLeast, Half, Square, Squared;
  }

  /** 1 at the centre, 0 at the rim, and quadratic between. */
  function Weight(d: Disc, sqrt: real -> real, nx: nat, nz: nat, ix: nat, iz: nat): real
    requires nx >= 2 && nz >= 2 && d.radius > 0.0
  {
    var t := 1.0 - Reach(d, sqrt, nx, nz, ix, iz) / d.radius;
    t * t
  }

  // ---- Means ----

  predicate InGrid(g: Grid, c: (int, int)) {
    0 <= c.0 < g.nx && 0 <= c.1 < g.nz
  }

  function Sum(g: Grid, cells: seq<(int, int)>): real
    requires g.Valid()
  {
    if cells == [] then 0.0
    else (if InGrid(g, cells[0]) then At(g, cells[0].0, cells[0].1) else 0.0) + Sum(g, cells[1..])
  }

  function Count(g: Grid, cells: seq<(int, int)>): nat {
    if cells == [] then 0 else (if InGrid(g, cells[0]) then 1 else 0) + Count(g, cells[1..])
  }

  /** A cell and the four beside it. */
  function Cross(ix: int, iz: int): seq<(int, int)> {
    [(ix, iz), (ix + 1, iz), (ix - 1, iz), (ix, iz + 1), (ix, iz - 1)]
  }

  lemma CrossUnfolds(g: Grid, ix: nat, iz: nat)
    requires g.Valid() && ix < g.nx && iz < g.nz
    ensures Sum(g, Cross(ix, iz)) == At(g, ix, iz)
      + (if ix + 1 < g.nx then At(g, ix + 1, iz) else 0.0) + (if ix >= 1 then At(g, ix - 1, iz) else 0.0)
      + (if iz + 1 < g.nz then At(g, ix, iz + 1) else 0.0) + (if iz >= 1 then At(g, ix, iz - 1) else 0.0)
    ensures Count(g, Cross(ix, iz)) == 1 + (if ix + 1 < g.nx then 1 else 0) + (if ix >= 1 then 1 else 0)
      + (if iz + 1 < g.nz then 1 else 0) + (if iz >= 1 then 1 else 0)
  {
    hide At;
    var c := Cross(ix, iz);
    FirstTerm(g, c[0], [c[1], c[2], c[3], c[4]]);
    FirstTerm(g, c[1], [c[2], c[3], c[4]]);
    FirstTerm(g, c[2], [c[3], c[4]]);
    FirstTerm(g, c[3], [c[4]]);
    FirstTerm(g, c[4], []);
    hide Sum, Count;
    assert c == [c[0]] + [c[1], c[2], c[3], c[4]];
    assert [c[1], c[2], c[3], c[4]] == [c[1]] + [c[2], c[3], c[4]];
    assert [c[2], c[3], c[4]] == [c[2]] + [c[3], c[4]];
    assert [c[3], c[4]] == [c[3]] + [c[4]];
    assert [c[4]] == [c[4]] + [];
  }

  lemma FirstTerm(g: Grid, c: (int, int), rest: seq<(int, int)>)
    requires g.Valid()
    ensures Sum(g, [c] + rest) == (if InGrid(g, c) then At(g, c.0, c.1) else 0.0) + Sum(g, rest)
    ensures Count(g, [c] + rest) == (if InGrid(g, c) then 1 else 0) + Count(g, rest)
    ensures Sum(g, []) == 0.0 && Count(g, []) == 0
  {
    assert ([c] + rest)[1..] == rest;
  }

  /** The average that smoothing takes is the mean over the cross, as far as it lies in the grid. */
  lemma AverageIsMean(g: Grid, ix: nat, iz: nat)
    requires g.Valid() && ix < g.nx && iz < g.nz
    ensures Average(g, ix, iz) * (Count(g, Cross(ix, iz)) as real) == Sum(g, Cross(ix, iz))
    ensures Count(g, Cross(ix, iz)) >= 3
  {
    CrossUnfolds(g, ix, iz);
    hide At, Sum, Count;
    Quotient(Sum(g, Cross(ix, iz)), Count(g, Cross(ix, iz)));
  }

  lemma Quotient(a: real, n: nat)
    requires n > 0
    ensures a / (n as real) * (n as real) == a
  {
  }

  // ---- One cell ----

  predicate Raises(b: Brush) {
    (b.op == Raise && !b.invert) || (b.op == BrushOp.Lower && b.invert)
  }

  predicate Lowers(b: Brush) {
    (b.op == BrushOp.Lower && !b.invert) || (b.op == Raise && b.invert)
  }

  /**
   A cell of height h goes up by the weighted strength under a raising brush (or an inverted
   lowering one) and down by as much under the opposite; flattening takes it a quarter of the
   weight towards the target, smoothing half of the weight towards the mean.
   */
  function Moved(b: Brush, w: real, h: real, target: real, mean: real): real {
    if Raises(b) then h + b.strength * w
    else if Lowers(b) then h - b.strength * w
    else if b.op == Flatten then h + (target - h) * w * 0.25
    else h + (mean - h) * w * 0.5
  }

  lemma MovedForm(b: Brush, sqrt: real -> real, target: real, g: Grid, ix: nat, iz: nat)
    requires g.Valid() && ix < g.nx && iz < g.nz && b.disc.radius > 0.0
    ensures NewHeight(b, sqrt, target, g, ix, iz)
         == Moved(b, Fall(b.disc, sqrt, g.nx, g.nz, ix, iz), At(g, ix, iz), target, Average(g, ix, iz))
  {
    hide At, Fall, Average;
  }

  lemma StampAt(b: Brush, sqrt: real -> real, target: real, g: Grid, ix: nat, iz: nat, jx: nat, jz: nat)
    requires g.Valid() && ix < g.nx && iz < g.nz && jx < g.nx && jz < g.nz && b.disc.radius > 0.0
    ensures At(StampCell(b, sqrt, target, g, ix, iz), jx, jz) ==
      if (jx, jz) == (ix, iz) && Touches(b.disc, sqrt, g.nx, g.nz, ix, iz) then NewHeight(b, sqrt, target, g, ix, iz)
      else At(g, jx, jz)
  {
    hide At, Set, Touches, NewHeight;
    AtAfterSet(g, ix, iz, NewHeight(b, sqrt, target, g, ix, iz), jx, jz);
  }

  /** A stamp moves the cells within its reach, and them alone. */
  lemma StampedCell(b: Brush, sqrt: real -> real, target: real, g: Grid, ix: nat, iz: nat, jx: nat, jz: nat)
    requires g.Valid() && ix < g.nx && iz < g.nz && jx < g.nx && jz < g.nz && b.disc.radius > 0.0
    ensures At(StampCell(b, sqrt, target, g, ix, iz), jx, jz) ==
      if (jx, jz) == (ix, iz) && Reach(b.disc, sqrt, g.nx, g.nz, ix, iz) < b.disc.radius then
        Moved(b, Weight(b.disc, sqrt, g.nx, g.nz, ix, iz), At(g, ix, iz), target, Average(g, ix, iz))
      else At(g, jx, jz)
  {
    hide At, StampCell, Touches, Reach, Weight, Fall, Average, NewHeight, Moved;
    StampAt(b, sqrt, target, g, ix, iz, jx, jz);
    ReachIsDistance(b.disc, sqrt, g.nx, g.nz, ix, iz);
    WeightIsFall(b.disc, sqrt, g.nx, g.nz, ix, iz);
    MovedForm(b, sqrt, target, g, ix, iz);
  }

  lemma WeightIsFall(d: Disc, sqrt: real -> real, nx: nat, nz: nat, ix: nat, iz: nat)
    requires nx >= 2 && nz >= 2 && d.radius > 0.0
    ensures Fall(d, sqrt, nx, nz, ix, iz) == Weight(d, sqrt, nx, nz, ix, iz)
  {
    ReachIsDistance(d, sqrt, nx, nz, ix, iz);
    hide Reach, Distance;
  }

  // ---- Whole stamps ----

  /** Until the loops reach a cell it has its old height; from then on its new one. */
  lemma {:induction false} NotYet(b: Brush, sqrt: real -> real, target: real, g: Grid, ix: nat, iz: nat, jx: nat, jz: nat)
    requires g.Valid() && ix <= g.nx && iz <= g.nz && (ix > 0 ==> iz < g.nz) && b.disc.radius > 0.0
    requires jx < g.nx && jz < g.nz && !Visited(ix, iz, jx, jz)
    ensures At(StampUpTo(b, sqrt, target, g, ix, iz), jx, jz) == At(g, jx, jz)
    decreases iz, ix
  {
    hide At, StampCell;
    if ix > 0 {
      NotYet(b, sqrt, target, g, ix - 1, iz, jx, jz);
      OthersKept(b, sqrt, target, StampUpTo(b, sqrt, target, g, ix - 1, iz), ix - 1, iz, jx, jz);
    } else if iz > 0 {
      NotYet(b, sqrt, target, g, g.nx, iz - 1, jx, jz);
    }
  }

  lemma OthersKept(b: Brush, sqrt: real -> real, target: real, g: Grid, ix: nat, iz: nat, jx: nat, jz: nat)
    requires g.Valid() && ix < g.nx && iz < g.nz && jx < g.nx && jz < g.nz && b.disc.radius > 0.0
    requires (jx, jz) != (ix, iz)
    ensures At(StampCell(b, sqrt, target, g, ix, iz), jx, jz) == At(g, jx, jz)
  {
    hide *;
    StampAt(b, sqrt, target, g, ix, iz, jx, jz);
  }

  lemma {:induction false} Settled(b: Brush, sqrt: real -> real, target: real, g: Grid, ix: nat, iz: nat, jx: nat, jz: nat)
    requires g.Valid() && ix <= g.nx && iz <= g.nz && (ix > 0 ==> iz < g.nz) && b.disc.radius > 0.0
    requires jx < g.nx && jz < g.nz && Visited(ix, iz, jx, jz)
    ensures At(StampUpTo(b, sqrt, target, g, ix, iz), jx, jz)
         == At(StampUpTo(b, sqrt, target, g, jx + 1, jz), jx, jz)
    decreases iz, ix
  {
    hide At, StampCell;
    if ix > 0 {
      if (jx, jz) != (ix - 1, iz) {
        Settled(b, sqrt, target, g, ix - 1, iz, jx, jz);
        OthersKept(b, sqrt, target, StampUpTo(b, sqrt, target, g, ix - 1, iz), ix - 1, iz, jx, jz);
      }
    } else if iz > 0 {
      Settled(b, sqrt, target, g, g.nx, iz - 1, jx, jz);
    }
  }

  /** The grid just before cell (jx, jz) is stamped: the final heights behind it, the old ones from it on. */
  lemma BeforeCell(b: Brush, sqrt: real -> real, target: real, g: Grid, jx: nat, jz: nat, kx: nat, kz: nat)
    requires g.Valid() && b.disc.radius > 0.0 && jx < g.nx && jz < g.nz && kx < g.nx && kz < g.nz
    ensures At(StampUpTo(b, sqrt, target, g, jx, jz), kx, kz) ==
      if Visited(jx, jz, kx, kz) then At(StampUpTo(b, sqrt, target, g, 0, g.nz), kx, kz) else At(g, kx, kz)
  {
    hide At, StampUpTo;
    if Visited(jx, jz, kx, kz) {
      Settled(b, sqrt, target, g, jx, jz, kx, kz);
      Settled(b, sqrt, target, g, 0, g.nz, kx, kz);
    } else {
      NotYet(b, sqrt, target, g, jx, jz, kx, kz);
    }
  }

  /** The height at the brush's centre, which flattening levels to. */
  function CentreHeight(b: Brush, g: Grid): real
    requires g.Valid()
  {
    Sample(g, b.disc.cx, b.disc.cz, b.disc.hx, b.disc.hz)
  }

  /**
   What smoothing sums up at a cell: the right and the lower neighbour as they were, the left and
   the upper one already smoothed.
   */
  function MixedSum(g: Grid, now: Grid, ix: nat, iz: nat): real
    requires g.Valid() && now.Valid() && now.nx == g.nx && now.nz == g.nz && ix < g.nx && iz < g.nz
  {
    At(g, ix, iz) + (if ix + 1 < g.nx then At(g, ix + 1, iz) else 0.0) + (if ix >= 1 then At(now, ix - 1, iz) else 0.0)
    + (if iz + 1 < g.nz then At(g, ix, iz + 1) else 0.0) + (if iz >= 1 then At(now, ix, iz - 1) else 0.0)
  }

  lemma SumIsMixed(g: Grid, mid: Grid, now: Grid, ix: nat, iz: nat)
    requires g.Valid() && mid.Valid() && now.Valid() && ix < g.nx && iz < g.nz
    requires mid.nx == now.nx == g.nx && mid.nz == now.nz == g.nz
    requires At(mid, ix, iz) == At(g, ix, iz)
    requires ix + 1 < g.nx ==> At(mid, ix + 1, iz) == At(g, ix + 1, iz)
    requires iz + 1 < g.nz ==> At(mid, ix, iz + 1) == At(g, ix, iz + 1)
    requires ix >= 1 ==> At(mid, ix - 1, iz) == At(now, ix - 1, iz)
    requires iz >= 1 ==> At(mid, ix, iz - 1) == At(now, ix, iz - 1)
    ensures Sum(mid, Cross(ix, iz)) == MixedSum(g, now, ix, iz)
  {
    hide At, Sum, Count;
    CrossUnfolds(mid, ix, iz);
  }

  lemma SameCount(g: Grid, mid: Grid, cells: seq<(int, int)>)
    requires mid.nx == g.nx && mid.nz == g.nz
    ensures Count(mid, cells) == Count(g, cells)
  {
  }

  lemma MixedAverage(b: Brush, sqrt: real -> real, target: real, g: Grid, jx: nat, jz: nat)
    requires g.Valid() && b.disc.radius > 0.0 && jx < g.nx && jz < g.nz
    ensures Average(StampUpTo(b, sqrt, target, g, jx, jz), jx, jz) * (Count(g, Cross(jx, jz)) as real)
         == MixedSum(g, StampUpTo(b, sqrt, target, g, 0, g.nz), jx, jz)
  {
    hide *;
    var mid := StampUpTo(b, sqrt, target, g, jx, jz);
    AverageIsMean(mid, jx, jz);
    SameCount(g, mid, Cross(jx, jz));
    VisitedOrder(jx, jz);
    BeforeCell(b, sqrt, target, g, jx, jz, jx, jz);
    if jx + 1 < g.nx { BeforeCell(b, sqrt, target, g, jx, jz, jx + 1, jz); }
    if jx >= 1 { BeforeCell(b, sqrt, target, g, jx, jz, jx - 1, jz); }
    if jz + 1 < g.nz { BeforeCell(b, sqrt, target, g, jx, jz, jx, jz + 1); }
    if jz >= 1 { BeforeCell(b, sqrt, target, g, jx, jz, jx, jz - 1); }
    SumIsMixed(g, mid, StampUpTo(b, sqrt, target, g, 0, g.nz), jx, jz);
  }

  lemma VisitedOrder(jx: nat, jz: nat)
    ensures !Visited(jx, jz, jx, jz) && !Visited(jx, jz, jx + 1, jz) && !Visited(jx, jz, jx, jz + 1)
    ensures jx >= 1 ==> Visited(jx, jz, jx - 1, jz)
    ensures jz >= 1 ==> Visited(jx, jz, jx, jz - 1)
  {
  }

  lemma LastStep(b: Brush, sqrt: real -> real, target: real, g: Grid, jx: nat, jz: nat)
    requires g.Valid() && b.disc.radius > 0.0 && jx < g.nx && jz < g.nz
    ensures At(StampUpTo(b, sqrt, target, g, 0, g.nz), jx, jz)
         == At(StampCell(b, sqrt, target, StampUpTo(b, sqrt, target, g, jx, jz), jx, jz), jx, jz)
  {
    hide At, StampCell;
    Settled(b, sqrt, target, g, 0, g.nz, jx, jz);
  }

  /**
   What a whole stamp leaves in every cell. Raising, lowering and flattening treat each cell by
   its own old height; smoothing takes the mean `avg` of old and smoothed neighbours.
   */
  lemma StampedGrid(b: Brush, sqrt: real -> real, g: Grid, jx: nat, jz: nat) returns (avg: real)
    requires g.Valid() && b.disc.radius > 0.0 && jx < g.nx && jz < g.nz
    ensures avg * (Count(g, Cross(jx, jz)) as real) == MixedSum(g, Stamp(b, sqrt, g), jx, jz)
    ensures At(Stamp(b, sqrt, g), jx, jz) ==
      if Reach(b.disc, sqrt, g.nx, g.nz, jx, jz) < b.disc.radius then
        Moved(b, Weight(b.disc, sqrt, g.nx, g.nz, jx, jz), At(g, jx, jz), CentreHeight(b, g), avg)
      else At(g, jx, jz)
  {
    hide *;
    var target := CentreHeight(b, g);
    StampIs(b, sqrt, g);
    var mid := StampUpTo(b, sqrt, target, g, jx, jz);
    avg := Average(mid, jx, jz);
    MixedAverage(b, sqrt, target, g, jx, jz);
    LastStep(b, sqrt, target, g, jx, jz);
    StampedCell(b, sqrt, target, mid, jx, jz, jx, jz);
    VisitedOrder(jx, jz);
    BeforeCell(b, sqrt, target, g, jx, jz, jx, jz);
  }

  lemma StampIs(b: Brush, sqrt: real -> real, g: Grid)
    requires g.Valid() && b.disc.radius > 0.0
    ensures Stamp(b, sqrt, g) == StampUpTo(b, sqrt, CentreHeight(b, g), g, 0, g.nz)
  {
    hide Sample, StampUpTo;
    TargetIsCentre(b, g);
  }

  lemma TargetIsCentre(b: Brush, g: Grid)
    requires g.Valid()
    ensures Sample(g, b.disc.cx, b.disc.cz, AtLeast(b.disc.hx), AtLeast(b.disc.hz)) == CentreHeight(b, g)
  {
    hide Coordinate, Bilinear;
  }

  // ---- How many cells ----

  /** The visited cells within reach. */
  function Within(d: Disc, sqrt: real -> real, nx: nat, nz: nat, ix: nat, iz: nat): set<(nat, nat)>
    requires nx >= 2 && nz >= 2
  {
    set jx: nat, jz: nat | jx < nx && jz < nz && Visited(ix, iz, jx, jz) && Reach(d, sqrt, nx, nz, jx, jz) < d.radius :: (jx, jz)
  }

  lemma {:induction false} TouchedSoFar(d: Disc, sqrt: real -> real, nx: nat, nz: nat, ix: nat, iz: nat)
    requires nx >= 2 && nz >= 2 && ix <= nx && iz <= nz && (ix > 0 ==> iz < nz)
    ensures TouchedUpTo(d, sqrt, nx, nz, ix, iz) == |Within(d, sqrt, nx, nz, ix, iz)|
    decreases iz, ix
  {
    hide Reach, Touches;
    var w := Within(d, sqrt, nx, nz, ix, iz);
    if ix > 0 {
      TouchedSoFar(d, sqrt, nx, nz, ix - 1, iz);
      ReachIsDistance(d, sqrt, nx, nz, ix - 1, iz);
      var before := Within(d, sqrt, nx, nz, ix - 1, iz);
      if Touches(d, sqrt, nx, nz, ix - 1, iz) {
        assert w == before + {(ix - 1, iz)};
      } else {
        assert w == before;
      }
    } else if iz > 0 {
      TouchedSoFar(d, sqrt, nx, nz, nx, iz - 1);
      assert w == Within(d, sqrt, nx, nz, nx, iz - 1);
    } else {
      assert w == {};
    }
  }

  /** A stamp reports the number of cells within its reach. */
  lemma TouchedCount(t: Table, id: int, b: Brush, sqrt: real -> real)
    requires WellFormed(t) && id > 0 && b.disc.radius > 0.0 && IndexOf(t, id) >= 0
    ensures var g := t[IndexOf(t, id)].grid;
      && g.nx >= 2 && g.nz >= 2
      && TouchedCells(t, id, b, sqrt) == |set jx: nat, jz: nat | jx < g.nx && jz < g.nz
                                            && Reach(b.disc, sqrt, g.nx, g.nz, jx, jz) < b.disc.radius :: (jx, jz)|
  {
    var g := t[IndexOf(t, id)].grid;
    TouchedSoFar(b.disc, sqrt, g.nx, g.nz, 0, g.nz);
    hide Reach;
    assert Within(b.disc, sqrt, g.nx, g.nz, 0, g.nz) == set jx: nat, jz: nat | jx < g.nx && jz < g.nz
                                            && Reach(b.disc, sqrt, g.nx, g.nz, jx, jz) < b.disc.radius :: (jx, jz);
  }

  /** Without a patch or a reach nothing is touched and nothing changes. */
  lemma NothingTouched(t: Table, id: int, b: Brush, sqrt: real -> real)
    requires WellFormed(t) && (IndexOf(t, id) < 0 || b.disc.radius <= 0.0)
    ensures TouchedCells(t, id, b, sqrt) == 0 && StampTable(t, id, b, sqrt) == t
  {
  }
}
