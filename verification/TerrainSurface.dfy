/**
 The surface that sampling makes of a height grid (engine/engine_terrain_store.mettle:229-322):
 bilinear inside every cell, flat beyond the border, exact for planes.
 */
module TerrainSurface {
  import opened TerrainSpec

  /** The local position at grid coordinate f, from 0 at the first node to n - 1 at the last. */
  function Position(n: nat, f: real, half: real): real
    requires n >= 2
  {
    -half + 2.0 * half * (f / (n as real - 1.0))
  }

  lemma PositionCoordinate(n: nat, f: real, half: real)
    requires n >= 2 && half > 0.0 && 0.0 <= f <= n as real - 1.0
    ensures Coordinate(Position(n, f, half), half, n) == f
  {
    var m := n as real - 1.0;
    ShareBounds(f, m);
    var u := f / m;
    ShareOf(u, 2.0 * half);
    assert Position(n, f, half) + half == 2.0 * half * u;
  }

  lemma ShareOf(u: real, c: real)
    requires c > 0.0
    ensures c * u / c == u
  {
  }

  /** Sampling at grid coordinates, in the terms of its definition. */
  lemma SampleAt(g: Grid, fx: real, fz: real, hx: real, hz: real)
    requires g.Valid() && hx >= MIN_HALF && hz >= MIN_HALF
    requires 0.0 <= fx <= g.nx as real - 1.0 && 0.0 <= fz <= g.nz as real - 1.0
    ensures Sample(g, Position(g.nx, fx, hx), Position(g.nz, fz, hz), hx, hz) == Bilinear(g, fx, fz)
  {
    hide Bilinear, Coordinate, Position;
    PositionCoordinate(g.nx, fx, hx);
    PositionCoordinate(g.nz, fz, hz);
  }

  lemma FloorOfSum(i: nat, t: real)
    requires 0.0 <= t < 1.0
    ensures (i as real + t).Floor == i
  {
  }

  /**
   Inside a cell every corner counts with the product of its two shares; tx and tz run from the
   cell's lower corner, along x and along z.
   */
  lemma SampleInCell(g: Grid, ix: nat, iz: nat, tx: real, tz: real, hx: real, hz: real)
    requires g.Valid() && ix + 1 < g.nx && iz + 1 < g.nz && hx >= MIN_HALF && hz >= MIN_HALF
    requires 0.0 <= tx < 1.0 && 0.0 <= tz < 1.0
    ensures Sample(g, Position(g.nx, ix as real + tx, hx), Position(g.nz, iz as real + tz, hz), hx, hz) ==
            At(g, ix, iz) * ((1.0 - tx) * (1.0 - tz)) + At(g, ix + 1, iz) * (tx * (1.0 - tz))
            + At(g, ix, iz + 1) * ((1.0 - tx) * tz) + At(g, ix + 1, iz + 1) * (tx * tz)
  {
    hide Bilinear, At, Sample, Position;
    SampleAt(g, ix as real + tx, iz as real + tz, hx, hz);
    BilinearInCell(g, ix, iz, tx, tz);
  }

  lemma BilinearInCell(g: Grid, ix: nat, iz: nat, tx: real, tz: real)
    requires g.Valid() && ix + 1 < g.nx && iz + 1 < g.nz && 0.0 <= tx < 1.0 && 0.0 <= tz < 1.0
    ensures Bilinear(g, ix as real + tx, iz as real + tz) ==
            At(g, ix, iz) * ((1.0 - tx) * (1.0 - tz)) + At(g, ix + 1, iz) * (tx * (1.0 - tz))
            + At(g, ix, iz + 1) * ((1.0 - tx) * tz) + At(g, ix + 1, iz + 1) * (tx * tz)
  {
    hide At, Mix;
    FloorOfSum(ix, tx);
    FloorOfSum(iz, tz);
    Spread(At(g, ix, iz), At(g, ix + 1, iz), At(g, ix, iz + 1), At(g, ix + 1, iz + 1), tx, tz);
  }

  lemma Spread(a: real, b: real, c: real, d: real, tx: real, tz: real)
    ensures Mix(Mix(a, b, tx), Mix(c, d, tx), tz) ==
            a * ((1.0 - tx) * (1.0 - tz)) + b * (tx * (1.0 - tz)) + c * ((1.0 - tx) * tz) + d * (tx * tz)
  {
    var u, v := 1.0 - tx, 1.0 - tz;
    assert (a * u + b * tx) * v == a * (u * v) + b * (tx * v);
    assert (c * u + d * tx) * tz == c * (u * tz) + d * (tx * tz);
  }

  /** Along a grid edge the surface is the straight line between the edge's two nodes. */
  lemma SampleOnEdge(g: Grid, ix: nat, iz: nat, t: real, hx: real, hz: real)
    requires g.Valid() && hx >= MIN_HALF && hz >= MIN_HALF && ix < g.nx && iz < g.nz && 0.0 <= t <= 1.0
    ensures ix + 1 < g.nx ==>
      Sample(g, Position(g.nx, ix as real + t, hx), Position(g.nz, iz as real, hz), hx, hz)
      == At(g, ix, iz) + t * (At(g, ix + 1, iz) - At(g, ix, iz))
    ensures iz + 1 < g.nz ==>
      Sample(g, Position(g.nx, ix as real, hx), Position(g.nz, iz as real + t, hz), hx, hz)
      == At(g, ix, iz) + t * (At(g, ix, iz + 1) - At(g, ix, iz))
  {
    if ix + 1 < g.nx {
      AlongX(g, ix, iz, t, hx, hz);
    }
    if iz + 1 < g.nz {
      AlongZ(g, ix, iz, t, hx, hz);
    }
    hide *;
  }

  lemma MixEnds(a: real, b: real, t: real)
    ensures Mix(a, b, 0.0) == a && Mix(a, b, 1.0) == b && Mix(a, a, t) == a && Mix(a, b, t) == a + t * (b - a)
  {
    assert a * (1.0 - t) == a - a * t && t * (b - a) == t * b - t * a;
  }

  lemma AlongX(g: Grid, ix: nat, iz: nat, t: real, hx: real, hz: real)
    requires g.Valid() && hx >= MIN_HALF && hz >= MIN_HALF && ix + 1 < g.nx && iz < g.nz && 0.0 <= t <= 1.0
    ensures Sample(g, Position(g.nx, ix as real + t, hx), Position(g.nz, iz as real, hz), hx, hz)
         == At(g, ix, iz) + t * (At(g, ix + 1, iz) - At(g, ix, iz))
  {
    hide At, Coordinate, Position, Mix;
    PositionCoordinate(g.nx, ix as real + t, hx);
    PositionCoordinate(g.nz, iz as real, hz);
    FloorOfSum(iz, 0.0);
    var z1 := if iz + 1 < g.nz then iz + 1 else iz;
    if t < 1.0 {
      FloorOfSum(ix, t);
      MixEnds(Mix(At(g, ix, iz), At(g, ix + 1, iz), t), Mix(At(g, ix, z1), At(g, ix + 1, z1), t), 0.0);
      MixEnds(At(g, ix, iz), At(g, ix + 1, iz), t);
    } else {
      FloorOfSum(ix + 1, 0.0);
      var x1 := if ix + 2 < g.nx then ix + 2 else ix + 1;
      MixEnds(At(g, ix + 1, iz), At(g, x1, iz), 0.0);
      MixEnds(Mix(At(g, ix + 1, iz), At(g, x1, iz), 0.0), Mix(At(g, ix + 1, z1), At(g, x1, z1), 0.0), 0.0);
    }
  }

  lemma AlongZ(g: Grid, ix: nat, iz: nat, t: real, hx: real, hz: real)
    requires g.Valid() && hx >= MIN_HALF && hz >= MIN_HALF && ix < g.nx && iz + 1 < g.nz && 0.0 <= t <= 1.0
    ensures Sample(g, Position(g.nx, ix as real, hx), Position(g.nz, iz as real + t, hz), hx, hz)
         == At(g, ix, iz) + t * (At(g, ix, iz + 1) - At(g, ix, iz))
  {
    hide At, Coordinate, Position, Mix;
    PositionCoordinate(g.nx, ix as real, hx);
    PositionCoordinate(g.nz, iz as real + t, hz);
    FloorOfSum(ix, 0.0);
    var x1 := if ix + 1 < g.nx then ix + 1 else ix;
    if t < 1.0 {
      FloorOfSum(iz, t);
      MixEnds(At(g, ix, iz), At(g, x1, iz), 0.0);
      MixEnds(At(g, ix, iz + 1), At(g, x1, iz + 1), 0.0);
      MixEnds(At(g, ix, iz), At(g, ix, iz + 1), t);
    } else {
      FloorOfSum(iz + 1, 0.0);
      var z1 := if iz + 2 < g.nz then iz + 2 else iz + 1;
      MixEnds(At(g, ix, iz + 1), At(g, x1, iz + 1), 0.0);
      MixEnds(Mix(At(g, ix, iz + 1), At(g, x1, iz + 1), 0.0), Mix(At(g, ix, z1), At(g, x1, z1), 0.0), 0.0);
    }
  }

  /** The heights of a plane. */
  predicate Affine(g: Grid, a: real, b: real, c: real)
    requires g.Valid()
  {
    forall ix: nat, iz: nat :: ix < g.nx && iz < g.nz ==> At(g, ix, iz) == a + b * (ix as real) + c * (iz as real)
  }

  lemma PlaneBilinear(g: Grid, a: real, b: real, c: real, fx: real, fz: real)
    requires g.Valid() && Affine(g, a, b, c)
    requires 0.0 <= fx <= g.nx as real - 1.0 && 0.0 <= fz <= g.nz as real - 1.0
    ensures Bilinear(g, fx, fz) == a + b * fx + c * fz
  {
    hide At, Mix, Affine;
    var ix, iz, jx, jz := fx.Floor, fz.Floor, Upper(fx, g.nx), Upper(fz, g.nz);
    var tx, tz := fx - ix as real, fz - iz as real;
    PlaneAt(g, a, b, c, ix, iz);
    PlaneAt(g, a, b, c, jx, iz);
    PlaneAt(g, a, b, c, ix, jz);
    PlaneAt(g, a, b, c, jx, jz);
    PlaneMix(a, b, c, ix as real, jx as real, iz as real, jz as real, tx, tz,
             At(g, ix, iz), At(g, jx, iz), At(g, ix, jz), At(g, jx, jz));
    assert b * (ix as real + tx) == b * fx && c * (iz as real + tz) == c * fz;
  }

  /** A plane is reproduced everywhere on the grid. */
  lemma PlaneIsExact(g: Grid, a: real, b: real, c: real, fx: real, fz: real, hx: real, hz: real)
    requires g.Valid() && Affine(g, a, b, c) && hx >= MIN_HALF && hz >= MIN_HALF
    requires 0.0 <= fx <= g.nx as real - 1.0 && 0.0 <= fz <= g.nz as real - 1.0
    ensures Sample(g, Position(g.nx, fx, hx), Position(g.nz, fz, hz), hx, hz) == a + b * fx + c * fz
  {
    hide Sample, Bilinear, Position, Affine;
    SampleAt(g, fx, fz, hx, hz);
    PlaneBilinear(g, a, b, c, fx, fz);
  }

  lemma PlaneAt(g: Grid, a: real, b: real, c: real, ix: nat, iz: nat)
    requires g.Valid() && Affine(g, a, b, c) && ix < g.nx && iz < g.nz
    ensures At(g, ix, iz) == a + b * (ix as real) + c * (iz as real)
  {
  }

  lemma PlaneMix(a: real, b: real, c: real, x: real, x1: real, z: real, z1: real, tx: real, tz: real,
                 h00: real, h10: real, h01: real, h11: real)
    requires x1 == x + 1.0 || (x1 == x && tx == 0.0)
    requires z1 == z + 1.0 || (z1 == z && tz == 0.0)
    requires h00 == a + b * x + c * z && h10 == a + b * x1 + c * z
    requires h01 == a + b * x + c * z1 && h11 == a + b * x1 + c * z1
    ensures Mix(Mix(h00, h10, tx), Mix(h01, h11, tx), tz) == a + b * (x + tx) + c * (z + tz)
  {
    StepMix(h00, b, x, x1, tx, h10);
    StepMix(h01, b, x, x1, tx, h11);
    StepMix(h00 + b * tx, c, z, z1, tz, h01 + b * tx);
    hide Mix;
    assert b * (x + tx) == b * x + b * tx && c * (z + tz) == c * z + c * tz;
  }

  lemma StepMix(p: real, b: real, x: real, x1: real, t: real, r: real)
    requires x1 == x + 1.0 || (x1 == x && t == 0.0)
    requires r == p + (b * x1 - b * x)
    ensures Mix(p, r, t) == p + b * t
  {
    assert b * (x + 1.0) == b * x + b;
    if x1 == x + 1.0 {
      assert p * (1.0 - t) == p - p * t && (p + b) * t == p * t + b * t;
    }
  }

  /** Beyond the border the surface stays at the border's height; half extents too small are raised. */
  lemma SampleClamps(g: Grid, lx: real, lz: real, hx: real, hz: real)
    requires g.Valid() && hx >= MIN_HALF && hz >= MIN_HALF
    ensures lx <= -hx ==> Sample(g, lx, lz, hx, hz) == Sample(g, -hx, lz, hx, hz)
    ensures lx >= hx ==> Sample(g, lx, lz, hx, hz) == Sample(g, hx, lz, hx, hz)
    ensures lz <= -hz ==> Sample(g, lx, lz, hx, hz) == Sample(g, lx, -hz, hx, hz)
    ensures lz >= hz ==> Sample(g, lx, lz, hx, hz) == Sample(g, lx, hz, hx, hz)
  {
    CoordinateClamps(lx, hx, g.nx);
    CoordinateClamps(lz, hz, g.nz);
    hide Coordinate, Bilinear;
  }

  lemma CoordinateClamps(l: real, half: real, n: nat)
    requires half > 0.0 && n >= 2
    ensures l <= -half ==> Coordinate(l, half, n) == Coordinate(-half, half, n)
    ensures l >= half ==> Coordinate(l, half, n) == Coordinate(half, half, n)
  {
    ShareOf(1.0, 2.0 * half);
    if l <= -half {
      Below(l + half, 2.0 * half);
    } else if l >= half {
      Above(l + half, 2.0 * half);
    }
  }

  lemma Below(a: real, c: real)
    requires a <= 0.0 < c
    ensures a / c <= 0.0 && 0.0 / c == 0.0
  {
  }

  lemma Above(a: real, c: real)
    requires a >= c > 0.0
    ensures a / c >= 1.0
  {
  }

  lemma SmallExtents(g: Grid, lx: real, lz: real, hx: real, hz: real)
    requires g.Valid()
    ensures hx < 0.000001 ==> Sample(g, lx, lz, hx, hz) == Sample(g, lx, lz, 0.000001, hz)
    ensures hz < 0.000001 ==> Sample(g, lx, lz, hx, hz) == Sample(g, lx, lz, hx, 0.000001)
  {
    hide Coordinate, Bilinear;
  }
}
