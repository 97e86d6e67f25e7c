/**
 The terrain store's patch table and height arrays
 (engine/engine_terrain_store.mettle:22-35, 90-228, 454-597).
 */
module TerrainTable {
  import opened TerrainSpec

  /** One patch as a value. */
  datatype PatchValue = PatchValue(id: int, grid: Grid, dirty: bool)

  type Table = seq<PatchValue>

  function IndexOf(t: Table, id: int): (i: int)
    ensures -1 <= i < |t|
    ensures i >= 0 ==> t[i].id == id
    ensures i == -1 ==> forall k :: 0 <= k < |t| ==> t[k].id != id
  {
    IndexFrom(t, id, 0)
  }

  function IndexFrom(t: Table, id: int, from: nat): (i: int)
    requires from <= |t|
    ensures i == -1 || from <= i < |t|
    ensures i >= 0 ==> t[i].id == id
    ensures i == -1 ==> forall k :: from <= k < |t| ==> t[k].id != id
    decreases |t| - from
  {
    if from == |t| then -1 else if t[from].id == id then from else IndexFrom(t, id, from + 1)
  }

  /** The last row takes the place of row i. */
  function SwapOut<T>(t: seq<T>, i: nat): seq<T>
    requires i < |t|
  {
    t[i := t[|t| - 1]][..|t| - 1]
  }

  function RemovePatch(t: Table, id: int): Table {
    var i := IndexOf(t, id);
    if i < 0 then t else SwapOut(t, i)
  }

  function AtLeastTwo(n: int): int {
    if n < 2 then 2 else n
  }

  function Flat(nx: nat, nz: nat): Grid {
    Grid(nx, nz, seq(nx * nz, _ => 0.0))
  }

  predicate GridAccepted(id: int, nx: int, nz: int) {
    id > 0 && AtLeastTwo(nx) <= 512 && AtLeastTwo(nz) <= 512
  }

  /** Replacing loses the old grid even when the table turns out to be full. */
  function CreateGrid(t: Table, cap: nat, id: int, nx: int, nz: int): Table {
    if !GridAccepted(id, nx, nz) then t
    else
      var t1 := RemovePatch(t, id);
      if |t1| >= cap then t1 else t1 + [PatchValue(id, Flat(AtLeastTwo(nx), AtLeastTwo(nz)), true)]
  }

  predicate WellFormed(t: Table) {
    && (forall k :: 0 <= k < |t| ==> t[k].id > 0 && t[k].grid.Valid())
    && (forall j, k :: 0 <= j < k < |t| ==> t[j].id != t[k].id)
  }

  /** The cells a brush touches, as the stamp counts them. */
  function TouchedUpTo(d: Disc, sqrt: real -> real, nx: nat, nz: nat, ix: nat, iz: nat): nat
    requires ix <= nx
    decreases iz, ix
  {
    if ix > 0 then
      TouchedUpTo(d, sqrt, nx, nz, ix - 1, iz) + (if Touches(d, sqrt, nx, nz, ix - 1, iz) then 1 else 0)
    else if iz > 0 then TouchedUpTo(d, sqrt, nx, nz, nx, iz - 1)
    else 0
  }

  /** How many cells a stamp on id's patch touches. */
  function TouchedCells(t: Table, id: int, b: Brush, sqrt: real -> real): nat
    requires WellFormed(t)
  {
    var i := IndexOf(t, id);
    if id <= 0 || b.disc.radius <= 0.0 || i < 0 then 0
    else TouchedUpTo(b.disc, sqrt, t[i].grid.nx, t[i].grid.nz, 0, t[i].grid.nz)
  }

  function StampTable(t: Table, id: int, b: Brush, sqrt: real -> real): Table
    requires WellFormed(t)
  {
    var i := IndexOf(t, id);
    if id <= 0 || b.disc.radius <= 0.0 || i < 0 then t
    else
      var g := t[i].grid;
      var touched := TouchedUpTo(b.disc, sqrt, g.nx, g.nz, 0, g.nz);
      t[i := PatchValue(id, Stamp(b, sqrt, g), t[i].dirty || touched > 0)]
  }

  function SetCell(t: Table, id: int, ix: int, iz: int, v: real): Table
    requires WellFormed(t)
  {
    var i := IndexOf(t, id);
    if i < 0 then t
    else
      var g := t[i].grid;
      t[i := PatchValue(id, if 0 <= ix < g.nx && 0 <= iz < g.nz then Set(g, ix, iz, v) else g, true)]
  }

  lemma SwapOutRows<T>(t: seq<T>, i: nat)
    requires i < |t|
    ensures |SwapOut(t, i)| == |t| - 1
    ensures forall k :: 0 <= k < |t| - 1 ==> SwapOut(t, i)[k] == if k == i then t[|t| - 1] else t[k]
    ensures forall k :: 0 <= k < |t| && k != i ==> t[k] in SwapOut(t, i)
  {
    forall k | 0 <= k < |t| && k != i
      ensures t[k] in SwapOut(t, i)
    {
      assert SwapOut(t, i)[if k == |t| - 1 then i else k] == t[k];
    }
  }

  lemma SwapOutLength<T>(t: seq<T>, i: nat)
    requires i < |t|
    ensures |SwapOut(t, i)| == |t| - 1
    ensures forall k :: 0 <= k < |t| - 1 ==> SwapOut(t, i)[k] == t[if k == i then |t| - 1 else k]
  {
  }

  lemma SwapOutIs<T>(t: seq<T>, r: seq<T>, i: nat)
    requires i < |t| && |r| == |t| - 1 && forall k :: 0 <= k < |r| ==> r[k] == t[if k == i then |t| - 1 else k]
    ensures r == SwapOut(t, i)
  {
  }

  lemma RemoveKeeps(t: Table, id: int)
    requires WellFormed(t)
    ensures WellFormed(RemovePatch(t, id)) && IndexOf(RemovePatch(t, id), id) == -1
    ensures forall k :: 0 <= k < |t| && t[k].id != id ==> t[k] in RemovePatch(t, id)
    ensures forall p :: p in RemovePatch(t, id) ==> p in t
  {
    var i := IndexOf(t, id);
    if i >= 0 {
      SwapOutRows(t, i);
    }
  }

  lemma FlatIsValid(nx: nat, nz: nat)
    requires nx >= 2 && nz >= 2
    ensures Flat(nx, nz).Valid()
  {
  }

  lemma CreateKeeps(t: Table, cap: nat, id: int, nx: int, nz: int)
    requires WellFormed(t)
    ensures WellFormed(CreateGrid(t, cap, id, nx, nz))
  {
    RemoveKeeps(t, id);
    FlatIsValid(AtLeastTwo(nx), AtLeastTwo(nz));
    hide RemovePatch, Flat, IndexOf;
  }

  lemma SetCellKeeps(t: Table, id: int, ix: int, iz: int, v: real)
    requires WellFormed(t)
    ensures WellFormed(SetCell(t, id, ix, iz, v))
    ensures IndexOf(t, id) >= 0 ==>
      SetCell(t, id, ix, iz, v) == t[IndexOf(t, id) := SetCell(t, id, ix, iz, v)[IndexOf(t, id)]]
  {
  }

  lemma StampKeeps(t: Table, id: int, b: Brush, sqrt: real -> real)
    requires WellFormed(t)
    ensures WellFormed(StampTable(t, id, b, sqrt))
  {
  }

  /** The stamped patch's row. */
  lemma StampRow(t: Table, id: int, b: Brush, sqrt: real -> real)
    requires WellFormed(t) && IndexOf(t, id) >= 0 && id > 0 && b.disc.radius > 0.0
    ensures var i := IndexOf(t, id); var g := t[i].grid;
      StampTable(t, id, b, sqrt) == t[i := PatchValue(id, Stamp(b, sqrt, g),
        t[i].dirty || TouchedUpTo(b.disc, sqrt, g.nx, g.nz, 0, g.nz) > 0)]
  {
  }
}

module TerrainStore {
  import opened TerrainSpec
  import opened TerrainTable

  /** A slot of the patch table; copying it copies the pointer to the heights. */
  datatype Patch = Patch(heights: array?<real>, id: int, nx: nat, nz: nat, dirty: bool)

  const EMPTY := Patch(null, 0, 0, 0, false)

  /** No two slots point at the same heights. */
  predicate Unshared(ps: seq<Patch>) {
    forall i, j :: 0 <= i < j < |ps| ==> ps[i].heights != ps[j].heights
  }

  ghost predicate Matches(p: Patch, v: PatchValue)
    reads p.heights
  {
    && p.heights != null && p.id == v.id && p.dirty == v.dirty
    && p.nx == v.grid.nx && p.nz == v.grid.nz && p.heights[..] == v.grid.heights
  }

  /** Slot by slot, but for `hole`, the patches show the table through arrays of the footprint. */
  ghost predicate Reflects(ps: seq<Patch>, t: Table, repr: set<object>, hole: int)
    reads repr
  {
    |ps| == |t| && forall i :: 0 <= i < |ps| && i != hole ==> ps[i].heights in repr && Matches(ps[i], t[i])
  }

  lemma ReflectsSwapOut(ps: seq<Patch>, t: Table, repr: set<object>, i: nat)
    requires Reflects(ps, t, repr, -1) && i < |ps|
    ensures i < |t| && Reflects(SwapOut(ps, i), SwapOut(t, i), repr, -1)
  {
    SwapOutLength(ps, i);
    SwapOutLength(t, i);
    hide SwapOut, Matches;
  }

  lemma ReflectsFilled(ps: seq<Patch>, t: Table, repr: set<object>, i: nat, p: Patch, v: PatchValue)
    requires Reflects(ps, t, repr, i) && i < |ps| && p.heights in repr && Matches(p, v)
    ensures i < |t| && Reflects(ps[i := p], t[i := v], repr, -1)
  {
    hide Matches;
  }

  lemma ReflectsAppend(ps: seq<Patch>, t: Table, repr: set<object>, p: Patch, v: PatchValue)
    requires Reflects(ps, t, repr, -1) && Matches(p, v)
    ensures Reflects(ps + [p], t + [v], repr + {p.heights}, -1)
  {
    hide Matches;
  }

  lemma UnsharedSwapOut(ps: seq<Patch>, i: nat)
    requires Unshared(ps) && i < |ps|
    ensures Unshared(SwapOut(ps, i))
  {
    SwapOutLength(ps, i);
    hide SwapOut;
  }

  lemma UnsharedAgain(ps: seq<Patch>, i: nat, p: Patch)
    requires Unshared(ps) && i < |ps| && p.heights == ps[i].heights
    ensures Unshared(ps[i := p])
  {
  }

  lemma UnsharedAppend(ps: seq<Patch>, p: Patch)
    requires Unshared(ps) && forall i :: 0 <= i < |ps| ==> ps[i].heights != p.heights
    ensures Unshared(ps + [p])
  {
  }

  class TerrainStore {
    const patches: array<Patch>
    var count: nat
    ghost var table: Table
    ghost var Repr: set<object>

    /** The height arrays of the footprint. */
    ghost function Arrays(): set<object>
      reads this
    {
      Repr - {this, patches}
    }

    ghost predicate Valid()
      reads this, Repr
      ensures Valid() ==> this in Repr
    {
      && this in Repr && patches in Repr
      && count <= patches.Length && |table| == count && WellFormed(table)
      && Reflects(patches[..count], table, Arrays(), -1)
      && Unshared(patches[..count])
    }

    constructor (requested: int)
      ensures Valid() && fresh(Repr) && table == []
      ensures patches.Length == (if requested <= 0 then 32 else if requested > 512 then 512 else requested)
    {
      var cap := if requested <= 0 then 32 else if requested > 512 then 512 else requested;
      patches := new Patch[cap](_ => EMPTY);
      count := 0;
      table := [];
      new;
      Repr := {this, patches};
    }

    method FindIndex(id: int) returns (index: int)
      requires Valid()
      ensures index == IndexOf(table, id)
    {
      index := 0;
      while index < count
        invariant 0 <= index <= count && IndexFrom(table, id, index) == IndexOf(table, id)
      {
        if patches[index].id == id {
          return;
        }
        index := index + 1;
      }
      index := -1;
    }

    method Clear()
      requires Valid()
      modifies this`count, this`table
      ensures Valid() && table == []
    {
      count := 0;
      table := [];
    }

    /** Free the patch and copy the last slot over it. */
    method Remove(id: int)
      requires Valid()
      modifies this`count, this`table, patches
      ensures Valid() && table == RemovePatch(old(table), id)
    {
      var index := FindIndex(id);
      if index < 0 {
        return;
      }
      RemoveAt(index, id);
    }

    method RemoveAt(index: nat, ghost id: int)
      requires Valid() && index < count && index == IndexOf(table, id)
      modifies this`count, this`table, patches
      ensures Valid() && table == SwapOut(old(table), index)
    {
      ghost var ps := patches[..count];
      RemoveKeeps(table, id);
      UnsharedSwapOut(ps, index);
      ReflectsSwapOut(ps, table, Arrays(), index);
      SwapOutLength(table, index);
      assert WellFormed(SwapOut(table, index));
      hide WellFormed, SwapOut, IndexOf, Unshared, Reflects, RemovePatch;
      DropSlot(index);
      SwapOutIs(ps, patches[..count], index);
      table := SwapOut(table, index);
    }

    method DropSlot(index: nat)
      requires index < count <= patches.Length
      modifies this`count, patches
      ensures count == old(count) - 1
      ensures forall k :: 0 <= k < count ==> patches[k] == old(patches[if k == index then count - 1 else k])
    {
      var last := count - 1;
      patches[index] := EMPTY;
      if index != last {
        patches[index] := patches[last];
      }
      count := count - 1;
    }

    method CreateGrid(id: int, nx0: int, nz0: int) returns (ok: bool)
      requires Valid()
      modifies this, patches
      ensures Valid() && fresh(Repr - old(Repr))
      ensures table == TerrainTable.CreateGrid(old(table), patches.Length, id, nx0, nz0)
      ensures ok == (GridAccepted(id, nx0, nz0) && |RemovePatch(old(table), id)| < patches.Length)
    {
      if id <= 0 {
        return false;
      }
      var nx := if nx0 < 2 then 2 else nx0;
      var nz := if nz0 < 2 then 2 else nz0;
      if nx > 512 || nz > 512 {
        return false;
      }
      Remove(id);
      ok := AddFlat(id, nx, nz);
    }

    /** A zeroed grid in the first free slot, if there is one. */
    method AddFlat(id: int, nx: nat, nz: nat) returns (ok: bool)
      requires Valid() && id > 0 && nx >= 2 && nz >= 2 && forall k :: 0 <= k < |table| ==> table[k].id != id
      modifies this, patches
      ensures Valid() && fresh(Repr - old(Repr)) && ok == (|old(table)| < patches.Length)
      ensures table == if ok then old(table) + [PatchValue(id, Flat(nx, nz), true)] else old(table)
    {
      if count >= patches.Length {
        return false;
      }
      var heights := new real[nx * nz](_ => 0.0);
      assert heights[..] == Flat(nx, nz).heights;
      FlatIsValid(nx, nz);
      AppendPatch(heights, id, nx, nz, true);
      ok := true;
    }

    /** Fill the slot past the live ones. */
    method AppendPatch(heights: array<real>, id: int, nx: nat, nz: nat, dirty: bool)
      requires Valid() && count < patches.Length && heights !in Repr
      requires WellFormed(table + [PatchValue(id, Grid(nx, nz, heights[..]), dirty)])
      modifies this`count, this`table, this`Repr, patches
      ensures Valid() && Repr == old(Repr) + {heights}
      ensures table == old(table) + [PatchValue(id, Grid(nx, nz, old(heights[..])), dirty)]
    {
      ghost var ps := patches[..count];
      UnsharedAppend(ps, Patch(heights, id, nx, nz, dirty));
      ReflectsAppend(ps, table, Arrays(), Patch(heights, id, nx, nz, dirty), PatchValue(id, Grid(nx, nz, heights[..]), dirty));
      hide WellFormed, Unshared, Reflects, Matches;
      patches[count] := Patch(heights, id, nx, nz, dirty);
      count := count + 1;
      assert patches[..count] == ps + [Patch(heights, id, nx, nz, dirty)];
      table := table + [PatchValue(id, Grid(nx, nz, heights[..]), dirty)];
      Repr := Repr + {heights};
    }

    /** Replace everything by copies of the other store's patches. */
    method CopyFrom(src: TerrainStore)
      requires Valid() && src.Valid() && Repr !! src.Repr
      modifies this`count, this`table, this`Repr, patches
      ensures Valid() && fresh(Repr - old(Repr))
      ensures table == if |src.table| <= patches.Length then src.table else src.table[..patches.Length]
    {
      Clear();
      var si := 0;
      while si < src.count
        invariant 0 <= si <= src.count
        invariant Valid() && fresh(Repr - old(Repr)) && src.Valid() && Repr !! src.Repr
        invariant src.count == old(src.count) && src.table == old(src.table)
        invariant table == src.table[..if si <= patches.Length then si else patches.Length]
      {
        var sp := src.patches[si];
        if sp.heights != null && sp.nx >= 2 && sp.nz >= 2 && count < patches.Length {
          CopyPatch(sp, src.table[si], si, src);
        }
        si := si + 1;
      }
    }

    method CopyPatch(sp: Patch, ghost v: PatchValue, ghost si: nat, ghost src: TerrainStore)
      requires Valid() && Matches(sp, v) && count < patches.Length
      requires WellFormed(table + [v])
      modifies this`count, this`table, this`Repr, patches
      ensures Valid() && fresh(Repr - old(Repr)) && table == old(table) + [v]
    {
      var heights := new real[sp.heights.Length];
      var i := 0;
      while i < sp.heights.Length
        invariant 0 <= i <= sp.heights.Length
        invariant heights[..i] == sp.heights[..i]
        modifies heights
      {
        heights[i] := sp.heights[i];
        i := i + 1;
      }
      assert heights[..] == heights[..i] && sp.heights[..] == sp.heights[..i];
      AppendPatch(heights, sp.id, sp.nx, sp.nz, sp.dirty);
    }

    /** Store slot `index` again, its heights having been written. */
    method PutSlot(index: nat, p: Patch, ghost v: PatchValue)
      requires index < count <= patches.Length && this in Repr && patches in Repr && |table| == count
      requires Reflects(patches[..count], table, Arrays(), index) && Unshared(patches[..count])
      requires p.heights == patches[index].heights && p.heights in Arrays() && Matches(p, v)
      requires WellFormed(table[index := v])
      modifies this`table, patches
      ensures Valid() && table == old(table)[index := v]
    {
      ghost var ps := patches[..count];
      ReflectsFilled(ps, table, Arrays(), index, p, v);
      UnsharedAgain(ps, index, p);
      hide WellFormed, Unshared, Reflects, Matches;
      patches[index] := p;
      assert patches[..count] == ps[index := p];
      table := table[index := v];
    }

    method SetCell(id: int, ix: int, iz: int, v: real)
      requires Valid()
      modifies Repr
      ensures Valid() && Repr == old(Repr) && table == TerrainTable.SetCell(old(table), id, ix, iz, v)
    {
      var index := FindIndex(id);
      if index < 0 {
        return;
      }
      var p := patches[index];
      ghost var ps, row := patches[..count], TerrainTable.SetCell(table, id, ix, iz, v)[index];
      assert ps[index] == p && Matches(p, table[index]);
      SetCellKeeps(table, id, ix, iz, v);
      if 0 <= ix < p.nx && 0 <= iz < p.nz {
        CellInRange(p.nx, p.nz, ix, iz);
        p.heights[iz * p.nx + ix] := v;
      }
      assert Matches(p.(dirty := true), row);
      assert Reflects(ps, table, Arrays(), index);
      hide WellFormed, Unshared, Reflects, Matches, IndexOf;
      PutSlot(index, p.(dirty := true), row);
    }

    method Sample(id: int, lx: real, lz: real, hx: real, hz: real) returns (h: real)
      requires Valid()
      ensures h == var i := IndexOf(table, id); if i < 0 then 0.0 else TerrainSpec.Sample(table[i].grid, lx, lz, hx, hz)
    {
      var index := FindIndex(id);
      if index < 0 {
        return 0.0;
      }
      var p := patches[index];
      ghost var g := table[index].grid;
      var ax, az := if hx < MIN_HALF then MIN_HALF else hx, if hz < MIN_HALF then MIN_HALF else hz;
      CoordinateInRange(lx, ax, p.nx);
      CoordinateInRange(lz, az, p.nz);
      var fx := Clamp01((lx + ax) / (2.0 * ax)) * (p.nx as real - 1.0);
      var fz := Clamp01((lz + az) / (2.0 * az)) * (p.nz as real - 1.0);
      assert fx == Coordinate(lx, ax, p.nx) && fz == Coordinate(lz, az, p.nz);
      hide Coordinate, TerrainSpec.Bilinear;
      h := Bilinear(p, g, fx, fz);
    }

    method Bilinear(p: Patch, ghost g: Grid, fx: real, fz: real) returns (h: real)
      requires p.heights != null && p.heights[..] == g.heights && p.nx == g.nx && p.nz == g.nz && g.Valid()
      requires 0.0 <= fx <= g.nx as real - 1.0 && 0.0 <= fz <= g.nz as real - 1.0
      ensures h == TerrainSpec.Bilinear(g, fx, fz)
    {
      var ix0, iz0 := fx.Floor, fz.Floor;
      var ix1 := if ix0 + 1 >= p.nx then p.nx - 1 else ix0 + 1;
      var iz1 := if iz0 + 1 >= p.nz then p.nz - 1 else iz0 + 1;
      hide At;
      var h00 := HeightAt(p, g, ix0, iz0);
      var h10 := HeightAt(p, g, ix1, iz0);
      var h01 := HeightAt(p, g, ix0, iz1);
      var h11 := HeightAt(p, g, ix1, iz1);
      var tx, tz := fx - ix0 as real, fz - iz0 as real;
      hide Mix;
      var h0 := Weigh(h00, h10, tx);
      var h1 := Weigh(h01, h11, tx);
      h := Weigh(h0, h1, tz);
    }

    method Weigh(a: real, b: real, t: real) returns (h: real)
      ensures h == Mix(a, b, t)
    {
      h := a * (1.0 - t) + b * t;
    }

    method HeightAt(p: Patch, ghost g: Grid, ix: nat, iz: nat) returns (h: real)
      requires p.heights != null && p.heights[..] == g.heights && p.nx == g.nx && p.nz == g.nz && g.Valid()
      requires ix < p.nx && iz < p.nz
      ensures h == At(g, ix, iz)
    {
      CellInRange(p.nx, p.nz, ix, iz);
      h := p.heights[iz * p.nx + ix];
    }

    /** One cell of a stamp; the neighbours read may have been stamped already. */
    method StampCell(b: Brush, sqrt: real -> real, target: real, p: Patch, ghost g: Grid, ix: nat, iz: nat)
      returns (hit: bool)
      requires p.heights != null && p.heights[..] == g.heights && p.nx == g.nx && p.nz == g.nz && g.Valid()
      requires ix < p.nx && iz < p.nz && b.disc.radius > 0.0
      modifies p.heights
      ensures p.heights[..] == TerrainSpec.StampCell(b, sqrt, target, g, ix, iz).heights
      ensures hit == Touches(b.disc, sqrt, g.nx, g.nz, ix, iz)
    {
      var dist := Distance(b.disc, sqrt, p.nx, p.nz, ix, iz);
      hit := dist < b.disc.radius;
      if hit {
        var v := CellHeight(b, dist, target, p, g, ix, iz, sqrt);
        CellInRange(p.nx, p.nz, ix, iz);
        p.heights[iz * p.nx + ix] := v;
      }
    }

    method CellHeight(b: Brush, dist: real, target: real, p: Patch, ghost g: Grid, ix: nat, iz: nat, ghost sqrt: real -> real)
      returns (v: real)
      requires p.heights != null && p.heights[..] == g.heights && p.nx == g.nx && p.nz == g.nz && g.Valid()
      requires ix < p.nx && iz < p.nz && b.disc.radius > 0.0
      requires dist == Distance(b.disc, sqrt, p.nx, p.nz, ix, iz)
      ensures v == NewHeight(b, sqrt, target, g, ix, iz)
    {
      hide Fall, Distance, At;
      var fall := FallOff(b, dist, p.nx, p.nz, ix, iz, sqrt);
      var cur := HeightAt(p, g, ix, iz);
      match Effective(b) {
        case Raise =>
          v := cur + b.strength * fall;
        case Lower =>
          v := cur - b.strength * fall;
        case Flatten =>
          v := cur + (target - cur) * fall * 0.25;
        case Smooth =>
          var avg := NeighbourMean(p, g, ix, iz);
          v := cur + (avg - cur) * fall * 0.5;
      }
    }

    /** The square of the distance left to the rim. */
    method FallOff(b: Brush, dist: real, ghost nx: nat, ghost nz: nat, ghost ix: nat, ghost iz: nat, ghost sqrt: real -> real)
      returns (fall: real)
      requires ix < nx && iz < nz && nx >= 2 && nz >= 2 && b.disc.radius > 0.0 && dist == Distance(b.disc, sqrt, nx, nz, ix, iz)
      ensures fall == Fall(b.disc, sqrt, nx, nz, ix, iz)
    {
      var t := 1.0 - dist / b.disc.radius;
      fall := t * t;
    }

    method NeighbourMean(p: Patch, ghost g: Grid, ix: nat, iz: nat) returns (avg: real)
      requires p.heights != null && p.heights[..] == g.heights && p.nx == g.nx && p.nz == g.nz && g.Valid()
      requires ix < p.nx && iz < p.nz
      ensures avg == Average(g, ix, iz)
    {
      hide At;
      var acc := HeightAt(p, g, ix, iz);
      var cnt := 1;
      if ix + 1 < p.nx {
        var h := HeightAt(p, g, ix + 1, iz);
        acc, cnt := acc + h, cnt + 1;
      }
      if ix >= 1 {
        var h := HeightAt(p, g, ix - 1, iz);
        acc, cnt := acc + h, cnt + 1;
      }
      if iz + 1 < p.nz {
        var h := HeightAt(p, g, ix, iz + 1);
        acc, cnt := acc + h, cnt + 1;
      }
      if iz >= 1 {
        var h := HeightAt(p, g, ix, iz - 1);
        acc, cnt := acc + h, cnt + 1;
      }
      avg := acc / (cnt as real);
    }

    /** Both loops of a stamp over one patch. */
    method StampPatch(b: Brush, sqrt: real -> real, target: real, p: Patch, ghost g: Grid) returns (touched: nat)
      requires p.heights != null && p.heights[..] == g.heights && p.nx == g.nx && p.nz == g.nz && g.Valid()
      requires b.disc.radius > 0.0
      modifies p.heights
      ensures p.heights[..] == StampUpTo(b, sqrt, target, g, 0, g.nz).heights
      ensures touched == TouchedUpTo(b.disc, sqrt, g.nx, g.nz, 0, g.nz)
    {
      touched := 0;
      var iz := 0;
      while iz < p.nz
        invariant 0 <= iz <= p.nz
        invariant p.heights[..] == StampUpTo(b, sqrt, target, g, 0, iz).heights
        invariant touched == TouchedUpTo(b.disc, sqrt, g.nx, g.nz, 0, iz)
      {
        var ix := 0;
        while ix < p.nx
          invariant 0 <= ix <= p.nx
          invariant p.heights[..] == StampUpTo(b, sqrt, target, g, ix, iz).heights
          invariant touched == TouchedUpTo(b.disc, sqrt, g.nx, g.nz, ix, iz)
        {
          hide TerrainSpec.StampCell, Touches;
          var hit := StampCell(b, sqrt, target, p, StampUpTo(b, sqrt, target, g, ix, iz), ix, iz);
          if hit {
            touched := touched + 1;
          }
          ix := ix + 1;
        }
        iz := iz + 1;
      }
    }

    method BrushStamp(id: int, b: Brush, sqrt: real -> real) returns (touched: nat)
      requires Valid()
      modifies Repr
      ensures Valid() && Repr == old(Repr) && table == StampTable(old(table), id, b, sqrt)
      ensures touched == TouchedCells(old(table), id, b, sqrt)
    {
      if id <= 0 || b.disc.radius <= 0.0 {
        return 0;
      }
      var index := FindIndex(id);
      if index < 0 {
        return 0;
      }
      var p := patches[index];
      ghost var ps, g, t := patches[..count], table[index].grid, table;
      assert ps[index] == p && Matches(p, table[index]);
      StampKeeps(t, id, b, sqrt);
      ghost var row := StampTable(t, id, b, sqrt)[index];
      hide Stamp, TerrainSpec.Sample, StampUpTo, TouchedUpTo, StampTable, WellFormed;
      StampRow(t, id, b, sqrt);
      var target := Sample(id, b.disc.cx, b.disc.cz, AtLeast(b.disc.hx), AtLeast(b.disc.hz));
      touched := StampPatch(b, sqrt, target, p, g);
      assert Reflects(ps, t, Arrays(), index);
      hide Unshared, Reflects, IndexOf;
      PutSlot(index, if touched > 0 then p.(dirty := true) else p, row);
    }
  }
}
