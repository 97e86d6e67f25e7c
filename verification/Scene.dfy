/**
 The scene object: a fixed array of rows and the terrain store it owns
 (engine/engine_scene.mettle:257-400, 939-1010, 1100-1225, 1277-1308).
 */
module Scene {
  import opened TerrainSpec
  import opened TerrainTable
  import opened SceneSpec
  import TS = TerrainStore

  const NO_ENTITY := Entity(0, 0, 0, 0.0, 0.0, 0.0, 0.0, "")

  function DropRowValue(s: SceneValue, index: nat): SceneValue
    requires index < |s.rows|
  {
    s.(rows := SwapOut(s.rows, index))
  }

  function ForgetValue(s: SceneValue, id: int): SceneValue {
    s.(rows := Orphan(s.rows, id),
       selected := if s.selected == id then 0 else s.selected, hover := if s.hover == id then 0 else s.hover)
  }

  /** Removal in the order the code does it. */
  lemma RemoveParts(s: SceneValue, id: int)
    ensures SceneSpec.Live(s.rows, id) <==> RowOf(s.rows, id) >= 0
    ensures RowOf(s.rows, id) < 0 ==> SceneSpec.Remove(s, id) == s
    ensures var i := RowOf(s.rows, id);
      i >= 0 ==>
        var d := DropRowValue(s, i);
        SceneSpec.Remove(s, id) == ForgetValue(d.(terrain := RemovePatch(d.terrain, id)), id)
  {
    hide RowOf, SwapOut, Orphan, RemovePatch;
  }

  class Scene {
    const rows: array<Entity>
    const terrain: TS.TerrainStore
    var count: nat
    var selected: int
    var hover: int
    var nextId: int

    ghost predicate Valid()
      reads this, rows, terrain, terrain.Repr
      ensures Valid() ==> terrain.Valid()
    {
      && terrain.Valid() && this !in terrain.Repr && rows !in terrain.Repr
      && count <= rows.Length
    }

    ghost function Live(): seq<Entity>
      reads this, rows
      requires count <= rows.Length
    {
      rows[..count]
    }

    ghost function Value(): SceneValue
      reads this, rows, terrain, terrain.Repr
      requires Valid()
    {
      SceneValue(Live(), rows.Length, selected, hover, nextId, terrain.table, terrain.patches.Length)
    }

    ghost function Repr(): set<object>
      reads this, terrain
    {
      {this, rows} + terrain.Repr
    }

    constructor (requested: int)
      ensures Valid() && fresh(Repr())
      ensures Value() == SceneValue([], if requested <= 0 then 256 else if requested > 8192 then 8192 else requested,
                                    0, 0, 1, [], 128)
    {
      var cap := if requested <= 0 then 256 else if requested > 8192 then 8192 else requested;
      var store := new TS.TerrainStore(128);
      rows := new Entity[cap](_ => NO_ENTITY);
      terrain := store;
      count, selected, hover, nextId := 0, 0, 0, 1;
    }

    method IndexOf(id: int) returns (i: int)
      requires Valid()
      ensures i == RowOf(Live(), id)
    {
      if id == 0 {
        return -1;
      }
      i := 0;
      while i < count
        invariant 0 <= i <= count && RowFrom(Live(), id, i) == RowFrom(Live(), id, 0)
      {
        if rows[i].id == id {
          return;
        }
        i := i + 1;
      }
      i := -1;
    }

    /** Climb at most 256 links. */
    method IsDescendant(from: int, goal: int) returns (b: bool)
      requires Valid()
      ensures b == Climbs(Live(), from, goal, CLIMB_LIMIT)
    {
      var cur, guard := from, 0;
      while cur != 0 && guard < 256
        invariant 0 <= guard <= 256
        invariant Climbs(Live(), cur, goal, 256 - guard) == Climbs(Live(), from, goal, CLIMB_LIMIT)
        decreases 256 - guard
      {
        if cur == goal {
          return true;
        }
        var i := IndexOf(cur);
        if i < 0 {
          return false;
        }
        cur := rows[i].parentId;
        guard := guard + 1;
      }
      b := false;
    }

    method SetParent(child: int, parent: int) returns (ok: bool)
      requires Valid()
      modifies rows
      ensures Valid() && Value() == SceneSpec.SetParent(old(Value()), child, parent)
      ensures ok == ParentAccepted(old(Value()), child, parent)
    {
      if child == 0 {
        return false;
      }
      var i := IndexOf(child);
      if i < 0 {
        return false;
      }
      if parent == child {
        return false;
      }
      if parent != 0 {
        var p := IndexOf(parent);
        if p < 0 {
          return false;
        }
        var cyclic := IsDescendant(parent, child);
        if cyclic {
          return false;
        }
      }
      rows[i] := rows[i].(parentId := parent);
      ok := true;
    }

    method Add(kind: int, x: real, y: real, z: real, half: real) returns (id: int)
      requires Valid()
      modifies this`count, this`nextId, rows
      ensures Valid() && Value() == SceneSpec.Add(old(Value()), kind, x, y, z, half)
      ensures id == if old(count) < rows.Length then old(nextId) else 0
    {
      if count >= rows.Length {
        return 0;
      }
      id := nextId;
      rows[count] := Entity(id, kind, 0, x, y, z, if half <= 0.0 then 1.0 else half, "");
      nextId := id + 1;
      count := count + 1;
    }

    method Remove(id: int) returns (removed: bool)
      requires Valid()
      modifies this`count, this`selected, this`hover, rows
      modifies terrain`count, terrain`table, terrain.patches
      ensures Valid() && terrain.Repr == old(terrain.Repr)
      ensures Value() == SceneSpec.Remove(old(Value()), id)
      ensures removed == SceneSpec.Live(old(Live()), id)
    {
      var index := IndexOf(id);
      RemoveParts(Value(), id);
      assert Value().rows == Live() && index < count;
      hide *;
      if index < 0 {
        return false;
      }
      DropRow(index);
      RemoveTerrain(id);
      Forget(id);
      removed := true;
    }

    /** Copy the last row over this one. */
    method DropRow(index: nat)
      requires Valid() && index < count
      modifies this`count, rows
      ensures Valid() && Value() == DropRowValue(old(Value()), index)
    {
      var last := count - 1;
      if index != last {
        rows[index] := rows[last];
      }
      count := count - 1;
    }

    method RemoveTerrain(id: int)
      requires Valid()
      modifies terrain`count, terrain`table, terrain.patches
      ensures Valid() && terrain.Repr == old(terrain.Repr)
      ensures Value() == old(Value()).(terrain := RemovePatch(old(Value()).terrain, id))
    {
      hide RemovePatch;
      terrain.Remove(id);
    }

    /** Clear every mention of the id. */
    method Forget(id: int)
      requires Valid()
      modifies this`selected, this`hover, rows
      ensures Valid() && Value() == ForgetValue(old(Value()), id)
    {
      if selected == id {
        selected := 0;
      }
      if hover == id {
        hover := 0;
      }
      hide Orphan;
      OrphanRows(id);
    }

    method OrphanRows(id: int)
      requires Valid()
      modifies rows
      ensures Valid() && Live() == Orphan(old(Live()), id)
    {
      ghost var before := Live();
      var i := 0;
      while i < count
        invariant 0 <= i <= count
        invariant forall k :: 0 <= k < i ==>
          rows[k] == if before[k].parentId == id then before[k].(parentId := 0) else before[k]
        invariant forall k :: i <= k < count ==> rows[k] == before[k]
      {
        if rows[i].parentId == id {
          rows[i] := rows[i].(parentId := 0);
        }
        i := i + 1;
      }
    }

    method SetSelected(id: int)
      requires Valid()
      modifies this`selected
      ensures Valid() && Value() == SceneSpec.SetSelected(old(Value()), id)
    {
      var i := IndexOf(id);
      selected := if id != 0 && i < 0 then 0 else id;
    }

    method SetHover(id: int)
      requires Valid()
      modifies this`hover
      ensures Valid() && Value() == SceneSpec.SetHover(old(Value()), id)
    {
      hover := id;
    }

    method Move(id: int, x: real, y: real, z: real)
      requires Valid()
      modifies rows
      ensures Valid() && Value() == MoveEntity(old(Value()), id, x, y, z)
    {
      var i := IndexOf(id);
      if i >= 0 {
        rows[i] := rows[i].(posX := x, posY := y, posZ := z);
      }
    }

    method HoldsTerrain(id: int) returns (b: bool)
      requires Valid()
      ensures b == IsTerrain(Value(), id)
    {
      var i := IndexOf(id);
      b := i >= 0 && rows[i].kind == SK_TERRAIN;
    }

    method StorePath(id: int, path: string)
      requires Valid()
      modifies rows
      ensures Valid() && Value() == SetMeshPath(old(Value()), id, path)
    {
      var i := IndexOf(id);
      if i >= 0 {
        rows[i] := rows[i].(meshPath := if |path| < 520 then path else path[..519]);
      }
    }

    /** Store the path, give a terrain entity a grid and set every cell from h. */
    method BindTerrain(id: int, nx: int, nz: int, h: (nat, nat) -> real, path: string) returns (ok: bool)
      requires Valid()
      modifies rows, terrain.Repr
      ensures Valid() && fresh(terrain.Repr - old(terrain.Repr))
      ensures Value() == SceneSpec.BindTerrain(old(Value()), id, nx, nz, h, path)
      ensures ok == Bindable(old(Value()), id, nx, nz)
    {
      hide Valid, Value, IsTerrain, TerrainTable.CreateGrid, FillUpTo, RemovePatch, GridAccepted, SetMeshPath;
      var isTerrain := HoldsTerrain(id);
      PathLeavesTerrain(Value(), id, path);
      if !isTerrain {
        return false;
      }
      StorePath(id, path);
      ok := NewGrid(id, nx, nz);
      if ok {
        FillTerrain(id, if nx < 2 then 2 else nx, if nz < 2 then 2 else nz, h);
      }
    }

    lemma PathLeavesTerrain(s: SceneValue, id: int, path: string)
      ensures var r := SetMeshPath(s, id, path);
        && r.terrain == s.terrain && r.patchCap == s.patchCap && (IsTerrain(r, id) <==> IsTerrain(s, id))
    {
      if SceneSpec.Live(s.rows, id) {
        var r := SetMeshPath(s, id, path).rows;
        SameRowOf(s.rows, r, id, 0);
      }
    }

    lemma {:induction false} SameRowOf(a: seq<Entity>, b: seq<Entity>, id: int, from: nat)
      requires |a| == |b| && from <= |a| && forall k :: 0 <= k < |a| ==> a[k].id == b[k].id
      ensures RowFrom(a, id, from) == RowFrom(b, id, from)
      decreases |a| - from
    {
      if from < |a| {
        SameRowOf(a, b, id, from + 1);
      }
    }

    method NewGrid(id: int, nx: int, nz: int) returns (ok: bool)
      requires Valid()
      modifies terrain.Repr
      ensures Valid() && fresh(terrain.Repr - old(terrain.Repr))
      ensures var s := old(Value());
        && Value() == s.(terrain := TerrainTable.CreateGrid(s.terrain, s.patchCap, id, nx, nz))
        && ok == (GridAccepted(id, nx, nz) && |RemovePatch(s.terrain, id)| < s.patchCap)
    {
      hide TerrainTable.CreateGrid, RemovePatch, GridAccepted;
      ok := terrain.CreateGrid(id, nx, nz);
    }

    method FillTerrain(id: int, nx: nat, nz: nat, h: (nat, nat) -> real)
      requires Valid()
      modifies terrain.Repr
      ensures Valid() && terrain.Repr == old(terrain.Repr)
      ensures var s := old(Value()); Value() == s.(terrain := FillUpTo(s.terrain, id, h, nx, 0, nz))
    {
      var iz := 0;
      while iz < nz
        invariant 0 <= iz <= nz
        invariant Valid() && terrain.Repr == old(terrain.Repr)
        invariant terrain.table == FillUpTo(old(terrain.table), id, h, nx, 0, iz)
      {
        var ix := 0;
        while ix < nx
          invariant 0 <= ix <= nx
          invariant Valid() && terrain.Repr == old(terrain.Repr)
          invariant terrain.table == FillUpTo(old(terrain.table), id, h, nx, ix, iz)
        {
          terrain.SetCell(id, ix, iz, h(ix, iz));
          ix := ix + 1;
        }
        iz := iz + 1;
      }
    }

    /** Overwrite this scene with the other one. */
    method CopyFrom(src: Scene) returns (ok: bool)
      requires Valid() && src.Valid() && Repr() !! src.Repr()
      modifies this, rows, terrain.Repr
      ensures Valid() && fresh(terrain.Repr - old(terrain.Repr)) && ok == (src.count <= rows.Length)
      ensures Value() == CopyInto(old(Value()), old(src.Value()))
    {
      if rows.Length < src.count {
        return false;
      }
      CopyRows(src);
      terrain.CopyFrom(src.terrain);
      ok := true;
    }

    method CopyRows(src: Scene)
      requires Valid() && src.Valid() && Repr() !! src.Repr() && src.count <= rows.Length
      modifies this, rows
      ensures Valid() && src.Value() == old(src.Value())
      ensures Live() == src.Live() && selected == src.selected && hover == src.hover && nextId == src.nextId
    {
      count, selected, hover, nextId := src.count, src.selected, src.hover, src.nextId;
      forall k | 0 <= k < src.count {
        rows[k] := src.rows[k];
      }
    }

    method SetCell(id: int, ix: int, iz: int, v: real)
      requires Valid()
      modifies terrain.Repr
      ensures Valid() && terrain.Repr == old(terrain.Repr)
      ensures var s := old(Value()); Value() == s.(terrain := TerrainTable.SetCell(s.terrain, id, ix, iz, v))
    {
      terrain.SetCell(id, ix, iz, v);
    }

    method Stamp(id: int, brush: Brush, sqrt: real -> real)
      requires Valid()
      modifies terrain.Repr
      ensures Valid() && terrain.Repr == old(terrain.Repr)
      ensures var s := old(Value()); Value() == s.(terrain := StampTable(s.terrain, id, brush, sqrt))
    {
      var _ := terrain.BrushStamp(id, brush, sqrt);
    }

    /** Any one edit. */
    method Edit(op: SceneOp)
      requires Valid()
      modifies this, rows, terrain.Repr
      ensures Valid() && fresh(terrain.Repr - old(terrain.Repr))
      ensures Value() == Apply(old(Value()), op)
    {
      hide Valid, Value, SceneSpec.Add, SceneSpec.Remove, SceneSpec.SetParent, SceneSpec.SetSelected, MoveEntity,
        SceneSpec.BindTerrain, TerrainTable.SetCell, StampTable;
      match op {
        case OpAdd(kind, x, y, z, half) => var _ := Add(kind, x, y, z, half);
        case OpRemove(id) => var _ := Remove(id);
        case OpSetParent(child, parent) => var _ := SetParent(child, parent);
        case OpSelect(id) => SetSelected(id);
        case OpHover(id) => SetHover(id);
        case OpMove(id, x, y, z) => Move(id, x, y, z);
        case OpBind(id, nx, nz, h, path) => var _ := BindTerrain(id, nx, nz, h, path);
        case OpSetCell(id, ix, iz, v) => SetCell(id, ix, iz, v);
        case OpStamp(id, brush, sqrt) => Stamp(id, brush, sqrt);
      }
    }

    method EditAll(ops: seq<SceneOp>)
      requires Valid()
      modifies this, rows, terrain.Repr
      ensures Valid() && fresh(terrain.Repr - old(terrain.Repr))
      ensures Value() == Run(old(Value()), ops)
    {
      var i := 0;
      while i < |ops|
        invariant 0 <= i <= |ops|
        invariant Valid() && fresh(terrain.Repr - old(terrain.Repr))
        invariant Value() == Run(old(Value()), ops[..i])
      {
        Edit(ops[i]);
        i := i + 1;
        assert ops[..i][..i - 1] == ops[..i - 1];
      }
      assert ops[..i] == ops;
    }
  }
}
