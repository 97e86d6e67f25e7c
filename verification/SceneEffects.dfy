/**
 What each scene operation changes and what it leaves alone, told by looking entities and
 patches up by id (engine/engine_scene.mettle:957-1210, 1229-1308).
 */
module SceneEffects {
  import opened TerrainSpec
  import opened TerrainTable
  import opened SceneSpec
  import opened SceneTheorems

  function Row(s: SceneValue, id: int): Entity
    requires Live(s.rows, id)
  {
    s.rows[RowOf(s.rows, id)]
  }

  /** Entity x is in both scenes with the same fields, or in neither. */
  predicate Same(s: SceneValue, r: SceneValue, x: int) {
    (Live(r.rows, x) <==> Live(s.rows, x)) && (Live(s.rows, x) ==> Row(r, x) == Row(s, x))
  }

  /** Everything but the rows and their number. */
  predicate SameRest(s: SceneValue, r: SceneValue) {
    && r.cap == s.cap && r.patchCap == s.patchCap && r.terrain == s.terrain
    && r.selected == s.selected && r.hover == s.hover && r.nextId == s.nextId
  }

  lemma RowAt(s: SceneValue, k: nat)
    requires UniqueIds(s.rows, s.nextId) && k < |s.rows|
    ensures Live(s.rows, s.rows[k].id) && Row(s, s.rows[k].id) == s.rows[k]
  {
    LiveAt(s.rows, s.nextId, k);
  }

  /** Adding to a scene with room makes the next id a root with the given fields and leaves every other entity alone. */
  lemma AddEffect(s: SceneValue, kind: int, x: real, y: real, z: real, half: real, other: int)
    requires Sound(s) && |s.rows| < s.cap
    ensures var r := Apply(s, OpAdd(kind, x, y, z, half));
      && Live(r.rows, s.nextId)
      && Row(r, s.nextId) == Entity(s.nextId, kind, 0, x, y, z, if half > 0.0 then half else 1.0, "")
      && (other != s.nextId ==> Same(s, r, other))
      && SameRest(s, r.(nextId := s.nextId)) && r.nextId == s.nextId + 1 && |r.rows| == |s.rows| + 1
  {
    IdsUnique(s);
    AddSound(s, kind, x, y, z, half);
    var r := Apply(s, OpAdd(kind, x, y, z, half));
    IdsUnique(r);
    hide Sound, UniqueIds;
    RowAt(r, |s.rows|);
    if Live(s.rows, other) {
      var k := RowOf(s.rows, other);
      assert r.rows[k] == s.rows[k];
      RowAt(r, k);
    }
  }

  lemma IdsUnique(s: SceneValue)
    requires Sound(s)
    ensures UniqueIds(s.rows, s.nextId)
  {
  }

  /** A full scene takes no more. */
  lemma FullEffect(s: SceneValue, kind: int, x: real, y: real, z: real, half: real)
    requires WellFormed(s.terrain) && |s.rows| >= s.cap
    ensures Apply(s, OpAdd(kind, x, y, z, half)) == s
  {
  }

  /**
   Removing an entity takes it and its patch, unmarks it, makes roots of its children, and leaves
   every other entity and every other patch alone.
   */
  lemma RemoveEffect(s: SceneValue, id: int, other: int)
    requires Sound(s) && Live(s.rows, id)
    ensures var r := Apply(s, OpRemove(id));
      && (Live(r.rows, other) <==> other != id && Live(s.rows, other)) && |r.rows| == |s.rows| - 1
      && (Live(r.rows, other) ==>
            Row(r, other) == if Row(s, other).parentId == id then Row(s, other).(parentId := 0) else Row(s, other))
      && r.selected == (if s.selected == id then 0 else s.selected) && r.hover == (if s.hover == id then 0 else s.hover)
      && r.nextId == s.nextId && r.cap == s.cap && r.patchCap == s.patchCap
      && IndexOf(r.terrain, id) == -1
      && (forall p :: p in r.terrain <==> p in s.terrain && p.id != id)
  {
    var r := Apply(s, OpRemove(id));
    IdsUnique(s);
    RemoveSound(s, id);
    IdsUnique(r);
    hide Sound;
    RemoveLive(s, id, other);
    if Live(r.rows, other) {
      RemovedRow(s, id, other);
    }
    SwapOutRows(s.rows, RowOf(s.rows, id));
    PatchesLeft(s.terrain, id);
  }

  lemma PatchesLeft(t: Table, id: int)
    requires WellFormed(t)
    ensures IndexOf(RemovePatch(t, id), id) == -1
    ensures forall p :: p in RemovePatch(t, id) <==> p in t && p.id != id
  {
    RemoveKeeps(t, id);
    var r := RemovePatch(t, id);
    hide RemovePatch;
    forall p
      ensures p in r <==> p in t && p.id != id
    {
      if p in r {
        var k :| 0 <= k < |r| && r[k] == p;
        assert r[k].id != id;
      }
    }
  }

  lemma RemovedRow(s: SceneValue, id: int, other: int)
    requires UniqueIds(s.rows, s.nextId) && Live(s.rows, id) && Live(Remove(s, id).rows, other) && Live(s.rows, other)
    ensures var e, was := Row(Remove(s, id), other), Row(s, other);
      e == if was.parentId == id then was.(parentId := 0) else was
  {
    var i, r := RowOf(s.rows, id), Remove(s, id);
    var swapped := SwapOut(s.rows, i);
    var k := RowOf(r.rows, other);
    SwapOutRows(s.rows, i);
    assert r.rows[k] == if swapped[k].parentId == id then swapped[k].(parentId := 0) else swapped[k];
    var j := if k == i then |s.rows| - 1 else k;
    assert swapped[k] == s.rows[j] && s.rows[j].id == other;
    LiveAt(s.rows, s.nextId, j);
  }

  /** One entity's row is replaced by one with the same id. */
  lemma RowReplaced(s: SceneValue, id: int, e: Entity, other: int)
    requires UniqueIds(s.rows, s.nextId) && Live(s.rows, id) && e.id == id
    ensures var r := s.(rows := s.rows[RowOf(s.rows, id) := e]);
      Live(r.rows, id) && Row(r, id) == e && (other != id ==> Same(s, r, other)) && |r.rows| == |s.rows|
  {
    var i := RowOf(s.rows, id);
    var r := s.(rows := s.rows[i := e]);
    assert UniqueIds(r.rows, r.nextId);
    RowAt(r, i);
    hide UniqueIds;
    if other != id {
      if Live(s.rows, other) {
        var k := RowOf(s.rows, other);
        assert r.rows[k] == s.rows[k];
        RowAt(r, k);
      }
    }
  }

  /** An accepted link changes the child's parent alone, a refused one nothing. */
  lemma SetParentEffect(s: SceneValue, child: int, parent: int, other: int)
    requires Sound(s)
    ensures var r := Apply(s, OpSetParent(child, parent));
      if ParentAccepted(s, child, parent) then
        && Live(r.rows, child) && Row(r, child) == Row(s, child).(parentId := parent)
        && (other != child ==> Same(s, r, other)) && SameRest(s, r) && |r.rows| == |s.rows|
      else r == s
  {
    IdsUnique(s);
    hide Sound, UniqueIds, Climbs;
    if ParentAccepted(s, child, parent) {
      RowReplaced(s, child, Row(s, child).(parentId := parent), other);
    }
  }

  /** A live entity can always be made a root, and linked to any other live one that it is no ancestor of. */
  lemma AcceptedLinks(s: SceneValue, child: int, parent: int)
    ensures Live(s.rows, child) ==> ParentAccepted(s, child, 0)
    ensures ParentAccepted(s, child, parent) ==> Live(s.rows, child) && parent != child && (parent == 0 || Live(s.rows, parent))
    ensures Live(s.rows, child) && Live(s.rows, parent) && parent != child && Row(s, parent).parentId == 0 ==>
      ParentAccepted(s, child, parent)
  {
    LiveIff(s.rows, child);
    if Live(s.rows, child) && Live(s.rows, parent) && parent != child && Row(s, parent).parentId == 0 {
      assert !Climbs(s.rows, 0, child, CLIMB_LIMIT - 1);
    }
  }

  /** Moving changes the position of one entity. */
  lemma MoveEffect(s: SceneValue, id: int, x: real, y: real, z: real, other: int)
    requires Sound(s)
    ensures var r := Apply(s, OpMove(id, x, y, z));
      if Live(s.rows, id) then
        && Live(r.rows, id) && Row(r, id) == Row(s, id).(posX := x, posY := y, posZ := z)
        && (other != id ==> Same(s, r, other)) && SameRest(s, r) && |r.rows| == |s.rows|
      else r == s
  {
    IdsUnique(s);
    hide Sound, UniqueIds;
    if Live(s.rows, id) {
      RowReplaced(s, id, Row(s, id).(posX := x, posY := y, posZ := z), other);
    }
  }

  /** Selecting a live entity selects it, anything else selects nothing; hovering takes any id. */
  lemma MarkEffect(s: SceneValue, id: int)
    requires WellFormed(s.terrain)
    ensures Apply(s, OpSelect(id)) == s.(selected := if Live(s.rows, id) then id else 0)
    ensures Apply(s, OpHover(id)) == s.(hover := id)
  {
    LiveIff(s.rows, id);
  }

  // ---- Terrain ----

  /** Writing a cell changes that cell alone and marks the patch; a cell outside the grid only marks it. */
  lemma SetCellEffect(t: Table, id: int, ix: int, iz: int, v: real, jx: nat, jz: nat)
    requires WellFormed(t) && IndexOf(t, id) >= 0
    requires jx < t[IndexOf(t, id)].grid.nx && jz < t[IndexOf(t, id)].grid.nz
    ensures var i, r := IndexOf(t, id), TerrainTable.SetCell(t, id, ix, iz, v);
      && WellFormed(r) && |r| == |t| && IndexOf(r, id) == i && r[i].dirty
      && r[i].grid.nx == t[i].grid.nx && r[i].grid.nz == t[i].grid.nz
      && At(r[i].grid, jx, jz) == (if (ix, iz) == (jx, jz) then v else At(t[i].grid, jx, jz))
      && forall k :: 0 <= k < |t| && k != i ==> r[k] == t[k]
  {
    var i, g := IndexOf(t, id), t[IndexOf(t, id)].grid;
    SetCellKeeps(t, id, ix, iz, v);
    var r := TerrainTable.SetCell(t, id, ix, iz, v);
    hide At, Set;
    if 0 <= ix < g.nx && 0 <= iz < g.nz {
      AtAfterSet(g, ix, iz, v, jx, jz);
    }
    PatchAt(r, id, i);
  }

  /** A created grid has the given size, at least two by two, is flat at 0 and marked; the other patches stay. */
  lemma CreateEffect(t: Table, cap: nat, id: int, nx: int, nz: int, jx: nat, jz: nat)
    requires WellFormed(t)
    ensures WellFormed(CreateGrid(t, cap, id, nx, nz))
    ensures var r, i, n, m := CreateGrid(t, cap, id, nx, nz), IndexOf(CreateGrid(t, cap, id, nx, nz), id),
                              if nx < 2 then 2 else nx, if nz < 2 then 2 else nz;
      var had := if IndexOf(t, id) >= 0 then 1 else 0;
      if id <= 0 || nx > 512 || nz > 512 then r == t
      else
        && (forall p :: p in t && p.id != id ==> p in r) && (forall p :: p in r && p.id != id ==> p in t)
        && (i >= 0 <==> |t| - had < cap)
        && (i >= 0 ==> r[i].grid.nx == n && r[i].grid.nz == m && r[i].dirty)
        && (i >= 0 && jx < n && jz < m ==> At(r[i].grid, jx, jz) == 0.0)
  {
    CreateKeeps(t, cap, id, nx, nz);
    if GridAccepted(id, nx, nz) {
      PatchesLeft(t, id);
      RemovedCount(t, id);
      var t1, r := RemovePatch(t, id), CreateGrid(t, cap, id, nx, nz);
      hide RemovePatch;
      if |t1| < cap {
        PatchAt(r, id, |t1|);
        FlatIsFlat(AtLeastTwo(nx), AtLeastTwo(nz), jx, jz);
      }
    }
  }

  lemma RemovedCount(t: Table, id: int)
    ensures |RemovePatch(t, id)| == |t| - (if IndexOf(t, id) >= 0 then 1 else 0)
  {
  }

  lemma FlatIsFlat(nx: nat, nz: nat, jx: nat, jz: nat)
    requires nx >= 2 && nz >= 2
    ensures Flat(nx, nz).Valid() && (jx < nx && jz < nz ==> At(Flat(nx, nz), jx, jz) == 0.0)
  {
    if jx < nx && jz < nz {
      CellInRange(nx, nz, jx, jz);
    }
  }

  /** Cell edits and stamps of a scene are those of its terrain, and touch nothing else. */
  lemma TerrainEdits(s: SceneValue, id: int, ix: int, iz: int, v: real, brush: Brush, sqrt: real -> real)
    requires WellFormed(s.terrain)
    ensures Apply(s, OpSetCell(id, ix, iz, v)) == s.(terrain := TerrainTable.SetCell(s.terrain, id, ix, iz, v))
    ensures Apply(s, OpStamp(id, brush, sqrt)) == s.(terrain := StampTable(s.terrain, id, brush, sqrt))
    ensures var i := IndexOf(s.terrain, id);
      i < 0 ==> Apply(s, OpSetCell(id, ix, iz, v)) == s && Apply(s, OpStamp(id, brush, sqrt)) == s
    ensures brush.disc.radius <= 0.0 ==> Apply(s, OpStamp(id, brush, sqrt)) == s
  {
    hide Stamp, TouchedUpTo;
  }

  /** A bind gives one terrain entity its path, and only the terrain changes beside it. */
  lemma BindEffect(s: SceneValue, id: int, nx: int, nz: int, h: (nat, nat) -> real, path: string, other: int)
    requires Sound(s)
    ensures var r := Apply(s, OpBind(id, nx, nz, h, path));
      if Live(s.rows, id) && Row(s, id).kind == 3 then
        && Live(r.rows, id) && Row(r, id) == Row(s, id).(meshPath := if |path| > 519 then path[..519] else path)
        && (other != id ==> Same(s, r, other)) && SameRest(s, r.(terrain := s.terrain)) && |r.rows| == |s.rows|
      else r == s
  {
    IdsUnique(s);
    hide Sound, UniqueIds, CreateGrid, FillUpTo, Bindable;
    if IsTerrain(s, id) {
      RowReplaced(s, id, Row(s, id).(meshPath := StoredPath(path)), other);
      BindRows(s, id, nx, nz, h, path);
    }
  }

  lemma BindRows(s: SceneValue, id: int, nx: int, nz: int, h: (nat, nat) -> real, path: string)
    requires WellFormed(s.terrain) && IsTerrain(s, id)
    ensures var r := BindTerrain(s, id, nx, nz, h, path); r == SetMeshPath(s, id, path).(terrain := r.terrain)
  {
    hide CreateGrid, FillUpTo, Bindable;
  }

  /** Of a path of more than 519 bytes the first 519 are stored. */
  lemma StoredPathLength(path: string)
    ensures StoredPath(path) <= path && |StoredPath(path)| == if |path| > 519 then 519 else |path|
  {
  }

  // ---- Copying ----

  /** A copy that fits takes over rows and marks, and the patches as far as there is room; else nothing changes. */
  lemma CopyEffect(dst: SceneValue, src: SceneValue)
    ensures var r := CopyInto(dst, src);
      if |src.rows| <= dst.cap then
        && r.rows == src.rows && r.selected == src.selected && r.hover == src.hover && r.nextId == src.nextId
        && r.cap == dst.cap && r.patchCap == dst.patchCap
        && r.terrain <= src.terrain
        && |r.terrain| == if |src.terrain| < dst.patchCap then |src.terrain| else dst.patchCap
      else r == dst
  {
  }
}
