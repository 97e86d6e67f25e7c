/**
 The editor scene as a value: entity rows, parent links, selection and terrain patches
 (engine/engine_scene.mettle:331-400, 939-1010, 1100-1208).
 */
module SceneSpec {
  import opened TerrainSpec
  import opened TerrainTable

  const SK_TERRAIN: int := 3
  const CLIMB_LIMIT: nat := 256

  /** The fields of a row this model looks at; 0 is no parent. */
  datatype Entity = Entity(id: int, kind: int, parentId: int, posX: real, posY: real, posZ: real, half: real,
                           meshPath: string)

  datatype SceneValue = SceneValue(rows: seq<Entity>, cap: nat, selected: int, hover: int, nextId: int,
                                   terrain: Table, patchCap: nat)

  function RowFrom(rows: seq<Entity>, id: int, from: nat): (i: int)
    requires from <= |rows|
    ensures i == -1 || from <= i < |rows|
    ensures i >= 0 ==> rows[i].id == id
    ensures i == -1 ==> forall k :: from <= k < |rows| ==> rows[k].id != id
    decreases |rows| - from
  {
    if from == |rows| then -1 else if rows[from].id == id then from else RowFrom(rows, id, from + 1)
  }

  /** The row holding id, or -1; 0 is never looked up. */
  function RowOf(rows: seq<Entity>, id: int): (i: int)
    ensures -1 <= i < |rows|
    ensures i >= 0 ==> rows[i].id == id && id != 0
    ensures i == -1 && id != 0 ==> forall k :: 0 <= k < |rows| ==> rows[k].id != id
  {
    if id == 0 then -1 else RowFrom(rows, id, 0)
  }

  predicate Live(rows: seq<Entity>, id: int) {
    RowOf(rows, id) >= 0
  }

  function ParentOf(rows: seq<Entity>, id: int): int
    requires Live(rows, id)
  {
    rows[RowOf(rows, id)].parentId
  }

  // ---- Operations ----

  function NewEntity(id: int, kind: int, x: real, y: real, z: real, half: real): Entity {
    Entity(id, kind, 0, x, y, z, if half <= 0.0 then 1.0 else half, "")
  }

  function Add(s: SceneValue, kind: int, x: real, y: real, z: real, half: real): SceneValue {
    if |s.rows| >= s.cap then s
    else s.(rows := s.rows + [NewEntity(s.nextId, kind, x, y, z, half)], nextId := s.nextId + 1)
  }

  function Orphan(rows: seq<Entity>, id: int): (r: seq<Entity>)
    ensures |r| == |rows|
    ensures forall k :: 0 <= k < |rows| ==>
      r[k] == if rows[k].parentId == id then rows[k].(parentId := 0) else rows[k]
  {
    if rows == [] then []
    else
      var last := rows[|rows| - 1];
      Orphan(rows[..|rows| - 1], id) + [if last.parentId == id then last.(parentId := 0) else last]
  }

  /** The last row replaces the removed one; its children become roots. */
  function Remove(s: SceneValue, id: int): SceneValue {
    var i := RowOf(s.rows, id);
    if i < 0 then s
    else s.(rows := Orphan(SwapOut(s.rows, i), id), terrain := RemovePatch(s.terrain, id),
            selected := if s.selected == id then 0 else s.selected, hover := if s.hover == id then 0 else s.hover)
  }

  /** Whether climbing parent links from `from` meets `goal` within `fuel` rows. */
  predicate Climbs(rows: seq<Entity>, from: int, goal: int, fuel: nat)
    decreases fuel
  {
    from != 0 && fuel > 0 &&
    (from == goal || (Live(rows, from) && Climbs(rows, ParentOf(rows, from), goal, fuel - 1)))
  }

  predicate ParentAccepted(s: SceneValue, child: int, parent: int) {
    && child != 0 && Live(s.rows, child) && parent != child
    && (parent != 0 ==> Live(s.rows, parent) && !Climbs(s.rows, parent, child, CLIMB_LIMIT))
  }

  function SetParent(s: SceneValue, child: int, parent: int): SceneValue {
    if !ParentAccepted(s, child, parent) then s
    else var i := RowOf(s.rows, child); s.(rows := s.rows[i := s.rows[i].(parentId := parent)])
  }

  function SetSelected(s: SceneValue, id: int): SceneValue {
    s.(selected := if id != 0 && !Live(s.rows, id) then 0 else id)
  }

  /** Set the cells before (ix, iz), row by row, to h. */
  function FillUpTo(t: Table, id: int, h: (nat, nat) -> real, nx: nat, ix: nat, iz: nat): (r: Table)
    requires WellFormed(t) && ix <= nx
    ensures WellFormed(r) && |r| == |t| && forall k :: 0 <= k < |t| ==> r[k].id == t[k].id
    decreases iz, ix
  {
    if ix > 0 then TerrainTable.SetCell(FillUpTo(t, id, h, nx, ix - 1, iz), id, ix - 1, iz, h(ix - 1, iz))
    else if iz > 0 then FillUpTo(t, id, h, nx, nx, iz - 1)
    else t
  }

  predicate IsTerrain(s: SceneValue, id: int) {
    Live(s.rows, id) && s.rows[RowOf(s.rows, id)].kind == SK_TERRAIN
  }

  predicate Bindable(s: SceneValue, id: int, nx: int, nz: int) {
    IsTerrain(s, id) && GridAccepted(id, nx, nz) && |RemovePatch(s.terrain, id)| < s.patchCap
  }

  const PATH_CAP: nat := 520

  /** A copy into a buffer of PATH_CAP bytes, the last of which is the terminator. */
  function StoredPath(path: string): string {
    if |path| < PATH_CAP then path else path[..PATH_CAP - 1]
  }

  function SetMeshPath(s: SceneValue, id: int, path: string): SceneValue {
    if !Live(s.rows, id) then s
    else var i := RowOf(s.rows, id); s.(rows := s.rows[i := s.rows[i].(meshPath := StoredPath(path))])
  }

  /** A terrain entity gets the path, even if it then gets no grid. */
  function BindTerrain(s: SceneValue, id: int, nx: int, nz: int, h: (nat, nat) -> real, path: string): SceneValue
    requires WellFormed(s.terrain)
  {
    if !IsTerrain(s, id) then s else BindGrid(SetMeshPath(s, id, path), id, nx, nz, h)
  }

  /** A terrain entity gets a fresh grid, filled with h when the store had room for it. */
  function BindGrid(s: SceneValue, id: int, nx: int, nz: int, h: (nat, nat) -> real): SceneValue
    requires WellFormed(s.terrain)
  {
    if !IsTerrain(s, id) then s
    else
      CreateKeeps(s.terrain, s.patchCap, id, nx, nz);
      var t := CreateGrid(s.terrain, s.patchCap, id, nx, nz);
      s.(terrain := if Bindable(s, id, nx, nz) then FillUpTo(t, id, h, AtLeastTwo(nx), 0, AtLeastTwo(nz)) else t)
  }

  /** Overwrite the fields of a row that are neither id nor parent. */
  function MoveEntity(s: SceneValue, id: int, x: real, y: real, z: real): SceneValue {
    if !Live(s.rows, id) then s
    else var i := RowOf(s.rows, id); s.(rows := s.rows[i := s.rows[i].(posX := x, posY := y, posZ := z)])
  }

  function SetHover(s: SceneValue, id: int): SceneValue {
    s.(hover := id)
  }

  /** Fails, changing nothing, when the rows do not fit. */
  function CopyInto(dst: SceneValue, src: SceneValue): SceneValue {
    if dst.cap < |src.rows| then dst
    else src.(cap := dst.cap, patchCap := dst.patchCap,
              terrain := if |src.terrain| <= dst.patchCap then src.terrain else src.terrain[..dst.patchCap])
  }

  datatype SceneOp =
    | OpAdd(kind: int, x: real, y: real, z: real, half: real)
    | OpRemove(id: int)
    | OpSetParent(child: int, parent: int)
    | OpSelect(id: int)
    | OpHover(id: int)
    | OpMove(id: int, x: real, y: real, z: real)
    | OpBind(id: int, nx: int, nz: int, h: (nat, nat) -> real, path: string)
    | OpSetCell(id: int, ix: int, iz: int, v: real)
    | OpStamp(id: int, brush: Brush, sqrt: real -> real)

  function Apply(s: SceneValue, op: SceneOp): (r: SceneValue)
    requires WellFormed(s.terrain)
    ensures WellFormed(r.terrain)
  {
    match op
    case OpAdd(kind, x, y, z, half) => Add(s, kind, x, y, z, half)
    case OpRemove(id) => RemoveKeeps(s.terrain, id); Remove(s, id)
    case OpSetParent(child, parent) => SetParent(s, child, parent)
    case OpSelect(id) => SetSelected(s, id)
    case OpHover(id) => SetHover(s, id)
    case OpMove(id, x, y, z) => MoveEntity(s, id, x, y, z)
    case OpBind(id, nx, nz, h, path) =>
      CreateKeeps(s.terrain, s.patchCap, id, nx, nz); BindTerrain(s, id, nx, nz, h, path)
    case OpSetCell(id, ix, iz, v) => s.(terrain := TerrainTable.SetCell(s.terrain, id, ix, iz, v))
    case OpStamp(id, brush, sqrt) =>
      StampKeeps(s.terrain, id, brush, sqrt); s.(terrain := StampTable(s.terrain, id, brush, sqrt))
  }

  function Run(s: SceneValue, ops: seq<SceneOp>): (r: SceneValue)
    requires WellFormed(s.terrain)
    ensures WellFormed(r.terrain)
  {
    if ops == [] then s else Apply(Run(s, ops[..|ops| - 1]), ops[|ops| - 1])
  }

  // ---- The invariant ----

  predicate UniqueIds(rows: seq<Entity>, nextId: int) {
    && (forall k :: 0 <= k < |rows| ==> 1 <= rows[k].id < nextId)
    && (forall j, k :: 0 <= j < k < |rows| ==> rows[j].id != rows[k].id)
  }

  predicate ParentsLive(rows: seq<Entity>) {
    forall k :: 0 <= k < |rows| ==> rows[k].parentId == 0 || Live(rows, rows[k].parentId)
  }

  /** Ranks fall from child to parent. */
  ghost predicate Ranked(rows: seq<Entity>, rank: map<int, nat>) {
    forall k :: 0 <= k < |rows| ==>
      && rows[k].id in rank
      && (rows[k].parentId != 0 ==> rows[k].parentId in rank && rank[rows[k].parentId] < rank[rows[k].id])
  }

  /** The parent links have no cycle. */
  ghost predicate Forest(rows: seq<Entity>) {
    exists rank: map<int, nat> :: Ranked(rows, rank)
  }

  predicate PatchesOwned(rows: seq<Entity>, terrain: Table) {
    WellFormed(terrain) && forall k :: 0 <= k < |terrain| ==> Live(rows, terrain[k].id)
  }

  ghost predicate Sound(s: SceneValue) {
    && |s.rows| <= s.cap && s.nextId >= 1
    && UniqueIds(s.rows, s.nextId) && ParentsLive(s.rows) && Forest(s.rows)
    && (s.selected == 0 || Live(s.rows, s.selected))
    && PatchesOwned(s.rows, s.terrain)
  }

  lemma LiveIff(rows: seq<Entity>, id: int)
    ensures Live(rows, id) <==> id != 0 && exists k :: 0 <= k < |rows| && rows[k].id == id
  {
  }

  lemma LiveAt(rows: seq<Entity>, nextId: int, k: nat)
    requires UniqueIds(rows, nextId) && k < |rows|
    ensures Live(rows, rows[k].id) && RowOf(rows, rows[k].id) == k
  {
    LiveIff(rows, rows[k].id);
  }
}
