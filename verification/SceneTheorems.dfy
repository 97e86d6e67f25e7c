/**
 What every scene operation keeps, over any run (engine/engine_scene.mettle:957-1210).
 */
module SceneTheorems {
  import opened TerrainSpec
  import opened TerrainTable
  import opened SceneSpec

  // ---- Adding and removing ----

  lemma AddSound(s: SceneValue, kind: int, x: real, y: real, z: real, half: real)
    requires Sound(s)
    ensures Sound(Add(s, kind, x, y, z, half))
  {
    if |s.rows| < s.cap {
      var r := Add(s, kind, x, y, z, half).rows;
      forall id | Live(s.rows, id)
        ensures Live(r, id)
      {
        var k := RowOf(s.rows, id);
        assert r[k].id == id;
      }
      var rank: map<int, nat> :| Ranked(s.rows, rank);
      var rank' := rank[s.nextId := 0];
      forall k | 0 <= k < |r|
        ensures r[k].id in rank'
        ensures r[k].parentId != 0 ==> r[k].parentId in rank' && rank'[r[k].parentId] < rank'[r[k].id]
      {
        if k < |s.rows| && s.rows[k].parentId != 0 {
          assert Live(s.rows, s.rows[k].parentId);
        }
      }
      assert Ranked(r, rank');
    }
  }

  lemma SwapOutIds(rows: seq<Entity>, nextId: int, i: nat)
    requires UniqueIds(rows, nextId) && i < |rows|
    ensures UniqueIds(SwapOut(rows, i), nextId)
    ensures forall e :: e in SwapOut(rows, i) ==> e in rows && e.id != rows[i].id
  {
    SwapOutRows(rows, i);
  }

  lemma SwapOutLive(rows: seq<Entity>, i: nat, x: int)
    requires i < |rows| && x != rows[i].id && Live(rows, x)
    ensures Live(SwapOut(rows, i), x)
  {
    SwapOutRows(rows, i);
    assert rows[RowOf(rows, x)] in SwapOut(rows, i);
  }

  lemma OrphanLive(rows: seq<Entity>, id: int, x: int)
    ensures Live(Orphan(rows, id), x) <==> Live(rows, x)
  {
    var r := Orphan(rows, id);
    assert forall k :: 0 <= k < |rows| ==> r[k].id == rows[k].id;
  }

  /** Every row but the removed one stays live, and ids stay unique. */
  lemma RemoveLive(s: SceneValue, id: int, x: int)
    requires UniqueIds(s.rows, s.nextId) && Live(s.rows, id)
    ensures UniqueIds(Remove(s, id).rows, s.nextId)
    ensures Live(Remove(s, id).rows, x) <==> x != id && Live(s.rows, x)
  {
    var i := RowOf(s.rows, id);
    var swapped := SwapOut(s.rows, i);
    SwapOutIds(s.rows, s.nextId, i);
    OrphanLive(swapped, id, x);
    if x != id && Live(s.rows, x) {
      SwapOutLive(s.rows, i, x);
    }
    if Live(swapped, x) {
      assert swapped[RowOf(swapped, x)] in swapped;
    }
  }

  /** A surviving row is the old one, or an orphan of the removed one. */
  lemma RemoveRows(s: SceneValue, id: int, k: nat)
    requires UniqueIds(s.rows, s.nextId) && Live(s.rows, id) && k < |Remove(s, id).rows|
    ensures var e := Remove(s, id).rows[k];
      && e.parentId != id
      && (e in s.rows || (e.parentId == 0 && e.(parentId := id) in s.rows))
  {
    var i := RowOf(s.rows, id);
    var swapped, r := SwapOut(s.rows, i), Remove(s, id).rows;
    SwapOutIds(s.rows, s.nextId, i);
    assert swapped[k] in swapped;
    assert r[k] == if swapped[k].parentId == id then swapped[k].(parentId := 0) else swapped[k];
    assert swapped[k].parentId == id ==> r[k].(parentId := id) == swapped[k];
  }

  /** A surviving row keeps its rank over its parent, which survives too. */
  lemma RemoveLinks(s: SceneValue, id: int, rank: map<int, nat>, k: nat)
    requires UniqueIds(s.rows, s.nextId) && ParentsLive(s.rows) && Ranked(s.rows, rank)
    requires Live(s.rows, id) && k < |Remove(s, id).rows|
    ensures var e := Remove(s, id).rows[k];
      && e.id in rank && (e.parentId == 0 || Live(Remove(s, id).rows, e.parentId))
      && (e.parentId != 0 ==> e.parentId in rank && rank[e.parentId] < rank[e.id])
  {
    RemoveRows(s, id, k);
    RemoveLive(s, id, Remove(s, id).rows[k].parentId);
    hide Live, Remove;
  }

  lemma RemoveOwners(s: SceneValue, id: int)
    requires UniqueIds(s.rows, s.nextId) && PatchesOwned(s.rows, s.terrain) && Live(s.rows, id)
    ensures PatchesOwned(Remove(s, id).rows, Remove(s, id).terrain)
  {
    var r := Remove(s, id);
    RemoveKeeps(s.terrain, id);
    assert r.terrain == RemovePatch(s.terrain, id);
    hide Live, Remove, RemovePatch;
    forall k | 0 <= k < |r.terrain|
      ensures Live(r.rows, r.terrain[k].id)
    {
      RemoveLive(s, id, r.terrain[k].id);
      assert r.terrain[k] in r.terrain && r.terrain[k] in s.terrain;
    }
  }

  lemma RemoveCounts(s: SceneValue, id: int)
    requires Live(s.rows, id)
    ensures var r := Remove(s, id);
      && |r.rows| < |s.rows| && r.cap == s.cap && r.nextId == s.nextId
      && r.selected == (if s.selected == id then 0 else s.selected)
  {
    SwapOutRows(s.rows, RowOf(s.rows, id));
  }

  lemma RemoveSound(s: SceneValue, id: int)
    requires Sound(s)
    ensures Sound(Remove(s, id))
  {
    if Live(s.rows, id) {
      var r := Remove(s, id);
      RemoveCounts(s, id);
      RemoveOwners(s, id);
      RemoveLive(s, id, s.selected);
      var rank: map<int, nat> :| Ranked(s.rows, rank);
      hide Live, Remove, UniqueIds, PatchesOwned;
      forall k | 0 <= k < |r.rows|
        ensures r.rows[k].parentId == 0 || Live(r.rows, r.rows[k].parentId)
        ensures r.rows[k].id in rank
        ensures r.rows[k].parentId != 0 ==>
          r.rows[k].parentId in rank && rank[r.rows[k].parentId] < rank[r.rows[k].id]
      {
        RemoveLinks(s, id, rank, k);
      }
      assert Ranked(r.rows, rank);
    }
  }

  // ---- Reparenting ----

  lemma MoreFuel(rows: seq<Entity>, from: int, goal: int, fuel: nat, more: nat)
    requires Climbs(rows, from, goal, fuel) && fuel <= more
    ensures Climbs(rows, from, goal, more)
    decreases fuel
  {
    if from != goal {
      MoreFuel(rows, ParentOf(rows, from), goal, fuel - 1, more - 1);
    }
  }

  /** The rows ranked below r. */
  ghost function Lower(rows: seq<Entity>, rank: map<int, nat>, r: nat): set<nat> {
    set k: nat | k < |rows| && rows[k].id in rank && rank[rows[k].id] < r
  }

  ghost function Indices(n: nat): (s: set<nat>)
    ensures forall k: nat :: k in s <==> k < n
    ensures |s| == n
  {
    if n == 0 then {} else Indices(n - 1) + {n - 1}
  }

  lemma Smaller(a: set<nat>, b: set<nat>, x: nat)
    requires a <= b && x in b && x !in a
    ensures |a| < |b|
  {
    var c := b - {x};
    assert a <= c;
    Contained(a, c);
  }

  lemma {:induction false} Contained(a: set<nat>, b: set<nat>)
    requires a <= b
    ensures |a| <= |b|
    decreases a
  {
    if a != {} {
      var x :| x in a;
      Contained(a - {x}, b - {x});
    }
  }

  /** Ranks fall on every climb, so one row of fuel per lower rank is enough. */
  lemma ClimbWithin(rows: seq<Entity>, rank: map<int, nat>, from: int, goal: int, fuel: nat)
    requires Ranked(rows, rank) && ParentsLive(rows) && Live(rows, from) && Climbs(rows, from, goal, fuel)
    ensures Climbs(rows, from, goal, |Lower(rows, rank, rank[from])| + 1)
    decreases fuel
  {
    if from != goal {
      var p := ParentOf(rows, from);
      ClimbWithin(rows, rank, p, goal, fuel - 1);
      Smaller(Lower(rows, rank, rank[p]), Lower(rows, rank, rank[from]), RowOf(rows, p));
      MoreFuel(rows, p, goal, |Lower(rows, rank, rank[p])| + 1, |Lower(rows, rank, rank[from])|);
    }
  }

  /** In a forest no climb needs more fuel than there are rows. */
  lemma RowsAreEnough(rows: seq<Entity>, from: int, goal: int, fuel: nat)
    requires Forest(rows) && ParentsLive(rows) && Live(rows, from) && Climbs(rows, from, goal, fuel)
    ensures Climbs(rows, from, goal, |rows|)
  {
    var rank: map<int, nat> :| Ranked(rows, rank);
    ClimbWithin(rows, rank, from, goal, fuel);
    Smaller(Lower(rows, rank, rank[from]), Indices(|rows|), RowOf(rows, from));
    MoreFuel(rows, from, goal, |Lower(rows, rank, rank[from])| + 1, |rows|);
  }

  function Relinked(rows: seq<Entity>, i: nat, parent: int): seq<Entity>
    requires i < |rows|
  {
    rows[i := rows[i].(parentId := parent)]
  }

  lemma RelinkedRows(rows: seq<Entity>, i: nat, parent: int, id: int)
    requires i < |rows|
    ensures RowOf(Relinked(rows, i, parent), id) == RowOf(rows, id)
  {
    if id != 0 {
      RelinkedFrom(rows, i, parent, id, 0);
    }
  }

  lemma {:induction false} RelinkedFrom(rows: seq<Entity>, i: nat, parent: int, id: int, from: nat)
    requires i < |rows| && from <= |rows|
    ensures RowFrom(Relinked(rows, i, parent), id, from) == RowFrom(rows, id, from)
    decreases |rows| - from
  {
    if from < |rows| {
      RelinkedFrom(rows, i, parent, id, from + 1);
    }
  }

  /** A climb to child does not use child's own link. */
  lemma ClimbUnchanged(rows: seq<Entity>, child: int, parent: int, from: int, fuel: nat)
    requires Live(rows, child) && Climbs(rows, from, child, fuel)
    ensures Climbs(Relinked(rows, RowOf(rows, child), parent), from, child, fuel)
    decreases fuel
  {
    if from != child {
      RelinkedRows(rows, RowOf(rows, child), parent, from);
      ClimbUnchanged(rows, child, parent, ParentOf(rows, from), fuel - 1);
    }
  }

  lemma ClimbLowersRank(rows: seq<Entity>, rank: map<int, nat>, from: int, goal: int, fuel: nat)
    requires Ranked(rows, rank) && Live(rows, from) && Climbs(rows, from, goal, fuel) && ParentsLive(rows)
    ensures goal in rank && rank[goal] <= rank[from]
    decreases fuel
  {
    if from != goal {
      ClimbLowersRank(rows, rank, ParentOf(rows, from), goal, fuel - 1);
    }
  }

  /** Lift every descendant of child above the new parent. */
  ghost function Lifted(rows: seq<Entity>, rank: map<int, nat>, child: int, lift: nat): map<int, nat> {
    map id | id in rank :: rank[id] + if Climbs(rows, id, child, |rows|) then lift else 0
  }

  lemma RelinkedForest(s: SceneValue, child: int, parent: int)
    requires Sound(s) && Live(s.rows, child) && (parent == 0 || Live(s.rows, parent))
    requires !Climbs(s.rows, parent, child, |s.rows|)
    ensures Forest(Relinked(s.rows, RowOf(s.rows, child), parent))
  {
    var rows, i := s.rows, RowOf(s.rows, child);
    var rank: map<int, nat> :| Ranked(rows, rank);
    var lift := if parent == 0 then 0 else rank[parent] + 1;
    var rank', r := Lifted(rows, rank, child, lift), Relinked(rows, i, parent);
    forall k | 0 <= k < |r|
      ensures r[k].id in rank'
      ensures r[k].parentId != 0 ==> r[k].parentId in rank' && rank'[r[k].parentId] < rank'[r[k].id]
    {
      assert rows[k].id == r[k].id && rows[k].id in rank;
      LiveAt(rows, s.nextId, k);
      if k == i {
        assert Climbs(rows, child, child, |rows|);
      } else if rows[k].parentId != 0 && Climbs(rows, rows[k].parentId, child, |rows|) {
        assert Climbs(rows, rows[k].id, child, |rows| + 1);
        RowsAreEnough(rows, rows[k].id, child, |rows| + 1);
      }
    }
    assert Ranked(r, rank');
  }

  /** Relinking keeps the links acyclic exactly when the whole climb from the new parent misses child. */
  lemma RelinkedForestIff(s: SceneValue, child: int, parent: int)
    requires Sound(s) && Live(s.rows, child) && (parent == 0 || Live(s.rows, parent))
    ensures Forest(Relinked(s.rows, RowOf(s.rows, child), parent)) <==> !Climbs(s.rows, parent, child, |s.rows|)
  {
    var i := RowOf(s.rows, child);
    if !Climbs(s.rows, parent, child, |s.rows|) {
      RelinkedForest(s, child, parent);
    } else {
      var r := Relinked(s.rows, i, parent);
      ClimbUnchanged(s.rows, child, parent, parent, |s.rows|);
      RelinkedLive(s, child, parent);
      if Forest(r) {
        var rank: map<int, nat> :| Ranked(r, rank);
        assert r[i].id == child && r[i].parentId == parent;
        ClimbLowersRank(r, rank, parent, child, |s.rows|);
        assert false;
      }
    }
  }

  lemma RelinkedLive(s: SceneValue, child: int, parent: int)
    requires Sound(s) && Live(s.rows, child) && (parent == 0 || Live(s.rows, parent))
    ensures ParentsLive(Relinked(s.rows, RowOf(s.rows, child), parent))
    ensures UniqueIds(Relinked(s.rows, RowOf(s.rows, child), parent), s.nextId)
    ensures forall x :: Live(s.rows, x) ==> Live(Relinked(s.rows, RowOf(s.rows, child), parent), x)
  {
    var i := RowOf(s.rows, child);
    forall x | Live(s.rows, x)
      ensures Live(Relinked(s.rows, i, parent), x)
    {
      RelinkedRows(s.rows, i, parent, x);
    }
  }

  /**
   A reparenting keeps the scene sound exactly when, if it is accepted, climbing the whole way
   up from the new parent does not meet the child; the code's own climb gives up after 256 links.
   */
  lemma SetParentSoundIff(s: SceneValue, child: int, parent: int)
    requires Sound(s)
    ensures Sound(SetParent(s, child, parent)) <==>
      (ParentAccepted(s, child, parent) ==> !Climbs(s.rows, parent, child, |s.rows|))
  {
    if ParentAccepted(s, child, parent) {
      RelinkedForestIff(s, child, parent);
      RelinkedLive(s, child, parent);
    }
  }

  predicate Reparentable(s: SceneValue, child: int, parent: int) {
    child != 0 && parent != child && Live(s.rows, child) && (parent == 0 || Live(s.rows, parent))
  }

  /** With at most 256 rows a link is refused exactly when it would close a cycle. */
  lemma SetParentSound(s: SceneValue, child: int, parent: int)
    requires Sound(s) && |s.rows| <= 256
    ensures Sound(SetParent(s, child, parent))
    ensures Reparentable(s, child, parent) ==>
      (ParentAccepted(s, child, parent) <==> Forest(Relinked(s.rows, RowOf(s.rows, child), parent)))
  {
    SetParentSoundIff(s, child, parent);
    if Climbs(s.rows, parent, child, |s.rows|) {
      MoreFuel(s.rows, parent, child, |s.rows|, CLIMB_LIMIT);
    }
    if Reparentable(s, child, parent) {
      RelinkedForestIff(s, child, parent);
      if parent != 0 && Climbs(s.rows, parent, child, CLIMB_LIMIT) {
        RowsAreEnough(s.rows, parent, child, CLIMB_LIMIT);
      }
    }
  }

  // ---- Runs ----

  /** A row may change in everything but its id and its parent. */
  lemma SameLinksSound(s: SceneValue, i: nat, e: Entity)
    requires Sound(s) && i < |s.rows| && e.id == s.rows[i].id && e.parentId == s.rows[i].parentId
    ensures Sound(s.(rows := s.rows[i := e]))
  {
    var r := s.rows[i := e];
    forall p | Live(s.rows, p)
      ensures Live(r, p)
    {
      assert r[RowOf(s.rows, p)].id == p;
    }
    var rank: map<int, nat> :| Ranked(s.rows, rank);
    assert Ranked(r, rank);
  }

  lemma MoveSound(s: SceneValue, id: int, x: real, y: real, z: real)
    requires Sound(s)
    ensures Sound(MoveEntity(s, id, x, y, z))
  {
    if Live(s.rows, id) {
      var i := RowOf(s.rows, id);
      SameLinksSound(s, i, s.rows[i].(posX := x, posY := y, posZ := z));
    }
  }

  lemma PathSound(s: SceneValue, id: int, path: string)
    requires Sound(s)
    ensures Sound(SetMeshPath(s, id, path))
  {
    if Live(s.rows, id) {
      var i := RowOf(s.rows, id);
      SameLinksSound(s, i, s.rows[i].(meshPath := StoredPath(path)));
    }
  }

  lemma OwnersById(rows: seq<Entity>, t: Table, r: Table)
    requires PatchesOwned(rows, t) && WellFormed(r) && |r| == |t| && forall k :: 0 <= k < |t| ==> r[k].id == t[k].id
    ensures PatchesOwned(rows, r)
  {
    hide Live, WellFormed;
  }

  /** Binding gives the new patch to a live entity and leaves the others with theirs. */
  lemma BindSound(s: SceneValue, id: int, nx: int, nz: int, h: (nat, nat) -> real, path: string)
    requires Sound(s)
    ensures Sound(BindTerrain(s, id, nx, nz, h, path))
  {
    PathSound(s, id, path);
    GridSound(SetMeshPath(s, id, path), id, nx, nz, h);
    hide BindGrid, SetMeshPath;
  }

  lemma GridSound(s: SceneValue, id: int, nx: int, nz: int, h: (nat, nat) -> real)
    requires Sound(s)
    ensures Sound(BindGrid(s, id, nx, nz, h))
  {
    if IsTerrain(s, id) {
      RemoveKeeps(s.terrain, id);
      CreateKeeps(s.terrain, s.patchCap, id, nx, nz);
      CreatedOwners(s, id, nx, nz);
      var t := CreateGrid(s.terrain, s.patchCap, id, nx, nz);
      hide CreateGrid, FillUpTo, PatchesOwned, Forest, Live, UniqueIds, ParentsLive, WellFormed;
      if Bindable(s, id, nx, nz) {
        OwnersById(s.rows, t, FillUpTo(t, id, h, AtLeastTwo(nx), 0, AtLeastTwo(nz)));
      }
    }
  }

  lemma CreatedOwners(s: SceneValue, id: int, nx: int, nz: int)
    requires PatchesOwned(s.rows, s.terrain) && Live(s.rows, id)
    ensures PatchesOwned(s.rows, CreateGrid(s.terrain, s.patchCap, id, nx, nz))
  {
    CreateKeeps(s.terrain, s.patchCap, id, nx, nz);
    RemoveKeeps(s.terrain, id);
    var t, kept := CreateGrid(s.terrain, s.patchCap, id, nx, nz), RemovePatch(s.terrain, id);
    forall k | 0 <= k < |kept|
      ensures Live(s.rows, kept[k].id)
    {
      assert kept[k] in s.terrain;
    }
    hide Live, WellFormed, RemovePatch, Flat, GridAccepted;
  }

  /** The operation is an accepted reparenting whose whole climb meets the child. */
  predicate ClosesCycle(s: SceneValue, op: SceneOp) {
    op.OpSetParent? && ParentAccepted(s, op.child, op.parent) && Climbs(s.rows, op.parent, op.child, |s.rows|)
  }

  /** Marks and patches may change as long as they speak of live entities. */
  lemma SameRowsSound(s: SceneValue, selected: int, hover: int, terrain: Table)
    requires Sound(s) && PatchesOwned(s.rows, terrain) && (selected == 0 || Live(s.rows, selected))
    ensures Sound(s.(selected := selected, hover := hover, terrain := terrain))
  {
    hide Live, UniqueIds, ParentsLive, Forest, PatchesOwned;
  }

  lemma SoundParts(s: SceneValue)
    requires Sound(s)
    ensures WellFormed(s.terrain) && PatchesOwned(s.rows, s.terrain) && (s.selected == 0 || Live(s.rows, s.selected))
  {
    hide Live, UniqueIds, ParentsLive, Forest;
  }

  lemma CellsSound(s: SceneValue, r: Table)
    requires Sound(s) && WellFormed(r) && |r| == |s.terrain| && forall k :: 0 <= k < |r| ==> r[k].id == s.terrain[k].id
    ensures Sound(s.(terrain := r))
  {
    hide Live, UniqueIds, ParentsLive, Forest, PatchesOwned;
    OwnersById(s.rows, s.terrain, r);
    SameRowsSound(s, s.selected, s.hover, r);
  }

  lemma SetCellSound(s: SceneValue, id: int, ix: int, iz: int, v: real)
    requires Sound(s)
    ensures Sound(s.(terrain := TerrainTable.SetCell(s.terrain, id, ix, iz, v)))
  {
    CellsSound(s, TerrainTable.SetCell(s.terrain, id, ix, iz, v));
    hide Sound;
  }

  lemma StampSound(s: SceneValue, id: int, brush: Brush, sqrt: real -> real)
    requires Sound(s)
    ensures Sound(s.(terrain := StampTable(s.terrain, id, brush, sqrt)))
  {
    StampKeeps(s.terrain, id, brush, sqrt);
    CellsSound(s, StampTable(s.terrain, id, brush, sqrt));
    hide Sound;
  }

  lemma StepSound(s: SceneValue, op: SceneOp)
    requires Sound(s)
    ensures Sound(Apply(s, op)) <==> !ClosesCycle(s, op)
  {
    hide Sound, Add, Remove, SetParent, MoveEntity, BindTerrain, TerrainTable.SetCell, StampTable, Live,
      WellFormed, PatchesOwned, Climbs, ParentAccepted;
    SoundParts(s);
    match op {
      case OpAdd(kind, x, y, z, half) => AddSound(s, kind, x, y, z, half);
      case OpRemove(id) => RemoveSound(s, id);
      case OpSetParent(child, parent) => SetParentSoundIff(s, child, parent);
      case OpSelect(id) => SameRowsSound(s, if id != 0 && !Live(s.rows, id) then 0 else id, s.hover, s.terrain);
      case OpHover(id) => SameRowsSound(s, s.selected, id, s.terrain);
      case OpMove(id, x, y, z) => MoveSound(s, id, x, y, z);
      case OpBind(id, nx, nz, h, path) => BindSound(s, id, nx, nz, h, path);
      case OpSetCell(id, ix, iz, v) => SetCellSound(s, id, ix, iz, v);
      case OpStamp(id, brush, sqrt) => StampSound(s, id, brush, sqrt);
    }
  }

  function Empty(cap: nat, patchCap: nat): SceneValue {
    SceneValue([], cap, 0, 0, 1, [], patchCap)
  }

  lemma EmptySound(cap: nat, patchCap: nat)
    ensures Sound(Empty(cap, patchCap))
  {
    assert Ranked([], map[]);
  }

  /** No step of the run so far has closed a cycle. */
  predicate NeverCloses(s: SceneValue, ops: seq<SceneOp>)
    requires WellFormed(s.terrain)
  {
    forall k :: 0 <= k < |ops| ==> !ClosesCycle(Run(s, ops[..k]), ops[k])
  }

  ghost predicate AlwaysSound(s: SceneValue, ops: seq<SceneOp>)
    requires WellFormed(s.terrain)
  {
    forall k :: 0 <= k <= |ops| ==> Sound(Run(s, ops[..k]))
  }

  lemma RunStep(s: SceneValue, ops: seq<SceneOp>, k: nat)
    requires WellFormed(s.terrain) && k < |ops|
    ensures Run(s, ops[..k + 1]) == Apply(Run(s, ops[..k]), ops[k])
  {
    assert ops[..k + 1][..k] == ops[..k];
  }

  lemma {:induction false} SoundUpTo(s: SceneValue, ops: seq<SceneOp>, k: nat)
    requires Sound(s) && NeverCloses(s, ops) && k <= |ops|
    ensures Sound(Run(s, ops[..k]))
  {
    if k > 0 {
      SoundUpTo(s, ops, k - 1);
      RunStep(s, ops, k - 1);
      StepSound(Run(s, ops[..k - 1]), ops[k - 1]);
      hide ClosesCycle, Apply, Run;
    }
  }

  /** A scene is sound all along a run if and only if no step of the run closes a cycle. */
  lemma RunSoundIff(s: SceneValue, ops: seq<SceneOp>)
    requires Sound(s)
    ensures AlwaysSound(s, ops) <==> NeverCloses(s, ops)
  {
    assert WellFormed(s.terrain);
    hide ClosesCycle, Apply, Run, Sound;
    if NeverCloses(s, ops) {
      forall k | 0 <= k <= |ops|
        ensures Sound(Run(s, ops[..k]))
      {
        SoundUpTo(s, ops, k);
      }
    }
    if AlwaysSound(s, ops) {
      forall k | 0 <= k < |ops|
        ensures !ClosesCycle(Run(s, ops[..k]), ops[k])
      {
        RunStep(s, ops, k);
        StepSound(Run(s, ops[..k]), ops[k]);
        assert Sound(Run(s, ops[..k + 1]));
      }
    }
  }

  /** Only in a scene of more than 256 rows can a step close a cycle. */
  lemma CycleNeedsRows(s: SceneValue, op: SceneOp)
    requires Sound(s) && ClosesCycle(s, op)
    ensures |s.rows| > 256
  {
    if |s.rows| <= CLIMB_LIMIT {
      MoreFuel(s.rows, op.parent, op.child, |s.rows|, CLIMB_LIMIT);
    }
  }

  /** So a run stays sound when no link is set while the scene holds more than 256 rows. */
  lemma {:induction false} RunSound(s: SceneValue, ops: seq<SceneOp>)
    requires Sound(s)
    requires forall k :: 0 <= k < |ops| && ops[k].OpSetParent? ==> |Run(s, ops[..k]).rows| <= 256
    ensures Sound(Run(s, ops))
  {
    if ops != [] {
      var before, op := ops[..|ops| - 1], ops[|ops| - 1];
      assert forall k :: 0 <= k < |before| ==> before[..k] == ops[..k] && before[k] == ops[k];
      RunSound(s, before);
      StepSound(Run(s, before), op);
      if ClosesCycle(Run(s, before), op) {
        CycleNeedsRows(Run(s, before), op);
      }
    }
  }

  function Additions(ops: seq<SceneOp>): nat {
    if ops == [] then 0 else Additions(ops[..|ops| - 1]) + if ops[|ops| - 1].OpAdd? then 1 else 0
  }

  lemma StepRows(s: SceneValue, op: SceneOp)
    requires WellFormed(s.terrain)
    ensures |Apply(s, op).rows| <= |s.rows| + if op.OpAdd? then 1 else 0
  {
    if op.OpRemove? && Live(s.rows, op.id) {
      RemoveCounts(s, op.id);
    }
  }

  /** A scene that never held more than 256 entities is sound, whatever its capacity. */
  lemma {:induction false} FewAdditionsSound(s: SceneValue, ops: seq<SceneOp>)
    requires Sound(s) && |s.rows| + Additions(ops) <= 256
    ensures Sound(Run(s, ops)) && |Run(s, ops).rows| <= |s.rows| + Additions(ops)
  {
    if ops != [] {
      var before, op := ops[..|ops| - 1], ops[|ops| - 1];
      FewAdditionsSound(s, before);
      StepRows(Run(s, before), op);
      StepSound(Run(s, before), op);
      if ClosesCycle(Run(s, before), op) {
        CycleNeedsRows(Run(s, before), op);
      }
    }
  }

  /** In particular every state reached from a new scene of any capacity by at most 256 additions. */
  lemma NewSceneRunSound(cap: nat, ops: seq<SceneOp>)
    requires cap <= 256 || Additions(ops) <= 256
    ensures Sound(Run(Empty(cap, 128), ops))
  {
    EmptySound(cap, 128);
    if cap <= CLIMB_LIMIT {
      RowsWithinCap(Empty(cap, 128), ops);
    } else {
      FewAdditionsSound(Empty(cap, 128), ops);
    }
  }

  /** A scene with room for at most 256 rows stays sound over any run. */
  lemma {:induction false} RowsWithinCap(s: SceneValue, ops: seq<SceneOp>)
    requires Sound(s) && s.cap <= 256
    ensures Sound(Run(s, ops)) && Run(s, ops).cap == s.cap
  {
    if ops != [] {
      var before, op := Run(s, ops[..|ops| - 1]), ops[|ops| - 1];
      RowsWithinCap(s, ops[..|ops| - 1]);
      StepSound(before, op);
      StepKeepsCap(before, op);
      if ClosesCycle(before, op) {
        CycleNeedsRows(before, op);
      }
    }
  }

  lemma StepKeepsCap(s: SceneValue, op: SceneOp)
    requires WellFormed(s.terrain)
    ensures Apply(s, op).cap == s.cap && Apply(s, op).patchCap == s.patchCap
  {
  }

  // ---- A chain too long for the cycle check ----

  /** Row k has id k + 1 and hangs under row k - 1. */
  function Chain(n: nat): seq<Entity> {
    seq(n, k requires 0 <= k < n => Entity(k + 1, 0, k, 0.0, 0.0, 0.0, 1.0, ""))
  }

  function ChainScene(n: nat, cap: nat): SceneValue {
    SceneValue(Chain(n), cap, 0, 0, n + 1, [], 128)
  }

  /** An id's depth in the chain. */
  ghost function Depths(n: nat): (m: map<int, nat>)
    ensures forall id: nat :: id <= n ==> id in m && m[id] == id
  {
    if n == 0 then map[0 := 0] else Depths(n - 1)[n := n]
  }

  lemma ChainSound(n: nat, cap: nat)
    requires n <= cap
    ensures Sound(ChainScene(n, cap))
  {
    var rows := Chain(n);
    forall k | 0 <= k < n
      ensures rows[k].parentId == 0 || Live(rows, rows[k].parentId)
    {
      assert k > 0 ==> rows[k - 1].id == k;
    }
    assert Ranked(rows, Depths(n));
  }

  lemma {:induction false} ChainClimbs(n: nat, x: nat, fuel: nat)
    requires 1 <= x <= n
    ensures Climbs(Chain(n), x, 1, fuel) <==> x <= fuel
    decreases fuel
  {
    var rows := Chain(n);
    if fuel > 0 && x > 1 {
      assert rows[x - 1].id == x;
      ChainClimbs(n, x - 1, fuel - 1);
    }
  }

  /** Add an entity and hang it under the one added before. */
  function Link(id: int): seq<SceneOp> {
    [OpAdd(0, 0.0, 0.0, 0.0, 1.0), OpSetParent(id, id - 1)]
  }

  function ChainOps(n: nat): seq<SceneOp> {
    if n == 0 then [] else ChainOps(n - 1) + Link(n)
  }

  /** Climbing from inside the chain never meets the entity added after it. */
  lemma {:induction false} ChainMissesNext(n: nat, rows: seq<Entity>, x: nat, fuel: nat)
    requires rows == Chain(n) + [NewEntity(n + 1, 0, 0.0, 0.0, 0.0, 1.0)] && x <= n
    ensures !Climbs(rows, x, n + 1, fuel)
    decreases fuel
  {
    if fuel > 0 && x > 0 {
      assert rows[x - 1] == Chain(n)[x - 1] && rows[x - 1].id == x;
      ChainRow(n, rows, x);
      ChainMissesNext(n, rows, x - 1, fuel - 1);
    }
  }

  lemma ChainRow(n: nat, rows: seq<Entity>, x: nat)
    requires rows == Chain(n) + [NewEntity(n + 1, 0, 0.0, 0.0, 0.0, 1.0)] && 1 <= x <= n + 1
    ensures RowOf(rows, x) == x - 1
  {
    assert forall k :: 0 <= k < |rows| ==> rows[k].id == k + 1;
    assert rows[x - 1].id == x;
  }

  /** One more link makes the chain one longer. */
  lemma LinkStep(n: nat, cap: nat)
    requires n < cap
    ensures Apply(Apply(ChainScene(n, cap), Link(n + 1)[0]), Link(n + 1)[1]) == ChainScene(n + 1, cap)
  {
    var s := Apply(ChainScene(n, cap), Link(n + 1)[0]);
    assert s.rows == Chain(n) + [NewEntity(n + 1, 0, 0.0, 0.0, 0.0, 1.0)];
    ChainRow(n, s.rows, n + 1);
    if n > 0 {
      ChainRow(n, s.rows, n);
    }
    ChainMissesNext(n, s.rows, n, CLIMB_LIMIT);
    assert ParentAccepted(s, n + 1, n);
    assert s.rows[n := s.rows[n].(parentId := n)] == Chain(n + 1);
  }

  lemma RunTwoMore(s: SceneValue, ops: seq<SceneOp>, a: SceneOp, b: SceneOp)
    requires WellFormed(s.terrain)
    ensures Run(s, ops + [a, b]) == Apply(Apply(Run(s, ops), a), b)
  {
    var more := ops + [a, b];
    assert more[..|more| - 1] == ops + [a] && (ops + [a])[..|ops|] == ops;
    hide Apply;
    assert Run(s, ops + [a]) == Apply(Run(s, ops), a);
  }

  lemma ChainParts(n: nat, cap: nat)
    ensures |Link(n)| == 2
    ensures n == 0 ==> Run(Empty(cap, 128), ChainOps(0)) == ChainScene(0, cap)
    ensures n > 0 ==> ChainOps(n) == ChainOps(n - 1) + [Link(n)[0], Link(n)[1]]
  {
    assert Chain(0) == [];
  }

  lemma {:induction false} ChainReached(n: nat, cap: nat)
    requires n <= cap
    ensures Run(Empty(cap, 128), ChainOps(n)) == ChainScene(n, cap)
  {
    hide Run, Apply, ChainScene, ChainOps, Link;
    ChainParts(n, cap);
    if n > 0 {
      ChainReached(n - 1, cap);
      RunTwoMore(Empty(cap, 128), ChainOps(n - 1), Link(n)[0], Link(n)[1]);
      LinkStep(n - 1, cap);
    }
  }

  /**
   In a new scene, more than 256 entities each added under the one before form a chain; hanging
   its root under its end is then accepted and makes a cycle.
   */
  lemma LongChainBecomesCycle(n: nat, cap: nat)
    requires 256 < n <= cap
    ensures var s := Run(Empty(cap, 128), ChainOps(n));
      Sound(s) && ParentAccepted(s, 1, n) && !Forest(SetParent(s, 1, n).rows)
  {
    var rows := Chain(n);
    ChainReached(n, cap);
    ChainSound(n, cap);
    ChainClimbs(n, n, CLIMB_LIMIT);
    ChainClimbs(n, n, n);
    assert rows[0].id == 1 && rows[n - 1].id == n;
    RelinkedForestIff(ChainScene(n, cap), 1, n);
  }

  // ---- Filling a bound terrain ----

  predicate FilledBefore(g: Grid, h: (nat, nat) -> real, ix: nat, iz: nat)
    requires g.Valid()
  {
    forall jx: nat, jz: nat :: jx < g.nx && jz < g.nz && (jz < iz || (jz == iz && jx < ix)) ==> At(g, jx, jz) == h(jx, jz)
  }

  lemma FilledNext(g: Grid, h: (nat, nat) -> real, ix: nat, iz: nat)
    requires g.Valid() && 0 < ix <= g.nx && iz < g.nz && FilledBefore(g, h, ix - 1, iz)
    ensures FilledBefore(Set(g, ix - 1, iz, h(ix - 1, iz)), h, ix, iz)
  {
    var r := Set(g, ix - 1, iz, h(ix - 1, iz));
    hide At, Set;
    forall jx: nat, jz: nat | jx < g.nx && jz < g.nz && (jz < iz || (jz == iz && jx < ix))
      ensures At(r, jx, jz) == h(jx, jz)
    {
      AtAfterSet(g, ix - 1, iz, h(ix - 1, iz), jx, jz);
    }
  }

  lemma FilledRow(g: Grid, h: (nat, nat) -> real, iz: nat)
    requires g.Valid() && FilledBefore(g, h, g.nx, iz)
    ensures FilledBefore(g, h, 0, iz + 1)
  {
    hide At;
  }

  lemma SetCellParts(t: Table, id: int, ix: nat, iz: nat, v: real)
    requires WellFormed(t) && IndexOf(t, id) >= 0
    requires ix < t[IndexOf(t, id)].grid.nx && iz < t[IndexOf(t, id)].grid.nz
    ensures var i := IndexOf(t, id); var r := TerrainTable.SetCell(t, id, ix, iz, v);
      && |r| == |t| && r[i].id == id && r[i].grid == Set(t[i].grid, ix, iz, v)
      && forall k :: 0 <= k < |t| && k != i ==> r[k] == t[k]
  {
  }

  /** The same patches, up to the grid of patch i. */
  predicate SameButGrid(t: Table, r: Table, i: nat) {
    && i < |t| == |r| && r[i].id == t[i].id
    && r[i].grid.nx == t[i].grid.nx && r[i].grid.nz == t[i].grid.nz
    && forall k :: 0 <= k < |t| && k != i ==> r[k] == t[k]
  }

  lemma SameButGridYet(t: Table, m: Table, r: Table, i: nat)
    requires SameButGrid(t, m, i) && SameButGrid(m, r, i)
    ensures SameButGrid(t, r, i)
  {
  }

  /** i is where id's patch lies: filling leaves it there, and touches no other. */
  lemma {:induction false} FillExact(t: Table, id: int, h: (nat, nat) -> real, i: nat, ix: nat, iz: nat)
    requires WellFormed(t) && i < |t| && t[i].id == id && ix <= t[i].grid.nx
    requires iz < t[i].grid.nz || (ix == 0 && iz == t[i].grid.nz)
    ensures var r := FillUpTo(t, id, h, t[i].grid.nx, ix, iz);
      SameButGrid(t, r, i) && i < |r| && r[i].grid.Valid() && FilledBefore(r[i].grid, h, ix, iz)
    decreases iz, ix
  {
    hide FilledBefore, At, Set, WellFormed, IndexOf, TerrainTable.SetCell, SameButGrid;
    var nx := t[i].grid.nx;
    NothingFilled(t, i, h);
    if ix > 0 {
      FillExact(t, id, h, i, ix - 1, iz);
      var before := FillUpTo(t, id, h, nx, ix - 1, iz);
      GridSize(t, before, i);
      FillCell(t, before, id, h, i, ix, iz);
      SameButGridYet(t, before, TerrainTable.SetCell(before, id, ix - 1, iz, h(ix - 1, iz)), i);
    } else if iz > 0 {
      FillExact(t, id, h, i, nx, iz - 1);
      GridSize(t, FillUpTo(t, id, h, nx, nx, iz - 1), i);
      FilledRow(FillUpTo(t, id, h, nx, nx, iz - 1)[i].grid, h, iz - 1);
    }
  }

  lemma GridSize(t: Table, r: Table, i: nat)
    requires SameButGrid(t, r, i)
    ensures i < |t| == |r| && r[i].id == t[i].id && r[i].grid.nx == t[i].grid.nx && r[i].grid.nz == t[i].grid.nz
  {
  }

  /** One more cell of a patch that is filled up to it. */
  lemma FillCell(t: Table, before: Table, id: int, h: (nat, nat) -> real, i: nat, ix: nat, iz: nat)
    requires WellFormed(before) && SameButGrid(t, before, i) && i < |t| == |before| && t[i].id == id
    requires before[i].grid.Valid() && 0 < ix <= t[i].grid.nx && iz < t[i].grid.nz
    requires before[i].grid.nx == t[i].grid.nx && FilledBefore(before[i].grid, h, ix - 1, iz)
    ensures var r := TerrainTable.SetCell(before, id, ix - 1, iz, h(ix - 1, iz));
      && SameButGrid(before, r, i) && i < |r| && r[i].grid.Valid() && FilledBefore(r[i].grid, h, ix, iz)
  {
    hide FilledBefore, At, WellFormed, IndexOf, TerrainTable.SetCell;
    PatchAt(before, id, i);
    SetCellParts(before, id, ix - 1, iz, h(ix - 1, iz));
    FilledNext(before[i].grid, h, ix, iz);
  }

  lemma NothingFilled(t: Table, i: nat, h: (nat, nat) -> real)
    requires WellFormed(t) && i < |t|
    ensures SameButGrid(t, t, i) && t[i].grid.Valid() && FilledBefore(t[i].grid, h, 0, 0)
  {
  }

  lemma PatchAt(t: Table, id: int, i: nat)
    requires WellFormed(t) && i < |t| && t[i].id == id
    ensures IndexOf(t, id) == i
  {
  }

  lemma PathKeepsKind(s: SceneValue, id: int, path: string)
    requires Sound(s) && IsTerrain(s, id)
    ensures var r := SetMeshPath(s, id, path);
      && r.terrain == s.terrain && r.patchCap == s.patchCap && IsTerrain(r, id)
      && r.rows[RowOf(r.rows, id)].meshPath == StoredPath(path)
  {
    var i, r := RowOf(s.rows, id), SetMeshPath(s, id, path);
    assert r.rows[i].id == id;
    assert UniqueIds(r.rows, s.nextId);
    LiveAt(r.rows, s.nextId, i);
  }

  /**
   A bind leaves the path in the entity; a successful one leaves it owning a grid with exactly
   the given heights.
   */
  lemma BindFills(s: SceneValue, id: int, nx: int, nz: int, h: (nat, nat) -> real, path: string, ix: nat, iz: nat)
    requires Sound(s) && IsTerrain(s, id)
    ensures var r := BindTerrain(s, id, nx, nz, h, path);
      Live(r.rows, id) && r.rows[RowOf(r.rows, id)].meshPath == StoredPath(path)
    ensures Bindable(s, id, nx, nz) && ix < AtLeastTwo(nx) && iz < AtLeastTwo(nz) ==>
      var t := BindTerrain(s, id, nx, nz, h, path).terrain; var i := IndexOf(t, id);
      && WellFormed(t) && i >= 0 && t[i].grid.nx == AtLeastTwo(nx) && t[i].grid.nz == AtLeastTwo(nz)
      && At(t[i].grid, ix, iz) == h(ix, iz)
  {
    var m := SetMeshPath(s, id, path);
    PathSound(s, id, path);
    PathKeepsKind(s, id, path);
    if Bindable(s, id, nx, nz) && ix < AtLeastTwo(nx) && iz < AtLeastTwo(nz) {
      GridFills(m, id, nx, nz, h, ix, iz);
    }
    hide SetMeshPath, FillUpTo, CreateGrid, Sound;
  }

  lemma GridFills(s: SceneValue, id: int, nx: int, nz: int, h: (nat, nat) -> real, ix: nat, iz: nat)
    requires Sound(s) && Bindable(s, id, nx, nz) && ix < AtLeastTwo(nx) && iz < AtLeastTwo(nz)
    ensures var t := BindGrid(s, id, nx, nz, h).terrain; var i := IndexOf(t, id);
      && WellFormed(t) && i >= 0 && t[i].grid.nx == AtLeastTwo(nx) && t[i].grid.nz == AtLeastTwo(nz)
      && At(t[i].grid, ix, iz) == h(ix, iz)
  {
    var t := CreateGrid(s.terrain, s.patchCap, id, nx, nz);
    var last := |t| - 1;
    CreateKeeps(s.terrain, s.patchCap, id, nx, nz);
    assert t[last].id == id && t[last].grid.nx == AtLeastTwo(nx) && t[last].grid.nz == AtLeastTwo(nz);
    hide CreateGrid, FillUpTo, At, Flat;
    FillExact(t, id, h, last, 0, AtLeastTwo(nz));
    var r := FillUpTo(t, id, h, AtLeastTwo(nx), 0, AtLeastTwo(nz));
    PatchAt(r, id, last);
    assert FilledBefore(r[last].grid, h, 0, AtLeastTwo(nz));
  }
}
