/** Building and caching the mesh of a whole voxel world (examples/gpu_stress_3d/voxel_scene.rs). */
module VoxelScene {
  import opened Wrappers
  import opened Rectangles
  import opened Voxels
  import opened VoxelMesh

  /** The upload budget in bytes. */
  const LIMIT: nat := 4 * 1024 * 1024

  /** What a number of quads takes of it. */
  function Bytes(quads: nat): nat { 80 * quads }

  datatype Draw = Draw(face: nat, first: nat, count: nat)
  datatype Mesh = Mesh(instances: seq<Quad>, draws: seq<Draw>, blockCount: nat, exposedFaces: nat)
  datatype Frame = Frame(mesh: Mesh, revision: nat, resident: nat, pending: nat, built: nat)
  datatype MeshError = GroupBudget | TotalBudget

  // ---- One buffer and one draw per direction ----

  function Instances(groups: seq<seq<Quad>>): seq<Quad> {
    if groups == [] then [] else Instances(groups[..|groups| - 1]) + groups[|groups| - 1]
  }

  function Draws(groups: seq<seq<Quad>>): seq<Draw> {
    if groups == [] then []
    else
      var last := |groups| - 1;
      Draws(groups[..last]) + if groups[last] == [] then [] else [Draw(last, |Instances(groups[..last])|, |groups[last]|)]
  }

  /** Draws that cut a buffer into consecutive runs, without a gap or an empty draw. */
  ghost predicate Tiling(draws: seq<Draw>, total: nat) {
    if draws == [] then total == 0
    else
      var last := draws[|draws| - 1];
      last.count > 0 && last.first + last.count == total && Tiling(draws[..|draws| - 1], last.first)
  }

  /** What a draw shows. */
  function Drawn(d: Draw, instances: seq<Quad>): seq<Quad> {
    if d.first + d.count <= |instances| then instances[d.first..d.first + d.count] else []
  }

  lemma {:induction false} DrawsTile(groups: seq<seq<Quad>>)
    ensures Tiling(Draws(groups), |Instances(groups)|)
    ensures forall k :: 0 <= k < |Draws(groups)| ==> Draws(groups)[k].face < |groups|
  {
    if groups != [] {
      var last := |groups| - 1;
      DrawsTile(groups[..last]);
      if groups[last] != [] {
        assert Draws(groups)[..|Draws(groups)| - 1] == Draws(groups[..last]);
      } else {
        assert Draws(groups) == Draws(groups[..last]);
      }
      forall k | 0 <= k < |Draws(groups)| ensures Draws(groups)[k].face < |groups| {
        if k < |Draws(groups[..last])| {
          assert Draws(groups)[k] == Draws(groups[..last])[k];
        }
      }
    }
  }

  lemma DrawnKeeps(d: Draw, a: seq<Quad>, b: seq<Quad>)
    requires d.first + d.count <= |a|
    ensures Drawn(d, a + b) == Drawn(d, a)
  {
  }

  lemma {:induction false} DrawsShow(groups: seq<seq<Quad>>, k: nat)
    requires k < |Draws(groups)|
    ensures Draws(groups)[k].face < |groups| && Drawn(Draws(groups)[k], Instances(groups)) == groups[Draws(groups)[k].face]
  {
    var last := |groups| - 1;
    var before := groups[..last];
    if k < |Draws(before)| {
      DrawsShow(before, k);
      DrawsTile(before);
      DrawsStayInside(Draws(before), |Instances(before)|);
      DrawnKeeps(Draws(before)[k], Instances(before), groups[last]);
    }
  }

  lemma {:induction false} DrawsRise(groups: seq<seq<Quad>>, j: nat, k: nat)
    requires j < k < |Draws(groups)|
    ensures Draws(groups)[j].face < Draws(groups)[k].face
  {
    var before := groups[..|groups| - 1];
    DrawsTile(before);
    if k < |Draws(before)| {
      DrawsRise(before, j, k);
    }
  }

  lemma {:induction false} DrawsMissNone(groups: seq<seq<Quad>>, f: nat) returns (k: nat)
    requires f < |groups| && groups[f] != []
    ensures k < |Draws(groups)| && Draws(groups)[k].face == f
  {
    var last := |groups| - 1;
    if f < last {
      k := DrawsMissNone(groups[..last], f);
    } else {
      k := |Draws(groups[..last])|;
    }
  }

  /** The draws tile the buffer by rising direction, and a direction's draw, there exactly when it has quads, shows exactly them. */
  lemma DrawsTileTheBuffer(groups: seq<seq<Quad>>)
    ensures Tiling(Draws(groups), |Instances(groups)|)
    ensures forall j, k :: 0 <= j < k < |Draws(groups)| ==> Draws(groups)[j].face < Draws(groups)[k].face
    ensures forall k :: 0 <= k < |Draws(groups)| ==>
      Draws(groups)[k].face < |groups| && Drawn(Draws(groups)[k], Instances(groups)) == groups[Draws(groups)[k].face]
    ensures forall f :: 0 <= f < |groups| && groups[f] != [] ==> exists k :: 0 <= k < |Draws(groups)| && Draws(groups)[k].face == f
  {
    DrawsTile(groups);
    forall j: nat, k: nat | j < k < |Draws(groups)| ensures Draws(groups)[j].face < Draws(groups)[k].face {
      DrawsRise(groups, j, k);
    }
    forall k: nat | k < |Draws(groups)| ensures Draws(groups)[k].face < |groups| && Drawn(Draws(groups)[k], Instances(groups)) == groups[Draws(groups)[k].face] {
      DrawsShow(groups, k);
    }
    forall f: nat | f < |groups| && groups[f] != [] ensures exists k :: 0 <= k < |Draws(groups)| && Draws(groups)[k].face == f {
      var k := DrawsMissNone(groups, f);
    }
  }

  lemma {:induction false} DrawsStayInside(draws: seq<Draw>, total: nat)
    requires Tiling(draws, total)
    ensures forall k :: 0 <= k < |draws| ==> draws[k].first + draws[k].count <= total
  {
    if draws != [] {
      var last := |draws| - 1;
      DrawsStayInside(draws[..last], draws[last].first);
    }
  }

  // ---- The mesh of a world ----

  /** The quads of each direction after the tiles it has seen. */
  ghost function GroupsAt(w: VoxelWorld, done: seq<seq<Tile>>): (g: seq<seq<Quad>>)
    ensures |g| == |done|
  {
    if done == [] then [] else GroupsAt(w, done[..|done| - 1]) + [Group(w, |done| - 1, done[|done| - 1])]
  }

  /** The face counter after the tiles each direction has seen. */
  ghost function SeenAt(w: VoxelWorld, done: seq<seq<Tile>>): nat {
    if done == [] then 0 else SeenAt(w, done[..|done| - 1]) + FacesSeen(w, |done| - 1, done[|done| - 1])
  }

  ghost function AllTiles(w: VoxelWorld): seq<seq<Tile>> { seq(6, _ => Order(w)) }

  ghost function Groups(w: VoxelWorld): (g: seq<seq<Quad>>)
    ensures |g| == 6
  {
    GroupsAt(w, AllTiles(w))
  }

  /** Blocks in the first `n` columns of a row of the height field. */
  function RowBlocks(w: VoxelWorld, x: nat, n: nat): nat {
    if n == 0 then 0 else RowBlocks(w, x, n - 1) + ColumnHeight(w, x, n - 1)
  }

  function Blocks(w: VoxelWorld, n: nat): nat {
    if n == 0 then 0 else Blocks(w, n - 1) + RowBlocks(w, n - 1, Edge(w))
  }

  /** How many solid voxels the lowest `n` of a column hold. */
  ghost function Solid(w: VoxelWorld, x: int, z: int, n: nat): nat {
    if n == 0 then 0 else Solid(w, x, z, n - 1) + if Material(w, Point(x, n - 1, z)) != 0 then 1 else 0
  }

  lemma {:induction false} SolidUpTo(w: VoxelWorld, x: int, z: int, n: nat)
    requires w.region.Some? || (0 <= x < Edge(w) && 0 <= z < Edge(w))
    ensures Solid(w, x, z, n) == if n <= ColumnHeight(w, x, z) then n else ColumnHeight(w, x, z)
  {
    if n > 0 { SolidUpTo(w, x, z, n - 1); }
  }

  /** The solid voxels of the first `n` columns of a row, and of the first `rows` rows. */
  ghost function SolidInRow(w: VoxelWorld, x: int, n: nat): nat {
    if n == 0 then 0 else SolidInRow(w, x, n - 1) + Solid(w, x, n - 1, 12)
  }

  ghost function SolidInRows(w: VoxelWorld, rows: nat): nat {
    if rows == 0 then 0 else SolidInRows(w, rows - 1) + SolidInRow(w, rows - 1, Edge(w))
  }

  lemma {:induction false} RowBlocksAreSolid(w: VoxelWorld, x: nat, n: nat)
    requires x < Edge(w) && n <= Edge(w)
    ensures RowBlocks(w, x, n) == SolidInRow(w, x, n)
  {
    if n > 0 {
      RowBlocksAreSolid(w, x, n - 1);
      SolidUpTo(w, x, n - 1, 12);
    }
  }

  /** The counted blocks are the voxels that are not air. */
  lemma {:induction false} BlocksAreSolid(w: VoxelWorld, rows: nat)
    requires rows <= Edge(w)
    ensures Blocks(w, rows) == SolidInRows(w, rows)
  {
    if rows > 0 {
      BlocksAreSolid(w, rows - 1);
      RowBlocksAreSolid(w, rows - 1, Edge(w));
    }
  }

  ghost function MeshOf(w: VoxelWorld): Mesh {
    Mesh(Instances(Groups(w)), Draws(Groups(w)), Blocks(w, Edge(w)), SeenAt(w, AllTiles(w)))
  }

  ghost predicate WithinBudget(w: VoxelWorld) { Bytes(|Instances(Groups(w))|) <= LIMIT }

  ghost predicate EachWithin(groups: seq<seq<Quad>>) {
    forall f :: 0 <= f < |groups| ==> Bytes(|groups[f]|) <= LIMIT
  }

  ghost predicate SomeGroupTooLarge(w: VoxelWorld) { !EachWithin(Groups(w)) }

  lemma {:induction false} GroupAt(w: VoxelWorld, done: seq<seq<Tile>>, f: nat)
    requires f < |done|
    ensures GroupsAt(w, done)[f] == Group(w, f, done[f])
  {
    if f < |done| - 1 { GroupAt(w, done[..|done| - 1], f); }
  }

  /** How many instances the groups hold. */
  function Size(groups: seq<seq<Quad>>): nat {
    if groups == [] then 0 else Size(groups[..|groups| - 1]) + |groups[|groups| - 1]|
  }

  lemma {:induction false} InstancesSize(groups: seq<seq<Quad>>)
    ensures |Instances(groups)| == Size(groups)
  {
    if groups != [] { InstancesSize(groups[..|groups| - 1]); }
  }

  lemma {:induction false} SizeIsBounded(groups: seq<seq<Quad>>, each: nat)
    requires forall f :: 0 <= f < |groups| ==> |groups[f]| <= each
    ensures Size(groups) <= |groups| * each
  {
    if groups != [] {
      SizeIsBounded(groups[..|groups| - 1], each);
      assert |groups| * each == (|groups| - 1) * each + each;
    }
  }

  lemma {:induction false} SizeHasPart(groups: seq<seq<Quad>>, f: nat)
    requires f < |groups|
    ensures |groups[f]| <= Size(groups)
  {
    if f < |groups| - 1 { SizeHasPart(groups[..|groups| - 1], f); }
  }

  ghost function AreaUpTo(groups: seq<seq<Quad>>): int {
    if groups == [] then 0 else AreaUpTo(groups[..|groups| - 1]) + TotalArea(|groups| - 1, groups[|groups| - 1])
  }

  lemma {:induction false} AreaIsSeen(w: VoxelWorld, done: seq<seq<Tile>>)
    ensures AreaUpTo(GroupsAt(w, done)) == SeenAt(w, done)
  {
    if done != [] {
      var last := |done| - 1;
      AreaIsSeen(w, done[..last]);
      GroupArea(w, last, done[last]);
    }
  }

  /** The whole mesh spans as many unit faces as the counter reports. */
  lemma MeshAreaIsExposedFaces(w: VoxelWorld)
    ensures MeshOf(w).exposedFaces == AreaUpTo(Groups(w))
  {
    AreaIsSeen(w, AllTiles(w));
  }

  /** One chunk can never exceed the budget. */
  lemma ChunkIsWithinBudget(w: VoxelWorld)
    requires w.region.Some?
    ensures WithinBudget(w)
  {
    InstancesSize(Groups(w));
    ChunkOrder(w);
    forall f: nat | f < 6 ensures |Groups(w)[f]| <= 4096 {
      GroupAt(w, AllTiles(w), f);
      GroupIsBounded(w, f, Order(w));
    }
    SizeIsBounded(Groups(w), 4096);
  }

  lemma ChunkOrder(w: VoxelWorld)
    requires w.region.Some?
    ensures |Order(w)| == 16
  {
    OneChunk(Across(w));
  }

  lemma OneChunk(n: nat)
    requires n == 1
    ensures |TilesOf(n, n)| == 16
  {
    assert TilesOf(n, n) == TilesOf(n, n - 1) + RowTiles(n - 1, n);
    assert RowTiles(n - 1, n) == RowTiles(n - 1, n - 1) + SliceTiles(n - 1, n - 1, 16);
  }

  ghost predicate SameChunk(a: VoxelWorld, b: VoxelWorld) {
    a.region.Some? && a.seed == b.seed && a.region == b.region
  }

  /** A chunk's mesh does not depend on the block budget of the world it was cloned from. */
  lemma ChunkIgnoresBlocks(a: VoxelWorld, b: VoxelWorld)
    requires SameChunk(a, b)
    ensures MeshOf(a) == MeshOf(b)
  {
    GroupsIgnoreBlocks(a, b, AllTiles(a));
    BlocksIgnoreBudget(a, b, Edge(a));
  }

  lemma {:induction false} GroupsIgnoreBlocks(a: VoxelWorld, b: VoxelWorld, done: seq<seq<Tile>>)
    requires SameChunk(a, b)
    ensures GroupsAt(a, done) == GroupsAt(b, done) && SeenAt(a, done) == SeenAt(b, done)
  {
    if done != [] {
      var last := |done| - 1;
      GroupsIgnoreBlocks(a, b, done[..last]);
      GroupIgnoresBlocks(a, b, last, done[last]);
    }
  }

  lemma {:induction false} GroupIgnoresBlocks(a: VoxelWorld, b: VoxelWorld, face: nat, ts: seq<Tile>)
    requires SameChunk(a, b)
    ensures Group(a, face, ts) == Group(b, face, ts) && FacesSeen(a, face, ts) == FacesSeen(b, face, ts)
  {
    if ts != [] {
      var t := ts[|ts| - 1];
      GroupIgnoresBlocks(a, b, face, ts[..|ts| - 1]);
      MaskIgnoresBlocks(a, b, face, t);
      QuadsIgnoreBlocks(a, b, face, t, Rects(MaskOf(a, face, t)));
      TileQuadsAre(a, face, t);
      TileQuadsAre(b, face, t);
      TileFacesAre(a, face, t);
      TileFacesAre(b, face, t);
    }
  }

  lemma QuadsIgnoreBlocks(a: VoxelWorld, b: VoxelWorld, face: nat, t: Tile, rs: seq<Rect>)
    requires SameChunk(a, b)
    ensures QuadsOf(a, face, t, rs) == QuadsOf(b, face, t, rs)
  {
    assert Offset(a) == Offset(b);
    forall r | true ensures QuadOf(a, face, t, r) == QuadOf(b, face, t, r) {}
  }

  lemma MaterialIgnoresBlocks(a: VoxelWorld, b: VoxelWorld, p: Point)
    requires SameChunk(a, b)
    ensures Material(a, p) == Material(b, p)
  {
    HeightIgnoresBudget(a, b, p.x, p.z);
  }

  lemma MaskIgnoresBlocks(a: VoxelWorld, b: VoxelWorld, face: nat, t: Tile)
    requires SameChunk(a, b)
    ensures MaskOf(a, face, t) == MaskOf(b, face, t)
  {
    forall c | 0 <= c < 256 ensures MaskOf(a, face, t)[c] == MaskOf(b, face, t)[c] {
      var p := Place(face, t, c % 16, c / 16);
      MaskAt(a, face, t, c % 16, c / 16);
      MaskAt(b, face, t, c % 16, c / 16);
      MaterialIgnoresBlocks(a, b, p);
      MaterialIgnoresBlocks(a, b, Neighbour(face, p));
    }
  }

  lemma HeightIgnoresBudget(a: VoxelWorld, b: VoxelWorld, x: int, z: int)
    requires SameChunk(a, b)
    ensures ColumnHeight(a, x, z) == ColumnHeight(b, x, z)
  {
  }

  lemma {:induction false} RowIgnoresBudget(a: VoxelWorld, b: VoxelWorld, x: nat, n: nat)
    requires SameChunk(a, b)
    ensures RowBlocks(a, x, n) == RowBlocks(b, x, n)
  {
    if n > 0 {
      RowIgnoresBudget(a, b, x, n - 1);
      HeightIgnoresBudget(a, b, x, n - 1);
    }
  }

  lemma {:induction false} BlocksIgnoreBudget(a: VoxelWorld, b: VoxelWorld, n: nat)
    requires SameChunk(a, b)
    ensures Blocks(a, n) == Blocks(b, n)
  {
    if n > 0 {
      var edge := Edge(a);
      BlocksIgnoreBudget(a, b, n - 1);
      RowIgnoresBudget(a, b, n - 1, edge);
      assert edge == Edge(b);
    }
  }

  // ---- The mesher ----

  /** A mask filled in up to a cell, and the number of faces seen so far. */
  ghost predicate Filling(now: seq<nat>, m: Mask, n: nat, seen: nat) {
    |now| == 256 && n <= 256 && seen == Filled(m[..n]) && forall c :: 0 <= c < 256 ==> now[c] == if c < n then m[c] else 0
  }

  lemma FillOne(now: seq<nat>, m: Mask, n: nat, seen: nat)
    requires Filling(now, m, n, seen) && n < 256
    ensures Filling(if m[n] == 0 then now else now[n := m[n]], m, n + 1, if m[n] == 0 then seen else seen + 1)
  {
    assert m[..n + 1][..n] == m[..n];
  }

  method FillCell(mask: array<nat>, material: nat, i: nat, j: nat, before: nat, ghost m: Mask) returns (seen: nat)
    requires mask.Length == 256 && i < 16 && j < 16 && Filling(mask[..], m, j * 16 + i, before) && m[Cell(i, j)] == material
    modifies mask
    ensures Filling(mask[..], m, j * 16 + i + 1, seen)
  {
    seen := before;
    FillOne(mask[..], m, Cell(i, j), seen);
    if material != 0 {
      ghost var was := mask[..];
      mask[Cell(i, j)] := material;
      assert mask[..] == was[Cell(i, j) := material];
      seen := seen + 1;
    }
  }

  method BuildMask(w: VoxelWorld, face: nat, t: Tile) returns (mask: array<nat>, seen: nat)
    ensures fresh(mask) && mask.Length == 256 && mask[..] == MaskOf(w, face, t)
    ensures seen == Filled(MaskOf(w, face, t))
  {
    mask := new nat[256](_ => 0);
    seen := 0;
    ghost var m: Mask := MaskOf(w, face, t);
    for j: nat := 0 to 16
      invariant Filling(mask[..], m, j * 16, seen)
    {
      for i: nat := 0 to 16
        invariant Filling(mask[..], m, j * 16 + i, seen)
      {
        MaskAt(w, face, t, i, j);
        seen := FillCell(mask, Exposed(w, face, Place(face, t, i, j)), i, j, seen, m);
      }
    }
    assert m[..256] == m;
    assert mask[..] == m;
  }

  /** Appends quads one by one, unless they outgrow the budget. */
  method Push(w: VoxelWorld, face: nat, t: Tile, rs: seq<Rect>, group: seq<Quad>) returns (ok: bool, out: seq<Quad>)
    requires Bytes(|group|) <= LIMIT
    ensures ok <==> Bytes(|group| + |rs|) <= LIMIT
    ensures ok ==> out == group + QuadsOf(w, face, t, rs)
  {
    out := group;
    ghost var quads := QuadsOf(w, face, t, rs);
    for k := 0 to |rs|
      invariant out == group + quads[..k] && Bytes(|group| + k) <= LIMIT
    {
      out := out + [QuadOf(w, face, t, rs[k])];
      if Bytes(|out|) > LIMIT {
        return false, out;
      }
    }
    ok := true;
  }

  /** Adds one tile's quads to its direction, unless the direction outgrows the budget. */
  method AddTile(w: VoxelWorld, face: nat, t: Tile, group: seq<Quad>) returns (ok: bool, out: seq<Quad>, seen: nat)
    requires Bytes(|group|) <= LIMIT
    ensures ok <==> Bytes(|group + TileQuads(w, face, t)|) <= LIMIT
    ensures ok ==> out == group + TileQuads(w, face, t) && seen == TileFaces(w, face, t)
  {
    TileQuadsAre(w, face, t);
    TileFacesAre(w, face, t);
    var mask: array<nat>;
    mask, seen := BuildMask(w, face, t);
    var rs := TakeRectangles(mask);
    ok, out := Push(w, face, t, rs, group);
  }

  /** Each direction holds the quads of the tiles it has seen, and the counter what they showed. */
  ghost predicate Progress(w: VoxelWorld, groups: seq<seq<Quad>>, done: seq<seq<Tile>>, exposed: nat) {
    |done| == 6 && groups == GroupsAt(w, done) && exposed == SeenAt(w, done) && EachWithin(groups)
  }

  lemma GroupStep(w: VoxelWorld, face: nat, ts: seq<Tile>, t: Tile)
    ensures Group(w, face, ts + [t]) == Group(w, face, ts) + TileQuads(w, face, t)
    ensures FacesSeen(w, face, ts + [t]) == FacesSeen(w, face, ts) + TileFaces(w, face, t)
  {
    assert (ts + [t])[..|ts|] == ts;
  }

  lemma {:induction false} SeenStep(w: VoxelWorld, done: seq<seq<Tile>>, face: nat, ts: seq<Tile>)
    requires face < |done|
    ensures SeenAt(w, done[face := ts]) + FacesSeen(w, face, done[face]) == SeenAt(w, done) + FacesSeen(w, face, ts)
  {
    var last := |done| - 1;
    if face < last {
      SeenStep(w, done[..last], face, ts);
      assert done[face := ts][..last] == done[..last][face := ts];
    } else {
      assert done[face := ts][..last] == done[..last];
    }
  }

  lemma GroupsStep(w: VoxelWorld, done: seq<seq<Tile>>, face: nat, ts: seq<Tile>)
    requires face < |done|
    ensures GroupsAt(w, done[face := ts]) == GroupsAt(w, done)[face := Group(w, face, ts)]
  {
    var before, after := GroupsAt(w, done), GroupsAt(w, done[face := ts]);
    forall f: nat | f < |done| ensures after[f] == if f == face then Group(w, face, ts) else before[f] {
      GroupAt(w, done, f);
      GroupAt(w, done[face := ts], f);
    }
  }

  lemma ProgressStep(w: VoxelWorld, groups: seq<seq<Quad>>, done: seq<seq<Tile>>, exposed: nat, face: nat, t: Tile)
    requires Progress(w, groups, done, exposed) && face < 6
    requires Bytes(|groups[face] + TileQuads(w, face, t)|) <= LIMIT
    ensures Progress(w, groups[face := groups[face] + TileQuads(w, face, t)], done[face := done[face] + [t]], exposed + TileFaces(w, face, t))
  {
    GroupStep(w, face, done[face], t);
    SeenStep(w, done, face, done[face] + [t]);
    GroupsStep(w, done, face, done[face] + [t]);
    GroupAt(w, done, face);
  }

  /** Some direction outgrows the budget. */
  ghost predicate Overflows(w: VoxelWorld) {
    exists f :: 0 <= f < 6 && Bytes(|Group(w, f, Order(w))|) > LIMIT
  }

  lemma PartIsTooMuch(w: VoxelWorld, face: nat, ts: seq<Tile>)
    requires face < 6 && ts <= Order(w) && Bytes(|Group(w, face, ts)|) > LIMIT
    ensures Overflows(w)
  {
    GroupGrows(w, face, ts, Order(w));
  }

  lemma OverflowIsTooMuch(w: VoxelWorld)
    requires Overflows(w)
    ensures SomeGroupTooLarge(w) && !WithinBudget(w)
  {
    var face: nat :| face < 6 && Bytes(|Group(w, face, Order(w))|) > LIMIT;
    GroupAt(w, AllTiles(w), face);
    InstancesSize(Groups(w));
    SizeHasPart(Groups(w), face);
    assert Bytes(|Groups(w)[face]|) > LIMIT;
  }

  /** One slice of one chunk in one direction. */
  method AddSlice(w: VoxelWorld, t: Tile, face: nat, groups: seq<seq<Quad>>, exposed: nat, ghost done: seq<seq<Tile>>)
    returns (ok: bool, groups': seq<seq<Quad>>, exposed': nat)
    requires Progress(w, groups, done, exposed) && face < 6 && done[face] + [t] <= Order(w)
    ensures ok ==> Progress(w, groups', done[face := done[face] + [t]], exposed')
    ensures !ok ==> Overflows(w)
  {
    var out, seen;
    ok, out, seen := AddTile(w, face, t, groups[face]);
    if ok {
      ProgressStep(w, groups, done, exposed, face, t);
    } else {
      GroupStep(w, face, done[face], t);
      GroupAt(w, done, face);
      PartIsTooMuch(w, face, done[face] + [t]);
    }
    groups' := groups[face := out];
    exposed' := exposed + seen;
  }

  /** The tiles each direction has seen when `faces` of them are one chunk ahead by `slices`. */
  ghost function Ahead(before: seq<Tile>, chunk: seq<Tile>, faces: nat): (s: seq<seq<Tile>>)
    ensures |s| == 6
  {
    seq(6, f => if f < faces then before + chunk else before)
  }

  /** All slices of one chunk in one direction. */
  method AddSlices(w: VoxelWorld, cx: nat, cz: nat, face: nat, groups: seq<seq<Quad>>, exposed: nat, ghost done: seq<seq<Tile>>)
    returns (ok: bool, groups': seq<seq<Quad>>, exposed': nat)
    requires Progress(w, groups, done, exposed) && face < 6 && cx < Across(w) && cz < Across(w)
    requires done[face] == TilesOf(Across(w), cx) + RowTiles(cx, cz)
    ensures ok ==> Progress(w, groups', done[face := done[face] + SliceTiles(cx, cz, 16)], exposed')
    ensures !ok ==> Overflows(w)
  {
    ok, groups', exposed' := true, groups, exposed;
    ghost var now := done;
    assert done[face] + SliceTiles(cx, cz, 0) == done[face];
    for slice: nat := 0 to 16
      invariant ok && Progress(w, groups', now, exposed') && now == done[face := done[face] + SliceTiles(cx, cz, slice)]
    {
      ghost var t := Tile(cx, cz, slice);
      NextSlice(Across(w), cx, cz, slice);
      assert done[face] + SliceTiles(cx, cz, slice + 1) == now[face] + [t];
      ok, groups', exposed' := AddSlice(w, Tile(cx, cz, slice), face, groups', exposed', now);
      if !ok {
        return;
      }
      now := now[face := now[face] + [t]];
    }
  }

  lemma NextSlice(n: nat, cx: nat, cz: nat, slice: nat)
    requires cx < n && cz < n && slice < 16
    ensures SliceTiles(cx, cz, slice + 1) == SliceTiles(cx, cz, slice) + [Tile(cx, cz, slice)]
    ensures TilesOf(n, cx) + RowTiles(cx, cz) + SliceTiles(cx, cz, slice + 1) <= TilesOf(n, n)
  {
    ScanPrefix(n, cx, cz, slice + 1);
    assert TilesOf(n, cx) + RowTiles(cx, cz) + SliceTiles(cx, cz, slice + 1) == TilesOf(n, cx) + (RowTiles(cx, cz) + SliceTiles(cx, cz, slice + 1));
  }

  /** All directions have seen the same tiles. */
  ghost predicate AllSaw(w: VoxelWorld, groups: seq<seq<Quad>>, seen: seq<Tile>, exposed: nat) {
    forall done: seq<seq<Tile>> {:trigger Progress(w, groups, done, exposed)} ::
      done == Ahead(seen, [], 0) ==> Progress(w, groups, done, exposed)
  }

  /** All directions of one chunk. */
  method AddChunk(w: VoxelWorld, cx: nat, cz: nat, groups: seq<seq<Quad>>, exposed: nat, ghost before: seq<Tile>)
    returns (ok: bool, groups': seq<seq<Quad>>, exposed': nat)
    requires cx < Across(w) && cz < Across(w) && before == TilesOf(Across(w), cx) + RowTiles(cx, cz)
    requires AllSaw(w, groups, before, exposed)
    ensures ok ==> AllSaw(w, groups', before + SliceTiles(cx, cz, 16), exposed')
    ensures !ok ==> Overflows(w)
  {
    ghost var chunk := SliceTiles(cx, cz, 16);
    ok, groups', exposed' := true, groups, exposed;
    AheadIsNext(before, chunk);
    assert Progress(w, groups, Ahead(before, [], 0), exposed);
    for face: nat := 0 to 6
      invariant ok && Progress(w, groups', Ahead(before, chunk, face), exposed')
    {
      AheadByOne(before, chunk, face);
      ok, groups', exposed' := AddSlices(w, cx, cz, face, groups', exposed', Ahead(before, chunk, face));
      if !ok {
        return;
      }
    }
  }

  lemma NextChunk(cx: nat, cz: nat, before: seq<Tile>, seen: seq<Tile>) returns (next: seq<Tile>)
    requires seen == before + RowTiles(cx, cz)
    ensures next == seen + SliceTiles(cx, cz, 16) == before + RowTiles(cx, cz + 1)
  {
    next := seen + SliceTiles(cx, cz, 16);
  }

  lemma AheadIsNext(before: seq<Tile>, chunk: seq<Tile>)
    ensures Ahead(before, [], 0) == Ahead(before, chunk, 0) && Ahead(before, chunk, 6) == Ahead(before + chunk, [], 0)
  {
  }

  lemma AheadByOne(before: seq<Tile>, chunk: seq<Tile>, face: nat)
    requires face < 6
    ensures Ahead(before, chunk, face)[face] == before
    ensures Ahead(before, chunk, face)[face := before + chunk] == Ahead(before, chunk, face + 1)
  {
  }

  lemma {:induction false} NothingSeen(w: VoxelWorld, done: seq<seq<Tile>>, groups: seq<seq<Quad>>)
    requires |groups| == |done| && forall f :: 0 <= f < |done| ==> done[f] == [] && groups[f] == []
    ensures SeenAt(w, done) == 0 && GroupsAt(w, done) == groups
  {
    if done != [] {
      NothingSeen(w, done[..|done| - 1], groups[..|done| - 1]);
    }
  }

  lemma ProgressStarts(w: VoxelWorld)
    ensures AllSaw(w, [[], [], [], [], [], []], [], 0)
  {
    NothingSeen(w, Ahead([], [], 0), [[], [], [], [], [], []]);
  }

  lemma ProgressEnds(w: VoxelWorld, groups: seq<seq<Quad>>, exposed: nat)
    requires AllSaw(w, groups, Order(w), exposed)
    ensures groups == Groups(w) && exposed == SeenAt(w, AllTiles(w)) && !SomeGroupTooLarge(w)
  {
    assert Progress(w, groups, Ahead(Order(w), [], 0), exposed);
    assert Ahead(Order(w), [], 0) == AllTiles(w);
  }

  lemma RowStarts(n: nat, cx: nat)
    ensures TilesOf(n, cx) == TilesOf(n, cx) + RowTiles(cx, 0)
    ensures TilesOf(n, cx + 1) == TilesOf(n, cx) + RowTiles(cx, n)
  {
  }

  /** One chunk of a row, when the row so far is seen. */
  method AddNext(w: VoxelWorld, cx: nat, cz: nat, groups: seq<seq<Quad>>, exposed: nat, ghost before: seq<Tile>, ghost seen: seq<Tile>)
    returns (ok: bool, groups': seq<seq<Quad>>, exposed': nat, ghost next: seq<Tile>)
    requires cx < Across(w) && cz < Across(w) && before == TilesOf(Across(w), cx) && seen == before + RowTiles(cx, cz)
    requires AllSaw(w, groups, seen, exposed)
    ensures ok ==> AllSaw(w, groups', next, exposed')
    ensures next == before + RowTiles(cx, cz + 1)
    ensures !ok ==> Overflows(w)
  {
    ok, groups', exposed' := AddChunk(w, cx, cz, groups, exposed, seen);
    next := NextChunk(cx, cz, before, seen);
  }

  /** One row of chunks. */
  method AddRow(w: VoxelWorld, cx: nat, groups: seq<seq<Quad>>, exposed: nat)
    returns (ok: bool, groups': seq<seq<Quad>>, exposed': nat)
    requires cx < Across(w) && AllSaw(w, groups, TilesOf(Across(w), cx), exposed)
    ensures ok ==> AllSaw(w, groups', TilesOf(Across(w), cx + 1), exposed')
    ensures !ok ==> Overflows(w)
  {
    ok, groups', exposed' := true, groups, exposed;
    ghost var before := TilesOf(Across(w), cx);
    ghost var seen := before;
    RowStarts(Across(w), cx);
    for cz: nat := 0 to Across(w)
      invariant ok && seen == before + RowTiles(cx, cz)
      invariant AllSaw(w, groups', seen, exposed')
    {
      ok, groups', exposed', seen := AddNext(w, cx, cz, groups', exposed', before, seen);
      if !ok {
        return;
      }
    }
  }

  /** All rows of chunks. */
  method AddAllRows(w: VoxelWorld, n: nat, none: seq<seq<Quad>>) returns (ok: bool, groups: seq<seq<Quad>>, exposed: nat)
    requires n == Across(w) && AllSaw(w, none, TilesOf(n, 0), 0)
    ensures ok ==> AllSaw(w, groups, TilesOf(n, n), exposed)
    ensures !ok ==> Overflows(w)
  {
    ok, groups, exposed := true, none, 0;
    for cx: nat := 0 to n
      invariant ok && AllSaw(w, groups, TilesOf(n, cx), exposed)
    {
      ok, groups, exposed := AddRow(w, cx, groups, exposed);
      if !ok {
        return;
      }
    }
  }

  method BuildGroups(w: VoxelWorld) returns (r: Result<(seq<seq<Quad>>, nat), MeshError>)
    ensures r.Ok? ==> r.value == (Groups(w), SeenAt(w, AllTiles(w)))
    ensures r.Err? ==> r.error == GroupBudget && !WithinBudget(w)
    ensures r.Err? <==> SomeGroupTooLarge(w)
  {
    ProgressStarts(w);
    var ok, groups, exposed := AddAllRows(w, Across(w), [[], [], [], [], [], []]);
    if !ok {
      OverflowIsTooMuch(w);
      return Err(GroupBudget);
    }
    ProgressEnds(w, groups, exposed);
    return Ok((groups, exposed));
  }

  method CompactGroups(groups: seq<seq<Quad>>) returns (instances: seq<Quad>, draws: seq<Draw>)
    ensures instances == Instances(groups) && draws == Draws(groups)
  {
    instances, draws := [], [];
    for face := 0 to |groups|
      invariant instances == Instances(groups[..face]) && draws == Draws(groups[..face])
    {
      assert groups[..face + 1][..face] == groups[..face];
      if groups[face] == [] {
        continue;
      }
      draws := draws + [Draw(face, |instances|, |groups[face]|)];
      instances := instances + groups[face];
    }
    assert groups[..|groups|] == groups;
  }

  method CountBlocks(w: VoxelWorld) returns (count: nat)
    ensures count == Blocks(w, Edge(w))
  {
    count := 0;
    for x: nat := 0 to Edge(w)
      invariant count == Blocks(w, x)
    {
      for z: nat := 0 to Edge(w)
        invariant count == Blocks(w, x) + RowBlocks(w, x, z)
      {
        count := count + ColumnHeight(w, x, z);
      }
    }
  }

  /** The mesh of a world, or an error exactly when it does not fit the budget. */
  method BuildMesh(w: VoxelWorld) returns (r: Result<Mesh, MeshError>)
    ensures r == if WithinBudget(w) then Ok(MeshOf(w)) else Err(if SomeGroupTooLarge(w) then GroupBudget else TotalBudget)
    ensures r.Ok? <==> 80 * |Instances(Groups(w))| <= 4 * 1024 * 1024
  {
    var blocks := CountBlocks(w);
    var built := BuildGroups(w);
    if built.Err? {
      return Err(built.error);
    }
    var (groups, exposed) := built.value;
    var instances, draws := CompactGroups(groups);
    if Bytes(|instances|) > LIMIT {
      return Err(TotalBudget);
    }
    return Ok(Mesh(instances, draws, blocks, exposed));
  }

  function Resident(w: VoxelWorld): nat { Across(w) * Across(w) }

  /** The cached finite scene. */
  class VoxelScene {
    var key: Option<VoxelWorld>
    var revision: nat
    var frame: Option<Frame>

    ghost predicate Valid()
      reads this
    {
      key.Some? ==> frame.Some? && WithinBudget(key.value) && frame.value.mesh == MeshOf(key.value) && frame.value.revision == revision
    }

    constructor ()
      ensures Valid() && key == None && revision == 0
    {
      key, revision, frame := None, 0, None;
    }

    /** Builds for a new key; a failure changes nothing. */
    method Rebuild(w: VoxelWorld) returns (r: Result<Frame, MeshError>)
      modifies this
      ensures r.Ok? <==> WithinBudget(w)
      ensures r.Ok? ==> key == Some(w) && frame == Some(r.value) && revision == (old(revision) + 1) % 0x1_0000_0000_0000_0000
      ensures r.Ok? ==> r.value == Frame(MeshOf(w), revision, Resident(w), 0, Resident(w))
      ensures r.Err? ==> key == old(key) && revision == old(revision) && frame == old(frame)
    {
      var built := BuildMesh(w);
      if built.Err? {
        return Err(built.error);
      }
      revision := (revision + 1) % 0x1_0000_0000_0000_0000;
      frame := Some(Frame(built.value, revision, Resident(w), 0, Resident(w)));
      key := Some(w);
      return Ok(frame.value);
    }

    /** Always the mesh of the given world; built again exactly when the world differs from the cached one, and untouched on failure. */
    method BuildFrame(w: VoxelWorld) returns (r: Result<Frame, MeshError>)
      requires Valid()
      modifies this
      ensures Valid()
      ensures r.Ok? <==> WithinBudget(w)
      ensures r.Ok? ==> key == Some(w) && frame == Some(r.value) && r.value.mesh == MeshOf(w) && r.value.revision == revision
      ensures old(key) == Some(w) ==> r.Ok? && r.value == old(frame).value.(built := 0) && revision == old(revision)
      ensures r.Ok? && old(key) != Some(w) ==>
        r.value.built == r.value.resident == Resident(w) && r.value.pending == 0 && revision == (old(revision) + 1) % 0x1_0000_0000_0000_0000
      ensures r.Err? ==> key == old(key) && revision == old(revision) && frame == old(frame)
    {
      if key == Some(w) {
        frame := Some(frame.value.(built := 0));
        return Ok(frame.value);
      }
      r := Rebuild(w);
    }
  }
}
