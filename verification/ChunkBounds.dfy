/** How many quads one chunk can have: terrain steps only every four columns (examples/gpu_stress_3d). */
module ChunkBounds {
  import opened Wrappers
  import opened Rectangles
  import opened Voxels
  import opened VoxelMesh
  import opened VoxelScene

  // ---- Masks made of runs of four ----

  /** Every aligned run of four cells is uniform. */
  ghost predicate Blocky(m: Mask) {
    forall c: nat {:trigger Block(c)} :: c < 256 ==> m[c] == m[Block(c)]
  }

  /** The first cell of a cell's run of four. */
  function Block(c: nat): (b: nat)
    ensures b <= c < b + 4
  {
    c / 4 * 4
  }

  lemma FirstIsAligned(m: Mask, i: nat, j: nat)
    requires Blocky(m) && FirstFilled(m, i, j)
    ensures i % 4 == 0
  {
    assert m[Cell(i, j)] == m[Block(Cell(i, j))];
    assert Block(Cell(i, j)) % 4 == 0 && Cell(i, j) % 4 == i % 4;
  }

  lemma InBlock(m: Mask, c: nat, d: nat)
    requires Blocky(m) && c < 256 && d < 256
    ensures Block(c) == Block(d) ==> m[c] == m[d]
  {
  }

  /** A run of cells from an aligned start ends aligned, or inside a run of four. */
  lemma EndsInBlock(start: nat, w: nat)
    requires start % 4 == 0 && w > 0
    ensures w % 4 == 0 || Block(start + w) == Block(start + w - 1)
  {
  }

  /** Where a run that starts aligned can stop. */
  lemma RunIsAligned(m: Mask, start: nat, w: nat, room: nat)
    requires Blocky(m) && start % 4 == 0 && room % 4 == 0 && 0 < w <= room && start + room <= 256
    requires Uniform(m, start, w, m[start]) && (w == room || m[start + w] != m[start])
    ensures w % 4 == 0
  {
    if w < room {
      EndsInBlock(start, w);
      InBlock(m, start + w, start + w - 1);
      assert m[start + w - 1] == m[start];
    }
  }

  lemma CellAligned(i: nat, j: nat)
    requires i < 16 && i % 4 == 0
    ensures Cell(i, j) % 4 == 0 && (16 - i) % 4 == 0
  {
  }

  lemma AtLeastOneRun(w: nat)
    requires w > 0 && w % 4 == 0
    ensures w >= 4
  {
  }

  lemma WidthIsAligned(m: Mask, i: nat, j: nat)
    requires Blocky(m) && i < 16 && j < 16 && i % 4 == 0
    ensures Width(m, i, j) % 4 == 0 && Width(m, i, j) >= 4
  {
    var w := Width(m, i, j);
    WidthIsMaximal(m, i, j);
    CellAligned(i, j);
    RunIsAligned(m, Cell(i, j), w, 16 - i);
    AtLeastOneRun(w);
  }

  lemma WidthIsMaximal(m: Mask, i: nat, j: nat)
    requires i < 16 && j < 16
    ensures Width(m, i, j) == 16 - i || m[Cell(i, j) + Width(m, i, j)] != m[Cell(i, j)]
  {
  }

  lemma ClearKeepsBlock(m: Mask, i: nat, j: nat, w: nat, h: nat, c: nat)
    requires Blocky(m) && i + w <= 16 && j + h <= 16 && i % 4 == 0 && (i + w) % 4 == 0 && c < 256
    ensures Clear(m, i, j, w, h)[c] == Clear(m, i, j, w, h)[Block(c)]
  {
    ClearAt(m, i, j, w, h, c);
    ClearAt(m, i, j, w, h, Block(c));
    BlockPlace(c);
    SameSide(c % 16, i);
    SameSide(c % 16, i + w);
  }

  lemma ClearKeepsBlocky(m: Mask, i: nat, j: nat, w: nat, h: nat)
    requires Blocky(m) && i + w <= 16 && j + h <= 16 && i % 4 == 0 && (i + w) % 4 == 0
    ensures Blocky(Clear(m, i, j, w, h))
  {
    forall c: nat | c < 256 ensures Clear(m, i, j, w, h)[c] == Clear(m, i, j, w, h)[Block(c)] {
      ClearKeepsBlock(m, i, j, w, h, c);
    }
  }

  lemma BlockPlace(c: nat)
    ensures Block(c) / 16 == c / 16 && Block(c) % 16 == c % 16 / 4 * 4
  {
    assert c == c / 16 * 16 + c % 16;
  }

  /** A number and its run of four lie on the same side of an aligned bound. */
  lemma SameSide(x: nat, bound: nat)
    requires bound % 4 == 0
    ensures x < bound <==> x / 4 * 4 < bound
  {
  }

  /** Taking one rectangle removes at least four cells and leaves runs of four. */
  lemma TakeFromBlocky(m: Mask, i: nat, j: nat)
    requires Blocky(m) && FirstFilled(m, i, j)
    ensures var r := RectAt(m, i, j);
      Blocky(ClearRect(m, r)) && Filled(ClearRect(m, r)) + 4 <= Filled(m)
  {
    var r := RectAt(m, i, j);
    FirstIsAligned(m, i, j);
    WidthIsAligned(m, i, j);
    TakingCounts(m, r);
    AtLeastFour(r.w, r.h);
    ClearKeepsBlocky(m, r.i, r.j, r.w, r.h);
  }

  /** In such a mask every rectangle has at least four cells. */
  lemma {:induction false} BlockyRects(m: Mask)
    requires Blocky(m)
    ensures 4 * |Rects(m)| <= Filled(m)
    decreases Filled(m)
  {
    if EmptyBelow(m, 256) {
      RectsOfEmpty(m);
    } else {
      FirstExists(m, 0);
      var a: nat, b: nat :| FirstFilled(m, a, b);
      TakeFromBlocky(m, a, b);
      BlockyRects(ClearRect(m, RectAt(m, a, b)));
      RectsOfFirst(m, a, b);
    }
  }

  lemma AtLeastFour(w: nat, h: nat)
    requires w >= 4 && h >= 1
    ensures w * h >= 4
  {
    assert w * h >= w;
  }

  // ---- Chunk terrain ----

  /** A world cut at a multiple of sixteen columns. */
  predicate IsChunk(w: VoxelWorld) {
    w.region.Some? && w.region.value.0 % 16 == 0 && w.region.value.1 % 16 == 0
  }

  function Strip4(x: int): int { x / 4 }

  lemma StripSum(x: int, o: int)
    requires o % 16 == 0
    ensures Strip4(x + o) == Strip4(x) + o / 4
  {
  }

  lemma SameStepHeight(w: VoxelWorld, x: int, z: int, x': int, z': int)
    requires IsChunk(w) && Strip4(x) == Strip4(x') && Strip4(z) == Strip4(z')
    ensures ColumnHeight(w, x, z) == ColumnHeight(w, x', z')
  {
    var (ox, oz) := w.region.value;
    StripSum(x, ox);
    StripSum(x', ox);
    StripSum(z, oz);
    StripSum(z', oz);
    assert Strip(w, x) == Strip(w, x') && StripAcross(w, z) == StripAcross(w, z');
  }

  lemma SameStepMaterial(w: VoxelWorld, p: Point, q: Point)
    requires IsChunk(w) && p.y == q.y && Strip4(p.x) == Strip4(q.x) && Strip4(p.z) == Strip4(q.z)
    ensures Material(w, p) == Material(w, q)
  {
    SameStepHeight(w, p.x, p.z, q.x, q.z);
  }

  lemma SameStepExposed(w: VoxelWorld, face: nat, p: Point, q: Point)
    requires IsChunk(w) && p.y == q.y && Strip4(p.x) == Strip4(q.x) && Strip4(p.z) == Strip4(q.z)
    requires var a, b := Neighbour(face, p), Neighbour(face, q); a.y == b.y && Strip4(a.x) == Strip4(b.x) && Strip4(a.z) == Strip4(b.z)
    ensures Exposed(w, face, p) == Exposed(w, face, q)
  {
    SameStepMaterial(w, p, q);
    SameStepMaterial(w, Neighbour(face, p), Neighbour(face, q));
  }

  /** Along a row of the mask the terrain steps only every four columns. */
  lemma ChunkMaskIsBlocky(w: VoxelWorld, face: nat, t: Tile)
    requires IsChunk(w)
    ensures Blocky(MaskOf(w, face, t))
  {
    var m := MaskOf(w, face, t);
    forall c: nat | c < 256 ensures m[c] == m[Block(c)] {
      var i, j := c % 16, c / 16;
      var k := i / 4 * 4;
      assert Cell(i, j) == c && Cell(k, j) == Block(c);
      MaskAt(w, face, t, i, j);
      MaskAt(w, face, t, k, j);
      RowStep(w, face, t, i, j);
    }
  }

  lemma StripIn(a: nat, x: int)
    ensures Strip4(16 * a + x) == 4 * a + Strip4(x)
  {
  }

  lemma StripOfRun(x: nat)
    ensures Strip4(x / 4 * 4) == Strip4(x)
  {
  }

  lemma RowStep(w: VoxelWorld, face: nat, t: Tile, i: nat, j: nat)
    requires IsChunk(w) && i < 16
    ensures Exposed(w, face, Place(face, t, i, j)) == Exposed(w, face, Place(face, t, i / 4 * 4, j))
  {
    var k := i / 4 * 4;
    StripOfRun(i);
    StripIn(t.cx, i);
    StripIn(t.cx, k);
    StripIn(t.cz, i);
    StripIn(t.cz, k);
    SameStepExposed(w, face, Place(face, t, i, j), Place(face, t, k, j));
  }

  // ---- How many faces a chunk shows ----

  lemma {:induction false} FilledWithin(m: seq<nat>, lo: nat, hi: nat)
    requires lo <= hi && forall c :: 0 <= c < |m| && m[c] != 0 ==> lo <= c < hi
    ensures Filled(m) <= if |m| <= lo then 0 else if |m| <= hi then |m| - lo else hi - lo
  {
    if m != [] { FilledWithin(m[..|m| - 1], lo, hi); }
  }

  /** A side face shows only where the terrain steps down. */
  predicate StepsAt(face: nat, slice: nat) {
    if face == 0 || face == 3 then slice % 4 == 3 else slice % 4 == 0
  }

  lemma SideNeighbour(w: VoxelWorld, face: nat, t: Tile, i: nat, j: nat)
    requires IsChunk(w) && face < 4 && t.slice < 16 && !StepsAt(face, t.slice)
    ensures Exposed(w, face, Place(face, t, i, j)) == 0
  {
    var p := Place(face, t, i, j);
    var q := Neighbour(face, p);
    WithinStep(face, t.slice);
    if face < 2 {
      StripIn(t.cz, t.slice);
      StripIn(t.cz, t.slice + Sign(face));
    } else {
      StripIn(t.cx, t.slice);
      StripIn(t.cx, t.slice + Sign(face));
    }
    SameStepMaterial(w, p, q);
  }

  lemma WithinStep(face: nat, slice: nat)
    requires !StepsAt(face, slice) && face < 4
    ensures Strip4(slice + Sign(face)) == Strip4(slice)
  {
  }

  /** A side face shows only above the lowest and below the highest column. */
  lemma SideHeight(w: VoxelWorld, face: nat, t: Tile, i: nat, j: nat)
    requires IsChunk(w) && face < 4 && Exposed(w, face, Place(face, t, i, j)) != 0
    ensures 5 <= j < 12
  {
    var p := Place(face, t, i, j);
    var q := Neighbour(face, p);
    assert p.y == j == q.y;
    assert Material(w, q) == 0 && j >= ColumnHeight(w, q.x, q.z);
  }

  lemma SideTileFaces(w: VoxelWorld, face: nat, t: Tile)
    requires IsChunk(w) && face < 4 && t.slice < 16
    ensures TileFaces(w, face, t) <= if StepsAt(face, t.slice) then 112 else 0
  {
    var m := MaskOf(w, face, t);
    TileFacesAre(w, face, t);
    forall c: nat | c < 256 && m[c] != 0 ensures StepsAt(face, t.slice) && 80 <= c < 192 {
      assert Cell(c % 16, c / 16) == c;
      MaskAt(w, face, t, c % 16, c / 16);
      SideHeight(w, face, t, c % 16, c / 16);
      if !StepsAt(face, t.slice) {
        SideNeighbour(w, face, t, c % 16, c / 16);
      }
    }
    if StepsAt(face, t.slice) {
      FilledWithin(m, 80, 192);
    } else {
      NothingFilled(m);
    }
  }

  lemma NextSliceFaces(w: VoxelWorld, face: nat, n: nat)
    ensures FacesSeen(w, face, SliceTiles(0, 0, n + 1)) == FacesSeen(w, face, SliceTiles(0, 0, n)) + TileFaces(w, face, Tile(0, 0, n))
  {
    var ts := SliceTiles(0, 0, n + 1);
    assert ts[..n] == SliceTiles(0, 0, n) && ts[n] == Tile(0, 0, n);
  }

  /** Slices below `n` at which a side can step. */
  function Stepping(face: nat, n: nat): nat {
    if face == 0 || face == 3 then n / 4 else (n + 3) / 4
  }

  lemma {:induction false} SideFaces(w: VoxelWorld, face: nat, n: nat)
    requires IsChunk(w) && face < 4 && n <= 16
    ensures FacesSeen(w, face, SliceTiles(0, 0, n)) <= 112 * Stepping(face, n)
  {
    if n > 0 {
      SideFaces(w, face, n - 1);
      NextSliceFaces(w, face, n - 1);
      SideTileFaces(w, face, Tile(0, 0, n - 1));
    }
  }

  /** The bottom shows only in the lowest slice. */
  lemma BottomTileFaces(w: VoxelWorld, t: Tile)
    requires IsChunk(w) && t.slice < 16
    ensures TileFaces(w, 5, t) <= if t.slice == 0 then 256 else 0
  {
    var m := MaskOf(w, 5, t);
    TileFacesAre(w, 5, t);
    FilledIsBounded(m);
    if t.slice > 0 {
      forall c: nat | c < 256 ensures m[c] == 0 {
        assert Cell(c % 16, c / 16) == c;
        MaskAt(w, 5, t, c % 16, c / 16);
        BottomIsCovered(w, Place(5, t, c % 16, c / 16));
      }
      NothingFilled(m);
    }
  }

  lemma BottomIsCovered(w: VoxelWorld, p: Point)
    requires w.region.Some? && p.y > 0
    ensures Exposed(w, 5, p) == 0
  {
    assert Neighbour(5, p) == Point(p.x, p.y - 1, p.z);
  }

  lemma {:induction false} BottomFaces(w: VoxelWorld, n: nat)
    requires IsChunk(w) && n <= 16
    ensures FacesSeen(w, 5, SliceTiles(0, 0, n)) <= 256
    ensures n == 0 ==> FacesSeen(w, 5, SliceTiles(0, 0, n)) == 0
  {
    if n > 0 {
      BottomFaces(w, n - 1);
      NextSliceFaces(w, 5, n - 1);
      BottomTileFaces(w, Tile(0, 0, n - 1));
    }
  }

  // ---- One top for each column ----

  lemma {:induction false} FilledAdds(a: seq<nat>, b: seq<nat>, c: seq<nat>)
    requires |a| == |b| == |c|
    requires forall k :: 0 <= k < |c| ==> (c[k] != 0 <==> a[k] != 0 || b[k] != 0) && !(a[k] != 0 && b[k] != 0)
    ensures Filled(c) == Filled(a) + Filled(b)
  {
    if c != [] {
      FilledAdds(a[..|a| - 1], b[..|b| - 1], c[..|c| - 1]);
    }
  }

  /** The columns whose top lies below a slice. */
  function Topped(w: VoxelWorld, n: nat): (m: Mask) {
    seq(256, c requires 0 <= c < 256 => if ColumnHeight(w, c % 16, c / 16) <= n then 1 else 0)
  }

  lemma TopMask(w: VoxelWorld, n: nat, c: nat)
    requires IsChunk(w) && c < 256
    ensures MaskOf(w, 4, Tile(0, 0, n))[c] != 0 <==> ColumnHeight(w, c % 16, c / 16) == n + 1
  {
    var p := Point(c % 16, n, c / 16);
    assert Cell(c % 16, c / 16) == c;
    MaskAt(w, 4, Tile(0, 0, n), c % 16, c / 16);
    assert Place(4, Tile(0, 0, n), c % 16, c / 16) == p && Neighbour(4, p) == Point(p.x, n + 1, p.z);
  }

  lemma NextTops(w: VoxelWorld, n: nat)
    requires IsChunk(w)
    ensures Filled(Topped(w, n + 1)) == Filled(Topped(w, n)) + TileFaces(w, 4, Tile(0, 0, n))
  {
    var m := MaskOf(w, 4, Tile(0, 0, n));
    TileFacesAre(w, 4, Tile(0, 0, n));
    forall c: nat | c < 256 ensures m[c] != 0 <==> ColumnHeight(w, c % 16, c / 16) == n + 1 {
      TopMask(w, n, c);
    }
    FilledAdds(Topped(w, n), m, Topped(w, n + 1));
  }

  lemma {:induction false} TopFaces(w: VoxelWorld, n: nat)
    requires IsChunk(w)
    ensures FacesSeen(w, 4, SliceTiles(0, 0, n)) == Filled(Topped(w, n))
  {
    if n == 0 {
      NothingFilled(Topped(w, 0));
    } else {
      TopFaces(w, n - 1);
      NextSliceFaces(w, 4, n - 1);
      NextTops(w, n - 1);
    }
  }

  // ---- How many quads ----

  const CHUNK_QUADS: nat := 576

  lemma {:induction false} FourFacesAQuad(w: VoxelWorld, face: nat, ts: seq<Tile>)
    requires IsChunk(w)
    ensures 4 * |Group(w, face, ts)| <= FacesSeen(w, face, ts)
  {
    if ts != [] {
      var t := ts[|ts| - 1];
      FourFacesAQuad(w, face, ts[..|ts| - 1]);
      TileQuadsAre(w, face, t);
      TileFacesAre(w, face, t);
      ChunkMaskIsBlocky(w, face, t);
      BlockyRects(MaskOf(w, face, t));
    }
  }

  lemma ChunkOrderIs(w: VoxelWorld)
    requires w.region.Some?
    ensures Order(w) == SliceTiles(0, 0, 16)
  {
    OneChunkTiles(Across(w));
  }

  lemma OneChunkTiles(n: nat)
    requires n == 1
    ensures TilesOf(n, n) == SliceTiles(0, 0, 16)
  {
    assert TilesOf(n, n) == TilesOf(n, n - 1) + RowTiles(n - 1, n);
    assert RowTiles(n - 1, n) == RowTiles(n - 1, n - 1) + SliceTiles(n - 1, n - 1, 16);
  }

  lemma ChunkGroup(w: VoxelWorld, face: nat)
    requires IsChunk(w) && face < 6
    ensures |Groups(w)[face]| <= if face < 4 then 112 else 64
  {
    var n: nat := 16;
    ChunkOrderIs(w);
    GroupAt(w, AllTiles(w), face);
    FourFacesAQuad(w, face, Order(w));
    if face < 4 {
      SideFaces(w, face, n);
    } else if face == 4 {
      TopFaces(w, n);
      FilledIsBounded(Topped(w, n));
    } else {
      BottomFaces(w, n);
    }
  }

  lemma SizeOfPrefix(groups: seq<seq<Quad>>, k: nat)
    requires k < |groups|
    ensures Size(groups[..k + 1]) == Size(groups[..k]) + |groups[k]|
  {
    assert groups[..k + 1][..k] == groups[..k];
  }

  /** One chunk never has more than 576 quads. */
  lemma ChunkHasFewQuads(w: VoxelWorld)
    requires IsChunk(w)
    ensures |MeshOf(w).instances| <= CHUNK_QUADS
  {
    var groups := Groups(w);
    InstancesSize(groups);
    forall f: nat | f < 6 ensures |groups[f]| <= (if f < 4 then 112 else 64) && Size(groups[..f + 1]) == Size(groups[..f]) + |groups[f]| {
      ChunkGroup(w, f);
      SizeOfPrefix(groups, f);
    }
    SumOfSix(groups);
  }

  lemma SumOfSix(groups: seq<seq<Quad>>)
    requires |groups| == 6
    requires forall f: nat :: f < 6 ==> |groups[f]| <= if f < 4 then 112 else 64
    ensures Size(groups) <= CHUNK_QUADS
  {
    SizeIsBounded(groups[..4], 112);
    SizeOfPrefix(groups, 4);
    SizeOfPrefix(groups, 5);
    assert groups[..6] == groups;
  }
}
