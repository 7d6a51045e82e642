/** Chunk by chunk greedy meshing of a voxel world (examples/gpu_stress_3d/voxel_scene.rs). */
module VoxelMesh {
  import opened Wrappers
  import opened Rectangles
  import opened Voxels

  /** One merged quad as the encoder receives it, in half units: centre, half extents and material. */
  datatype Quad = Quad(centre: Point, half: Point, material: nat)

  /** Sixteen by sixteen columns at (cx, cz), cut at one slice across the face's axis. */
  datatype Tile = Tile(cx: nat, cz: nat, slice: nat)

  /** The three numbers along a face's axis and its two other directions, as x, y and z. */
  function Turn(face: nat, axis: int, u: int, v: int): Point {
    if face < 2 then Point(u, v, axis) else if face < 4 then Point(axis, v, u) else Point(u, axis, v)
  }

  function Sign(face: nat): int {
    if face == 0 || face == 3 || face == 4 then 1 else -1
  }

  function Plus(p: Point, q: Point): Point { Point(p.x + q.x, p.y + q.y, p.z + q.z) }

  /** Where the mesh stands in the world, in half units: at its region, or centred. */
  function Offset(w: VoxelWorld): Point {
    if w.region.Some? then Point(2 * w.region.value.0, 0, 2 * w.region.value.1) else Point(0 - Edge(w), 0, 0 - Edge(w))
  }

  function Neighbour(face: nat, p: Point): Point { Plus(p, Turn(face, Sign(face), 0, 0)) }

  /** The material of a voxel whose neighbour across the face is air, and otherwise zero. */
  function Exposed(w: VoxelWorld, face: nat, p: Point): nat {
    if Material(w, p) != 0 && Material(w, Neighbour(face, p)) == 0 then Material(w, p) else 0
  }

  function Place(face: nat, t: Tile, i: int, j: int): Point {
    Plus(Point(16 * t.cx, 0, 16 * t.cz), Turn(face, t.slice, i, j))
  }

  /** Every cell of the mask tells what its place exposes. */
  ghost predicate IsMask(w: VoxelWorld, face: nat, t: Tile, m: Mask) {
    forall i: nat, j: nat {:trigger Exposed(w, face, Place(face, t, i, j))} :: i < 16 && j < 16 ==>
      m[Cell(i, j)] == Exposed(w, face, Place(face, t, i, j))
  }

  lemma MaskExists(w: VoxelWorld, face: nat, t: Tile)
    ensures exists m: Mask :: IsMask(w, face, t, m)
  {
    var m: Mask := seq(256, c requires 0 <= c < 256 => Exposed(w, face, Place(face, t, c % 16, c / 16)));
    forall i: nat, j: nat | i < 16 && j < 16 ensures m[Cell(i, j)] == Exposed(w, face, Place(face, t, i, j)) {
      CellPlace(i, j);
    }
    assert IsMask(w, face, t, m);
  }

  ghost function MaskOf(w: VoxelWorld, face: nat, t: Tile): (m: Mask)
    ensures IsMask(w, face, t, m)
  {
    MaskExists(w, face, t);
    var m: Mask :| IsMask(w, face, t, m);
    m
  }

  lemma MaskAt(w: VoxelWorld, face: nat, t: Tile, i: nat, j: nat)
    requires i < 16 && j < 16
    ensures MaskOf(w, face, t)[Cell(i, j)] == Exposed(w, face, Place(face, t, i, j))
  {
  }

  /** How far a face lies from its voxel's low corner along the axis, in half units. */
  function Lift(face: nat): int { if Sign(face) > 0 then 2 else 0 }

  function QuadOf(w: VoxelWorld, face: nat, t: Tile, r: Rect): Quad {
    Quad(
      Plus(Offset(w), Plus(Point(32 * t.cx, 0, 32 * t.cz), Turn(face, 2 * t.slice + Lift(face), 2 * r.i + r.w, 2 * r.j + r.h))),
      Turn(face, 0, r.w, r.h),
      r.material)
  }

  function QuadsOf(w: VoxelWorld, face: nat, t: Tile, rs: seq<Rect>): (qs: seq<Quad>)
    ensures |qs| == |rs| && forall k :: 0 <= k < |rs| ==> qs[k] == QuadOf(w, face, t, rs[k])
  {
    seq(|rs|, k requires 0 <= k < |rs| => QuadOf(w, face, t, rs[k]))
  }

  lemma MaskIsUnique(w: VoxelWorld, face: nat, t: Tile, m: Mask)
    requires IsMask(w, face, t, m)
    ensures m == MaskOf(w, face, t)
  {
    forall c | 0 <= c < 256 ensures m[c] == MaskOf(w, face, t)[c] {
      MaskAt(w, face, t, c % 16, c / 16);
      assert m[Cell(c % 16, c / 16)] == Exposed(w, face, Place(face, t, c % 16, c / 16));
      assert Cell(c % 16, c / 16) == c;
    }
  }

  ghost predicate AreQuads(w: VoxelWorld, face: nat, t: Tile, qs: seq<Quad>) {
    forall m: Mask {:trigger IsMask(w, face, t, m)} :: IsMask(w, face, t, m) ==> qs == QuadsOf(w, face, t, Rects(m))
  }

  lemma QuadsExist(w: VoxelWorld, face: nat, t: Tile)
    ensures AreQuads(w, face, t, QuadsOf(w, face, t, Rects(MaskOf(w, face, t))))
  {
    forall m: Mask | IsMask(w, face, t, m) ensures m == MaskOf(w, face, t) {
      MaskIsUnique(w, face, t, m);
    }
  }

  /** The quads that the rectangles of a tile's mask become. */
  ghost function TileQuads(w: VoxelWorld, face: nat, t: Tile): seq<Quad> {
    QuadsExist(w, face, t);
    var qs :| AreQuads(w, face, t, qs);
    qs
  }

  lemma TileQuadsAre(w: VoxelWorld, face: nat, t: Tile)
    ensures TileQuads(w, face, t) == QuadsOf(w, face, t, Rects(MaskOf(w, face, t)))
  {
    QuadsExist(w, face, t);
  }

  ghost predicate IsCount(w: VoxelWorld, face: nat, t: Tile, n: nat) {
    forall m: Mask {:trigger IsMask(w, face, t, m)} :: IsMask(w, face, t, m) ==> n == Filled(m)
  }

  lemma CountExists(w: VoxelWorld, face: nat, t: Tile)
    ensures IsCount(w, face, t, Filled(MaskOf(w, face, t)))
  {
    forall m: Mask | IsMask(w, face, t, m) ensures m == MaskOf(w, face, t) {
      MaskIsUnique(w, face, t, m);
    }
  }

  /** How many faces a tile's mask records. */
  ghost function TileFaces(w: VoxelWorld, face: nat, t: Tile): nat {
    CountExists(w, face, t);
    var n: nat :| IsCount(w, face, t, n);
    n
  }

  lemma TileFacesAre(w: VoxelWorld, face: nat, t: Tile)
    ensures TileFaces(w, face, t) == Filled(MaskOf(w, face, t))
  {
    CountExists(w, face, t);
  }

  // ---- Tiles in scan order ----

  /** Chunks along one edge. */
  function Across(w: VoxelWorld): (n: nat)
    ensures n >= 1 && 16 * n >= Edge(w)
  {
    (Edge(w) + 15) / 16
  }

  /** The first `n` slices of a chunk. */
  function SliceTiles(cx: nat, cz: nat, n: nat): (ts: seq<Tile>)
    ensures |ts| == n
  {
    seq(n, slice requires 0 <= slice < n => Tile(cx, cz, slice))
  }

  /** The first `n` chunks of a row, slice by slice. */
  function RowTiles(cx: nat, n: nat): seq<Tile> {
    if n == 0 then [] else RowTiles(cx, n - 1) + SliceTiles(cx, n - 1, 16)
  }

  /** The first `rows` rows of `n` chunks. */
  function TilesOf(n: nat, rows: nat): seq<Tile> {
    if rows == 0 then [] else TilesOf(n, rows - 1) + RowTiles(rows - 1, n)
  }

  /** The order in which a mesh scans its tiles. */
  function Order(w: VoxelWorld): seq<Tile> { TilesOf(Across(w), Across(w)) }

  /** The quads of one direction after some tiles. */
  ghost function Group(w: VoxelWorld, face: nat, ts: seq<Tile>): seq<Quad> {
    if ts == [] then [] else Group(w, face, ts[..|ts| - 1]) + TileQuads(w, face, ts[|ts| - 1])
  }

  ghost predicate Once(ts: seq<Tile>) {
    forall i, j :: 0 <= i < j < |ts| ==> ts[i] != ts[j]
  }

  lemma OnceJoin(a: seq<Tile>, b: seq<Tile>)
    requires Once(a) && Once(b) && forall t :: t in a ==> t !in b
    ensures Once(a + b)
  {
    forall i, j | 0 <= i < j < |a + b| ensures (a + b)[i] != (a + b)[j] {
      if i < |a| <= j {
        assert a[i] in a && b[j - |a|] in b;
      }
    }
  }

  lemma SliceTilesOnce(cx: nat, cz: nat, n: nat)
    ensures Once(SliceTiles(cx, cz, n))
    ensures forall t :: t in SliceTiles(cx, cz, n) <==> t.cx == cx && t.cz == cz && t.slice < n
  {
    forall t: Tile | t.cx == cx && t.cz == cz && t.slice < n ensures t in SliceTiles(cx, cz, n) {
      assert SliceTiles(cx, cz, n)[t.slice] == t;
    }
  }

  lemma {:induction false} RowTilesOnce(cx: nat, n: nat)
    ensures Once(RowTiles(cx, n))
    ensures forall t :: t in RowTiles(cx, n) <==> t.cx == cx && t.cz < n && t.slice < 16
  {
    if n > 0 {
      RowTilesOnce(cx, n - 1);
      SliceTilesOnce(cx, n - 1, 16);
      OnceJoin(RowTiles(cx, n - 1), SliceTiles(cx, n - 1, 16));
    }
  }

  /** Every tile of the world is scanned once. */
  lemma {:induction false} TilesOnce(n: nat, rows: nat)
    ensures Once(TilesOf(n, rows))
    ensures forall t :: t in TilesOf(n, rows) <==> t.cx < rows && t.cz < n && t.slice < 16
  {
    if rows > 0 {
      TilesOnce(n, rows - 1);
      RowTilesOnce(rows - 1, n);
      OnceJoin(TilesOf(n, rows - 1), RowTiles(rows - 1, n));
    }
  }

  lemma SlicePrefix(cx: nat, cz: nat, s: nat, n: nat)
    requires s <= n
    ensures SliceTiles(cx, cz, s) <= SliceTiles(cx, cz, n)
  {
  }

  lemma {:induction false} RowPrefix(cx: nat, cz: nat, n: nat)
    requires cz <= n
    ensures RowTiles(cx, cz) <= RowTiles(cx, n)
  {
    if cz < n { RowPrefix(cx, cz, n - 1); }
  }

  lemma {:induction false} TilesPrefix(n: nat, cx: nat, rows: nat)
    requires cx <= rows
    ensures TilesOf(n, cx) <= TilesOf(n, rows)
  {
    if cx < rows { TilesPrefix(n, cx, rows - 1); }
  }

  lemma PrefixJoin(a: seq<Tile>, b: seq<Tile>, c: seq<Tile>, whole: seq<Tile>)
    requires b <= c && a + c <= whole
    ensures a + b <= whole
  {
  }

  lemma RowScanPrefix(cx: nat, cz: nat, s: nat, n: nat)
    requires cz < n && s <= 16
    ensures RowTiles(cx, cz) + SliceTiles(cx, cz, s) <= RowTiles(cx, n)
  {
    RowPrefix(cx, cz + 1, n);
    SlicePrefix(cx, cz, s, 16);
    PrefixJoin(RowTiles(cx, cz), SliceTiles(cx, cz, s), SliceTiles(cx, cz, 16), RowTiles(cx, n));
  }

  /** The scan never leaves its order. */
  lemma ScanPrefix(n: nat, cx: nat, cz: nat, s: nat)
    requires cx < n && cz < n && s <= 16
    ensures TilesOf(n, cx) + (RowTiles(cx, cz) + SliceTiles(cx, cz, s)) <= TilesOf(n, n)
  {
    RowScanPrefix(cx, cz, s, n);
    TilesPrefix(n, cx + 1, n);
    PrefixJoin(TilesOf(n, cx), RowTiles(cx, cz) + SliceTiles(cx, cz, s), RowTiles(cx, n), TilesOf(n, n));
  }

  // ---- Which quads cover a unit face ----

  /** The middle of a voxel's face, in half units. */
  function FaceCentre(w: VoxelWorld, face: nat, p: Point): Point {
    Plus(Offset(w), Plus(Point(2 * p.x, 2 * p.y, 2 * p.z), Turn(face, Lift(face), 1, 1)))
  }

  predicate Within(c: int, middle: int, half: int) {
    if half == 0 then c == middle else middle - half < c < middle + half
  }

  predicate Covers(q: Quad, c: Point) {
    Within(c.x, q.centre.x, q.half.x) && Within(c.y, q.centre.y, q.half.y) && Within(c.z, q.centre.z, q.half.z)
  }

  ghost function CoverCount(qs: seq<Quad>, c: Point): nat {
    if qs == [] then 0 else (if Covers(qs[0], c) then 1 else 0) + CoverCount(qs[1..], c)
  }

  /** A face as a list of quads sees it: covered once with its material, or not at all. */
  ghost predicate FaceCovered(qs: seq<Quad>, c: Point, value: nat) {
    && CoverCount(qs, c) == (if value != 0 then 1 else 0)
    && forall k :: 0 <= k < |qs| && Covers(qs[k], c) ==> qs[k].material == value
  }

  /** The tile, column and row of the mask a voxel's face falls in. */
  predicate InTile(face: nat, t: Tile, p: Point) {
    && p.x / 16 == t.cx && p.z / 16 == t.cz && 0 <= p.y < 16
    && t.slice == if face < 2 then p.z % 16 else if face < 4 then p.x % 16 else p.y
  }

  function Column(face: nat, p: Point): nat { if 2 <= face < 4 then p.z % 16 else p.x % 16 }

  function Row(face: nat, p: Point): nat
    requires 0 <= p.y
  {
    if face < 4 then p.y else p.z % 16
  }

  lemma PlaceOf(face: nat, t: Tile, p: Point)
    requires InTile(face, t, p)
    ensures Column(face, p) < 16 && Row(face, p) < 16 && Place(face, t, Column(face, p), Row(face, p)) == p
  {
  }

  /** A quad covers exactly the faces of the mask cells inside its rectangle. */
  lemma QuadCovers(w: VoxelWorld, face: nat, t: Tile, r: Rect, p: Point)
    requires Fits(r) && t.slice < 16
    ensures Covers(QuadOf(w, face, t, r), FaceCentre(w, face, p))
       <==> InTile(face, t, p) && Inside(r, Column(face, p), Row(face, p))
  {
    if face < 2 {
      QuadCoversZ(w, face, t, r, p);
    } else if face < 4 {
      QuadCoversX(w, face, t, r, p);
    } else {
      QuadCoversY(w, face, t, r, p);
    }
  }

  lemma QuadCoversZ(w: VoxelWorld, face: nat, t: Tile, r: Rect, p: Point)
    requires Fits(r) && t.slice < 16 && face < 2
    ensures Covers(QuadOf(w, face, t, r), FaceCentre(w, face, p))
       <==> InTile(face, t, p) && Inside(r, Column(face, p), Row(face, p))
  {
  }

  lemma QuadCoversX(w: VoxelWorld, face: nat, t: Tile, r: Rect, p: Point)
    requires Fits(r) && t.slice < 16 && 2 <= face < 4
    ensures Covers(QuadOf(w, face, t, r), FaceCentre(w, face, p))
       <==> InTile(face, t, p) && Inside(r, Column(face, p), Row(face, p))
  {
  }

  lemma QuadCoversY(w: VoxelWorld, face: nat, t: Tile, r: Rect, p: Point)
    requires Fits(r) && t.slice < 16 && face >= 4
    ensures Covers(QuadOf(w, face, t, r), FaceCentre(w, face, p))
       <==> InTile(face, t, p) && Inside(r, Column(face, p), Row(face, p))
  {
  }

  lemma {:induction false} CoverCountJoin(a: seq<Quad>, b: seq<Quad>, c: Point)
    ensures CoverCount(a + b, c) == CoverCount(a, c) + CoverCount(b, c)
  {
    if a == [] {
      assert a + b == b;
    } else {
      assert (a + b)[1..] == a[1..] + b;
      CoverCountJoin(a[1..], b, c);
    }
  }

  lemma {:induction false} QuadsCover(w: VoxelWorld, face: nat, t: Tile, rs: seq<Rect>, p: Point)
    requires t.slice < 16 && AllFit(rs)
    ensures CoverCount(QuadsOf(w, face, t, rs), FaceCentre(w, face, p))
         == if InTile(face, t, p) then Covering(rs, Column(face, p), Row(face, p)) else 0
  {
    if rs != [] {
      QuadCovers(w, face, t, rs[0], p);
      QuadsCover(w, face, t, rs[1..], p);
      assert QuadsOf(w, face, t, rs)[1..] == QuadsOf(w, face, t, rs[1..]);
    }
  }

  /** One tile's quads cover exactly its exposed faces, once each and with their material. */
  lemma TileCovers(w: VoxelWorld, face: nat, t: Tile, p: Point)
    requires t.slice < 16
    ensures FaceCovered(TileQuads(w, face, t), FaceCentre(w, face, p), if InTile(face, t, p) then Exposed(w, face, p) else 0)
  {
    TileQuadsAre(w, face, t);
    var m := MaskOf(w, face, t);
    var rs := Rects(m);
    AreaIsFilled(m);
    QuadsCover(w, face, t, rs, p);
    forall k | 0 <= k < |rs| ensures Covers(TileQuads(w, face, t)[k], FaceCentre(w, face, p)) <==> InTile(face, t, p) && Inside(rs[k], Column(face, p), Row(face, p)) {
      QuadCovers(w, face, t, rs[k], p);
    }
    if InTile(face, t, p) {
      PlaceOf(face, t, p);
      MaskAt(w, face, t, Column(face, p), Row(face, p));
      RectsCoverExactly(m, Column(face, p), Row(face, p));
    }
  }

  lemma JoinCovered(a: seq<Quad>, b: seq<Quad>, c: Point, x: nat, y: nat)
    requires FaceCovered(a, c, x) && FaceCovered(b, c, y) && (x == 0 || y == 0)
    ensures FaceCovered(a + b, c, x + y)
  {
    CoverCountJoin(a, b, c);
    if x == 0 { CoverCountZero(a, c); }
    if y == 0 { CoverCountZero(b, c); }
  }

  lemma {:induction false} CoverCountZero(qs: seq<Quad>, c: Point)
    requires CoverCount(qs, c) == 0
    ensures forall k :: 0 <= k < |qs| ==> !Covers(qs[k], c)
  {
    if qs != [] { CoverCountZero(qs[1..], c); }
  }

  /** The tile a voxel's face falls in. */
  function Home(face: nat, p: Point): Tile
    requires 0 <= p.x && 0 <= p.y && 0 <= p.z
  {
    Tile(p.x / 16, p.z / 16, if face < 2 then p.z % 16 else if face < 4 then p.x % 16 else p.y)
  }

  /** Whether a list of tiles without repetition holds a voxel's face. */
  predicate Scanned(face: nat, ts: seq<Tile>, p: Point) {
    0 <= p.x && 0 <= p.y < 16 && 0 <= p.z && Home(face, p) in ts
  }

  ghost predicate Shallow(ts: seq<Tile>) { forall t :: t in ts ==> t.slice < 16 }

  lemma {:induction false} GroupCovers(w: VoxelWorld, face: nat, ts: seq<Tile>, p: Point)
    requires Once(ts) && Shallow(ts)
    ensures FaceCovered(Group(w, face, ts), FaceCentre(w, face, p), if Scanned(face, ts, p) then Exposed(w, face, p) else 0)
  {
    if ts != [] {
      var before, t := ts[..|ts| - 1], ts[|ts| - 1];
      GroupCovers(w, face, before, p);
      TileCovers(w, face, t, p);
      ScannedOrLast(face, ts, p);
      JoinCovered(Group(w, face, before), TileQuads(w, face, t), FaceCentre(w, face, p),
        if Scanned(face, before, p) then Exposed(w, face, p) else 0, if InTile(face, t, p) then Exposed(w, face, p) else 0);
    }
  }

  lemma ScannedOrLast(face: nat, ts: seq<Tile>, p: Point)
    requires Once(ts) && ts != []
    ensures var before, t := ts[..|ts| - 1], ts[|ts| - 1];
      && (Scanned(face, ts, p) <==> Scanned(face, before, p) || InTile(face, t, p))
      && !(Scanned(face, before, p) && InTile(face, t, p))
  {
    var before, t := ts[..|ts| - 1], ts[|ts| - 1];
    assert ts == before + [t];
    InTileIsHome(face, t, p);
  }

  lemma InTileIsHome(face: nat, t: Tile, p: Point)
    ensures InTile(face, t, p) <==> 0 <= p.x && 0 <= p.y < 16 && 0 <= p.z && t == Home(face, p)
  {
  }

  /** The columns a mesh is responsible for: all of a finite world, or the region's own. */
  predicate Responsible(w: VoxelWorld, p: Point) {
    w.region.Some? ==> 0 <= p.x < 16 && 0 <= p.z < 16
  }

  lemma OrderIsOnce(w: VoxelWorld)
    ensures Once(Order(w)) && Shallow(Order(w))
    ensures forall t: Tile :: t in Order(w) <==> t.cx < Across(w) && t.cz < Across(w) && t.slice < 16
  {
    TilesOnce(Across(w), Across(w));
  }

  /** A mesh scans exactly the exposed faces it is responsible for. */
  lemma ScanIsExact(w: VoxelWorld, face: nat, p: Point)
    requires Exposed(w, face, p) != 0
    ensures Scanned(face, Order(w), p) <==> Responsible(w, p)
  {
    OrderIsOnce(w);
    ExposedIsInside(w, face, p);
  }

  lemma ExposedIsInside(w: VoxelWorld, face: nat, p: Point)
    requires Exposed(w, face, p) != 0
    ensures 0 <= p.y < 16
    ensures Responsible(w, p) <==> 0 <= p.x && p.x / 16 < Across(w) && 0 <= p.z && p.z / 16 < Across(w)
  {
    assert Material(w, p) != 0;
  }

  lemma FacesAreCovered(w: VoxelWorld, face: nat, p: Point)
    ensures FaceCovered(Group(w, face, Order(w)), FaceCentre(w, face, p), if Responsible(w, p) then Exposed(w, face, p) else 0)
  {
    OrderIsOnce(w);
    GroupCovers(w, face, Order(w), p);
    if Exposed(w, face, p) != 0 {
      ScanIsExact(w, face, p);
    }
  }

  // ---- Where the faces are in the world ----

  /** The directions: towards and away from z, away from and towards x, up and down. */
  function Normal(face: nat): Point {
    match face
    case 0 => Point(0, 0, 1)
    case 1 => Point(0, 0, -1)
    case 2 => Point(-1, 0, 0)
    case 3 => Point(1, 0, 0)
    case 4 => Point(0, 1, 0)
    case _ => Point(0, -1, 0)
  }

  /** The middle of a voxel in half units: a region stands at its origin, a finite world is centred on its edge. */
  function VoxelCentre(w: VoxelWorld, p: Point): Point {
    match w.region
    case Some(origin) => Point(2 * (p.x + origin.0) + 1, 2 * p.y + 1, 2 * (p.z + origin.1) + 1)
    case None => Point(2 * p.x + 1 - Edge(w), 2 * p.y + 1, 2 * p.z + 1 - Edge(w))
  }

  /** The middle of the side that a voxel turns in a direction, half a voxel from its own middle. */
  function FaceMiddle(w: VoxelWorld, face: nat, p: Point): Point { Plus(VoxelCentre(w, p), Normal(face)) }

  /** The material that shows on that side, if air is next to it. */
  function Seen(w: VoxelWorld, face: nat, p: Point): nat {
    if Material(w, p) != 0 && Material(w, Plus(p, Normal(face))) == 0 then Material(w, p) else 0
  }

  /** The side lies half way between the voxel and the one beyond. */
  lemma FaceLiesBetween(w: VoxelWorld, face: nat, p: Point)
    ensures var a, b, m := VoxelCentre(w, p), VoxelCentre(w, Plus(p, Normal(face))), FaceMiddle(w, face, p);
      2 * m.x == a.x + b.x && 2 * m.y == a.y + b.y && 2 * m.z == a.z + b.z
  {
  }

  lemma FaceIsWhereItShows(w: VoxelWorld, face: nat, p: Point)
    ensures FaceCentre(w, face, p) == FaceMiddle(w, face, p) && Exposed(w, face, p) == Seen(w, face, p)
  {
    assert Neighbour(face, p) == Plus(p, Normal(face));
  }

  /**
    * Every side of a voxel that shows has its middle under exactly one quad of its direction, with its material; the middle
    * of a side that does not show lies under none.
    */
  lemma EveryFaceInOneQuad(w: VoxelWorld, face: nat, p: Point)
    ensures FaceCovered(Group(w, face, Order(w)), FaceMiddle(w, face, p), if Responsible(w, p) then Seen(w, face, p) else 0)
  {
    FacesAreCovered(w, face, p);
    FaceIsWhereItShows(w, face, p);
  }

  // ---- Area and the face counter ----

  /** How many unit faces a quad spans. */
  function QuadArea(face: nat, q: Quad): int {
    if face < 2 then q.half.x * q.half.y else if face < 4 then q.half.z * q.half.y else q.half.x * q.half.z
  }

  function TotalArea(face: nat, qs: seq<Quad>): int {
    if qs == [] then 0 else QuadArea(face, qs[0]) + TotalArea(face, qs[1..])
  }

  /** The face counter of one direction after some tiles. */
  ghost function FacesSeen(w: VoxelWorld, face: nat, ts: seq<Tile>): nat {
    if ts == [] then 0 else FacesSeen(w, face, ts[..|ts| - 1]) + TileFaces(w, face, ts[|ts| - 1])
  }

  lemma {:induction false} TotalAreaJoin(face: nat, a: seq<Quad>, b: seq<Quad>)
    ensures TotalArea(face, a + b) == TotalArea(face, a) + TotalArea(face, b)
  {
    if a == [] {
      assert a + b == b;
    } else {
      assert (a + b)[1..] == a[1..] + b;
      TotalAreaJoin(face, a[1..], b);
    }
  }

  lemma {:induction false} QuadsArea(w: VoxelWorld, face: nat, t: Tile, rs: seq<Rect>)
    ensures TotalArea(face, QuadsOf(w, face, t, rs)) == Area(rs)
  {
    if rs != [] {
      assert QuadsOf(w, face, t, rs)[1..] == QuadsOf(w, face, t, rs[1..]);
      QuadsArea(w, face, t, rs[1..]);
    }
  }

  /** The quads of a direction span as many unit faces as the counter saw. */
  lemma {:induction false} GroupArea(w: VoxelWorld, face: nat, ts: seq<Tile>)
    ensures TotalArea(face, Group(w, face, ts)) == FacesSeen(w, face, ts)
  {
    if ts != [] {
      var before, t := ts[..|ts| - 1], ts[|ts| - 1];
      GroupArea(w, face, before);
      TotalAreaJoin(face, Group(w, face, before), TileQuads(w, face, t));
      TileQuadsAre(w, face, t);
      TileFacesAre(w, face, t);
      QuadsArea(w, face, t, Rects(MaskOf(w, face, t)));
      AreaIsFilled(MaskOf(w, face, t));
    }
  }

  /** The voxels whose faces the first cells of a tile's mask record. */
  ghost function TileListing(face: nat, t: Tile, m: seq<nat>): seq<Point> {
    if m == [] then []
    else
      var c := |m| - 1;
      TileListing(face, t, m[..c]) + if m[c] != 0 then [Place(face, t, c % 16, c / 16)] else []
  }

  ghost function Listing(w: VoxelWorld, face: nat, ts: seq<Tile>): seq<Point> {
    if ts == [] then [] else Listing(w, face, ts[..|ts| - 1]) + TileListing(face, ts[|ts| - 1], MaskOf(w, face, ts[|ts| - 1]))
  }

  lemma PlaceInTile(face: nat, t: Tile, c: nat, p: Point)
    requires t.slice < 16 && c < 256
    ensures Place(face, t, c % 16, c / 16) == p <==> InTile(face, t, p) && Cell(Column(face, p), Row(face, p)) == c
  {
  }

  lemma {:induction false} TileListsOnce(w: VoxelWorld, face: nat, t: Tile, m: seq<nat>, p: Point)
    requires m <= MaskOf(w, face, t) && t.slice < 16
    ensures |TileListing(face, t, m)| == Filled(m)
    ensures multiset(TileListing(face, t, m))[p]
         == if InTile(face, t, p) && Cell(Column(face, p), Row(face, p)) < |m| && Exposed(w, face, p) != 0 then 1 else 0
  {
    if m != [] {
      var c := |m| - 1;
      TileListsOnce(w, face, t, m[..c], p);
      PlaceInTile(face, t, c, p);
      MaskAt(w, face, t, c % 16, c / 16);
    }
  }

  lemma {:induction false} ListsOnce(w: VoxelWorld, face: nat, ts: seq<Tile>, p: Point)
    requires Once(ts) && Shallow(ts)
    ensures |Listing(w, face, ts)| == FacesSeen(w, face, ts)
    ensures multiset(Listing(w, face, ts))[p] == if Scanned(face, ts, p) && Exposed(w, face, p) != 0 then 1 else 0
  {
    if ts != [] {
      var t := ts[|ts| - 1];
      ListsOnce(w, face, ts[..|ts| - 1], p);
      TileListsOnce(w, face, t, MaskOf(w, face, t), p);
      TileFacesAre(w, face, t);
      ScannedOrLast(face, ts, p);
      if InTile(face, t, p) {
        PlaceOf(face, t, p);
        CellPlace(Column(face, p), Row(face, p));
      }
    }
  }

  /** The counter counts each exposed face of a direction exactly once: it is the length of a list with each of them once. */
  lemma CounterCountsEachFaceOnce(w: VoxelWorld, face: nat, p: Point)
    ensures |Listing(w, face, Order(w))| == FacesSeen(w, face, Order(w))
    ensures multiset(Listing(w, face, Order(w)))[p] == if Responsible(w, p) && Exposed(w, face, p) != 0 then 1 else 0
  {
    OrderIsOnce(w);
    ListsOnce(w, face, Order(w), p);
    if Exposed(w, face, p) != 0 {
      ScanIsExact(w, face, p);
    }
  }

  // ---- How many quads there can be ----

  lemma {:induction false} AreaBoundsCount(rs: seq<Rect>)
    requires AllFit(rs)
    ensures |rs| <= Area(rs)
  {
    if rs != [] {
      assert 1 <= rs[0].w * rs[0].h;
      AreaBoundsCount(rs[1..]);
    }
  }

  lemma {:induction false} GroupIsBounded(w: VoxelWorld, face: nat, ts: seq<Tile>)
    ensures |Group(w, face, ts)| <= FacesSeen(w, face, ts) <= 256 * |ts|
  {
    if ts != [] {
      var m := MaskOf(w, face, ts[|ts| - 1]);
      TileQuadsAre(w, face, ts[|ts| - 1]);
      TileFacesAre(w, face, ts[|ts| - 1]);
      GroupIsBounded(w, face, ts[..|ts| - 1]);
      AreaIsFilled(m);
      AreaBoundsCount(Rects(m));
      AreaIsFilled(m);
      FilledIsBounded(m);
    }
  }

  lemma {:induction false} GroupGrows(w: VoxelWorld, face: nat, a: seq<Tile>, b: seq<Tile>)
    requires a <= b
    ensures |Group(w, face, a)| <= |Group(w, face, b)|
  {
    if |a| < |b| {
      GroupGrows(w, face, a, b[..|b| - 1]);
    } else {
      assert a == b;
    }
  }
}
