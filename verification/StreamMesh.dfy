/** Which chunks are near a centre, and the mesh of a set of resident chunks (examples/gpu_stress_3d/voxel_stream.rs). */
module StreamMesh {
  import opened Wrappers
  import opened Voxels
  import opened VoxelMesh
  import opened VoxelScene

  datatype Coord = Coord(x: int, z: int)

  function Away(a: int, b: int): nat { if a < b then b - a else a - b }

  predicate Near(c: Coord, centre: Coord, r: nat) {
    Away(c.x, centre.x) <= r && Away(c.z, centre.z) <= r
  }

  // ---- The square of chunks around a centre, in key order ----

  function Strip(x: int, z: int, n: nat): (s: seq<Coord>)
    ensures |s| == n
  {
    seq(n, k => Coord(x, z + k))
  }

  /** `rows` strips of `n` chunks, from a corner on. */
  function Strips(x: int, z: int, n: nat, rows: nat): seq<Coord> {
    if rows == 0 then [] else Strips(x, z, n, rows - 1) + Strip(x + rows - 1, z, n)
  }

  function Square(centre: Coord, r: nat): seq<Coord> {
    Strips(centre.x - r, centre.z - r, r + r + 1, r + r + 1)
  }

  predicate Before(a: Coord, b: Coord) { a.x < b.x || (a.x == b.x && a.z < b.z) }

  ghost predicate Rising(s: seq<Coord>) {
    forall i, j :: 0 <= i < j < |s| ==> Before(s[i], s[j])
  }

  lemma RisingJoin(a: seq<Coord>, b: seq<Coord>)
    requires Rising(a) && Rising(b) && forall c, d :: c in a && d in b ==> Before(c, d)
    ensures Rising(a + b)
  {
    forall i, j | 0 <= i < j < |a + b| ensures Before((a + b)[i], (a + b)[j]) {
      if i < |a| <= j {
        assert a[i] in a && b[j - |a|] in b;
      }
    }
  }

  lemma StripHolds(x: int, z: int, n: nat)
    ensures Rising(Strip(x, z, n))
    ensures forall c: Coord :: c in Strip(x, z, n) <==> c.x == x && z <= c.z < z + n
  {
    forall c: Coord | c.x == x && z <= c.z < z + n ensures c in Strip(x, z, n) {
      assert Strip(x, z, n)[c.z - z] == c;
    }
  }

  lemma {:induction false} StripsHold(x: int, z: int, n: nat, rows: nat)
    ensures Rising(Strips(x, z, n, rows))
    ensures forall c: Coord :: c in Strips(x, z, n, rows) <==> x <= c.x < x + rows && z <= c.z < z + n
  {
    if rows > 0 {
      StripsHold(x, z, n, rows - 1);
      StripHolds(x + rows - 1, z, n);
      RisingJoin(Strips(x, z, n, rows - 1), Strip(x + rows - 1, z, n));
    }
  }

  /** The square holds exactly the near chunks, each once, in rising key order. */
  lemma SquareHolds(centre: Coord, r: nat)
    ensures Rising(Square(centre, r))
    ensures forall c: Coord :: c in Square(centre, r) <==> Near(c, centre, r)
  {
    StripsHold(centre.x - r, centre.z - r, r + r + 1, r + r + 1);
  }

  // ---- Chunks and what they hold ----

  type Chunks = map<Coord, Mesh>

  /** The world a chunk is meshed from. */
  function ChunkOf(seed: nat, c: Coord): VoxelWorld { VoxelWorld(0, seed, Some((16 * c.x, 16 * c.z))) }

  ghost predicate Right(seed: nat, chunks: Chunks) {
    forall c :: c in chunks ==> chunks[c] == MeshOf(ChunkOf(seed, c))
  }

  /** The mesh of each chunk of the terrain. */
  ghost function Mesher(seed: nat): Coord -> Mesh {
    c => MeshOf(ChunkOf(seed, c))
  }

  /** Quads held by the resident chunks among those listed. */
  function Load(chunks: Chunks, cs: seq<Coord>): nat {
    if cs == [] then 0
    else
      var c := cs[|cs| - 1];
      Load(chunks, cs[..|cs| - 1]) + if c in chunks then |chunks[c].instances| else 0
  }

  function BlocksIn(chunks: Chunks, cs: seq<Coord>): nat {
    if cs == [] then 0
    else
      var c := cs[|cs| - 1];
      BlocksIn(chunks, cs[..|cs| - 1]) + if c in chunks then chunks[c].blockCount else 0
  }

  function FacesIn(chunks: Chunks, cs: seq<Coord>): nat {
    if cs == [] then 0
    else
      var c := cs[|cs| - 1];
      FacesIn(chunks, cs[..|cs| - 1]) + if c in chunks then chunks[c].exposedFaces else 0
  }

  lemma {:induction false} LoadAfterInsert(chunks: Chunks, cs: seq<Coord>, c: Coord, m: Mesh)
    requires Rising(cs) && c !in chunks
    ensures Load(chunks[c := m], cs) == Load(chunks, cs) + if c in cs then |m.instances| else 0
  {
    if cs != [] {
      LoadAfterInsert(chunks, cs[..|cs| - 1], c, m);
      assert cs == cs[..|cs| - 1] + [cs[|cs| - 1]];
      assert cs[|cs| - 1] !in cs[..|cs| - 1];
    }
  }

  /** What the draws of one direction show. */
  function Shown(draws: seq<Draw>, instances: seq<Quad>, face: nat): seq<Quad> {
    if draws == [] then []
    else
      var d := draws[|draws| - 1];
      Shown(draws[..|draws| - 1], instances, face) + if d.face == face then Drawn(d, instances) else []
  }

  /** One direction of all resident chunks. */
  function Gathered(chunks: Chunks, cs: seq<Coord>, face: nat): seq<Quad> {
    if cs == [] then []
    else
      var c := cs[|cs| - 1];
      Gathered(chunks, cs[..|cs| - 1], face) + if c in chunks then Shown(chunks[c].draws, chunks[c].instances, face) else []
  }

  function AllGathered(chunks: Chunks, cs: seq<Coord>, faces: nat): (g: seq<seq<Quad>>)
    ensures |g| == faces
  {
    seq(faces, f requires 0 <= f < faces => Gathered(chunks, cs, f))
  }

  /** The frame made of the resident chunks among those listed. */
  function Composed(chunks: Chunks, cs: seq<Coord>): Mesh {
    var groups := AllGathered(chunks, cs, 6);
    Mesh(Instances(groups), Draws(groups), BlocksIn(chunks, cs), FacesIn(chunks, cs))
  }

  // ---- A chunk's draws show its directions ----

  lemma {:induction false} ShownIsOne(draws: seq<Draw>, instances: seq<Quad>, face: nat, k: nat)
    requires forall i, j :: 0 <= i < j < |draws| ==> draws[i].face < draws[j].face
    requires k < |draws| && draws[k].face == face
    ensures Shown(draws, instances, face) == Drawn(draws[k], instances)
  {
    var last := |draws| - 1;
    if k < last {
      ShownIsOne(draws[..last], instances, face, k);
    } else {
      ShownIsNone(draws[..last], instances, face);
    }
  }

  lemma {:induction false} ShownIsNone(draws: seq<Draw>, instances: seq<Quad>, face: nat)
    requires forall i :: 0 <= i < |draws| ==> draws[i].face != face
    ensures Shown(draws, instances, face) == []
  {
    if draws != [] {
      ShownIsNone(draws[..|draws| - 1], instances, face);
    }
  }

  /** Reading a direction back through the draws gives the group it was built from. */
  lemma DrawsReadBack(groups: seq<seq<Quad>>, face: nat)
    requires face < |groups|
    ensures Shown(Draws(groups), Instances(groups), face) == groups[face]
  {
    DrawsTileTheBuffer(groups);
    if groups[face] != [] {
      var k := DrawsMissNone(groups, face);
      ShownIsOne(Draws(groups), Instances(groups), face, k);
    } else {
      forall k: nat | k < |Draws(groups)| ensures Draws(groups)[k].face != face {
        DrawsAreFull(groups, k);
      }
      ShownIsNone(Draws(groups), Instances(groups), face);
    }
  }

  lemma {:induction false} DrawsAreFull(groups: seq<seq<Quad>>, k: nat)
    requires k < |Draws(groups)|
    ensures Draws(groups)[k].face < |groups| && groups[Draws(groups)[k].face] != []
  {
    var last := |groups| - 1;
    if k < |Draws(groups[..last])| {
      DrawsAreFull(groups[..last], k);
    }
  }

  // ---- No seams ----

  /** The unbounded terrain. */
  function Terrain(seed: nat): VoxelWorld { VoxelWorld(0, seed, Some((0, 0))) }

  function Shift(p: Point, c: Coord): Point { Point(p.x - 16 * c.x, p.y, p.z - 16 * c.z) }

  function Owner(p: Point): Coord { Coord(p.x / 16, p.z / 16) }

  lemma MaterialShifts(seed: nat, c: Coord, p: Point)
    ensures Material(ChunkOf(seed, c), Shift(p, c)) == Material(Terrain(seed), p)
  {
    RegionsAgree(seed, 0, 0, (16 * c.x, 16 * c.z), (0, 0), p);
  }

  lemma NeighbourShifts(c: Coord, face: nat, p: Point)
    ensures Neighbour(face, Shift(p, c)) == Shift(Neighbour(face, p), c)
  {
  }

  /** A chunk sees its part of the terrain, across its edges too. */
  lemma ChunkSeesTerrain(seed: nat, c: Coord, face: nat, p: Point)
    ensures Exposed(ChunkOf(seed, c), face, Shift(p, c)) == Exposed(Terrain(seed), face, p)
  {
    var chunk, terrain := ChunkOf(seed, c), Terrain(seed);
    MaterialShifts(seed, c, p);
    MaterialShifts(seed, c, Neighbour(face, p));
    NeighbourShifts(c, face, p);
    ExposedBy(chunk, terrain, face, Shift(p, c), p);
  }

  lemma ExposedBy(v: VoxelWorld, w: VoxelWorld, face: nat, p: Point, q: Point)
    requires Material(v, p) == Material(w, q) && Material(v, Neighbour(face, p)) == Material(w, Neighbour(face, q))
    ensures Exposed(v, face, p) == Exposed(w, face, q)
  {
  }

  /** A face stands at the same place seen from its chunk or from the terrain. */
  lemma SamePlace(seed: nat, c: Coord, face: nat, p: Point)
    ensures FaceCentre(ChunkOf(seed, c), face, Shift(p, c)) == FaceCentre(Terrain(seed), face, p)
    ensures Responsible(ChunkOf(seed, c), Shift(p, c)) <==> c == Owner(p)
  {
  }

  lemma ChunkCovers(seed: nat, c: Coord, face: nat, p: Point)
    requires face < 6
    ensures FaceCovered(Shown(MeshOf(ChunkOf(seed, c)).draws, MeshOf(ChunkOf(seed, c)).instances, face), FaceCentre(Terrain(seed), face, p),
              if c == Owner(p) then Exposed(Terrain(seed), face, p) else 0)
  {
    var w := ChunkOf(seed, c);
    DrawsReadBack(Groups(w), face);
    GroupAt(w, AllTiles(w), face);
    FacesAreCovered(w, face, Shift(p, c));
    ChunkSeesTerrain(seed, c, face, p);
    SamePlace(seed, c, face, p);
  }

  predicate Holds(chunks: Chunks, cs: seq<Coord>, c: Coord) { c in chunks && c in cs }

  /** What a face of the terrain should show when some chunks are resident. */
  function Due(seed: nat, chunks: Chunks, cs: seq<Coord>, face: nat, p: Point): nat {
    if Holds(chunks, cs, Owner(p)) then Exposed(Terrain(seed), face, p) else 0
  }

  lemma DueStep(seed: nat, chunks: Chunks, cs: seq<Coord>, face: nat, p: Point)
    requires Rising(cs) && cs != []
    ensures var before, c := cs[..|cs| - 1], cs[|cs| - 1];
      && Due(seed, chunks, cs, face, p)
         == Due(seed, chunks, before, face, p) + (if c in chunks && c == Owner(p) then Exposed(Terrain(seed), face, p) else 0)
      && (c == Owner(p) ==> Due(seed, chunks, before, face, p) == 0)
  {
    var before, c := cs[..|cs| - 1], cs[|cs| - 1];
    assert cs == before + [c] && c !in before;
  }

  lemma {:induction false} GatheredCovers(seed: nat, chunks: Chunks, cs: seq<Coord>, face: nat, p: Point)
    requires Right(seed, chunks) && Rising(cs) && face < 6
    ensures FaceCovered(Gathered(chunks, cs, face), FaceCentre(Terrain(seed), face, p), Due(seed, chunks, cs, face, p))
  {
    if cs != [] {
      var before, c := cs[..|cs| - 1], cs[|cs| - 1];
      GatheredCovers(seed, chunks, before, face, p);
      DueStep(seed, chunks, cs, face, p);
      if c in chunks {
        ChunkCovers(seed, c, face, p);
        JoinCovered(Gathered(chunks, before, face), Shown(chunks[c].draws, chunks[c].instances, face), FaceCentre(Terrain(seed), face, p),
          Due(seed, chunks, before, face, p), if c == Owner(p) then Exposed(Terrain(seed), face, p) else 0);
      } else {
        assert Gathered(chunks, cs, face) == Gathered(chunks, before, face);
      }
    }
  }

  /** Over all resident chunks a side that shows in the terrain is drawn once if its chunk is resident, and nothing else is drawn: no seams. */
  lemma NoSeams(seed: nat, chunks: Chunks, cs: seq<Coord>, face: nat, p: Point)
    requires Right(seed, chunks) && Rising(cs) && face < 6
    ensures FaceCovered(Gathered(chunks, cs, face), FaceMiddle(Terrain(seed), face, p),
                        if Holds(chunks, cs, Owner(p)) then Seen(Terrain(seed), face, p) else 0)
  {
    GatheredCovers(seed, chunks, cs, face, p);
    FaceIsWhereItShows(Terrain(seed), face, p);
  }

  // ---- How large a frame is ----

  lemma {:induction false} SizeAdds(a: seq<seq<Quad>>, b: seq<seq<Quad>>, c: seq<seq<Quad>>)
    requires |a| == |b| == |c| && forall f :: 0 <= f < |c| ==> c[f] == a[f] + b[f]
    ensures Size(c) == Size(a) + Size(b)
  {
    if c != [] {
      SizeAdds(a[..|a| - 1], b[..|b| - 1], c[..|c| - 1]);
    }
  }

  lemma {:induction false} SizeOfEmpty(a: seq<seq<Quad>>)
    requires forall f :: 0 <= f < |a| ==> a[f] == []
    ensures Size(a) == 0
  {
    if a != [] { SizeOfEmpty(a[..|a| - 1]); }
  }

  lemma ChunkShows(seed: nat, chunks: Chunks, c: Coord, f: nat)
    requires Right(seed, chunks) && c in chunks && f < 6
    ensures Shown(chunks[c].draws, chunks[c].instances, f) == Groups(ChunkOf(seed, c))[f]
    ensures |chunks[c].instances| == Size(Groups(ChunkOf(seed, c)))
  {
    DrawsReadBack(Groups(ChunkOf(seed, c)), f);
    InstancesSize(Groups(ChunkOf(seed, c)));
  }

  lemma GatheredStep(chunks: Chunks, cs: seq<Coord>, groups: seq<seq<Quad>>)
    requires cs != [] && cs[|cs| - 1] in chunks && |groups| == 6
    requires var m := chunks[cs[|cs| - 1]]; forall f :: 0 <= f < 6 ==> Shown(m.draws, m.instances, f) == groups[f]
    ensures Size(AllGathered(chunks, cs, 6)) == Size(AllGathered(chunks, cs[..|cs| - 1], 6)) + Size(groups)
  {
    SizeAdds(AllGathered(chunks, cs[..|cs| - 1], 6), groups, AllGathered(chunks, cs, 6));
  }

  lemma GatheredSkip(chunks: Chunks, cs: seq<Coord>)
    requires cs != [] && cs[|cs| - 1] !in chunks
    ensures AllGathered(chunks, cs, 6) == AllGathered(chunks, cs[..|cs| - 1], 6)
  {
    forall f: nat | f < 6 ensures AllGathered(chunks, cs, 6)[f] == AllGathered(chunks, cs[..|cs| - 1], 6)[f] {
      assert Gathered(chunks, cs, f) == Gathered(chunks, cs[..|cs| - 1], f);
    }
  }

  /** A composed frame holds what its chunks hold. */
  lemma {:induction false} ComposedSize(seed: nat, chunks: Chunks, cs: seq<Coord>)
    requires Right(seed, chunks)
    ensures Size(AllGathered(chunks, cs, 6)) == Load(chunks, cs)
  {
    if cs == [] {
      SizeOfEmpty(AllGathered(chunks, cs, 6));
    } else {
      var c := cs[|cs| - 1];
      ComposedSize(seed, chunks, cs[..|cs| - 1]);
      if c in chunks {
        var groups := Groups(ChunkOf(seed, c));
        forall f: nat | f < 6 ensures Shown(chunks[c].draws, chunks[c].instances, f) == groups[f] && |chunks[c].instances| == Size(groups) {
          ChunkShows(seed, chunks, c, f);
        }
        ChunkShows(seed, chunks, c, 0);
        GatheredStep(chunks, cs, groups);
      } else {
        GatheredSkip(chunks, cs);
      }
    }
  }

  // ---- A drained frame depends only on seed, radius and centre ----

  ghost function Drained(seed: nat, cs: seq<Coord>): Chunks {
    map c | c in cs :: MeshOf(ChunkOf(seed, c))
  }

  /** Once nothing near is missing, the resident chunks are all of the square and nothing else. */
  lemma DrainedIsUnique(seed: nat, chunks: Chunks, centre: Coord, r: nat)
    requires Right(seed, chunks) && forall c :: c in chunks <==> Near(c, centre, r)
    ensures chunks == Drained(seed, Square(centre, r))
  {
    SquareHolds(centre, r);
  }

  lemma DrainedFrame(seed: nat, chunks: Chunks, centre: Coord, r: nat)
    requires Right(seed, chunks) && forall c :: c in chunks <==> Near(c, centre, r)
    ensures Composed(chunks, Square(centre, r)) == Composed(Drained(seed, Square(centre, r)), Square(centre, r))
  {
    DrainedIsUnique(seed, chunks, centre, r);
  }

  // ---- What is missing, nearest first ----

  function Missing(chunks: Chunks, cs: seq<Coord>): seq<Coord> {
    if cs == [] then []
    else
      var c := cs[|cs| - 1];
      Missing(chunks, cs[..|cs| - 1]) + if c in chunks then [] else [c]
  }

  lemma {:induction false} MissingHolds(chunks: Chunks, cs: seq<Coord>)
    ensures forall c :: c in Missing(chunks, cs) <==> c in cs && c !in chunks
  {
    if cs != [] {
      MissingHolds(chunks, cs[..|cs| - 1]);
      assert cs == cs[..|cs| - 1] + [cs[|cs| - 1]];
    }
  }

  lemma {:induction false} MissingAfterInsert(chunks: Chunks, cs: seq<Coord>, c: Coord, m: Mesh)
    requires Rising(cs) && c !in chunks
    ensures |Missing(chunks[c := m], cs)| == |Missing(chunks, cs)| - if c in cs then 1 else 0
  {
    if cs != [] {
      MissingAfterInsert(chunks, cs[..|cs| - 1], c, m);
      assert cs == cs[..|cs| - 1] + [cs[|cs| - 1]];
      assert cs[|cs| - 1] !in cs[..|cs| - 1];
    }
  }

  /** The squared distance of two chunks. */
  function Distance(c: Coord, centre: Coord): nat {
    Squared(Away(c.x, centre.x)) + Squared(Away(c.z, centre.z))
  }

  /** The sort key: distance, then the key order. */
  predicate Closer(centre: Coord, a: Coord, b: Coord) {
    Distance(a, centre) < Distance(b, centre) || (Distance(a, centre) == Distance(b, centre) && Before(a, b))
  }

  ghost predicate NearestFirst(centre: Coord, s: seq<Coord>) {
    forall i, j :: 0 <= i < j < |s| ==> Closer(centre, s[i], s[j])
  }

  function Insert(centre: Coord, c: Coord, s: seq<Coord>): seq<Coord> {
    if s == [] || Closer(centre, c, s[0]) then [c] + s else [s[0]] + Insert(centre, c, s[1..])
  }

  function SortByDistance(centre: Coord, s: seq<Coord>): seq<Coord> {
    if s == [] then [] else Insert(centre, s[0], SortByDistance(centre, s[1..]))
  }

  lemma {:induction false} InsertKeeps(centre: Coord, c: Coord, s: seq<Coord>)
    requires NearestFirst(centre, s) && c !in s
    ensures NearestFirst(centre, Insert(centre, c, s)) && |Insert(centre, c, s)| == |s| + 1
    ensures forall d :: d in Insert(centre, c, s) <==> d == c || d in s
  {
    if s != [] && !Closer(centre, c, s[0]) {
      InsertKeeps(centre, c, s[1..]);
      var rest := Insert(centre, c, s[1..]);
      forall j | 0 <= j < |rest| ensures Closer(centre, s[0], rest[j]) {
        assert rest[j] in rest;
      }
    }
  }

  /** Sorting keeps the chunks and puts the nearest first. */
  lemma {:induction false} SortKeeps(centre: Coord, s: seq<Coord>)
    requires Rising(s)
    ensures NearestFirst(centre, SortByDistance(centre, s)) && |SortByDistance(centre, s)| == |s|
    ensures forall d :: d in SortByDistance(centre, s) <==> d in s
  {
    if s != [] {
      SortKeeps(centre, s[1..]);
      assert s[0] !in s[1..];
      InsertKeeps(centre, s[0], SortByDistance(centre, s[1..]));
    }
  }

  lemma {:induction false} MissingRises(chunks: Chunks, cs: seq<Coord>)
    requires Rising(cs)
    ensures Rising(Missing(chunks, cs))
  {
    if cs != [] {
      var before, c := cs[..|cs| - 1], cs[|cs| - 1];
      MissingRises(chunks, before);
      MissingHolds(chunks, before);
      RisingJoin(Missing(chunks, before), if c in chunks then [] else [c]);
    }
  }
}
