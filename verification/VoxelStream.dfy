/** Streaming chunks around a moving centre (examples/gpu_stress_3d/voxel_stream.rs). */
module VoxelStream {
  import opened Wrappers
  import opened Voxels
  import opened VoxelMesh
  import opened VoxelScene
  import opened StreamMesh
  import opened ChunkBounds

  const CHUNKS_PER_FRAME: nat := 2

  /** The chunks picked do not fit beside those resident. */
  datatype StreamError = Residency

  // ---- One call, as a function of the chunks before it ----

  function Retained(chunks: Chunks, centre: Coord, r: nat): Chunks {
    map c | c in chunks && Near(c, centre, r) :: chunks[c]
  }

  /** What a call keeps of the chunks: nothing under a new key, and otherwise what is still near. */
  function Kept(chunks: Chunks, key: Option<(nat, nat)>, seed: nat, r: nat, centre: Coord): Chunks {
    if key != Some((seed, r)) then map[] else Retained(chunks, centre, r)
  }

  /** What a call is to build, nearest first. */
  function Wanted(chunks: Chunks, centre: Coord, r: nat): seq<Coord> {
    SortByDistance(centre, Missing(chunks, Square(centre, r)))
  }

  function Picks(wanted: seq<Coord>): (p: seq<Coord>)
    ensures p <= wanted && |p| <= CHUNKS_PER_FRAME && (|p| < CHUNKS_PER_FRAME ==> p == wanted)
  {
    if |wanted| <= CHUNKS_PER_FRAME then wanted else wanted[..CHUNKS_PER_FRAME]
  }

  ghost function Added(chunks: Chunks, mesh: Coord -> Mesh, picks: seq<Coord>): Chunks {
    if picks == [] then chunks
    else
      var c := picks[|picks| - 1];
      Added(chunks, mesh, picks[..|picks| - 1])[c := mesh(c)]
  }

  lemma {:induction false} AddedHolds(chunks: Chunks, mesh: Coord -> Mesh, picks: seq<Coord>)
    ensures forall c :: c in Added(chunks, mesh, picks) <==> c in chunks || c in picks
    ensures forall c :: c in Added(chunks, mesh, picks) ==>
      Added(chunks, mesh, picks)[c] == mesh(c) || (c in chunks && Added(chunks, mesh, picks)[c] == chunks[c])
  {
    if picks != [] {
      AddedHolds(chunks, mesh, picks[..|picks| - 1]);
      assert picks == picks[..|picks| - 1] + [picks[|picks| - 1]];
    }
  }

  lemma AddedIsRight(seed: nat, chunks: Chunks, picks: seq<Coord>)
    requires Right(seed, chunks)
    ensures Right(seed, Added(chunks, Mesher(seed), picks))
  {
    AddedHolds(chunks, Mesher(seed), picks);
  }

  /** Whether the chunks picked still fit beside those kept. */
  ghost predicate Fit(kept: Chunks, mesh: Coord -> Mesh, picks: seq<Coord>, square: seq<Coord>) {
    picks == [] || Bytes(Load(Added(kept, mesh, picks), square)) <= LIMIT
  }

  // ---- Gaps ----

  /** The chunks lie around a centre and something near it is missing. */
  ghost predicate GapAround(chunks: Chunks, r: nat, centre: Coord, gap: Coord) {
    (forall c :: c in chunks ==> Near(c, centre, r)) && Near(gap, centre, r) && gap !in chunks
  }

  ghost predicate Incomplete(chunks: Chunks, r: nat) {
    exists centre, gap :: GapAround(chunks, r, centre, gap)
  }

  ghost predicate Complete(chunks: Chunks, r: nat, centre: Coord) {
    forall c :: c in chunks <==> Near(c, centre, r)
  }

  /** Two squares of the same size, one inside the other, are the same square. */
  lemma SquareInside(r: nat, a: Coord, b: Coord)
    requires forall c :: Near(c, a, r) ==> Near(c, b, r)
    ensures a == b
  {
    assert Near(Coord(a.x - r, a.z - r), a, r) && Near(Coord(a.x + r, a.z + r), a, r);
  }

  /** A complete square has no gap around any centre. */
  lemma CompleteHasNoGap(chunks: Chunks, r: nat, centre: Coord)
    requires Complete(chunks, r, centre)
    ensures !Incomplete(chunks, r)
  {
    if c, gap :| GapAround(chunks, r, c, gap) {
      SquareInside(r, centre, c);
      assert false;
    }
  }

  lemma CompleteAroundOne(chunks: Chunks, r: nat, a: Coord, b: Coord)
    requires Complete(chunks, r, a) && Complete(chunks, r, b)
    ensures a == b
  {
    SquareInside(r, a, b);
  }

  /** Nothing wanted means that everything near is there. */
  lemma WantedHolds(chunks: Chunks, centre: Coord, r: nat)
    ensures NearestFirst(centre, Wanted(chunks, centre, r))
    ensures |Wanted(chunks, centre, r)| == |Missing(chunks, Square(centre, r))|
    ensures forall c :: c in Wanted(chunks, centre, r) <==> Near(c, centre, r) && c !in chunks
  {
    SquareHolds(centre, r);
    MissingHolds(chunks, Square(centre, r));
    MissingRises(chunks, Square(centre, r));
    SortKeeps(centre, Missing(chunks, Square(centre, r)));
  }

  lemma InPrefix(p: seq<Coord>, w: seq<Coord>, j: nat)
    requires p <= w && j < |p|
    ensures w[j] in p
  {
    assert p[j] == w[j];
  }

  /** The square of a distance given along x and z. */
  function Square2(x: int, z: int): int { x * x + z * z }

  lemma SquareOfDistance(c: Coord, centre: Coord)
    ensures Distance(c, centre) == Square2(c.x - centre.x, c.z - centre.z)
  {
    SquareOfAway(c.x, centre.x);
    SquareOfAway(c.z, centre.z);
  }

  lemma SquareOfAway(x: int, y: int)
    ensures Squared(Away(x, y)) == (x - y) * (x - y)
  {
    SquaredIsProduct(Away(x, y));
  }

  /** The chunks a call builds are nearer than all it leaves for later. */
  lemma BuiltAreNearest(chunks: Chunks, centre: Coord, r: nat, built: Coord, left: Coord)
    requires built in Picks(Wanted(chunks, centre, r)) && Near(left, centre, r) && left !in chunks
    requires left !in Picks(Wanted(chunks, centre, r))
    ensures Closer(centre, built, left)
    ensures var b, l := Square2(built.x - centre.x, built.z - centre.z), Square2(left.x - centre.x, left.z - centre.z);
      b < l || (b == l && (built.x < left.x || (built.x == left.x && built.z < left.z)))
  {
    var wanted := Wanted(chunks, centre, r);
    var picks := Picks(wanted);
    WantedHolds(chunks, centre, r);
    var i :| 0 <= i < |picks| && picks[i] == built;
    var j: nat :| j < |wanted| && wanted[j] == left;
    assert picks[i] == wanted[i];
    if j < |picks| {
      InPrefix(picks, wanted, j);
      assert false;
    }
    SquareOfDistance(built, centre);
    SquareOfDistance(left, centre);
  }

  // ---- Adding new chunks one by one ----

  /** Chunks in a square, none repeated and none there yet. */
  ghost predicate NewIn(chunks: Chunks, wanted: seq<Coord>, square: seq<Coord>) {
    && (forall i, j :: 0 <= i < j < |wanted| ==> wanted[i] != wanted[j])
    && forall i :: 0 <= i < |wanted| ==> wanted[i] !in chunks && wanted[i] in square
  }

  lemma WantedIsNew(chunks: Chunks, centre: Coord, r: nat)
    ensures NewIn(chunks, Wanted(chunks, centre, r), Square(centre, r))
  {
    var wanted := Wanted(chunks, centre, r);
    WantedHolds(chunks, centre, r);
    SquareHolds(centre, r);
    forall i | 0 <= i < |wanted| ensures wanted[i] !in chunks && wanted[i] in Square(centre, r) {
      assert wanted[i] in wanted;
    }
    forall i, j | 0 <= i < j < |wanted| ensures wanted[i] != wanted[j] {
      assert Closer(centre, wanted[i], wanted[j]);
    }
  }

  lemma NextPick(kept: Chunks, mesh: Coord -> Mesh, wanted: seq<Coord>, square: seq<Coord>, n: nat)
    requires NewIn(kept, wanted, square) && n < |wanted|
    ensures wanted[n] !in Added(kept, mesh, wanted[..n])
    ensures Added(kept, mesh, wanted[..n + 1]) == Added(kept, mesh, wanted[..n])[wanted[n] := mesh(wanted[n])]
  {
    AddedHolds(kept, mesh, wanted[..n]);
    assert wanted[..n + 1][..n] == wanted[..n];
  }

  lemma {:induction false} MissingAfter(kept: Chunks, mesh: Coord -> Mesh, wanted: seq<Coord>, square: seq<Coord>, n: nat)
    requires NewIn(kept, wanted, square) && Rising(square) && n <= |wanted|
    ensures |Missing(Added(kept, mesh, wanted[..n]), square)| == |Missing(kept, square)| - n
  {
    if n > 0 {
      MissingAfter(kept, mesh, wanted, square, n - 1);
      NextPick(kept, mesh, wanted, square, n - 1);
      MissingAfterInsert(Added(kept, mesh, wanted[..n - 1]), square, wanted[n - 1], mesh(wanted[n - 1]));
    }
  }

  lemma LoadNext(kept: Chunks, mesh: Coord -> Mesh, wanted: seq<Coord>, square: seq<Coord>, n: nat)
    requires NewIn(kept, wanted, square) && Rising(square) && n < |wanted|
    ensures Load(Added(kept, mesh, wanted[..n + 1]), square) == Load(Added(kept, mesh, wanted[..n]), square) + |mesh(wanted[n]).instances|
  {
    NextPick(kept, mesh, wanted, square, n);
    LoadAfterInsert(Added(kept, mesh, wanted[..n]), square, wanted[n], mesh(wanted[n]));
  }

  lemma {:induction false} LoadGrows(kept: Chunks, mesh: Coord -> Mesh, wanted: seq<Coord>, square: seq<Coord>, n: nat, k: nat)
    requires NewIn(kept, wanted, square) && Rising(square) && n <= k <= |wanted|
    ensures Load(Added(kept, mesh, wanted[..n]), square) <= Load(Added(kept, mesh, wanted[..k]), square)
  {
    if n < k {
      LoadGrows(kept, mesh, wanted, square, n, k - 1);
      LoadNext(kept, mesh, wanted, square, k - 1);
    }
  }

  // ---- Composing a frame ----

  method ShowDirection(draws: seq<Draw>, instances: seq<Quad>, face: nat, before: seq<Quad>) returns (out: seq<Quad>)
    ensures out == before + Shown(draws, instances, face)
  {
    out := before;
    for k := 0 to |draws|
      invariant out == before + Shown(draws[..k], instances, face)
    {
      assert draws[..k + 1][..k] == draws[..k];
      if draws[k].face == face {
        out := out + Drawn(draws[k], instances);
      }
    }
    assert draws[..|draws|] == draws;
  }

  method GatherDirection(chunks: Chunks, cs: seq<Coord>, face: nat, before: seq<Quad>) returns (out: seq<Quad>)
    ensures out == before + Gathered(chunks, cs, face)
  {
    out := before;
    for k := 0 to |cs|
      invariant out == before + Gathered(chunks, cs[..k], face)
    {
      assert cs[..k + 1][..k] == cs[..k];
      if cs[k] in chunks {
        out := ShowDirection(chunks[cs[k]].draws, chunks[cs[k]].instances, face, out);
      }
    }
    assert cs[..|cs|] == cs;
  }

  /** One draw a direction over all resident chunks. */
  method Compose(chunks: Chunks, cs: seq<Coord>) returns (mesh: Mesh)
    ensures mesh == Composed(chunks, cs)
  {
    var bytes: seq<Quad> := [];
    var draws: seq<Draw> := [];
    for face: nat := 0 to 6
      invariant bytes == Instances(AllGathered(chunks, cs, face)) && draws == Draws(AllGathered(chunks, cs, face))
    {
      assert AllGathered(chunks, cs, face + 1)[..face] == AllGathered(chunks, cs, face);
      var first := |bytes|;
      bytes := GatherDirection(chunks, cs, face, bytes);
      var count := |bytes| - first;
      if count != 0 {
        draws := draws + [Draw(face, first, count)];
      }
    }
    mesh := Mesh(bytes, draws, BlocksIn(chunks, cs), FacesIn(chunks, cs));
  }

  // ---- The streaming scene ----

  lemma {:induction false} SubsetOfSize<T>(a: set<T>, b: set<T>)
    requires a <= b
    ensures |a| <= |b| && (|a| == |b| ==> a == b)
  {
    if a != {} {
      var x :| x in a;
      SubsetOfSize(a - {x}, b - {x});
    }
  }

  /** Evicting changes the number of chunks unless nothing is evicted. */
  lemma RetainedSize(chunks: Chunks, centre: Coord, r: nat)
    ensures |Retained(chunks, centre, r)| == |chunks| ==> Retained(chunks, centre, r) == chunks
  {
    var kept := Retained(chunks, centre, r);
    assert kept.Keys <= chunks.Keys && |kept.Keys| == |kept| && |chunks.Keys| == |chunks|;
    SubsetOfSize(kept.Keys, chunks.Keys);
  }

  /** A call that finds nothing to build has evicted nothing either. */
  lemma NothingWanted(chunks: Chunks, key: Option<(nat, nat)>, seed: nat, r: nat, centre: Coord, was: Coord)
    requires key == Some((seed, r)) ==> forall c :: c in chunks ==> Near(c, was, r)
    requires Wanted(Kept(chunks, key, seed, r, centre), centre, r) == []
    ensures key == Some((seed, r)) && Kept(chunks, key, seed, r, centre) == chunks && Complete(chunks, r, centre)
  {
    var kept := Kept(chunks, key, seed, r, centre);
    WantedHolds(kept, centre, r);
    assert Near(centre, centre, r);
    forall c | Near(c, centre, r) ensures c in kept {}
    SquareInside(r, centre, was);
  }

  /** What is left to build after a call. */
  lemma LeftAfter(kept: Chunks, seed: nat, centre: Coord, r: nat)
    ensures var wanted := Wanted(kept, centre, r); var now := Added(kept, Mesher(seed), Picks(wanted));
      && |Wanted(now, centre, r)| == |wanted| - |Picks(wanted)|
      && (forall c :: c in now <==> c in kept || c in Picks(wanted))
      && (forall c :: c in Picks(wanted) ==> Near(c, centre, r))
  {
    var wanted := Wanted(kept, centre, r);
    var picks := Picks(wanted);
    var now := Added(kept, Mesher(seed), picks);
    SquareHolds(centre, r);
    WantedIsNew(kept, centre, r);
    WantedHolds(kept, centre, r);
    WantedHolds(now, centre, r);
    assert picks == wanted[..|picks|];
    MissingAfter(kept, Mesher(seed), wanted, Square(centre, r), |picks|);
    AddedHolds(kept, Mesher(seed), picks);
    forall c | c in picks ensures Near(c, centre, r) {
      var i :| 0 <= i < |picks| && picks[i] == c;
      assert wanted[i] in wanted;
    }
  }

  /** Chunks around a centre are complete or have a gap. */
  lemma CompleteOrGap(chunks: Chunks, centre: Coord, r: nat)
    requires forall c :: c in chunks ==> Near(c, centre, r)
    ensures if Wanted(chunks, centre, r) == [] then Complete(chunks, r, centre) else Incomplete(chunks, r)
  {
    WantedHolds(chunks, centre, r);
    var wanted := Wanted(chunks, centre, r);
    if wanted != [] {
      assert wanted[0] in wanted;
      assert GapAround(chunks, r, centre, wanted[0]);
    }
  }

  /** Once nothing near is missing, the frame depends only on seed, radius and centre, whatever the moves before. */
  lemma DrainedDependsOnlyOnPlace(seed: nat, chunks: Chunks, centre: Coord, r: nat)
    requires Right(seed, chunks) && (forall c :: c in chunks ==> Near(c, centre, r)) && Wanted(chunks, centre, r) == []
    ensures Composed(chunks, Square(centre, r)) == Composed(Drained(seed, Square(centre, r)), Square(centre, r))
  {
    CompleteOrGap(chunks, centre, r);
    DrainedFrame(seed, chunks, centre, r);
  }

  /** A call at an unchanged centre keeps every chunk, so what is missing shrinks by two a call until nothing is. */
  lemma StayingKeepsAll(chunks: Chunks, seed: nat, r: nat, centre: Coord)
    requires forall c :: c in chunks ==> Near(c, centre, r)
    ensures Kept(chunks, Some((seed, r)), seed, r, centre) == chunks
  {
  }

  /** A frame is as large as its chunks together. */
  lemma FrameIsWithinBudget(seed: nat, chunks: Chunks, cs: seq<Coord>)
    requires Right(seed, chunks) && Bytes(Load(chunks, cs)) <= LIMIT
    ensures Bytes(|Composed(chunks, cs).instances|) <= LIMIT
  {
    ComposedSize(seed, chunks, cs);
    InstancesSize(AllGathered(chunks, cs, 6));
  }

  // ---- The budget is never the limit ----

  lemma ChunksAreChunks(seed: nat, c: Coord)
    ensures IsChunk(ChunkOf(seed, c))
  {
  }

  lemma {:induction false} LoadIsBounded(seed: nat, chunks: Chunks, cs: seq<Coord>)
    requires Right(seed, chunks)
    ensures Load(chunks, cs) <= 576 * |cs|
  {
    if cs != [] {
      var c := cs[|cs| - 1];
      LoadIsBounded(seed, chunks, cs[..|cs| - 1]);
      ChunksAreChunks(seed, c);
      ChunkHasFewQuads(ChunkOf(seed, c));
    }
  }

  lemma SquareSize(centre: Coord, r: nat)
    requires r <= 4
    ensures |Square(centre, r)| <= 81
  {
    StripsSize(centre.x - r, centre.z - r, r + r + 1, r + r + 1);
    SmallSquare(r + r + 1);
  }

  lemma SmallSquare(n: nat)
    requires n <= 9
    ensures n * n <= 81
  {
    assert n * n <= 9 * n;
  }

  /** Up to the largest radius whatever is picked fits, because no chunk has more than 576 quads. */
  lemma PicksAlwaysFit(kept: Chunks, seed: nat, picks: seq<Coord>, centre: Coord, r: nat)
    requires Right(seed, kept) && r <= 4
    ensures Fit(kept, Mesher(seed), picks, Square(centre, r))
  {
    AddedIsRight(seed, kept, picks);
    LoadIsBounded(seed, Added(kept, Mesher(seed), picks), Square(centre, r));
    SquareSize(centre, r);
  }

  // ---- Draining ----

  /** The chunks are right and all near. */
  ghost predicate InPlace(chunks: Chunks, seed: nat, r: nat, centre: Coord) {
    Right(seed, chunks) && forall c :: c in chunks ==> Near(c, centre, r)
  }

  /** The chunks after a call at the same centre, when all picks fit. */
  ghost function AfterCall(chunks: Chunks, seed: nat, r: nat, centre: Coord): Chunks {
    Added(Kept(chunks, Some((seed, r)), seed, r, centre), Mesher(seed), Picks(Wanted(Kept(chunks, Some((seed, r)), seed, r, centre), centre, r)))
  }

  ghost predicate IsCall(before: Chunks, after: Chunks, seed: nat, r: nat, centre: Coord) {
    after == AfterCall(before, seed, r, centre)
  }

  /** The chunks between successive calls at one centre, when all picks fit. */
  ghost predicate AreCalls(history: seq<Chunks>, seed: nat, r: nat, centre: Coord) {
    history != [] &&
    forall k: nat {:trigger IsCall(history[k], history[k + 1], seed, r, centre)} :: k + 1 < |history| ==> IsCall(history[k], history[k + 1], seed, r, centre)
  }

  /** What is left of a number of missing chunks after some calls, two chunks a call. */
  function LeftOf(missing: nat, k: nat): nat {
    if missing <= k + k then 0 else missing - k - k
  }

  lemma OneCallDrains(chunks: Chunks, seed: nat, r: nat, centre: Coord)
    requires InPlace(chunks, seed, r, centre)
    ensures var now := AfterCall(chunks, seed, r, centre);
      InPlace(now, seed, r, centre) && |Wanted(now, centre, r)| == LeftOf(|Wanted(chunks, centre, r)|, 1)
  {
    StayingKeepsAll(chunks, seed, r, centre);
    LeftAfter(chunks, seed, centre, r);
    AddedIsRight(seed, chunks, Picks(Wanted(chunks, centre, r)));
    var picks := Picks(Wanted(chunks, centre, r));
    assert |picks| == if |Wanted(chunks, centre, r)| <= CHUNKS_PER_FRAME then |Wanted(chunks, centre, r)| else CHUNKS_PER_FRAME;
  }

  lemma LeftOfNext(missing: nat, k: nat)
    ensures LeftOf(LeftOf(missing, k), 1) == LeftOf(missing, k + 1)
  {
  }

  /** Where a history stands after `k` calls. */
  ghost predicate StandsAt(history: seq<Chunks>, seed: nat, r: nat, centre: Coord, missing: nat, k: nat)
    requires k < |history|
  {
    forall now: Chunks :: IsNow(history, k, now) ==> InPlace(now, seed, r, centre) && |Wanted(now, centre, r)| == LeftOf(missing, k)
  }

  /** These chunks are resident after `k` calls. */
  ghost predicate IsNow(history: seq<Chunks>, k: nat, now: Chunks)
    requires k < |history|
  {
    now == history[k]
  }

  lemma StandsNext(history: seq<Chunks>, seed: nat, r: nat, centre: Coord, missing: nat, k: nat)
    requires AreCalls(history, seed, r, centre) && k + 1 < |history| && StandsAt(history, seed, r, centre, missing, k)
    ensures StandsAt(history, seed, r, centre, missing, k + 1)
  {
    assert IsNow(history, k, history[k]);
    CallAt(history, seed, r, centre, k);
    CallDrains(history[k], history[k + 1], seed, r, centre);
    LeftOfNext(missing, k);
  }

  /** Each call at an unchanged centre builds two of the missing chunks, or all that are left. */
  lemma {:induction false} CallsDrainByTwo(history: seq<Chunks>, seed: nat, r: nat, centre: Coord, missing: nat, k: nat)
    requires AreCalls(history, seed, r, centre) && k < |history| && StandsAt(history, seed, r, centre, missing, 0)
    ensures StandsAt(history, seed, r, centre, missing, k)
  {
    if k > 0 {
      CallsDrainByTwo(history, seed, r, centre, missing, k - 1);
      StandsNext(history, seed, r, centre, missing, k - 1);
    }
  }

  lemma CallAt(history: seq<Chunks>, seed: nat, r: nat, centre: Coord, k: nat)
    requires AreCalls(history, seed, r, centre) && k + 1 < |history|
    ensures IsCall(history[k], history[k + 1], seed, r, centre)
  {
  }

  lemma CallDrains(before: Chunks, after: Chunks, seed: nat, r: nat, centre: Coord)
    requires InPlace(before, seed, r, centre) && IsCall(before, after, seed, r, centre)
    ensures InPlace(after, seed, r, centre) && |Wanted(after, centre, r)| == LeftOf(|Wanted(before, centre, r)|, 1)
  {
    OneCallDrains(before, seed, r, centre);
  }

  lemma {:induction false} MissingIsBounded(chunks: Chunks, cs: seq<Coord>)
    ensures |Missing(chunks, cs)| <= |cs|
  {
    if cs != [] { MissingIsBounded(chunks, cs[..|cs| - 1]); }
  }

  lemma MissingAtMost(chunks: Chunks, centre: Coord, r: nat)
    requires r <= 4
    ensures |Wanted(chunks, centre, r)| <= 81
  {
    WantedHolds(chunks, centre, r);
    MissingIsBounded(chunks, Square(centre, r));
    SquareSize(centre, r);
  }

  lemma NothingLeft(missing: nat, k: nat)
    requires missing <= k + k
    ensures LeftOf(missing, k) == 0
  {
  }

  lemma DrainedAt(history: seq<Chunks>, seed: nat, r: nat, centre: Coord, missing: nat, k: nat)
    requires k < |history| && StandsAt(history, seed, r, centre, missing, k) && LeftOf(missing, k) == 0
    ensures Wanted(history[k], centre, r) == []
    ensures Composed(history[k], Square(centre, r)) == Composed(Drained(seed, Square(centre, r)), Square(centre, r))
  {
    assert IsNow(history, k, history[k]);
    DrainedDependsOnlyOnPlace(seed, history[k], centre, r);
  }

  /** At any radius up to 4, forty-one calls at one centre drain it, whatever was resident, and the frame is then a function of the place. */
  lemma EveryPlaceDrains(history: seq<Chunks>, seed: nat, r: nat, centre: Coord)
    requires AreCalls(history, seed, r, centre) && InPlace(history[0], seed, r, centre) && r <= 4 && |history| > 41
    ensures Wanted(history[41], centre, r) == []
    ensures Composed(history[41], Square(centre, r)) == Composed(Drained(seed, Square(centre, r)), Square(centre, r))
  {
    var missing := |Wanted(history[0], centre, r)|;
    MissingAtMost(history[0], centre, r);
    NothingLeft(missing, 41);
    CallsDrainByTwo(history, seed, r, centre, missing, 41);
    DrainedAt(history, seed, r, centre, missing, 41);
  }

  /** Never more chunks than the square has. */
  lemma ResidencyIsBounded(chunks: Chunks, centre: Coord, r: nat)
    requires forall c :: c in chunks ==> Near(c, centre, r)
    ensures |chunks| <= (r + r + 1) * (r + r + 1)
  {
    SquareHolds(centre, r);
    ElementsFit(Square(centre, r));
    StripsSize(centre.x - r, centre.z - r, r + r + 1, r + r + 1);
    var all := set c | c in Square(centre, r);
    assert chunks.Keys <= all && |chunks.Keys| == |chunks|;
    SubsetOfSize(chunks.Keys, all);
  }

  lemma {:induction false} ElementsFit(s: seq<Coord>)
    ensures |set c | c in s| <= |s|
  {
    if s != [] {
      var last := |s| - 1;
      ElementsFit(s[..last]);
      assert s == s[..last] + [s[last]];
      assert (set c | c in s) == (set c | c in s[..last]) + {s[last]};
    }
  }

  lemma {:induction false} StripsSize(x: int, z: int, n: nat, rows: nat)
    ensures |Strips(x, z, n, rows)| == rows * n
  {
    if rows > 0 {
      StripsSize(x, z, n, rows - 1);
      assert rows * n == (rows - 1) * n + n;
    }
  }

  /** Every chunk shows at least the top of its first column, so its mesh is never empty. */
  lemma ChunkHasQuads(seed: nat, c: Coord)
    ensures |Mesher(seed)(c).instances| > 0
  {
    var w := ChunkOf(seed, c);
    TopIsExposed(w);
    EveryFaceInOneQuad(w, 4, Point(0, ColumnHeight(w, 0, 0) - 1, 0));
    GroupAt(w, AllTiles(w), 4);
    InstancesSize(Groups(w));
    SizeHasPart(Groups(w), 4);
  }

  lemma TopIsExposed(w: VoxelWorld)
    requires w.region.Some?
    ensures Exposed(w, 4, Point(0, ColumnHeight(w, 0, 0) - 1, 0)) != 0
  {
  }

  /** Whether so many more quads fit beside those resident; the room left never goes below zero. */
  function HasRoom(load: nat, more: nat): (ok: bool)
    ensures more > 0 ==> (ok <==> Bytes(load + more) <= LIMIT)
  {
    var resident := Bytes(load);
    Bytes(more) <= if resident <= LIMIT then LIMIT - resident else 0
  }

  /** Up to here everything picked was added and fits. */
  ghost predicate AddedSoFar(now: Chunks, kept: Chunks, mesh: Coord -> Mesh, wanted: seq<Coord>, i: nat, square: seq<Coord>) {
    i <= |wanted| && now == Added(kept, mesh, wanted[..i]) && (i > 0 ==> Bytes(Load(now, square)) <= LIMIT)
  }

  lemma NextFits(now: Chunks, kept: Chunks, mesh: Coord -> Mesh, wanted: seq<Coord>, i: nat, n: nat, square: seq<Coord>)
    requires NewIn(kept, wanted, square) && Rising(square) && i < n <= |wanted|
    requires AddedSoFar(now, kept, mesh, wanted, i, square) && |mesh(wanted[i]).instances| > 0
    ensures if HasRoom(Load(now, square), |mesh(wanted[i]).instances|)
      then AddedSoFar(now[wanted[i] := mesh(wanted[i])], kept, mesh, wanted, i + 1, square)
      else !Fit(kept, mesh, wanted[..n], square)
  {
    LoadNext(kept, mesh, wanted, square, i);
    NextPick(kept, mesh, wanted, square, i);
    LoadGrows(kept, mesh, wanted, square, i + 1, n);
  }

  /** A frame shows the resident chunks around a centre. */
  ghost predicate Shows(frame: Option<Frame>, revision: nat, chunks: Chunks, r: nat, centre: Coord) {
    && frame.Some? && frame.value.mesh == Composed(chunks, Square(centre, r)) && frame.value.resident == |chunks| && frame.value.revision == revision
    && Bytes(Load(chunks, Square(centre, r))) <= LIMIT
    && frame.value.pending == |Wanted(chunks, centre, r)|
  }

  /** A frame shows a complete square. */
  ghost predicate Settled(frame: Option<Frame>, revision: nat, chunks: Chunks, r: nat, centre: Coord) {
    Complete(chunks, r, centre) && Shows(frame, revision, chunks, r, centre)
  }

  class VoxelStream {
    var chunks: Chunks
    var key: Option<(nat, nat)>
    var frame: Option<Frame>
    var revision: nat

    /** Chunks are right for their key, and unless some near chunk is missing the frame shows them all. */
    ghost predicate Valid()
      reads this
    {
      key.Some? ==>
        && Right(key.value.0, chunks)
        && (Incomplete(chunks, key.value.1) || exists centre :: Settled(frame, revision, chunks, key.value.1, centre))
    }

    constructor ()
      ensures Valid() && key == None && chunks == map[] && frame == None
    {
      chunks, key, frame, revision := map[], None, None, 0;
    }

    /** Drops what the new key or centre no longer needs. */
    method Evict(seed: nat, r: nat, centre: Coord) returns (changed: bool)
      modifies this`chunks, this`key
      ensures chunks == Kept(old(chunks), old(key), seed, r, centre) && key == Some((seed, r))
      ensures !changed <==> old(key) == Some((seed, r)) && chunks == old(chunks)
    {
      changed := key != Some((seed, r));
      if changed {
        chunks := map[];
        key := Some((seed, r));
      }
      RetainedSize(chunks, centre, r);
      var before := |chunks|;
      chunks := Retained(chunks, centre, r);
      changed := changed || before != |chunks|;
    }

    /** Builds one chunk and keeps it if it fits beside the others. */
    method AddOne(blocks: nat, seed: nat, c: Coord, square: seq<Coord>) returns (ok: bool)
      modifies this`chunks
      ensures ok <==> HasRoom(Load(old(chunks), square), |Mesher(seed)(c).instances|)
      ensures chunks == if ok then old(chunks)[c := Mesher(seed)(c)] else old(chunks)
    {
      var mesh := BuildChunk(blocks, seed, c);
      ok := HasRoom(Load(chunks, square), |mesh.instances|);
      if ok {
        chunks := chunks[c := mesh];
      }
    }

    /** Builds the chunks picked, in order, until one does not fit. */
    method AddAll(blocks: nat, seed: nat, wanted: seq<Coord>, n: nat, square: seq<Coord>) returns (ok: bool, ghost added: nat)
      requires NewIn(chunks, wanted, square) && Rising(square) && n <= |wanted|
      modifies this`chunks
      ensures ok <==> Fit(old(chunks), Mesher(seed), wanted[..n], square)
      ensures added <= n && (ok <==> added == n) && chunks == Added(old(chunks), Mesher(seed), wanted[..added])
      ensures ok && n > 0 ==> Bytes(Load(chunks, square)) <= LIMIT
    {
      ghost var kept := chunks;
      ok, added := true, 0;
      for i: nat := 0 to n
        invariant ok && added == i && AddedSoFar(chunks, kept, Mesher(seed), wanted, i, square)
      {
        ChunkHasQuads(seed, wanted[i]);
        NextFits(chunks, kept, Mesher(seed), wanted, i, n, square);
        ok := AddOne(blocks, seed, wanted[i], square);
        if !ok {
          return;
        }
        added := i + 1;
      }
    }

    lemma ShowingIsValid(seed: nat, r: nat, centre: Coord)
      requires key == Some((seed, r)) && Right(seed, chunks) && forall c :: c in chunks ==> Near(c, centre, r)
      requires Shows(frame, revision, chunks, r, centre)
      ensures Valid()
    {
      CompleteOrGap(chunks, centre, r);
      if Wanted(chunks, centre, r) == [] {
        assert Settled(frame, revision, chunks, r, centre);
      }
    }

    lemma ValidSurrounds(r: nat) returns (was: Coord)
      requires Valid() && key.Some? && key.value.1 == r
      ensures forall c :: c in chunks ==> Near(c, was, r)
    {
      if Incomplete(chunks, r) {
        var c, gap :| GapAround(chunks, r, c, gap);
        was := c;
      } else {
        was :| Settled(frame, revision, chunks, r, was);
      }
    }

    /** A valid scene with everything near in place already shows it. */
    lemma CompleteIsShowing(seed: nat, r: nat, centre: Coord)
      requires Valid() && key == Some((seed, r)) && Complete(chunks, r, centre)
      ensures Shows(frame, revision, chunks, r, centre)
    {
      CompleteHasNoGap(chunks, r, centre);
      var c :| Settled(frame, revision, chunks, r, c);
      CompleteAroundOne(chunks, r, c, centre);
    }

    /**
      * One call: evicts, builds at most two of the nearest missing chunks and shows what is resident.
      * It fails exactly when the chunks picked do not fit, keeping the last frame.
      */
    method Stream(blocks: nat, seed: nat, r: nat, centre: Coord) returns (res: Result<Frame, StreamError>)
      requires Valid()
      modifies this
      ensures Valid() && key == Some((seed, r)) && Right(seed, chunks) && forall c :: c in chunks ==> Near(c, centre, r)
      ensures var kept := Kept(old(chunks), old(key), seed, r, centre);
        var wanted := Wanted(kept, centre, r);
        && (res.Ok? <==> Fit(kept, Mesher(seed), Picks(wanted), Square(centre, r)))
        && (res.Ok? ==> chunks == Added(kept, Mesher(seed), Picks(wanted)) && res.value.built == |Picks(wanted)|)
        && (res.Ok? ==> res.value.pending == |wanted| - |Picks(wanted)|)
      ensures res.Ok? ==> frame == Some(res.value) && Shows(frame, revision, chunks, r, centre)
      ensures res.Err? ==> frame == old(frame) && revision == old(revision)
      ensures r <= 4 ==> res.Ok?
    {
      ghost var kept := Kept(chunks, key, seed, r, centre);
      Prepare(seed, r, centre);
      var wanted := Wanted(chunks, centre, r);
      LeftAfter(kept, seed, centre, r);
      if wanted == [] {
        Refresh(seed, r, centre);
        return Ok(frame.value);
      }
      if r <= 4 {
        PicksAlwaysFit(chunks, seed, Picks(wanted), centre, r);
      }
      res := Extend(blocks, seed, r, centre, wanted);
      if res.Ok? {
        ShowingIsValid(seed, r, centre);
      }
    }

    /** Evicts; when nothing is missing afterwards, nothing was evicted either. */
    method Prepare(seed: nat, r: nat, centre: Coord)
      requires Valid()
      modifies this`chunks, this`key
      ensures chunks == Kept(old(chunks), old(key), seed, r, centre) && key == Some((seed, r))
      ensures Right(seed, chunks) && forall c :: c in chunks ==> Near(c, centre, r)
      ensures Wanted(chunks, centre, r) == [] ==> Valid() && Complete(chunks, r, centre)
    {
      ghost var was := centre;
      if key == Some((seed, r)) {
        was := ValidSurrounds(r);
      }
      ghost var oldKey, oldChunks := key, chunks;
      KeptIsRight(chunks, key, seed, r, centre);
      var changed := Evict(seed, r, centre);
      if Wanted(chunks, centre, r) == [] {
        NothingWanted(oldChunks, oldKey, seed, r, centre, was);
      }
    }

    /** Nothing is missing: the last frame still shows everything. */
    method Refresh(seed: nat, r: nat, centre: Coord)
      requires Valid() && key == Some((seed, r)) && Complete(chunks, r, centre)
      modifies this`frame
      ensures Valid() && Shows(frame, revision, chunks, r, centre) && frame.value.built == 0
    {
      CompleteIsShowing(seed, r, centre);
      frame := Some(frame.value.(built := 0));
      ShowingIsValid(seed, r, centre);
    }

    /** Adds the chunks picked from what is wanted. */
    method AddPicks(blocks: nat, seed: nat, r: nat, centre: Coord, wanted: seq<Coord>) returns (ok: bool)
      requires Right(seed, chunks) && (forall c :: c in chunks ==> Near(c, centre, r))
      requires wanted == Wanted(chunks, centre, r) != []
      modifies this`chunks
      ensures ok <==> Fit(old(chunks), Mesher(seed), Picks(wanted), Square(centre, r))
      ensures ok ==> chunks == Added(old(chunks), Mesher(seed), Picks(wanted)) && Bytes(Load(chunks, Square(centre, r))) <= LIMIT
      ensures ok ==> |Wanted(chunks, centre, r)| == |wanted| - |Picks(wanted)|
      ensures !ok ==> Incomplete(chunks, r)
      ensures Right(seed, chunks) && forall c :: c in chunks ==> Near(c, centre, r)
    {
      ghost var kept := chunks;
      var built := |Picks(wanted)|;
      WantedIsNew(chunks, centre, r);
      SquareHolds(centre, r);
      assert Picks(wanted) == wanted[..built];
      ghost var added;
      ok, added := AddAll(blocks, seed, wanted, built, Square(centre, r));
      AddedIsRight(seed, kept, wanted[..added]);
      if ok {
        LeftAfter(kept, seed, centre, r);
      } else {
        StillIncomplete(kept, Mesher(seed), centre, r, added);
      }
    }

    /** Stores a new frame under the next revision. */
    method SetFrame(mesh: Mesh, left: nat, built: nat)
      modifies this`frame, this`revision
      ensures revision == (old(revision) + 1) % 0x1_0000_0000_0000_0000
      ensures frame == Some(Frame(mesh, revision, |chunks|, left, built))
    {
      revision := (revision + 1) % 0x1_0000_0000_0000_0000;
      frame := Some(Frame(mesh, revision, |chunks|, left, built));
    }

    /** Composes a new frame from the resident chunks, which the checks on the way in keep within the budget. */
    method Show(r: nat, centre: Coord, left: nat, built: nat)
      requires Bytes(Load(chunks, Square(centre, r))) <= LIMIT && left == |Wanted(chunks, centre, r)|
      modifies this`frame, this`revision
      ensures Shows(frame, revision, chunks, r, centre) && frame.value.built == built
      ensures revision == (old(revision) + 1) % 0x1_0000_0000_0000_0000
    {
      var mesh := Compose(chunks, Square(centre, r));
      SetFrame(mesh, left, built);
    }

    /** Builds and shows when something is missing. */
    method Extend(blocks: nat, seed: nat, r: nat, centre: Coord, wanted: seq<Coord>) returns (res: Result<Frame, StreamError>)
      requires Right(seed, chunks) && (forall c :: c in chunks ==> Near(c, centre, r))
      requires wanted == Wanted(chunks, centre, r) != []
      modifies this`chunks, this`frame, this`revision
      ensures Right(seed, chunks) && forall c :: c in chunks ==> Near(c, centre, r)
      ensures res.Ok? <==> Fit(old(chunks), Mesher(seed), Picks(wanted), Square(centre, r))
      ensures res.Ok? ==> chunks == Added(old(chunks), Mesher(seed), Picks(wanted)) && res.value.built == |Picks(wanted)|
      ensures res.Ok? ==> frame == Some(res.value) && Shows(frame, revision, chunks, r, centre)
      ensures res.Err? ==> Incomplete(chunks, r) && frame == old(frame) && revision == old(revision)
    {
      var built := |Picks(wanted)|;
      var ok := AddPicks(blocks, seed, r, centre, wanted);
      if !ok {
        return Err(Residency);
      }
      Show(r, centre, |wanted| - built, built);
      return Ok(frame.value);
    }
  }

  lemma KeptIsRight(chunks: Chunks, key: Option<(nat, nat)>, seed: nat, r: nat, centre: Coord)
    requires key.Some? ==> Right(key.value.0, chunks)
    ensures Right(seed, Kept(chunks, key, seed, r, centre))
    ensures forall c :: c in Kept(chunks, key, seed, r, centre) ==> Near(c, centre, r)
  {
  }

  /** Stopping early leaves a gap. */
  lemma StillIncomplete(kept: Chunks, mesh: Coord -> Mesh, centre: Coord, r: nat, n: nat)
    requires n < |Wanted(kept, centre, r)| && forall c :: c in kept ==> Near(c, centre, r)
    ensures var now := Added(kept, mesh, Wanted(kept, centre, r)[..n]);
      Incomplete(now, r) && forall c :: c in now ==> Near(c, centre, r)
  {
    var wanted := Wanted(kept, centre, r);
    var now := Added(kept, mesh, wanted[..n]);
    WantedHolds(kept, centre, r);
    WantedIsNew(kept, centre, r);
    NextPick(kept, mesh, wanted, Square(centre, r), n);
    AddedHolds(kept, mesh, wanted[..n]);
    assert wanted[n] in wanted;
    assert GapAround(now, r, centre, wanted[n]);
  }

  /** Meshing a chunk never fails and ignores the block budget. */
  method BuildChunk(blocks: nat, seed: nat, c: Coord) returns (mesh: Mesh)
    ensures mesh == Mesher(seed)(c)
  {
    var w := VoxelWorld(blocks, seed, Some((16 * c.x, 16 * c.z)));
    ChunkIsWithinBudget(w);
    ChunkIgnoresBlocks(w, ChunkOf(seed, c));
    var built := BuildMesh(w);
    mesh := built.value;
  }
}
