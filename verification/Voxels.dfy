/** The voxel world: a height field and the materials below it (examples/gpu_stress_3d/voxel_state.rs). */
module Voxels {
  import opened Wrappers
  import opened Bits

  /** A finite benchmark world, or the 16 by 16 columns from an origin on when `region` is set. */
  datatype VoxelWorld = VoxelWorld(blocks: nat, seed: nat, region: Option<(int, int)>)

  datatype Point = Point(x: int, y: int, z: int)

  /** A number's square, as a sum of odd numbers. */
  function Squared(n: nat): nat {
    if n == 0 then 0 else Squared(n - 1) + n + n - 1
  }

  lemma {:induction false} SquaredIsProduct(n: nat)
    ensures Squared(n) == n * n
  {
    if n > 0 {
      SquaredIsProduct(n - 1);
      assert n * n == (n - 1) * (n - 1) + n + n - 1;
    }
  }

  /** Whether so many columns a side hold the blocks at eight a column. */
  predicate Holds(n: nat, blocks: nat) { blocks <= 8 * Squared(n) }

  /** Columns along one edge. */
  function EdgeFor(blocks: nat): (r: nat)
    ensures r >= 1
  {
    if blocks <= 8 then 1
    else
      var e := EdgeFor(blocks - 1);
      if Holds(e, blocks) then e else e + 1
  }

  lemma NextHolds(n: nat, blocks: nat)
    requires blocks > 0 && Holds(n, blocks - 1)
    ensures Holds(n + 1, blocks) && (Holds(n, blocks) ==> n > 0)
  {
    assert Squared(n + 1) == Squared(n) + n + n + 1;
  }

  lemma MoreDoNotHold(n: nat, blocks: nat)
    requires blocks > 0 && !Holds(n, blocks - 1)
    ensures !Holds(n, blocks)
  {
  }

  /** It is the least edge whose square holds the blocks. */
  lemma EdgeIsLeast(blocks: nat)
    ensures var n := EdgeFor(blocks); blocks <= 8 * (n * n) && (n > 1 ==> 8 * ((n - 1) * (n - 1)) < blocks)
  {
    LeastThatHolds(blocks);
    SquaredIsProduct(EdgeFor(blocks));
    SquaredIsProduct(EdgeFor(blocks) - 1);
  }

  lemma {:induction false} LeastThatHolds(blocks: nat)
    ensures Holds(EdgeFor(blocks), blocks) && (EdgeFor(blocks) == 1 || !Holds(EdgeFor(blocks) - 1, blocks))
  {
    if blocks > 8 {
      var e := EdgeFor(blocks - 1);
      LeastThatHolds(blocks - 1);
      NextHolds(e, blocks);
      if e > 1 {
        MoreDoNotHold(e - 1, blocks);
      }
    }
  }

  function Edge(w: VoxelWorld): (r: nat)
    ensures r >= 1 && (w.region.Some? ==> r == 16)
  {
    if w.region.Some? then 16 else EdgeFor(w.blocks)
  }

  /** A signed number as a 32-bit word. */
  function Word(x: int): nat { x % 0x1_0000_0000 }

  /** The strip of four columns along x that a column is in, and along z. */
  function Strip(w: VoxelWorld, x: int): int { (x + if w.region.Some? then w.region.value.0 else 0) / 4 }

  function StripAcross(w: VoxelWorld, z: int): int { (z + if w.region.Some? then w.region.value.1 else 0) / 4 }

  function HeightAt(i: int, k: int, seed: nat): (h: int)
    ensures 5 <= h <= 12
  {
    5 + And(Xor(Xor(Word(Word(i) * 17), Word(Word(k) * 31)), seed), 7)
  }

  function ColumnHeight(w: VoxelWorld, x: int, z: int): (h: int)
    ensures 5 <= h <= 12
  {
    HeightAt(Strip(w, x), StripAcross(w, z), w.seed)
  }

  /** Zero is air; grass over two of dirt over stone. */
  function Material(w: VoxelWorld, p: Point): (m: nat)
    ensures m <= 3 && (m != 0 ==> 0 <= p.y < 12)
    ensures m != 0 && w.region.None? ==> 0 <= p.x < Edge(w) && 0 <= p.z < Edge(w)
  {
    if p.y < 0 || (w.region.None? && (p.x < 0 || p.z < 0 || p.x >= Edge(w) || p.z >= Edge(w))) then 0
    else
      var height := ColumnHeight(w, p.x, p.z);
      if p.y >= height then 0 else if p.y == height - 1 then 1 else if p.y >= height - 3 then 2 else 3
  }

  // ---- The shape of the terrain ----

  /** `n` cells of one material. */
  function Layer(material: nat, n: nat): (s: seq<nat>)
    ensures |s| == n
  {
    seq(n, _ => material)
  }

  /** From the bottom up a column is stone, two of dirt, one of grass, and air above its height. */
  lemma ColumnIsLayered(w: VoxelWorld, x: int, z: int)
    requires w.region.Some? || (0 <= x < Edge(w) && 0 <= z < Edge(w))
    ensures var h := ColumnHeight(w, x, z);
      seq(12, y => Material(w, Point(x, y, z))) == Layer(3, h - 3) + Layer(2, 2) + Layer(1, 1) + Layer(0, 12 - h)
  {
  }

  function Eighth(n: int): nat { n % 8 }

  lemma LowDigits(a: nat, b: nat, seed: nat)
    ensures And(Xor(Xor(a, b), seed), 7) == Xor(Xor(Eighth(a), Eighth(b)), Eighth(seed))
  {
    assert Pow2(3) == 8;
    MaskIsResidue(Xor(Xor(a, b), seed), 3);
    XorOfResidues(Xor(a, b), seed, 3);
    XorOfResidues(a, b, 3);
    ResidueOfEight(a);
    ResidueOfEight(b);
    ResidueOfEight(seed);
  }

  lemma EighthIs(n: int, k: int, r: nat)
    requires n == 8 * k + r && r < 8
    ensures Eighth(n) == r
  {
  }

  lemma WordKeepsEighth(n: int)
    ensures Eighth(Word(n)) == Eighth(n)
  {
    var q, w := n / 0x1_0000_0000, Word(n);
    EighthIs(n, 0x2000_0000 * q + w / 8, Eighth(w));
  }

  lemma EighthOfProduct(n: nat)
    ensures Eighth(n * 17) == Eighth(n)
    ensures Eighth(n * 31) == Eighth(0 - n)
  {
    var k, r := n / 8, Eighth(n);
    EighthIs(n * 17, 17 * k + 2 * r, r);
    EighthIs(0 - n, if r == 0 then -k else -k - 1, if r == 0 then 0 else 8 - r);
    EighthIs(n * 31, if r == 0 then 31 * k else 31 * k + 4 * r - 1, if r == 0 then 0 else 8 - r);
  }

  lemma EighthOfNegative(m: int, n: int)
    requires Eighth(m) == Eighth(n)
    ensures Eighth(-m) == Eighth(-n)
  {
    var r := Eighth(m);
    EighthIs(-m, if r == 0 then -(m / 8) else -(m / 8) - 1, if r == 0 then 0 else 8 - r);
    EighthIs(-n, if r == 0 then -(n / 8) else -(n / 8) - 1, if r == 0 then 0 else 8 - r);
  }

  lemma WordOfProduct(n: int)
    ensures Eighth(Word(Word(n) * 17)) == Eighth(n) && Eighth(Word(Word(n) * 31)) == Eighth(-n)
  {
    WordKeepsEighth(Word(n) * 17);
    WordKeepsEighth(Word(n) * 31);
    EighthOfProduct(Word(n));
    WordKeepsEighth(n);
    EighthOfNegative(Word(n), n);
  }

  /**
    * The height is 5 plus three octal digits added without carries: that of the strip of four columns along x, that of the
    * strip along z counted backwards, and the seed's.
    */
  lemma HeightByStrips(i: int, k: int, seed: nat)
    ensures HeightAt(i, k, seed) == 5 + Xor(Xor(Eighth(i), Eighth(-k)), Eighth(seed))
  {
    LowDigits(Word(Word(i) * 17), Word(Word(k) * 31), seed);
    WordOfProduct(i);
    WordOfProduct(k);
  }

  lemma EightStripsOn(i: int, k: int, seed: nat)
    ensures HeightAt(i + 8, k, seed) == HeightAt(i, k, seed) == HeightAt(i, k + 8, seed)
  {
    HeightByStrips(i, k, seed);
    HeightByStrips(i + 8, k, seed);
    HeightByStrips(i, k + 8, seed);
    EighthIs(i + 8, i / 8 + 1, Eighth(i));
    EighthIs(k + 8, k / 8 + 1, Eighth(k));
    EighthOfNegative(k + 8, k);
  }

  /** So the terrain repeats every 32 columns either way. */
  lemma TerrainRepeats(w: VoxelWorld, x: int, z: int)
    ensures ColumnHeight(w, x + 32, z) == ColumnHeight(w, x, z) == ColumnHeight(w, x, z + 32)
  {
    assert Strip(w, x + 32) == Strip(w, x) + 8 && StripAcross(w, z + 32) == StripAcross(w, z) + 8;
    EightStripsOn(Strip(w, x), StripAcross(w, z), w.seed);
  }

  /** Regions cut the unbounded terrain without a seam: a column is the same seen from any region. */
  lemma RegionsAgree(seed: nat, blocks: nat, blocks': nat, a: (int, int), b: (int, int), p: Point)
    ensures Material(VoxelWorld(blocks, seed, Some(a)), Point(p.x - a.0, p.y, p.z - a.1))
         == Material(VoxelWorld(blocks', seed, Some(b)), Point(p.x - b.0, p.y, p.z - b.1))
  {
    var v, w := VoxelWorld(blocks, seed, Some(a)), VoxelWorld(blocks', seed, Some(b));
    assert Strip(v, p.x - a.0) == Strip(w, p.x - b.0) && StripAcross(v, p.z - a.1) == StripAcross(w, p.z - b.1);
    assert ColumnHeight(v, p.x - a.0, p.z - a.1) == ColumnHeight(w, p.x - b.0, p.z - b.1);
  }
}
