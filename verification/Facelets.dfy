/** The 54 facelets shown by the cubies (examples/rubik_3d/state.rs). */
module Facelets {
  import opened Wrappers
  import opened Cubies

  /** One facelet written: its number and its colour. */
  datatype Write = Write(index: nat, color: nat)

  /** The faces in local order: +Z, -Z, -X, +X, +Y, -Y. */
  function FaceAxis(f: nat): Axis { if f < 2 then Z else if f < 4 then X else Y }

  function FaceSign(f: nat): int { if f == 0 || f == 3 || f == 4 then 1 else -1 }

  function Normal(f: nat): Vec { Unit(FaceAxis(f), FaceSign(f)) }

  /** The colour of a face of the cube when solved. */
  function PaintOf(f: nat): nat {
    match f case 0 => 2 case 1 => 5 case 2 => 0 case 3 => 3 case 4 => 4 case _ => 1
  }

  /** The colour of one face of the cubie that starts at `home`; six is none. */
  function FaceColor(home: Vec, f: nat): nat {
    if Get(home, FaceAxis(f)) == FaceSign(f) then PaintOf(f) else 6
  }

  function FaceNumber(n: Vec): nat {
    if n == Vec(0, 0, 1) then 0 else if n == Vec(0, 0, -1) then 1 else if n == Vec(-1, 0, 0) then 2
    else if n == Vec(1, 0, 0) then 3 else if n == Vec(0, 1, 0) then 4 else if n == Vec(0, -1, 0) then 5 else 0
  }

  /** The row and the column of a facelet on its face. */
  function RowColumn(face: nat, c: Vec): (int, int) {
    match face
    case 0 => (1 - c.y, c.x + 1)
    case 1 => (1 - c.y, 1 - c.x)
    case 2 => (1 - c.y, 1 - c.z)
    case 3 => (1 - c.y, c.z + 1)
    case 4 => (c.z + 1, c.x + 1)
    case _ => (1 - c.z, c.x + 1)
  }

  function FaceletIndex(n: Vec, c: Vec): (i: nat)
    requires InCube(c)
    ensures i < 54
  {
    var (row, column) := RowColumn(FaceNumber(n), c);
    FaceNumber(n) * 9 + row * 3 + column
  }

  /** What one face of a cubie writes: nothing when it has no colour or does not face outwards. */
  function Sticker(q: Cubie, f: nat): Option<Write>
    requires InCube(q.coordinate)
  {
    var n := Times(q.orientation, Normal(f));
    if FaceColor(q.home, f) >= 6 || n == Vec(0, 0, 0) || Get(q.coordinate, AxisOf(n)) != Get(n, AxisOf(n)) then None
    else Some(Write(FaceletIndex(n, q.coordinate), FaceColor(q.home, f)))
  }

  // ---- Where a sticker faces ----

  lemma NormalTimes(m: Matrix, f: nat)
    ensures Times(m, Normal(f)) == Scale(FaceSign(f), Column(m, FaceAxis(f)))
  {
    match FaceAxis(f) case X => case Y => case Z =>
  }

  lemma ColumnAcross(m: Matrix, a: Axis, b: Axis)
    requires IsOrientation(m) && a != b
    ensures Get(Column(m, b), AxisOf(Column(m, a))) == 0
  {
    var k := UnitShape(Column(m, b));
  }

  lemma ColumnAlong(m: Matrix, a: Axis)
    requires IsOrientation(m)
    ensures var k := Get(Column(m, a), AxisOf(Column(m, a)));
      (k == 1 || k == -1) && Column(m, a) == Unit(AxisOf(Column(m, a)), k)
  {
    var k := UnitShape(Column(m, a));
  }

  lemma GetTimes(m: Matrix, v: Vec, axis: Axis)
    ensures Get(Times(m, v), axis)
         == v.x * Get(Column(m, X), axis) + v.y * Get(Column(m, Y), axis) + v.z * Get(Column(m, Z), axis)
  {
    match axis case X => case Y => case Z =>
  }

  /** Along a column's axis only that column counts. */
  lemma CoordinateAlong(q: Cubie, a: Axis)
    requires IsPlaced(q)
    ensures var col := Column(q.orientation, a);
      Get(q.coordinate, AxisOf(col)) == Get(q.home, a) * Get(col, AxisOf(col))
  {
    var m := q.orientation;
    var axis := AxisOf(Column(m, a));
    GetTimes(m, q.home, axis);
    if a != X { ColumnAcross(m, a, X); }
    if a != Y { ColumnAcross(m, a, Y); }
    if a != Z { ColumnAcross(m, a, Z); }
    OneTerm(q.home, Get(Column(m, X), axis), Get(Column(m, Y), axis), Get(Column(m, Z), axis));
  }

  lemma OneTerm(h: Vec, x: int, y: int, z: int)
    ensures y == 0 && z == 0 ==> h.x * x + h.y * y + h.z * z == h.x * x
    ensures x == 0 && z == 0 ==> h.x * x + h.y * y + h.z * z == h.y * y
    ensures x == 0 && y == 0 ==> h.x * x + h.y * y + h.z * z == h.z * z
  {
  }

  /** Where the sticker of a face looks now. */
  function Facing(q: Cubie, f: nat): Vec { Times(q.orientation, Normal(f)) }

  lemma FacingIsUnit(q: Cubie, f: nat) returns (k: int)
    requires IsPlaced(q)
    ensures (k == 1 || k == -1) && Facing(q, f) == Unit(AxisOf(Column(q.orientation, FaceAxis(f))), FaceSign(f) * k)
    ensures k == Get(Column(q.orientation, FaceAxis(f)), AxisOf(Column(q.orientation, FaceAxis(f))))
    ensures AxisOf(Facing(q, f)) == AxisOf(Column(q.orientation, FaceAxis(f)))
  {
    NormalTimes(q.orientation, f);
    ColumnAlong(q.orientation, FaceAxis(f));
    k := Get(Column(q.orientation, FaceAxis(f)), AxisOf(Column(q.orientation, FaceAxis(f))));
  }

  lemma SameSign(h: int, s: int, k: int)
    requires (s == 1 || s == -1) && (k == 1 || k == -1)
    ensures h * k == s * k <==> h == s
  {
  }

  /** A slot of the surface: a direction and a coordinate on that side of the cube. */
  predicate OnSurface(n: Vec, c: Vec) {
    IsUnit(n) && InCube(c) && Get(c, AxisOf(n)) == Get(n, AxisOf(n))
  }

  /** A face is on the surface now exactly when it was at home, so every colour shows and nothing else does. */
  lemma ColoursFaceOutwards(q: Cubie, f: nat)
    requires IsPlaced(q) && InCube(q.coordinate)
    ensures OnSurface(Facing(q, f), q.coordinate) <==> Get(q.home, FaceAxis(f)) == FaceSign(f)
    ensures Sticker(q, f) == if FaceColor(q.home, f) < 6 then Some(Write(FaceletIndex(Facing(q, f), q.coordinate), FaceColor(q.home, f))) else None
  {
    var k := FacingIsUnit(q, f);
    var axis := AxisOf(Facing(q, f));
    CoordinateAlong(q, FaceAxis(f));
    SameSign(Get(q.home, FaceAxis(f)), FaceSign(f), k);
    UnitIsUnit(axis, FaceSign(f) * k);
    UnitGets(axis, FaceSign(f) * k);
  }

  lemma UnitGets(a: Axis, k: int)
    ensures Get(Unit(a, k), a) == k && (k != 0 ==> Unit(a, k) != Vec(0, 0, 0))
  {
  }

  // ---- Slots and facelets ----

  lemma UnitFace(n: Vec)
    requires IsUnit(n)
    ensures FaceNumber(n) < 6 && FaceAxis(FaceNumber(n)) == AxisOf(n) && FaceSign(FaceNumber(n)) == Get(n, AxisOf(n)) && n == Normal(FaceNumber(n))
  {
    var k := UnitShape(n);
  }

  lemma SameFaceSlots(face: nat, c: Vec, d: Vec)
    requires face < 6 && InCube(c) && InCube(d)
    requires Get(c, FaceAxis(face)) == FaceSign(face) && Get(d, FaceAxis(face)) == FaceSign(face)
    requires RowColumn(face, c) == RowColumn(face, d)
    ensures c == d
  {
  }

  lemma RowColumnSplit(face: nat, c: Vec)
    requires InCube(c)
    ensures var (row, column) := RowColumn(face, c); 0 <= row < 3 && 0 <= column < 3
  {
  }

  /** Different slots are different facelets. */
  lemma SlotsDiffer(n: Vec, c: Vec, o: Vec, d: Vec)
    requires OnSurface(n, c) && OnSurface(o, d) && FaceletIndex(n, c) == FaceletIndex(o, d)
    ensures n == o && c == d
  {
    RowColumnSplit(FaceNumber(n), c);
    RowColumnSplit(FaceNumber(o), d);
    UnitFace(n);
    UnitFace(o);
    var (row, column) := RowColumn(FaceNumber(n), c);
    var (row', column') := RowColumn(FaceNumber(o), d);
    assert FaceNumber(n) == FaceNumber(o);
    assert row == row' && column == column';
    SameFaceSlots(FaceNumber(n), c, d);
  }

  function CoordinateAt(face: nat, row: int, column: int): Vec {
    match face
    case 0 => Vec(column - 1, 1 - row, 1)
    case 1 => Vec(1 - column, 1 - row, -1)
    case 2 => Vec(-1, 1 - row, 1 - column)
    case 3 => Vec(1, 1 - row, column - 1)
    case 4 => Vec(column - 1, 1, row - 1)
    case _ => Vec(column - 1, -1, 1 - row)
  }

  /** Every facelet belongs to a slot. */
  lemma SlotOf(e: nat) returns (n: Vec, c: Vec)
    requires e < 54
    ensures OnSurface(n, c) && FaceletIndex(n, c) == e
  {
    var face, row, column := e / 9, e % 9 / 3, e % 3;
    n, c := Normal(face), CoordinateAt(face, row, column);
    NormalFace(face);
    PlacedAt(face, row, column);
    assert e == face * 9 + row * 3 + column;
  }

  lemma PlacedAt(face: nat, row: int, column: int)
    requires face < 6 && 0 <= row < 3 && 0 <= column < 3
    ensures var c := CoordinateAt(face, row, column);
      InCube(c) && RowColumn(face, c) == (row, column) && Get(c, FaceAxis(face)) == FaceSign(face)
  {
    var c := CoordinateAt(face, row, column);
    PlacedOnCube(face, row, column, c);
    PlacedInFace(face, row, column, c);
  }

  lemma PlacedOnCube(face: nat, row: int, column: int, c: Vec)
    requires face < 6 && 0 <= row < 3 && 0 <= column < 3 && c == CoordinateAt(face, row, column)
    ensures InCube(c) && Get(c, FaceAxis(face)) == FaceSign(face)
  {
  }

  lemma PlacedInFace(face: nat, row: int, column: int, c: Vec)
    requires face < 6 && c == CoordinateAt(face, row, column)
    ensures RowColumn(face, c) == (row, column)
  {
  }

  lemma NormalFace(face: nat)
    requires face < 6
    ensures IsUnit(Normal(face)) && AxisOf(Normal(face)) == FaceAxis(face) && Get(Normal(face), FaceAxis(face)) == FaceSign(face)
    ensures FaceNumber(Normal(face)) == face
  {
  }

  // ---- Each facelet is written once ----

  /** Different stickers of a cube look at different slots. */
  lemma StickersDiffer(qs: seq<Cubie>, i: nat, f: nat, j: nat, g: nat)
    requires IsCube(qs) && i < 27 && j < 27 && f < 6 && g < 6 && (i != j || f != g)
    requires Sticker(qs[i], f).Some? && Sticker(qs[j], g).Some?
    ensures Sticker(qs[i], f).value.index != Sticker(qs[j], g).value.index
  {
    ColoursFaceOutwards(qs[i], f);
    ColoursFaceOutwards(qs[j], g);
    if Sticker(qs[i], f).value.index == Sticker(qs[j], g).value.index {
      SlotsDiffer(Facing(qs[i], f), qs[i].coordinate, Facing(qs[j], g), qs[j].coordinate);
      assert i == j;
      FacesDiffer(qs[i], f, g);
      assert false;
    }
  }

  lemma FacesDiffer(q: Cubie, f: nat, g: nat)
    requires IsPlaced(q) && f < 6 && g < 6 && f != g
    ensures Facing(q, f) != Facing(q, g)
  {
    var k := FacingIsUnit(q, f);
    var l := FacingIsUnit(q, g);
    if FaceAxis(f) == FaceAxis(g) {
      SameSign(FaceSign(f), FaceSign(g), k);
      UnitGets(AxisOf(Facing(q, f)), FaceSign(f) * k);
      UnitGets(AxisOf(Facing(q, f)), FaceSign(g) * k);
    }
  }

  /** Three different axes are all axes. */
  lemma SomeColumnAlong(m: Matrix, axis: Axis) returns (a: Axis)
    requires IsOrientation(m)
    ensures AxisOf(Column(m, a)) == axis
  {
    a := if AxisOf(Column(m, X)) == axis then X else if AxisOf(Column(m, Y)) == axis then Y else Z;
  }

  lemma FaceWith(a: Axis, s: int) returns (f: nat)
    requires s == 1 || s == -1
    ensures f < 6 && FaceAxis(f) == a && FaceSign(f) == s
  {
    f := match a case Z => if s == 1 then 0 else 1 case X => if s == 1 then 3 else 2 case Y => if s == 1 then 4 else 5;
  }

  /** Every facelet is written by some sticker. */
  lemma EveryFaceletIsWritten(qs: seq<Cubie>, e: nat) returns (i: nat, f: nat)
    requires IsCube(qs) && e < 54
    ensures i < 27 && f < 6 && Sticker(qs[i], f).Some? && Sticker(qs[i], f).value.index == e
  {
    var n, c := SlotOf(e);
    assert Occupied(qs, c);
    i :| 0 <= i < |qs| && qs[i].coordinate == c;
    f := FaceLooking(qs[i], n);
    ColoursFaceOutwards(qs[i], f);
  }

  /** Some face of a placed cubie looks in any given direction. */
  lemma FaceLooking(q: Cubie, n: Vec) returns (f: nat)
    requires IsPlaced(q) && IsUnit(n)
    ensures f < 6 && Facing(q, f) == n
  {
    var a := SomeColumnAlong(q.orientation, AxisOf(n));
    var s := UnitShape(n);
    ColumnAlong(q.orientation, a);
    f := FaceWith(a, s * Get(Column(q.orientation, a), AxisOf(n)));
    var k := FacingIsUnit(q, f);
  }

  // ---- Painting ----

  predicate Fits(qs: seq<Cubie>) { forall i :: 0 <= i < |qs| ==> InCube(qs[i].coordinate) }

  /** All stickers in the order they are painted: cubie by cubie, six faces each. */
  function Stickers(qs: seq<Cubie>): (os: seq<Option<Write>>)
    requires Fits(qs)
    ensures |os| == 6 * |qs|
  {
    seq(6 * |qs|, k requires 0 <= k < 6 * |qs| && Fits(qs) => Sticker(qs[k / 6], k % 6))
  }

  const NONE: nat := 6

  /** The facelets after some stickers are painted on a blank cube. */
  function Paint(os: seq<Option<Write>>): (fs: seq<nat>)
    ensures |fs| == 54
  {
    if os == [] then seq(54, _ => NONE)
    else
      var fs := Paint(os[..|os| - 1]);
      match os[|os| - 1]
      case None => fs
      case Some(w) => if w.index < 54 then fs[w.index := w.color] else fs
  }

  /** Writes to different facelets, all of them facelets and colours that exist. */
  ghost predicate Separate(os: seq<Option<Write>>) {
    && (forall i :: 0 <= i < |os| && os[i].Some? ==> os[i].value.index < 54 && os[i].value.color < 6)
    && forall i, j :: 0 <= i < j < |os| && os[i].Some? && os[j].Some? ==> os[i].value.index != os[j].value.index
  }

  lemma {:induction false} UnpaintedIsBlank(os: seq<Option<Write>>, e: nat)
    requires e < 54 && forall i :: 0 <= i < |os| && os[i].Some? ==> os[i].value.index != e
    ensures Paint(os)[e] == NONE
  {
    if os != [] { UnpaintedIsBlank(os[..|os| - 1], e); }
  }

  lemma {:induction false} PaintedShows(os: seq<Option<Write>>, k: nat)
    requires Separate(os) && k < |os| && os[k].Some?
    ensures Paint(os)[os[k].value.index] == os[k].value.color
  {
    if k < |os| - 1 { PaintedShows(os[..|os| - 1], k); }
  }

  /** How many stickers have a colour. */
  function Tally(os: seq<Option<Write>>, color: nat): nat {
    if os == [] then 0
    else Tally(os[..|os| - 1], color) + if os[|os| - 1].Some? && os[|os| - 1].value.color == color then 1 else 0
  }

  lemma UpdateCounts(fs: seq<nat>, e: nat, paint: nat, color: nat)
    requires e < |fs| && fs[e] != color
    ensures multiset(fs[e := paint])[color] == multiset(fs)[color] + if paint == color then 1 else 0
  {
    assert multiset(fs[e := paint]) == multiset(fs) - multiset{fs[e]} + multiset{paint};
  }

  /** Painting to different facelets shows each colour as often as it is painted. */
  lemma {:induction false} PaintCounts(os: seq<Option<Write>>, color: nat)
    requires Separate(os) && color < 6
    ensures multiset(Paint(os))[color] == Tally(os, color)
  {
    if os == [] {
      BlankCounts(Paint(os), color);
    } else {
      var before, last := os[..|os| - 1], os[|os| - 1];
      PaintCounts(before, color);
      if last.Some? {
        UnpaintedIsBlank(before, last.value.index);
        UpdateCounts(Paint(before), last.value.index, last.value.color, color);
      }
    }
  }

  lemma BlankCounts(fs: seq<nat>, color: nat)
    requires color < 6 && forall e :: 0 <= e < |fs| ==> fs[e] == NONE
    ensures multiset(fs)[color] == 0
  {
    assert color !in fs;
  }

  lemma StickersAt(qs: seq<Cubie>, i: nat, f: nat)
    requires Fits(qs) && i < |qs| && f < 6
    ensures 6 * i + f < 6 * |qs| && Stickers(qs)[6 * i + f] == Sticker(qs[i], f)
  {
    assert (6 * i + f) / 6 == i && (6 * i + f) % 6 == f;
  }

  /** The stickers of a cube paint each facelet at most once. */
  lemma StickersAreSeparate(qs: seq<Cubie>)
    requires IsCube(qs)
    ensures Separate(Stickers(qs))
  {
    var os := Stickers(qs);
    forall k | 0 <= k < |os| && os[k].Some? ensures os[k].value.index < 54 && os[k].value.color < 6 {}
    forall j, k | 0 <= j < k < |os| && os[j].Some? && os[k].Some? ensures os[j].value.index != os[k].value.index {
      assert j == j / 6 * 6 + j % 6 && k == k / 6 * 6 + k % 6;
      StickersDiffer(qs, j / 6, j % 6, k / 6, k % 6);
    }
  }

  // ---- Counting colours ----

  /** How many numbers below `n` have a property. */
  ghost function CountIf(p: nat -> bool, n: nat): nat {
    if n == 0 then 0 else CountIf(p, n - 1) + if p(n - 1) then 1 else 0
  }

  function Slot(i: nat, g: nat): nat { 6 * i + g }

  lemma {:induction false} CountBlock(p: nat -> bool, q: nat -> bool, mark: nat, n: nat, f: nat)
    requires f <= 6 && forall g: nat :: g < 6 ==> (p(Slot(n, g)) <==> g == mark && q(n))
    ensures CountIf(p, 6 * n + f) == CountIf(p, 6 * n) + if mark < f && q(n) then 1 else 0
  {
    if f > 0 {
      CountBlock(p, q, mark, n, f - 1);
      assert p(Slot(n, f - 1)) <==> f - 1 == mark && q(n);
    }
  }

  /** Counting in blocks of six, one mark a block. */
  lemma {:induction false} CountBlocks(p: nat -> bool, q: nat -> bool, mark: nat, n: nat)
    requires mark < 6 && forall i: nat, g: nat :: g < 6 ==> (p(Slot(i, g)) <==> g == mark && q(i))
    ensures CountIf(p, 6 * n) == CountIf(q, n)
  {
    if n > 0 {
      CountBlocks(p, q, mark, n - 1);
      CountBlock(p, q, mark, n - 1, 6);
      assert 6 * (n - 1) + 6 == 6 * n;
    }
  }

  predicate StartsOn(i: nat, f: nat) { Get(HomeOf(i), FaceAxis(f)) == FaceSign(f) }

  ghost function HasColor(color: nat): nat -> bool { (k: nat) => FaceColor(HomeOf(k / 6), k % 6) == color }

  ghost function Starts(f: nat): nat -> bool { (i: nat) => StartsOn(i, f) }

  lemma StickerColour(qs: seq<Cubie>, k: nat, color: nat)
    requires IsCube(qs) && k < 162 && color < 6
    ensures var o := Stickers(qs)[k];
      o.Some? && o.value.color == color <==> FaceColor(HomeOf(k / 6), k % 6) == color
  {
    ColoursFaceOutwards(qs[k / 6], k % 6);
  }

  /** Turning moves colours about but makes and loses none. */
  lemma {:induction false} TallyIsCount(qs: seq<Cubie>, k: nat, color: nat)
    requires IsCube(qs) && k <= 162 && color < 6
    ensures Tally(Stickers(qs)[..k], color) == CountIf(HasColor(color), k)
  {
    if k > 0 {
      TallyIsCount(qs, k - 1, color);
      assert Stickers(qs)[..k][..k - 1] == Stickers(qs)[..k - 1];
      StickerColour(qs, k - 1, color);
    }
  }

  function FaceOf(color: nat): (f: nat)
    ensures f < 6
  {
    match color case 0 => 2 case 1 => 5 case 2 => 0 case 3 => 3 case 4 => 4 case _ => 1
  }

  lemma PaintAndFace(f: nat, color: nat)
    requires f < 6 && color < 6
    ensures PaintOf(f) == color <==> f == FaceOf(color)
  {
  }

  lemma ColourMarks(i: nat, g: nat, color: nat)
    requires g < 6 && color < 6
    ensures HasColor(color)(Slot(i, g)) <==> g == FaceOf(color) && Starts(FaceOf(color))(i)
  {
    assert (6 * i + g) / 6 == i && (6 * i + g) % 6 == g;
    PaintAndFace(g, color);
  }

  /** A colour belongs to one face. */
  lemma ColourIsFace(n: nat, color: nat)
    requires color < 6
    ensures CountIf(HasColor(color), 6 * n) == CountIf(Starts(FaceOf(color)), n)
  {
    var p, q, mark := HasColor(color), Starts(FaceOf(color)), FaceOf(color);
    forall i: nat, g: nat | g < 6 ensures p(Slot(i, g)) <==> g == mark && q(i) {
      ColourMarks(i, g, color);
    }
    CountBlocks(p, q, mark, n);
  }

  function Clamp(k: int, most: nat): nat { if k < 0 then 0 else if k > most then most else k }

  /** How many of the first `n` cubies start on a face, in closed form by the face's axis. */
  function ClosedTally(n: nat, f: nat): int {
    var r := FaceSign(f) + 1;
    match FaceAxis(f)
    case X => (n + 2 - r) / 3
    case Y => 3 * (n / 9) + Clamp(n % 9 - 3 * r, 3)
    case Z => Clamp(n - 9 * r, 9)
  }

  lemma {:induction false} StartsAreClosed(n: nat, f: nat)
    requires n <= 27
    ensures CountIf(Starts(f), n) == ClosedTally(n, f)
  {
    if n > 0 {
      StartsAreClosed(n - 1, f);
      ClosedStep(n - 1, f);
    }
  }

  lemma ClosedStep(n: nat, f: nat)
    requires n < 27
    ensures ClosedTally(n + 1, f) == ClosedTally(n, f) + if StartsOn(n, f) then 1 else 0
  {
    var r := FaceSign(f) + 1;
    match FaceAxis(f)
    case X => StepX(n, r);
    case Y => StepY(n, r);
    case Z => StepZ(n, r);
  }

  lemma StepX(n: nat, r: int)
    requires r == 0 || r == 2
    ensures (n + 1 + 2 - r) / 3 == (n + 2 - r) / 3 + if n % 3 == r then 1 else 0
  {
  }

  lemma StepY(n: nat, r: int)
    requires r == 0 || r == 2
    ensures 3 * ((n + 1) / 9) + Clamp((n + 1) % 9 - 3 * r, 3) == 3 * (n / 9) + Clamp(n % 9 - 3 * r, 3) + if n / 3 % 3 == r then 1 else 0
  {
    var m := n % 9;
    assert n / 3 % 3 == m / 3;
    if m == 8 {
      assert (n + 1) % 9 == 0 && (n + 1) / 9 == n / 9 + 1;
    } else {
      assert (n + 1) % 9 == m + 1 && (n + 1) / 9 == n / 9;
    }
  }

  lemma StepZ(n: nat, r: int)
    requires (r == 0 || r == 2) && n < 27
    ensures Clamp(n + 1 - 9 * r, 9) == Clamp(n - 9 * r, 9) + if n / 9 == r then 1 else 0
  {
  }

  function Shown(qs: seq<Cubie>): (fs: seq<nat>)
    requires Fits(qs)
    ensures |fs| == 54
  {
    Paint(Stickers(qs))
  }

  lemma NothingIsBlank(qs: seq<Cubie>, e: nat)
    requires IsCube(qs) && e < 54
    ensures Shown(qs)[e] < 6
  {
    StickersAreSeparate(qs);
    var i, f := EveryFaceletIsWritten(qs, e);
    StickersAt(qs, i, f);
    PaintedShows(Stickers(qs), 6 * i + f);
  }

  lemma NineHaveColour(color: nat)
    requires color < 6
    ensures CountIf(HasColor(color), 162) == 9
  {
    var n: nat := 27;
    ColourIsFace(n, color);
    StartsAreClosed(n, FaceOf(color));
  }

  lemma NineOfEach(qs: seq<Cubie>, color: nat)
    requires IsCube(qs) && color < 6
    ensures multiset(Shown(qs))[color] == 9
  {
    StickersAreSeparate(qs);
    PaintCounts(Stickers(qs), color);
    TallyIsCount(qs, |Stickers(qs)|, color);
    assert Stickers(qs)[..|Stickers(qs)|] == Stickers(qs);
    NineHaveColour(color);
  }

  /** In every cube each facelet shows the colour of exactly one sticker, so none is blank, and each colour shows nine times. */
  lemma CubeShowsNineOfEach(qs: seq<Cubie>)
    requires IsCube(qs)
    ensures forall e :: 0 <= e < 54 ==> Shown(qs)[e] < 6
    ensures forall color :: 0 <= color < 6 ==> multiset(Shown(qs))[color] == 9
  {
    forall e: nat | e < 54 ensures Shown(qs)[e] < 6 {
      NothingIsBlank(qs, e);
    }
    forall color: nat | color < 6 ensures multiset(Shown(qs))[color] == 9 {
      NineOfEach(qs, color);
    }
  }
}
