/** Which way the faces turn and what the facelets show (examples/rubik_3d/state.rs, driver.rs). */
module CubeGeometry {
  import opened Wrappers
  import opened Cubies
  import opened Facelets
  import opened CubeState
  import opened RubikDriver

  // ---- The moves ----

  /** The outward direction of a face; a slice follows the face on its left, below it or in front of it. */
  function Outward(face: MoveFace): Vec {
    match face
    case R => Vec(1, 0, 0) case L => Vec(-1, 0, 0) case M => Vec(-1, 0, 0)
    case U => Vec(0, 1, 0) case D => Vec(0, -1, 0) case E => Vec(0, -1, 0)
    case F => Vec(0, 0, 1) case B => Vec(0, 0, -1) case S => Vec(0, 0, 1)
  }

  predicate IsSlice(face: MoveFace) { face == M || face == E || face == S }

  function Cross(a: Vec, b: Vec): Vec {
    Vec(a.y * b.z - a.z * b.y, a.z * b.x - a.x * b.z, a.x * b.y - a.y * b.x)
  }

  function Sum(a: Vec, b: Vec): Vec { Vec(a.x + b.x, a.y + b.y, a.z + b.z) }

  /** A quarter turn about `n`, right-handed or left-handed: what lies along `n` stays, the rest goes at right angles to both. */
  function QuarterTurn(n: Vec, inverse: bool, v: Vec): Vec {
    Sum(Scale(Dot(n, v), n), if inverse then Cross(v, n) else Cross(n, v))
  }

  /** Each move turns exactly its layer, a quarter about the outward direction. */
  lemma FaceTurnsOutwards(face: MoveFace, inverse: bool, v: Vec)
    ensures var n := Outward(face);
      Moved(v, CommandOf(face, inverse)) == if Dot(n, v) == (if IsSlice(face) then 0 else 1) then QuarterTurn(n, inverse, v) else v
  {
    match face
    case R => case L => case M =>
    case U => case D => case E =>
    case F => case B => case S =>
  }

  // ---- The facelets ----

  /** The six outward directions in the order of the facelets. */
  function Direction(face: nat): Vec {
    match face
    case 0 => Vec(0, 0, 1) case 1 => Vec(0, 0, -1) case 2 => Vec(-1, 0, 0)
    case 3 => Vec(1, 0, 0) case 4 => Vec(0, 1, 0) case _ => Vec(0, -1, 0)
  }

  /** Facelet `e` belongs to face `e / 9`, row `e % 9 / 3` and column `e % 3`, where the table of places puts it. */
  lemma FaceletIsAt(e: nat)
    requires e < 54
    ensures var n, c := Direction(e / 9), CoordinateAt(e / 9, e % 9 / 3, e % 3); OnSurface(n, c) && FaceletIndex(n, c) == e
  {
    var face, row, column := e / 9, e % 9 / 3, e % 3;
    DirectionIsNormal(face);
    NormalFace(face);
    PlacedAt(face, row, column);
    assert e == face * 9 + row * 3 + column;
  }

  lemma SlotIsOnFace(e: nat, n: Vec, c: Vec)
    requires e < 54 && OnSurface(n, c) && FaceletIndex(n, c) == e
    ensures n == Normal(e / 9)
  {
    UnitFace(n);
    RowColumnSplit(FaceNumber(n), c);
    var (row, column) := RowColumn(FaceNumber(n), c);
    assert e == 9 * FaceNumber(n) + (3 * row + column);
  }

  lemma DirectionIsNormal(face: nat)
    requires face < 6
    ensures Direction(face) == Normal(face)
  {
  }

  /** The cubie at a place on the surface shows there the colour of the side it turns outwards. */
  lemma SlotShows(qs: seq<Cubie>, i: nat, f: nat, n: Vec, c: Vec)
    requires IsCube(qs) && i < 27 && f < 6 && OnSurface(n, c) && qs[i].coordinate == c && Facing(qs[i], f) == n
    ensures Shown(qs)[FaceletIndex(n, c)] == PaintOf(f)
  {
    ColoursFaceOutwards(qs[i], f);
    StickersAreSeparate(qs);
    StickersAt(qs, i, f);
    PaintedShows(Stickers(qs), 6 * i + f);
  }

  /** A solved cube shows one colour on each face. */
  lemma SolvedIsUniform(e: nat)
    requires e < 54
    ensures Shown(Solved())[e] == SolvedColours()[e / 9]
  {
    var n, c := SlotOf(e);
    SlotIsOnFace(e, n, c);
    var i := NumberOf(c);
    SolvedIsCube();
    SolvedFacing(i, e / 9);
    SlotShows(Solved(), i, e / 9, n, c);
    ColourTable(e / 9);
  }

  lemma SolvedFacing(i: nat, f: nat)
    requires i < 27
    ensures Solved()[i].coordinate == HomeOf(i) && Facing(Solved()[i], f) == Normal(f)
  {
    IdentityKeeps(Normal(f));
  }

  lemma ColourTable(f: nat)
    requires f < 6
    ensures PaintOf(f) == SolvedColours()[f]
  {
  }

  function SolvedColours(): (s: seq<nat>)
    ensures |s| == 6
  {
    [2, 5, 0, 3, 4, 1]
  }

  /** Where a turn takes a direction or a place, if it takes what stands at `c` along. */
  function Carried(v: Vec, c: Vec, m: Command): Vec {
    if Get(c, m.axis) == m.layer then RotateCoordinate(v, m.axis, m.direction) else v
  }

  lemma SameComponent(v: Vec, w: Vec, a: Axis, axis: Axis, d: int)
    requires Get(v, a) == Get(w, a)
    ensures Get(RotateCoordinate(v, axis, d), TurnedAxis(a, axis, d)) == Get(RotateCoordinate(w, axis, d), TurnedAxis(a, axis, d))
  {
  }

  lemma CarriedStaysOnSurface(n: Vec, c: Vec, m: Command)
    requires OnSurface(n, c)
    ensures OnSurface(Carried(n, c, m), Carried(c, c, m))
  {
    if Get(c, m.axis) == m.layer {
      RotatedUnit(n, m.axis, m.direction);
      SameComponent(c, n, AxisOf(n), m.axis, m.direction);
      MovedBack(c, m);
    }
  }

  lemma TurnedFacing(q: Cubie, f: nat, m: Command)
    ensures Facing(TurnCubie(q, m), f) == Carried(Facing(q, f), q.coordinate, m)
  {
    TurnedTimes(m.axis, m.direction, q.orientation, Normal(f));
  }

  /** A turn carries each facelet of its layer to where it takes that place and direction, and leaves all others. */
  lemma TurnCarriesFacelets(qs: seq<Cubie>, m: Command, n: Vec, c: Vec)
    requires IsCube(qs) && IsCommand(m) && OnSurface(n, c)
    ensures OnSurface(Carried(n, c, m), Carried(c, c, m)) && IsCube(Turn(qs, m))
    ensures Shown(Turn(qs, m))[FaceletIndex(Carried(n, c, m), Carried(c, c, m))] == Shown(qs)[FaceletIndex(n, c)]
  {
    assert Occupied(qs, c);
    var i :| 0 <= i < |qs| && qs[i].coordinate == c;
    var f := FaceLooking(qs[i], n);
    SlotShows(qs, i, f, n, c);
    TurnKeepsCube(qs, m);
    TurnedFacing(qs[i], f, m);
    CarriedStaysOnSurface(n, c, m);
    SlotShows(Turn(qs, m), i, f, Carried(n, c, m), Carried(c, c, m));
  }
}
