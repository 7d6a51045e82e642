/** Rubik cubies and the turns that move them (examples/rubik_3d/state.rs). */
module Cubies {
  datatype Axis = X | Y | Z
  datatype Vec = Vec(x: int, y: int, z: int)

  /** Three rows. */
  datatype Matrix = Matrix(a: Vec, b: Vec, c: Vec)

  datatype Command = Command(axis: Axis, layer: int, direction: int)
  datatype Cubie = Cubie(coordinate: Vec, orientation: Matrix, home: Vec)

  function Get(v: Vec, axis: Axis): int {
    match axis case X => v.x case Y => v.y case Z => v.z
  }

  /** The layers and directions that a command can be built with. */
  predicate IsCommand(c: Command) {
    -1 <= c.layer <= 1 && (c.direction == 1 || c.direction == -1)
  }

  function Inverse(c: Command): Command { c.(direction := -c.direction) }

  function Identity(): Matrix { Matrix(Vec(1, 0, 0), Vec(0, 1, 0), Vec(0, 0, 1)) }

  function RotationMatrix(axis: Axis, direction: int): Matrix {
    match axis
    case X =>
      if direction == 1 then Matrix(Vec(1, 0, 0), Vec(0, 0, -1), Vec(0, 1, 0))
      else if direction == -1 then Matrix(Vec(1, 0, 0), Vec(0, 0, 1), Vec(0, -1, 0)) else Identity()
    case Y =>
      if direction == 1 then Matrix(Vec(0, 0, 1), Vec(0, 1, 0), Vec(-1, 0, 0))
      else if direction == -1 then Matrix(Vec(0, 0, -1), Vec(0, 1, 0), Vec(1, 0, 0)) else Identity()
    case Z =>
      if direction == 1 then Matrix(Vec(0, -1, 0), Vec(1, 0, 0), Vec(0, 0, 1))
      else if direction == -1 then Matrix(Vec(0, 1, 0), Vec(-1, 0, 0), Vec(0, 0, 1)) else Identity()
  }

  function RotateCoordinate(v: Vec, axis: Axis, direction: int): Vec {
    match axis
    case X => if direction == 1 then Vec(v.x, -v.z, v.y) else if direction == -1 then Vec(v.x, v.z, -v.y) else v
    case Y => if direction == 1 then Vec(v.z, v.y, -v.x) else if direction == -1 then Vec(-v.z, v.y, v.x) else v
    case Z => if direction == 1 then Vec(-v.y, v.x, v.z) else if direction == -1 then Vec(v.y, -v.x, v.z) else v
  }

  function Dot(v: Vec, w: Vec): int { v.x * w.x + v.y * w.y + v.z * w.z }

  function Times(m: Matrix, v: Vec): Vec { Vec(Dot(m.a, v), Dot(m.b, v), Dot(m.c, v)) }

  function Column(m: Matrix, axis: Axis): Vec { Vec(Get(m.a, axis), Get(m.b, axis), Get(m.c, axis)) }

  function RowTimes(v: Vec, m: Matrix): Vec { Vec(Dot(v, Column(m, X)), Dot(v, Column(m, Y)), Dot(v, Column(m, Z))) }

  function Multiply(m: Matrix, n: Matrix): Matrix { Matrix(RowTimes(m.a, n), RowTimes(m.b, n), RowTimes(m.c, n)) }

  /** The rotation of coordinates is the rotation of the matrix. */
  lemma RotationsAgree(axis: Axis, direction: int, v: Vec)
    ensures Times(RotationMatrix(axis, direction), v) == RotateCoordinate(v, axis, direction)
  {
  }

  /** Multiplying by a rotation rotates each column. */
  lemma ColumnsRotate(axis: Axis, direction: int, m: Matrix, k: Axis)
    ensures Column(Multiply(RotationMatrix(axis, direction), m), k) == RotateCoordinate(Column(m, k), axis, direction)
  {
  }

  /** Turning an orientation turns everything it places. */
  lemma TurnedTimes(axis: Axis, direction: int, m: Matrix, v: Vec)
    ensures Times(Multiply(RotationMatrix(axis, direction), m), v) == RotateCoordinate(Times(m, v), axis, direction)
  {
    ColumnsRotate(axis, direction, m, X);
    ColumnsRotate(axis, direction, m, Y);
    ColumnsRotate(axis, direction, m, Z);
    TimesByColumns(m, v);
    TimesByColumns(Multiply(RotationMatrix(axis, direction), m), v);
    RotationIsLinear(axis, direction, Column(m, X), Column(m, Y), Column(m, Z), v);
  }

  function Scale(k: int, v: Vec): Vec { Vec(k * v.x, k * v.y, k * v.z) }

  function Plus(v: Vec, w: Vec): Vec { Vec(v.x + w.x, v.y + w.y, v.z + w.z) }

  function Combine(p: Vec, q: Vec, r: Vec, v: Vec): Vec { Plus(Scale(v.x, p), Plus(Scale(v.y, q), Scale(v.z, r))) }

  lemma TimesByColumns(m: Matrix, v: Vec)
    ensures Times(m, v) == Combine(Column(m, X), Column(m, Y), Column(m, Z), v)
  {
  }

  lemma ScaledRotation(axis: Axis, direction: int, k: int, p: Vec)
    ensures RotateCoordinate(Scale(k, p), axis, direction) == Scale(k, RotateCoordinate(p, axis, direction))
  {
  }

  lemma RotationIsLinear(axis: Axis, direction: int, p: Vec, q: Vec, r: Vec, v: Vec)
    ensures RotateCoordinate(Combine(p, q, r, v), axis, direction)
         == Combine(RotateCoordinate(p, axis, direction), RotateCoordinate(q, axis, direction), RotateCoordinate(r, axis, direction), v)
  {
    ScaledRotation(axis, direction, v.x, p);
    ScaledRotation(axis, direction, v.y, q);
    ScaledRotation(axis, direction, v.z, r);
  }

  // ---- One turn ----

  function TurnCubie(q: Cubie, c: Command): Cubie {
    if Get(q.coordinate, c.axis) == c.layer then
      Cubie(RotateCoordinate(q.coordinate, c.axis, c.direction), Multiply(RotationMatrix(c.axis, c.direction), q.orientation), q.home)
    else q
  }

  function Turn(qs: seq<Cubie>, c: Command): (r: seq<Cubie>)
    ensures |r| == |qs|
  {
    seq(|qs|, i requires 0 <= i < |qs| => TurnCubie(qs[i], c))
  }

  /** Whether some cubie lies in the command's layer. */
  predicate Moves(qs: seq<Cubie>, c: Command) {
    exists i :: 0 <= i < |qs| && Get(qs[i].coordinate, c.axis) == c.layer
  }

  function TurnAll(qs: seq<Cubie>, cs: seq<Command>): (r: seq<Cubie>)
    ensures |r| == |qs|
  {
    if cs == [] then qs else Turn(TurnAll(qs, cs[..|cs| - 1]), cs[|cs| - 1])
  }

  // ---- Turns undone ----

  lemma RotateBack(v: Vec, axis: Axis, direction: int)
    ensures RotateCoordinate(RotateCoordinate(v, axis, direction), axis, -direction) == v
    ensures Get(RotateCoordinate(v, axis, direction), axis) == Get(v, axis)
  {
  }

  lemma MatrixByColumns(m: Matrix, n: Matrix)
    requires Column(m, X) == Column(n, X) && Column(m, Y) == Column(n, Y) && Column(m, Z) == Column(n, Z)
    ensures m == n
  {
  }

  lemma MultiplyBack(axis: Axis, direction: int, m: Matrix)
    ensures Multiply(RotationMatrix(axis, -direction), Multiply(RotationMatrix(axis, direction), m)) == m
  {
    var turned := Multiply(RotationMatrix(axis, direction), m);
    forall k: Axis ensures Column(Multiply(RotationMatrix(axis, -direction), turned), k) == Column(m, k) {
      ColumnsRotate(axis, direction, m, k);
      ColumnsRotate(axis, -direction, turned, k);
      RotateBack(Column(m, k), axis, direction);
    }
    MatrixByColumns(Multiply(RotationMatrix(axis, -direction), turned), m);
  }

  /** The inverse command undoes a turn, of any cubies at all. */
  lemma TurnBack(qs: seq<Cubie>, c: Command)
    ensures Turn(Turn(qs, c), Inverse(c)) == qs
    ensures Turn(Turn(qs, Inverse(c)), c) == qs
  {
    forall i | 0 <= i < |qs| ensures TurnCubie(TurnCubie(qs[i], c), Inverse(c)) == qs[i] {
      CubieBack(qs[i], c);
    }
    forall i | 0 <= i < |qs| ensures TurnCubie(TurnCubie(qs[i], Inverse(c)), c) == qs[i] {
      CubieBack(qs[i], Inverse(c));
      assert Inverse(Inverse(c)) == c;
    }
  }

  lemma CubieBack(q: Cubie, c: Command)
    ensures TurnCubie(TurnCubie(q, c), Inverse(c)) == q
  {
    RotateBack(q.coordinate, c.axis, c.direction);
    MultiplyBack(c.axis, c.direction, q.orientation);
  }

  lemma FourRotations(v: Vec, axis: Axis, d: int)
    ensures RotateCoordinate(RotateCoordinate(RotateCoordinate(RotateCoordinate(v, axis, d), axis, d), axis, d), axis, d) == v
  {
  }

  lemma FourCubieTurns(q: Cubie, c: Command)
    ensures TurnCubie(TurnCubie(TurnCubie(TurnCubie(q, c), c), c), c) == q
  {
    if Get(q.coordinate, c.axis) == c.layer {
      var q1 := TurnCubie(q, c);
      var q2 := TurnCubie(q1, c);
      var q3 := TurnCubie(q2, c);
      RotateBack(q.coordinate, c.axis, c.direction);
      RotateBack(q1.coordinate, c.axis, c.direction);
      RotateBack(q2.coordinate, c.axis, c.direction);
      FourRotations(q.coordinate, c.axis, c.direction);
      forall k: Axis ensures Column(TurnCubie(q3, c).orientation, k) == Column(q.orientation, k) {
        ColumnsRotate(c.axis, c.direction, q.orientation, k);
        ColumnsRotate(c.axis, c.direction, q1.orientation, k);
        ColumnsRotate(c.axis, c.direction, q2.orientation, k);
        ColumnsRotate(c.axis, c.direction, q3.orientation, k);
        FourRotations(Column(q.orientation, k), c.axis, c.direction);
      }
      MatrixByColumns(TurnCubie(q3, c).orientation, q.orientation);
    }
  }

  /** Four quarter turns restore any cubies. */
  lemma FourTurnsRestore(qs: seq<Cubie>, c: Command)
    ensures Turn(Turn(Turn(Turn(qs, c), c), c), c) == qs
  {
    forall i | 0 <= i < |qs| ensures TurnCubie(TurnCubie(TurnCubie(TurnCubie(qs[i], c), c), c), c) == qs[i] {
      FourCubieTurns(qs[i], c);
    }
  }

  // ---- What every turn keeps ----

  predicate InCube(v: Vec) { -1 <= v.x <= 1 && -1 <= v.y <= 1 && -1 <= v.z <= 1 }

  function Abs(k: int): nat { if k < 0 then -k else k }

  predicate IsUnit(v: Vec) { Abs(v.x) + Abs(v.y) + Abs(v.z) == 1 }

  /** The first axis a vector reaches along. */
  function AxisOf(v: Vec): Axis {
    if v.x != 0 then X else if v.y != 0 then Y else Z
  }

  /** Columns are unit vectors along three different axes. */
  ghost predicate IsOrientation(m: Matrix) {
    && (forall a: Axis :: IsUnit(Column(m, a)))
    && (forall a: Axis, b: Axis :: a != b ==> AxisOf(Column(m, a)) != AxisOf(Column(m, b)))
  }

  /** Where the cubie numbered `i` starts. */
  function HomeOf(i: nat): Vec { Vec(i % 3 - 1, i / 3 % 3 - 1, i / 9 - 1) }

  /** A cubie stands where its orientation takes its home. */
  ghost predicate IsPlaced(q: Cubie) {
    IsOrientation(q.orientation) && q.coordinate == Times(q.orientation, q.home)
  }

  ghost predicate AllPlaced(qs: seq<Cubie>) {
    |qs| == 27 && forall i :: 0 <= i < 27 ==> IsPlaced(qs[i]) && qs[i].home == HomeOf(i)
  }

  /** No two cubies share a coordinate and none of the 27 coordinates is empty. */
  ghost predicate AllSpread(qs: seq<Cubie>) {
    && |qs| == 27
    && (forall i :: 0 <= i < 27 ==> InCube(qs[i].coordinate))
    && (forall i, j :: 0 <= i < j < 27 ==> qs[i].coordinate != qs[j].coordinate)
    && (forall v {:trigger Occupied(qs, v)} :: InCube(v) ==> Occupied(qs, v))
  }

  /** Some cubie is at a coordinate. */
  ghost predicate Occupied(qs: seq<Cubie>, v: Vec) {
    exists i :: 0 <= i < |qs| && qs[i].coordinate == v
  }

  ghost predicate IsCube(qs: seq<Cubie>) { AllPlaced(qs) && AllSpread(qs) }

  function Solved(): (qs: seq<Cubie>)
    ensures |qs| == 27
  {
    seq(27, i requires 0 <= i < 27 => Cubie(HomeOf(i), Identity(), HomeOf(i)))
  }

  lemma SolvedIsPlaced()
    ensures AllPlaced(Solved())
  {
    forall i: nat | i < 27 ensures IsPlaced(Solved()[i]) {
      IdentityKeeps(HomeOf(i));
    }
  }

  lemma IdentityKeeps(v: Vec)
    ensures Times(Identity(), v) == v && IsOrientation(Identity())
  {
    DotAxis(v);
    IdentityIsOrientation();
  }

  lemma IdentityColumn(a: Axis)
    ensures IsUnit(Column(Identity(), a)) && AxisOf(Column(Identity(), a)) == a
  {
  }

  lemma IdentityIsOrientation()
    ensures IsOrientation(Identity())
  {
    forall a: Axis ensures IsUnit(Column(Identity(), a)) && AxisOf(Column(Identity(), a)) == a {
      IdentityColumn(a);
    }
  }

  lemma DotAxis(v: Vec)
    ensures Dot(Identity().a, v) == v.x && Dot(Identity().b, v) == v.y && Dot(Identity().c, v) == v.z
  {
  }

  lemma HomesDiffer(i: nat, j: nat)
    requires HomeOf(i) == HomeOf(j)
    ensures i == j
  {
    assert i == i / 9 * 9 + i / 3 % 3 * 3 + i % 3;
    assert j == j / 9 * 9 + j / 3 % 3 * 3 + j % 3;
  }

  lemma SolvedIsSpread()
    ensures AllSpread(Solved())
  {
    forall i: nat, j: nat | i < j < 27 ensures Solved()[i].coordinate != Solved()[j].coordinate {
      if HomeOf(i) == HomeOf(j) { HomesDiffer(i, j); }
    }
    forall v | InCube(v) ensures Occupied(Solved(), v) {
      var i := NumberOf(v);
      assert Solved()[i].coordinate == v;
    }
  }

  lemma SolvedIsCube()
    ensures IsCube(Solved())
  {
    SolvedIsPlaced();
    SolvedIsSpread();
  }

  lemma NumberOf(v: Vec) returns (i: nat)
    requires InCube(v)
    ensures i < 27 && HomeOf(i) == v
  {
    i := (v.x + 1) + 3 * (v.y + 1) + 9 * (v.z + 1);
  }

  /** The axis that is neither of two. */
  function Third(a: Axis, b: Axis): Axis {
    if a != X && b != X then X else if a != Y && b != Y then Y else Z
  }

  function TurnedAxis(a: Axis, axis: Axis, d: int): Axis {
    if (d == 1 || d == -1) && a != axis then Third(a, axis) else a
  }

  /** A unit vector reaches along one axis only. */
  function Unit(a: Axis, k: int): Vec {
    match a case X => Vec(k, 0, 0) case Y => Vec(0, k, 0) case Z => Vec(0, 0, k)
  }

  lemma UnitShape(v: Vec) returns (k: int)
    requires IsUnit(v)
    ensures (k == 1 || k == -1) && v == Unit(AxisOf(v), k)
  {
    k := v.x + v.y + v.z;
  }

  lemma UnitIsUnit(a: Axis, k: int)
    requires k == 1 || k == -1
    ensures IsUnit(Unit(a, k)) && AxisOf(Unit(a, k)) == a
  {
  }

  lemma RotatedAxis(a: Axis, k: int, axis: Axis, d: int) returns (k': int)
    ensures (k' == k || k' == -k) && RotateCoordinate(Unit(a, k), axis, d) == Unit(TurnedAxis(a, axis, d), k')
  {
    k' := if RotateCoordinate(Unit(a, k), axis, d) == Unit(TurnedAxis(a, axis, d), k) then k else -k;
  }

  lemma RotatedUnit(v: Vec, axis: Axis, d: int)
    requires IsUnit(v)
    ensures IsUnit(RotateCoordinate(v, axis, d)) && AxisOf(RotateCoordinate(v, axis, d)) == TurnedAxis(AxisOf(v), axis, d)
  {
    var k := UnitShape(v);
    var k' := RotatedAxis(AxisOf(v), k, axis, d);
    UnitIsUnit(TurnedAxis(AxisOf(v), axis, d), k');
  }

  lemma RotationKeepsUnits(v: Vec, w: Vec, axis: Axis, d: int)
    requires IsUnit(v) && IsUnit(w) && AxisOf(v) != AxisOf(w)
    ensures IsUnit(RotateCoordinate(v, axis, d)) && IsUnit(RotateCoordinate(w, axis, d))
    ensures AxisOf(RotateCoordinate(v, axis, d)) != AxisOf(RotateCoordinate(w, axis, d))
  {
    RotatedUnit(v, axis, d);
    RotatedUnit(w, axis, d);
  }

  lemma OrientationTurns(m: Matrix, axis: Axis, d: int)
    requires IsOrientation(m)
    ensures IsOrientation(Multiply(RotationMatrix(axis, d), m))
  {
    var turned := Multiply(RotationMatrix(axis, d), m);
    forall a: Axis ensures IsUnit(Column(turned, a)) {
      ColumnsRotate(axis, d, m, a);
      RotatedUnit(Column(m, a), axis, d);
    }
    forall a: Axis, b: Axis | a != b ensures AxisOf(Column(turned, a)) != AxisOf(Column(turned, b)) {
      ColumnsRotate(axis, d, m, a);
      ColumnsRotate(axis, d, m, b);
      RotationKeepsUnits(Column(m, a), Column(m, b), axis, d);
    }
  }

  lemma PlacedTurns(q: Cubie, c: Command)
    requires IsPlaced(q)
    ensures IsPlaced(TurnCubie(q, c)) && TurnCubie(q, c).home == q.home
  {
    if Get(q.coordinate, c.axis) == c.layer {
      OrientationTurns(q.orientation, c.axis, c.direction);
      TurnedTimes(c.axis, c.direction, q.orientation, q.home);
    }
  }

  /** Where a turn takes a coordinate. */
  function Moved(v: Vec, c: Command): Vec {
    if Get(v, c.axis) == c.layer then RotateCoordinate(v, c.axis, c.direction) else v
  }

  lemma MovedBack(v: Vec, c: Command)
    ensures Moved(Moved(v, c), Inverse(c)) == v && (InCube(v) <==> InCube(Moved(v, c)))
  {
    RotateBack(v, c.axis, c.direction);
  }

  lemma TurnKeepsPlaced(qs: seq<Cubie>, c: Command)
    requires AllPlaced(qs)
    ensures AllPlaced(Turn(qs, c))
  {
    forall i | 0 <= i < 27 ensures IsPlaced(Turn(qs, c)[i]) && Turn(qs, c)[i].home == HomeOf(i) {
      PlacedTurns(qs[i], c);
    }
  }

  lemma CubieMoves(q: Cubie, c: Command)
    ensures TurnCubie(q, c).coordinate == Moved(q.coordinate, c)
  {
  }

  lemma TurnMoves(qs: seq<Cubie>, c: Command, i: nat)
    requires i < |qs|
    ensures Turn(qs, c)[i].coordinate == Moved(qs[i].coordinate, c)
  {
    CubieMoves(qs[i], c);
  }

  lemma TurnKeepsSpread(qs: seq<Cubie>, c: Command)
    requires AllSpread(qs)
    ensures AllSpread(Turn(qs, c))
  {
    var r := Turn(qs, c);
    forall i: nat | i < 27 ensures InCube(r[i].coordinate) {
      TurnMoves(qs, c, i);
      MovedBack(qs[i].coordinate, c);
    }
    forall i: nat, j: nat | i < j < 27 ensures r[i].coordinate != r[j].coordinate {
      TurnMoves(qs, c, i);
      TurnMoves(qs, c, j);
      MovedBack(qs[i].coordinate, c);
      MovedBack(qs[j].coordinate, c);
    }
    forall v | InCube(v) ensures Occupied(r, v) {
      MovedBack(v, Inverse(c));
      assert Occupied(qs, Moved(v, Inverse(c)));
      var i: nat :| i < |qs| && qs[i].coordinate == Moved(v, Inverse(c));
      TurnMoves(qs, c, i);
      assert Inverse(Inverse(c)) == c;
      assert r[i].coordinate == v;
    }
  }

  /** Every turn keeps the cube a cube. */
  lemma TurnKeepsCube(qs: seq<Cubie>, c: Command)
    requires IsCube(qs)
    ensures IsCube(Turn(qs, c))
  {
    TurnKeepsPlaced(qs, c);
    TurnKeepsSpread(qs, c);
  }

  /** Every state reachable by any sequence of turns is a cube. */
  lemma {:induction false} TurnsKeepCube(cs: seq<Command>)
    ensures IsCube(TurnAll(Solved(), cs))
  {
    if cs == [] {
      SolvedIsCube();
    } else {
      TurnsKeepCube(cs[..|cs| - 1]);
      TurnKeepsCube(TurnAll(Solved(), cs[..|cs| - 1]), cs[|cs| - 1]);
    }
  }

  /** In a cube every command moves something. */
  lemma CommandsMove(qs: seq<Cubie>, c: Command)
    requires AllSpread(qs) && -1 <= c.layer <= 1
    ensures Moves(qs, c)
  {
    var v := match c.axis case X => Vec(c.layer, 0, 0) case Y => Vec(0, c.layer, 0) case Z => Vec(0, 0, c.layer);
    assert InCube(v) && Occupied(qs, v);
    var i :| 0 <= i < |qs| && qs[i].coordinate == v;
    assert Get(qs[i].coordinate, c.axis) == c.layer;
  }

  /** Different commands move some coordinate of the cube differently. */
  lemma CommandsDiffer(c: Command, d: Command) returns (v: Vec)
    requires IsCommand(c) && IsCommand(d) && c != d
    ensures InCube(v) && Moved(v, c) != Moved(v, d)
  {
    var other := if d.layer == 1 then 0 else 1;
    if c.axis == d.axis {
      v := match c.axis case X => Vec(c.layer, 1, 1) case Y => Vec(1, c.layer, 1) case Z => Vec(1, 1, c.layer);
    } else {
      v := match (c.axis, d.axis)
        case (X, Y) => Vec(c.layer, other, 1)
        case (X, Z) => Vec(c.layer, 1, other)
        case (Y, X) => Vec(other, c.layer, 1)
        case (Y, Z) => Vec(1, c.layer, other)
        case (Z, X) => Vec(other, 1, c.layer)
        case _ => Vec(1, other, c.layer);
    }
  }

  /** Two commands turn a cube alike only if they are the same. */
  lemma TurnsDiffer(qs: seq<Cubie>, c: Command, d: Command)
    requires AllSpread(qs) && IsCommand(c) && IsCommand(d)
    ensures Turn(qs, c) == Turn(qs, d) <==> c == d
  {
    if c != d {
      var v := CommandsDiffer(c, d);
      assert Occupied(qs, v);
      var i: nat :| i < |qs| && qs[i].coordinate == v;
      TurnMoves(qs, c, i);
      TurnMoves(qs, d, i);
    }
  }
}
