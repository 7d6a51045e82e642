/** The cube with its history: moves, undo and redo (examples/rubik_3d/state.rs). */
module CubeState {
  import opened Wrappers
  import opened Cubies
  import opened Facelets

  const HISTORY: nat := 512

  /** Undoing a list of moves, the last first. */
  function Unwind(qs: seq<Cubie>, cs: seq<Command>): (r: seq<Cubie>)
    ensures |r| == |qs|
    decreases |cs|
  {
    if cs == [] then qs else Unwind(Turn(qs, Inverse(cs[|cs| - 1])), cs[..|cs| - 1])
  }

  /** Unwinding a list of moves undoes them all. */
  lemma {:induction false} UnwindUndoes(qs: seq<Cubie>, cs: seq<Command>)
    ensures Unwind(TurnAll(qs, cs), cs) == qs
    decreases |cs|
  {
    if cs != [] {
      var before, c := cs[..|cs| - 1], cs[|cs| - 1];
      TurnBack(TurnAll(qs, before), c);
      UnwindUndoes(qs, before);
    }
  }

  /** The inverses of a list of moves, the last first. */
  function Reversed(cs: seq<Command>): (r: seq<Command>)
    ensures |r| == |cs|
  {
    if cs == [] then [] else [Inverse(cs[|cs| - 1])] + Reversed(cs[..|cs| - 1])
  }

  lemma {:induction false} TurnAllJoin(qs: seq<Cubie>, a: seq<Command>, b: seq<Command>)
    ensures TurnAll(qs, a + b) == TurnAll(TurnAll(qs, a), b)
    decreases |b|
  {
    if b == [] {
      assert a + b == a;
    } else {
      assert (a + b)[..|a + b| - 1] == a + b[..|b| - 1];
      TurnAllJoin(qs, a, b[..|b| - 1]);
    }
  }

  /** Playing the inverses of some moves, the last first, unwinds them. */
  lemma {:induction false} ReversedUnwinds(qs: seq<Cubie>, cs: seq<Command>)
    ensures TurnAll(qs, Reversed(cs)) == Unwind(qs, cs)
    decreases |cs|
  {
    if cs != [] {
      var c := cs[|cs| - 1];
      var rest := Reversed(cs[..|cs| - 1]);
      TurnAllJoin(qs, [Inverse(c)], rest);
      assert TurnAll(qs, [Inverse(c)]) == Turn(TurnAll(qs, []), Inverse(c)) by {
        assert [Inverse(c)][..0] == [];
      }
      ReversedUnwinds(Turn(qs, Inverse(c)), cs[..|cs| - 1]);
    }
  }

  ghost predicate AllCommands(cs: seq<Command>) {
    forall i :: 0 <= i < |cs| ==> IsCommand(cs[i])
  }

  /** A blank or painted facelet list after more of the stickers. */
  lemma PaintNext(os: seq<Option<Write>>, k: nat)
    requires k < |os|
    ensures Paint(os[..k + 1]) == match os[k]
      case None => Paint(os[..k])
      case Some(w) => if w.index < 54 then Paint(os[..k])[w.index := w.color] else Paint(os[..k])
  {
    assert os[..k + 1][..k] == os[..k];
  }

  // ---- What a move, an undo and a redo do ----

  datatype Status = Status(cubies: seq<Cubie>, history: seq<Command>, redone: seq<Command>)

  function AfterMove(s: Status, c: Command): Status {
    Status(Turn(s.cubies, c), if |s.history| < HISTORY then s.history + [c] else s.history, [])
  }

  function AfterUndo(s: Status): Status {
    if s.history == [] then s
    else
      var last := |s.history| - 1;
      Status(Turn(s.cubies, Inverse(s.history[last])), s.history[..last], s.redone + [s.history[last]])
  }

  function AfterRedo(s: Status): Status {
    if s.redone == [] then s
    else
      var last := |s.redone| - 1;
      Status(Turn(s.cubies, s.redone[last]), s.history + [s.redone[last]], s.redone[..last])
  }

  class CubeState {
    var cubies: seq<Cubie>
    const facelets: array<nat>
    var history: seq<Command>
    var redone: seq<Command>

    /** The facelets show the cubies, and history and redo list together stay within the limit. */
    ghost predicate Valid()
      reads this, facelets
    {
      && IsCube(cubies) && facelets.Length == 54 && facelets[..] == Shown(cubies)
      && |history| + |redone| <= HISTORY && AllCommands(history) && AllCommands(redone)
    }

    constructor (qs: seq<Cubie>)
      requires IsCube(qs)
      ensures Valid() && fresh(facelets) && Now() == Status(qs, [], [])
    {
      cubies := qs;
      facelets := new nat[54](_ => NONE);
      history, redone := [], [];
      new;
      SyncFacelets();
    }

    function Now(): Status
      reads this
    {
      Status(cubies, history, redone)
    }

    /** Turns the cubies of one layer in place. */
    method ApplyRaw(c: Command) returns (changed: bool)
      modifies this`cubies
      ensures cubies == Turn(old(cubies), c) && changed == Moves(old(cubies), c)
    {
      ghost var before := cubies;
      changed := false;
      for i := 0 to |cubies|
        invariant |cubies| == |before|
        invariant forall k :: 0 <= k < |cubies| ==> cubies[k] == if k < i then TurnCubie(before[k], c) else before[k]
        invariant changed <==> exists k :: 0 <= k < i && Get(before[k].coordinate, c.axis) == c.layer
      {
        var q := cubies[i];
        if Get(q.coordinate, c.axis) == c.layer {
          cubies := cubies[i := q.(coordinate := RotateCoordinate(q.coordinate, c.axis, c.direction),
                                   orientation := Multiply(RotationMatrix(c.axis, c.direction), q.orientation))];
          changed := true;
        }
      }
      assert cubies == Turn(before, c);
    }

    /** Writes one facelet, if the sticker shows. */
    method PaintOne(sticker: Option<Write>, ghost os: seq<Option<Write>>, ghost k: nat)
      requires facelets.Length == 54 && k < |os| && os[k] == sticker && facelets[..] == Paint(os[..k])
      requires sticker.Some? ==> sticker.value.index < 54
      modifies facelets
      ensures facelets[..] == Paint(os[..k + 1])
    {
      PaintNext(os, k);
      if sticker.Some? {
        ghost var was := facelets[..];
        facelets[sticker.value.index] := sticker.value.color;
        assert facelets[..] == was[sticker.value.index := sticker.value.color];
      }
    }

    /** Rebuilds the facelets from the cubies. */
    method SyncFacelets()
      requires facelets.Length == 54 && |cubies| == 27 && Fits(cubies)
      modifies facelets
      ensures facelets[..] == Shown(cubies)
    {
      ghost var os := Stickers(cubies);
      for e := 0 to 54
        invariant forall k :: 0 <= k < e ==> facelets[k] == NONE
      {
        facelets[e] := NONE;
      }
      assert os[..0] == [];
      assert facelets[..] == Paint(os[..0]);
      for i: nat := 0 to 27
        invariant facelets[..] == Paint(os[..6 * i])
      {
        for f: nat := 0 to 6
          invariant facelets[..] == Paint(os[..6 * i + f])
        {
          StickersAt(cubies, i, f);
          PaintOne(Sticker(cubies[i], f), os, 6 * i + f);
        }
      }
      assert os[..6 * 27] == os;
    }

    /** Turns a cube, which moves something and stays a cube. */
    method TurnCube(c: Command) returns (ok: bool)
      requires IsCube(cubies) && -1 <= c.layer <= 1
      modifies this`cubies
      ensures ok && cubies == Turn(old(cubies), c) && IsCube(cubies)
    {
      CommandsMove(cubies, c);
      TurnKeepsCube(cubies, c);
      ok := ApplyRaw(c);
    }

    /** A move is recorded while there is room, and forgets what was undone. */
    method ApplyMove(c: Command) returns (ok: bool)
      requires Valid() && IsCommand(c)
      modifies this, facelets
      ensures Valid() && ok && Now() == AfterMove(old(Now()), c)
    {
      ok := TurnCube(c);
      if |history| < HISTORY {
        history := history + [c];
      }
      redone := [];
      SyncFacelets();
    }

    method Undo() returns (ok: bool)
      requires Valid()
      modifies this, facelets
      ensures Valid() && ok == (old(history) != []) && Now() == AfterUndo(old(Now()))
    {
      if history == [] {
        return false;
      }
      var c := history[|history| - 1];
      history := history[..|history| - 1];
      ok := TurnCube(Inverse(c));
      if |redone| < HISTORY {
        redone := redone + [c];
      }
      SyncFacelets();
    }

    method Redo() returns (ok: bool)
      requires Valid()
      modifies this, facelets
      ensures Valid() && ok == (old(redone) != []) && Now() == AfterRedo(old(Now()))
    {
      if redone == [] {
        return false;
      }
      var c := redone[|redone| - 1];
      redone := redone[..|redone| - 1];
      ok := TurnCube(c);
      if |history| < HISTORY {
        history := history + [c];
      }
      SyncFacelets();
    }
  }

  /** A solved cube with nothing to undo. */
  method NewCube() returns (s: CubeState)
    ensures fresh(s) && fresh(s.facelets) && s.Valid() && s.Now() == Status(Solved(), [], [])
  {
    SolvedIsCube();
    s := new CubeState(Solved());
  }

  // ---- Moves undone and redone ----

  /** Undo and redo are inverses wherever they act. */
  lemma UndoAndRedoInvert(s: Status)
    ensures s.history != [] ==> AfterRedo(AfterUndo(s)) == s
    ensures s.redone != [] ==> AfterUndo(AfterRedo(s)) == s
  {
    if s.history != [] {
      var c := s.history[|s.history| - 1];
      TurnBack(s.cubies, c);
      assert s.history[..|s.history| - 1] + [c] == s.history;
      assert AfterRedo(AfterUndo(s)).redone == s.redone;
    }
    if s.redone != [] {
      var c := s.redone[|s.redone| - 1];
      TurnBack(s.cubies, c);
      assert s.redone[..|s.redone| - 1] + [c] == s.redone;
      assert AfterUndo(AfterRedo(s)).history == s.history;
    }
  }

  lemma TurnCancels(qs: seq<Cubie>, r: seq<Cubie>, d: Command)
    ensures Turn(r, Inverse(d)) == qs <==> r == Turn(qs, d)
  {
    TurnBack(qs, d);
    TurnBack(r, d);
  }

  lemma InverseOfOther(qs: seq<Cubie>, c: Command, d: Command)
    requires AllSpread(qs) && IsCommand(c) && IsCommand(d)
    ensures Turn(Turn(qs, c), Inverse(d)) == qs <==> c == d
  {
    TurnCancels(qs, Turn(qs, c), d);
    TurnsDiffer(qs, c, d);
  }

  /** The move that an undo would take back after a move. */
  function LastAfter(s: Status, c: Command): Command {
    if |s.history| < HISTORY then c else s.history[|s.history| - 1]
  }

  lemma UndoOfMove(s: Status, c: Command)
    ensures AfterUndo(AfterMove(s, c)).cubies == Turn(Turn(s.cubies, c), Inverse(LastAfter(s, c)))
  {
  }

  /** Undo right after a move restores the cubies exactly when the move was recorded, or happens to repeat the last one that was. */
  lemma UndoRestoresExactly(s: Status, c: Command)
    requires AllSpread(s.cubies) && IsCommand(c) && AllCommands(s.history)
    ensures AfterUndo(AfterMove(s, c)).cubies == s.cubies
       <==> |s.history| < 512 || s.history[|s.history| - 1] == c
  {
    var d := LastAfter(s, c);
    assert AfterUndo(AfterMove(s, c)).cubies == Turn(Turn(s.cubies, c), Inverse(d)) by {
      UndoOfMove(s, c);
    }
    assert Turn(Turn(s.cubies, c), Inverse(d)) == s.cubies <==> c == d by {
      InverseOfOther(s.cubies, c, d);
    }
  }

  /** A history explains the cubies when it plays them from some start. */
  ghost predicate Explains(start: seq<Cubie>, s: Status) {
    s.cubies == TurnAll(start, s.history)
  }

  /** While moves are recorded, the history keeps playing the cubies from the same start; so do undo and redo. */
  lemma HistoryKeepsExplaining(start: seq<Cubie>, s: Status, c: Command)
    requires Explains(start, s)
    ensures |s.history| < HISTORY ==> Explains(start, AfterMove(s, c))
    ensures Explains(start, AfterUndo(s)) && Explains(start, AfterRedo(s))
  {
    assert (s.history + [c])[..|s.history|] == s.history;
    if s.history != [] {
      TurnBack(TurnAll(start, s.history[..|s.history| - 1]), s.history[|s.history| - 1]);
    }
    if s.redone != [] {
      var d := s.redone[|s.redone| - 1];
      assert (s.history + [d])[..|s.history|] == s.history;
    }
  }

  // ---- Long histories ----

  function Played(s: Status, cs: seq<Command>): Status {
    if cs == [] then s else AfterMove(Played(s, cs[..|cs| - 1]), cs[|cs| - 1])
  }

  lemma {:induction false} PlayedCubies(s: Status, cs: seq<Command>)
    ensures Played(s, cs).cubies == TurnAll(s.cubies, cs)
  {
    if cs != [] { PlayedCubies(s, cs[..|cs| - 1]); }
  }

  function Repeated(c: Command, n: nat): (cs: seq<Command>)
    ensures |cs| == n
  {
    seq(n, _ => c)
  }

  lemma {:induction false} PlayedHistory(s: Status, cs: seq<Command>)
    requires |s.history| + |cs| <= HISTORY
    ensures Played(s, cs).history == s.history + cs
    decreases |cs|
  {
    if cs != [] {
      PlayedHistory(s, cs[..|cs| - 1]);
      assert cs == cs[..|cs| - 1] + [cs[|cs| - 1]];
    }
  }

  lemma PlayedExplains(s: Status, cs: seq<Command>)
    requires s.history == [] && |cs| <= HISTORY
    ensures Explains(s.cubies, Played(s, cs))
  {
    PlayedHistory(s, cs);
    PlayedCubies(s, cs);
    assert s.history + cs == cs;
  }

  /** Every command turns every cube into a different one. */
  lemma TurnChanges(qs: seq<Cubie>, c: Command)
    requires AllSpread(qs) && IsCommand(c)
    ensures Turn(qs, c) != qs
  {
    var v := match c.axis case X => Vec(c.layer, 1, 1) case Y => Vec(1, c.layer, 1) case Z => Vec(1, 1, c.layer);
    assert InCube(v) && Occupied(qs, v);
    var i: nat :| i < |qs| && qs[i].coordinate == v;
    TurnMoves(qs, c, i);
    assert Moved(v, c) != v;
  }

  lemma {:induction false} PlayedKeepsCube(s: Status, cs: seq<Command>)
    requires IsCube(s.cubies)
    ensures IsCube(Played(s, cs).cubies)
    decreases |cs|
  {
    if cs != [] {
      PlayedKeepsCube(s, cs[..|cs| - 1]);
      TurnKeepsCube(Played(s, cs[..|cs| - 1]).cubies, cs[|cs| - 1]);
    }
  }

  /** From the solved cube, 512 moves fill the history; then undoing a different move does not restore the cube. */
  lemma FullHistoryBreaksUndo(c: Command, d: Command)
    requires IsCommand(c) && IsCommand(d) && c != d
    ensures var s := Played(Status(Solved(), [], []), Repeated(c, HISTORY));
      |s.history| == 512 && AfterUndo(AfterMove(s, d)).cubies != s.cubies
  {
    var start := Status(Solved(), [], []);
    var moves := Repeated(c, HISTORY);
    SolvedIsCube();
    PlayedHistory(start, moves);
    PlayedKeepsCube(start, moves);
    assert start.history + moves == moves;
    UndoRestoresExactly(Played(start, moves), d);
  }
}
