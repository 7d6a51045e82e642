/** One game: moves, clears and hints (examples/sudoku_game/model.rs). */
module SudokuSession {
  import opened Sudoku
  import opened SudokuGenerator

  datatype CellState = Empty | Given | Player | Error | Hint
  datatype Outcome = Ongoing | Win | LoseLives | LoseTime

  /** What each mark says about the value of its cell. */
  predicate MarkFits(mark: CellState, value: int, right: int) {
    match mark
    case Empty => value == 0
    case Error => value != 0 && value != right
    case _ => value == right
  }

  ghost predicate MarksFit(marks: seq<CellState>, values: Grid) {
    |marks| == CELLS && forall i :: 0 <= i < CELLS ==> MarkFits(marks[i], values[i], Solved()[i])
  }

  ghost predicate Full(values: Grid) {
    forall i :: 0 <= i < CELLS ==> values[i] != 0
  }

  /** A board whose marks fit is the solution exactly when no cell is empty and none is marked wrong. */
  lemma SolvedExactly(marks: seq<CellState>, values: Grid)
    requires MarksFit(marks, values)
    ensures values == Solved() <==> forall i :: 0 <= i < CELLS ==> marks[i] != Empty && marks[i] != Error
    ensures Full(values) <==> forall i :: 0 <= i < CELLS ==> marks[i] != Empty
  {
    SolutionIsLegal();
    forall i | 0 <= i < CELLS ensures marks[i] == Empty <==> values[i] == 0 {}
    if values == Solved() {
      forall i | 0 <= i < CELLS ensures marks[i] != Empty && marks[i] != Error {
        assert MarkFits(marks[i], values[i], Solved()[i]);
      }
    }
  }

  lemma SetKeepsMarks(marks: seq<CellState>, values: Grid, p: nat, mark: CellState, value: int)
    requires MarksFit(marks, values) && p < CELLS && MarkFits(mark, value, Solved()[p])
    ensures MarksFit(marks[p := mark], values[p := value])
  {
  }

  method IsFull(values: Grid) returns (full: bool)
    ensures full <==> Full(values)
  {
    for i := 0 to CELLS
      invariant forall k :: 0 <= k < i ==> values[k] != 0
    {
      if values[i] == 0 { return false; }
    }
    return true;
  }

  class GameSession {
    var values: Grid
    var marks: seq<CellState>
    var lives: nat
    var mistakes: nat
    var hintsUsed: nat
    var result: Outcome
    var paused: bool
    const maxHints: nat

    ghost predicate Valid()
      reads this
    {
      MarksFit(marks, values)
    }

    constructor (puzzle: Grid, maxLives: nat, maxHints: nat)
      requires Blanking(puzzle, Solved())
      ensures Valid() && values == puzzle && result == Ongoing && !paused && lives == maxLives && hintsUsed == 0 && this.maxHints == maxHints
    {
      values := puzzle;
      marks := seq(CELLS, i requires 0 <= i < CELLS => if puzzle[i] != 0 then Given else Empty);
      lives, mistakes, hintsUsed, result, paused := maxLives, 0, 0, Ongoing, false;
      this.maxHints := maxHints;
    }

    method Clear(p: nat)
      requires Valid() && p < CELLS
      modifies this`values, this`marks
      ensures Valid()
      ensures values == if old(marks[p]) == Given then old(values) else old(values)[p := 0]
      ensures marks == if old(marks[p]) == Given then old(marks) else old(marks)[p := Empty]
    {
      if marks[p] != Given {
        SetKeepsMarks(marks, values, p, Empty, 0);
        values, marks := values[p := 0], marks[p := Empty];
      }
    }

    /** A move wins exactly when it leaves the whole solution, and loses exactly when it is wrong with no life to spare. */
    method MakeMove(row: nat, column: nat, value: nat) returns (accepted: bool, correct: bool)
      requires Valid()
      modifies this
      ensures Valid()
      ensures accepted == (row < 9 && column < 9 && value <= 9 && old(result) == Ongoing && !old(paused) && old(marks)[At(row, column)] != Given)
      ensures !accepted ==> !correct && values == old(values) && marks == old(marks) && lives == old(lives) && result == old(result)
      ensures accepted ==> values == old(values)[At(row, column) := value]
      ensures accepted ==> (correct <==> value == 0 || value == Solved()[At(row, column)])
      ensures accepted ==> marks == old(marks)[At(row, column) := if value == 0 then Empty else if correct then Player else Error]
      ensures mistakes == old(mistakes) + if accepted && !correct then 1 else 0
      ensures accepted ==> lives == if correct then old(lives) else if old(lives) > 0 then old(lives) - 1 else 0
      ensures accepted ==> (result == Win <==> value != 0 && correct && values == Solved())
      ensures accepted ==> (result == LoseLives <==> !correct && old(lives) <= 1) && result != LoseTime && paused == (result != Ongoing)
      ensures hintsUsed == old(hintsUsed)
    {
      if row >= 9 || column >= 9 || result != Ongoing || paused || value > 9 || marks[At(row, column)] == Given {
        return false, false;
      }
      var p := At(row, column);
      if value == 0 {
        Clear(p);
        return true, true;
      }
      accepted, correct := true, value == Solved()[p];
      SetKeepsMarks(marks, values, p, if correct then Player else Error, value);
      values := values[p := value];
      marks := marks[p := if correct then Player else Error];
      if correct {
        if values == Solved() {
          result, paused := Win, true;
        }
      } else {
        mistakes := mistakes + 1;
        lives := if lives > 0 then lives - 1 else 0;
        if lives == 0 {
          result, paused := LoseLives, true;
        }
      }
    }

    /** A hint wins on any full board, so the win is earned exactly when no cell is still marked wrong. */
    method HintAt(row: nat, column: nat) returns (given: bool)
      requires Valid()
      modifies this
      ensures Valid()
      ensures given == (row < 9 && column < 9 && old(hintsUsed) < maxHints && old(result) == Ongoing && old(values)[At(row, column)] == 0)
      ensures !given ==> values == old(values) && marks == old(marks) && hintsUsed == old(hintsUsed) && result == old(result)
      ensures given ==> values == old(values)[At(row, column) := Solved()[At(row, column)]] && hintsUsed == old(hintsUsed) + 1
      ensures given ==> marks == old(marks)[At(row, column) := Hint]
      ensures given ==> (result == Win <==> Full(values)) && (result != Win ==> result == Ongoing)
      ensures given && result == Win ==> (values == Solved() <==> forall i :: 0 <= i < CELLS ==> marks[i] != Error)
      ensures lives == old(lives)
    {
      SolutionIsLegal();
      if row >= 9 || column >= 9 || hintsUsed >= maxHints || result != Ongoing || values[At(row, column)] != 0 || marks[At(row, column)] == Given {
        return false;
      }
      var p := At(row, column);
      SetKeepsMarks(marks, values, p, Hint, Solved()[p]);
      values, marks := values[p := Solved()[p]], marks[p := Hint];
      hintsUsed := hintsUsed + 1;
      var full := IsFull(values);
      if full {
        result, paused := Win, true;
      }
      SolvedExactly(marks, values);
      return true;
    }
  }

  /** A move that keeps the game going: right or wrong, with a life to spare and a cell still empty elsewhere. */
  method PlayOn(g: GameSession, p: nat, value: nat, empty: nat)
    requires g.Valid() && g.result == Ongoing && !g.paused && p < CELLS && empty < CELLS && empty != p
    requires g.values[p] == 0 && g.values[empty] == 0 && 1 <= value <= 9 && (g.lives >= 2 || value == Solved()[p])
    modifies g
    ensures g.Valid() && g.result == Ongoing && !g.paused && g.values == old(g.values)[p := value]
    ensures g.lives >= (if value == Solved()[p] then old(g.lives) else 1) && g.hintsUsed == old(g.hintsUsed)
  {
    SolutionIsLegal();
    assert At(p / 9, p % 9) == p && p / 9 < 9;
    assert MarkFits(g.marks[p], g.values[p], Solved()[p]);
    assert g.values[p := value][empty] == 0;
    var accepted, correct := g.MakeMove(p / 9, p % 9, value);
  }

  /**
    * A won game that is not solved, on any puzzle with two blanks, two lives and a hint: fill all but two cells
    * rightly, one of the two wrongly, and ask for the other.
    */
  method WinWithAWrongCell(puzzle: Grid, wrong: nat, last: nat, maxLives: nat, maxHints: nat) returns (g: GameSession)
    requires Blanking(puzzle, Solved()) && wrong < CELLS && last < CELLS && wrong != last && puzzle[wrong] == 0 && puzzle[last] == 0
    requires maxLives >= 2 && maxHints >= 1
    ensures fresh(g) && g.Valid() && g.result == Win && g.values != Solved()
  {
    SolutionIsLegal();
    g := new GameSession(puzzle, maxLives, maxHints);
    for i: nat := 0 to CELLS
      invariant fresh(g) && g.Valid() && g.result == Ongoing && !g.paused && g.lives >= 2 && g.hintsUsed == 0 && g.maxHints == maxHints
      invariant forall k :: 0 <= k < CELLS ==>
        g.values[k] == if k < i && k != wrong && k != last then Solved()[k] else puzzle[k]
    {
      if puzzle[i] == 0 && i != wrong && i != last {
        PlayOn(g, i, Solved()[i], last);
      }
    }
    var mistake := if Solved()[wrong] == 9 then 1 else Solved()[wrong] + 1;
    PlayOn(g, wrong, mistake, last);
    assert At(last / 9, last % 9) == last && last / 9 < 9;
    var given := g.HintAt(last / 9, last % 9);
    assert g.values[wrong] == mistake;
  }
}
