/** Digging puzzles out of the fixed solution (examples/sudoku_game/model.rs). */
module SudokuGenerator {
  import opened Sudoku
  import opened Sequences
  import opened Shuffles

  // ---- The fixed solution is legal ----

  /** The solution as one grid. */
  function Solved(): (g: Grid)
    ensures forall i :: 0 <= i < CELLS ==> g[i] == SOLUTION[i / 9][i % 9]
  {
    seq(CELLS, i requires 0 <= i < CELLS => SOLUTION[i / 9][i % 9])
  }

  predicate AllDifferent(s: seq<int>) {
    |s| == 9
    && s[0] != s[1] && s[0] != s[2] && s[0] != s[3] && s[0] != s[4] && s[0] != s[5] && s[0] != s[6] && s[0] != s[7] && s[0] != s[8]
    && s[1] != s[2] && s[1] != s[3] && s[1] != s[4] && s[1] != s[5] && s[1] != s[6] && s[1] != s[7] && s[1] != s[8]
    && s[2] != s[3] && s[2] != s[4] && s[2] != s[5] && s[2] != s[6] && s[2] != s[7] && s[2] != s[8]
    && s[3] != s[4] && s[3] != s[5] && s[3] != s[6] && s[3] != s[7] && s[3] != s[8]
    && s[4] != s[5] && s[4] != s[6] && s[4] != s[7] && s[4] != s[8]
    && s[5] != s[6] && s[5] != s[7] && s[5] != s[8]
    && s[6] != s[7] && s[6] != s[8]
    && s[7] != s[8]
  }

  lemma AllDifferentMeans(s: seq<int>, i: nat, j: nat)
    requires AllDifferent(s) && i < 9 && j < 9 && i != j
    ensures s[i] != s[j]
  {
  }

  predicate NineByNine(s: seq<seq<int>>) {
    |s| == 9 && forall r :: 0 <= r < 9 ==> |s[r]| == 9
  }

  function Column(s: seq<seq<int>>, c: nat): seq<int>
    requires NineByNine(s) && c < 9
  {
    [s[0][c], s[1][c], s[2][c], s[3][c], s[4][c], s[5][c], s[6][c], s[7][c], s[8][c]]
  }

  function Box(s: seq<seq<int>>, b: nat): seq<int>
    requires NineByNine(s) && b < 9
  {
    var r, c := b / 3 * 3, b % 3 * 3;
    [s[r][c], s[r][c + 1], s[r][c + 2], s[r + 1][c], s[r + 1][c + 1], s[r + 1][c + 2], s[r + 2][c], s[r + 2][c + 1], s[r + 2][c + 2]]
  }

  /** Each of the 27 units holds nine different values. */
  ghost predicate UnitsDiffer(s: seq<seq<int>>)
    requires NineByNine(s)
  {
    && (forall r :: 0 <= r < 9 ==> AllDifferent(s[r]))
    && (forall c :: 0 <= c < 9 ==> AllDifferent(Column(s, c)))
    && (forall b :: 0 <= b < 9 ==> AllDifferent(Box(s, b)))
  }

  lemma RowIsDifferent(r: nat)
    requires r < 9
    ensures AllDifferent(SOLUTION[r])
  {
  }

  lemma ColumnIsDifferent(c: nat)
    requires c < 9
    ensures AllDifferent(Column(SOLUTION, c))
  {
    match c
    case 0 => assert AllDifferent(Column(SOLUTION, 0));
    case 1 => assert AllDifferent(Column(SOLUTION, 1));
    case 2 => assert AllDifferent(Column(SOLUTION, 2));
    case 3 => assert AllDifferent(Column(SOLUTION, 3));
    case 4 => assert AllDifferent(Column(SOLUTION, 4));
    case 5 => assert AllDifferent(Column(SOLUTION, 5));
    case 6 => assert AllDifferent(Column(SOLUTION, 6));
    case 7 => assert AllDifferent(Column(SOLUTION, 7));
    case 8 => assert AllDifferent(Column(SOLUTION, 8));
  }

  lemma BoxIsDifferent(b: nat)
    requires b < 9
    ensures AllDifferent(Box(SOLUTION, b))
  {
    if b < 5 { EarlyBoxIsDifferent(b); } else { LateBoxIsDifferent(b); }
  }

  lemma EarlyBoxIsDifferent(b: nat)
    requires b < 5
    ensures AllDifferent(Box(SOLUTION, b))
  {
    match b
    case 0 => assert AllDifferent(Box(SOLUTION, 0));
    case 1 => assert AllDifferent(Box(SOLUTION, 1));
    case 2 => assert AllDifferent(Box(SOLUTION, 2));
    case 3 => assert AllDifferent(Box(SOLUTION, 3));
    case 4 => assert AllDifferent(Box(SOLUTION, 4));
  }

  lemma LateBoxIsDifferent(b: nat)
    requires 5 <= b < 9
    ensures AllDifferent(Box(SOLUTION, b))
  {
    match b
    case 5 => assert AllDifferent(Box(SOLUTION, 5));
    case 6 => assert AllDifferent(Box(SOLUTION, 6));
    case 7 => assert AllDifferent(Box(SOLUTION, 7));
    case 8 => assert AllDifferent(Box(SOLUTION, 8));
  }

  lemma SolutionUnitsDiffer()
    ensures NineByNine(SOLUTION) && UnitsDiffer(SOLUTION)
  {
    forall k | 0 <= k < 9 ensures AllDifferent(SOLUTION[k]) && AllDifferent(Column(SOLUTION, k)) && AllDifferent(Box(SOLUTION, k)) {
      RowIsDifferent(k);
      ColumnIsDifferent(k);
      BoxIsDifferent(k);
    }
  }

  lemma BoxEntry(s: seq<seq<int>>, b: nat, i: nat, j: nat)
    requires NineByNine(s) && b < 9 && i < 3 && j < 3
    ensures Box(s, b)[i * 3 + j] == s[b / 3 * 3 + i][b % 3 * 3 + j]
  {
  }

  /** Where a cell sits in its box. */
  lemma BoxOfCell(p: nat) returns (b: nat, i: nat, j: nat)
    requires p < CELLS
    ensures b == p / 27 * 3 + p % 9 / 3 && b < 9 && i < 3 && j < 3
    ensures p / 9 == b / 3 * 3 + i && p % 9 == b % 3 * 3 + j
  {
    var row, column := p / 9, p % 9;
    b, i, j := row / 3 * 3 + column / 3, row % 3, column % 3;
    assert row / 3 == p / 27;
  }

  lemma EntriesDiffer(s: seq<seq<int>>, b: nat, i: nat, j: nat, i': nat, j': nat)
    requires NineByNine(s) && b < 9 && AllDifferent(Box(s, b)) && i < 3 && j < 3 && i' < 3 && j' < 3
    requires i != i' || j != j'
    ensures s[b / 3 * 3 + i][b % 3 * 3 + j] != s[b / 3 * 3 + i'][b % 3 * 3 + j']
  {
    BoxEntry(s, b, i, j);
    BoxEntry(s, b, i', j');
    AllDifferentMeans(Box(s, b), i * 3 + j, i' * 3 + j');
  }

  lemma SameBoxDiffers(s: seq<seq<int>>, p: nat, q: nat)
    requires NineByNine(s) && p < CELLS && q < CELLS && p != q && p / 27 == q / 27 && p % 9 / 3 == q % 9 / 3
    requires AllDifferent(Box(s, p / 27 * 3 + p % 9 / 3))
    ensures s[p / 9][p % 9] != s[q / 9][q % 9]
  {
    var b, i, j := BoxOfCell(p);
    var b', i', j' := BoxOfCell(q);
    EntriesDiffer(s, b, i, j, i', j');
  }

  lemma PeersDiffer(s: seq<seq<int>>, p: nat, q: nat)
    requires NineByNine(s) && UnitsDiffer(s) && p < CELLS && q < CELLS && Peers(p, q)
    ensures s[p / 9][p % 9] != s[q / 9][q % 9]
  {
    if p / 9 == q / 9 {
      AllDifferentMeans(s[p / 9], p % 9, q % 9);
    } else if p % 9 == q % 9 {
      ColumnEntry(s, p % 9, p / 9);
      ColumnEntry(s, p % 9, q / 9);
      AllDifferentMeans(Column(s, p % 9), p / 9, q / 9);
    } else {
      assert 0 <= p / 27 * 3 + p % 9 / 3 < 9;
      SameBoxDiffers(s, p, q);
    }
  }

  lemma ColumnEntry(s: seq<seq<int>>, c: nat, r: nat)
    requires NineByNine(s) && c < 9 && r < 9
    ensures Column(s, c)[r] == s[r][c]
  {
  }

  lemma SolutionIsLegal()
    ensures Legal(Solved()) && forall i :: 0 <= i < CELLS ==> 1 <= Solved()[i] <= 9
  {
    SolutionUnitsDiffer();
    forall p, q | 0 <= p < CELLS && 0 <= q < CELLS && Peers(p, q) ensures Solved()[p] != Solved()[q] {
      PeersDiffer(SOLUTION, p, q);
    }
    forall i | 0 <= i < CELLS ensures 1 <= Solved()[i] <= 9 {
      ValuesInRange(i / 9, i % 9);
    }
  }

  lemma ValuesInRange(r: nat, c: nat)
    requires r < 9 && c < 9
    ensures 1 <= SOLUTION[r][c] <= 9
  {
  }

  // ---- Blankings of a legal grid ----

  /** `p` is `s` with some cells blanked. */
  ghost predicate Blanking(p: Grid, s: Grid) {
    forall i :: 0 <= i < CELLS && p[i] != 0 ==> p[i] == s[i]
  }

  ghost predicate LegalSolution(s: Grid) {
    Legal(s) && forall i :: 0 <= i < CELLS ==> 1 <= s[i] <= 9
  }

  /** A legal grid completes each of its blankings. */
  lemma SolutionCompletes(p: Grid, s: Grid)
    requires LegalSolution(s) && Blanking(p, s)
    ensures s in Fills(p)
  {
    forall i, j | 0 <= i < CELLS && 0 <= j < CELLS && p[i] == 0 && Peers(i, j) ensures s[j] != s[i] {
      assert Peers(j, i);
    }
    FillsAreTheCompletions(p, s);
  }

  /** Blanking further cells of a blanking loses no completion. */
  lemma BlankingMoreKeepsFills(p: Grid, q: Grid, s: Grid)
    requires LegalSolution(s) && Blanking(p, s) && Blanking(q, p)
    ensures Fills(p) <= Fills(q)
  {
    forall t | t in Fills(p) ensures t in Fills(q) {
      FillsAreTheCompletions(p, t);
      CompletionsCarryOver(p, q, s, t);
      FillsAreTheCompletions(q, t);
    }
  }

  lemma CompletionsCarryOver(p: Grid, q: Grid, s: Grid, t: Grid)
    requires LegalSolution(s) && Blanking(p, s) && Blanking(q, p) && Completes(p, t)
    ensures Completes(q, t)
  {
    forall i | 0 <= i < CELLS && q[i] == 0 ensures 1 <= t[i] <= 9 {
      assert p[i] != 0 ==> t[i] == s[i];
    }
    forall i, j | 0 <= i < CELLS && 0 <= j < CELLS && q[i] == 0 && Peers(i, j) ensures t[j] != t[i] {
      assert Peers(j, i);
      assert p[i] != 0 && p[j] != 0 ==> t[i] == s[i] && t[j] == s[j];
    }
  }

  /** No blanking of a puzzle with one completion can repeat the count of a puzzle with more. */
  lemma NoFewerFills(p: Grid, q: Grid, s: Grid)
    requires LegalSolution(s) && Blanking(p, s) && Blanking(q, p)
    ensures |Fills(p)| <= |Fills(q)|
  {
    BlankingMoreKeepsFills(p, q, s);
    SubsetSize(Fills(p), Fills(q));
  }

  lemma SingleFill(p: Grid, s: Grid)
    requires s in Fills(p) && |Fills(p)| == 1
    ensures Fills(p) == {s}
  {
    SubsetSize({s}, Fills(p));
    if t :| t in Fills(p) && t != s {
      SubsetSize({s, t}, Fills(p));
    }
  }

  // ---- The generator ----

  datatype Difficulty = Easy | Medium | Hard

  function BlanksMin(d: Difficulty): nat {
    match d case Easy => 46 case Medium => 51 case Hard => 56
  }

  function BlanksMax(d: Difficulty): nat {
    match d case Easy => 50 case Medium => 55 case Hard => 64
  }

  /** The easiest puzzle has 46 blanks and the hardest 64, and an easier difficulty always has fewer. */
  lemma RangesFollow(d: Difficulty)
    ensures BlanksMin(Easy) == 46 && BlanksMax(Easy) + 1 == BlanksMin(Medium) == 51
    ensures BlanksMax(Medium) + 1 == BlanksMin(Hard) == 56 && BlanksMax(Hard) == 64
    ensures 46 <= BlanksMin(d) < BlanksMax(d) <= 64
  {
  }

  /** Every cell number once. */
  ghost predicate Ordering(s: seq<nat>) {
    && |s| == CELLS
    && Distinct(s)
    && (forall k :: 0 <= k < CELLS ==> s[k] < CELLS)
    && forall v :: 0 <= v < CELLS ==> v in s
  }

  lemma SwapKeepsOrdering(s: seq<nat>, i: nat, j: nat)
    requires Ordering(s) && i < CELLS && j < CELLS
    ensures Ordering(s[i := s[j]][j := s[i]])
  {
    var t := s[i := s[j]][j := s[i]];
    forall v | 0 <= v < CELLS ensures v in t {
      assert v in s;
      var k :| 0 <= k < |s| && s[k] == v;
      assert t[if k == i then j else if k == j then i else k] == v;
    }
  }

  /** Nothing left to dig: blanking any remaining clue leaves a second completion. */
  ghost predicate Irreducible(p: Grid) {
    forall i :: 0 <= i < CELLS && p[i] != 0 ==> |Fills(p[i := 0])| >= 2
  }

  /** What digging the cells of a prefix `done` of the order has achieved. */
  ghost predicate Dug(p: Grid, done: seq<nat>, removed: nat) {
    && Blanking(p, Solved())
    && Fills(p) == {Solved()}
    && Blanks(p, CELLS) == removed
    && (forall k :: 0 <= k < |done| ==> done[k] < CELLS)
    && (forall i :: 0 <= i < CELLS && i !in done ==> p[i] != 0)
    && forall i :: 0 <= i < CELLS && i in done && p[i] != 0 ==> |Fills(p[i := 0])| >= 2
  }

  lemma NothingDug()
    ensures Dug(Solved(), [], 0)
  {
    SolutionIsLegal();
    NoBlanks(Solved(), CELLS);
  }

  lemma {:induction false} NoBlanks(g: Grid, n: nat)
    requires n <= CELLS && forall i :: 0 <= i < n ==> g[i] != 0
    ensures Blanks(g, n) == 0
  {
    if n > 0 { NoBlanks(g, n - 1); }
  }

  /** A clue that was needed stays needed after another is blanked. */
  lemma StaysNeeded(p: Grid, i: nat, k: nat)
    requires Blanking(p, Solved()) && i < CELLS && k < CELLS && |Fills(p[k := 0])| >= 2
    ensures |Fills(p[i := 0][k := 0])| >= 2
  {
    SolutionIsLegal();
    NoFewerFills(p[k := 0], p[i := 0][k := 0], Solved());
  }

  lemma BlankedHasOne(p: Grid, i: nat)
    requires Blanking(p, Solved()) && i < CELLS && |Fills(p[i := 0])| == 1
    ensures Fills(p[i := 0]) == {Solved()}
  {
    SolutionIsLegal();
    SolutionCompletes(p[i := 0], Solved());
    SingleFill(p[i := 0], Solved());
  }

  lemma DigOne(p: Grid, done: seq<nat>, removed: nat, i: nat)
    requires Dug(p, done, removed) && i < CELLS && i !in done && |Fills(p[i := 0])| == 1
    ensures Dug(p[i := 0], done + [i], removed + 1)
  {
    BlankedHasOne(p, i);
    BlanksAfterSet(p, i, 0, CELLS);
    StillNeeded(p, done, removed, i);
  }

  lemma StillNeeded(p: Grid, done: seq<nat>, removed: nat, i: nat)
    requires Dug(p, done, removed) && i < CELLS
    ensures forall k :: 0 <= k < CELLS && k in done && p[i := 0][k] != 0 ==> |Fills(p[i := 0][k := 0])| >= 2
  {
    forall k | 0 <= k < CELLS && k in done && p[i := 0][k] != 0 ensures |Fills(p[i := 0][k := 0])| >= 2 {
      StaysNeeded(p, i, k);
    }
  }

  lemma KeepOne(p: Grid, done: seq<nat>, removed: nat, i: nat)
    requires Dug(p, done, removed) && i < CELLS && i !in done && |Fills(p[i := 0])| != 1
    ensures Dug(p, done + [i], removed)
  {
    SolutionIsLegal();
    SolutionCompletes(p[i := 0], Solved());
    SubsetSize({Solved()}, Fills(p[i := 0]));
  }

  /** What every generated puzzle is. */
  ghost predicate IsPuzzle(p: Grid, target: nat) {
    && Blanking(p, Solved())
    && Fills(p) == {Solved()}
    && Blanks(p, CELLS) <= target
    && (Blanks(p, CELLS) < target ==> Irreducible(p))
  }

  lemma EnoughDug(p: Grid, done: seq<nat>, removed: nat)
    requires Dug(p, done, removed)
    ensures IsPuzzle(p, removed)
  {
  }

  lemma AllDug(p: Grid, order: seq<nat>, removed: nat)
    requires Dug(p, order, removed) && Ordering(order)
    ensures Blanking(p, Solved()) && Fills(p) == {Solved()} && Blanks(p, CELLS) == removed && Irreducible(p)
  {
  }

  lemma NextInOrder(order: seq<nat>, k: nat)
    requires Ordering(order) && k < CELLS
    ensures order[..k + 1] == order[..k] + [order[k]] && order[k] !in order[..k] && order[k] < CELLS
  {
  }

  // ---- Which puzzle comes of which numbers ----

  function InOrder(): (s: seq<nat>)
    ensures |s| == CELLS
  {
    seq(CELLS, i => i)
  }

  lemma InOrderIsOrdering()
    ensures Ordering(InOrder())
  {
    forall v | 0 <= v < CELLS ensures v in InOrder() {
      assert InOrder()[v] == v;
    }
  }

  lemma NextChoice(s: seq<nat>, state: bv64, i: nat)
    requires 0 < i < |s|
    ensures var j := Remainder(Number(Scrambled(state)), i + 1);
      && Shuffled(s, Choices(state, i)) == Shuffled(Swapped(s, i, j), Choices(Scrambled(state), i - 1))
      && StateAfter(state, i) == StateAfter(Scrambled(state), i - 1)
  {
    var choices := Choices(state, i);
    LaterChoices(choices);
    assert choices[1..] == Choices(Scrambled(state), i - 1);
  }

  /** A clue is dug if what is left has one completion. */
  ghost function TriedAt(p: Grid, position: nat, removed: nat): (Grid, nat)
    requires position < CELLS
  {
    if |Fills(p[position := 0])| == 1 then (p[position := 0], removed + 1) else (p, removed)
  }

  /** What digging in this order leaves, up to so many blanks. */
  ghost function DugOut(p: Grid, order: seq<nat>, removed: nat, target: nat): Grid
    decreases |order|
  {
    if order == [] || removed == target || order[0] >= CELLS then p
    else
      var (q, now) := TriedAt(p, order[0], removed);
      DugOut(q, order[1..], now, target)
  }

  class PuzzleGenerator {
    var state: bv64

    constructor (seed: bv64)
      ensures state == seed | 1 && state != 0
    {
      state := seed | 1;
    }

    /** Three shift-and-xor steps; a state that is not zero never becomes zero. */
    method Next() returns (r: bv64)
      requires state != 0
      modifies this
      ensures r == state == Scrambled(old(state)) && state != 0
    {
      NeverZero(state);
      state := Left7(state);
      state := Right9(state);
      state := Left8(state);
      return state;
    }

    method Below(n: nat) returns (r: nat)
      requires n > 0 && state != 0
      modifies this
      ensures r == Remainder(Number(state), n) && state == Scrambled(old(state)) && state != 0
    {
      var x := Next();
      r := Remainder(Number(x), n);
    }

    /** The positions are shuffled by the next numbers. */
    method Shuffle(positions: array<nat>)
      requires positions.Length == CELLS && Ordering(positions[..]) && state != 0
      modifies this, positions
      ensures Ordering(positions[..]) && state != 0
      ensures positions[..] == Shuffled(old(positions[..]), Choices(old(state), positions.Length - 1))
      ensures state == StateAfter(old(state), positions.Length - 1)
    {
      ghost var n := positions.Length - 1;
      for index := positions.Length - 1 downto 0
        invariant Ordering(positions[..]) && state != 0
        invariant Shuffled(positions[..], Choices(state, index)) == Shuffled(old(positions[..]), Choices(old(state), n))
        invariant StateAfter(state, index) == StateAfter(old(state), n)
      {
        NextChoice(positions[..], state, index + 1);
        SwapAt(positions, index + 1);
      }
    }

    /** Swaps one position with one drawn from those up to it. */
    method SwapAt(positions: array<nat>, i: nat)
      requires positions.Length == CELLS && i < CELLS && Ordering(positions[..]) && state != 0
      modifies this, positions
      ensures state != 0 && state == Scrambled(old(state)) && Ordering(positions[..])
      ensures positions[..] == Swapped(old(positions[..]), i, Remainder(Number(state), i + 1))
    {
      var swap := Below(i + 1);
      SwapKeepsOrdering(positions[..], i, swap);
      ghost var before := positions[..];
      positions[i], positions[swap] := positions[swap], positions[i];
      assert positions[..] == Swapped(before, i, swap);
    }

    /** Blanks a cell, counts on a copy and puts the clue back unless one completion is left. */
    method TryBlank(puzzle: array<int>, position: nat, ghost done: seq<nat>, removed: nat) returns (now: nat)
      requires puzzle.Length == CELLS && Dug(puzzle[..], done, removed) && position < CELLS && position !in done
      modifies puzzle
      ensures Dug(puzzle[..], done + [position], now) && now <= removed + 1
      ensures TriedAt(old(puzzle[..]), position, removed) == (puzzle[..], now)
    {
      ghost var p: Grid := puzzle[..];
      var saved := puzzle[position];
      puzzle[position] := 0;
      assert puzzle[..] == p[position := 0];
      var candidate := new int[CELLS](i requires 0 <= i < CELLS && puzzle.Length == CELLS reads puzzle => puzzle[i]);
      assert candidate[..] == puzzle[..];
      var found := CountSolutions(candidate, 2);
      CountsOne(found, |Fills(p[position := 0])|);
      if found == 1 {
        DigOne(p, done, removed, position);
        return removed + 1;
      }
      puzzle[position] := saved;
      assert puzzle[..] == p;
      KeepOne(p, done, removed, position);
      return removed;
    }

    method Dig(puzzle: array<int>, positions: array<nat>, target: nat)
      requires puzzle.Length == CELLS && positions.Length == CELLS && puzzle[..] == Solved() && Ordering(positions[..])
      modifies puzzle
      ensures IsPuzzle(puzzle[..], target)
      ensures puzzle[..] == DugOut(old(puzzle[..]), positions[..], 0, target)
    {
      NothingDug();
      ghost var first: Grid := puzzle[..];
      var removed: nat := 0;
      ghost var done: seq<nat> := [];
      for k := 0 to CELLS
        invariant done == positions[..k] && Dug(puzzle[..], done, removed) && removed <= target
        invariant DugOut(puzzle[..], positions[k..], removed, target) == DugOut(first, positions[..], 0, target)
      {
        if removed == target {
          EnoughDug(puzzle[..], done, removed);
          return;
        }
        NextInOrder(positions[..], k);
        assert positions[k..][0] == positions[k] && positions[k..][1..] == positions[k + 1..];
        removed := TryBlank(puzzle, positions[k], done, removed);
        done := done + [positions[k]];
        assert done == positions[..k + 1];
      }
      assert done == positions[..];
      AllDug(puzzle[..], done, removed);
    }

    /** A blanking of the solution with no other completion, within the target, and with nothing more to dig if below it. */
    method Generate(difficulty: Difficulty) returns (puzzle: array<int>, target: nat)
      requires state != 0
      modifies this
      ensures state != 0 && fresh(puzzle) && puzzle.Length == CELLS
      ensures BlanksMin(difficulty) <= target <= BlanksMax(difficulty) && IsPuzzle(puzzle[..], target)
      ensures var first := Scrambled(old(state));
        && target == BlanksMin(difficulty) + Remainder(Number(first), BlanksMax(difficulty) - BlanksMin(difficulty) + 1)
        && puzzle[..] == DugOut(Solved(), Shuffled(InOrder(), Choices(first, |InOrder()| - 1)), 0, target)
    {
      var extra := Below(BlanksMax(difficulty) - BlanksMin(difficulty) + 1);
      target := BlanksMin(difficulty) + extra;
      puzzle := DigShuffled(target);
    }

    /** Digs a copy of the solution in a shuffled order. */
    method DigShuffled(target: nat) returns (puzzle: array<int>)
      requires state != 0
      modifies this
      ensures state != 0 && fresh(puzzle) && puzzle.Length == CELLS && IsPuzzle(puzzle[..], target)
      ensures puzzle[..] == DugOut(Solved(), Shuffled(InOrder(), Choices(old(state), |InOrder()| - 1)), 0, target)
    {
      var solution := Solved();
      puzzle := new int[CELLS](i requires 0 <= i < CELLS => solution[i]);
      assert puzzle[..] == solution;
      var positions := new nat[CELLS](i => i);
      assert positions[..] == InOrder();
      InOrderIsOrdering();
      Shuffle(positions);
      Dig(puzzle, positions, target);
    }
  }

  lemma CountsOne(found: nat, n: nat)
    requires CappedCount(found, n, 2)
    ensures found == 1 <==> n == 1
  {
  }
}
