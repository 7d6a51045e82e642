/** Counting the completions of a grid and generating puzzles (examples/sudoku_game/model.rs). Cells are numbered row by row. */
module Sudoku {
  import opened Wrappers

  const CELLS: nat := 81

  const SOLUTION: seq<seq<int>> := [
    [5, 3, 4, 6, 7, 8, 9, 1, 2],
    [6, 7, 2, 1, 9, 5, 3, 4, 8],
    [1, 9, 8, 3, 4, 2, 5, 6, 7],
    [8, 5, 9, 7, 6, 1, 4, 2, 3],
    [4, 2, 6, 8, 5, 3, 7, 9, 1],
    [7, 1, 3, 9, 2, 4, 8, 5, 6],
    [9, 6, 1, 5, 3, 7, 2, 8, 4],
    [2, 8, 7, 4, 1, 9, 6, 3, 5],
    [3, 4, 5, 2, 8, 6, 1, 7, 9]
  ]

  type Grid = g: seq<int> | |g| == CELLS witness seq(CELLS, _ => 0)

  /** The cells of one row, column or box. */
  predicate Peers(p: nat, q: nat) {
    p != q && (p / 9 == q / 9 || p % 9 == q % 9 || (p / 27 == q / 27 && p % 9 / 3 == q % 9 / 3))
  }

  ghost predicate Legal(s: Grid) {
    forall p, q :: 0 <= p < CELLS && 0 <= q < CELLS && Peers(p, q) ==> s[p] != s[q]
  }

  /** `s` fills the blanks of `g` so that no filled cell repeats a value of its row, column or box. */
  ghost predicate Completes(g: Grid, s: Grid) {
    && (forall i :: 0 <= i < CELLS && g[i] != 0 ==> s[i] == g[i])
    && (forall i :: 0 <= i < CELLS && g[i] == 0 ==> 1 <= s[i] <= 9)
    && (forall i, j :: 0 <= i < CELLS && 0 <= j < CELLS && g[i] == 0 && Peers(i, j) ==> s[j] != s[i])
  }

  function At(row: nat, column: nat): nat { row * 9 + column }

  /** The test before a value is tried: row, column, box. */
  predicate ValidValue(g: Grid, row: nat, column: nat, value: int)
    requires row < 9 && column < 9
  {
    && (forall other: nat :: other < 9 ==> g[At(row, other)] != value)
    && (forall other: nat :: other < 9 ==> g[At(other, column)] != value)
    && (forall r: nat, c: nat :: row / 3 * 3 <= r < row / 3 * 3 + 3 && column / 3 * 3 <= c < column / 3 * 3 + 3 ==> g[At(r, c)] != value)
  }

  lemma CellsByRowAndColumn(row: nat, column: nat)
    requires row < 9 && column < 9
    ensures At(row, column) < CELLS && At(row, column) / 9 == row && At(row, column) % 9 == column && At(row, column) / 27 == row / 3
  {
  }

  lemma NoPeerMeansValid(g: Grid, p: nat, value: int, r: nat, c: nat)
    requires p < CELLS && g[p] == 0 && value != 0 && r < 9 && c < 9
    requires r == p / 9 || c == p % 9 || (r / 3 == p / 9 / 3 && c / 3 == p % 9 / 3)
    requires forall q :: 0 <= q < CELLS && Peers(p, q) ==> g[q] != value
    ensures g[At(r, c)] != value
  {
    CellsByRowAndColumn(r, c);
    assert At(r, c) == p || Peers(p, At(r, c));
  }

  lemma ValidMeansNoPeer(g: Grid, p: nat, value: int, q: nat)
    requires p < CELLS && q < CELLS && Peers(p, q) && ValidValue(g, p / 9, p % 9, value)
    ensures g[q] != value
  {
    var r, c := q / 9, q % 9;
    assert q == At(r, c);
    if r != p / 9 && c != p % 9 { SameBox(p, q); }
  }

  lemma SameBox(p: nat, q: nat)
    requires p < CELLS && q < CELLS && p / 27 == q / 27 && p % 9 / 3 == q % 9 / 3
    ensures p / 9 / 3 * 3 <= q / 9 < p / 9 / 3 * 3 + 3 && p % 9 / 3 * 3 <= q % 9 < p % 9 / 3 * 3 + 3
  {
    assert p / 27 == p / 9 / 3 && q / 27 == q / 9 / 3;
  }

  /** At a blank cell the test says that no peer has the value. */
  lemma ValidValueMeansNoPeer(g: Grid, p: nat, value: int)
    requires p < CELLS && g[p] == 0 && value != 0
    ensures ValidValue(g, p / 9, p % 9, value) <==> forall q :: 0 <= q < CELLS && Peers(p, q) ==> g[q] != value
  {
    var row, column := p / 9, p % 9;
    if ValidValue(g, row, column, value) {
      forall q | 0 <= q < CELLS && Peers(p, q) ensures g[q] != value {
        ValidMeansNoPeer(g, p, value, q);
      }
    }
    if forall q :: 0 <= q < CELLS && Peers(p, q) ==> g[q] != value {
      forall other: nat | other < 9 ensures g[At(row, other)] != value && g[At(other, column)] != value {
        NoPeerMeansValid(g, p, value, row, other);
        NoPeerMeansValid(g, p, value, other, column);
      }
      forall r: nat, c: nat | row / 3 * 3 <= r < row / 3 * 3 + 3 && column / 3 * 3 <= c < column / 3 * 3 + 3 ensures g[At(r, c)] != value {
        NoPeerMeansValid(g, p, value, r, c);
      }
    }
  }

  function FirstEmpty(g: Grid, from: nat): (r: Option<nat>)
    requires from <= CELLS
    ensures r.Some? ==> from <= r.value < CELLS && g[r.value] == 0 && forall i :: from <= i < r.value ==> g[i] != 0
    ensures r.None? ==> forall i :: from <= i < CELLS ==> g[i] != 0
    decreases CELLS - from
  {
    if from == CELLS then None else if g[from] == 0 then Some(from) else FirstEmpty(g, from + 1)
  }

  /** How many of the first `n` cells are blank. */
  function Blanks(g: Grid, n: nat): (b: nat)
    requires n <= CELLS
    ensures b <= n
  {
    if n == 0 then 0 else Blanks(g, n - 1) + if g[n - 1] == 0 then 1 else 0
  }

  lemma {:induction false} BlanksAfterSet(g: Grid, p: nat, v: int, n: nat)
    requires p < CELLS && n <= CELLS
    ensures Blanks(g[p := v], n) + (if p < n && g[p] == 0 then 1 else 0) == Blanks(g, n) + (if p < n && v == 0 then 1 else 0)
  {
    if n > 0 { BlanksAfterSet(g, p, v, n - 1); }
  }

  // ---- The completions, as the search enumerates them ----

  ghost function Fills(g: Grid): set<Grid>
    decreases Blanks(g, CELLS), 11
  {
    match FirstEmpty(g, 0)
    case None => {g}
    case Some(p) => FillsBelow(g, p, 10)
  }

  /** The completions whose value at the blank `p` is below `v`. */
  ghost function FillsBelow(g: Grid, p: nat, v: nat): set<Grid>
    requires p < CELLS && g[p] == 0 && v <= 10
    decreases Blanks(g, CELLS), v
  {
    if v <= 1 then {}
    else
      BlanksAfterSet(g, p, v - 1, CELLS);
      FillsBelow(g, p, v - 1) + if ValidValue(g, p / 9, p % 9, v - 1) then Fills(g[p := v - 1]) else {}
  }

  /** Trying a value at a blank cell splits the completions by that value. */
  lemma CompletesByValue(g: Grid, p: nat, s: Grid)
    requires p < CELLS && g[p] == 0
    ensures Completes(g, s) <==> 1 <= s[p] <= 9 && ValidValue(g, p / 9, p % 9, s[p]) && Completes(g[p := s[p]], s)
  {
    if 1 <= s[p] <= 9 {
      ValidValueMeansNoPeer(g, p, s[p]);
      if Completes(g, s) {
        forall q | 0 <= q < CELLS && Peers(p, q) ensures g[q] != s[p] {}
      } else if ValidValue(g, p / 9, p % 9, s[p]) && Completes(g[p := s[p]], s) {
        forall i, j | 0 <= i < CELLS && 0 <= j < CELLS && g[i] == 0 && Peers(i, j) ensures s[j] != s[i] {
          if i == p && g[j] == 0 {
            assert Peers(j, i);
          }
        }
        assert false;
      }
    }
  }

  /** The search enumerates exactly the legal completions. */
  lemma {:induction false} FillsAreTheCompletions(g: Grid, s: Grid)
    ensures s in Fills(g) <==> Completes(g, s)
    decreases Blanks(g, CELLS), 11
  {
    match FirstEmpty(g, 0)
    case None =>
      if Completes(g, s) {
        assert s == g;
      }
    case Some(p) =>
      FillsBelowAreTheCompletions(g, p, 10, s);
      CompletesByValue(g, p, s);
  }

  lemma {:induction false} FillsBelowAreTheCompletions(g: Grid, p: nat, v: nat, s: Grid)
    requires p < CELLS && g[p] == 0 && v <= 10
    ensures s in FillsBelow(g, p, v) <==> 1 <= s[p] < v && ValidValue(g, p / 9, p % 9, s[p]) && Completes(g[p := s[p]], s)
    decreases Blanks(g, CELLS), v
  {
    if v > 1 {
      BlanksAfterSet(g, p, v - 1, CELLS);
      FillsBelowAreTheCompletions(g, p, v - 1, s);
      FillsAreTheCompletions(g[p := v - 1], s);
      if s in Fills(g[p := v - 1]) {
        assert s[p] == g[p := v - 1][p];
      }
    }
  }

  lemma FillsBelowGrow(g: Grid, p: nat, v: nat)
    requires p < CELLS && g[p] == 0 && 1 <= v < 10
    ensures |FillsBelow(g, p, v + 1)| == |FillsBelow(g, p, v)| + if ValidValue(g, p / 9, p % 9, v) then |Fills(g[p := v])| else 0
  {
    if ValidValue(g, p / 9, p % 9, v) {
      forall s | s in FillsBelow(g, p, v) ensures s !in Fills(g[p := v]) {
        FillsBelowAreTheCompletions(g, p, v, s);
        FillsAreTheCompletions(g[p := v], s);
        assert g[p := v][p] == v;
      }
      assert FillsBelow(g, p, v) !! Fills(g[p := v]);
    }
  }

  lemma {:induction false} SubsetSize<T>(a: set<T>, b: set<T>)
    requires a <= b
    ensures |a| <= |b|
  {
    if a != {} {
      var x :| x in a;
      SubsetSize(a - {x}, b - {x});
    }
  }

  lemma FillsBelowRise(g: Grid, p: nat, u: nat, v: nat)
    requires p < CELLS && g[p] == 0 && u <= v <= 10
    ensures |FillsBelow(g, p, u)| <= |FillsBelow(g, p, v)|
  {
    forall s | s in FillsBelow(g, p, u) ensures s in FillsBelow(g, p, v) {
      FillsBelowAreTheCompletions(g, p, u, s);
      FillsBelowAreTheCompletions(g, p, v, s);
    }
    SubsetSize(FillsBelow(g, p, u), FillsBelow(g, p, v));
  }

  /** A byte-sized sum that sticks at 255. */
  function SaturatingAdd(a: nat, b: nat): nat { if a + b > 255 then 255 else a + b }

  /** The answer of the search: it passes the whole limit on to every branch and looks at it only between branches. */
  ghost function Counted(g: Grid, limit: nat): nat
    decreases Blanks(g, CELLS), 11
  {
    match FirstEmpty(g, 0)
    case None => 1
    case Some(p) => Total(Answers(g, p, limit), limit, 0)
  }

  /** What the branches for 1 to 9 at the blank `p` answer, if the test admits them. */
  ghost function Answers(g: Grid, p: nat, limit: nat): (answers: seq<Option<nat>>)
    requires p < CELLS && g[p] == 0
    ensures |answers| == 9
    decreases Blanks(g, CELLS), 10
  {
    seq(9, k requires 0 <= k < 9 => Answer(g, p, k + 1, limit))
  }

  ghost function Answer(g: Grid, p: nat, v: nat, limit: nat): Option<nat>
    requires p < CELLS && g[p] == 0 && v > 0
    decreases Blanks(g, CELLS), 9
  {
    BlanksAfterSet(g, p, v, CELLS);
    if ValidValue(g, p / 9, p % 9, v) then Some(Counted(g[p := v], limit)) else None
  }

  /** The loop over the branches: it stops as soon as an answer brings the sum to the limit. */
  function Total(answers: seq<Option<nat>>, limit: nat, found: nat): nat {
    if answers == [] then found
    else if answers[0].None? then Total(answers[1..], limit, found)
    else
      var now := SaturatingAdd(found, answers[0].value);
      if now >= limit then now else Total(answers[1..], limit, now)
  }

  /** A number that is exact below the limit, and otherwise a witness that the limit is reached. */
  ghost predicate CappedCount(found: nat, n: nat, limit: nat) {
    found <= n && found <= 255 && (found < limit ==> found == n)
  }

  lemma CappedSum(a: nat, m: nat, b: nat, n: nat, limit: nat)
    requires CappedCount(a, m, limit) && CappedCount(b, n, limit) && (limit > 0 ==> a < limit) && limit <= 255
    ensures CappedCount(SaturatingAdd(a, b), m + n, limit)
  {
  }

  /** Each answer is the capped growth from one size to the next. */
  ghost predicate Grown(answers: seq<Option<nat>>, sizes: seq<nat>, limit: nat) {
    && |sizes| == |answers| + 1
    && (forall k :: 0 <= k < |sizes| ==> sizes[k] <= sizes[|answers|])
    && (forall k :: 0 <= k < |answers| ==> GrownBy(answers[k], sizes[k], sizes[k + 1], limit))
  }

  ghost predicate GrownBy(answer: Option<nat>, before: nat, after: nat, limit: nat) {
    before <= after && if answer.None? then after == before else CappedCount(answer.value, after - before, limit)
  }

  lemma {:induction false} TotalIsCapped(answers: seq<Option<nat>>, sizes: seq<nat>, limit: nat, found: nat)
    requires limit <= 255 && Grown(answers, sizes, limit)
    requires CappedCount(found, sizes[0], limit) && (limit > 0 ==> found < limit)
    ensures CappedCount(Total(answers, limit, found), sizes[|answers|], limit)
  {
    if answers != [] {
      assert GrownBy(answers[0], sizes[0], sizes[1], limit);
      var rest, after := answers[1..], sizes[1..];
      forall k | 0 <= k < |rest| ensures GrownBy(rest[k], after[k], after[k + 1], limit) {
        assert GrownBy(answers[k + 1], sizes[k + 1], sizes[k + 2], limit);
      }
      if answers[0].None? {
        TotalIsCapped(rest, after, limit, found);
      } else {
        CappedSum(found, sizes[0], answers[0].value, sizes[1] - sizes[0], limit);
        var now := SaturatingAdd(found, answers[0].value);
        if now < limit { TotalIsCapped(rest, after, limit, now); }
      }
    }
  }

  /** The answer is the number of completions up to the limit, and never more than that number. */
  lemma {:induction false} CountedIsCapped(g: Grid, limit: nat)
    requires limit <= 255
    ensures CappedCount(Counted(g, limit), |Fills(g)|, limit)
    ensures |Fills(g)| <= limit ==> Counted(g, limit) == |Fills(g)|
    decreases Blanks(g, CELLS), 11
  {
    if FirstEmpty(g, 0).Some? {
      var p := FirstEmpty(g, 0).value;
      AnswersGrow(g, p, limit);
      TotalIsCapped(Answers(g, p, limit), SizesAt(g, p), limit, 0);
    }
  }

  /** How many completions have a value below 1, 2, ... 10 at `p`. */
  ghost function SizesAt(g: Grid, p: nat): (sizes: seq<nat>)
    requires p < CELLS && g[p] == 0
    ensures |sizes| == 10
  {
    seq(10, k requires 0 <= k < 10 => |FillsBelow(g, p, k + 1)|)
  }

  lemma {:induction false} AnswersGrow(g: Grid, p: nat, limit: nat)
    requires limit <= 255 && p < CELLS && g[p] == 0
    ensures Grown(Answers(g, p, limit), SizesAt(g, p), limit)
    decreases Blanks(g, CELLS), 1
  {
    var answers, sizes := Answers(g, p, limit), SizesAt(g, p);
    forall k | 0 <= k < 9 ensures GrownBy(answers[k], sizes[k], sizes[k + 1], limit) {
      AnswerIsCapped(g, p, k + 1, limit);
    }
    forall k | 0 <= k < 10 ensures sizes[k] <= sizes[9] {
      FillsBelowRise(g, p, k + 1, 10);
    }
  }

  lemma {:induction false} AnswerIsCapped(g: Grid, p: nat, v: nat, limit: nat)
    requires limit <= 255 && p < CELLS && g[p] == 0 && 1 <= v < 10
    ensures GrownBy(Answer(g, p, v, limit), |FillsBelow(g, p, v)|, |FillsBelow(g, p, v + 1)|, limit)
    decreases Blanks(g, CELLS), 0
  {
    FillsBelowGrow(g, p, v);
    BlanksAfterSet(g, p, v, CELLS);
    CountedIsCapped(g[p := v], limit);
  }

  /** Counts completions up to a limit by trying values in place, and leaves the grid as it was. */
  method CountSolutions(grid: array<int>, limit: nat) returns (found: nat)
    requires grid.Length == CELLS && limit <= 255
    modifies grid
    ensures grid[..] == old(grid[..])
    ensures found == Counted(grid[..], limit)
    ensures CappedCount(found, |Fills(grid[..])|, limit)
    decreases Blanks(grid[..], CELLS), 2
  {
    ghost var g: Grid := grid[..];
    CountedIsCapped(g, limit);
    var empty := FirstEmpty(grid[..], 0);
    if empty.None? {
      return 1;
    }
    var p := empty.value;
    found := 0;
    assert Answers(g, p, limit)[0..] == Answers(g, p, limit);
    for value := 1 to 10
      invariant grid[..] == g
      invariant Total(Answers(g, p, limit)[value - 1..], limit, found) == Counted(g, limit)
    {
      NextAnswer(Answers(g, p, limit), value - 1);
      if ValidValue(grid[..], p / 9, p % 9, value) {
        var more := CountWith(grid, p, value, limit);
        found := SaturatingAdd(found, more);
        if found >= limit {
          return found;
        }
      }
    }
  }

  lemma NextAnswer(answers: seq<Option<nat>>, k: nat)
    requires k < |answers|
    ensures answers[k..][0] == answers[k] && answers[k..][1..] == answers[k + 1..]
  {
  }

  /** Tries one value at a blank cell and blanks it again. */
  method CountWith(grid: array<int>, p: nat, value: nat, limit: nat) returns (more: nat)
    requires grid.Length == CELLS && limit <= 255 && p < CELLS && grid[p] == 0 && value != 0
    modifies grid
    ensures grid[..] == old(grid[..])
    ensures more == Counted(grid[..][p := value], limit)
    decreases Blanks(grid[..], CELLS), 0
  {
    ghost var g: Grid := grid[..];
    BlanksAfterSet(g, p, value, CELLS);
    grid[p] := value;
    assert grid[..] == g[p := value];
    more := CountSolutions(grid, limit);
    grid[p] := 0;
    assert grid[..] == g;
  }
}
