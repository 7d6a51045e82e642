/** When the solution counter answers more than its limit (examples/sudoku_game/model.rs). */
module SudokuOvershoot {
  import opened Wrappers
  import opened Sudoku

  // ---- Blanks whose branches all count alike ----

  /** How many of the values from `v` on the test admits at `p`. */
  ghost function Choices(g: Grid, p: nat, v: nat): (n: nat)
    requires p < CELLS && 1 <= v <= 10
    decreases 10 - v
  {
    if v == 10 then 0 else (if ValidValue(g, p / 9, p % 9, v) then 1 else 0) + Choices(g, p, v + 1)
  }

  /** The loop's sum when each of `n` branches counts `m`. */
  function Summed(found: nat, n: nat, m: nat, limit: nat): nat
    decreases n
  {
    if n == 0 then found
    else
      var now := SaturatingAdd(found, m);
      if now >= limit then now else Summed(now, n - 1, m, limit)
  }

  ghost predicate BranchesCount(g: Grid, p: nat, m: nat, limit: nat)
    requires p < CELLS
  {
    forall v :: 1 <= v <= 9 && ValidValue(g, p / 9, p % 9, v) ==> Counted(g[p := v], limit) == m
  }

  lemma {:induction false} CountedIsSummed(g: Grid, p: nat, v: nat, m: nat, limit: nat, found: nat)
    requires p < CELLS && g[p] == 0 && 1 <= v <= 10 && BranchesCount(g, p, m, limit)
    ensures Total(Answers(g, p, limit)[v - 1..], limit, found) == Summed(found, Choices(g, p, v), m, limit)
    decreases 10 - v
  {
    if v < 10 {
      NextAnswer(Answers(g, p, limit), v - 1);
      assert Answers(g, p, limit)[v - 1] == Answer(g, p, v, limit);
      if !ValidValue(g, p / 9, p % 9, v) {
        CountedIsSummed(g, p, v + 1, m, limit, found);
      } else if SaturatingAdd(found, m) < limit {
        CountedIsSummed(g, p, v + 1, m, limit, SaturatingAdd(found, m));
      }
    }
  }

  lemma AllAnswers(g: Grid, p: nat, limit: nat)
    requires FirstEmpty(g, 0) == Some(p)
    ensures Counted(g, limit) == Total(Answers(g, p, limit)[1 - 1..], limit, 0)
  {
    assert Answers(g, p, limit)[0..] == Answers(g, p, limit);
  }

  predicate Multiple(x: nat, c: nat)
    requires c > 0
    decreases x
  {
    x == 0 || (x >= c && Multiple(x - c, c))
  }

  /** A sum of multiples of `c` steps over a limit that is none, unless it runs out of branches before. */
  ghost predicate StepsOver(x: nat, c: nat, limit: nat, least: nat)
    requires c > 0
  {
    x > limit || (x < limit && Multiple(x, c) && x >= least)
  }

  lemma {:induction false} SumStepsOver(found: nat, n: nat, m: nat, limit: nat, c: nat, least: nat)
    requires c > 0 && limit < 255 && !Multiple(limit, c) && found < limit && Multiple(found, c)
    requires StepsOver(m, c, limit, least)
    ensures StepsOver(Summed(found, n, m, limit), c, limit, found + n * least)
    decreases n
  {
    if n > 0 && found + m <= limit {
      MultiplesAdd(found, m, c);
      SumStepsOver(found + m, n - 1, m, limit, c, least);
      assert (n - 1) * least + least == n * least;
    }
  }

  lemma {:induction false} MultiplesAdd(a: nat, b: nat, c: nat)
    requires c > 0 && Multiple(a, c) && Multiple(b, c)
    ensures Multiple(a + b, c)
    decreases a
  {
    if a > 0 { MultiplesAdd(a - c, b, c); }
  }

  // ---- A grid with three free blanks before one that takes few values ----

  const LAST_BLANK: nat := 3

  /** The blanks in the order of the search; none is a peer of another. */
  function BlankAt(k: nat): (p: nat)
    requires k <= LAST_BLANK
    ensures p < CELLS
  {
    match k case 0 => 0 case 1 => 13 case 2 => 30 case _ => 80
  }

  predicate IsBlank(i: nat) { i == 0 || i == 13 || i == 30 || i == 80 }

  /** The other cells hold 4, except that the last box holds the values up to `t`. */
  function Filling(i: nat, t: nat): (v: nat)
    ensures v > 0
  {
    if i / 9 >= 6 && i % 9 >= 6 && Digit(i / 9 % 3 * 3 + i % 3) <= t then Digit(i / 9 % 3 * 3 + i % 3) else 4
  }

  /** The values but 4, in order. */
  function Digit(k: nat): (v: nat)
    ensures v > 0
  {
    if k < 3 then k + 1 else k + 2
  }

  /** The first `k` blanks are filled in. */
  ghost predicate Stage(g: Grid, t: nat, k: nat) {
    && (forall i :: 0 <= i < CELLS && !IsBlank(i) ==> g[i] == Filling(i, t))
    && (forall j: nat :: j <= LAST_BLANK ==> (g[BlankAt(j)] == 0 <==> j >= k))
  }

  function Start(t: nat): (g: Grid) {
    seq(CELLS, i requires 0 <= i < CELLS => if IsBlank(i) then 0 else Filling(i, t))
  }

  lemma StartIsStage(t: nat)
    ensures Stage(Start(t), t, 0)
  {
  }

  lemma NextStage(g: Grid, t: nat, k: nat, v: nat)
    requires k <= LAST_BLANK && Stage(g, t, k) && v > 0
    ensures Stage(g[BlankAt(k) := v], t, k + 1)
  {
  }

  lemma FirstOfStage(g: Grid, t: nat, k: nat)
    requires k <= LAST_BLANK + 1 && Stage(g, t, k)
    ensures FirstEmpty(g, 0) == if k <= LAST_BLANK then Some(BlankAt(k)) else None
  {
    var r := FirstEmpty(g, 0);
    if r.Some? {
      assert IsBlank(r.value);
      assert exists j: nat :: j <= LAST_BLANK && r.value == BlankAt(j) by {
        assert r.value == BlankAt(0) || r.value == BlankAt(1) || r.value == BlankAt(2) || r.value == BlankAt(3);
      }
    }
  }

  /** The smallest value that blank `k` takes, less one. */
  function Bound(k: nat, t: nat): nat { if k == LAST_BLANK then t else 0 }

  predicate Takes(v: nat, bound: nat) { v > bound && v != 4 }

  lemma FreeBlankTakes(g: Grid, t: nat, k: nat, v: nat)
    requires k < LAST_BLANK && Stage(g, t, k) && 1 <= v <= 9
    ensures ValidValue(g, BlankAt(k) / 9, BlankAt(k) % 9, v) <==> v != 4
  {
    var p := BlankAt(k);
    ValidValueMeansNoPeer(g, p, v);
    assert Peers(p, p + 1) && g[p + 1] == 4;
    forall q | 0 <= q < CELLS && Peers(p, q) ensures g[q] == 4 {
      assert !IsBlank(q);
    }
  }

  /** Where the last box holds `v`. */
  function Holder(v: nat): (q: nat)
    requires 1 <= v <= 8 && v != 4
    ensures q < CELLS && Peers(80, q) && Filling(q, v) == v && !IsBlank(q)
  {
    match v
    case 1 => 60 case 2 => 61 case 3 => 62 case 5 => 69 case 6 => 70 case 7 => 71 case _ => 78
  }

  lemma FillingOfHolder(v: nat, t: nat)
    requires 1 <= v <= t <= 8 && v != 4
    ensures Filling(Holder(v), t) == v
  {
  }

  lemma LastBlankTakes(g: Grid, t: nat, v: nat)
    requires Stage(g, t, LAST_BLANK) && t <= 8 && 1 <= v <= 9
    ensures ValidValue(g, 8, 8, v) <==> Takes(v, t)
  {
    assert g[BlankAt(LAST_BLANK)] == 0;
    ValidValueMeansNoPeer(g, 80, v);
    assert Peers(80, 72) && g[72] == 4;
    if v <= t && v != 4 {
      FillingOfHolder(v, t);
      assert g[Holder(v)] == v;
    }
    forall q | 0 <= q < CELLS && Peers(80, q) ensures g[q] == 4 || g[q] <= t {
      assert !IsBlank(q);
    }
  }

  lemma BlankTakes(g: Grid, t: nat, k: nat, v: nat)
    requires k <= LAST_BLANK && Stage(g, t, k) && t <= 8 && 1 <= v <= 9
    ensures ValidValue(g, BlankAt(k) / 9, BlankAt(k) % 9, v) <==> Takes(v, Bound(k, t))
  {
    if k < LAST_BLANK { FreeBlankTakes(g, t, k, v); } else { LastBlankTakes(g, t, v); }
  }

  function Above(bound: nat, v: nat): nat
    requires 1 <= v <= 10
    decreases 10 - v
  {
    if v == 10 then 0 else (if Takes(v, bound) then 1 else 0) + Above(bound, v + 1)
  }

  lemma {:induction false} ChoicesAre(g: Grid, t: nat, k: nat, v: nat)
    requires k <= LAST_BLANK && Stage(g, t, k) && t <= 8 && 1 <= v <= 10
    ensures Choices(g, BlankAt(k), v) == Above(Bound(k, t), v)
    decreases 10 - v
  {
    if v < 10 {
      BlankTakes(g, t, k, v);
      ChoicesAre(g, t, k, v + 1);
    }
  }

  /** What the search answers once the first `k` blanks are filled in. */
  function StageCount(k: nat, t: nat, limit: nat): nat
    requires k <= LAST_BLANK + 1
    decreases LAST_BLANK + 1 - k
  {
    if k == LAST_BLANK + 1 then 1 else Summed(0, Above(Bound(k, t), 1), StageCount(k + 1, t, limit), limit)
  }

  lemma {:induction false} CountedAtStage(g: Grid, t: nat, k: nat, limit: nat)
    requires k <= LAST_BLANK + 1 && Stage(g, t, k) && t <= 8
    ensures Counted(g, limit) == StageCount(k, t, limit)
    decreases LAST_BLANK + 1 - k
  {
    FirstOfStage(g, t, k);
    if k <= LAST_BLANK {
      var p := BlankAt(k);
      forall v | 1 <= v <= 9 && ValidValue(g, p / 9, p % 9, v) ensures Counted(g[p := v], limit) == StageCount(k + 1, t, limit) {
        NextStage(g, t, k, v);
        CountedAtStage(g[p := v], t, k + 1, limit);
      }
      ChoicesAre(g, t, k, 1);
      AllAnswers(g, p, limit);
      CountedIsSummed(g, p, 1, StageCount(k + 1, t, limit), limit, 0);
    }
  }

  /** How many completions there are below a free blank. */
  function Leaves(k: nat, c: nat): nat
    requires k <= LAST_BLANK
    decreases LAST_BLANK - k
  {
    if k == LAST_BLANK then c else 8 * Leaves(k + 1, c)
  }

  lemma {:induction false} StageSteps(k: nat, t: nat, c: nat, limit: nat)
    requires k <= LAST_BLANK && t <= 8 && c == Above(t, 1) && 2 <= c < limit < 255 && !Multiple(limit, c)
    ensures StepsOver(StageCount(k, t, limit), c, limit, Leaves(k, c))
    decreases LAST_BLANK - k
  {
    if k == LAST_BLANK {
      OneByOne(0, c, limit);
      assert Multiple(0, c);
    } else {
      StageSteps(k + 1, t, c, limit);
      AboveIs(0, 1);
      SumStepsOver(0, 8, StageCount(k + 1, t, limit), limit, c, Leaves(k + 1, c));
    }
  }

  /** With 512 branches of `c` completions each, the answer passes a limit that `c` does not divide. */
  lemma StageOvershoots(t: nat, c: nat, limit: nat)
    requires t <= 8 && c == Above(t, 1) && 2 <= c < limit < 255 && !Multiple(limit, c)
    ensures StageCount(0, t, limit) > limit
  {
    StageSteps(0, t, c, limit);
    assert Leaves(0, c) == 512 * c;
  }

  lemma {:induction false} OneByOne(found: nat, n: nat, limit: nat)
    requires found + n < limit < 255
    ensures Summed(found, n, 1, limit) == found + n
    decreases n
  {
    if n > 0 { OneByOne(found + 1, n - 1, limit); }
  }

  function Remainder(x: nat, c: nat): nat {
    match c case 2 => x % 2 case 3 => x % 3 case 4 => x % 4 case 5 => x % 5 case 7 => x % 7 case _ => 0
  }

  lemma {:induction false} SmallDivisor(x: nat, c: nat)
    requires 0 < c && Multiple(x, c)
    ensures Remainder(x, c) == 0
    decreases x
  {
    if x > 0 {
      SmallDivisor(x - c, c);
      assert Remainder(x - c, c) == 0;
      match c case 2 => case 3 => case 4 => case 5 => case 7 => case _ =>
    }
  }

  /** Not every one of 2, 3, 4, 5 and 7 divides a number below 255. */
  lemma SomeRemainder(limit: nat) returns (c: nat)
    requires 3 <= limit < 255
    ensures 2 <= c < limit && c <= 7 && Remainder(limit, c) != 0
  {
    if limit % 2 != 0 { return 2; }
    if limit % 3 != 0 { return 3; }
    if limit % 4 != 0 { return 4; }
    if limit % 5 != 0 { return 5; }
    assert limit == 60 || limit == 120 || limit == 180 || limit == 240;
    return 7;
  }

  /** What the last box must hold so that its blank takes `c` values. */
  lemma BoundFor(c: nat) returns (t: nat)
    requires 2 <= c <= 7
    ensures t <= 8 && Above(t, 1) == c
  {
    t := if c >= 5 then 8 - c else 9 - c;
    AboveIs(t, 1);
  }

  lemma {:induction false} AboveIs(t: nat, v: nat)
    requires t <= 8 && 1 <= v <= 10
    ensures Above(t, v) == (if t < v then 10 - v else 9 - t) - (if t < 4 && v <= 4 then 1 else 0)
    decreases 10 - v
  {
    if v < 10 { AboveIs(t, v + 1); }
  }

  // ---- Limit two ----

  /** Two blanks start the first row; the first takes 1 or 2, the second 1 or 3. */
  function TwoBlanks(): (g: Grid) {
    seq(CELLS, i requires 0 <= i < CELLS => if i < 2 then 0 else if i == 27 then 3 else if i == 28 then 2 else if 3 <= i < 8 then i + 2 else 4)
  }

  lemma FirstBlankTakes(v: nat)
    requires 1 <= v <= 9
    ensures ValidValue(TwoBlanks(), 0, 0, v) <==> v <= 2
  {
    var g := TwoBlanks();
    ValidValueMeansNoPeer(g, 0, v);
    assert Peers(0, 27) && g[27] == 3 && Peers(0, 8) && g[8] == 4;
    if v >= 5 { assert Peers(0, v - 2) && g[v - 2] == v; }
    forall q | 0 <= q < CELLS && Peers(0, q) ensures g[q] != 1 && g[q] != 2 {
    }
  }

  lemma SecondBlankTakes(u: nat, v: nat)
    requires 1 <= u <= 2 && 1 <= v <= 9
    ensures ValidValue(TwoBlanks()[0 := u], 0, 1, v) <==> (v == 1 || v == 3) && v != u
  {
    var g := TwoBlanks()[0 := u];
    ValidValueMeansNoPeer(g, 1, v);
    assert Peers(1, 0) && g[0] == u && Peers(1, 28) && g[28] == 2 && Peers(1, 8) && g[8] == 4;
    if v >= 5 { assert Peers(1, v - 2) && g[v - 2] == v; }
    forall q | 0 <= q < CELLS && Peers(1, q) ensures g[q] != 3 && (g[q] != 1 || u == 1) {
    }
  }

  /** With the first blank filled in, the search answers the number of values for the second. */
  lemma SecondBlankCounts(u: nat)
    requires 1 <= u <= 2
    ensures Counted(TwoBlanks()[0 := u], 2) == u
  {
    var g := TwoBlanks()[0 := u];
    assert g[0] != 0 && g[1] == 0;
    forall v | 1 <= v <= 9 && ValidValue(g, 0, 1, v) ensures Counted(g[1 := v], 2) == 1 {
      assert FirstEmpty(g[1 := v], 0) == None;
    }
    forall v: nat | 1 <= v <= 9 ensures ValidValue(g, 0, 1, v) <==> (v == 1 || v == 3) && v != u {
      SecondBlankTakes(u, v);
    }
    assert Choices(g, 1, 4) == 0 by { NoChoices(g, 1, 4); }
    assert Choices(g, 1, 1) == u;
    AllAnswers(g, 1, 2);
    CountedIsSummed(g, 1, 1, 1, 2, 0);
  }

  lemma {:induction false} NoChoices(g: Grid, p: nat, v: nat)
    requires p < CELLS && 1 <= v <= 10 && forall w :: v <= w <= 9 ==> !ValidValue(g, p / 9, p % 9, w)
    ensures Choices(g, p, v) == 0
    decreases 10 - v
  {
    if v < 10 { NoChoices(g, p, v + 1); }
  }

  /** One completion below the first value and two below the second: three, for a limit of two. */
  lemma TwoBlanksOvershoot()
    ensures Counted(TwoBlanks(), 2) == 3
  {
    var g := TwoBlanks();
    assert g[0] == 0;
    FirstBlankTakes(1);
    FirstBlankTakes(2);
    SecondBlankCounts(1);
    SecondBlankCounts(2);
    var answers := Answers(g, 0, 2);
    assert answers[0] == Some(1) && answers[1] == Some(2);
    NextAnswer(answers, 0);
    NextAnswer(answers, 1);
    AllAnswers(g, 0, 2);
    assert Total(answers[1..], 2, 1) == 3;
  }

  // ---- Exactly which limits are kept ----

  /** For each limit from 2 to 254 there is a grid for which the search answers more. */
  lemma SomeGridOvershoots(limit: nat) returns (g: Grid)
    requires 2 <= limit < 255
    ensures Counted(g, limit) > limit
  {
    if limit == 2 {
      TwoBlanksOvershoot();
      g := TwoBlanks();
    } else {
      var c := SomeRemainder(limit);
      if Multiple(limit, c) { SmallDivisor(limit, c); }
      var t := BoundFor(c);
      g := Start(t);
      StartIsStage(t);
      CountedAtStage(g, t, 0, limit);
      StageOvershoots(t, c, limit);
    }
  }

  /** A search for one completion ends at the first. */
  lemma {:induction false} LimitOneIsKept(g: Grid)
    ensures Counted(g, 1) <= 1
    decreases Blanks(g, CELLS), 11
  {
    if FirstEmpty(g, 0).Some? {
      var p := FirstEmpty(g, 0).value;
      var answers := Answers(g, p, 1);
      forall k | 0 <= k < 9 && answers[k].Some? ensures answers[k].value <= 1 {
        BlanksAfterSet(g, p, k + 1, CELLS);
        assert answers[k] == Answer(g, p, k + 1, 1);
        LimitOneIsKept(g[p := k + 1]);
      }
      TotalOfOnes(answers);
    }
  }

  lemma {:induction false} TotalOfOnes(answers: seq<Option<nat>>)
    requires forall k :: 0 <= k < |answers| && answers[k].Some? ==> answers[k].value <= 1
    ensures Total(answers, 1, 0) <= 1
  {
    if answers != [] { TotalOfOnes(answers[1..]); }
  }

  function Least(a: nat, b: nat): nat { if a < b then a else b }

  /** The answer is the number of completions capped at the limit for every grid, if and only if the limit is 1 or 255. */
  lemma CappedExactly(limit: nat)
    requires limit <= 255
    ensures (forall g: Grid :: Counted(g, limit) == Least(|Fills(g)|, limit)) <==> limit == 1 || limit == 255
  {
    if limit == 1 || limit == 255 {
      forall g: Grid ensures Counted(g, limit) == Least(|Fills(g)|, limit) {
        CountedIsCapped(g, limit);
        LimitOneIsKept(g);
      }
    } else if limit == 0 {
      var full: Grid := seq(CELLS, _ => 1);
      if FirstEmpty(full, 0).Some? { assert false; }
      assert Counted(full, 0) == 1;
    } else {
      var g := SomeGridOvershoots(limit);
      assert Counted(g, limit) != Least(|Fills(g)|, limit);
    }
  }
}
