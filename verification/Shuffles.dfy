/** The puzzle generator's random numbers and its shuffle (examples/sudoku_game/model.rs). */
module Shuffles {
  import opened Sequences

  // ---- The numbers ----

  // Each step adds to a word, without carries, the word shifted.

  function Left7(x: bv64): bv64 { x ^ (x << 7) }

  function Right9(x: bv64): bv64 { x ^ (x >> 9) }

  function Left8(x: bv64): bv64 { x ^ (x << 8) }

  /** The next state of the generator, which is also its next number. */
  function Scrambled(x: bv64): bv64 { Left8(Right9(Left7(x))) }

  // Doing a step twice is doing it with the doubled shift, which leaves the word in the end.

  function UndoLeft7(y: bv64): bv64 {
    var a := y ^ (y << 7);
    var b := a ^ (a << 14);
    var c := b ^ (b << 28);
    c ^ (c << 56)
  }

  function UndoRight9(y: bv64): bv64 {
    var a := y ^ (y >> 9);
    var b := a ^ (a >> 18);
    b ^ (b >> 36)
  }

  function UndoLeft8(y: bv64): bv64 {
    var a := y ^ (y << 8);
    var b := a ^ (a << 16);
    b ^ (b << 32)
  }

  function Unscrambled(y: bv64): bv64 { UndoLeft7(UndoRight9(UndoLeft8(y))) }

  lemma Left7IsUndone(x: bv64, y: bv64)
    requires y == x ^ (x << 7)
    ensures UndoLeft7(y) == x
  {
    assert (x ^ (x << 7)) ^ ((x ^ (x << 7)) << 7) == x ^ (x << 14);
    assert (x ^ (x << 14)) ^ ((x ^ (x << 14)) << 14) == x ^ (x << 28);
    assert (x ^ (x << 28)) ^ ((x ^ (x << 28)) << 28) == x ^ (x << 56);
    assert (x ^ (x << 56)) ^ ((x ^ (x << 56)) << 56) == x;
  }

  lemma Right9IsUndone(x: bv64, y: bv64)
    requires y == x ^ (x >> 9)
    ensures UndoRight9(y) == x
  {
    assert (x ^ (x >> 9)) ^ ((x ^ (x >> 9)) >> 9) == x ^ (x >> 18);
    assert (x ^ (x >> 18)) ^ ((x ^ (x >> 18)) >> 18) == x ^ (x >> 36);
    assert (x ^ (x >> 36)) ^ ((x ^ (x >> 36)) >> 36) == x;
  }

  lemma Left8IsUndone(x: bv64, y: bv64)
    requires y == x ^ (x << 8)
    ensures UndoLeft8(y) == x
  {
    assert (x ^ (x << 8)) ^ ((x ^ (x << 8)) << 8) == x ^ (x << 16);
    assert (x ^ (x << 16)) ^ ((x ^ (x << 16)) << 16) == x ^ (x << 32);
    assert (x ^ (x << 32)) ^ ((x ^ (x << 32)) << 32) == x;
  }

  lemma UndoesLeft7(x: bv64)
    ensures UndoLeft7(Left7(x)) == x
  {
    Left7IsUndone(x, Left7(x));
  }

  lemma UndoesRight9(x: bv64)
    ensures UndoRight9(Right9(x)) == x
  {
    Right9IsUndone(x, Right9(x));
  }

  lemma UndoesLeft8(x: bv64)
    ensures UndoLeft8(Left8(x)) == x
  {
    Left8IsUndone(x, Left8(x));
  }

  /** The step can be undone, so no two states have the same successor. */
  lemma ScrambledIsUndone(x: bv64)
    ensures Unscrambled(Scrambled(x)) == x
  {
    UndoesLeft8(Right9(Left7(x)));
    UndoesRight9(Left7(x));
    UndoesLeft7(x);
  }

  /** A state that is not zero never leads to zero. */
  lemma NeverZero(x: bv64)
    requires x != 0
    ensures Scrambled(x) != 0
  {
    ScrambledIsUndone(x);
    assert Unscrambled(0) == 0;
  }

  function Number(x: bv64): nat { x as nat }

  function Remainder(x: nat, n: nat): (r: nat)
    requires n > 0
    ensures r < n
  {
    x % n
  }

  /** The generator's next `n` numbers, the first reduced below `n + 1`, the next below `n`, and so on. */
  function Choices(state: bv64, n: nat): (choices: seq<nat>)
    ensures |choices| == n && AreChoices(choices)
    decreases n
  {
    if n == 0 then []
    else
      var rest := Choices(Scrambled(state), n - 1);
      FirstChoice(Remainder(Number(Scrambled(state)), n + 1), rest);
      [Remainder(Number(Scrambled(state)), n + 1)] + rest
  }

  function StateAfter(state: bv64, n: nat): bv64
    decreases n
  {
    if n == 0 then state else StateAfter(Scrambled(state), n - 1)
  }

  // ---- The shuffle ----

  function Swapped(s: seq<nat>, i: nat, j: nat): (t: seq<nat>)
    requires i < |s| && j < |s|
    ensures |t| == |s|
  {
    s[i := s[j]][j := s[i]]
  }

  /** The first choice is among all positions, each later one among one position fewer. */
  predicate AreChoices(choices: seq<nat>) {
    forall k :: 0 <= k < |choices| ==> choices[k] <= |choices| - k
  }

  lemma FirstChoice(j: nat, rest: seq<nat>)
    requires j <= |rest| + 1 && AreChoices(rest)
    ensures AreChoices([j] + rest)
  {
  }

  lemma LaterChoices(choices: seq<nat>)
    requires choices != [] && AreChoices(choices)
    ensures choices[0] <= |choices| && AreChoices(choices[1..]) && choices == [choices[0]] + choices[1..]
  {
  }

  /** From the last position down to the second, each is swapped with a chosen one that is not behind it. */
  function Shuffled(s: seq<nat>, choices: seq<nat>): (t: seq<nat>)
    requires AreChoices(choices) && (|choices| < |s| || choices == [])
    ensures |t| == |s|
    decreases |choices|
  {
    if choices == [] then s
    else
      LaterChoices(choices);
      Shuffled(Swapped(s, |choices|, choices[0]), choices[1..])
  }

  lemma {:induction false} LaterStays(s: seq<nat>, choices: seq<nat>, k: nat)
    requires AreChoices(choices) && |choices| < k < |s|
    ensures Shuffled(s, choices)[k] == s[k]
    decreases |choices|
  {
    if choices != [] {
      LaterChoices(choices);
      LaterStays(Swapped(s, |choices|, choices[0]), choices[1..], k);
    }
  }

  /** `t` rearranges the first `n + 1` elements of `s`. */
  ghost predicate RearrangesUpTo(s: seq<nat>, t: seq<nat>, n: nat) {
    && n < |s| == |t| && Distinct(s) && s[n + 1..] == t[n + 1..]
    && multiset(s[..n + 1]) == multiset(t[..n + 1])
  }

  lemma SwapRearranges(s: seq<nat>, t: seq<nat>, n: nat) returns (j: nat)
    requires RearrangesUpTo(s, t, n) && n > 0
    ensures j <= n && s[j] == t[n] && RearrangesUpTo(Swapped(s, n, j), t, n - 1)
  {
    assert t[n] in t[..n + 1] && t[n] in multiset(s[..n + 1]);
    j :| 0 <= j <= n && s[j] == t[n];
    TailsOfSwapped(s, t, n, j);
    HeadIsSwapped(s, n, j);
    LastTakenAway(Swapped(s, n, j), n);
    LastTakenAway(t, n);
  }

  lemma TailsOfSwapped(s: seq<nat>, t: seq<nat>, n: nat, j: nat)
    requires j <= n < |s| == |t| && s[n + 1..] == t[n + 1..] && s[j] == t[n] && Distinct(s)
    ensures Swapped(s, n, j)[n] == t[n] && Swapped(s, n, j)[n..] == t[n..] && Distinct(Swapped(s, n, j))
  {
    var u := Swapped(s, n, j);
    assert u[n..] == [u[n]] + u[n + 1..] && t[n..] == [t[n]] + t[n + 1..];
    assert u[n + 1..] == s[n + 1..];
  }

  lemma HeadIsSwapped(s: seq<nat>, n: nat, j: nat)
    requires j <= n < |s|
    ensures multiset(Swapped(s, n, j)[..n + 1]) == multiset(s[..n + 1])
  {
    var head := s[..n + 1];
    assert Swapped(s, n, j)[..n + 1] == head[n := head[j]][j := head[n]];
  }

  lemma LastTakenAway(s: seq<nat>, n: nat)
    requires n < |s|
    ensures multiset(s[..n]) == multiset(s[..n + 1]) - multiset{s[n]}
  {
    assert s[..n + 1] == s[..n] + [s[n]];
  }

  lemma RearrangesNothing(s: seq<nat>, t: seq<nat>)
    requires RearrangesUpTo(s, t, 0)
    ensures s == t
  {
    assert s == [s[0]] + s[1..] && t == [t[0]] + t[1..];
    assert s[..1] == [s[0]] && t[..1] == [t[0]];
    assert s[0] in multiset(t[..1]);
  }

  /** Every rearrangement comes out of exactly one sequence of choices: all orderings are reached, by equally many choices each. */
  lemma {:induction false} OneShuffleForEach(s: seq<nat>, t: seq<nat>, n: nat) returns (choices: seq<nat>)
    requires RearrangesUpTo(s, t, n)
    ensures |choices| == n && AreChoices(choices) && Shuffled(s, choices) == t
    ensures forall other :: |other| == n && AreChoices(other) && Shuffled(s, other) == t ==> other == choices
    decreases n
  {
    if n == 0 {
      RearrangesNothing(s, t);
      return [];
    }
    var j := SwapRearranges(s, t, n);
    var rest := OneShuffleForEach(Swapped(s, n, j), t, n - 1);
    choices := [j] + rest;
    FirstChoice(j, rest);
    assert choices[1..] == rest;
    forall other | |other| == n && AreChoices(other) && Shuffled(s, other) == t ensures other == choices {
      FirstChoiceIs(s, t, n, j, other);
    }
  }

  lemma FirstChoiceIs(s: seq<nat>, t: seq<nat>, n: nat, j: nat, other: seq<nat>)
    requires 0 < n < |s| && Distinct(s) && j <= n && |t| == |s| && s[j] == t[n]
    requires |other| == n && AreChoices(other) && Shuffled(s, other) == t
    ensures other[0] == j && AreChoices(other[1..]) && Shuffled(Swapped(s, n, j), other[1..]) == t && other == [j] + other[1..]
  {
    LaterChoices(other);
    LaterStays(Swapped(s, n, other[0]), other[1..], n);
  }
}
