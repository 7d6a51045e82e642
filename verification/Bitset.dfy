/** The growable presence bitmask (src/kernel/ecs/bitset.rs). */
module Bitset {
  import opened Bits

  /** Bit `index` of a vector of 64-bit words. */
  predicate HasBit(words: seq<nat>, index: nat) {
    index / 64 < |words| && Bit(words[index / 64], index % 64)
  }

  predicate WordsOk(words: seq<nat>) {
    forall w :: 0 <= w < |words| ==> words[w] < Pow2(64)
  }

  /** The vector grown so that `index` has a word. */
  function Reserved(words: seq<nat>, index: nat): (r: seq<nat>)
    ensures index / 64 < |r|
  {
    var count := (index + 1 + 63) / 64;
    if |words| < count then words + seq(count - |words|, _ => 0) else words
  }

  function WithBit(words: seq<nat>, index: nat): seq<nat> {
    var r, w := Reserved(words, index), index / 64;
    r[w := SetBit(r[w], index % 64)]
  }

  function WithoutBit(words: seq<nat>, index: nat): seq<nat> {
    var w := index / 64;
    if w >= |words| then words else words[w := ClearBit(words[w], index % 64)]
  }

  /** Growing changes no bit. */
  lemma ReservedBits(words: seq<nat>, index: nat)
    requires WordsOk(words)
    ensures WordsOk(Reserved(words, index))
    ensures forall i: nat :: HasBit(Reserved(words, index), i) <==> HasBit(words, i)
  {
    forall i: nat ensures HasBit(Reserved(words, index), i) <==> HasBit(words, i) {
      ZeroHasNoBit(i % 64);
    }
  }

  /** Setting changes exactly one bit. */
  lemma WithBitBits(words: seq<nat>, index: nat)
    requires WordsOk(words)
    ensures WordsOk(WithBit(words, index))
    ensures forall i: nat :: HasBit(WithBit(words, index), i) <==> i == index || HasBit(words, i)
  {
    var r, w := Reserved(words, index), index / 64;
    ReservedBits(words, index);
    SetBitFits(r[w], 64, index % 64);
    forall i: nat ensures HasBit(WithBit(words, index), i) <==> i == index || HasBit(r, i) {
      SetBitBit(r[w], index % 64, i % 64);
    }
  }

  /** Clearing changes exactly one bit. */
  lemma WithoutBitBits(words: seq<nat>, index: nat)
    requires WordsOk(words)
    ensures WordsOk(WithoutBit(words, index))
    ensures forall i: nat :: HasBit(WithoutBit(words, index), i) <==> i != index && HasBit(words, i)
  {
    if index / 64 < |words| {
      forall i: nat ensures HasBit(WithoutBit(words, index), i) <==> i != index && HasBit(words, i) {
        ClearBitBit(words[index / 64], index % 64, i % 64);
      }
    }
  }

  class Bitset {
    var words: seq<nat>

    constructor ()
      ensures words == []
    {
      words := [];
    }

    method Ensure(index: nat)
      modifies this
      ensures words == Reserved(old(words), index)
    {
      var count := (index + 1 + 63) / 64;
      if count > |words| {
        words := words + seq(count - |words|, _ => 0);
      }
    }

    /** Sets one bit and answers whether it was clear. */
    method Set(index: nat) returns (added: bool)
      requires WordsOk(words)
      modifies this
      ensures words == WithBit(old(words), index) && added == !HasBit(old(words), index)
    {
      ReservedBits(words, index);
      Ensure(index);
      var w, bit := index / 64, index % 64;
      added := !Bit(words[w], bit);
      assert added == !HasBit(words, index);
      words := words[w := SetBit(words[w], bit)];
    }

    /** Clears one bit and answers whether it was set. */
    method Clear(index: nat) returns (removed: bool)
      modifies this
      ensures words == WithoutBit(old(words), index) && removed == HasBit(old(words), index)
    {
      var w, bit := index / 64, index % 64;
      if w >= |words| {
        return false;
      }
      removed := Bit(words[w], bit);
      words := words[w := ClearBit(words[w], bit)];
    }
  }

  // ---- Reading words bit by bit ----

  /** The indices of a word's set bits, lowest first, by repeatedly dropping the lowest. */
  function Ones(word: nat, base: nat): seq<nat>
    decreases word
  {
    if word == 0 then []
    else
      DropLowest(word);
      [base + TrailingZeros(word)] + Ones(And(word, word - 1), base)
  }

  ghost predicate Ascending(s: seq<nat>) {
    forall i, j :: 0 <= i < j < |s| ==> s[i] < s[j]
  }

  predicate BitFrom(word: nat, base: nat, i: nat) {
    i >= base && Bit(word, i - base)
  }

  /** The loop visits exactly the set bits, in ascending order. */
  lemma {:induction false} OnesAreTheBits(word: nat, base: nat)
    ensures Ascending(Ones(word, base))
    ensures forall i: nat :: i in Ones(word, base) <==> BitFrom(word, base, i)
    decreases word
  {
    if word == 0 {
      forall i: nat ensures !BitFrom(0, base, i) {
        if i >= base { ZeroHasNoBit(i - base); }
      }
    } else {
      var tz, rest := TrailingZeros(word), And(word, word - 1);
      DropLowest(word);
      OnesAreTheBits(rest, base);
      var ones := Ones(rest, base);
      forall i: nat ensures BitFrom(word, base, i) <==> i == base + tz || BitFrom(rest, base, i) {
        if i >= base { ClearBitBit(word, tz, i - base); }
      }
      forall i | 0 <= i < |ones| ensures base + tz < ones[i] {
        assert ones[i] in ones;
        LaterBitIsAbove(word, ones[i] - base);
      }
    }
  }

  lemma LaterBitIsAbove(word: nat, i: nat)
    requires word != 0 && Bit(And(word, word - 1), i)
    ensures TrailingZeros(word) < i
  {
    DropLowest(word);
    ClearBitBit(word, TrailingZeros(word), i);
    LowestIsLeast(word, i);
  }

  /** All set bits of the first `n` words. */
  function OnesUpTo(words: seq<nat>, n: nat): seq<nat>
    requires n <= |words|
  {
    if n == 0 then [] else OnesUpTo(words, n - 1) + Ones(words[n - 1], (n - 1) * 64)
  }

  lemma BitsOfWord(words: seq<nat>, n: nat, i: nat)
    requires n < |words| && WordsOk(words)
    ensures BitFrom(words[n], n * 64, i) <==> n * 64 <= i < (n + 1) * 64 && HasBit(words, i)
  {
    if BitFrom(words[n], n * 64, i) {
      BitBelowWidth(words[n], 64, i - n * 64);
    }
    if n * 64 <= i < (n + 1) * 64 {
      assert i / 64 == n && i % 64 == i - n * 64;
    }
  }

  lemma {:induction false} OnesUpToAreTheBits(words: seq<nat>, n: nat)
    requires n <= |words| && WordsOk(words)
    ensures Ascending(OnesUpTo(words, n))
    ensures forall i: nat :: i in OnesUpTo(words, n) <==> i < n * 64 && HasBit(words, i)
  {
    if n > 0 {
      OnesUpToAreTheBits(words, n - 1);
      var before, last, base := OnesUpTo(words, n - 1), Ones(words[n - 1], (n - 1) * 64), (n - 1) * 64;
      OnesAreTheBits(words[n - 1], base);
      forall i: nat ensures i in last <==> base <= i < n * 64 && HasBit(words, i) {
        BitsOfWord(words, n - 1, i);
      }
      forall i, j | 0 <= i < j < |before + last| ensures (before + last)[i] < (before + last)[j] {
        if i < |before| { assert before[i] in before; }
        if j >= |before| { assert last[j - |before|] in last; }
      }
    }
  }

  /** The loop over the set bits of one word. */
  method CollectWord(word: nat, base: nat) returns (out: seq<nat>)
    ensures out == Ones(word, base)
  {
    out := [];
    var mask := word;
    while mask != 0
      invariant out + Ones(mask, base) == Ones(word, base)
      decreases mask
    {
      var bit := TrailingZeros(mask);
      DropLowest(mask);
      var rest := And(mask, mask - 1);
      Regroup(out, [base + bit], Ones(rest, base));
      out, mask := out + [base + bit], rest;
    }
  }

  lemma Regroup(a: seq<nat>, b: seq<nat>, c: seq<nat>)
    ensures a + (b + c) == a + b + c
  {
  }

  /** The word loop over one vector. */
  method CollectOnes(words: seq<nat>) returns (out: seq<nat>)
    requires WordsOk(words)
    ensures Ascending(out) && forall i: nat :: i in out <==> HasBit(words, i)
  {
    out := [];
    for w := 0 to |words|
      invariant out == OnesUpTo(words, w)
    {
      var ones := CollectWord(words[w], w * 64);
      out := out + ones;
    }
    OnesUpToAreTheBits(words, |words|);
  }

  /** The word-wise intersection of two vectors. */
  function Meet(a: seq<nat>, b: seq<nat>): (m: seq<nat>)
    ensures |m| == if |a| < |b| then |a| else |b|
  {
    seq(if |a| < |b| then |a| else |b|, w requires 0 <= w < |a| && w < |b| => And(a[w], b[w]))
  }

  lemma MeetBits(a: seq<nat>, b: seq<nat>)
    requires WordsOk(a) && WordsOk(b)
    ensures WordsOk(Meet(a, b))
    ensures forall i: nat :: HasBit(Meet(a, b), i) <==> HasBit(a, i) && HasBit(b, i)
  {
    forall i: nat ensures HasBit(Meet(a, b), i) <==> HasBit(a, i) && HasBit(b, i) {
      if i / 64 < |a| && i / 64 < |b| {
        AndBit(a[i / 64], b[i / 64], i % 64);
      }
    }
  }
}
