/** Unsigned machine words as natural numbers, with their bitwise operations. */
module Bits {
  function Pow2(e: nat): (p: nat)
    ensures p >= 1
  {
    if e == 0 then 1 else 2 * Pow2(e - 1)
  }

  /** Bit `i` of `w`, least significant first. */
  predicate Bit(w: nat, i: nat) {
    if i == 0 then w % 2 == 1 else Bit(w / 2, i - 1)
  }

  /** The word `a & b`. */
  function And(a: nat, b: nat): (r: nat)
    ensures r <= a && r <= b
  {
    if a == 0 || b == 0 then 0 else 2 * And(a / 2, b / 2) + if a % 2 == 1 && b % 2 == 1 then 1 else 0
  }

  /** The word `a ^ b`. */
  function Xor(a: nat, b: nat): (r: nat) {
    if a == 0 && b == 0 then 0 else 2 * Xor(a / 2, b / 2) + if a % 2 == b % 2 then 0 else 1
  }

  /** The word `w | (1 << i)`. */
  function SetBit(w: nat, i: nat): (r: nat)
  {
    if i == 0 then w / 2 * 2 + 1 else 2 * SetBit(w / 2, i - 1) + w % 2
  }

  /** The word `w & !(1 << i)`. */
  function ClearBit(w: nat, i: nat): (r: nat)
    ensures r <= w
  {
    if i == 0 then w / 2 * 2 else 2 * ClearBit(w / 2, i - 1) + w % 2
  }

  /** The index of the lowest set bit. */
  function TrailingZeros(w: nat): (i: nat)
    requires w != 0
    ensures Bit(w, i)
  {
    if w % 2 == 1 then 0 else 1 + TrailingZeros(w / 2)
  }

  lemma {:induction false} ZeroHasNoBit(i: nat)
    ensures !Bit(0, i)
  {
    if i > 0 { ZeroHasNoBit(i - 1); }
  }

  lemma {:induction false} AndBit(a: nat, b: nat, i: nat)
    ensures Bit(And(a, b), i) <==> Bit(a, i) && Bit(b, i)
  {
    if a == 0 || b == 0 {
      ZeroHasNoBit(i);
    } else if i > 0 {
      AndBit(a / 2, b / 2, i - 1);
      assert And(a, b) / 2 == And(a / 2, b / 2);
    }
  }

  lemma {:induction false} SetBitBit(w: nat, j: nat, i: nat)
    ensures Bit(SetBit(w, j), i) <==> i == j || Bit(w, i)
  {
    if i > 0 && j > 0 {
      SetBitBit(w / 2, j - 1, i - 1);
      assert SetBit(w, j) / 2 == SetBit(w / 2, j - 1);
    } else if i > 0 {
      assert SetBit(w, j) / 2 == w / 2;
    }
  }

  lemma {:induction false} ClearBitBit(w: nat, j: nat, i: nat)
    ensures Bit(ClearBit(w, j), i) <==> i != j && Bit(w, i)
  {
    if i > 0 && j > 0 {
      ClearBitBit(w / 2, j - 1, i - 1);
      assert ClearBit(w, j) / 2 == ClearBit(w / 2, j - 1);
    } else if i > 0 {
      assert ClearBit(w, j) / 2 == w / 2;
    }
  }

  /** A word of `n` bits has no bit from `n` on, and stays one under `SetBit` below `n`. */
  lemma {:induction false} BitBelowWidth(w: nat, n: nat, i: nat)
    requires w < Pow2(n) && Bit(w, i)
    ensures i < n
  {
    if n == 0 {
      ZeroHasNoBit(i);
    } else if i > 0 {
      BitBelowWidth(w / 2, n - 1, i - 1);
    }
  }

  lemma {:induction false} SetBitFits(w: nat, n: nat, i: nat)
    requires w < Pow2(n) && i < n
    ensures SetBit(w, i) < Pow2(n)
  {
    var p := Pow2(n - 1);
    assert Pow2(n) == 2 * p;
    assert w / 2 < p;
    if i > 0 {
      SetBitFits(w / 2, n - 1, i - 1);
      assert SetBit(w / 2, i - 1) < p;
    }
  }

  /** `w & (w - 1)` drops exactly the lowest set bit. */
  lemma {:induction false} DropLowest(w: nat)
    requires w != 0
    ensures And(w, w - 1) == ClearBit(w, TrailingZeros(w)) < w
  {
    if w % 2 == 1 {
      AndSelf(w / 2);
      assert (w - 1) / 2 == w / 2;
    } else {
      DropLowest(w / 2);
      assert (w - 1) / 2 == w / 2 - 1 && (w - 1) % 2 == 1;
    }
  }

  lemma {:induction false} AndSelf(w: nat)
    ensures And(w, w) == w
  {
    if w != 0 { AndSelf(w / 2); }
  }

  lemma {:induction false} LowestIsLeast(w: nat, i: nat)
    requires w != 0 && Bit(w, i)
    ensures TrailingZeros(w) <= i
  {
    if w % 2 == 0 { LowestIsLeast(w / 2, i - 1); }
  }

  lemma {:induction false} XorFits(a: nat, b: nat, n: nat)
    requires a < Pow2(n) && b < Pow2(n)
    ensures Xor(a, b) < Pow2(n)
  {
    if n > 0 { XorFits(a / 2, b / 2, n - 1); }
  }

  lemma XorDigits(a: nat, b: nat)
    ensures Xor(a, b) / 2 == Xor(a / 2, b / 2)
    ensures Xor(a, b) % 2 == (if a % 2 == b % 2 then 0 else 1)
  {
    var digit := if a % 2 == b % 2 then 0 else 1;
    assert Xor(a, b) == 2 * Xor(a / 2, b / 2) + digit;
  }

  lemma {:induction false} XorWithZero(a: nat)
    ensures Xor(a, 0) == a
  {
    if a != 0 { XorWithZero(a / 2); }
  }

  lemma {:induction false} XorIsSymmetric(a: nat, b: nat)
    ensures Xor(a, b) == Xor(b, a)
  {
    if a != 0 || b != 0 { XorIsSymmetric(a / 2, b / 2); }
  }

  lemma {:induction false} XorIsInjective(a: nat, b: nat, c: nat)
    requires Xor(a, c) == Xor(b, c)
    ensures a == b
  {
    XorDigits(a, c);
    XorDigits(b, c);
    if a != 0 || b != 0 { XorIsInjective(a / 2, b / 2, c / 2); }
  }

  // ---- Masking by a power of two ----

  /** The low digits of a sum without carries depend on the low digits only. */
  lemma {:induction false} XorOfResidues(a: nat, b: nat, e: nat)
    ensures Residue(Xor(a, b), Pow2(e)) == Xor(Residue(a, Pow2(e)), Residue(b, Pow2(e)))
  {
    if e == 0 {
      ResidueOfOne(a);
      ResidueOfOne(b);
      ResidueOfOne(Xor(a, b));
    } else {
      XorOfResidues(a / 2, b / 2, e - 1);
      LastDigit(a, e);
      LastDigit(b, e);
      LastDigit(Xor(a, b), e);
      XorDigits(a, b);
      XorDigits(Residue(a, Pow2(e)), Residue(b, Pow2(e)));
    }
  }

  lemma LastDigit(n: nat, e: nat)
    requires e > 0
    ensures Residue(n, Pow2(e)) / 2 == Residue(n / 2, Pow2(e - 1)) && Residue(n, Pow2(e)) % 2 == n % 2
  {
    ResidueHalves(n, Pow2(e - 1));
  }

  lemma {:induction false} ResidueOfOne(n: nat)
    ensures Residue(n, 1) == 0
  {
    if n > 0 { ResidueOfOne(n - 1); }
  }

  lemma {:induction false} ResidueOfEight(n: nat)
    ensures Residue(n, 8) == n % 8
  {
    if n >= 8 { ResidueOfEight(n - 8); }
  }

  /** The residue of `n`, by repeated subtraction. */
  function Residue(n: nat, m: nat): (r: nat)
    requires m > 0
    ensures r < m
  {
    if n < m then n else Residue(n - m, m)
  }

  lemma {:induction false} ResidueHalves(n: nat, p: nat)
    requires p > 0
    ensures Residue(n, 2 * p) == 2 * Residue(n / 2, p) + n % 2
  {
    if n >= 2 * p { ResidueHalves(n - 2 * p, p); }
  }

  /** `n & (2^e - 1)` is the residue of `n` modulo `2^e`. */
  lemma {:induction false} MaskIsResidue(n: nat, e: nat)
    ensures And(n, Pow2(e) - 1) == Residue(n, Pow2(e))
  {
    if e > 0 {
      MaskIsResidue(n / 2, e - 1);
      ResidueHalves(n, Pow2(e - 1));
      MaskHalves(e);
      AndDigits(n, Pow2(e) - 1);
    }
  }

  lemma MaskHalves(e: nat)
    requires e > 0
    ensures (Pow2(e) - 1) / 2 == Pow2(e - 1) - 1 && (Pow2(e) - 1) % 2 == 1
  {
  }

  lemma AndDigits(a: nat, b: nat)
    requires b % 2 == 1
    ensures And(a, b) == 2 * And(a / 2, b / 2) + a % 2
  {
  }

  lemma {:induction false} ResidueShift(n: nat, e: nat, d: nat)
    ensures Residue(n + Pow2(e + d), Pow2(e)) == Residue(n, Pow2(e))
    decreases d
  {
    if d > 0 {
      ResidueShift(n + Pow2(e + d - 1), e, d - 1);
      ResidueShift(n, e, d - 1);
    }
  }

  /** Residues distinguish numbers less than the modulus apart. */
  lemma {:induction false} ResiduesDiffer(a: nat, b: nat, m: nat)
    requires m > 0 && a < b < a + m
    ensures Residue(a, m) != Residue(b, m)
  {
    if a >= m { ResiduesDiffer(a - m, b - m, m); }
  }
}
