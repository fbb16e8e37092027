/**
  Powers of two, single-bit xor and alignment: the index arithmetic of the
  buddy allocator. Everything is defined bit by bit, so that proofs halve
  their arguments and never multiply two unknowns.
 */
module Dyadic {

  function Pow2(o: nat): (r: nat)
    ensures r >= 1
  {
    if o == 0 then 1 else 2 * Pow2(o - 1)
  }

  // Bitwise exclusive or of two naturals, as the C operator `^` computes it.
  function Xor(a: nat, b: nat): nat {
    if a == 0 then b
    else if b == 0 then a
    else 2 * Xor(a / 2, b / 2) + (if a % 2 == b % 2 then 0 else 1)
  }

  // The index whose bit o is the other way round.
  function Flip(i: nat, o: nat): nat {
    if o == 0 then (if i % 2 == 0 then i + 1 else i - 1)
    else 2 * Flip(i / 2, o - 1) + i % 2
  }

  // The low o bits of i are all zero.
  predicate Aligned(i: nat, o: nat) {
    o == 0 || (i % 2 == 0 && Aligned(i / 2, o - 1))
  }

  lemma {:induction false} Pow2Monotone(a: nat, b: nat)
    requires a <= b
    ensures Pow2(a) <= Pow2(b)
    decreases b
  {
    if a < b {
      Pow2Monotone(a, b - 1);
    }
  }

  lemma {:induction false} Pow2Strict(a: nat, b: nat)
    requires a < b
    ensures 2 * Pow2(a) <= Pow2(b)
  {
    Pow2Monotone(a + 1, b);
  }

  // A set bit in one operand only: xor with 2^o flips bit o and nothing else.
  lemma {:induction false} XorFlips(i: nat, o: nat)
    ensures Xor(i, Pow2(o)) == Flip(i, o)
  {
    if i == 0 {
      FlipZero(o);
    } else if o > 0 {
      XorFlips(i / 2, o - 1);
      assert Pow2(o) / 2 == Pow2(o - 1);
    } else if i / 2 > 0 {
      assert Xor(i / 2, 0) == i / 2;
    }
  }

  lemma {:induction false} FlipZero(o: nat)
    ensures Flip(0, o) == Pow2(o)
  {
    if o > 0 { FlipZero(o - 1); }
  }

  lemma Twice(k: nat, p: nat)
    ensures k * (2 * p) == 2 * (k * p)
  {
  }

  lemma {:induction false} AlignedGives(i: nat, o: nat) returns (k: nat)
    requires Aligned(i, o)
    ensures i == k * Pow2(o)
  {
    if o == 0 {
      k := i;
    } else {
      k := AlignedGives(i / 2, o - 1);
      Twice(k, Pow2(o - 1));
    }
  }

  lemma {:induction false} MultipleAligned(k: nat, o: nat)
    ensures Aligned(k * Pow2(o), o)
  {
    if o > 0 {
      Twice(k, Pow2(o - 1));
      MultipleAligned(k, o - 1);
    }
  }

  // Alignment in the usual words: i is a multiple of 2^o.
  lemma AlignedIsMultiple(i: nat, o: nat)
    ensures Aligned(i, o) <==> exists k: nat :: i == k * Pow2(o)
  {
    hide Aligned, Pow2;
    if Aligned(i, o) { var k := AlignedGives(i, o); }
    if k: nat :| i == k * Pow2(o) { MultipleAligned(k, o); }
  }

  lemma Halve(j: nat, r: nat)
    requires r < 2
    ensures (2 * j + r) / 2 == j && (2 * j + r) % 2 == r
  {
  }

  lemma {:induction false} FlipTwice(i: nat, o: nat)
    ensures Flip(Flip(i, o), o) == i
    ensures Flip(i, o) != i
  {
    if o > 0 {
      FlipTwice(i / 2, o - 1);
      Halve(Flip(i / 2, o - 1), i % 2);
    }
  }

  lemma {:induction false} AlignedLower(i: nat, p: nat, o: nat)
    requires p <= o && Aligned(i, o)
    ensures Aligned(i, p)
  {
    if p > 0 { AlignedLower(i / 2, p - 1, o - 1); }
  }

  // The upper half of an aligned block is aligned to half its size.
  lemma {:induction false} UpperHalf(i: nat, o: nat)
    requires Aligned(i, o + 1)
    ensures Aligned(i, o) && Aligned(i + Pow2(o), o)
    ensures Flip(i, o) == i + Pow2(o)
    ensures Flip(i + Pow2(o), o) == i
  {
    if o > 0 {
      UpperHalf(i / 2, o - 1);
      assert (i + Pow2(o)) / 2 == i / 2 + Pow2(o - 1);
    }
  }

  // The lower of two buddies is where their common block begins.
  lemma {:induction false} ParentOf(i: nat, o: nat)
    requires Aligned(i, o)
    ensures var g := Flip(i, o);
            && Aligned(g, o)
            && (if i < g then Aligned(i, o + 1) && g == i + Pow2(o)
                else Aligned(g, o + 1) && i == g + Pow2(o))
  {
    if o > 0 { ParentOf(i / 2, o - 1); }
  }

  // Aligned blocks are nested or disjoint.
  lemma {:induction false} NestedOrDisjoint(i: nat, a: nat, j: nat, b: nat)
    requires a <= b && Aligned(i, a) && Aligned(j, b)
    ensures (j <= i && i + Pow2(a) <= j + Pow2(b))
         || i + Pow2(a) <= j
         || j + Pow2(b) <= i
  {
    if a > 0 {
      NestedOrDisjoint(i / 2, a - 1, j / 2, b - 1);
    }
  }
}
