/**
 Bitwise operators of C on non-negative integers, bit by bit, and the facts about
 single bits that the ready bitmaps, the event sets and the shell's operators use.
 */
module Bits {

  /** 2 to the power n; the value of the C expression 1 << n. */
  function Pow2(n: nat): (r: nat)
    ensures r > 0
  {
    if n == 0 then 1 else 2 * Pow2(n - 1)
  }

  /** Is bit i of v set? */
  predicate Bit(v: nat, i: nat) {
    if i == 0 then v % 2 == 1 else Bit(v / 2, i - 1)
  }

  /** v | w */
  function Or(v: nat, w: nat): nat {
    if v == 0 then w
    else if w == 0 then v
    else 2 * Or(v / 2, w / 2) + (if v % 2 == 1 || w % 2 == 1 then 1 else 0)
  }

  /** v & w */
  function And(v: nat, w: nat): nat {
    if v == 0 || w == 0 then 0
    else 2 * And(v / 2, w / 2) + (if v % 2 == 1 && w % 2 == 1 then 1 else 0)
  }

  /** v ^ w */
  function Xor(v: nat, w: nat): nat {
    if v == 0 then w
    else if w == 0 then v
    else 2 * Xor(v / 2, w / 2) + (if v % 2 != w % 2 then 1 else 0)
  }

  /** v & ~w */
  function AndNot(v: nat, w: nat): nat {
    if v == 0 then 0
    else if w == 0 then v
    else 2 * AndNot(v / 2, w / 2) + (if v % 2 == 1 && w % 2 == 0 then 1 else 0)
  }

  lemma {:induction false} ZeroHasNoBit(i: nat)
    ensures !Bit(0, i)
  {
    if i > 0 {
      ZeroHasNoBit(i - 1);
    }
  }

  lemma {:induction false} BitOfPow2(n: nat, i: nat)
    ensures Bit(Pow2(n), i) <==> i == n
  {
    if n == 0 {
      if i > 0 {
        ZeroHasNoBit(i - 1);
      }
    } else if i > 0 {
      BitOfPow2(n - 1, i - 1);
    }
  }

  lemma {:induction false} BitOfOr(v: nat, w: nat, i: nat)
    ensures Bit(Or(v, w), i) <==> Bit(v, i) || Bit(w, i)
  {
    ZeroHasNoBit(i);
    if v != 0 && w != 0 && i > 0 {
      BitOfOr(v / 2, w / 2, i - 1);
    }
  }

  lemma {:induction false} BitOfAnd(v: nat, w: nat, i: nat)
    ensures Bit(And(v, w), i) <==> Bit(v, i) && Bit(w, i)
  {
    ZeroHasNoBit(i);
    if v != 0 && w != 0 && i > 0 {
      BitOfAnd(v / 2, w / 2, i - 1);
    }
  }

  lemma {:induction false} BitOfXor(v: nat, w: nat, i: nat)
    ensures Bit(Xor(v, w), i) <==> Bit(v, i) != Bit(w, i)
  {
    ZeroHasNoBit(i);
    if v != 0 && w != 0 && i > 0 {
      BitOfXor(v / 2, w / 2, i - 1);
    }
  }

  lemma {:induction false} BitOfAndNot(v: nat, w: nat, i: nat)
    ensures Bit(AndNot(v, w), i) <==> Bit(v, i) && !Bit(w, i)
  {
    ZeroHasNoBit(i);
    if v != 0 && w != 0 && i > 0 {
      BitOfAndNot(v / 2, w / 2, i - 1);
    }
  }

  /** A number with no bit set is zero. */
  lemma {:induction false} NoBitsIsZero(v: nat)
    requires forall i: nat :: !Bit(v, i)
    ensures v == 0
  {
    if v != 0 {
      assert !Bit(v, 0);
      forall i: nat
        ensures !Bit(v / 2, i)
      {
        assert !Bit(v, i + 1);
      }
      NoBitsIsZero(v / 2);
    }
  }

  /** Numbers with the same bits are equal. */
  lemma {:induction false} SameBits(v: nat, w: nat)
    requires forall i: nat :: Bit(v, i) <==> Bit(w, i)
    ensures v == w
  {
    if v == 0 {
      forall i: nat ensures !Bit(w, i) {
        ZeroHasNoBit(i);
      }
      NoBitsIsZero(w);
    } else {
      assert Bit(v, 0) <==> Bit(w, 0);
      forall i: nat
        ensures Bit(v / 2, i) <==> Bit(w / 2, i)
      {
        assert Bit(v, i + 1) <==> Bit(w, i + 1);
      }
      SameBits(v / 2, w / 2);
    }
  }

  lemma {:induction false} PowAdds(i: nat, j: nat)
    ensures Pow2(i) * Pow2(j) == Pow2(i + j)
    decreases i
  {
    if i > 0 {
      PowAdds(i - 1, j);
      assert Pow2(i) * Pow2(j) == 2 * (Pow2(i - 1) * Pow2(j));
    }
  }
}
