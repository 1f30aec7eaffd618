/**
 What the shell's operators compute, said without their definitions: bit by bit for the bitwise
 operators and the shifts, by counting for sums and products, by the division identity for quotients.
 */
module FinshArith {
  import opened FinshSyntax
  import opened FinshVm
  import Bits

  // ---- bits of a width -------------------------------------------------------------------

  function BitsOf(w: Width): nat {
    match w
    case B8 => 8
    case B16 => 16
    case B32 => 32
  }

  /** A width of n bits has 2^n values. */
  lemma Powers(w: Width)
    ensures Bits.Pow2(BitsOf(w)) == Modulus(w)
  {
    assert Bits.Pow2(8) == 0x100;
    Bits.PowAdds(8, 8);
    Bits.PowAdds(16, 16);
  }

  /** Bitwise operators stay within the bits of their operands. */
  lemma {:induction false} Stays(x: nat, y: nat, n: nat)
    requires x < Bits.Pow2(n) && y < Bits.Pow2(n)
    ensures Bits.Or(x, y) < Bits.Pow2(n) && Bits.And(x, y) < Bits.Pow2(n) && Bits.Xor(x, y) < Bits.Pow2(n)
    decreases n
  {
    if n > 0 && x != 0 && y != 0 {
      Stays(x / 2, y / 2, n - 1);
    }
  }

  lemma WrapSmall(w: Width, x: int)
    requires 0 <= x < Modulus(w)
    ensures Wrap(w, x) == x
  {
  }

  /** The bitwise operators, bit by bit; no bit above the width is set. */
  lemma BitwiseIs(env: Env, w: Width, x: Word, y: Word, i: nat)
    requires x < Modulus(w) && y < Modulus(w)
    ensures var r := Arith(env, Or, w, x, y); r.Some? && (Bits.Bit(r.value, i) <==> Bits.Bit(x, i) || Bits.Bit(y, i))
    ensures var r := Arith(env, And, w, x, y); r.Some? && (Bits.Bit(r.value, i) <==> Bits.Bit(x, i) && Bits.Bit(y, i))
    ensures var r := Arith(env, Xor, w, x, y); r.Some? && (Bits.Bit(r.value, i) <==> Bits.Bit(x, i) != Bits.Bit(y, i))
  {
    hide Wrap, Signed, Modulus;
    Powers(w);
    Stays(x, y, BitsOf(w));
    WrapSmall(w, Bits.Or(x, y));
    WrapSmall(w, Bits.And(x, y));
    WrapSmall(w, Bits.Xor(x, y));
    Bits.BitOfOr(x, y, i);
    Bits.BitOfAnd(x, y, i);
    Bits.BitOfXor(x, y, i);
  }

  lemma {:induction false} BitOfRest(x: nat, n: nat, i: nat)
    requires x < Bits.Pow2(n) && i < n
    ensures Bits.Bit(Bits.Pow2(n) - 1 - x, i) <==> !Bits.Bit(x, i)
    decreases n
  {
    var y := Bits.Pow2(n) - 1 - x;
    assert y / 2 == Bits.Pow2(n - 1) - 1 - x / 2 && y % 2 == 1 - x % 2;
    if i > 0 {
      BitOfRest(x / 2, n - 1, i - 1);
    }
  }

  /** The complement, bit by bit. */
  lemma ComplementIs(w: Width, x: Word, i: nat)
    requires x < Modulus(w) && i < BitsOf(w)
    ensures Bits.Bit(Complemented(w, x), i) <==> !Bits.Bit(x, i)
  {
    hide Modulus;
    Powers(w);
    BitOfRest(x, BitsOf(w), i);
  }

  // ---- sums, differences, products -------------------------------------------------------

  /** The next number of a width, zero after the last. */
  function Successor(w: Width, x: Word): (r: Word)
    requires x < Modulus(w)
    ensures r < Modulus(w)
  {
    if x + 1 == Modulus(w) then 0 else x + 1
  }

  /** y times the next number. */
  function Counted(w: Width, x: Word, y: nat): (r: Word)
    requires x < Modulus(w)
    ensures r < Modulus(w)
  {
    if y == 0 then x else Successor(w, Counted(w, x, y - 1))
  }

  lemma {:induction false} CountedIs(w: Width, x: Word, y: nat)
    requires x < Modulus(w) && y < Modulus(w)
    ensures Counted(w, x, y) == Wrap(w, x + y)
    decreases y
  {
    if y == 0 {
      WrapSmall(w, x);
    } else {
      CountedIs(w, x, y - 1);
      WrapNext(w, x + y - 1);
    }
  }

  lemma WrapNext(w: Width, x: int)
    requires 0 <= x < 2 * Modulus(w)
    ensures Wrap(w, x + 1) == Successor(w, Wrap(w, x))
  {
    var m := Modulus(w);
    if x < m {
      WrapSmall(w, x);
    } else {
      WrapOnce(w, x);
    }
    if x + 1 < m {
      WrapSmall(w, x + 1);
    } else if x + 1 < 2 * m {
      WrapOnce(w, x + 1);
    } else {
      WrapTwice(w);
    }
  }

  lemma WrapOnce(w: Width, x: int)
    requires Modulus(w) <= x < 2 * Modulus(w)
    ensures Wrap(w, x) == x - Modulus(w)
  {
  }

  lemma WrapTwice(w: Width)
    ensures Wrap(w, 2 * Modulus(w)) == 0
  {
  }

  /** A sum is reached by counting. */
  lemma SumCounts(env: Env, w: Width, x: Word, y: Word)
    requires x < Modulus(w) && y < Modulus(w)
    ensures Arith(env, Add, w, x, y) == Some(Counted(w, x, y))
  {
    hide Signed, Counted, Wrap, Modulus;
    CountedIs(w, x, y);
  }

  lemma WrapBack(w: Width, x: Word, y: Word)
    requires x < Modulus(w) && y < Modulus(w)
    ensures Wrap(w, Wrap(w, x - y) + y) == x
  {
    var m := Modulus(w);
    assert Wrap(w, x - y) == if x >= y then x - y else x - y + m;
  }

  /** A difference is what the sum undoes. */
  lemma SumUndoesDifference(env: Env, w: Width, x: Word, y: Word)
    requires x < Modulus(w) && y < Modulus(w)
    ensures var d := Arith(env, Sub, w, x, y); d.Some? && Arith(env, Add, w, d.value, y) == Some(x)
  {
    hide Signed, Wrap, Modulus;
    WrapBack(w, x, y);
  }

  /** x added y times. */
  function Repeated(env: Env, w: Width, x: Word, y: nat): (r: Option<Word>)
    requires x < Modulus(w)
    ensures r.Some? ==> r.value < Modulus(w)
  {
    if y == 0 then Some(0)
    else
      var r := Repeated(env, w, x, y - 1);
      if r.None? then None else Arith(env, Add, w, r.value, x)
  }

  lemma WrapStep(w: Width, a: int, x: int)
    ensures Wrap(w, Wrap(w, a) + x) == Wrap(w, a + x)
  {
    var m := Modulus(w);
    var q := a / m;
    assert a == m * q + Wrap(w, a);
    assert a + x == m * q + (Wrap(w, a) + x);
    ModShift(m, q, Wrap(w, a) + x);
  }

  lemma ModShift(m: nat, q: int, r: int)
    requires m > 0
    ensures (m * q + r) % m == r % m
  {
    var a := r / m;
    assert m * q + r == m * (q + a) + r % m;
    RemainderIs(m, q + a, r % m);
  }

  lemma Product(m: nat, d: int)
    ensures d >= 1 ==> m * d >= m
    ensures d <= -1 ==> m * d <= 0 - m
  {
  }

  lemma RemainderIs(m: nat, q: int, r: int)
    requires 0 <= r < m
    ensures (m * q + r) % m == r
  {
    var x := m * q + r;
    var d := x / m - q;
    assert x == m * (x / m) + x % m;
    assert m * d == r - x % m;
    Product(m, d);
  }

  /** A product is a repeated sum. */
  lemma {:induction false} ProductRepeats(env: Env, w: Width, x: Word, y: Word)
    requires x < Modulus(w) && y < Modulus(w)
    ensures Arith(env, Mul, w, x, y) == Repeated(env, w, x, y)
    decreases y
  {
    hide Signed, Wrap, Modulus;
    if y == 0 {
      ProductOfZero(env, w, x);
    } else {
      ProductRepeats(env, w, x, y - 1);
      WrapStep(w, x * (y - 1), x);
      assert x * (y - 1) + x == x * y;
    }
  }

  lemma ProductOfZero(env: Env, w: Width, x: Word)
    requires x < Modulus(w)
    ensures Arith(env, Mul, w, x, 0) == Some(0)
  {
  }

  // ---- quotients and remainders ----------------------------------------------------------

  /** The signed reading of a width: the same bits, from minus half the values up. */
  lemma SignedIs(env: Env, w: Width, x: Word)
    requires x < Modulus(w)
    ensures var sx := Signed(env, w, x);
            && (sx == x || sx == x - Modulus(w)) && Wrap(w, sx) == x
            && (if w == B8 && !env.charSigned then 0 <= sx < Modulus(w) else -Modulus(w) <= 2 * sx < Modulus(w))
  {
  }

  function Magnitude(y: int): nat {
    if y < 0 then -y else y
  }

  /** Division in C: the remainder is smaller than the divisor and has the sign of the dividend. */
  predicate Divides(x: int, y: int, q: int, r: int) {
    x == q * y + r && Magnitude(r) < Magnitude(y) && (r != 0 ==> (r < 0 <==> x < 0))
  }

  lemma NatDivision(a: nat, b: nat)
    requires b > 0
    ensures a == b * (a / b) + a % b && 0 <= a % b < b && 0 <= a / b <= a
    ensures b >= 2 && a > 0 ==> a / b < a
  {
    NotNegative(b, a / b, a % b);
    Dominates(a, b, a / b, a % b);
  }

  lemma NotNegative(b: nat, q: int, r: int)
    requires b > 0 && 0 <= r < b && b * q + r >= 0
    ensures q >= 0
  {
    Product(b, q);
  }

  lemma Dominates(a: nat, b: nat, q: nat, r: nat)
    requires b > 0 && a == b * q + r
    ensures q <= a && (b >= 2 && a > 0 ==> q < a)
  {
    NoLess(b, q);
    if b >= 2 {
      NoLess(b - 1, q);
      assert b * q == (b - 1) * q + q;
    }
  }

  lemma NoLess(b: int, q: int)
    requires b >= 1 && q >= 0
    ensures b * q >= q
    ensures q >= 1 ==> b * q >= b
  {
  }

  /** The quotient of the magnitudes, with the sign of the operands. */
  lemma QuotientParts(x: int, y: int)
    requires y != 0
    ensures var n: int := Magnitude(x) / Magnitude(y);
            Quotient(x, y) == if (x < 0) == (y < 0) then n else 0 - n
  {
  }

  lemma SignedProduct(x: int, y: int, n: int, r: int)
    requires Magnitude(x) == Magnitude(y) * n + r
    ensures var q := if (x < 0) == (y < 0) then n else 0 - n;
            x - y * q == if x < 0 then 0 - r else r
  {
  }

  lemma QuotientIs(x: int, y: int)
    requires y != 0
    ensures Divides(x, y, Quotient(x, y), x - y * Quotient(x, y))
  {
    hide Quotient;
    var a, b := Magnitude(x), Magnitude(y);
    NatDivision(a, b);
    QuotientParts(x, y);
    SignedProduct(x, y, a / b, a % b);
  }

  /** There is only one such quotient. */
  lemma DividesOnce(x: int, y: int, q: int, r: int, q': int, r': int)
    requires y != 0 && Divides(x, y, q, r) && Divides(x, y, q', r')
    ensures q == q' && r == r'
  {
    assert (q - q') * y == r' - r;
    if q > q' {
      assert Magnitude((q - q') * y) >= Magnitude(y) by { Larger(q - q', y); }
    } else if q < q' {
      assert (q' - q) * y == r - r';
      assert Magnitude((q' - q) * y) >= Magnitude(y) by { Larger(q' - q, y); }
    }
  }

  lemma Larger(d: int, y: int)
    requires d >= 1
    ensures Magnitude(d * y) >= Magnitude(y)
  {
    assert d * y == (d - 1) * y + y;
  }

  lemma SignedOfWrap(env: Env, w: Width, v: int)
    requires if w == B8 && !env.charSigned then 0 <= v < Modulus(w) else -Modulus(w) <= 2 * v < Modulus(w)
    ensures Signed(env, w, Wrap(w, v)) == v
  {
  }

  /** Quotient and remainder are undefined exactly for the divisor zero and the one overflow; otherwise
      they are those of C on the signed operands. */
  lemma QuotientAndRemainder(env: Env, w: Width, x: Word, y: Word)
    requires x < Modulus(w) && y < Modulus(w)
    ensures var sx, sy := Signed(env, w, x), Signed(env, w, y);
            var d, m := Arith(env, Div, w, x, y), Arith(env, Mod, w, x, y);
            && (d.None? <==> sy == 0 || (sx == -0x8000_0000 && sy == -1)) && (m.None? <==> d.None?)
            && (d.Some? ==> exists q :: Divides(sx, sy, q, Signed(env, w, m.value)) && d.value == Wrap(w, q)
                                        && (Signed(env, w, d.value) == q || (2 * sx == -Modulus(w) && sy == -1)))
  {
    hide Signed, Wrap, Modulus, Quotient, Divides;
    var sx, sy := Signed(env, w, x), Signed(env, w, y);
    SignedIs(env, w, x);
    SignedIs(env, w, y);
    if Arith(env, Div, w, x, y).Some? {
      var q := Quotient(sx, sy);
      var r := sx - sy * q;
      QuotientIs(sx, sy);
      RemainderFits(env, w, sx, sy, q, r);
      SignedOfWrap(env, w, r);
      if !(2 * sx == -Modulus(w) && sy == -1) {
        SignedOfWrap(env, w, q);
      }
    }
  }

  lemma RemainderFits(env: Env, w: Width, sx: int, sy: int, q: int, r: int)
    requires Divides(sx, sy, q, r)
    requires if w == B8 && !env.charSigned then 0 <= sx < Modulus(w) && 0 <= sy < Modulus(w)
             else -Modulus(w) <= 2 * sx < Modulus(w) && -Modulus(w) <= 2 * sy < Modulus(w)
    ensures if w == B8 && !env.charSigned then 0 <= r < Modulus(w) && 0 <= q < Modulus(w)
            else -Modulus(w) <= 2 * r < Modulus(w) && (!(2 * sx == -Modulus(w) && sy == -1) ==> -Modulus(w) <= 2 * q < Modulus(w))
  {
    hide Modulus;
    QuotientSize(sx, sy, q, r);
  }

  /** The quotient is no larger than the dividend, and much smaller for larger divisors. */
  lemma QuotientSize(x: int, y: int, q: int, r: int)
    requires Divides(x, y, q, r)
    ensures Magnitude(q) <= Magnitude(x) && (Magnitude(y) >= 2 && x != 0 ==> Magnitude(q) < Magnitude(x))
    ensures x >= 0 && y > 0 ==> q >= 0
    ensures y == 1 ==> q == x
    ensures y == -1 ==> q == 0 - x
    ensures Magnitude(r) < Magnitude(y) && (r != 0 ==> (r < 0 <==> x < 0))
  {
    hide Quotient;
    QuotientIs(x, y);
    DividesOnce(x, y, q, r, Quotient(x, y), x - y * Quotient(x, y));
    NatDivision(Magnitude(x), Magnitude(y));
    QuotientParts(x, y);
  }

  // ---- shifts ----------------------------------------------------------------------------

  lemma SmallCount(env: Env, w: Width, k: nat)
    requires k < 32
    ensures k < Modulus(w) && Signed(env, w, k) == k
  {
  }

  /** Shifts are undefined exactly for counts outside 0 to 31. */
  lemma ShiftsDefined(env: Env, w: Width, x: Word, y: Word)
    requires x < Modulus(w) && y < Modulus(w)
    ensures Arith(env, Shl, w, x, y).Some? <==> 0 <= Signed(env, w, y) < 32
    ensures Arith(env, Shr, w, x, y).Some? <==> 0 <= Signed(env, w, y) < 32
  {
  }

  lemma ShiftedBy(env: Env, w: Width, x: Word, k: nat)
    requires x < Modulus(w) && k < 32
    ensures k < Modulus(w)
    ensures Arith(env, Shl, w, x, k) == Some(Wrap(w, x * Bits.Pow2(k)))
    ensures Arith(env, Shr, w, x, k) == Some(Wrap(w, Signed(env, w, x) / Bits.Pow2(k)))
  {
    hide Bits.Pow2, Modulus, Signed;
    SmallCount(env, w, k);
  }

  /** A left shift doubles once for each place. */
  lemma ShiftLeftDoubles(env: Env, w: Width, x: Word, k: nat)
    requires x < Modulus(w) && k + 1 < 32
    ensures k + 1 < Modulus(w) && Arith(env, Shl, w, x, 0) == Some(x)
    ensures var r := Arith(env, Shl, w, x, k); r.Some? && Arith(env, Shl, w, x, k + 1) == Arith(env, Add, w, r.value, r.value)
  {
    hide Signed, Wrap, Modulus, Arith;
    ShiftedBy(env, w, x, 0);
    ShiftedBy(env, w, x, k);
    ShiftedBy(env, w, x, k + 1);
    WrapSmall(w, x);
    assert Bits.Pow2(0) == 1;
    DoubledWrap(env, w, x * Bits.Pow2(k));
    assert x * Bits.Pow2(k + 1) == x * Bits.Pow2(k) + x * Bits.Pow2(k);
  }

  lemma DoubledWrap(env: Env, w: Width, a: int)
    ensures Arith(env, Add, w, Wrap(w, a), Wrap(w, a)) == Some(Wrap(w, a + a))
  {
    hide Modulus, Signed;
    WrapStep(w, a, Wrap(w, a));
    WrapStep(w, a, a);
  }

  /** Bits at or above position n are clear in the numbers below 2^n. */
  lemma {:induction false} HighBitsClear(v: nat, n: nat, i: nat)
    requires v < Bits.Pow2(n) && n <= i
    ensures !Bits.Bit(v, i)
    decreases n
  {
    if n == 0 {
      Bits.ZeroHasNoBit(i);
    } else {
      HighBitsClear(v / 2, n - 1, i - 1);
    }
  }

  lemma {:induction false} TopBit(v: nat, n: nat, i: nat)
    requires v < Bits.Pow2(n)
    ensures Bits.Bit(v + Bits.Pow2(n), i) <==> i == n || Bits.Bit(v, i)
    decreases n
  {
    if n == 0 {
      assert v + Bits.Pow2(n) == 1;
      Bits.ZeroHasNoBit(i);
      if i > 0 {
        Bits.ZeroHasNoBit(i - 1);
      }
    } else {
      assert (v + Bits.Pow2(n)) / 2 == v / 2 + Bits.Pow2(n - 1) && (v + Bits.Pow2(n)) % 2 == v % 2;
      if i > 0 {
        TopBit(v / 2, n - 1, i - 1);
      }
    }
  }

  /** One place to the right on a number of n bits whose signed reading is a. */
  lemma HalfBits(n: nat, a: int, v: nat, i: nat)
    requires n > 0 && 0 <= 2 * a + Bits.Pow2(n) && a < Bits.Pow2(n) && i < n
    requires v == if a < 0 then a + Bits.Pow2(n) else a
    ensures var h := if a / 2 < 0 then a / 2 + Bits.Pow2(n) else a / 2;
            h >= 0 && (Bits.Bit(h, i) <==> if i + 1 < n then Bits.Bit(v, i + 1) else a < 0)
  {
    var p := Bits.Pow2(n - 1);
    assert Bits.Pow2(n) == 2 * p;
    if a < 0 {
      assert a / 2 + 2 * p == v / 2 + p;
      TopBit(v / 2, n - 1, i);
      HighBitsClear(v / 2, n - 1, n - 1);
    } else {
      HighBitsClear(v, n, n);
    }
  }

  lemma HalfAgain(a: int, p: nat)
    requires p > 0
    ensures a / (2 * p) == (a / p) / 2
  {
    var q, r := a / p, a % p;
    var h, e := q / 2, q % 2;
    assert a == p * q + r && q == 2 * h + e;
    assert p * q == 2 * p * h + p * e;
    assert 0 <= p * e + r < 2 * p;
    QuotientUnique(2 * p, h, p * e + r, a);
  }

  lemma QuotientUnique(m: nat, q: int, r: int, a: int)
    requires 0 <= r < m && a == m * q + r
    ensures a / m == q
  {
    RemainderIs(m, q, r);
    assert a == m * (a / m) + r;
    assert m * (a / m - q) == 0;
  }

  /** The signed reading after k places: in range, with the sign kept. */
  lemma {:induction false} ShiftedBits(n: nat, a: int, x: nat, k: nat, i: nat)
    requires n > 0 && 0 <= 2 * a + Bits.Pow2(n) && a < Bits.Pow2(n) && i < n
    requires x == if a < 0 then a + Bits.Pow2(n) else a
    ensures var b := a / Bits.Pow2(k); var v := if b < 0 then b + Bits.Pow2(n) else b;
            && 0 <= 2 * b + Bits.Pow2(n) && b < Bits.Pow2(n) && (b < 0 <==> a < 0) && v >= 0
            && (Bits.Bit(v, i) <==> if i + k < n then Bits.Bit(x, i + k) else a < 0)
    decreases k
  {
    if k == 0 {
      assert Bits.Pow2(0) == 1 && a / 1 == a;
    } else {
      ShiftedBits(n, a, x, k - 1, i);
      HalfAgain(a, Bits.Pow2(k - 1));
      var b := a / Bits.Pow2(k - 1);
      var v := if b < 0 then b + Bits.Pow2(n) else b;
      HalfBits(n, b, v, i);
      if i + 1 < n {
        ShiftedBits(n, a, x, k - 1, i + 1);
      }
    }
  }

  /** A right shift moves every bit down and fills in the sign. */
  lemma ShiftRightMoves(env: Env, w: Width, x: Word, k: nat, i: nat)
    requires x < Modulus(w) && k < 32 && i < BitsOf(w)
    ensures k < Modulus(w)
    ensures var r := Arith(env, Shr, w, x, k);
            r.Some? && (Bits.Bit(r.value, i) <==> if i + k < BitsOf(w) then Bits.Bit(x, i + k) else Signed(env, w, x) < 0)
  {
    hide Bits.Pow2, Modulus, Arith, Signed, Wrap, Bits.Bit;
    var a, n := Signed(env, w, x), BitsOf(w);
    Powers(w);
    SignedIs(env, w, x);
    WrapOfNegative(w, a);
    ShiftedBy(env, w, x, k);
    ShiftedBits(n, a, x, k, i);
    WrapOfNegative(w, a / Bits.Pow2(k));
  }

  lemma WrapOfNegative(w: Width, a: int)
    requires -Modulus(w) <= 2 * a < 2 * Modulus(w)
    ensures Wrap(w, a) == if a < 0 then a + Modulus(w) else a
  {
  }
}
