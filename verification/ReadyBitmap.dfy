/**
 The bitmap of ready priorities, in one or two levels, and the search for its lowest set bit.
 */
module ReadyBitmap {
  import opened Bits

  // ---- the lowest set bit ----------------------------------------------------------------

  /** Number of the lowest set bit. */
  function Lowest(v: nat): nat
    requires v > 0
  {
    if v % 2 == 1 then 0 else 1 + Lowest(v / 2)
  }

  lemma {:induction false} LowestIs(v: nat)
    requires v > 0
    ensures Bit(v, Lowest(v)) && forall j: nat :: j < Lowest(v) ==> !Bit(v, j)
  {
    if v % 2 == 0 {
      LowestIs(v / 2);
    }
  }

  /** __lowest_bit_bitmap: every row of 16 entries reads the same but for its first entry. */
  const ROW: seq<nat> := [0, 0, 1, 0, 2, 0, 1, 0, 3, 0, 1, 0, 2, 0, 1, 0]
  const FIRSTS: seq<nat> := [0, 4, 5, 4, 6, 4, 5, 4, 7, 4, 5, 4, 6, 4, 5, 4]

  function LowestInByte(b: nat): nat
    requires b < 256
  {
    if b % 16 == 0 then FIRSTS[b / 16] else ROW[b % 16]
  }

  /** __rt_ffs on a 32-bit value: byte by byte through the table. */
  function Ffs(v: nat): nat
    requires v < 0x1_0000_0000
  {
    if v == 0 then 0
    else if v % 0x100 != 0 then LowestInByte(v % 0x100) + 1
    else if v / 0x100 % 0x100 != 0 then LowestInByte(v / 0x100 % 0x100) + 9
    else if v / 0x1_0000 % 0x100 != 0 then LowestInByte(v / 0x1_0000 % 0x100) + 17
    else LowestInByte(v / 0x100_0000) + 25
  }

  lemma LowestOfNibble(n: nat)
    requires 0 < n < 16
    ensures Lowest(n) == ROW[n] && FIRSTS[n] == 4 + ROW[n]
  {
  }

  lemma LowestTwice(n: nat)
    ensures Lowest(2 * n + 1) == 0
    ensures n > 0 ==> Lowest(2 * n) == 1 + Lowest(n)
  {
  }

  lemma SixteenTimes(n: nat)
    requires n > 0
    ensures Lowest(16 * n) == 4 + Lowest(n)
  {
    LowestTwice(n);
    LowestTwice(2 * n);
    LowestTwice(4 * n);
    LowestTwice(8 * n);
  }

  /** Higher bits do not matter if the low ones are not all zero. */
  lemma LowPair(q: nat, r: nat)
    requires 0 < r < 4
    ensures Lowest(4 * q + r) == Lowest(r)
  {
  }

  lemma LowTriple(q: nat, r: nat)
    requires 0 < r < 8
    ensures Lowest(8 * q + r) == Lowest(r)
  {
    var m := r / 2;
    LowestTwice(4 * q + m);
    LowestTwice(m);
    if r == 2 * m {
      LowPair(q, m);
    }
  }

  lemma LowNibble(q: nat, r: nat)
    requires 0 < r < 16
    ensures Lowest(16 * q + r) == Lowest(r)
  {
    var m := r / 2;
    LowestTwice(8 * q + m);
    LowestTwice(m);
    if r == 2 * m {
      LowTriple(q, m);
    }
  }

  lemma ByteTable(b: nat)
    requires 0 < b < 256
    ensures LowestInByte(b) == Lowest(b)
  {
    hide Lowest;
    var h, l := b / 16, b % 16;
    assert b == 16 * h + l;
    if l == 0 {
      LowestOfNibble(h);
      SixteenTimes(h);
    } else {
      LowNibble(h, l);
      LowestOfNibble(l);
    }
  }

  lemma LowByte(h: nat, l: nat)
    requires l < 256 && 256 * h + l > 0
    ensures l != 0 ==> Lowest(256 * h + l) == Lowest(l)
    ensures l == 0 ==> Lowest(256 * h + l) == 8 + Lowest(h)
  {
    hide Lowest;
    var a, b := l / 16, l % 16;
    if b != 0 {
      LowNibble(16 * h + a, b);
      LowNibble(a, b);
    } else {
      SixteenTimes(16 * h + a);
      if a != 0 {
        LowNibble(h, a);
        SixteenTimes(a);
      } else {
        SixteenTimes(h);
      }
    }
  }

  /** __rt_ffs finds the lowest set bit, counted from one. */
  lemma FfsIs(v: nat)
    requires 0 < v < 0x1_0000_0000
    ensures Ffs(v) == Lowest(v) + 1
  {
    hide Lowest, LowestInByte;
    var w, l := v / 0x100, v % 0x100;
    LowByte(w, l);
    if l != 0 {
      ByteTable(l);
    } else {
      var x, m := w / 0x100, w % 0x100;
    }
  }

  // ---- the bitmap ------------------------------------------------------------------------

  /** rt_thread_ready_priority_group, and rt_thread_ready_table in the two-level layout. */
  datatype Bitmap = Bitmap(two: bool, group: nat, table: seq<nat>)

  /** Masks that a thread keeps for its priority. */
  datatype Masks = Masks(number: nat, numberMask: nat, highMask: nat)

  function MasksOf(two: bool, prio: nat): Masks {
    if two then Masks(prio / 8, Pow2(prio / 8), Pow2(prio % 8)) else Masks(0, Pow2(prio), 0)
  }

  predicate InTable(bm: Bitmap, m: Masks) {
    bm.two ==> m.number < |bm.table|
  }

  /** Of rt_schedule_insert_thread. */
  function SetBits(bm: Bitmap, m: Masks): Bitmap
    requires InTable(bm, m)
  {
    var table := if bm.two then bm.table[m.number := Or(bm.table[m.number], m.highMask)] else bm.table;
    bm.(group := Or(bm.group, m.numberMask), table := table)
  }

  /** Of rt_schedule_remove_thread, when the list has become empty. */
  function ClearBits(bm: Bitmap, m: Masks): Bitmap
    requires InTable(bm, m)
  {
    if bm.two then
      var left := AndNot(bm.table[m.number], m.highMask);
      var bm1 := bm.(table := bm.table[m.number := left]);
      if left == 0 then bm1.(group := AndNot(bm.group, m.numberMask)) else bm1
    else bm.(group := AndNot(bm.group, m.numberMask))
  }

  /** highest_ready_priority in rt_schedule. */
  function Highest(bm: Bitmap): int
    requires bm.group < 0x1_0000_0000 && (forall n :: 0 <= n < |bm.table| ==> bm.table[n] < 256)
    requires bm.two ==> 0 < Ffs(bm.group) <= |bm.table|
  {
    if bm.two then
      var number := Ffs(bm.group) - 1;
      8 * number + Ffs(bm.table[number]) - 1
    else Ffs(bm.group) - 1
  }

  ghost predicate TableAgrees(table: seq<nat>, busy: seq<bool>) {
    && |busy| == 256 && |table| == 32
    && (forall n, b: nat :: 0 <= n < 32 ==> (Bit(table[n], b) <==> b < 8 && busy[8 * n + b]))
  }

  /** One level: a bit per priority. Two levels: a bit per priority in the table, and a bit per
      table entry that is not zero. */
  ghost predicate Agrees(bm: Bitmap, busy: seq<bool>) {
    if bm.two then
      && TableAgrees(bm.table, busy)
      && (forall n: nat :: Bit(bm.group, n) <==> n < 32 && bm.table[n] != 0)
    else
      && |busy| == 32 && bm.table == []
      && (forall p: nat :: Bit(bm.group, p) <==> p < 32 && busy[p])
  }

  // ---- one priority changes --------------------------------------------------------------

  lemma BitBelow(v: nat, n: nat)
    requires forall i: nat :: n <= i ==> !Bit(v, i)
    ensures v < Pow2(n)
    decreases n
  {
    if n == 0 {
      NoBitsIsZero(v);
    } else {
      forall i: nat | n - 1 <= i ensures !Bit(v / 2, i) {
        assert !Bit(v, i + 1);
      }
      BitBelow(v / 2, n - 1);
    }
  }

  lemma OneLevelSet(bm: Bitmap, busy: seq<bool>, p: nat)
    requires Agrees(bm, busy) && !bm.two && p < 32
    ensures Agrees(SetBits(bm, MasksOf(false, p)), busy[p := true])
  {
    forall i: nat ensures Bit(Or(bm.group, Pow2(p)), i) <==> i < 32 && busy[p := true][i] {
      BitOfOr(bm.group, Pow2(p), i);
      BitOfPow2(p, i);
    }
  }

  lemma OneLevelClear(bm: Bitmap, busy: seq<bool>, p: nat)
    requires Agrees(bm, busy) && !bm.two && p < 32
    ensures Agrees(ClearBits(bm, MasksOf(false, p)), busy[p := false])
  {
    forall i: nat ensures Bit(AndNot(bm.group, Pow2(p)), i) <==> i < 32 && busy[p := false][i] {
      BitOfAndNot(bm.group, Pow2(p), i);
      BitOfPow2(p, i);
    }
  }

  lemma NonZero(v: nat)
    ensures v == 0 ==> forall b: nat :: !Bit(v, b)
    ensures v != 0 ==> Bit(v, Lowest(v))
  {
    if v == 0 {
      forall b: nat ensures !Bit(v, b) {
        ZeroHasNoBit(b);
      }
    }
  }

  lemma TwoLevelSet(bm: Bitmap, busy: seq<bool>, p: nat)
    requires Agrees(bm, busy) && bm.two && p < 256
    ensures Agrees(SetBits(bm, MasksOf(true, p)), busy[p := true])
  {
    var k, w := p / 8, Or(bm.table[p / 8], Pow2(p % 8));
    forall b: nat ensures Bit(w, b) <==> if b == p % 8 then true else Bit(bm.table[k], b) {
      BitOfOr(bm.table[k], Pow2(p % 8), b);
      BitOfPow2(p % 8, b);
    }
    NonZero(w);
    assert Bit(w, p % 8);
    forall n: nat ensures Bit(Or(bm.group, Pow2(k)), n) <==> n < 32 && bm.table[k := w][n] != 0 {
      BitOfOr(bm.group, Pow2(k), n);
      BitOfPow2(k, n);
    }
  }

  lemma TwoLevelClear(bm: Bitmap, busy: seq<bool>, p: nat)
    requires Agrees(bm, busy) && bm.two && p < 256
    ensures Agrees(ClearBits(bm, MasksOf(true, p)), busy[p := false])
  {
    var k, w := p / 8, AndNot(bm.table[p / 8], Pow2(p % 8));
    forall b: nat ensures Bit(w, b) <==> if b == p % 8 then false else Bit(bm.table[k], b) {
      BitOfAndNot(bm.table[k], Pow2(p % 8), b);
      BitOfPow2(p % 8, b);
    }
    forall n: nat ensures Bit(AndNot(bm.group, Pow2(k)), n) <==> n < 32 && n != k && bm.table[n] != 0 {
      BitOfAndNot(bm.group, Pow2(k), n);
      BitOfPow2(k, n);
    }
  }

  /** The scheduler's search finds the most urgent priority that is busy. */
  lemma HighestIs(bm: Bitmap, busy: seq<bool>, q: nat)
    requires Agrees(bm, busy) && q < |busy| && busy[q]
    ensures bm.group < 0x1_0000_0000 && (forall n :: 0 <= n < |bm.table| ==> bm.table[n] < 256)
    ensures bm.two ==> 0 < Ffs(bm.group) <= |bm.table|
    ensures var h := Highest(bm); 0 <= h <= q && busy[h] && forall p :: 0 <= p < h ==> !busy[p]
  {
    if bm.two {
      HighestTwo(bm, busy, q);
    } else {
      HighestOne(bm, busy, q);
    }
  }

  lemma PowerValues()
    ensures Pow2(32) == 0x1_0000_0000 && Pow2(8) == 256
  {
    assert Pow2(20) == 0x10_0000 && Pow2(24) == 0x100_0000 && Pow2(28) == 0x1000_0000;
  }

  /** The lowest of the bits up to position n that are set. */
  lemma LowestBelow(v: nat, n: nat, q: nat)
    requires (forall i: nat :: Bit(v, i) ==> i < n) && Bit(v, q)
    ensures 0 < v < Pow2(n) && Lowest(v) <= q && Bit(v, Lowest(v)) && forall j: nat :: j < Lowest(v) ==> !Bit(v, j)
  {
    BitBelow(v, n);
    LowestIs(v);
  }

  lemma HighestOne(bm: Bitmap, busy: seq<bool>, q: nat)
    requires Agrees(bm, busy) && !bm.two && q < |busy| && busy[q]
    ensures bm.group < 0x1_0000_0000
    ensures var h := Highest(bm); 0 <= h <= q && busy[h] && forall p :: 0 <= p < h ==> !busy[p]
  {
    PowerValues();
    LowestBelow(bm.group, 32, q);
    FfsIs(bm.group);
  }

  lemma EntryBits(bm: Bitmap, busy: seq<bool>, n: nat)
    requires Agrees(bm, busy) && bm.two && n < 32
    ensures forall b: nat :: Bit(bm.table[n], b) ==> b < 8
    ensures bm.table[n] < 256
  {
    BitBelow(bm.table[n], 8);
  }

  lemma EntryLowest(bm: Bitmap, busy: seq<bool>, n: nat)
    requires Agrees(bm, busy) && bm.two && n < 32 && bm.table[n] != 0
    ensures bm.table[n] < 256 && Ffs(bm.table[n]) == Lowest(bm.table[n]) + 1 && Lowest(bm.table[n]) < 8
    ensures busy[8 * n + Lowest(bm.table[n])]
    ensures forall b: nat :: b < Lowest(bm.table[n]) ==> !Bit(bm.table[n], b)
  {
    EntryBits(bm, busy, n);
    FfsIs(bm.table[n]);
    LowestIs(bm.table[n]);
  }

  lemma PriorityBit(bm: Bitmap, busy: seq<bool>, p: nat)
    requires Agrees(bm, busy) && bm.two && p < 256
    ensures busy[p] <==> Bit(bm.table[p / 8], p % 8)
    ensures busy[p] ==> Bit(bm.group, p / 8)
  {
    hide Bit, Lowest;
    var n, b := p / 8, p % 8;
    NonZero(bm.table[n]);
  }

  lemma HighestTwo(bm: Bitmap, busy: seq<bool>, q: nat)
    requires Agrees(bm, busy) && bm.two && q < |busy| && busy[q]
    ensures bm.group < 0x1_0000_0000 && (forall n :: 0 <= n < |bm.table| ==> bm.table[n] < 256)
    ensures 0 < Ffs(bm.group) <= |bm.table|
    ensures var h := Highest(bm); 0 <= h <= q && busy[h] && forall p :: 0 <= p < h ==> !busy[p]
  {
    hide Lowest, Ffs, Bit;
    PowerValues();
    forall n | 0 <= n < 32 ensures bm.table[n] < 256 {
      EntryBits(bm, busy, n);
    }
    PriorityBit(bm, busy, q);
    LowestBelow(bm.group, 32, q / 8);
    FfsIs(bm.group);
    var n := Lowest(bm.group);
    EntryLowest(bm, busy, n);
    var h := Highest(bm);
    forall p | 0 <= p < h ensures !busy[p] {
      PriorityBit(bm, busy, p);
    }
  }
}
