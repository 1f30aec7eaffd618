/**
 The blocks of a heap in address order. Each block starts with a header of h words and reaches
 to the next block; the last one reaches to an end mark.
 */
module BlockList {

  datatype Block = Block(addr: nat, used: bool)

  /** Where a list of blocks begins; an empty one begins where it ends. */
  function Start(bs: seq<Block>, end: nat): nat {
    if bs == [] then end else bs[0].addr
  }

  /** The blocks tile the range up to end, each with room for its header. */
  predicate Tiled(bs: seq<Block>, end: nat, h: nat) {
    bs == [] || (bs[0].addr + h <= Start(bs[1..], end) && Tiled(bs[1..], end, h))
  }

  /** No two neighbours are both free. */
  predicate Coalesced(bs: seq<Block>) {
    |bs| < 2 || ((bs[0].used || bs[1].used) && Coalesced(bs[1..]))
  }

  /** Total size of the used, or of the free, blocks, c words of each not counted. */
  function Words(bs: seq<Block>, end: nat, used: bool, c: int): int {
    if bs == [] then 0
    else (if bs[0].used == used then Start(bs[1..], end) - bs[0].addr - c else 0) + Words(bs[1..], end, used, c)
  }

  function NextAddr(bs: seq<Block>, end: nat, i: nat): nat
    requires i < |bs|
  {
    if i + 1 < |bs| then bs[i + 1].addr else end
  }

  // ---- gluing lists ----------------------------------------------------------------------

  lemma {:induction false} TiledConcat(a: seq<Block>, b: seq<Block>, end: nat, h: nat)
    ensures Tiled(a + b, end, h) <==> Tiled(a, Start(b, end), h) && Tiled(b, end, h)
    ensures Start(a + b, end) == Start(a, Start(b, end))
    decreases |a|
  {
    if a == [] {
      assert a + b == b;
    } else {
      assert (a + b)[1..] == a[1..] + b;
      TiledConcat(a[1..], b, end, h);
    }
  }

  lemma {:induction false} WordsConcat(a: seq<Block>, b: seq<Block>, end: nat, used: bool, c: int)
    ensures Words(a + b, end, used, c) == Words(a, Start(b, end), used, c) + Words(b, end, used, c)
    decreases |a|
  {
    if a == [] {
      assert a + b == b;
    } else {
      assert (a + b)[1..] == a[1..] + b;
      WordsConcat(a[1..], b, end, used, c);
    }
  }

  predicate Separated(a: seq<Block>, b: seq<Block>) {
    a == [] || b == [] || a[|a| - 1].used || b[0].used
  }

  lemma {:induction false} CoalescedConcat(a: seq<Block>, b: seq<Block>)
    ensures Coalesced(a + b) <==> Coalesced(a) && Coalesced(b) && Separated(a, b)
    decreases |a|
  {
    if a == [] {
      assert a + b == b;
    } else {
      assert (a + b)[1..] == a[1..] + b;
      CoalescedConcat(a[1..], b);
    }
  }

  /** A piece of the list is exchanged for another that covers the same range. */
  lemma ReplaceTiled(a: seq<Block>, m: seq<Block>, m': seq<Block>, b: seq<Block>, end: nat, h: nat)
    requires Tiled(a + m + b, end, h)
    requires var e := Start(b, end); Start(m', e) == Start(m, e) && Tiled(m', e, h)
    ensures Tiled(a + m' + b, end, h) && Start(a + m' + b, end) == Start(a + m + b, end)
    ensures Tiled(m, Start(b, end), h)
  {
    TiledConcat(a + m, b, end, h);
    TiledConcat(a, m, Start(b, end), h);
    TiledConcat(a + m', b, end, h);
    TiledConcat(a, m', Start(b, end), h);
  }

  lemma ReplaceWords(a: seq<Block>, m: seq<Block>, m': seq<Block>, b: seq<Block>, end: nat, used: bool, c: int)
    requires var e := Start(b, end); Start(m', e) == Start(m, e)
    ensures var e := Start(b, end);
            Words(a + m' + b, end, used, c) == Words(a + m + b, end, used, c) - Words(m, e, used, c) + Words(m', e, used, c)
  {
    WordsConcat(a + m, b, end, used, c);
    WordsConcat(a, m, Start(b, end), used, c);
    WordsConcat(a + m', b, end, used, c);
    WordsConcat(a, m', Start(b, end), used, c);
  }

  lemma ReplaceCoalesced(a: seq<Block>, m: seq<Block>, m': seq<Block>, b: seq<Block>)
    requires Coalesced(a + m + b) && Coalesced(m') && m' != []
    requires Separated(a, m') && Separated(m', b)
    ensures Coalesced(a + m' + b)
  {
    CoalescedConcat(a + m, b);
    CoalescedConcat(a, m);
    CoalescedConcat(a, m');
    CoalescedConcat(a + m', b);
  }

  // ---- addresses -------------------------------------------------------------------------

  lemma {:induction false} TiledStart(bs: seq<Block>, end: nat, h: nat)
    requires Tiled(bs, end, h)
    ensures Start(bs, end) <= end
    decreases |bs|
  {
    if bs != [] {
      TiledStart(bs[1..], end, h);
    }
  }

  /** Each block with its header lies below the next one. */
  lemma {:induction false} Order(bs: seq<Block>, end: nat, h: nat, i: nat)
    requires Tiled(bs, end, h) && i < |bs|
    ensures Start(bs, end) <= bs[i].addr && bs[i].addr + h <= NextAddr(bs, end, i) <= end
    decreases |bs|
  {
    if i == 0 {
      TiledStart(bs[1..], end, h);
    } else {
      Order(bs[1..], end, h, i - 1);
    }
  }

  /** A block ends before any later one begins, so blocks are disjoint. */
  lemma {:induction false} Ordered(bs: seq<Block>, end: nat, h: nat, i: nat, j: nat)
    requires Tiled(bs, end, h) && i < j < |bs|
    ensures bs[i].addr + h <= NextAddr(bs, end, i) <= bs[j].addr
    decreases |bs|
  {
    if i == 0 {
      Order(bs[1..], end, h, j - 1);
    } else {
      Ordered(bs[1..], end, h, i - 1, j - 1);
    }
  }

  /** A block is known by its address. */
  lemma SameAddr(bs: seq<Block>, end: nat, h: nat, i: nat, j: nat)
    requires Tiled(bs, end, h) && h > 0 && i < |bs| && j < |bs| && bs[i].addr == bs[j].addr
    ensures i == j
  {
    if i < j {
      Ordered(bs, end, h, i, j);
    } else if j < i {
      Ordered(bs, end, h, j, i);
    }
  }

  lemma {:induction false} TotalIs(bs: seq<Block>, end: nat)
    ensures Words(bs, end, true, 0) + Words(bs, end, false, 0) == end - Start(bs, end)
    decreases |bs|
  {
    if bs != [] {
      TotalIs(bs[1..], end);
    }
  }

  lemma {:induction false} WordsNonNegative(bs: seq<Block>, end: nat, used: bool, c: nat, h: nat)
    requires Tiled(bs, end, h) && c <= h
    ensures Words(bs, end, used, c) >= 0
    decreases |bs|
  {
    if bs != [] {
      WordsNonNegative(bs[1..], end, used, c, h);
    }
  }

  // ---- one or two blocks -----------------------------------------------------------------

  lemma One(x: Block, e: nat, h: nat, used: bool, c: int)
    ensures Start([x], e) == x.addr && (Tiled([x], e, h) <==> x.addr + h <= e) && Coalesced([x])
    ensures Words([x], e, used, c) == if x.used == used then e - x.addr - c else 0
  {
  }

  lemma Two(x: Block, y: Block, e: nat, h: nat, used: bool, c: int)
    ensures Start([x, y], e) == x.addr
    ensures Tiled([x, y], e, h) <==> x.addr + h <= y.addr && y.addr + h <= e
    ensures Coalesced([x, y]) <==> x.used || y.used
    ensures Words([x, y], e, used, c) ==
            (if x.used == used then y.addr - x.addr - c else 0) + (if y.used == used then e - y.addr - c else 0)
  {
    One(y, e, h, used, c);
  }

  lemma Three(x: Block, y: Block, z: Block, e: nat, h: nat, used: bool, c: int)
    ensures Start([x, y, z], e) == x.addr
    ensures Tiled([x, y, z], e, h) <==> x.addr + h <= y.addr && y.addr + h <= z.addr && z.addr + h <= e
    ensures Words([x, y, z], e, used, c) ==
            (if x.used == used then y.addr - x.addr - c else 0) + (if y.used == used then z.addr - y.addr - c else 0)
            + (if z.used == used then e - z.addr - c else 0)
  {
    Two(y, z, e, h, used, c);
  }

  // ---- the free blocks -------------------------------------------------------------------

  function FreeSet(bs: seq<Block>): set<nat> {
    if bs == [] then {} else (if bs[0].used then {} else {bs[0].addr}) + FreeSet(bs[1..])
  }

  lemma {:induction false} FreeSetConcat(a: seq<Block>, b: seq<Block>)
    ensures FreeSet(a + b) == FreeSet(a) + FreeSet(b)
    decreases |a|
  {
    if a == [] {
      assert a + b == b;
    } else {
      assert (a + b)[1..] == a[1..] + b;
      FreeSetConcat(a[1..], b);
    }
  }

  lemma {:induction false} FreeSetRange(bs: seq<Block>, end: nat, h: nat, x: nat)
    requires Tiled(bs, end, h) && x in FreeSet(bs)
    ensures Start(bs, end) <= x && x + h <= end
    decreases |bs|
  {
    TiledStart(bs[1..], end, h);
    if x in FreeSet(bs[1..]) {
      FreeSetRange(bs[1..], end, h, x);
    }
  }

  lemma {:induction false} FreeSetHas(bs: seq<Block>, x: nat)
    ensures x in FreeSet(bs) <==> Block(x, false) in bs
    decreases |bs|
  {
    if bs != [] {
      FreeSetHas(bs[1..], x);
    }
  }

  /** Exchanging a piece exchanges exactly its free blocks. */
  lemma ReplaceFree(a: seq<Block>, m: seq<Block>, m': seq<Block>, b: seq<Block>, end: nat, h: nat)
    requires Tiled(a + m + b, end, h) && h > 0
    ensures FreeSet(a + m' + b) == FreeSet(a + m + b) - FreeSet(m) + FreeSet(m')
  {
    FreeSetConcat(a + m, b);
    FreeSetConcat(a, m);
    FreeSetConcat(a + m', b);
    FreeSetConcat(a, m');
    TiledConcat(a + m, b, end, h);
    TiledConcat(a, m, Start(b, end), h);
    forall x | x in FreeSet(m) ensures x !in FreeSet(a) && x !in FreeSet(b) {
      FreeSetRange(m, Start(b, end), h, x);
      if x in FreeSet(a) {
        FreeSetRange(a, Start(m, Start(b, end)), h, x);
      }
      if x in FreeSet(b) {
        FreeSetRange(b, end, h, x);
      }
    }
  }

  lemma FreeOne(x: Block)
    ensures FreeSet([x]) == if x.used then {} else {x.addr}
  {
  }

  lemma FreeTwo(x: Block, y: Block)
    ensures FreeSet([x, y]) == (if x.used then {} else {x.addr}) + (if y.used then {} else {y.addr})
  {
    FreeOne(y);
  }

  lemma FreeThree(x: Block, y: Block, z: Block)
    ensures FreeSet([x, y, z]) ==
            (if x.used then {} else {x.addr}) + (if y.used then {} else {y.addr}) + (if z.used then {} else {z.addr})
  {
    FreeTwo(y, z);
  }

  // ---- the used blocks -------------------------------------------------------------------

  /** Where each used block begins and ends. */
  function UsedSet(bs: seq<Block>, end: nat): set<(nat, nat)> {
    if bs == [] then {}
    else (if bs[0].used then {(bs[0].addr, Start(bs[1..], end))} else {}) + UsedSet(bs[1..], end)
  }

  lemma {:induction false} UsedSetConcat(a: seq<Block>, b: seq<Block>, end: nat)
    ensures UsedSet(a + b, end) == UsedSet(a, Start(b, end)) + UsedSet(b, end)
    decreases |a|
  {
    if a == [] {
      assert a + b == b;
    } else {
      assert (a + b)[1..] == a[1..] + b;
      UsedSetConcat(a[1..], b, end);
    }
  }

  lemma {:induction false} UsedSetHas(bs: seq<Block>, end: nat, x: (nat, nat))
    ensures x in UsedSet(bs, end) <==> exists i :: 0 <= i < |bs| && bs[i] == Block(x.0, true) && NextAddr(bs, end, i) == x.1
    decreases |bs|
  {
    if bs != [] {
      UsedSetHas(bs[1..], end, x);
    }
  }

  lemma {:induction false} UsedSetRange(bs: seq<Block>, end: nat, h: nat, x: (nat, nat))
    requires Tiled(bs, end, h) && x in UsedSet(bs, end)
    ensures Start(bs, end) <= x.0 && x.0 + h <= x.1 <= end
    decreases |bs|
  {
    TiledStart(bs[1..], end, h);
    if x in UsedSet(bs[1..], end) {
      UsedSetRange(bs[1..], end, h, x);
    }
  }

  /** Two used blocks do not overlap. */
  lemma {:induction false} UsedDisjoint(bs: seq<Block>, end: nat, h: nat, x: (nat, nat), y: (nat, nat))
    requires Tiled(bs, end, h) && h > 0 && x in UsedSet(bs, end) && y in UsedSet(bs, end) && x != y
    ensures x.1 <= y.0 || y.1 <= x.0
    decreases |bs|
  {
    if x in UsedSet(bs[1..], end) && y in UsedSet(bs[1..], end) {
      UsedDisjoint(bs[1..], end, h, x, y);
    } else if x in UsedSet(bs[1..], end) {
      UsedSetRange(bs[1..], end, h, x);
    } else {
      UsedSetRange(bs[1..], end, h, y);
    }
  }

  /** Exchanging a piece exchanges exactly its used blocks: all others keep their place. */
  lemma ReplaceUsed(a: seq<Block>, m: seq<Block>, m': seq<Block>, b: seq<Block>, end: nat, h: nat)
    requires Tiled(a + m + b, end, h) && h > 0
    requires var e := Start(b, end); Start(m', e) == Start(m, e)
    ensures var e := Start(b, end);
            UsedSet(a + m' + b, end) == UsedSet(a + m + b, end) - UsedSet(m, e) + UsedSet(m', e)
  {
    var e := Start(b, end);
    UsedSetConcat(a + m, b, end);
    UsedSetConcat(a, m, e);
    UsedSetConcat(a + m', b, end);
    UsedSetConcat(a, m', e);
    TiledConcat(a + m, b, end, h);
    TiledConcat(a, m, e, h);
    forall x | x in UsedSet(m, e) ensures x !in UsedSet(a, Start(m, e)) && x !in UsedSet(b, end) {
      UsedSetRange(m, e, h, x);
      if x in UsedSet(a, Start(m, e)) {
        UsedSetRange(a, Start(m, e), h, x);
      }
      if x in UsedSet(b, end) {
        UsedSetRange(b, end, h, x);
      }
    }
  }

  lemma UsedOne(x: Block, e: nat)
    ensures UsedSet([x], e) == if x.used then {(x.addr, e)} else {}
  {
  }

  lemma UsedTwo(x: Block, y: Block, e: nat)
    ensures UsedSet([x, y], e) == (if x.used then {(x.addr, y.addr)} else {}) + (if y.used then {(y.addr, e)} else {})
  {
    UsedOne(y, e);
  }

  lemma UsedThree(x: Block, y: Block, z: Block, e: nat)
    ensures UsedSet([x, y, z], e) ==
            (if x.used then {(x.addr, y.addr)} else {}) + (if y.used then {(y.addr, z.addr)} else {})
            + (if z.used then {(z.addr, e)} else {})
  {
    UsedTwo(y, z, e);
  }

  // ---- exchanging blocks -----------------------------------------------------------------

  predicate Has(bs: seq<Block>, a: nat) {
    exists i :: 0 <= i < |bs| && bs[i].addr == a
  }

  function IndexOf(bs: seq<Block>, a: nat): (i: nat)
    requires Has(bs, a)
    ensures i < |bs| && bs[i].addr == a
  {
    if bs[0].addr == a then 0
    else
      var j :| 0 <= j < |bs| && bs[j].addr == a;
      assert bs[1..][j - 1].addr == a;
      1 + IndexOf(bs[1..], a)
  }

  /** Blocks lo to hi - 1 make way for m. */
  function Splice(bs: seq<Block>, lo: nat, hi: nat, m: seq<Block>): seq<Block>
    requires lo <= hi <= |bs|
  {
    bs[..lo] + m + bs[hi..]
  }

  lemma CutSeparated(bs: seq<Block>, lo: nat, hi: nat)
    requires lo < hi <= |bs| && Coalesced(bs)
    ensures lo > 0 ==> bs[..lo][lo - 1] == bs[lo - 1] && (bs[lo - 1].used || bs[lo].used)
    ensures hi < |bs| ==> bs[hi..][0] == bs[hi] && (bs[hi - 1].used || bs[hi].used)
  {
    CoalescedAt(bs, lo);
    CoalescedAt(bs, hi);
  }

  lemma {:induction false} CoalescedAt(bs: seq<Block>, k: nat)
    requires Coalesced(bs)
    ensures 0 < k < |bs| ==> bs[k - 1].used || bs[k].used
    decreases |bs|
  {
    if 1 < k < |bs| {
      CoalescedAt(bs[1..], k - 1);
    }
  }

  lemma {:induction false} FreePayloadCounted(bs: seq<Block>, end: nat, h: nat, i: nat)
    requires Tiled(bs, end, h) && i < |bs| && !bs[i].used
    ensures NextAddr(bs, end, i) - bs[i].addr - h <= Words(bs, end, false, h)
    decreases |bs|
  {
    if i == 0 {
      WordsNonNegative(bs[1..], end, false, h, h);
    } else {
      FreePayloadCounted(bs[1..], end, h, i - 1);
    }
  }

  lemma SpliceLength(bs: seq<Block>, lo: nat, hi: nat, m: seq<Block>)
    requires lo <= hi <= |bs|
    ensures |Splice(bs, lo, hi, m)| == |bs| - (hi - lo) + |m|
  {
  }

  lemma SpliceIndex(bs: seq<Block>, lo: nat, hi: nat, m: seq<Block>, k: nat)
    requires lo <= hi <= |bs|
    ensures k < |Splice(bs, lo, hi, m)| ==>
              Splice(bs, lo, hi, m)[k] == if k < lo then bs[k] else if k < lo + |m| then m[k - lo] else bs[k - |m| + (hi - lo)]
  {
  }
}
