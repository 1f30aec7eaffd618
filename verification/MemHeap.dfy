/**
 memheap: an address ring of blocks and a free list through the unused ones, in units of 4-byte
 words. This module says what the operations do to the two structures; MemHeapMemory carries
 them out on the headers in memory.
 */
module MemHeap {
  import opened NatLists
  import opened BlockList

  /** Size of struct rt_memheap_item and RT_MEMHEAP_MINIALLOC, in words. */
  const H: nat := 6
  const MIN: nat := 3

  /** The free list header stands in front of the pool. */
  const START: nat := 6

  /** The blocks up to the tailer at end, the free list in its order, and the byte counters. */
  datatype Heap = Heap(end: nat, blocks: seq<Block>, free: seq<nat>, avail: nat, maxUsed: nat)

  function Elements(s: seq<nat>): set<nat> {
    set x | x in s
  }

  ghost predicate Inv(hp: Heap) {
    && hp.blocks != [] && hp.blocks[0].addr == START
    && Tiled(hp.blocks, hp.end, H)
    && Coalesced(hp.blocks)
    && hp.avail == Words(hp.blocks, hp.end, false, H)
    && Distinct(hp.free) && Elements(hp.free) == FreeSet(hp.blocks)
  }

  function PoolSize(hp: Heap): nat {
    hp.end + H - START
  }

  /** rt_memheap_init on a pool of size words. */
  function Init(size: nat): Heap
    requires size >= 2 * H
  {
    Heap(START + size - H, [Block(START, false)], [START], size - 2 * H, 2 * H)
  }

  lemma InitInv(size: nat)
    requires size >= 2 * H
    ensures Inv(Init(size))
  {
  }

  function Payload(hp: Heap, i: nat): int
    requires i < |hp.blocks|
  {
    NextAddr(hp.blocks, hp.end, i) - hp.blocks[i].addr - H
  }

  /** RT_ALIGN and the minimum, in words. */
  function Want(bytes: nat): nat {
    var n := (bytes + 3) / 4;
    if n < MIN then MIN else n
  }

  function Peak(hp: Heap, avail: nat): nat {
    if PoolSize(hp) - avail > hp.maxUsed then PoolSize(hp) - avail else hp.maxUsed
  }

  // ---- allocation ------------------------------------------------------------------------

  /** Room for a request of n words, a header and a block of minimal size. */
  predicate Splits(room: int, n: nat) {
    room >= n + H + MIN
  }

  function AllocAt(hp: Heap, i: nat, n: nat): Heap
    requires i < |hp.blocks| && n <= Payload(hp, i) <= hp.avail
  {
    var a, room := hp.blocks[i].addr, Payload(hp, i);
    var avail := if Splits(room, n) then hp.avail - n - H else hp.avail - room;
    var m := if Splits(room, n) then [Block(a, true), Block(a + H + n, false)] else [Block(a, true)];
    var free := Without(hp.free, a);
    Heap(hp.end, Splice(hp.blocks, i, i + 1, m), if Splits(room, n) then [a + H + n] + free else free,
         avail, Peak(hp, avail))
  }

  datatype Answer = None | Some(addr: nat)

  predicate FreeKnown(hp: Heap, free: seq<nat>) {
    forall k :: 0 <= k < |free| ==> Has(hp.blocks, free[k])
  }

  /** The search of the free list: the first block that is large enough. */
  function FirstFit(hp: Heap, free: seq<nat>, n: nat): (r: Answer)
    requires FreeKnown(hp, free)
    ensures r.Some? ==> r.addr in free && Payload(hp, IndexOf(hp.blocks, r.addr)) >= n
    ensures r.None? ==> forall k :: 0 <= k < |free| ==> Payload(hp, IndexOf(hp.blocks, free[k])) < n
    decreases |free|
  {
    if free == [] then None
    else if Payload(hp, IndexOf(hp.blocks, free[0])) >= n then Some(free[0])
    else
      var r := FirstFit(hp, free[1..], n);
      r
  }

  /** rt_memheap_alloc for n words. The counter is compared strictly: the very last words of the
      pool are never given out. */
  function Alloc(hp: Heap, n: nat): (Heap, Answer)
    requires Inv(hp)
  {
    if n < hp.avail then
      KnownFree(hp);
      var r := FirstFit(hp, hp.free, n);
      if r.None? then (hp, None)
      else
        PayloadFits(hp, r.addr);
        (AllocAt(hp, IndexOf(hp.blocks, r.addr), n), Some(r.addr + H))
    else (hp, None)
  }

  // ---- release ---------------------------------------------------------------------------

  predicate FreeBefore(hp: Heap, i: nat)
    requires i < |hp.blocks|
  {
    i > 0 && !hp.blocks[i - 1].used
  }

  predicate FreeAfter(hp: Heap, i: nat)
    requires i < |hp.blocks|
  {
    i + 1 < |hp.blocks| && !hp.blocks[i + 1].used
  }

  /** rt_memheap_free on block i: it joins a free left and a free right neighbour. */
  function FreeAt(hp: Heap, i: nat): Heap
    requires i < |hp.blocks| && Payload(hp, i) >= 0
  {
    var left, right := FreeBefore(hp, i), FreeAfter(hp, i);
    var lo, hi := if left then i - 1 else i, if right then i + 2 else i + 1;
    var free := if right then Without(hp.free, hp.blocks[i + 1].addr) else hp.free;
    hp.(blocks := Splice(hp.blocks, lo, hi, [Block(hp.blocks[lo].addr, false)]),
        free := if left then free else [hp.blocks[i].addr] + free,
        avail := hp.avail + Payload(hp, i) + (if left then H else 0) + (if right then H else 0))
  }

  // ---- resizing --------------------------------------------------------------------------

  /** The free block after block i can give the missing words and stay above the minimum. */
  predicate Grows(hp: Heap, i: nat, n: nat)
    requires i < |hp.blocks|
  {
    FreeAfter(hp, i) && Payload(hp, i + 1) + Payload(hp, i) > n + MIN
  }

  function GrowAt(hp: Heap, i: nat, n: nat): Heap
    requires i < |hp.blocks| && FreeAfter(hp, i) && Payload(hp, i) <= n && n - Payload(hp, i) <= hp.avail
  {
    var a := hp.blocks[i].addr;
    var avail := hp.avail - (n - Payload(hp, i));
    Heap(hp.end, Splice(hp.blocks, i, i + 2, [Block(a, true), Block(a + H + n, false)]),
         [a + H + n] + Without(hp.free, hp.blocks[i + 1].addr), avail, Peak(hp, avail))
  }

  /** Too little would be left for a block of its own. */
  predicate Keeps(room: int, n: nat) {
    n + H + MIN >= room
  }

  function ShrinkAt(hp: Heap, i: nat, n: nat): Heap
    requires i < |hp.blocks| && n + H <= Payload(hp, i)
  {
    var a, right := hp.blocks[i].addr, FreeAfter(hp, i);
    var m := [Block(a, true), Block(a + H + n, false)];
    var gain := Payload(hp, i) - n - (if right then 0 else H);
    hp.(blocks := Splice(hp.blocks, i, if right then i + 2 else i + 1, m),
        free := [a + H + n] + if right then Without(hp.free, hp.blocks[i + 1].addr) else hp.free,
        avail := hp.avail + gain)
  }

  // ---- every operation keeps the invariant -----------------------------------------------

  lemma ElementsPush(free: seq<nat>, n: nat)
    requires Distinct(free) && n !in free
    ensures Distinct([n] + free) && Elements([n] + free) == Elements(free) + {n}
  {
  }

  lemma ElementsCut(free: seq<nat>, x: nat)
    requires Distinct(free)
    ensures Distinct(Without(free, x)) && Elements(Without(free, x)) == Elements(free) - {x}
  {
    forall y ensures y in Without(free, x) <==> y in free && y != x {
      WithoutMembers(free, x, y);
    }
    DistinctWithout(free, x);
  }

  /** The one step behind all operations: some blocks make way for others that cover the same
      range, and the free list and the counter follow. */
  lemma SpliceKeeps(hp: Heap, lo: nat, hi: nat, m: seq<Block>, hp': Heap)
    requires Inv(hp) && lo < hi <= |hp.blocks| && m != []
    requires hp'.end == hp.end && hp'.blocks == Splice(hp.blocks, lo, hi, m)
    requires m[0].addr == hp.blocks[lo].addr && Coalesced(m)
    requires Separated(hp.blocks[..lo], m) && Separated(m, hp.blocks[hi..])
    requires var e := Start(hp.blocks[hi..], hp.end);
             && Tiled(m, e, H)
             && hp'.avail == hp.avail - Words(hp.blocks[lo..hi], e, false, H) + Words(m, e, false, H)
    requires Distinct(hp'.free) && Elements(hp'.free) == Elements(hp.free) - FreeSet(hp.blocks[lo..hi]) + FreeSet(m)
    ensures Inv(hp')
  {
    var a, piece, b := hp.blocks[..lo], hp.blocks[lo..hi], hp.blocks[hi..];
    assert hp.blocks == a + piece + b;
    ReplaceTiled(a, piece, m, b, hp.end, H);
    ReplaceWords(a, piece, m, b, hp.end, false, H);
    ReplaceCoalesced(a, piece, m, b);
    ReplaceFree(a, piece, m, b, hp.end, H);
  }

  lemma KnownFree(hp: Heap)
    requires Inv(hp)
    ensures FreeKnown(hp, hp.free)
  {
    forall k | 0 <= k < |hp.free| ensures Has(hp.blocks, hp.free[k]) {
      FreeSetHas(hp.blocks, hp.free[k]);
    }
  }

  /** An address on the free list is that of an unused block, whose payload is counted. */
  lemma PayloadFits(hp: Heap, a: nat)
    requires Inv(hp) && a in hp.free && Has(hp.blocks, a)
    ensures var i := IndexOf(hp.blocks, a); !hp.blocks[i].used && 0 <= Payload(hp, i) <= hp.avail
  {
    var i := IndexOf(hp.blocks, a);
    FreeSetHas(hp.blocks, a);
    var j :| 0 <= j < |hp.blocks| && hp.blocks[j] == Block(a, false);
    SameAddr(hp.blocks, hp.end, H, i, j);
    Order(hp.blocks, hp.end, H, i);
    FreePayloadCounted(hp.blocks, hp.end, H, i);
  }

  /** An address inside a block is not that of another. */
  lemma InsideNotFree(hp: Heap, i: nat, n: nat)
    requires Inv(hp) && i < |hp.blocks| && hp.blocks[i].addr < n < NextAddr(hp.blocks, hp.end, i)
    ensures n !in hp.free
  {
    if n in hp.free {
      FreeSetHas(hp.blocks, n);
      var j :| 0 <= j < |hp.blocks| && hp.blocks[j] == Block(n, false);
      if j < i {
        Ordered(hp.blocks, hp.end, H, j, i);
      } else if i < j {
        Ordered(hp.blocks, hp.end, H, i, j);
      }
    }
  }

  lemma EndOf(hp: Heap, i: nat)
    requires Inv(hp) && i < |hp.blocks|
    ensures Start(hp.blocks[i + 1..], hp.end) == NextAddr(hp.blocks, hp.end, i)
    ensures hp.blocks[i].addr + H <= NextAddr(hp.blocks, hp.end, i)
  {
    Order(hp.blocks, hp.end, H, i);
  }

  lemma AllocAtKeeps(hp: Heap, i: nat, n: nat)
    requires Inv(hp) && i < |hp.blocks| && !hp.blocks[i].used && n <= Payload(hp, i) <= hp.avail
    ensures Inv(AllocAt(hp, i, n))
  {
    hide Tiled, Words, Coalesced, FreeSet, Distinct, Without;
    var x, e, room := hp.blocks[i], NextAddr(hp.blocks, hp.end, i), Payload(hp, i);
    CutSeparated(hp.blocks, i, i + 1);
    assert hp.blocks[i..i + 1] == [x];
    One(x, e, H, false, H);
    FreeOne(x);
    ElementsCut(hp.free, x.addr);
    if Splits(room, n) {
      var y, z := Block(x.addr, true), Block(x.addr + H + n, false);
      Two(y, z, e, H, false, H);
      FreeTwo(y, z);
      InsideNotFree(hp, i, z.addr);
      assert z.addr !in Elements(Without(hp.free, x.addr));
      ElementsPush(Without(hp.free, x.addr), z.addr);
      SpliceKeeps(hp, i, i + 1, [y, z], AllocAt(hp, i, n));
    } else {
      var y := Block(x.addr, true);
      One(y, e, H, false, H);
      FreeOne(y);
      SpliceKeeps(hp, i, i + 1, [y], AllocAt(hp, i, n));
    }
  }

  /** Used blocks are not on the free list, free ones are. */
  lemma Listed(hp: Heap, i: nat)
    requires Inv(hp) && i < |hp.blocks|
    ensures hp.blocks[i].addr in hp.free <==> !hp.blocks[i].used
    ensures hp.blocks[i].addr in Elements(hp.free) <==> !hp.blocks[i].used
  {
    var x := hp.blocks[i];
    FreeSetHas(hp.blocks, x.addr);
    if Block(x.addr, false) in hp.blocks {
      var j :| 0 <= j < |hp.blocks| && hp.blocks[j] == Block(x.addr, false);
      SameAddr(hp.blocks, hp.end, H, i, j);
    }
  }

  lemma FreeAlone(hp: Heap, i: nat)
    requires Inv(hp) && i < |hp.blocks| && hp.blocks[i].used && Payload(hp, i) >= 0
    requires !FreeBefore(hp, i) && !FreeAfter(hp, i)
    ensures Inv(FreeAt(hp, i))
  {
    var x, e := hp.blocks[i], NextAddr(hp.blocks, hp.end, i);
    var y := Block(x.addr, false);
    assert hp.blocks[i..i + 1] == [x];
    One(x, e, H, false, H);
    One(y, e, H, false, H);
    FreeOne(x);
    FreeOne(y);
    Listed(hp, i);
    ElementsPush(hp.free, x.addr);
    SpliceKeeps(hp, i, i + 1, [y], FreeAt(hp, i));
  }

  lemma FreeLeft(hp: Heap, i: nat)
    requires Inv(hp) && i < |hp.blocks| && hp.blocks[i].used && Payload(hp, i) >= 0
    requires FreeBefore(hp, i) && !FreeAfter(hp, i)
    ensures Inv(FreeAt(hp, i))
  {
    var w, x, e := hp.blocks[i - 1], hp.blocks[i], NextAddr(hp.blocks, hp.end, i);
    EndOf(hp, i - 1);
    CutSeparated(hp.blocks, i - 1, i + 1);
    assert hp.blocks[i - 1..i + 1] == [w, x];
    Two(w, x, e, H, false, H);
    One(w, e, H, false, H);
    FreeOne(w);
    FreeTwo(w, x);
    Listed(hp, i - 1);
    SpliceKeeps(hp, i - 1, i + 1, [w], FreeAt(hp, i));
  }

  lemma FreeRight(hp: Heap, i: nat)
    requires Inv(hp) && i < |hp.blocks| && hp.blocks[i].used && Payload(hp, i) >= 0
    requires !FreeBefore(hp, i) && FreeAfter(hp, i)
    ensures Inv(FreeAt(hp, i))
  {
    var x, z, e := hp.blocks[i], hp.blocks[i + 1], NextAddr(hp.blocks, hp.end, i + 1);
    var y := Block(x.addr, false);
    EndOf(hp, i + 1);
    CutSeparated(hp.blocks, i, i + 2);
    assert hp.blocks[i..i + 2] == [x, z];
    Two(x, z, e, H, false, H);
    One(y, e, H, false, H);
    FreeOne(y);
    FreeTwo(x, z);
    Listed(hp, i);
    ElementsCut(hp.free, z.addr);
    assert x.addr !in Elements(Without(hp.free, z.addr));
    ElementsPush(Without(hp.free, z.addr), x.addr);
    SpliceKeeps(hp, i, i + 2, [y], FreeAt(hp, i));
  }

  lemma FreeBoth(hp: Heap, i: nat)
    requires Inv(hp) && i < |hp.blocks| && hp.blocks[i].used && Payload(hp, i) >= 0
    requires FreeBefore(hp, i) && FreeAfter(hp, i)
    ensures Inv(FreeAt(hp, i))
  {
    hide Tiled, Words, Coalesced, FreeSet, Distinct, Without, Elements, NextAddr;
    var w, x, z, e := hp.blocks[i - 1], hp.blocks[i], hp.blocks[i + 1], NextAddr(hp.blocks, hp.end, i + 1);
    EndOf(hp, i - 1);
    EndOf(hp, i);
    EndOf(hp, i + 1);
    CutSeparated(hp.blocks, i - 1, i + 2);
    assert hp.blocks[i - 1..i + 2] == [w, x, z];
    Three(w, x, z, e, H, false, H);
    One(w, e, H, false, H);
    FreeOne(w);
    FreeThree(w, x, z);
    Listed(hp, i - 1);
    ElementsCut(hp.free, z.addr);
    SpliceKeeps(hp, i - 1, i + 2, [w], FreeAt(hp, i));
  }

  lemma FreeAtKeeps(hp: Heap, i: nat)
    requires Inv(hp) && i < |hp.blocks| && hp.blocks[i].used
    ensures Payload(hp, i) >= 0 && Inv(FreeAt(hp, i))
  {
    EndOf(hp, i);
    if FreeBefore(hp, i) {
      if FreeAfter(hp, i) {
        FreeBoth(hp, i);
      } else {
        FreeLeft(hp, i);
      }
    } else if FreeAfter(hp, i) {
      FreeRight(hp, i);
    } else {
      FreeAlone(hp, i);
    }
  }

  lemma GrowAtKeeps(hp: Heap, i: nat, n: nat)
    requires Inv(hp) && i < |hp.blocks| && hp.blocks[i].used && Payload(hp, i) < n && Grows(hp, i, n)
    ensures n - Payload(hp, i) <= hp.avail && Inv(GrowAt(hp, i, n))
  {
    var x, z, e := hp.blocks[i], hp.blocks[i + 1], NextAddr(hp.blocks, hp.end, i + 1);
    var y := Block(x.addr + H + n, false);
    FreePayloadCounted(hp.blocks, hp.end, H, i + 1);
    CutSeparated(hp.blocks, i, i + 2);
    assert hp.blocks[i..i + 2] == [x, z];
    Two(x, z, e, H, false, H);
    Two(x, y, e, H, false, H);
    FreeTwo(x, z);
    FreeTwo(x, y);
    InsideNotFree(hp, i + 1, y.addr);
    ElementsCut(hp.free, z.addr);
    assert y.addr !in Elements(Without(hp.free, z.addr));
    ElementsPush(Without(hp.free, z.addr), y.addr);
    SpliceKeeps(hp, i, i + 2, [x, y], GrowAt(hp, i, n));
  }

  lemma ShrinkRight(hp: Heap, i: nat, n: nat)
    requires Inv(hp) && i < |hp.blocks| && hp.blocks[i].used && !Keeps(Payload(hp, i), n) && FreeAfter(hp, i)
    ensures Inv(ShrinkAt(hp, i, n))
  {
    hide Tiled, Words, Coalesced, FreeSet, Distinct, Without;
    var x, y := hp.blocks[i], Block(hp.blocks[i].addr + H + n, false);
    InsideNotFree(hp, i, y.addr);
    var z, e := hp.blocks[i + 1], NextAddr(hp.blocks, hp.end, i + 1);
    EndOf(hp, i + 1);
    CutSeparated(hp.blocks, i, i + 2);
    assert hp.blocks[i..i + 2] == [x, z];
    Two(x, z, e, H, false, H);
    Two(x, y, e, H, false, H);
    FreeTwo(x, z);
    FreeTwo(x, y);
    ElementsCut(hp.free, z.addr);
    assert y.addr !in Elements(Without(hp.free, z.addr));
    ElementsPush(Without(hp.free, z.addr), y.addr);
    SpliceKeeps(hp, i, i + 2, [x, y], ShrinkAt(hp, i, n));
  }

  lemma ShrinkAlone(hp: Heap, i: nat, n: nat)
    requires Inv(hp) && i < |hp.blocks| && hp.blocks[i].used && !Keeps(Payload(hp, i), n) && !FreeAfter(hp, i)
    ensures Inv(ShrinkAt(hp, i, n))
  {
    var x, y := hp.blocks[i], Block(hp.blocks[i].addr + H + n, false);
    InsideNotFree(hp, i, y.addr);
    var e := NextAddr(hp.blocks, hp.end, i);
    assert hp.blocks[i..i + 1] == [x];
    One(x, e, H, false, H);
    Two(x, y, e, H, false, H);
    FreeOne(x);
    FreeTwo(x, y);
    ElementsPush(hp.free, y.addr);
    SpliceKeeps(hp, i, i + 1, [x, y], ShrinkAt(hp, i, n));
  }

  lemma ShrinkAtKeeps(hp: Heap, i: nat, n: nat)
    requires Inv(hp) && i < |hp.blocks| && hp.blocks[i].used && !Keeps(Payload(hp, i), n)
    ensures Inv(ShrinkAt(hp, i, n))
  {
    if FreeAfter(hp, i) {
      ShrinkRight(hp, i, n);
    } else {
      ShrinkAlone(hp, i, n);
    }
  }

  lemma AllocKeeps(hp: Heap, n: nat)
    requires Inv(hp)
    ensures Inv(Alloc(hp, n).0)
  {
    if n < hp.avail {
      KnownFree(hp);
      var r := FirstFit(hp, hp.free, n);
      if r.Some? {
        PayloadFits(hp, r.addr);
        AllocAtKeeps(hp, IndexOf(hp.blocks, r.addr), n);
      }
    }
  }

  // ---- what each operation does to the blocks in use -------------------------------------

  function Used(hp: Heap): set<(nat, nat)> {
    UsedSet(hp.blocks, hp.end)
  }

  lemma SpliceUsed(hp: Heap, lo: nat, hi: nat, m: seq<Block>)
    requires Inv(hp) && lo < hi <= |hp.blocks| && m != [] && m[0].addr == hp.blocks[lo].addr
    ensures var e := Start(hp.blocks[hi..], hp.end);
            UsedSet(Splice(hp.blocks, lo, hi, m), hp.end) == Used(hp) - UsedSet(hp.blocks[lo..hi], e) + UsedSet(m, e)
  {
    var a, piece, b := hp.blocks[..lo], hp.blocks[lo..hi], hp.blocks[hi..];
    assert hp.blocks == a + piece + b;
    ReplaceUsed(a, piece, m, b, hp.end, H);
  }

  /** An allocation adds one block, where the free one began. */
  lemma AllocAtUsed(hp: Heap, i: nat, n: nat)
    requires Inv(hp) && i < |hp.blocks| && !hp.blocks[i].used && n <= Payload(hp, i) <= hp.avail
    ensures var a, e := hp.blocks[i].addr, NextAddr(hp.blocks, hp.end, i);
            Used(AllocAt(hp, i, n)) == Used(hp) + {(a, if Splits(Payload(hp, i), n) then a + H + n else e)}
  {
    var x, e := hp.blocks[i], NextAddr(hp.blocks, hp.end, i);
    var y, z := Block(x.addr, true), Block(x.addr + H + n, false);
    assert hp.blocks[i..i + 1] == [x];
    UsedOne(x, e);
    UsedOne(y, e);
    UsedTwo(y, z, e);
    SpliceUsed(hp, i, i + 1, if Splits(Payload(hp, i), n) then [y, z] else [y]);
  }

  /** A release removes exactly the block. */
  lemma FreeAtUsed(hp: Heap, i: nat)
    requires Inv(hp) && i < |hp.blocks| && hp.blocks[i].used
    ensures Payload(hp, i) >= 0
    ensures Used(FreeAt(hp, i)) == Used(hp) - {(hp.blocks[i].addr, NextAddr(hp.blocks, hp.end, i))}
  {
    hide Tiled, Words, Coalesced, FreeSet, Distinct, Elements, UsedSet, Without;
    EndOf(hp, i);
    var left, right := FreeBefore(hp, i), FreeAfter(hp, i);
    var lo, hi := if left then i - 1 else i, if right then i + 2 else i + 1;
    var e := NextAddr(hp.blocks, hp.end, hi - 1);
    var y := Block(hp.blocks[lo].addr, false);
    UsedOne(y, e);
    SpliceUsed(hp, lo, hi, [y]);
    if left && right {
      assert hp.blocks[lo..hi] == [hp.blocks[lo], hp.blocks[i], hp.blocks[i + 1]];
      UsedThree(hp.blocks[lo], hp.blocks[i], hp.blocks[i + 1], e);
    } else if left {
      assert hp.blocks[lo..hi] == [hp.blocks[lo], hp.blocks[i]];
      UsedTwo(hp.blocks[lo], hp.blocks[i], e);
    } else if right {
      assert hp.blocks[lo..hi] == [hp.blocks[i], hp.blocks[i + 1]];
      UsedTwo(hp.blocks[i], hp.blocks[i + 1], e);
    } else {
      assert hp.blocks[lo..hi] == [hp.blocks[i]];
      UsedOne(hp.blocks[i], e);
    }
  }

  /** Resizing in place moves the end of the block and nothing else. */
  lemma GrowAtUsed(hp: Heap, i: nat, n: nat)
    requires Inv(hp) && i < |hp.blocks| && hp.blocks[i].used && Payload(hp, i) < n && Grows(hp, i, n)
    ensures n - Payload(hp, i) <= hp.avail
    ensures var a, e := hp.blocks[i].addr, NextAddr(hp.blocks, hp.end, i);
            Used(GrowAt(hp, i, n)) == Used(hp) - {(a, e)} + {(a, a + H + n)}
  {
    GrowAtKeeps(hp, i, n);
    var x, z, e := hp.blocks[i], hp.blocks[i + 1], NextAddr(hp.blocks, hp.end, i + 1);
    var y := Block(x.addr + H + n, false);
    assert hp.blocks[i..i + 2] == [x, z];
    UsedTwo(x, z, e);
    UsedTwo(x, y, e);
    SpliceUsed(hp, i, i + 2, [x, y]);
  }

  lemma ShrinkAtUsed(hp: Heap, i: nat, n: nat)
    requires Inv(hp) && i < |hp.blocks| && hp.blocks[i].used && !Keeps(Payload(hp, i), n)
    ensures var a, e := hp.blocks[i].addr, NextAddr(hp.blocks, hp.end, i);
            Used(ShrinkAt(hp, i, n)) == Used(hp) - {(a, e)} + {(a, a + H + n)}
  {
    var x, y := hp.blocks[i], Block(hp.blocks[i].addr + H + n, false);
    if FreeAfter(hp, i) {
      var z, e := hp.blocks[i + 1], NextAddr(hp.blocks, hp.end, i + 1);
      assert hp.blocks[i..i + 2] == [x, z];
      UsedTwo(x, z, e);
      UsedTwo(x, y, e);
      SpliceUsed(hp, i, i + 2, [x, y]);
    } else {
      var e := NextAddr(hp.blocks, hp.end, i);
      assert hp.blocks[i..i + 1] == [x];
      UsedOne(x, e);
      UsedTwo(x, y, e);
      SpliceUsed(hp, i, i + 1, [x, y]);
    }
  }

  /** Allocation succeeds exactly when the counter allows it and some free block is large
      enough; the answer is the payload of a block that was free. */
  lemma AllocSucceeds(hp: Heap, n: nat)
    requires Inv(hp)
    ensures Alloc(hp, n).1.Some? <==>
            n < hp.avail && exists i :: 0 <= i < |hp.blocks| && !hp.blocks[i].used && Payload(hp, i) >= n
    ensures var r := Alloc(hp, n).1;
            r.Some? ==>
              exists i :: && 0 <= i < |hp.blocks| && !hp.blocks[i].used && Payload(hp, i) >= n
                          && r.addr == hp.blocks[i].addr + H && Payload(hp, i) <= hp.avail
                          && Alloc(hp, n).0 == AllocAt(hp, i, n)
  {
    KnownFree(hp);
    var r := FirstFit(hp, hp.free, n);
    if i :| 0 <= i < |hp.blocks| && !hp.blocks[i].used && Payload(hp, i) >= n {
      var a := hp.blocks[i].addr;
      Listed(hp, i);
      var k :| 0 <= k < |hp.free| && hp.free[k] == a;
      SameAddr(hp.blocks, hp.end, H, i, IndexOf(hp.blocks, a));
    }
    if r.Some? {
      PayloadFits(hp, r.addr);
    }
  }

  // ---- whole runs ------------------------------------------------------------------------

  datatype Op = AllocOp(bytes: nat) | FreeOp(ptr: Answer) | ReallocOp(ptr: Answer, bytes: nat)

  /** A pointer the heap has given out and not taken back. */
  predicate Live(hp: Heap, ptr: nat) {
    ptr >= H && Has(hp.blocks, ptr - H) && hp.blocks[IndexOf(hp.blocks, ptr - H)].used
  }

  predicate Legal(hp: Heap, op: Op) {
    match op
    case AllocOp(_) => true
    case FreeOp(ptr) => ptr.Some? ==> Live(hp, ptr.addr)
    case ReallocOp(ptr, _) => ptr.Some? ==> Live(hp, ptr.addr)
  }

  function Release(hp: Heap, ptr: Answer): Heap
    requires Inv(hp) && (ptr.Some? ==> Live(hp, ptr.addr))
  {
    if ptr.None? then hp
    else
      var i := IndexOf(hp.blocks, ptr.addr - H);
      FreeAtKeeps(hp, i);
      FreeAt(hp, i)
  }

  /** rt_memheap_realloc of block i to n words when it cannot be resized in place. */
  function Move(hp: Heap, i: nat, n: nat): (Heap, Answer)
    requires Inv(hp) && i < |hp.blocks| && hp.blocks[i].used
  {
    AllocKeeps(hp, n);
    var (h1, r) := Alloc(hp, n);
    if r.None? then (hp, None)
    else
      StillLive(hp, n, i);
      (Release(h1, Some(hp.blocks[i].addr + H)), r)
  }

  function ResizeAt(hp: Heap, i: nat, n: nat): (Heap, Answer)
    requires Inv(hp) && i < |hp.blocks| && hp.blocks[i].used
  {
    var ptr := hp.blocks[i].addr + H;
    if n > Payload(hp, i) then
      if Grows(hp, i, n) then
        GrowAtKeeps(hp, i, n);
        (GrowAt(hp, i, n), Some(ptr))
      else Move(hp, i, n)
    else if Keeps(Payload(hp, i), n) then (hp, Some(ptr))
    else (ShrinkAt(hp, i, n), Some(ptr))
  }

  function Realloc(hp: Heap, ptr: Answer, bytes: nat): (Heap, Answer)
    requires Inv(hp) && (ptr.Some? ==> Live(hp, ptr.addr))
  {
    if bytes == 0 then (Release(hp, ptr), None)
    else if ptr.None? then Alloc(hp, Want(bytes))
    else ResizeAt(hp, IndexOf(hp.blocks, ptr.addr - H), Want(bytes))
  }

  /** A block in use is still there after an allocation. */
  lemma StillLive(hp: Heap, n: nat, i: nat)
    requires Inv(hp) && i < |hp.blocks| && hp.blocks[i].used && Alloc(hp, n).1.Some?
    ensures Inv(Alloc(hp, n).0) && Live(Alloc(hp, n).0, hp.blocks[i].addr + H)
  {
    AllocKeeps(hp, n);
    AllocSucceeds(hp, n);
    var j :| 0 <= j < |hp.blocks| && !hp.blocks[j].used && n <= Payload(hp, j) <= hp.avail && Alloc(hp, n).0 == AllocAt(hp, j, n);
    var h1 := AllocAt(hp, j, n);
    AllocAtUsed(hp, j, n);
    var x := (hp.blocks[i].addr, NextAddr(hp.blocks, hp.end, i));
    UsedSetHas(hp.blocks, hp.end, x);
    UsedSetHas(h1.blocks, h1.end, x);
    var k :| 0 <= k < |h1.blocks| && h1.blocks[k] == Block(x.0, true);
    SameAddr(h1.blocks, h1.end, H, k, IndexOf(h1.blocks, x.0));
  }

  function Next(hp: Heap, op: Op): Heap
    requires Inv(hp) && Legal(hp, op)
  {
    match op
    case AllocOp(bytes) => Alloc(hp, Want(bytes)).0
    case FreeOp(ptr) => Release(hp, ptr)
    case ReallocOp(ptr, bytes) => Realloc(hp, ptr, bytes).0
  }

  lemma ReleaseKeeps(hp: Heap, ptr: Answer)
    requires Inv(hp) && (ptr.Some? ==> Live(hp, ptr.addr))
    ensures Inv(Release(hp, ptr))
  {
    hide Inv, FreeAt;
    if ptr.Some? {
      FreeAtKeeps(hp, IndexOf(hp.blocks, ptr.addr - H));
    }
  }

  lemma MoveKeeps(hp: Heap, i: nat, n: nat)
    requires Inv(hp) && i < |hp.blocks| && hp.blocks[i].used
    ensures Inv(Move(hp, i, n).0)
  {
    if Alloc(hp, n).1.Some? {
      StillLive(hp, n, i);
      ReleaseKeeps(Alloc(hp, n).0, Some(hp.blocks[i].addr + H));
    }
  }

  lemma ResizeAtKeeps(hp: Heap, i: nat, n: nat)
    requires Inv(hp) && i < |hp.blocks| && hp.blocks[i].used
    ensures Inv(ResizeAt(hp, i, n).0)
  {
    if n > Payload(hp, i) {
      if Grows(hp, i, n) {
        GrowAtKeeps(hp, i, n);
      } else {
        MoveKeeps(hp, i, n);
      }
    } else if !Keeps(Payload(hp, i), n) {
      ShrinkAtKeeps(hp, i, n);
    }
  }

  lemma StepKeeps(hp: Heap, op: Op)
    requires Inv(hp) && Legal(hp, op)
    ensures Inv(Next(hp, op))
  {
    match op {
      case AllocOp(bytes) => AllocKeeps(hp, Want(bytes));
      case FreeOp(ptr) => ReleaseKeeps(hp, ptr);
      case ReallocOp(ptr, bytes) =>
        if bytes == 0 {
          ReleaseKeeps(hp, ptr);
        } else if ptr.None? {
          AllocKeeps(hp, Want(bytes));
        } else {
          ResizeAtKeeps(hp, IndexOf(hp.blocks, ptr.addr - H), Want(bytes));
        }
    }
  }

  ghost predicate Reaches(hp: Heap, ops: seq<Op>, hp': Heap)
    requires Inv(hp)
    decreases |ops|
  {
    if ops == [] then hp' == hp
    else Legal(hp, ops[0]) && (StepKeeps(hp, ops[0]); Reaches(Next(hp, ops[0]), ops[1..], hp'))
  }

  lemma {:induction false} RunKeeps(hp: Heap, ops: seq<Op>, hp': Heap)
    requires Inv(hp) && Reaches(hp, ops, hp')
    ensures Inv(hp')
    decreases |ops|
  {
    if ops != [] {
      StepKeeps(hp, ops[0]);
      RunKeeps(Next(hp, ops[0]), ops[1..], hp');
    }
  }

  /** The two structures agree after every run of alloc, realloc and free: the blocks tile the
      pool, the free list holds exactly the unused ones, each once, no two neighbours are both
      free, the counter is the sum of the free payloads, and blocks in use are disjoint. */
  lemma MemHeapSafety(size: nat, ops: seq<Op>, hp: Heap, x: (nat, nat), y: (nat, nat), k: nat)
    requires size >= 2 * H && (InitInv(size); Reaches(Init(size), ops, hp))
    ensures hp.blocks != [] && hp.blocks[0].addr == START && Tiled(hp.blocks, hp.end, H)
    ensures Distinct(hp.free) && forall a :: a in hp.free <==> Block(a, false) in hp.blocks
    ensures 0 < k < |hp.blocks| ==> hp.blocks[k - 1].used || hp.blocks[k].used
    ensures hp.avail == Words(hp.blocks, hp.end, false, H)
    ensures Words(hp.blocks, hp.end, true, 0) + Words(hp.blocks, hp.end, false, 0) == hp.end - START
    ensures x in Used(hp) && y in Used(hp) && x != y ==> x.1 <= y.0 || y.1 <= x.0
  {
    InitInv(size);
    RunKeeps(Init(size), ops, hp);
    CoalescedAt(hp.blocks, k);
    TotalIs(hp.blocks, hp.end);
    if x in Used(hp) && y in Used(hp) && x != y {
      UsedDisjoint(hp.blocks, hp.end, H, x, y);
    }
    forall a ensures a in hp.free <==> Block(a, false) in hp.blocks {
      FreeSetHas(hp.blocks, a);
    }
  }

  // ---- the high water mark ---------------------------------------------------------------

  /** max_used_size is never below what is in use, never falls, and rises only to what an allocation has in
      use. */
  lemma PeakIs(hp: Heap, op: Op)
    requires Inv(hp) && Legal(hp, op) && PoolSize(hp) - hp.avail <= hp.maxUsed
    ensures var hp' := Next(hp, op);
            && PoolSize(hp') == PoolSize(hp) && PoolSize(hp') - hp'.avail <= hp'.maxUsed && hp.maxUsed <= hp'.maxUsed
            && (op.AllocOp? ==> hp'.maxUsed == hp.maxUsed || hp'.maxUsed == PoolSize(hp') - hp'.avail)
            && (op.FreeOp? ==> hp'.maxUsed == hp.maxUsed)
  {
    hide Inv, Used;
    match op {
      case AllocOp(bytes) => AllocPeak(hp, Want(bytes));
      case FreeOp(ptr) => ReleasePeak(hp, ptr);
      case ReallocOp(ptr, bytes) =>
        if bytes == 0 {
          ReleasePeak(hp, ptr);
        } else if ptr.None? {
          AllocPeak(hp, Want(bytes));
        } else {
          ResizePeak(hp, IndexOf(hp.blocks, ptr.addr - H), Want(bytes));
        }
    }
  }

  lemma AllocPeak(hp: Heap, n: nat)
    requires Inv(hp) && PoolSize(hp) - hp.avail <= hp.maxUsed
    ensures var hp' := Alloc(hp, n).0;
            && hp'.end == hp.end && PoolSize(hp') - hp'.avail <= hp'.maxUsed && hp.maxUsed <= hp'.maxUsed
            && (hp'.maxUsed == hp.maxUsed || hp'.maxUsed == PoolSize(hp') - hp'.avail)
  {
    hide Inv, FirstFit;
    KnownFree(hp);
    var r := FirstFit(hp, hp.free, n);
    if n < hp.avail && r.Some? {
      FirstFitIs(hp, n);
      PayloadFits(hp, r.addr);
    }
  }

  lemma FirstFitIs(hp: Heap, n: nat)
    requires FreeKnown(hp, hp.free)
    ensures var r := FirstFit(hp, hp.free, n); r.Some? ==> r.addr in hp.free && Payload(hp, IndexOf(hp.blocks, r.addr)) >= n
  {
  }

  lemma ReleasePeak(hp: Heap, ptr: Answer)
    requires Inv(hp) && (ptr.Some? ==> Live(hp, ptr.addr))
    ensures var hp' := Release(hp, ptr); hp'.end == hp.end && hp'.maxUsed == hp.maxUsed && hp'.avail >= hp.avail
  {
    hide Inv, FreeAt, Payload;
    if ptr.Some? {
      var i := IndexOf(hp.blocks, ptr.addr - H);
      FreeAtKeeps(hp, i);
      FreeAtGains(hp, i);
    }
  }

  lemma FreeAtGains(hp: Heap, i: nat)
    requires i < |hp.blocks| && Payload(hp, i) >= 0
    ensures var hp' := FreeAt(hp, i); hp'.end == hp.end && hp'.maxUsed == hp.maxUsed && hp'.avail >= hp.avail
  {
    hide Payload, Splice, Without;
  }

  lemma ResizePeak(hp: Heap, i: nat, n: nat)
    requires Inv(hp) && i < |hp.blocks| && hp.blocks[i].used && PoolSize(hp) - hp.avail <= hp.maxUsed
    ensures var hp' := ResizeAt(hp, i, n).0;
            hp'.end == hp.end && PoolSize(hp') - hp'.avail <= hp'.maxUsed && hp.maxUsed <= hp'.maxUsed
  {
    hide Inv, Release, Alloc;
    if n > Payload(hp, i) {
      if Grows(hp, i, n) {
        GrowAtKeeps(hp, i, n);
      } else {
        AllocPeak(hp, n);
        if Alloc(hp, n).1.Some? {
          StillLive(hp, n, i);
          ReleasePeak(Alloc(hp, n).0, Some(hp.blocks[i].addr + H));
        }
      }
    }
  }
}
