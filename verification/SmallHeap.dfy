/**
 The small memory manager: blocks linked by offsets, searched from the lowest free block
 upwards, in units of 4-byte words. This module says what the operations do to the blocks;
 SmallHeapMemory carries them out on the headers in memory.
 */
module SmallHeap {
  import opened BlockList

  /** SIZEOF_STRUCT_MEM and MIN_SIZE_ALIGNED in words. */
  const H: nat := 3
  const MIN: nat := 3

  /** mem_size_aligned, the blocks before the end stub, lfree and the statistics. */
  datatype Heap = Heap(size: nat, blocks: seq<Block>, lfree: nat, used: nat, peak: nat)

  /** Offset of the end stub. */
  function End(hp: Heap): nat {
    hp.size + H
  }

  predicate FreeOrEnd(bs: seq<Block>, end: nat, a: nat) {
    a == end || Block(a, false) in bs
  }

  /** All but coalescing, which fails between the steps of an operation. */
  ghost predicate Shape(hp: Heap) {
    && hp.size >= MIN && hp.blocks != [] && hp.blocks[0].addr == 0
    && Tiled(hp.blocks, End(hp), H)
    && hp.used == Words(hp.blocks, End(hp), true, 0)
    && FreeOrEnd(hp.blocks, End(hp), hp.lfree)
  }

  ghost predicate Inv(hp: Heap) {
    Shape(hp) && Coalesced(hp.blocks)
  }

  /** lfree is the lowest free block. */
  ghost predicate Lowest(hp: Heap) {
    forall i :: 0 <= i < |hp.blocks| && !hp.blocks[i].used ==> hp.lfree <= hp.blocks[i].addr
  }

  /** rt_system_heap_init */
  function Init(size: nat): Heap
    requires size >= MIN
  {
    Heap(size, [Block(0, false)], 0, 0, 0)
  }

  lemma InitInv(size: nat)
    requires size >= MIN
    ensures Inv(Init(size)) && Lowest(Init(size))
  {
  }

  function Payload(hp: Heap, i: nat): int
    requires i < |hp.blocks|
  {
    NextAddr(hp.blocks, End(hp), i) - hp.blocks[i].addr - H
  }

  // ---- allocation ------------------------------------------------------------------------

  /** The loop condition and the test of rt_malloc. The loop stops below size - n, so a block that
      fits exactly in front of the end stub is passed over. */
  predicate Fits(hp: Heap, i: nat, n: nat)
    requires i < |hp.blocks|
  {
    !hp.blocks[i].used && Payload(hp, i) >= n && hp.blocks[i].addr < hp.size - n
  }

  datatype Found = Nowhere | At(index: nat)

  /** The search of rt_malloc from block i upwards. */
  function Search(hp: Heap, i: nat, n: nat): (r: Found)
    requires i <= |hp.blocks|
    ensures r.At? ==> i <= r.index < |hp.blocks| && Fits(hp, r.index, n)
    ensures r.At? ==> forall j :: i <= j < r.index ==> !Fits(hp, j, n)
    ensures r.Nowhere? ==> forall j :: i <= j < |hp.blocks| ==> !Fits(hp, j, n)
    decreases |hp.blocks| - i
  {
    if i == |hp.blocks| then Nowhere
    else if Fits(hp, i, n) then At(i)
    else Search(hp, i + 1, n)
  }

  /** The first free block from i upwards, or the end stub. */
  function NextFree(bs: seq<Block>, end: nat, i: nat): (a: nat)
    requires i <= |bs|
    ensures FreeOrEnd(bs, end, a)
    decreases |bs| - i
  {
    if i == |bs| then end
    else if bs[i].used then NextFree(bs, end, i + 1)
    else
      assert bs[i] == Block(bs[i].addr, false);
      bs[i].addr
  }

  predicate Splits(room: int, n: nat) {
    room >= n + H + MIN
  }

  function Max(a: nat, b: nat): nat {
    if a < b then b else a
  }

  function MallocAt(hp: Heap, i: nat, n: nat): Heap
    requires i < |hp.blocks| && n <= Payload(hp, i)
  {
    var a, room := hp.blocks[i].addr, Payload(hp, i);
    var m := if Splits(room, n) then [Block(a, true), Block(a + H + n, false)] else [Block(a, true)];
    var used := hp.used + if Splits(room, n) then n + H else room + H;
    var blocks := Splice(hp.blocks, i, i + 1, m);
    Heap(hp.size, blocks, if a == hp.lfree then NextFree(blocks, End(hp), i) else hp.lfree, used, Max(hp.peak, used))
  }

  /** Where the search starts. */
  function FirstIndex(hp: Heap): (i: nat)
    requires Inv(hp)
    ensures i <= |hp.blocks| && (i < |hp.blocks| ==> hp.blocks[i] == Block(hp.lfree, false))
    ensures i == |hp.blocks| ==> hp.lfree == End(hp)
  {
    if hp.lfree == End(hp) then |hp.blocks|
    else
      assert Block(hp.lfree, false) in hp.blocks;
      FreeIndex(hp);
      IndexOf(hp.blocks, hp.lfree)
  }

  lemma FreeIndex(hp: Heap)
    requires Inv(hp) && Block(hp.lfree, false) in hp.blocks
    ensures Has(hp.blocks, hp.lfree) && hp.blocks[IndexOf(hp.blocks, hp.lfree)] == Block(hp.lfree, false)
  {
    var j :| 0 <= j < |hp.blocks| && hp.blocks[j] == Block(hp.lfree, false);
    SameAddr(hp.blocks, End(hp), H, j, IndexOf(hp.blocks, hp.lfree));
  }

  /** Aligned size in words. */
  function Round(bytes: nat): nat {
    (bytes + 3) / 4
  }

  datatype Answer = None | Some(addr: nat)

  /** rt_malloc */
  function Malloc(hp: Heap, bytes: nat): (Heap, Answer)
    requires Inv(hp)
  {
    if bytes == 0 || Round(bytes) > hp.size then (hp, None)
    else
      var n := Max(Round(bytes), MIN);
      var r := Search(hp, FirstIndex(hp), n);
      if r.Nowhere? then (hp, None) else (MallocAt(hp, r.index, n), Some(hp.blocks[r.index].addr + H))
  }

  // ---- release ---------------------------------------------------------------------------

  predicate FreeBefore(hp: Heap, i: nat)
    requires i < |hp.blocks|
  {
    i > 0 && !hp.blocks[i - 1].used
  }

  predicate FreeAfter(hp: Heap, i: nat)
    requires i < |hp.blocks|
  {
    i + 1 < |hp.blocks| && !hp.blocks[i + 1].used
  }

  /** plug_holes on block i, which is free: it joins a free next and a free previous block. */
  function Plug(hp: Heap, i: nat): Heap
    requires i < |hp.blocks|
  {
    var left, right := FreeBefore(hp, i), FreeAfter(hp, i);
    var lo, hi := if left then i - 1 else i, if right then i + 2 else i + 1;
    var l1 := if right && hp.lfree == hp.blocks[i + 1].addr then hp.blocks[i].addr else hp.lfree;
    hp.(blocks := Splice(hp.blocks, lo, hi, [Block(hp.blocks[lo].addr, false)]),
        lfree := if left && l1 == hp.blocks[i].addr then hp.blocks[lo].addr else l1)
  }

  /** Block i marked free, lfree lowered, the statistics adjusted. */
  function Unmark(hp: Heap, i: nat): Heap
    requires i < |hp.blocks| && Payload(hp, i) + H <= hp.used
  {
    var a := hp.blocks[i].addr;
    hp.(blocks := hp.blocks[i := Block(a, false)], lfree := if a < hp.lfree then a else hp.lfree,
        used := hp.used - (Payload(hp, i) + H))
  }

  /** rt_free */
  function FreeAt(hp: Heap, i: nat): Heap
    requires i < |hp.blocks| && Payload(hp, i) + H <= hp.used
  {
    Plug(Unmark(hp, i), i)
  }

  // ---- resizing --------------------------------------------------------------------------

  predicate Shrinks(room: int, n: nat) {
    n + H + MIN < room
  }

  /** Block i cut to n words; the rest is a free block behind it. */
  function Cut(hp: Heap, i: nat, n: nat): Heap
    requires i < |hp.blocks| && n <= Payload(hp, i) <= hp.used
  {
    var a := hp.blocks[i].addr;
    hp.(blocks := Splice(hp.blocks, i, i + 1, [Block(a, true), Block(a + H + n, false)]),
        used := hp.used - (Payload(hp, i) - n))
  }

  function ShrinkAt(hp: Heap, i: nat, n: nat): Heap
    requires i < |hp.blocks| && n <= Payload(hp, i) <= hp.used
  {
    Plug(Cut(hp, i, n), i + 1)
  }

  // ---- every operation keeps the invariant -----------------------------------------------

  /** Some blocks make way for others that cover the same range. */
  lemma SpliceShape(hp: Heap, lo: nat, hi: nat, m: seq<Block>, hp': Heap)
    requires Shape(hp) && lo < hi <= |hp.blocks| && m != [] && hp'.size == hp.size
    requires hp'.blocks == Splice(hp.blocks, lo, hi, m) && m[0].addr == hp.blocks[lo].addr
    requires var e := Start(hp.blocks[hi..], End(hp));
             && Tiled(m, e, H)
             && hp'.used == hp.used - Words(hp.blocks[lo..hi], e, true, 0) + Words(m, e, true, 0)
    requires FreeOrEnd(hp'.blocks, End(hp'), hp'.lfree)
    ensures Shape(hp')
  {
    hide Tiled, Words, FreeOrEnd;
    var a, piece, b, end := hp.blocks[..lo], hp.blocks[lo..hi], hp.blocks[hi..], End(hp);
    assert hp.blocks == a + piece + b;
    ReplaceTiled(a, piece, m, b, end, H);
    ReplaceWords(a, piece, m, b, end, true, 0);
  }

  lemma SpliceUsed(hp: Heap, lo: nat, hi: nat, m: seq<Block>)
    requires Shape(hp) && lo < hi <= |hp.blocks| && m != [] && m[0].addr == hp.blocks[lo].addr
    ensures var e := Start(hp.blocks[hi..], End(hp));
            UsedSet(Splice(hp.blocks, lo, hi, m), End(hp)) == Used(hp) - UsedSet(hp.blocks[lo..hi], e) + UsedSet(m, e)
  {
    var a, piece, b := hp.blocks[..lo], hp.blocks[lo..hi], hp.blocks[hi..];
    assert hp.blocks == a + piece + b;
    ReplaceUsed(a, piece, m, b, End(hp), H);
  }

  function Used(hp: Heap): set<(nat, nat)> {
    UsedSet(hp.blocks, End(hp))
  }

  lemma EndOf(hp: Heap, i: nat)
    requires Shape(hp) && i < |hp.blocks|
    ensures Start(hp.blocks[i + 1..], End(hp)) == NextAddr(hp.blocks, End(hp), i)
    ensures hp.blocks[i].addr + H <= NextAddr(hp.blocks, End(hp), i) <= End(hp)
  {
    Order(hp.blocks, End(hp), H, i);
  }

  /** Around block i everything is coalesced. */
  ghost predicate CoalescedBut(bs: seq<Block>, i: nat)
    requires i < |bs|
  {
    Coalesced(bs[..i]) && Coalesced(bs[i + 1..])
  }

  lemma PlugCoalesced(hp: Heap, i: nat)
    requires i < |hp.blocks| && !hp.blocks[i].used && CoalescedBut(hp.blocks, i)
    ensures Coalesced(Plug(hp, i).blocks)
  {
    var bs := hp.blocks;
    var left, right := FreeBefore(hp, i), FreeAfter(hp, i);
    var lo, hi := if left then i - 1 else i, if right then i + 2 else i + 1;
    var y := Block(bs[lo].addr, false);
    var a, b := bs[..lo], bs[hi..];
    if left {
      assert bs[..i] == a + [bs[lo]];
    }
    CoalescedConcat(a, [y]);
    CoalescedConcat(a + [y], b);
  }

  /** The free blocks that plug_holes joins, as one. */
  lemma PlugShape(hp: Heap, i: nat)
    requires Shape(hp) && i < |hp.blocks| && !hp.blocks[i].used
    ensures Shape(Plug(hp, i)) && Used(Plug(hp, i)) == Used(hp)
  {
    hide Tiled, Words, UsedSet, FreeOrEnd;
    var left, right := FreeBefore(hp, i), FreeAfter(hp, i);
    var lo, hi := if left then i - 1 else i, if right then i + 2 else i + 1;
    EndOf(hp, lo);
    NextBelow(hp, lo, hi - 1);
    var e, y := NextAddr(hp.blocks, End(hp), hi - 1), Block(hp.blocks[lo].addr, false);
    PlugFree(hp, i);
    AllFree(hp.blocks[lo..hi], e);
    One(y, e, H, true, 0);
    UsedOne(y, e);
    SpliceShape(hp, lo, hi, [y], Plug(hp, i));
    SpliceUsed(hp, lo, hi, [y]);
  }

  lemma NextBelow(hp: Heap, i: nat, j: nat)
    requires Shape(hp) && i <= j < |hp.blocks|
    ensures NextAddr(hp.blocks, End(hp), i) <= NextAddr(hp.blocks, End(hp), j)
  {
    if i < j {
      Ordered(hp.blocks, End(hp), H, i, j);
      EndOf(hp, j);
    }
  }

  lemma {:induction false} AllFree(bs: seq<Block>, e: nat)
    requires forall j :: 0 <= j < |bs| ==> !bs[j].used
    ensures Words(bs, e, true, 0) == 0 && UsedSet(bs, e) == {}
    decreases |bs|
  {
    if bs != [] {
      AllFree(bs[1..], e);
    }
  }

  /** lfree still names a free block or the end stub. */
  lemma PlugFree(hp: Heap, i: nat)
    requires Shape(hp) && i < |hp.blocks| && !hp.blocks[i].used
    ensures FreeOrEnd(Plug(hp, i).blocks, End(hp), Plug(hp, i).lfree)
  {
  }

  /** Another free block stays when block i is exchanged. */
  lemma OtherFree(bs: seq<Block>, end: nat, i: nat, m: seq<Block>, a: nat)
    requires i < |bs| && FreeOrEnd(bs, end, a) && bs[i] != Block(a, false)
    ensures FreeOrEnd(Splice(bs, i, i + 1, m), end, a)
  {
  }

  lemma MallocAtKeeps(hp: Heap, i: nat, n: nat)
    requires Inv(hp) && i < |hp.blocks| && !hp.blocks[i].used && n <= Payload(hp, i)
    ensures Inv(MallocAt(hp, i, n))
    ensures var a, e := hp.blocks[i].addr, NextAddr(hp.blocks, End(hp), i);
            Used(MallocAt(hp, i, n)) == Used(hp) + {(a, if Splits(Payload(hp, i), n) then a + H + n else e)}
  {
    hide Tiled, Words, UsedSet, FreeOrEnd, Coalesced;
    var x, e, hp' := hp.blocks[i], NextAddr(hp.blocks, End(hp), i), MallocAt(hp, i, n);
    var y, z := Block(x.addr, true), Block(x.addr + H + n, false);
    var m := if Splits(Payload(hp, i), n) then [y, z] else [y];
    assert hp.blocks[i..i + 1] == [x] && x == Block(x.addr, false);
    if x.addr != hp.lfree {
      OtherFree(hp.blocks, End(hp), i, m, hp.lfree);
    }
    One(x, e, H, true, 0);
    One(y, e, H, true, 0);
    Two(y, z, e, H, true, 0);
    UsedOne(x, e);
    UsedOne(y, e);
    UsedTwo(y, z, e);
    MallocCoalesced(hp.blocks, i, m);
    SpliceShape(hp, i, i + 1, m, hp');
    SpliceUsed(hp, i, i + 1, m);
  }

  lemma MallocCoalesced(bs: seq<Block>, i: nat, m: seq<Block>)
    requires Coalesced(bs) && i < |bs| && !bs[i].used && |m| in {1, 2} && m[0].used
    ensures Coalesced(Splice(bs, i, i + 1, m))
  {
    assert bs == bs[..i] + [bs[i]] + bs[i + 1..];
    CutSeparated(bs, i, i + 1);
    ReplaceCoalesced(bs[..i], [bs[i]], m, bs[i + 1..]);
  }

  lemma UnmarkUsed(hp: Heap, i: nat)
    requires Inv(hp) && i < |hp.blocks| && hp.blocks[i].used && Payload(hp, i) + H <= hp.used
    ensures Used(Unmark(hp, i)) == Used(hp) - {(hp.blocks[i].addr, NextAddr(hp.blocks, End(hp), i))}
  {
    var x, e := hp.blocks[i], NextAddr(hp.blocks, End(hp), i);
    UnmarkedFree(hp.blocks, End(hp), i, hp.lfree);
    UsedOne(x, e);
    UsedOne(Block(x.addr, false), e);
    SpliceUsed(hp, i, i + 1, [Block(x.addr, false)]);
  }

  lemma UnmarkShape(hp: Heap, i: nat)
    requires Inv(hp) && i < |hp.blocks| && hp.blocks[i].used
    ensures Payload(hp, i) + H <= hp.used
    ensures Shape(Unmark(hp, i)) && CoalescedBut(Unmark(hp, i).blocks, i)
    ensures Used(Unmark(hp, i)) == Used(hp) - {(hp.blocks[i].addr, NextAddr(hp.blocks, End(hp), i))}
  {
    UsedCounted(hp.blocks, End(hp), i);
    var x, e := hp.blocks[i], NextAddr(hp.blocks, End(hp), i);
    var y := Block(x.addr, false);
    EndOf(hp, i);
    CoalescedAround(hp.blocks, i);
    SpliceShape(hp, i, i + 1, [y], Unmark(hp, i));
    UnmarkUsed(hp, i);
  }

  lemma UnmarkedFree(bs: seq<Block>, end: nat, i: nat, lfree: nat)
    requires i < |bs| && bs[i].used && FreeOrEnd(bs, end, lfree)
    ensures var y := Block(bs[i].addr, false);
            && bs[i := y] == Splice(bs, i, i + 1, [y]) && bs[i..i + 1] == [bs[i]]
            && bs[i := y][..i] == bs[..i] && bs[i := y][i + 1..] == bs[i + 1..]
            && FreeOrEnd(bs[i := y], end, lfree) && FreeOrEnd(bs[i := y], end, y.addr)
  {
  }

  lemma {:induction false} UsedCounted(bs: seq<Block>, end: nat, i: nat)
    requires Tiled(bs, end, H) && i < |bs| && bs[i].used
    ensures NextAddr(bs, end, i) - bs[i].addr <= Words(bs, end, true, 0)
    decreases |bs|
  {
    if i == 0 {
      WordsNonNegative(bs[1..], end, true, 0, H);
    } else {
      UsedCounted(bs[1..], end, i - 1);
    }
  }

  lemma CoalescedAround(bs: seq<Block>, i: nat)
    requires Coalesced(bs) && i < |bs|
    ensures CoalescedBut(bs, i)
  {
    assert bs == bs[..i] + [bs[i]] + bs[i + 1..];
    CoalescedConcat(bs[..i] + [bs[i]], bs[i + 1..]);
    CoalescedConcat(bs[..i], [bs[i]]);
  }

  lemma FreeAtKeeps(hp: Heap, i: nat)
    requires Inv(hp) && i < |hp.blocks| && hp.blocks[i].used
    ensures Payload(hp, i) + H <= hp.used && Inv(FreeAt(hp, i))
    ensures Used(FreeAt(hp, i)) == Used(hp) - {(hp.blocks[i].addr, NextAddr(hp.blocks, End(hp), i))}
  {
    UnmarkShape(hp, i);
    var hp' := Unmark(hp, i);
    PlugShape(hp', i);
    PlugCoalesced(hp', i);
  }

  lemma CutUsed(hp: Heap, i: nat, n: nat)
    requires Inv(hp) && i < |hp.blocks| && hp.blocks[i].used && n <= Payload(hp, i) <= hp.used
    ensures var a, e := hp.blocks[i].addr, NextAddr(hp.blocks, End(hp), i);
            Used(Cut(hp, i, n)) == Used(hp) - {(a, e)} + {(a, a + H + n)}
  {
    var x, e := hp.blocks[i], NextAddr(hp.blocks, End(hp), i);
    var z := Block(x.addr + H + n, false);
    CutPieces(hp.blocks, i, z);
    UsedOne(x, e);
    UsedTwo(x, z, e);
    SpliceUsed(hp, i, i + 1, [x, z]);
  }

  lemma CutShape(hp: Heap, i: nat, n: nat)
    requires Inv(hp) && i < |hp.blocks| && hp.blocks[i].used && Shrinks(Payload(hp, i), n)
    ensures n <= Payload(hp, i) <= hp.used
    ensures var hp' := Cut(hp, i, n);
            Shape(hp') && i + 1 < |hp'.blocks| && CoalescedBut(hp'.blocks, i + 1) && !hp'.blocks[i + 1].used
    ensures var a, e := hp.blocks[i].addr, NextAddr(hp.blocks, End(hp), i);
            Used(Cut(hp, i, n)) == Used(hp) - {(a, e)} + {(a, a + H + n)}
  {
    UsedCounted(hp.blocks, End(hp), i);
    var x, z := hp.blocks[i], Block(hp.blocks[i].addr + H + n, false);
    CutUsed(hp, i, n);
    CutCoalesced(hp.blocks, i, z);
    CutTiled(hp, i, n);
  }

  lemma CutTiled(hp: Heap, i: nat, n: nat)
    requires Inv(hp) && i < |hp.blocks| && hp.blocks[i].used && Shrinks(Payload(hp, i), n) && Payload(hp, i) <= hp.used
    ensures Shape(Cut(hp, i, n))
  {
    var x, e := hp.blocks[i], NextAddr(hp.blocks, End(hp), i);
    var z := Block(x.addr + H + n, false);
    OtherFree(hp.blocks, End(hp), i, [x, z], hp.lfree);
    CutPieces(hp.blocks, i, z);
    One(x, e, H, true, 0);
    Two(x, z, e, H, true, 0);
    SpliceShape(hp, i, i + 1, [x, z], Cut(hp, i, n));
  }

  lemma CutCoalesced(bs: seq<Block>, i: nat, z: Block)
    requires Coalesced(bs) && i < |bs|
    ensures var bs' := Splice(bs, i, i + 1, [bs[i], z]); i + 1 < |bs'| && CoalescedBut(bs', i + 1)
  {
    CoalescedAround(bs, i);
    CoalescedPrefix(bs, i);
    CutPieces(bs, i, z);
  }

  lemma CutPieces(bs: seq<Block>, i: nat, z: Block)
    requires i < |bs|
    ensures var bs' := Splice(bs, i, i + 1, [bs[i], z]);
            && |bs'| == |bs| + 1 && bs[i..i + 1] == [bs[i]] && bs'[i + 1] == z
            && bs'[..i + 1] == bs[..i] + [bs[i]] && bs'[i + 2..] == bs[i + 1..]
  {
  }

  lemma CoalescedPrefix(bs: seq<Block>, i: nat)
    requires Coalesced(bs) && i < |bs|
    ensures Coalesced(bs[..i] + [bs[i]])
  {
    assert bs == bs[..i] + [bs[i]] + bs[i + 1..];
    CoalescedConcat(bs[..i] + [bs[i]], bs[i + 1..]);
  }

  lemma ShrinkAtKeeps(hp: Heap, i: nat, n: nat)
    requires Inv(hp) && i < |hp.blocks| && hp.blocks[i].used && Shrinks(Payload(hp, i), n)
    ensures n <= Payload(hp, i) <= hp.used && Inv(ShrinkAt(hp, i, n))
    ensures var a, e := hp.blocks[i].addr, NextAddr(hp.blocks, End(hp), i);
            Used(ShrinkAt(hp, i, n)) == Used(hp) - {(a, e)} + {(a, a + H + n)}
  {
    CutShape(hp, i, n);
    var hp' := Cut(hp, i, n);
    PlugShape(hp', i + 1);
    PlugCoalesced(hp', i + 1);
  }

  // ---- lfree over malloc and free --------------------------------------------------------

  lemma {:induction false} NextFreeLowest(bs: seq<Block>, end: nat, i: nat, j: nat)
    requires Tiled(bs, end, H) && i <= j < |bs| && !bs[j].used
    ensures NextFree(bs, end, i) <= bs[j].addr
    decreases |bs| - i
  {
    if bs[i].used {
      NextFreeLowest(bs, end, i + 1, j);
    } else if i < j {
      Ordered(bs, end, H, i, j);
    }
  }

  lemma MallocAtLowest(hp: Heap, i: nat, n: nat)
    requires Inv(hp) && Lowest(hp) && i < |hp.blocks| && !hp.blocks[i].used && n <= Payload(hp, i)
    ensures Lowest(MallocAt(hp, i, n))
  {
    hide Tiled, Coalesced, Words, Used;
    MallocAtKeeps(hp, i, n);
    var hp', a := MallocAt(hp, i, n), hp.blocks[i].addr;
    forall j | 0 <= j < |hp'.blocks| && !hp'.blocks[j].used ensures hp'.lfree <= hp'.blocks[j].addr {
      if j < i {
        Ordered(hp.blocks, End(hp), H, j, i);
      } else if a == hp.lfree {
        NextFreeLowest(hp'.blocks, End(hp'), i, j);
      }
    }
  }

  lemma FreeAtLowest(hp: Heap, i: nat)
    requires Inv(hp) && Lowest(hp) && i < |hp.blocks| && hp.blocks[i].used && Payload(hp, i) + H <= hp.used
    ensures Lowest(FreeAt(hp, i))
  {
    UnmarkShape(hp, i);
    var hp1 := Unmark(hp, i);
    PlugLowest(hp1, i);
  }

  lemma PlugLowest(hp: Heap, i: nat)
    requires Shape(hp) && Lowest(hp) && i < |hp.blocks| && !hp.blocks[i].used
    ensures Lowest(Plug(hp, i))
  {
    var left, right := FreeBefore(hp, i), FreeAfter(hp, i);
    var lo, hi := if left then i - 1 else i, if right then i + 2 else i + 1;
    var hp', y := Plug(hp, i), Block(hp.blocks[lo].addr, false);
    if left {
      Ordered(hp.blocks, End(hp), H, i - 1, i);
    }
    if right {
      Ordered(hp.blocks, End(hp), H, i, i + 1);
    }
  }

  // ---- what the search finds -------------------------------------------------------------

  /** Allocation of a possible size succeeds exactly when a block at or above lfree fits below the
      bound of the search; the lowest such block is taken. */
  lemma MallocSucceeds(hp: Heap, bytes: nat)
    requires Inv(hp)
    ensures var n := Max(Round(bytes), MIN);
            Malloc(hp, bytes).1.Some? <==>
            && bytes != 0 && Round(bytes) <= hp.size
            && exists i :: 0 <= i < |hp.blocks| && hp.lfree <= hp.blocks[i].addr && Fits(hp, i, n)
    ensures var n, r := Max(Round(bytes), MIN), Malloc(hp, bytes).1;
            r.Some? ==>
              exists i :: && 0 <= i < |hp.blocks| && Fits(hp, i, n) && r.addr == hp.blocks[i].addr + H
                          && Malloc(hp, bytes).0 == MallocAt(hp, i, n)
                          && forall j :: 0 <= j < i && hp.lfree <= hp.blocks[j].addr ==> !Fits(hp, j, n)
  {
    var n, f := Max(Round(bytes), MIN), FirstIndex(hp);
    forall i | 0 <= i < |hp.blocks| ensures hp.lfree <= hp.blocks[i].addr <==> f <= i {
      IndexOrder(hp, i);
    }
  }

  lemma IndexOrder(hp: Heap, i: nat)
    requires Inv(hp) && i < |hp.blocks|
    ensures hp.lfree <= hp.blocks[i].addr <==> FirstIndex(hp) <= i
  {
    var f := FirstIndex(hp);
    Order(hp.blocks, End(hp), H, i);
    if f < |hp.blocks| {
      if f < i {
        Ordered(hp.blocks, End(hp), H, f, i);
      } else if i < f {
        Ordered(hp.blocks, End(hp), H, i, f);
      }
    }
  }

  /** With lfree lowest the search is first fit over the whole heap: no lower block fits. */
  lemma MallocIsFirstFit(hp: Heap, bytes: nat, j: nat)
    requires Inv(hp) && Lowest(hp) && j < |hp.blocks| && Fits(hp, j, Max(Round(bytes), MIN))
    requires bytes != 0 && Round(bytes) <= hp.size
    ensures Malloc(hp, bytes).1.Some? && Malloc(hp, bytes).1.addr <= hp.blocks[j].addr + H
  {
    MallocSucceeds(hp, bytes);
    var n, r := Max(Round(bytes), MIN), Malloc(hp, bytes).1;
    var i :| && 0 <= i < |hp.blocks| && Fits(hp, i, n) && r.addr == hp.blocks[i].addr + H
             && forall k :: 0 <= k < i && hp.lfree <= hp.blocks[k].addr ==> !Fits(hp, k, n);
    if i < j {
      Ordered(hp.blocks, End(hp), H, i, j);
    }
  }

  /** A free block fits but is refused exactly when it fits to the word in front of the end
      stub: the strict bound of the search loop. */
  lemma ExactFitAtEndRefused(hp: Heap, i: nat, n: nat)
    requires Inv(hp) && i < |hp.blocks| && !hp.blocks[i].used && Payload(hp, i) >= n
    ensures !Fits(hp, i, n) <==> i == |hp.blocks| - 1 && Payload(hp, i) == n
  {
    if i + 1 < |hp.blocks| {
      Order(hp.blocks, End(hp), H, i + 1);
    }
  }

  /** On a fresh heap: an allocation succeeds exactly when it needs less than the whole payload, which
      is refused. */
  lemma FreshMallocExactly(size: nat, bytes: nat)
    requires size >= MIN
    ensures Inv(Init(size)) && Payload(Init(size), 0) == size
    ensures Malloc(Init(size), bytes).1.Some? <==> bytes != 0 && Max(Round(bytes), MIN) < size
    ensures Malloc(Init(size), 4 * size) == (Init(size), None)
  {
    InitInv(size);
  }

  // ---- whole runs ------------------------------------------------------------------------

  /** A pointer the heap has given out and not taken back. */
  predicate Live(hp: Heap, ptr: nat) {
    ptr >= H && Has(hp.blocks, ptr - H) && hp.blocks[IndexOf(hp.blocks, ptr - H)].used
  }

  datatype Op = MallocOp(bytes: nat) | FreeOp(ptr: Answer) | ReallocOp(ptr: Answer, bytes: nat)

  predicate Legal(hp: Heap, op: Op) {
    match op
    case MallocOp(_) => true
    case FreeOp(ptr) => ptr.Some? ==> Live(hp, ptr.addr)
    case ReallocOp(ptr, _) => ptr.Some? ==> Live(hp, ptr.addr)
  }

  function Free(hp: Heap, ptr: Answer): Heap
    requires Inv(hp) && (ptr.Some? ==> Live(hp, ptr.addr))
  {
    if ptr.None? then hp
    else
      FreeAtKeeps(hp, IndexOf(hp.blocks, ptr.addr - H));
      FreeAt(hp, IndexOf(hp.blocks, ptr.addr - H))
  }

  /** The last part of rt_realloc: a new block, a copy, a release. */
  function Move(hp: Heap, ptr: nat, bytes: nat): (Heap, Answer)
    requires Inv(hp) && Live(hp, ptr)
  {
    var (h1, r) := Malloc(hp, bytes);
    if r.None? then (hp, None)
    else
      StillLive(hp, bytes, ptr);
      (Free(h1, Some(ptr)), r)
  }

  /** rt_realloc */
  function Realloc(hp: Heap, ptr: Answer, bytes: nat): (Heap, Answer)
    requires Inv(hp) && (ptr.Some? ==> Live(hp, ptr.addr))
  {
    var n := Round(bytes);
    if n > hp.size then (hp, None)
    else if ptr.None? then Malloc(hp, 4 * n)
    else
      var i := IndexOf(hp.blocks, ptr.addr - H);
      if Payload(hp, i) == n then (hp, ptr)
      else if Shrinks(Payload(hp, i), n) then
        ShrinkAtKeeps(hp, i, n);
        (ShrinkAt(hp, i, n), ptr)
      else Move(hp, ptr.addr, 4 * n)
  }

  function Next(hp: Heap, op: Op): Heap
    requires Inv(hp) && Legal(hp, op)
  {
    match op
    case MallocOp(bytes) => Malloc(hp, bytes).0
    case FreeOp(ptr) => Free(hp, ptr)
    case ReallocOp(ptr, bytes) => Realloc(hp, ptr, bytes).0
  }

  lemma MallocKeeps(hp: Heap, bytes: nat)
    requires Inv(hp)
    ensures Inv(Malloc(hp, bytes).0) && Used(hp) <= Used(Malloc(hp, bytes).0)
    ensures Lowest(hp) ==> Lowest(Malloc(hp, bytes).0)
  {
    var n := Max(Round(bytes), MIN);
    var r := Search(hp, FirstIndex(hp), n);
    if r.At? {
      MallocAtKeeps(hp, r.index, n);
      if Lowest(hp) {
        MallocAtLowest(hp, r.index, n);
      }
    }
  }

  lemma FreeKeeps(hp: Heap, ptr: Answer)
    requires Inv(hp) && (ptr.Some? ==> Live(hp, ptr.addr))
    ensures Inv(Free(hp, ptr)) && (Lowest(hp) ==> Lowest(Free(hp, ptr)))
  {
    hide Inv, FreeAt, Lowest, Used, NextAddr;
    if ptr.Some? {
      var i := IndexOf(hp.blocks, ptr.addr - H);
      FreeAtKeeps(hp, i);
      if Lowest(hp) {
        FreeAtLowest(hp, i);
      }
    }
  }

  lemma LiveIs(hp: Heap, ptr: nat, e: nat)
    requires Inv(hp)
    ensures Live(hp, ptr) && e == NextAddr(hp.blocks, End(hp), IndexOf(hp.blocks, ptr - H)) ==> (ptr - H, e) in Used(hp)
    ensures ptr >= H && (ptr - H, e) in Used(hp) ==>
              Live(hp, ptr) && e == NextAddr(hp.blocks, End(hp), IndexOf(hp.blocks, ptr - H))
  {
    if ptr >= H {
      UsedSetHas(hp.blocks, End(hp), (ptr - H, e));
      if i :| 0 <= i < |hp.blocks| && hp.blocks[i] == Block(ptr - H, true) && NextAddr(hp.blocks, End(hp), i) == e {
        SameAddr(hp.blocks, End(hp), H, i, IndexOf(hp.blocks, ptr - H));
      }
    }
  }

  /** A block in use is still there after an allocation. */
  lemma StillLive(hp: Heap, bytes: nat, ptr: nat)
    requires Inv(hp) && Live(hp, ptr)
    ensures Inv(Malloc(hp, bytes).0) && Live(Malloc(hp, bytes).0, ptr)
  {
    var e := NextAddr(hp.blocks, End(hp), IndexOf(hp.blocks, ptr - H));
    MallocKeeps(hp, bytes);
    LiveIs(hp, ptr, e);
    LiveIs(Malloc(hp, bytes).0, ptr, e);
  }

  lemma MoveKeeps(hp: Heap, ptr: nat, bytes: nat)
    requires Inv(hp) && Live(hp, ptr)
    ensures Inv(Move(hp, ptr, bytes).0)
  {
    StillLive(hp, bytes, ptr);
    FreeKeeps(Malloc(hp, bytes).0, Some(ptr));
  }

  lemma StepKeeps(hp: Heap, op: Op)
    requires Inv(hp) && Legal(hp, op)
    ensures Inv(Next(hp, op))
    ensures Lowest(hp) && !op.ReallocOp? ==> Lowest(Next(hp, op))
  {
    hide Inv, Malloc, Free, Move, ShrinkAt, Lowest;
    match op {
      case MallocOp(bytes) => MallocKeeps(hp, bytes);
      case FreeOp(ptr) => FreeKeeps(hp, ptr);
      case ReallocOp(ptr, bytes) =>
        var n := Round(bytes);
        if n <= hp.size {
          if ptr.None? {
            MallocKeeps(hp, 4 * n);
          } else {
            var i := IndexOf(hp.blocks, ptr.addr - H);
            if Payload(hp, i) != n {
              if Shrinks(Payload(hp, i), n) {
                ShrinkAtKeeps(hp, i, n);
              } else {
                MoveKeeps(hp, ptr.addr, 4 * n);
              }
            }
          }
        }
    }
  }

  ghost predicate Reaches(hp: Heap, ops: seq<Op>, hp': Heap)
    requires Inv(hp)
    decreases |ops|
  {
    if ops == [] then hp' == hp
    else Legal(hp, ops[0]) && (StepKeeps(hp, ops[0]); Reaches(Next(hp, ops[0]), ops[1..], hp'))
  }

  lemma {:induction false} RunKeeps(hp: Heap, ops: seq<Op>, hp': Heap)
    requires Inv(hp) && Reaches(hp, ops, hp')
    ensures Inv(hp')
    ensures Lowest(hp) && (forall k :: 0 <= k < |ops| ==> !ops[k].ReallocOp?) ==> Lowest(hp')
    decreases |ops|
  {
    if ops != [] {
      StepKeeps(hp, ops[0]);
      RunKeeps(Next(hp, ops[0]), ops[1..], hp');
    }
  }

  /** After every run of malloc, realloc and free: the blocks tile the heap, no two neighbours
      are both free, the statistics count the words of the used blocks, the used blocks are
      disjoint, and lfree is a free block or the end stub - the lowest one if nothing was
      resized. */
  lemma SmallHeapSafety(size: nat, ops: seq<Op>, hp: Heap, x: (nat, nat), y: (nat, nat), k: nat)
    requires size >= MIN && (InitInv(size); Reaches(Init(size), ops, hp))
    ensures hp.blocks != [] && hp.blocks[0].addr == 0 && Tiled(hp.blocks, End(hp), H)
    ensures 0 < k < |hp.blocks| ==> hp.blocks[k - 1].used || hp.blocks[k].used
    ensures hp.used == Words(hp.blocks, End(hp), true, 0) && hp.used + Words(hp.blocks, End(hp), false, 0) == End(hp)
    ensures hp.lfree == End(hp) || Block(hp.lfree, false) in hp.blocks
    ensures (forall j :: 0 <= j < |ops| ==> !ops[j].ReallocOp?) && k < |hp.blocks| && !hp.blocks[k].used ==> hp.lfree <= hp.blocks[k].addr
    ensures x in Used(hp) && y in Used(hp) && x != y ==> x.1 <= y.0 || y.1 <= x.0
  {
    InitInv(size);
    RunKeeps(Init(size), ops, hp);
    CoalescedAt(hp.blocks, k);
    TotalIs(hp.blocks, End(hp));
    if x in Used(hp) && y in Used(hp) && x != y {
      UsedDisjoint(hp.blocks, End(hp), H, x, y);
    }
  }

  // ---- lfree and the shrinking realloc ---------------------------------------------------

  ghost predicate Below(a: nat, s: set<nat>) {
    forall x :: x in s ==> a <= x
  }

  lemma LowestIs(hp: Heap)
    ensures Lowest(hp) <==> Below(hp.lfree, FreeSet(hp.blocks))
  {
    var s := FreeSet(hp.blocks);
    if Lowest(hp) {
      forall x | x in s ensures hp.lfree <= x {
        FreeSetHas(hp.blocks, x);
        var i :| 0 <= i < |hp.blocks| && hp.blocks[i] == Block(x, false);
      }
    } else {
      var i :| 0 <= i < |hp.blocks| && !hp.blocks[i].used && hp.lfree > hp.blocks[i].addr;
      FreeSetHas(hp.blocks, hp.blocks[i].addr);
    }
  }

  lemma CutFreeSet(hp: Heap, i: nat, n: nat)
    requires Inv(hp) && i < |hp.blocks| && hp.blocks[i].used && n <= Payload(hp, i) <= hp.used
    ensures FreeSet(Cut(hp, i, n).blocks) == FreeSet(hp.blocks) + {hp.blocks[i].addr + H + n}
  {
    var x, z := hp.blocks[i], Block(hp.blocks[i].addr + H + n, false);
    assert hp.blocks == hp.blocks[..i] + [x] + hp.blocks[i + 1..];
    ReplaceFree(hp.blocks[..i], [x], [x, z], hp.blocks[i + 1..], End(hp), H);
    FreeTwo(x, z);
  }

  /** plug_holes on a block whose left neighbour is used. */
  lemma PlugFreeSet(hp: Heap, i: nat)
    requires Shape(hp) && i < |hp.blocks| && !hp.blocks[i].used && !FreeBefore(hp, i)
    ensures FreeSet(Plug(hp, i).blocks) ==
            if FreeAfter(hp, i) then FreeSet(hp.blocks) - {hp.blocks[i + 1].addr} + {hp.blocks[i].addr} else FreeSet(hp.blocks)
  {
    var x, bs := hp.blocks[i], hp.blocks;
    if FreeAfter(hp, i) {
      var z := bs[i + 1];
      assert bs == bs[..i] + [x, z] + bs[i + 2..];
      ReplaceFree(bs[..i], [x, z], [x], bs[i + 2..], End(hp), H);
      FreeTwo(x, z);
    } else {
      assert bs == bs[..i] + [x] + bs[i + 1..];
    }
  }

  /** Where lfree can be relative to a used block. */
  lemma LfreePlace(hp: Heap, i: nat)
    requires Inv(hp) && Lowest(hp) && i < |hp.blocks| && hp.blocks[i].used
    ensures hp.lfree < hp.blocks[i].addr || hp.lfree >= NextAddr(hp.blocks, End(hp), i)
    ensures FreeAfter(hp, i) && hp.lfree >= hp.blocks[i].addr ==> hp.lfree == hp.blocks[i + 1].addr
  {
    Order(hp.blocks, End(hp), H, i);
    if hp.lfree != End(hp) {
      var j :| 0 <= j < |hp.blocks| && hp.blocks[j] == Block(hp.lfree, false);
      if j < i {
        Ordered(hp.blocks, End(hp), H, j, i);
      } else if i < j {
        Ordered(hp.blocks, End(hp), H, i, j);
      }
    }
  }

  /** The free blocks and lfree after a shrinking realloc. */
  lemma ShrinkFree(hp: Heap, i: nat, n: nat)
    requires Inv(hp) && i < |hp.blocks| && hp.blocks[i].used && Shrinks(Payload(hp, i), n)
    ensures n <= Payload(hp, i) <= hp.used
    ensures var hp', c := ShrinkAt(hp, i, n), hp.blocks[i].addr + H + n;
            && FreeSet(hp'.blocks) == FreeSet(hp.blocks) + {c} - (if FreeAfter(hp, i) then {hp.blocks[i + 1].addr} else {}) + {c}
            && hp'.lfree == if FreeAfter(hp, i) && hp.lfree == hp.blocks[i + 1].addr then c else hp.lfree
  {
    hide FreeSet, Splice, Shape, CoalescedBut, Used;
    CutShape(hp, i, n);
    var hp1, c := Cut(hp, i, n), hp.blocks[i].addr + H + n;
    CutFreeSet(hp, i, n);
    SpliceIndex(hp.blocks, i, i + 1, [Block(hp.blocks[i].addr, true), Block(c, false)], i);
    SpliceIndex(hp.blocks, i, i + 1, [Block(hp.blocks[i].addr, true), Block(c, false)], i + 1);
    SpliceIndex(hp.blocks, i, i + 1, [Block(hp.blocks[i].addr, true), Block(c, false)], i + 2);
    SpliceLength(hp.blocks, i, i + 1, [Block(hp.blocks[i].addr, true), Block(c, false)]);
    assert hp1.blocks[i].used && hp1.blocks[i + 1] == Block(c, false);
    assert FreeAfter(hp1, i + 1) <==> FreeAfter(hp, i);
    PlugFreeSet(hp1, i + 1);
  }

  /** A shrinking realloc does not lower lfree: lfree stays the lowest free block exactly when it
      lies below the block that shrinks or the block behind that one is free. */
  lemma ShrinkLowest(hp: Heap, i: nat, n: nat)
    requires Inv(hp) && Lowest(hp) && i < |hp.blocks| && hp.blocks[i].used && Shrinks(Payload(hp, i), n)
    ensures n <= Payload(hp, i) <= hp.used
    ensures Lowest(ShrinkAt(hp, i, n)) <==> hp.lfree < hp.blocks[i].addr || FreeAfter(hp, i)
  {
    ShrinkFree(hp, i, n);
    LfreePlace(hp, i);
    var hp', c := ShrinkAt(hp, i, n), hp.blocks[i].addr + H + n;
    LowestIs(hp');
  }

  /** Two blocks in use and the rest free: the heap after two allocations. */
  const TWO_USED: Heap := Heap(100, [Block(0, true), Block(53, true), Block(66, false)], 66, 66, 66)

  lemma OneMalloc()
    ensures Inv(Init(100)) && Malloc(Init(100), 200) == (Heap(100, [Block(0, true), Block(53, false)], 53, 53, 53), Some(3))
  {
    InitInv(100);
    var hp := Init(100);
    assert Search(hp, 0, 50) == At(0);
    assert Splice(hp.blocks, 0, 1, [Block(0, true), Block(53, false)]) == [Block(0, true), Block(53, false)];
    assert NextFree([Block(0, true), Block(53, false)], 103, 0) == NextFree([Block(0, true), Block(53, false)], 103, 1) == 53;
  }

  lemma TwoMallocs()
    ensures var hp := Heap(100, [Block(0, true), Block(53, false)], 53, 53, 53);
            Inv(hp) && Malloc(hp, 40) == (TWO_USED, Some(56))
  {
    OneMalloc();
    MallocKeeps(Init(100), 200);
    var hp := Heap(100, [Block(0, true), Block(53, false)], 53, 53, 53);
    var bs := [Block(0, true), Block(53, true), Block(66, false)];
    assert hp.blocks[1] == Block(53, false);
    assert FirstIndex(hp) == 1;
    assert Search(hp, 1, 10) == At(1);
    assert Splice(hp.blocks, 1, 2, [Block(53, true), Block(66, false)]) == bs;
    assert NextFree(bs, 103, 1) == NextFree(bs, 103, 2) == 66;
  }

  /** The failing case: the block behind the one that shrinks is in use. */
  lemma ShrinkMayRaiseLfree()
    ensures var hp := TWO_USED;
            Inv(hp) && Lowest(hp) && Shrinks(Payload(hp, 0), 5) && 5 <= Payload(hp, 0) <= hp.used && !Lowest(ShrinkAt(hp, 0, 5))
  {
    TwoMallocs();
    MallocKeeps(Heap(100, [Block(0, true), Block(53, false)], 53, 53, 53), 40);
    ShrinkLowest(TWO_USED, 0, 5);
  }

  lemma ReachesMore(hp: Heap, op: Op, ops: seq<Op>, hp': Heap)
    requires Inv(hp) && Legal(hp, op) && Inv(Next(hp, op)) && Reaches(Next(hp, op), ops, hp')
    ensures Reaches(hp, [op] + ops, hp')
  {
    assert ([op] + ops)[1..] == ops;
  }

  lemma ShrinkStep()
    ensures var op := ReallocOp(Some(3), 20);
            Inv(TWO_USED) && Legal(TWO_USED, op) && 5 <= Payload(TWO_USED, 0) <= TWO_USED.used && Next(TWO_USED, op) == ShrinkAt(TWO_USED, 0, 5)
  {
    ShrinkMayRaiseLfree();
    assert TWO_USED.blocks[0].addr == 0;
    assert IndexOf(TWO_USED.blocks, 0) == 0;
  }

  /** The failing case is reached: two allocations and a shrinking realloc leave lfree above a free
      block. */
  lemma ShrinkRaisesLfreeInARun()
    ensures 5 <= Payload(TWO_USED, 0) <= TWO_USED.used
    ensures var hp := ShrinkAt(TWO_USED, 0, 5);
            && Inv(Init(100)) && Reaches(Init(100), [MallocOp(200)] + ([MallocOp(40)] + ([ReallocOp(Some(3), 20)] + [])), hp)
            && !Lowest(hp)
  {
    hide Inv, Reaches, Malloc, ShrinkAt, Lowest;
    ShrinkMayRaiseLfree();
    OneMalloc();
    TwoMallocs();
    ShrinkStep();
    var h0, h1, hp := Init(100), Heap(100, [Block(0, true), Block(53, false)], 53, 53, 53), ShrinkAt(TWO_USED, 0, 5);
    StepKeeps(TWO_USED, ReallocOp(Some(3), 20));
    ReachesNow(hp);
    ReachesMore(TWO_USED, ReallocOp(Some(3), 20), [], hp);
    ReachesMore(h1, MallocOp(40), [ReallocOp(Some(3), 20)] + [], hp);
    ReachesMore(h0, MallocOp(200), [MallocOp(40)] + ([ReallocOp(Some(3), 20)] + []), hp);
  }

  lemma ReachesNow(hp: Heap)
    requires Inv(hp)
    ensures Reaches(hp, [], hp)
  {
  }

  // ---- the high water mark ---------------------------------------------------------------

  /** max_mem is never below what is in use, never falls, and rises only to what an allocation has in use. */
  lemma PeakIs(hp: Heap, op: Op)
    requires Inv(hp) && Legal(hp, op) && hp.used <= hp.peak
    ensures var hp' := Next(hp, op);
            && hp'.used <= hp'.peak && hp.peak <= hp'.peak
            && (op.MallocOp? ==> hp'.peak == Max(hp.peak, hp'.used)) && (op.FreeOp? ==> hp'.peak == hp.peak)
  {
    hide Inv, Malloc, Free, Move, ShrinkAt, Payload;
    match op {
      case MallocOp(bytes) => MallocPeak(hp, bytes);
      case FreeOp(ptr) => FreePeak(hp, ptr);
      case ReallocOp(ptr, bytes) =>
        var n := Round(bytes);
        MallocPeak(hp, 4 * n);
        if n <= hp.size && ptr.Some? {
          MovePeak(hp, ptr.addr, 4 * n);
          ShrinkPeak(hp, IndexOf(hp.blocks, ptr.addr - H), n);
        }
    }
  }

  lemma MovePeak(hp: Heap, ptr: nat, bytes: nat)
    requires Inv(hp) && Live(hp, ptr) && hp.used <= hp.peak
    ensures var hp' := Move(hp, ptr, bytes).0; hp'.used <= hp'.peak && hp.peak <= hp'.peak
  {
    hide Inv, Malloc, Free;
    MallocPeak(hp, bytes);
    if Malloc(hp, bytes).1.Some? {
      StillLive(hp, bytes, ptr);
      FreePeak(Malloc(hp, bytes).0, Some(ptr));
    }
  }

  lemma ShrinkPeak(hp: Heap, i: nat, n: nat)
    requires Inv(hp) && i < |hp.blocks| && hp.blocks[i].used && hp.used <= hp.peak
    ensures Shrinks(Payload(hp, i), n) ==>
              n <= Payload(hp, i) <= hp.used && ShrinkAt(hp, i, n).peak == hp.peak && ShrinkAt(hp, i, n).used <= hp.used
  {
    hide Inv, Used, Splice;
    if Shrinks(Payload(hp, i), n) {
      ShrinkAtKeeps(hp, i, n);
    }
  }

  lemma MallocPeak(hp: Heap, bytes: nat)
    requires Inv(hp) && hp.used <= hp.peak
    ensures var hp' := Malloc(hp, bytes).0; hp'.peak == Max(hp.peak, hp'.used) && hp'.used <= hp'.peak
  {
    hide Inv;
  }

  lemma FreePeak(hp: Heap, ptr: Answer)
    requires Inv(hp) && (ptr.Some? ==> Live(hp, ptr.addr)) && hp.used <= hp.peak
    ensures Free(hp, ptr).peak == hp.peak && Free(hp, ptr).used <= hp.peak
  {
    hide Inv, Used, Splice;
    if ptr.Some? {
      var i := IndexOf(hp.blocks, ptr.addr - H);
      FreeAtKeeps(hp, i);
      PayloadNotNegative(hp, i);
    }
  }

  lemma PayloadNotNegative(hp: Heap, i: nat)
    requires Inv(hp) && i < |hp.blocks|
    ensures Payload(hp, i) >= 0
  {
    EndOf(hp, i);
  }
}
