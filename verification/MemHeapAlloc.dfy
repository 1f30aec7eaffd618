/**
 rt_memheap_alloc and rt_memheap_free, block by block.
 */
module MemHeapAlloc {
  import opened NatLists
  import opened BlockList
  import opened RingList
  import opened MemHeap
  import opened MemHeapLinks
  import opened MemHeapMemory

  ghost function AtStart(mem: seq<int>, hp: Heap): View {
    View(mem, Heads(hp.blocks, hp.end), Cycle(hp.blocks, hp.end), [HEADER] + hp.free, {})
  }

  lemma Begin(mem: seq<int>, hp: Heap)
    requires Rep(mem, hp)
    ensures In(mem, AtStart(mem, hp)) && |mem| == hp.end + H
  {
  }

  /** An operation that will need one more header, at n inside block i. */
  lemma BeginWith(mem: seq<int>, hp: Heap, i: nat, n: nat)
    requires Inv(hp) && Rep(mem, hp) && i < |hp.blocks|
    requires hp.blocks[i].addr + H <= n && n + H <= NextAddr(hp.blocks, hp.end, i)
    ensures var v := AtStart(mem, hp); In(mem, v.(heads := v.heads + {n})) && n !in v.cyc && n !in v.fr && n !in v.heads
    ensures n != hp.end && |mem| == hp.end + H
  {
    NewHead(hp, i, n);
    var v := AtStart(mem, hp);
    HeadsGrow(mem, v.heads, v.cyc, v.fr, n);
  }

  /** Facts about a block on the free list. */
  lemma FreeBlockFacts(mem: seq<int>, hp: Heap, i: nat, k: nat)
    requires Inv(hp) && Rep(mem, hp) && i < |hp.blocks| && k < |hp.free| && hp.free[k] == hp.blocks[i].addr && !hp.blocks[i].used
    ensures var a := hp.blocks[i].addr;
            && a in Heads(hp.blocks, hp.end) && Marked(mem, Block(a, false)) && a != hp.end && a != HEADER
            && [HEADER] + Without(hp.free, a) == Removed([HEADER] + hp.free, k + 1)
            && a !in Removed([HEADER] + hp.free, k + 1)
            && |[HEADER] + hp.free| >= 2 && ([HEADER] + hp.free)[k + 1] == a
  {
    Order(hp.blocks, hp.end, H, i);
    FreeCut(hp.free, k);
  }

  /** The end of every operation: the rings and the marks make up the new heap. */
  lemma Finish(mem: seq<int>, hp: Heap, hp': Heap, lo: nat, hi: nat, m: seq<Block>, v: View)
    requires Inv(hp) && Inv(hp') && lo < hi <= |hp.blocks| && hp'.end == hp.end && hp'.blocks == Splice(hp.blocks, lo, hi, m)
    requires Rep(v.m0, hp) && In(mem, v) && Heads(hp.blocks, hp.end) <= v.heads
    requires forall a :: a in v.changed ==> a != hp.end && (Has(m, a) || Has(hp.blocks[lo..hi], a))
    requires forall t :: 0 <= t < |m| ==> Marked(mem, m[t]) && m[t].addr in v.heads
    requires v.cyc == Cycle(hp'.blocks, hp'.end) && v.fr == [HEADER] + hp'.free
    requires forall a :: a in v.heads ==> a in Heads(hp.blocks, hp.end) || Has(m, a)
    ensures Rep(mem, hp') && Only(v.m0, mem, Heads(hp.blocks, hp.end) + Heads(hp'.blocks, hp'.end))
  {
    MarksAfter(v.m0, mem, hp, hp', lo, hi, m, v.heads, v.changed);
    SplicedHeads(hp, hp', lo, hi, m, v.heads);
    RepAfter(mem, hp', v.heads);
    assert v.heads <= Heads(hp.blocks, hp.end) + Heads(hp'.blocks, hp'.end);
  }

  lemma SplicedHeads(hp: Heap, hp': Heap, lo: nat, hi: nat, m: seq<Block>, heads: set<nat>)
    requires lo < hi <= |hp.blocks| && hp'.end == hp.end && hp'.blocks == Splice(hp.blocks, lo, hi, m)
    requires Heads(hp.blocks, hp.end) <= heads && forall t :: 0 <= t < |m| ==> m[t].addr in heads
    requires forall a :: a in heads ==> a in Heads(hp.blocks, hp.end) || Has(m, a)
    ensures Heads(hp'.blocks, hp'.end) <= heads <= Heads(hp.blocks, hp.end) + Heads(hp'.blocks, hp'.end)
  {
  }

  // ---- allocation ------------------------------------------------------------------------

  lemma HasOne(x: Block)
    ensures Has([x], x.addr)
  {
    assert [x][0].addr == x.addr;
  }

  lemma HasTwo(x: Block, y: Block)
    ensures Has([x, y], x.addr) && Has([x, y], y.addr)
  {
    assert [x, y][0].addr == x.addr && [x, y][1].addr == y.addr;
  }

  lemma WholeFacts(mem: seq<int>, hp: Heap, i: nat, k: nat, n: nat)
    requires Inv(hp) && Rep(mem, hp) && i < |hp.blocks| && !hp.blocks[i].used
    requires k < |hp.free| && hp.free[k] == hp.blocks[i].addr && n <= Payload(hp, i) <= hp.avail && !Splits(Payload(hp, i), n)
    ensures var a, hp', v := hp.blocks[i].addr, AllocAt(hp, i, n), AtStart(mem, hp);
            && Inv(hp') && hp'.end == hp.end && hp'.blocks == Splice(hp.blocks, i, i + 1, [Block(a, true)])
            && In(mem, v) && Marked(mem, Block(a, false))
            && a in v.heads && a != hp.end && k + 1 < |v.fr| && v.fr[k + 1] == a
            && v.heads == Heads(hp.blocks, hp.end) && v.m0 == mem && v.changed == {}
            && v.cyc == Cycle(hp'.blocks, hp'.end) && Removed(v.fr, k + 1) == [HEADER] + hp'.free
            && a !in Removed(v.fr, k + 1)
  {
    AllocAtKeeps(hp, i, n);
    FreeBlockFacts(mem, hp, i, k);
  }

  /** The whole block is handed out. */
  method TakeWhole(mem: array<int>, ghost hp: Heap, ghost i: nat, ghost k: nat, a: nat, ghost n: nat)
    requires Inv(hp) && Rep(mem[..], hp) && i < |hp.blocks| && hp.blocks[i] == Block(a, false)
    requires k < |hp.free| && hp.free[k] == a && n <= Payload(hp, i) <= hp.avail && !Splits(Payload(hp, i), n)
    modifies mem
    ensures Rep(mem[..], AllocAt(hp, i, n))
    ensures Only(old(mem[..]), mem[..], Heads(hp.blocks, hp.end) + Heads(AllocAt(hp, i, n).blocks, hp.end))
  {
    WholeFacts(mem[..], hp, i, k, n);
    ghost var v := AtStart(mem[..], hp);
    v := FreeRemove(mem, v, k + 1, a);
    ClearFree(mem, v, a);
    v := SetMark(mem, v, a, true);
    HasOne(Block(a, true));
    Finish(mem[..], hp, AllocAt(hp, i, n), i, i + 1, [Block(a, true)], v);
  }

  lemma SplitFacts(mem: seq<int>, hp: Heap, i: nat, k: nat, n: nat)
    requires Inv(hp) && Rep(mem, hp) && i < |hp.blocks| && !hp.blocks[i].used
    requires k < |hp.free| && hp.free[k] == hp.blocks[i].addr && n <= Payload(hp, i) <= hp.avail && Splits(Payload(hp, i), n)
    ensures var a, c, hp', v := hp.blocks[i].addr, hp.blocks[i].addr + H + n, AllocAt(hp, i, n), AtStart(mem, hp);
            && Inv(hp') && hp'.end == hp.end && hp'.blocks == Splice(hp.blocks, i, i + 1, [Block(a, true), Block(c, false)])
            && In(mem, v.(heads := v.heads + {c})) && Marked(mem, Block(a, false))
            && a in v.heads && c !in v.cyc && a != hp.end && c != hp.end && a != c
            && i < |v.cyc| && v.cyc[i] == a && k + 1 < |v.fr| && v.fr[k + 1] == a
            && v.heads == Heads(hp.blocks, hp.end) && v.m0 == mem && v.changed == {}
            && Inserted(v.cyc, i, c) == Cycle(hp'.blocks, hp'.end)
            && Inserted(Removed(v.fr, k + 1), 0, c) == [HEADER] + hp'.free
            && a !in Removed(v.fr, k + 1) && c !in Removed(v.fr, k + 1) && Removed(v.fr, k + 1)[0] == HEADER
  {
    hide In, Marked, Heads, Rep, Cycle, Inv, Without, Splice, Inserted, Has;
    var a, c := hp.blocks[i].addr, hp.blocks[i].addr + H + n;
    SplitShape(hp, i, n);
    FreeBlockFacts(mem, hp, i, k);
    BeginWith(mem, hp, i, c);
    FreePushed(Without(hp.free, a), c);
    CycleAt(hp, i);
    RemovedSubset([HEADER] + hp.free, k + 1, c);
  }

  lemma SplitShape(hp: Heap, i: nat, n: nat)
    requires Inv(hp) && i < |hp.blocks| && !hp.blocks[i].used && n <= Payload(hp, i) <= hp.avail && Splits(Payload(hp, i), n)
    ensures var a, c, hp' := hp.blocks[i].addr, hp.blocks[i].addr + H + n, AllocAt(hp, i, n);
            && Inv(hp') && hp'.end == hp.end && hp'.blocks == Splice(hp.blocks, i, i + 1, [Block(a, true), Block(c, false)])
            && hp'.free == [c] + Without(hp.free, a)
            && Inserted(Cycle(hp.blocks, hp.end), i, c) == Cycle(hp'.blocks, hp'.end)
            && a + H <= c && c + H <= NextAddr(hp.blocks, hp.end, i)
  {
    hide Inv, Without, Cycle, Inserted;
    AllocAtKeeps(hp, i, n);
    SplitCycle(hp.blocks, hp.end, i, Block(hp.blocks[i].addr, true), Block(hp.blocks[i].addr + H + n, false));
  }

  lemma RemovedSubset(s: seq<nat>, k: nat, c: nat)
    requires k < |s| && c !in s
    ensures c !in Removed(s, k)
  {
  }

  /** The front of the block is handed out and the rest becomes a free block at c. */
  method TakeSplit(mem: array<int>, ghost hp: Heap, ghost i: nat, ghost k: nat, a: nat, n: nat)
    requires Inv(hp) && Rep(mem[..], hp) && i < |hp.blocks| && hp.blocks[i] == Block(a, false)
    requires k < |hp.free| && hp.free[k] == a && n <= Payload(hp, i) <= hp.avail && Splits(Payload(hp, i), n)
    modifies mem
    ensures Rep(mem[..], AllocAt(hp, i, n))
    ensures Only(old(mem[..]), mem[..], Heads(hp.blocks, hp.end) + Heads(AllocAt(hp, i, n).blocks, hp.end))
  {
    hide *;
    SplitFacts(mem[..], hp, i, k, n);
    var c := a + H + n;
    ghost var v := AtStart(mem[..], hp);
    v := v.(heads := v.heads + {c});
    v := NewMark(mem, v, c);
    v := BlockInsert(mem, v, i, a, c);
    v := FreeRemove(mem, v, k + 1, a);
    ClearFree(mem, v, a);
    v := FreeInsert(mem, v, c);
    v := SetMark(mem, v, a, true);
    ghost var m := [Block(a, true), Block(c, false)];
    HasTwo(m[0], m[1]);
    Finish(mem[..], hp, AllocAt(hp, i, n), i, i + 1, m, v);
  }

  lemma CycleAt(hp: Heap, i: nat)
    requires i < |hp.blocks|
    ensures i < |Cycle(hp.blocks, hp.end)| && Cycle(hp.blocks, hp.end)[i] == hp.blocks[i].addr
  {
  }

  // ---- release ---------------------------------------------------------------------------

  ghost function CycleFreed(hp: Heap, i: nat): seq<nat>
    requires i < |hp.blocks|
  {
    var cyc := Cycle(hp.blocks, hp.end);
    var cyc1 := if FreeBefore(hp, i) then Removed(cyc, i) else cyc;
    if FreeAfter(hp, i) then Removed(cyc1, if FreeBefore(hp, i) then i else i + 1) else cyc1
  }

  lemma CycleFreedIs(hp: Heap, i: nat)
    requires i < |hp.blocks| && Payload(hp, i) >= 0
    ensures CycleFreed(hp, i) == Cycle(FreeAt(hp, i).blocks, hp.end)
  {
    var left, right := FreeBefore(hp, i), FreeAfter(hp, i);
    var x := Block(hp.blocks[if left then i - 1 else i].addr, false);
    if left && right {
      JoinBothCycle(hp.blocks, hp.end, i, x);
    } else if left {
      JoinCycle(hp.blocks, hp.end, i - 1, x);
    } else if right {
      JoinCycle(hp.blocks, hp.end, i, x);
    } else {
      SameCycle(hp.blocks, hp.end, i, x);
    }
  }

  /** Facts about a block in use. */
  lemma UsedBlockFacts(mem: seq<int>, hp: Heap, i: nat)
    requires Inv(hp) && Rep(mem, hp) && i < |hp.blocks| && hp.blocks[i].used
    ensures var a, v := hp.blocks[i].addr, AtStart(mem, hp);
            && In(mem, v) && v.m0 == mem && v.changed == {} && v.heads == Heads(hp.blocks, hp.end)
            && v.cyc == Cycle(hp.blocks, hp.end) && v.fr == [HEADER] + hp.free
            && a in v.heads && a != hp.end && a != HEADER && Marked(mem, Block(a, true)) && a !in v.fr
  {
    Order(hp.blocks, hp.end, H, i);
    Listed(hp, i);
  }

  /** Where the address of a free block stands on the free list. */
  ghost function ListIndex(hp: Heap, i: nat): (k: nat)
    requires Inv(hp) && i < |hp.blocks| && !hp.blocks[i].used
    ensures k < |hp.free| && hp.free[k] == hp.blocks[i].addr
  {
    Listed(hp, i);
    var k :| 0 <= k < |hp.free| && hp.free[k] == hp.blocks[i].addr;
    k
  }

  ghost function ListFreed(hp: Heap, i: nat, k: nat): seq<nat>
    requires i < |hp.blocks| && (FreeAfter(hp, i) ==> k < |hp.free|)
  {
    var fr := [HEADER] + hp.free;
    var fr1 := if FreeAfter(hp, i) then Removed(fr, k + 1) else fr;
    if FreeBefore(hp, i) then fr1 else Inserted(fr1, 0, hp.blocks[i].addr)
  }

  lemma ListFreedIs(hp: Heap, i: nat, k: nat)
    requires Inv(hp) && i < |hp.blocks| && hp.blocks[i].used && Payload(hp, i) >= 0
    requires FreeAfter(hp, i) ==> k < |hp.free| && hp.free[k] == hp.blocks[i + 1].addr
    ensures ListFreed(hp, i, k) == [HEADER] + FreeAt(hp, i).free
    ensures FreeAfter(hp, i) ==> Removed([HEADER] + hp.free, k + 1)[0] == HEADER && hp.blocks[i].addr !in Removed([HEADER] + hp.free, k + 1)
  {
    Listed(hp, i);
    Order(hp.blocks, hp.end, H, i);
    if FreeAfter(hp, i) {
      FreeCut(hp.free, k);
    }
  }

  lemma FreeSteps(mem: seq<int>, hp: Heap, i: nat)
    requires Inv(hp) && Rep(mem, hp) && i < |hp.blocks| && hp.blocks[i].used
    ensures var v, left, right := AtStart(mem, hp), FreeBefore(hp, i), FreeAfter(hp, i);
            var cyc1 := if left then Removed(v.cyc, i) else v.cyc;
            var j := if left then i else i + 1;
            && |v.cyc| >= 2 && i < |v.cyc| && v.cyc[i] == hp.blocks[i].addr
            && (left ==> && Marked(mem, Block(hp.blocks[i - 1].addr, false)) && hp.blocks[i - 1].addr in v.heads
                         && hp.blocks[i - 1].addr != hp.blocks[i].addr)
            && (right ==> |cyc1| >= 2 && j < |cyc1| && cyc1[j] == hp.blocks[i + 1].addr)
  {
  }

  lemma FreeShape(hp: Heap, i: nat)
    requires Inv(hp) && i < |hp.blocks| && hp.blocks[i].used
    ensures Payload(hp, i) >= 0
    ensures var left, right, hp' := FreeBefore(hp, i), FreeAfter(hp, i), FreeAt(hp, i);
            var lo, hi := if left then i - 1 else i, if right then i + 2 else i + 1;
            && Inv(hp') && hp'.end == hp.end && hi <= |hp.blocks|
            && hp'.blocks == Splice(hp.blocks, lo, hi, [Block(hp.blocks[lo].addr, false)])
            && hp'.avail == hp.avail + Payload(hp, i) + (if left then H else 0) + (if right then H else 0)
            && CycleFreed(hp, i) == Cycle(hp'.blocks, hp'.end)
            && Has(hp.blocks[lo..hi], hp.blocks[i].addr)
  {
    FreeAtKeeps(hp, i);
    CycleFreedIs(hp, i);
    var left, right := FreeBefore(hp, i), FreeAfter(hp, i);
    var lo, hi := if left then i - 1 else i, if right then i + 2 else i + 1;
    assert hp.blocks[lo..hi][i - lo].addr == hp.blocks[i].addr;
  }

  /** The neighbours of a block and whether they are free. */
  method Beside(mem: array<int>, ghost hp: Heap, ghost i: nat, a: nat) returns (prev: nat, next: nat, left: bool, right: bool)
    requires Inv(hp) && Rep(mem[..], hp) && i < |hp.blocks| && hp.blocks[i].addr == a
    ensures left == FreeBefore(hp, i) && right == FreeAfter(hp, i)
    ensures left ==> prev == hp.blocks[i - 1].addr
    ensures right ==> next == hp.blocks[i + 1].addr && !hp.blocks[i + 1].used
    ensures next - a - H == Payload(hp, i)
  {
    ReadBlock(mem[..], hp, i);
    ReadAfter(mem[..], hp, i);
    ReadBefore(mem[..], hp, i);
    prev, next := mem[a + BLOCKS.g], mem[a + BLOCKS.f];
    left, right := mem[prev] == FREED, mem[next] == FREED;
  }

  /** The joins of rt_memheap_free: out of the address ring to the left, the next block out of both,
      or else onto the free list. */
  method JoinSides(mem: array<int>, ghost hp: Heap, ghost i: nat, ghost k: nat, a: nat, next: nat, left: bool, right: bool,
                   ghost v0: View) returns (ghost v: View)
    requires i < |hp.blocks| && hp.blocks[i].addr == a && left == FreeBefore(hp, i) && right == FreeAfter(hp, i)
    requires In(mem[..], v0) && v0.cyc == Cycle(hp.blocks, hp.end) && v0.fr == [HEADER] + hp.free && a in v0.heads && a !in v0.fr
    requires |v0.cyc| >= 2 && i < |v0.cyc| && v0.cyc[i] == a
    requires right ==> && next == hp.blocks[i + 1].addr && k < |hp.free| && hp.free[k] == next
                       && var cyc, j := if left then Removed(v0.cyc, i) else v0.cyc, if left then i else i + 1;
                          |cyc| >= 2 && j < |cyc| && cyc[j] == next
    requires right ==> Removed(v0.fr, k + 1)[0] == HEADER && a !in Removed(v0.fr, k + 1)
    modifies mem
    ensures v == v0.(cyc := CycleFreed(hp, i), fr := ListFreed(hp, i, k)) && In(mem[..], v)
    ensures forall b: Block :: b.addr in v0.heads && Marked(old(mem[..]), b) ==> Marked(mem[..], b)
  {
    hide In, Marked, Cycle, Removed, Inserted;
    v := v0;
    if left {
      v := BlockRemove(mem, v, i, a);
    }
    if right {
      v := BlockRemove(mem, v, if left then i else i + 1, next);
      v := FreeRemove(mem, v, k + 1, next);
    }
    if !left {
      v := FreeInsert(mem, v, a);
    }
  }

  /** rt_memheap_free: mark, join to the left, join to the right, or else list the block. */
  method FreeBlock(mem: array<int>, ghost hp: Heap, ghost i: nat, a: nat) returns (gain: nat)
    requires Inv(hp) && Rep(mem[..], hp) && i < |hp.blocks| && hp.blocks[i] == Block(a, true)
    modifies mem
    ensures Payload(hp, i) >= 0 && Rep(mem[..], FreeAt(hp, i))
    ensures Only(old(mem[..]), mem[..], Heads(hp.blocks, hp.end) + Heads(FreeAt(hp, i).blocks, hp.end))
    ensures hp.avail + gain == FreeAt(hp, i).avail
  {
    hide Rep, Inv, In, Only, Marked, Heads, Cycle, Splice, AtStart, Has, FreeAt, Removed, Inserted, Payload, NextAddr, CycleFreed, ListFreed;
    FreeShape(hp, i);
    UsedBlockFacts(mem[..], hp, i);
    FreeSteps(mem[..], hp, i);
    ghost var v := AtStart(mem[..], hp);
    var prev, next, left, right := Beside(mem, hp, i, a);
    v := SetMark(mem, v, a, false);
    gain := next - a - H + (if left then H else 0) + (if right then H else 0);
    ghost var k := if right then ListIndex(hp, i + 1) else 0;
    ListFreedIs(hp, i, k);
    v := JoinSides(mem, hp, i, k, a, next, left, right, v);
    var header := if left then prev else a;
    HasOne(Block(header, false));
    Finish(mem[..], hp, FreeAt(hp, i), if left then i - 1 else i, if right then i + 2 else i + 1, [Block(header, false)], v);
  }
}
