/**
 The in-place cases of rt_memheap_realloc.
 */
module MemHeapResize {
  import opened NatLists
  import opened BlockList
  import opened RingList
  import opened MemHeap
  import opened MemHeapLinks
  import opened MemHeapMemory
  import opened MemHeapAlloc

  // ---- shrinking -------------------------------------------------------------------------

  lemma ShrinkShape(hp: Heap, i: nat, n: nat)
    requires Inv(hp) && i < |hp.blocks| && hp.blocks[i].used && !Keeps(Payload(hp, i), n)
    ensures var a, c, right, hp' := hp.blocks[i].addr, hp.blocks[i].addr + H + n, FreeAfter(hp, i), ShrinkAt(hp, i, n);
            var cyc1 := Inserted(Cycle(hp.blocks, hp.end), i, c);
            && Inv(hp') && hp'.end == hp.end
            && hp'.blocks == Splice(hp.blocks, i, if right then i + 2 else i + 1, [Block(a, true), Block(c, false)])
            && (right ==> i + 2 < |cyc1| && cyc1[i + 2] == hp.blocks[i + 1].addr)
            && Cycle(hp'.blocks, hp'.end) == (if right then Removed(cyc1, i + 2) else cyc1)
  {
    hide Inv, Without, Splice, Removed, Cycle;
    var x, y := hp.blocks[i], Block(hp.blocks[i].addr + H + n, false);
    assert x == Block(x.addr, true);
    ShrinkAtKeeps(hp, i, n);
    if FreeAfter(hp, i) {
      ReplaceCycle(hp.blocks, hp.end, i, x, y);
    } else {
      SplitCycle(hp.blocks, hp.end, i, x, y);
    }
  }

  lemma ShrinkList(hp: Heap, i: nat, n: nat, k: nat)
    requires Inv(hp) && i < |hp.blocks| && hp.blocks[i].used && !Keeps(Payload(hp, i), n)
    requires FreeAfter(hp, i) ==> k < |hp.free| && hp.free[k] == hp.blocks[i + 1].addr
    ensures var c, fr := hp.blocks[i].addr + H + n, [HEADER] + hp.free;
            var fr1 := if FreeAfter(hp, i) then Removed(fr, k + 1) else fr;
            && |fr1| > 0 && fr1[0] == HEADER && c !in fr1
            && [HEADER] + ShrinkAt(hp, i, n).free == Inserted(fr1, 0, c)
  {
    var c := hp.blocks[i].addr + H + n;
    InsideNotFree(hp, i, c);
    if FreeAfter(hp, i) {
      FreeCut(hp.free, k);
      RemovedSubset([HEADER] + hp.free, k + 1, c);
      FreePushed(Without(hp.free, hp.blocks[i + 1].addr), c);
    } else {
      FreePushed(hp.free, c);
    }
  }

  /** The rings when block i is cut at c: the new block goes into both, the next one out if it is
      free. */
  method CutRings(mem: array<int>, ghost i: nat, ghost k: nat, a: nat, c: nat, next: nat, right: bool, ghost v0: View) returns (ghost v: View)
    requires In(mem[..], v0) && i < |v0.cyc| && v0.cyc[i] == a && c in v0.heads && c !in v0.cyc
    requires var cyc := Inserted(v0.cyc, i, c); right ==> i + 2 < |cyc| && cyc[i + 2] == next
    requires right ==> k + 1 < |v0.fr| && v0.fr[k + 1] == next
    requires var fr := if right then Removed(v0.fr, k + 1) else v0.fr; |fr| > 0 && fr[0] == HEADER && c !in fr
    modifies mem
    ensures var cyc, fr := Inserted(v0.cyc, i, c), if right then Removed(v0.fr, k + 1) else v0.fr;
            v == v0.(cyc := if right then Removed(cyc, i + 2) else cyc, fr := Inserted(fr, 0, c)) && In(mem[..], v)
    ensures forall b: Block :: b.addr in v0.heads && Marked(old(mem[..]), b) ==> Marked(mem[..], b)
  {
    hide In, Marked, Removed, Inserted;
    v := BlockInsert(mem, v0, i, a, c);
    if right {
      v := BlockRemove(mem, v, i + 2, next);
      v := FreeRemove(mem, v, k + 1, next);
    }
    v := FreeInsert(mem, v, c);
  }

  /** The tail of the block becomes a free block at c, joined with a free block behind it. */
  method ShrinkBlock(mem: array<int>, ghost hp: Heap, ghost i: nat, a: nat, n: nat) returns (gain: int)
    requires Inv(hp) && Rep(mem[..], hp) && i < |hp.blocks| && hp.blocks[i] == Block(a, true) && !Keeps(Payload(hp, i), n)
    modifies mem
    ensures Rep(mem[..], ShrinkAt(hp, i, n))
    ensures Only(old(mem[..]), mem[..], Heads(hp.blocks, hp.end) + Heads(ShrinkAt(hp, i, n).blocks, hp.end))
    ensures hp.avail + gain == ShrinkAt(hp, i, n).avail
  {
    hide Rep, Inv, In, Only, Marked, Heads, Cycle, Splice, AtStart, Has, ShrinkAt, Removed, Inserted;
    ShrinkShape(hp, i, n);
    ShrinkAvail(hp, i, n);
    UsedBlockFacts(mem[..], hp, i);
    var c := a + H + n;
    BeginWith(mem[..], hp, i, c);
    CycleAt(hp, i);
    ghost var v := AtStart(mem[..], hp);
    var prev, next, left, right := Beside(mem, hp, i, a);
    var after := 0;
    if right {
      after := SizeOf(mem, hp, i + 1, next);
    }
    gain := (if right then next + H else next - after) - c - H;
    v := NewMark(mem, v.(heads := v.heads + {c}), c);
    ghost var k := if right then ListIndex(hp, i + 1) else 0;
    ShrinkList(hp, i, n, k);
    v := CutRings(mem, i, k, a, c, next, right, v);
    ghost var m := [Block(a, true), Block(c, false)];
    HasTwo(m[0], m[1]);
    Finish(mem[..], hp, ShrinkAt(hp, i, n), i, if right then i + 2 else i + 1, m, v);
  }

  /** MEMITEM_SIZE */
  method SizeOf(mem: array<int>, ghost hp: Heap, ghost i: nat, a: nat) returns (size: nat)
    requires Inv(hp) && Rep(mem[..], hp) && i < |hp.blocks| && hp.blocks[i].addr == a
    ensures size == Payload(hp, i)
  {
    ReadBlock(mem[..], hp, i);
    Order(hp.blocks, hp.end, H, i);
    size := mem[a + BLOCKS.f] - a - H;
  }

  lemma ShrinkAvail(hp: Heap, i: nat, n: nat)
    requires Inv(hp) && i < |hp.blocks| && hp.blocks[i].used && !Keeps(Payload(hp, i), n)
    ensures ShrinkAt(hp, i, n).avail == hp.avail + Payload(hp, i) - n - (if FreeAfter(hp, i) then 0 else H)
    ensures FreeAfter(hp, i) ==> Payload(hp, i + 1) >= 0
  {
    if FreeAfter(hp, i) {
      Order(hp.blocks, hp.end, H, i + 1);
    }
  }

  // ---- growing ---------------------------------------------------------------------------

  /** The new header may overlap the one it replaces, so the old one must be out of both rings
      before the new one is written. */
  lemma GrowHeads(mem: seq<int>, hp: Heap, i: nat, n: nat, v: View)
    requires Inv(hp) && i < |hp.blocks| && hp.blocks[i].used && Payload(hp, i) < n && Grows(hp, i, n)
    requires In(mem, v) && v.heads == Heads(hp.blocks, hp.end) && |mem| == hp.end + H
    requires var z := hp.blocks[i + 1].addr; z !in v.cyc && z !in v.fr
    ensures var z, c := hp.blocks[i + 1].addr, hp.blocks[i].addr + H + n;
            && In(mem, View(mem, v.heads - {z} + {c}, v.cyc, v.fr, {}))
            && c !in v.cyc && c !in v.fr && c != hp.end && c !in v.heads - {z}
  {
    var z, c := hp.blocks[i + 1].addr, hp.blocks[i].addr + H + n;
    GrownHead(hp, i, n);
  }

  lemma GrownHead(hp: Heap, i: nat, n: nat)
    requires Inv(hp) && i < |hp.blocks| && hp.blocks[i].used && Payload(hp, i) < n && Grows(hp, i, n)
    ensures var z, c := hp.blocks[i + 1].addr, hp.blocks[i].addr + H + n;
            && c + H <= hp.end
            && forall a :: a in Heads(hp.blocks, hp.end) - {z} ==> Apart(a, c, H) && a != c
  {
    var z, c := hp.blocks[i + 1].addr, hp.blocks[i].addr + H + n;
    Order(hp.blocks, hp.end, H, i + 1);
    forall a | a in Heads(hp.blocks, hp.end) - {z} ensures Apart(a, c, H) {
      if j :| 0 <= j < |hp.blocks| && hp.blocks[j].addr == a {
        if j < i {
          Ordered(hp.blocks, hp.end, H, j, i);
        } else if i + 1 < j {
          Ordered(hp.blocks, hp.end, H, i + 1, j);
        }
      }
    }
  }

  lemma GrowShape(hp: Heap, i: nat, n: nat, k: nat)
    requires Inv(hp) && i < |hp.blocks| && hp.blocks[i].used && Payload(hp, i) < n && Grows(hp, i, n)
    requires k < |hp.free| && hp.free[k] == hp.blocks[i + 1].addr
    ensures n - Payload(hp, i) <= hp.avail
    ensures var a, z, c, hp' := hp.blocks[i].addr, hp.blocks[i + 1].addr, hp.blocks[i].addr + H + n, GrowAt(hp, i, n);
            var cyc1, fr1 := Removed(Cycle(hp.blocks, hp.end), i + 1), Removed([HEADER] + hp.free, k + 1);
            && Inv(hp') && hp'.end == hp.end
            && hp'.blocks == Splice(hp.blocks, i, i + 2, [Block(a, true), Block(c, false)])
            && Cycle(hp'.blocks, hp'.end) == Inserted(cyc1, i, c) && [HEADER] + hp'.free == Inserted(fr1, 0, c)
            && z !in fr1 && fr1[0] == HEADER && cyc1[i] == a && a != hp.end && a != HEADER
            && hp'.avail == hp.avail - (n - Payload(hp, i))
  {
    hide Tiled, Coalesced, Words, FreeSet, Without, Splice, Distinct, Elements, Cycle, Inserted, Removed;
    GrowAtKeeps(hp, i, n);
    Order(hp.blocks, hp.end, H, i);
    var x, y := hp.blocks[i], Block(hp.blocks[i].addr + H + n, false);
    ReplaceCycle(hp.blocks, hp.end, i, x, y);
    GrowList(hp, i, n, k);
  }

  lemma GrowList(hp: Heap, i: nat, n: nat, k: nat)
    requires Inv(hp) && i < |hp.blocks| && FreeAfter(hp, i)
    requires k < |hp.free| && hp.free[k] == hp.blocks[i + 1].addr
    ensures var z, c, fr1 := hp.blocks[i + 1].addr, hp.blocks[i].addr + H + n, Removed([HEADER] + hp.free, k + 1);
            && z !in fr1 && fr1[0] == HEADER
            && [HEADER] + ([c] + Without(hp.free, z)) == Inserted(fr1, 0, c)
  {
    var z, c := hp.blocks[i + 1].addr, hp.blocks[i].addr + H + n;
    FreeCut(hp.free, k);
    Order(hp.blocks, hp.end, H, i);
  }

  /** z is not in the block ring any more. */
  lemma CycleWithout(hp: Heap, j: nat)
    requires Inv(hp) && j < |hp.blocks|
    ensures hp.blocks[j].addr !in Removed(Cycle(hp.blocks, hp.end), j)
  {
    var r := Removed(Cycle(hp.blocks, hp.end), j);
    forall t | 0 <= t < |r| ensures r[t] != hp.blocks[j].addr {
      var u := if t < j then t else t + 1;
      if u < |hp.blocks| {
        if hp.blocks[u].addr == hp.blocks[j].addr {
          SameAddr(hp.blocks, hp.end, H, u, j);
        }
      } else {
        Order(hp.blocks, hp.end, H, j);
      }
    }
  }

  lemma GrownBlock(hp: Heap, hp': Heap, i: nat, c: nat, b: Block)
    requires Inv(hp) && Inv(hp') && hp'.end == hp.end && i + 1 < |hp.blocks| && hp.blocks[i].used
    requires hp'.blocks == Splice(hp.blocks, i, i + 2, [Block(hp.blocks[i].addr, true), Block(c, false)])
    requires b in hp'.blocks && b != Block(c, false)
    ensures b in hp.blocks && b.addr != hp.blocks[i + 1].addr && b.addr in Heads(hp.blocks, hp.end) && b.addr != c
  {
    InvTiled(hp);
    var j :| 0 <= j < |hp'.blocks| && hp'.blocks[j] == b;
    if b.addr == hp.blocks[i + 1].addr {
      SameAddr(hp.blocks, hp.end, H, j, i + 1);
    }
    if b.addr == c {
      SameAddr(hp'.blocks, hp'.end, H, j, i + 1);
    }
  }

  /** What growing does to the list of blocks: z goes, c comes. */
  ghost predicate Grown(hp: Heap, hp': Heap, i: nat, c: nat) {
    && Inv(hp) && Inv(hp') && hp'.end == hp.end && i + 1 < |hp.blocks| && hp.blocks[i].used && c != hp.end
    && hp'.blocks == Splice(hp.blocks, i, i + 2, [Block(hp.blocks[i].addr, true), Block(c, false)])
  }

  lemma EndKept(hp: Heap, j: nat)
    requires Inv(hp) && j < |hp.blocks|
    ensures hp.end in Heads(hp.blocks, hp.end) && hp.end != hp.blocks[j].addr
    ensures HEADER in Heads(hp.blocks, hp.end) && HEADER != hp.blocks[j].addr
  {
    Order(hp.blocks, hp.end, H, j);
  }

  lemma GrownHas(hp: Heap, hp': Heap, i: nat, c: nat, a: nat)
    requires Grown(hp, hp', i, c) && a in Heads(hp.blocks, hp.end) - {hp.blocks[i + 1].addr} + {c}
    ensures a in Heads(hp'.blocks, hp'.end)
  {
  }

  lemma GrownFrom(hp: Heap, hp': Heap, i: nat, c: nat, a: nat)
    requires Grown(hp, hp', i, c) && a in Heads(hp'.blocks, hp'.end)
    ensures a in Heads(hp.blocks, hp.end) - {hp.blocks[i + 1].addr} + {c}
  {
    EndKept(hp, i + 1);
    if a != HEADER && a != hp.end && a != c {
      var b :| b in hp'.blocks && b.addr == a;
      GrownBlock(hp, hp', i, c, b);
    }
  }

  lemma GrownHeads(hp: Heap, hp': Heap, i: nat, c: nat)
    requires Grown(hp, hp', i, c)
    ensures Heads(hp'.blocks, hp'.end) == Heads(hp.blocks, hp.end) - {hp.blocks[i + 1].addr} + {c}
  {
    forall a | a in Heads(hp.blocks, hp.end) - {hp.blocks[i + 1].addr} + {c} ensures a in Heads(hp'.blocks, hp'.end) {
      GrownHas(hp, hp', i, c, a);
    }
    forall a | a in Heads(hp'.blocks, hp'.end) ensures a in Heads(hp.blocks, hp.end) - {hp.blocks[i + 1].addr} + {c} {
      GrownFrom(hp, hp', i, c, a);
    }
  }

  /** Both phases keep the marks of the headers that stay. */
  lemma TwoKept(m0: seq<int>, m1: seq<int>, mem: seq<int>, v1: View, v2: View, z: nat, c: nat)
    requires In(m1, v1) && v1.m0 == m0 && v1.changed == {}
    requires In(mem, v2) && v2.m0 == m1 && v2.heads == v1.heads - {z} + {c} && v2.changed == {} + {c}
    ensures forall b: Block :: b.addr in v1.heads - {z} - {c} && Marked(m0, b) ==> Marked(mem, b)
    ensures Only(m0, mem, v1.heads + v2.heads)
  {
    assert v1.heads - {} == v1.heads;
    assert v2.heads - ({} + {c}) == v1.heads - {z} - {c};
  }

  lemma GrowMarks(m0: seq<int>, mem: seq<int>, hp: Heap, hp': Heap, i: nat, c: nat, heads: set<nat>)
    requires Grown(hp, hp', i, c) && Marks(m0, hp.blocks, hp.end) && Marked(mem, Block(c, false))
    requires heads == Heads(hp.blocks, hp.end) - {hp.blocks[i + 1].addr} - {c}
    requires forall b: Block :: b.addr in heads && Marked(m0, b) ==> Marked(mem, b)
    ensures Marks(mem, hp'.blocks, hp'.end)
  {
    EndKept(hp, i + 1);
    forall b | b in hp'.blocks ensures Marked(mem, b) {
      if b != Block(c, false) {
        GrownBlock(hp, hp', i, c, b);
      }
    }
  }

  lemma GrowFinish(m0: seq<int>, m1: seq<int>, mem: seq<int>, hp: Heap, hp': Heap, i: nat, c: nat, v1: View, v2: View)
    requires Grown(hp, hp', i, c) && Rep(m0, hp)
    requires var z := hp.blocks[i + 1].addr;
             && In(m1, v1) && v1.m0 == m0 && v1.heads == Heads(hp.blocks, hp.end) && v1.changed == {}
             && In(mem, v2) && v2.m0 == m1 && v2.heads == v1.heads - {z} + {c} && v2.changed == {} + {c}
             && v2.cyc == Cycle(hp'.blocks, hp'.end) && v2.fr == [HEADER] + hp'.free
             && Marked(mem, Block(c, false))
    ensures Rep(mem, hp') && Only(m0, mem, Heads(hp.blocks, hp.end) + Heads(hp'.blocks, hp'.end))
  {
    var z := hp.blocks[i + 1].addr;
    TwoKept(m0, m1, mem, v1, v2, z, c);
    GrownHeads(hp, hp', i, c);
    GrowMarks(m0, mem, hp, hp', i, c, v1.heads - {z} - {c});
  }

  /** Part of the free block behind is added to the block; the rest is a new free block at c. */
  method GrowBlock(mem: array<int>, ghost hp: Heap, ghost i: nat, a: nat, n: nat, next: nat)
    requires Inv(hp) && Rep(mem[..], hp) && i < |hp.blocks| && hp.blocks[i] == Block(a, true)
    requires Payload(hp, i) < n && Grows(hp, i, n) && next == hp.blocks[i + 1].addr
    modifies mem
    ensures n - Payload(hp, i) <= hp.avail && Rep(mem[..], GrowAt(hp, i, n))
    ensures Only(old(mem[..]), mem[..], Heads(hp.blocks, hp.end) + Heads(GrowAt(hp, i, n).blocks, hp.end))
  {
    hide Rep, Inv, In, Only, Marked, Heads, Cycle, Splice, AtStart, GrowAt, Removed, Inserted;
    ghost var k := ListIndex(hp, i + 1);
    GrowShape(hp, i, n, k);
    UsedBlockFacts(mem[..], hp, i);
    CycleWithout(hp, i + 1);
    Begin(mem[..], hp);
    ghost var m0 := mem[..];
    ghost var v := AtStart(m0, hp);
    v := FreeRemove(mem, v, k + 1, next);
    v := BlockRemove(mem, v, i + 1, next);
    ghost var m1, v1 := mem[..], v;
    var c := a + H + n;
    GrowHeads(m1, hp, i, n, v1);
    v := View(m1, v1.heads - {next} + {c}, v1.cyc, v1.fr, {});
    v := NewMark(mem, v, c);
    v := BlockInsert(mem, v, i, a, c);
    v := FreeInsert(mem, v, c);
    GrowFinish(m0, m1, mem[..], hp, GrowAt(hp, i, n), i, c, v1, v);
  }
}
