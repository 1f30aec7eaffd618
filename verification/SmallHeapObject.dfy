/**
 The small heap object: rt_malloc, rt_free and rt_realloc with their loops.
 */
module SmallHeapObject {
  import opened BlockList
  import opened SmallHeap
  import opened SmallHeapMemory

  lemma InvTiled(hp: Heap)
    requires Shape(hp)
    ensures Tiled(hp.blocks, End(hp), H) && hp.blocks != [] && hp.blocks[0].addr == 0 && hp.size >= MIN
    ensures FreeOrEnd(hp.blocks, End(hp), hp.lfree)
  {
  }

  /** A header and the one behind it. */
  lemma HeadFacts(mem: seq<int>, hp: Heap, i: nat)
    requires Shape(hp) && Rep(mem, hp.blocks, End(hp)) && i < |hp.blocks|
    ensures var a, e := hp.blocks[i].addr, NextAddr(hp.blocks, End(hp), i);
            && |mem| == End(hp) + H && a + H <= e <= End(hp)
            && mem[a + MARK_AT] == Mark(hp.blocks[i].used) && mem[a + NEXT_AT] == e && mem[a + PREV_AT] == PrevAddr(hp.blocks, i)
            && mem[e + MARK_AT] == Mark(i + 1 < |hp.blocks| ==> hp.blocks[i + 1].used)
            && (i + 1 < |hp.blocks| <==> e != End(hp))
  {
    ReadHead(mem, hp.blocks, End(hp), i);
    Order(hp.blocks, End(hp), H, i);
    if i + 1 < |hp.blocks| {
      ReadHead(mem, hp.blocks, End(hp), i + 1);
      Order(hp.blocks, End(hp), H, i + 1);
    }
  }

  class SmallMemory {
    const mem: array<int>
    const size: nat
    var lfree: nat
    var usedMem: nat
    var maxMem: nat
    ghost var hp: Heap

    ghost predicate Holds()
      reads this, mem
    {
      && Shape(hp) && Rep(mem[..], hp.blocks, End(hp))
      && size == hp.size && lfree == hp.lfree && usedMem == hp.used && maxMem == hp.peak
    }

    ghost predicate Valid()
      reads this, mem
    {
      Holds() && Inv(hp)
    }

    /** rt_system_heap_init on a heap of size words between the first header and the end stub. */
    constructor (size: nat)
      requires size >= MIN
      ensures Valid() && hp == Init(size) && fresh(mem)
    {
      this.size := size;
      mem := new int[size + 2 * H];
      lfree, usedMem, maxMem := 0, 0, 0;
      hp := Init(size);
      new;
      mem[0 + MARK_AT] := Mark(false);
      mem[0 + NEXT_AT] := size + H;
      mem[0 + PREV_AT] := 0;
      mem[size + H + MARK_AT] := Mark(true);
      mem[size + H + NEXT_AT] := size + H;
      mem[size + H + PREV_AT] := size + H;
      InitInv(size);
      assert HeadAt(mem[..], hp.blocks, End(hp), 0);
    }

    /** plug_holes on the free block at a. */
    method PlugHoles(a: nat, ghost i: nat)
      requires Holds() && i < |hp.blocks| && hp.blocks[i] == Block(a, false)
      modifies this`lfree, this`hp, mem
      ensures Holds() && hp == Plug(old(hp), i)
      ensures OnlyHeads(old(mem[..]), mem[..], old(hp).blocks, hp.blocks, End(hp))
    {
      PlugShape(hp, i);
      var left, right, prev, next := JoinFree(mem, hp, size + H, a, i);
      if right && lfree == next {
        lfree := a;
      }
      if left && lfree == a {
        lfree := prev;
      }
      hp := Plug(hp, i);
    }

    /** rt_malloc */
    method Malloc(bytes: nat) returns (r: Answer)
      requires Valid()
      modifies this, mem
      ensures Valid() && (hp, r) == SmallHeap.Malloc(old(hp), bytes)
      ensures OnlyHeads(old(mem[..]), mem[..], old(hp).blocks, hp.blocks, End(hp)) && End(hp) == End(old(hp))
    {
      OnlyHeadsSame(mem[..], hp.blocks, End(hp));
      MallocKeeps(hp, bytes);
      InvTiled(hp);
      if bytes == 0 {
        return None;
      }
      var n := Round(bytes);
      if n > size {
        return None;
      }
      if n < MIN {
        n := MIN;
      }
      var found, ptr, i := Search(n);
      if !found {
        return None;
      }
      Take(ptr, i, n);
      r := Some(ptr + H);
    }

    /** The search loop. */
    method Search(n: nat) returns (found: bool, ptr: nat, ghost i: nat)
      requires Valid() && MIN <= n <= size
      ensures var r := SmallHeap.Search(hp, FirstIndex(hp), n);
              if found then r == At(i) && ptr == hp.blocks[i].addr else r == Nowhere
    {
      ptr, i := lfree, FirstIndex(hp);
      found := false;
      while ptr < size - n
        invariant i <= |hp.blocks| && ptr == if i < |hp.blocks| then hp.blocks[i].addr else End(hp)
        invariant SmallHeap.Search(hp, FirstIndex(hp), n) == SmallHeap.Search(hp, i, n)
        decreases |hp.blocks| - i
      {
        HeadFacts(mem[..], hp, i);
        if mem[ptr + MARK_AT] == Mark(false) && mem[ptr + NEXT_AT] - (ptr + H) >= n {
          return true, ptr, i;
        }
        ptr := mem[ptr + NEXT_AT];
        i := i + 1;
      }
      SearchEnds(hp, i, n);
    }

    /** Hand out block i, splitting it if the rest is large enough. */
    method Take(a: nat, ghost i: nat, n: nat)
      requires Valid() && i < |hp.blocks| && hp.blocks[i] == Block(a, false) && n <= Payload(hp, i)
      modifies this, mem
      ensures Holds() && hp == MallocAt(old(hp), i, n)
      ensures OnlyHeads(old(mem[..]), mem[..], old(hp).blocks, hp.blocks, End(hp))
    {
      MallocAtKeeps(hp, i, n);
      MallocAtFields(hp, i, n);
      var gain := TakeBlock(mem, hp, i, a, n, size + H);
      usedMem := usedMem + gain;
      if maxMem < usedMem {
        maxMem := usedMem;
      }
      hp := MallocAt(hp, i, n);
      if a == lfree {
        InvTiled(hp);
        lfree := NextFreeBlock(mem, hp, i, lfree, size + H);
      }
    }

    /** rt_free */
    method Free(ptr: Answer)
      requires Valid() && (ptr.Some? ==> Live(hp, ptr.addr))
      modifies this, mem
      ensures Valid() && hp == SmallHeap.Free(old(hp), ptr) && End(hp) == End(old(hp))
      ensures OnlyHeads(old(mem[..]), mem[..], old(hp).blocks, hp.blocks, End(hp))
    {
      OnlyHeadsSame(mem[..], hp.blocks, End(hp));
      if ptr.None? {
        return;
      }
      var a := ptr.addr - H;
      ghost var i := IndexOf(hp.blocks, a);
      FreeAtKeeps(hp, i);
      FreeLive(a, i);
    }

    method FreeLive(a: nat, ghost i: nat)
      requires Valid() && i < |hp.blocks| && hp.blocks[i] == Block(a, true)
      modifies this, mem
      ensures Payload(old(hp), i) + H <= old(hp).used && Holds() && hp == FreeAt(old(hp), i)
      ensures OnlyHeads(old(mem[..]), mem[..], old(hp).blocks, hp.blocks, End(old(hp)))
    {
      ghost var h0, m0 := hp, mem[..];
      UnmarkShape(hp, i);
      var extent := MarkFree(mem, hp, i, a);
      if a < lfree {
        lfree := a;
      }
      usedMem := usedMem - extent;
      hp := Unmark(hp, i);
      ghost var h1, m1 := hp, mem[..];
      PlugHoles(a, i);
      FreeOnly(m0, m1, mem[..], h0, h1, hp, i);
    }

    /** The shrinking case of rt_realloc: cut the block and join the rest with a free block
        behind it. */
    method Shrink(a: nat, ghost i: nat, n: nat, room: nat)
      requires Valid() && i < |hp.blocks| && hp.blocks[i] == Block(a, true) && room == Payload(hp, i) && Shrinks(room, n)
      modifies this, mem
      ensures n <= room <= old(hp).used && Holds() && hp == ShrinkAt(old(hp), i, n)
      ensures OnlyHeads(old(mem[..]), mem[..], old(hp).blocks, hp.blocks, End(old(hp))) && End(hp) == End(old(hp))
    {
      hide Rep, Shape, OnlyHeads, Coalesced, Used, CoalescedBut, Splice;
      ghost var h0, m0 := hp, mem[..];
      CutShape(hp, i, n);
      CutFields(hp, i, n);
      var c := a + H + n;
      SplitBlock(mem, hp, i, a, c, a + H + room, size + H);
      usedMem := usedMem - (room - n);
      hp := Cut(hp, i, n);
      ghost var h1, m1 := hp, mem[..];
      PlugHoles(c, i + 1);
      ShrinkOnly(m0, m1, mem[..], h0, h1, hp, i, c);
    }
  }

  /** The fields of the heap after handing out block i. */
  lemma MallocAtFields(hp: Heap, i: nat, n: nat)
    requires Inv(hp) && i < |hp.blocks| && n <= Payload(hp, i)
    ensures var hp' := MallocAt(hp, i, n);
            && hp'.size == hp.size && hp'.used == hp.used + TakenWords(hp, i, n) && hp'.peak == Max(hp.peak, hp'.used)
            && i < |hp'.blocks| && hp'.blocks[i].addr == hp.blocks[i].addr && End(hp') == End(hp)
            && hp'.lfree == (if hp.blocks[i].addr == hp.lfree then NextFree(hp'.blocks, End(hp'), i) else hp.lfree)
            && hp'.blocks == Splice(hp.blocks, i, i + 1, TakenBlocks(hp, i, n))
  {
  }

  function TakenWords(hp: Heap, i: nat, n: nat): int
    requires i < |hp.blocks|
  {
    if Splits(Payload(hp, i), n) then n + H else Payload(hp, i) + H
  }

  function TakenBlocks(hp: Heap, i: nat, n: nat): seq<Block>
    requires i < |hp.blocks|
  {
    var a := hp.blocks[i].addr;
    if Splits(Payload(hp, i), n) then [Block(a, true), Block(a + H + n, false)] else [Block(a, true)]
  }

  method TakeBlock(mem: array<int>, ghost hp: Heap, ghost i: nat, a: nat, n: nat, end: nat) returns (gain: nat)
    requires Shape(hp) && Rep(mem[..], hp.blocks, End(hp)) && end == End(hp)
    requires i < |hp.blocks| && hp.blocks[i] == Block(a, false) && n <= Payload(hp, i)
    modifies mem
    ensures var bs := Splice(hp.blocks, i, i + 1, TakenBlocks(hp, i, n));
            Rep(mem[..], bs, End(hp)) && OnlyHeads(old(mem[..]), mem[..], hp.blocks, bs, End(hp))
    ensures gain == TakenWords(hp, i, n)
  {
    hide Rep, Shape, OnlyHeads, Splice;
    InvTiled(hp);
    HeadFacts(mem[..], hp, i);
    var next := mem[a + NEXT_AT];
    if next - (a + H) >= n + H + MIN {
      SplitBlock(mem, hp, i, a, a + H + n, next, end);
      gain := n + H;
    } else {
      MarkRep(mem[..], hp.blocks, End(hp), i, true);
      gain := next - a;
      mem[a + MARK_AT] := Mark(true);
    }
  }

  method MarkFree(mem: array<int>, ghost hp: Heap, ghost i: nat, a: nat) returns (extent: nat)
    requires Inv(hp) && Rep(mem[..], hp.blocks, End(hp))
    requires i < |hp.blocks| && hp.blocks[i] == Block(a, true) && Payload(hp, i) + H <= hp.used
    modifies mem
    ensures Rep(mem[..], Unmark(hp, i).blocks, End(hp)) && extent == Payload(hp, i) + H
    ensures OnlyHeads(old(mem[..]), mem[..], hp.blocks, Unmark(hp, i).blocks, End(hp))
  {
    hide Rep, Shape, OnlyHeads, Splice, Coalesced;
    InvTiled(hp);
    HeadFacts(mem[..], hp, i);
    UnmarkedFree(hp.blocks, End(hp), i, hp.lfree);
    MarkRep(mem[..], hp.blocks, End(hp), i, false);
    extent := mem[a + NEXT_AT] - a;
    mem[a + MARK_AT] := Mark(false);
  }

  /** The links that plug_holes rewrites: a free block behind, then a free block before. */
  method JoinFree(mem: array<int>, ghost hp: Heap, end: nat, a: nat, ghost i: nat)
    returns (left: bool, right: bool, prev: nat, next: nat)
    requires Shape(hp) && Rep(mem[..], hp.blocks, End(hp)) && end == End(hp)
    requires i < |hp.blocks| && hp.blocks[i] == Block(a, false)
    modifies mem
    ensures left == FreeBefore(hp, i) && right == FreeAfter(hp, i)
    ensures left ==> prev == hp.blocks[i - 1].addr
    ensures right ==> next == hp.blocks[i + 1].addr
    ensures Rep(mem[..], Plug(hp, i).blocks, End(hp))
    ensures OnlyHeads(old(mem[..]), mem[..], hp.blocks, Plug(hp, i).blocks, End(hp))
  {
    hide Rep, Shape, OnlyHeads, Plug;
    HeadFacts(mem[..], hp, i);
    PrevFacts(mem[..], hp, i);
    if i + 1 < |hp.blocks| {
      HeadFacts(mem[..], hp, i + 1);
    }
    next, prev := mem[a + NEXT_AT], mem[a + PREV_AT];
    right := mem[next + MARK_AT] == Mark(false) && next != end;
    left := prev != a && mem[prev + MARK_AT] == Mark(false);
    if right {
      mem[a + NEXT_AT] := mem[next + NEXT_AT];
      mem[mem[next + NEXT_AT] + PREV_AT] := a;
    }
    if left {
      mem[prev + NEXT_AT] := mem[a + NEXT_AT];
      mem[mem[a + NEXT_AT] + PREV_AT] := prev;
    }
    Plugged(old(mem[..]), mem[..], hp, i);
  }

  lemma PrevFacts(mem: seq<int>, hp: Heap, i: nat)
    requires Shape(hp) && Rep(mem, hp.blocks, End(hp)) && i < |hp.blocks|
    ensures var p := PrevAddr(hp.blocks, i);
            && (p != hp.blocks[i].addr <==> i > 0)
            && (i > 0 ==> p + H <= hp.blocks[i].addr && p + H <= |mem| && mem[p + MARK_AT] == Mark(hp.blocks[i - 1].used))
  {
    if i > 0 {
      ReadHead(mem, hp.blocks, End(hp), i - 1);
      Ordered(hp.blocks, End(hp), H, i - 1, i);
    }
  }

  /** The words written are those that join the free neighbours. */
  lemma Plugged(mem: seq<int>, mem': seq<int>, hp: Heap, i: nat)
    requires Shape(hp) && Rep(mem, hp.blocks, End(hp)) && i < |hp.blocks| && !hp.blocks[i].used && |mem'| == |mem|
    requires var left, right := FreeBefore(hp, i), FreeAfter(hp, i);
             var lo, hi := if left then i - 1 else i, if right then i + 2 else i + 1;
             var a, e := hp.blocks[lo].addr, NextAddr(hp.blocks, End(hp), hi - 1);
             && a + H <= |mem| && e + H <= |mem| && hp.blocks[i].addr + H <= |mem|
             && (left || right ==> mem'[a + NEXT_AT] == e && mem'[e + PREV_AT] == a)
             && (!left && !right ==> mem' == mem)
             && forall q :: 0 <= q < |mem| && q != a + NEXT_AT && q != hp.blocks[i].addr + NEXT_AT && q != e + PREV_AT ==> mem'[q] == mem[q]
    ensures Rep(mem', Plug(hp, i).blocks, End(hp)) && OnlyHeads(mem, mem', hp.blocks, Plug(hp, i).blocks, End(hp))
  {
    var left, right := FreeBefore(hp, i), FreeAfter(hp, i);
    var lo, hi := if left then i - 1 else i, if right then i + 2 else i + 1;
    if left || right {
      JoinRep(mem, mem', hp.blocks, End(hp), lo, hi);
    } else {
      assert hp.blocks == Splice(hp.blocks, i, i + 1, [Block(hp.blocks[i].addr, false)]);
    }
  }

  /** Beyond the bound of the search no block fits. */
  lemma SearchEnds(hp: Heap, i: nat, n: nat)
    requires Inv(hp) && i <= |hp.blocks| && (i < |hp.blocks| ==> hp.blocks[i].addr >= hp.size - n)
    ensures Search(hp, i, n) == Nowhere
  {
    var r := Search(hp, i, n);
    if r.At? {
      if i < r.index {
        Ordered(hp.blocks, End(hp), H, i, r.index);
      }
    }
  }

  /** The loop that moves lfree to the next free block. */
  method NextFreeBlock(mem: array<int>, ghost hp: Heap, ghost i: nat, from: nat, end: nat) returns (l: nat)
    requires Rep(mem[..], hp.blocks, End(hp)) && Tiled(hp.blocks, End(hp), H) && end == End(hp)
    requires i < |hp.blocks| && hp.blocks[i].addr == from
    ensures l == NextFree(hp.blocks, end, i)
  {
    l := from;
    ghost var k := i;
    ReadHead(mem[..], hp.blocks, End(hp), i);
    Order(hp.blocks, end, H, i);
    while mem[l + MARK_AT] == Mark(true) && l != end
      invariant i <= k <= |hp.blocks| && l + H <= mem.Length
      invariant l == if k < |hp.blocks| then hp.blocks[k].addr else end
      invariant NextFree(hp.blocks, end, i) == NextFree(hp.blocks, end, k)
      invariant k < |hp.blocks| ==> mem[l + MARK_AT] == Mark(hp.blocks[k].used) && l < end
      decreases |hp.blocks| - k
    {
      ReadHead(mem[..], hp.blocks, End(hp), k);
      if k + 1 < |hp.blocks| {
        ReadHead(mem[..], hp.blocks, End(hp), k + 1);
        Order(hp.blocks, end, H, k + 1);
      }
      l := mem[l + NEXT_AT];
      k := k + 1;
    }
  }

  /** The header of the rest, and the links around it. */
  method SplitBlock(mem: array<int>, ghost hp: Heap, ghost i: nat, a: nat, c: nat, next: nat, end: nat)
    requires Shape(hp) && Rep(mem[..], hp.blocks, End(hp)) && i < |hp.blocks| && end == End(hp)
    requires hp.blocks[i].addr == a && a + H <= c && c + H <= next && next == NextAddr(hp.blocks, End(hp), i)
    modifies mem
    ensures var bs := Splice(hp.blocks, i, i + 1, [Block(a, true), Block(c, false)]);
            Rep(mem[..], bs, End(hp)) && OnlyHeads(old(mem[..]), mem[..], hp.blocks, bs, End(hp))
  {
    InvTiled(hp);
    HeadFacts(mem[..], hp, i);
    WriteCut(mem, a, c, next, end);
    CutRep(old(mem[..]), mem[..], hp.blocks, End(hp), i, c);
  }

  method WriteCut(mem: array<int>, a: nat, c: nat, next: nat, end: nat)
    requires a + H <= c && c + H <= next <= end && end + H == mem.Length && mem[a + NEXT_AT] == next
    modifies mem
    ensures CutTo(old(mem[..]), mem[..], a, c, next, end)
  {
    mem[c + MARK_AT] := Mark(false);
    mem[c + NEXT_AT] := mem[a + NEXT_AT];
    mem[c + PREV_AT] := a;
    mem[a + NEXT_AT] := c;
    mem[a + MARK_AT] := Mark(true);
    if next != end {
      mem[next + PREV_AT] := c;
    }
  }

  /** Both steps of a release write headers only. */
  lemma FreeOnly(m0: seq<int>, m1: seq<int>, m2: seq<int>, h0: Heap, h1: Heap, h2: Heap, i: nat)
    requires i < |h0.blocks| && Payload(h0, i) + H <= h0.used && h1 == Unmark(h0, i) && End(h2) == End(h0)
    requires OnlyHeads(m0, m1, h0.blocks, h1.blocks, End(h0)) && OnlyHeads(m1, m2, h1.blocks, h2.blocks, End(h0))
    ensures OnlyHeads(m0, m2, h0.blocks, h2.blocks, End(h0))
  {
  }

  lemma CutFields(hp: Heap, i: nat, n: nat)
    requires i < |hp.blocks| && n <= Payload(hp, i) <= hp.used && hp.blocks[i].used
    ensures var hp', a := Cut(hp, i, n), hp.blocks[i].addr;
            && i + 1 < |hp'.blocks| && hp'.blocks[i] == Block(a, true) && hp'.blocks[i + 1] == Block(a + H + n, false)
            && hp'.blocks == Splice(hp.blocks, i, i + 1, [Block(a, true), Block(a + H + n, false)])
            && End(hp') == End(hp) && hp'.size == hp.size && hp'.lfree == hp.lfree && hp'.peak == hp.peak
            && hp'.used == hp.used - (Payload(hp, i) - n)
    ensures End(ShrinkAt(hp, i, n)) == End(hp)
    ensures Has(ShrinkAt(hp, i, n).blocks, hp.blocks[i].addr + H + n)
  {
    var hp1, hp' := Cut(hp, i, n), ShrinkAt(hp, i, n);
    assert hp'.blocks[i + 1] == Block(hp.blocks[i].addr + H + n, false);
  }

  /** The header in between is among those of the result. */
  lemma ShrinkOnly(m0: seq<int>, m1: seq<int>, m2: seq<int>, h0: Heap, h1: Heap, h2: Heap, i: nat, c: nat)
    requires i < |h0.blocks| && h1.blocks == Splice(h0.blocks, i, i + 1, [Block(h0.blocks[i].addr, true), Block(c, false)])
    requires End(h1) == End(h0) && End(h2) == End(h0) && Has(h2.blocks, c)
    requires OnlyHeads(m0, m1, h0.blocks, h1.blocks, End(h0)) && OnlyHeads(m1, m2, h1.blocks, h2.blocks, End(h0))
    ensures OnlyHeads(m0, m2, h0.blocks, h2.blocks, End(h0))
  {
  }
}
