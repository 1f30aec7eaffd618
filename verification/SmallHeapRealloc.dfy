/**
 rt_realloc of the small heap, and what callers may rely on: payloads in use are kept.
 */
module SmallHeapRealloc {
  import opened BlockList
  import opened SmallHeap
  import opened SmallHeapMemory
  import opened SmallHeapObject

  /** The payload of a block that reaches from x.0 to x.1 is as it was. */
  ghost predicate Kept(mem: seq<int>, mem': seq<int>, x: (nat, nat)) {
    |mem'| == |mem| && forall q :: x.0 + H <= q < x.1 && q < |mem| ==> mem'[q] == mem[q]
  }

  /** Between two heaps only headers were written. */
  ghost predicate Touches(mem: seq<int>, mem': seq<int>, hp: Heap, hp': Heap) {
    End(hp') == End(hp) && |mem| == End(hp) + H && OnlyHeads(mem, mem', hp.blocks, hp'.blocks, End(hp))
  }

  lemma KeptBy(mem: seq<int>, mem': seq<int>, hp: Heap, hp': Heap, x: (nat, nat), y: (nat, nat))
    requires Inv(hp) && Inv(hp') && Touches(mem, mem', hp, hp')
    requires x in Used(hp) && y in Used(hp') && x.0 == y.0
    ensures Kept(mem, mem', (x.0, if x.1 < y.1 then x.1 else y.1))
  {
    InvTiled(hp);
    forall q | x.0 + H <= q < (if x.1 < y.1 then x.1 else y.1) && q < |mem| ensures mem'[q] == mem[q] {
      PayloadUntouched(mem, mem', hp.blocks, hp'.blocks, End(hp), x, y, q);
    }
  }

  lemma AllKept(mem: seq<int>, mem': seq<int>, hp: Heap, hp': Heap)
    requires Inv(hp) && Inv(hp') && Touches(mem, mem', hp, hp')
    ensures forall x :: x in Used(hp) && x in Used(hp') ==> Kept(mem, mem', x)
  {
    forall x | x in Used(hp) && x in Used(hp') ensures Kept(mem, mem', x) {
      KeptBy(mem, mem', hp, hp', x, x);
    }
  }

  predicate SameWords(mem: seq<int>, mem': seq<int>, from: nat, to: nat, count: nat) {
    from + count <= |mem| && to + count <= |mem'| && mem'[to..to + count] == mem[from..from + count]
  }

  lemma KeptWords(mem: seq<int>, mem': seq<int>, x: (nat, nat), count: nat)
    requires Kept(mem, mem', x) && x.0 + H + count <= x.1 <= |mem|
    ensures SameWords(mem, mem', x.0 + H, x.0 + H, count)
  {
  }

  lemma WordsTwice(mem: seq<int>, mem1: seq<int>, mem2: seq<int>, a: nat, b: nat, c: nat, count: nat)
    requires SameWords(mem, mem1, a, b, count) && SameWords(mem1, mem2, b, c, count)
    ensures SameWords(mem, mem2, a, c, count)
  {
  }

  // ---- copying a payload -----------------------------------------------------------------

  lemma RepKept(mem: seq<int>, mem': seq<int>, hp: Heap, x: (nat, nat))
    requires Inv(hp) && Rep(mem, hp.blocks, End(hp)) && x in Used(hp) && |mem'| == |mem|
    requires forall q :: 0 <= q < |mem| && !(x.0 + H <= q < x.1) ==> mem'[q] == mem[q]
    ensures Rep(mem', hp.blocks, End(hp))
  {
    UsedSetRange(hp.blocks, End(hp), H, x);
    forall i | 0 <= i < |hp.blocks| ensures HeadAt(mem', hp.blocks, End(hp), i) {
      ReadHead(mem, hp.blocks, End(hp), i);
      HeadClear(hp, x, i);
    }
  }

  lemma HeadClear(hp: Heap, x: (nat, nat), i: nat)
    requires Tiled(hp.blocks, End(hp), H) && x in Used(hp) && i < |hp.blocks|
    ensures hp.blocks[i].addr + H <= x.0 + H || x.1 <= hp.blocks[i].addr
  {
    UsedSetHas(hp.blocks, End(hp), x);
    var j :| 0 <= j < |hp.blocks| && hp.blocks[j] == Block(x.0, true) && NextAddr(hp.blocks, End(hp), j) == x.1;
    if i < j {
      Ordered(hp.blocks, End(hp), H, i, j);
    } else if j < i {
      Ordered(hp.blocks, End(hp), H, j, i);
    }
  }

  /** rt_memcpy between two payloads. */
  method CopyWords(mem: array<int>, ghost hp: Heap, ghost x: (nat, nat), src: nat, dst: nat, count: nat)
    requires Inv(hp) && Rep(mem[..], hp.blocks, End(hp)) && x in Used(hp) && x.0 + H == dst && dst + count <= x.1 <= mem.Length
    requires src + count <= mem.Length && (src + count <= dst || dst + count <= src)
    modifies mem
    ensures Rep(mem[..], hp.blocks, End(hp))
    ensures SameWords(old(mem[..]), mem[..], src, dst, count)
    ensures forall q :: 0 <= q < mem.Length && !(dst <= q < x.1) ==> mem[q] == old(mem[q])
  {
    hide Rep, Inv, Used;
    for k := 0 to count
      invariant mem[dst..dst + k] == old(mem[src..src + k])
      invariant forall q :: 0 <= q < mem.Length && !(dst <= q < dst + k) ==> mem[q] == old(mem[q])
    {
      mem[dst + k] := mem[src + k];
    }
    RepKept(old(mem[..]), mem[..], hp, x);
  }

  // ---- who stays -------------------------------------------------------------------------

  function ExtentOf(hp: Heap, ptr: nat): (nat, nat)
    requires Live(hp, ptr)
  {
    (ptr - H, NextAddr(hp.blocks, End(hp), IndexOf(hp.blocks, ptr - H)))
  }

  lemma LiveExtent(hp: Heap, ptr: nat)
    requires Inv(hp) && Live(hp, ptr)
    ensures var i := IndexOf(hp.blocks, ptr - H);
            && hp.blocks[i] == Block(ptr - H, true) && ExtentOf(hp, ptr) in Used(hp) && ExtentOf(hp, ptr).0 == ptr - H
            && ptr + Payload(hp, i) == ExtentOf(hp, ptr).1 <= End(hp) && Payload(hp, i) >= 0
  {
    var i := IndexOf(hp.blocks, ptr - H);
    LiveIs(hp, ptr, NextAddr(hp.blocks, End(hp), i));
    Order(hp.blocks, End(hp), H, i);
  }

  lemma FreeStays(hp: Heap, ptr: Answer)
    requires Inv(hp) && (ptr.Some? ==> Live(hp, ptr.addr))
    ensures forall z :: z in Used(hp) && (ptr.Some? ==> z.0 + H != ptr.addr) ==> z in Used(Free(hp, ptr))
  {
    if ptr.Some? {
      var i := IndexOf(hp.blocks, ptr.addr - H);
      FreeAtKeeps(hp, i);
    }
  }

  /** What a successful allocation adds. */
  lemma MallocAdds(hp: Heap, bytes: nat) returns (x: (nat, nat))
    requires Inv(hp) && Malloc(hp, bytes).1.Some?
    ensures var h1, r := Malloc(hp, bytes).0, Malloc(hp, bytes).1;
            && Inv(h1) && Used(h1) == Used(hp) + {x} && x !in Used(hp) && End(h1) == End(hp)
            && x.0 + H == r.addr && r.addr + Max(Round(bytes), MIN) <= x.1 <= End(hp)
  {
    var n := Max(Round(bytes), MIN);
    var i :| 0 <= i < |hp.blocks| && Fits(hp, i, n) && Malloc(hp, bytes).1.addr == hp.blocks[i].addr + H && Malloc(hp, bytes).0 == MallocAt(hp, i, n);
    x := NewBlock(hp, i, n);
    MallocAtKeeps(hp, i, n);
  }

  lemma NewBlock(hp: Heap, i: nat, n: nat) returns (x: (nat, nat))
    requires Inv(hp) && i < |hp.blocks| && Fits(hp, i, n)
    ensures var h1 := MallocAt(hp, i, n);
            && End(h1) == End(hp) && Used(h1) == Used(hp) + {x} && x !in Used(hp)
            && x.0 == hp.blocks[i].addr && x.0 + H + n <= x.1 <= End(hp)
  {
    var a := hp.blocks[i].addr;
    x := (a, if Splits(Payload(hp, i), n) then a + H + n else NextAddr(hp.blocks, End(hp), i));
    MallocAtKeeps(hp, i, n);
    Order(hp.blocks, End(hp), H, i);
    FreeNotUsed(hp, i, x);
  }

  lemma FreeNotUsed(hp: Heap, j: nat, x: (nat, nat))
    requires Inv(hp) && j < |hp.blocks| && !hp.blocks[j].used && x.0 == hp.blocks[j].addr
    ensures x !in Used(hp)
  {
    UsedSetHas(hp.blocks, End(hp), x);
    if i :| 0 <= i < |hp.blocks| && hp.blocks[i] == Block(x.0, true) {
      SameAddr(hp.blocks, End(hp), H, i, j);
    }
  }

  // ---- rt_realloc ------------------------------------------------------------------------

  lemma HoldsLength(heap: SmallMemory)
    requires heap.Valid()
    ensures heap.mem.Length == End(heap.hp) + H && heap.size + H == End(heap.hp)
  {
  }

  /** A new block, a copy and a release. */
  method MoveBlock(heap: SmallMemory, ptr: nat, bytes: nat, size: nat) returns (r: Answer)
    requires heap.Valid() && Live(heap.hp, ptr) && size == Payload(heap.hp, IndexOf(heap.hp.blocks, ptr - H))
    modifies heap, heap.mem
    ensures heap.Valid() && (heap.hp, r) == Move(old(heap.hp), ptr, bytes)
    ensures forall x :: x in Used(old(heap.hp)) && x.0 + H != ptr ==> Kept(old(heap.mem[..]), heap.mem[..], x)
    ensures r.Some? ==> SameWords(old(heap.mem[..]), heap.mem[..], ptr, r.addr, if size < Round(bytes) then size else Round(bytes))
  {
    hide Malloc, Free, Rep, Inv, Shape, Used, Kept, Payload, IndexOf, Has, Live, SameWords, OnlyHeads, ExtentOf, Touches;
    ghost var h0, m0 := heap.hp, heap.mem[..];
    HoldsLength(heap);
    LiveExtent(h0, ptr);
    StillLive(h0, bytes, ptr);
    r := heap.Malloc(bytes);
    ghost var h1, m1 := heap.hp, heap.mem[..];
    TouchesIs(m0, m1, h0, h1);
    AllKept(m0, m1, h0, h1);
    if r.None? {
      MallocNone(h0, bytes);
      return;
    }
    ghost var x := MallocAdds(h0, bytes);
    var count := if size < Round(bytes) then size else Round(bytes);
    ghost var y := ExtentOf(h0, ptr);
    NewApart(h0, h1, x, y);
    CopyWords(heap.mem, h1, x, ptr, r.addr, count);
    ghost var m2 := heap.mem[..];
    heap.Free(Some(ptr));
    TouchesIs(m2, heap.mem[..], h1, heap.hp);
    MoveKept(m0, m1, m2, heap.mem[..], h0, h1, heap.hp, x, ptr);
    MovedWords(m0, m1, m2, heap.mem[..], x, y, ptr, r.addr, count);
  }

  lemma TouchesIs(mem: seq<int>, mem': seq<int>, hp: Heap, hp': Heap)
    requires End(hp') == End(hp) && |mem| == End(hp) + H && OnlyHeads(mem, mem', hp.blocks, hp'.blocks, End(hp))
    ensures Touches(mem, mem', hp, hp')
  {
  }

  lemma MallocNone(hp: Heap, bytes: nat)
    requires Inv(hp)
    ensures Malloc(hp, bytes).1.None? ==> Malloc(hp, bytes).0 == hp
  {
  }

  lemma NewApart(hp: Heap, h1: Heap, x: (nat, nat), y: (nat, nat))
    requires Inv(h1) && Used(h1) == Used(hp) + {x} && x !in Used(hp) && y in Used(hp)
    ensures x != y && (y.1 <= x.0 || x.1 <= y.0) && x.0 != y.0
  {
    UsedDisjoint(h1.blocks, End(h1), H, x, y);
    UsedSetRange(h1.blocks, End(h1), H, x);
    UsedSetRange(h1.blocks, End(h1), H, y);
  }

  lemma ApartKept(mem: seq<int>, mem': seq<int>, hp: Heap, x: (nat, nat), z: (nat, nat))
    requires Inv(hp) && x in Used(hp) && z in Used(hp) && x != z && |mem'| == |mem|
    requires forall q :: 0 <= q < |mem| && !(x.0 + H <= q < x.1) ==> mem'[q] == mem[q]
    ensures Kept(mem, mem', z)
  {
    UsedDisjoint(hp.blocks, End(hp), H, x, z);
  }

  lemma MoveKept(m0: seq<int>, m1: seq<int>, m2: seq<int>, m3: seq<int>, h0: Heap, h1: Heap, h2: Heap, x: (nat, nat), ptr: nat)
    requires Inv(h1) && Inv(h2) && Live(h1, ptr) && h2 == Free(h1, Some(ptr))
    requires |m2| == |m1| && Touches(m2, m3, h1, h2)
    requires Used(h1) == Used(h0) + {x} && x !in Used(h0) && x.0 + H != ptr
    requires forall z :: z in Used(h0) && z in Used(h1) ==> Kept(m0, m1, z)
    requires forall q :: 0 <= q < |m1| && !(x.0 + H <= q < x.1) ==> m2[q] == m1[q]
    ensures forall z :: z in Used(h0) && z.0 + H != ptr ==> Kept(m0, m3, z)
    ensures Kept(m2, m3, x)
  {
    FreeStays(h1, Some(ptr));
    AllKept(m2, m3, h1, h2);
    forall z | z in Used(h0) && z.0 + H != ptr ensures Kept(m0, m3, z) {
      ApartKept(m1, m2, h1, x, z);
    }
  }

  lemma MovedWords(m0: seq<int>, m1: seq<int>, m2: seq<int>, m3: seq<int>, x: (nat, nat), y: (nat, nat), ptr: nat, dst: nat, count: nat)
    requires Kept(m0, m1, y) && y.0 + H == ptr && ptr + count <= y.1 <= |m0|
    requires |m2| == |m1| && x.0 + H == dst && dst + count <= x.1 <= |m2| && SameWords(m1, m2, ptr, dst, count)
    requires Kept(m2, m3, x)
    ensures SameWords(m0, m3, ptr, dst, count)
  {
    KeptWords(m0, m1, y, count);
    KeptWords(m2, m3, x, count);
    WordsTwice(m0, m1, m2, ptr, ptr, dst, count);
    WordsTwice(m0, m2, m3, ptr, dst, dst, count);
  }

  /** rt_realloc: the words common to the old and the new size are kept, and so is every other
      block in use. */
  method Realloc(heap: SmallMemory, ptr: Answer, bytes: nat) returns (r: Answer)
    requires heap.Valid() && (ptr.Some? ==> Live(heap.hp, ptr.addr))
    modifies heap, heap.mem
    ensures heap.Valid() && (heap.hp, r) == SmallHeap.Realloc(old(heap.hp), ptr, bytes)
    ensures forall x :: x in Used(old(heap.hp)) && (ptr.Some? ==> x.0 + H != ptr.addr) ==> Kept(old(heap.mem[..]), heap.mem[..], x)
    ensures ptr.Some? && r.Some? ==> SameWords(old(heap.mem[..]), heap.mem[..], ptr.addr, r.addr, Common(old(heap.hp), ptr.addr, bytes))
  {
    hide Malloc, Free, Rep, Inv, Shape, Used, Kept, Payload, IndexOf, Has, SameWords, OnlyHeads, ExtentOf, Touches, Move, ShrinkAt;
    ghost var h0, m0 := heap.hp, heap.mem[..];
    HoldsLength(heap);
    SameAll(m0, h0);
    var n := Round(bytes);
    if n > heap.size {
      return None;
    }
    if ptr.None? {
      r := heap.Malloc(4 * n);
      MallocKeeps(h0, 4 * n);
      TouchesIs(m0, heap.mem[..], h0, heap.hp);
      AllKept(m0, heap.mem[..], h0, heap.hp);
      return;
    }
    var a := ptr.addr - H;
    ghost var i := IndexOf(h0.blocks, a);
    HeadFacts(m0, h0, i);
    var size := heap.mem[a + NEXT_AT] - a - H;
    PayloadIs(h0, i);
    SelfWords(m0, ptr.addr, if size < n then size else n);
    if size == n {
      return ptr;
    }
    if n + H + MIN < size {
      ShrinkAtKeeps(h0, i, n);
      heap.Shrink(a, i, n, size);
      TouchesIs(m0, heap.mem[..], h0, heap.hp);
      ShrinkKept(m0, heap.mem[..], h0, i, n);
      r := ptr;
    } else {
      r := MoveBlock(heap, ptr.addr, 4 * n, size);
    }
  }

  /** How many words a resized block has in common with its old self. */
  function Common(hp: Heap, ptr: nat, bytes: nat): nat
    requires Inv(hp) && Live(hp, ptr)
  {
    LiveExtent(hp, ptr);
    var size := Payload(hp, IndexOf(hp.blocks, ptr - H));
    if size < Round(bytes) then size else Round(bytes)
  }

  lemma SameAll(mem: seq<int>, hp: Heap)
    ensures forall x :: x in Used(hp) ==> Kept(mem, mem, x)
  {
  }

  lemma SelfWords(mem: seq<int>, a: nat, count: nat)
    requires a + count <= |mem|
    ensures SameWords(mem, mem, a, a, count)
  {
  }

  lemma PayloadIs(hp: Heap, i: nat)
    requires i < |hp.blocks|
    ensures Payload(hp, i) == NextAddr(hp.blocks, End(hp), i) - hp.blocks[i].addr - H
  {
  }

  lemma ShrinkKept(mem: seq<int>, mem': seq<int>, hp: Heap, i: nat, n: nat)
    requires Inv(hp) && i < |hp.blocks| && hp.blocks[i].used && Shrinks(Payload(hp, i), n) && n <= Payload(hp, i) <= hp.used
    requires Inv(ShrinkAt(hp, i, n)) && Touches(mem, mem', hp, ShrinkAt(hp, i, n))
    ensures forall x :: x in Used(hp) && x.0 != hp.blocks[i].addr ==> Kept(mem, mem', x)
    ensures SameWords(mem, mem', hp.blocks[i].addr + H, hp.blocks[i].addr + H, n)
  {
    var a, e, hp' := hp.blocks[i].addr, NextAddr(hp.blocks, End(hp), i), ShrinkAt(hp, i, n);
    UsedBlock(hp, i);
    ShrinkAtKeeps(hp, i, n);
    AllKept(mem, mem', hp, hp');
    KeptBy(mem, mem', hp, hp', (a, e), (a, a + H + n));
  }

  lemma UsedBlock(hp: Heap, i: nat)
    requires Inv(hp) && i < |hp.blocks| && hp.blocks[i].used
    ensures var y := (hp.blocks[i].addr, NextAddr(hp.blocks, End(hp), i)); y in Used(hp) && y.1 <= End(hp)
  {
    Order(hp.blocks, End(hp), H, i);
    UsedSetHas(hp.blocks, End(hp), (hp.blocks[i].addr, NextAddr(hp.blocks, End(hp), i)));
  }
}
