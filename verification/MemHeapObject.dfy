/**
 The memheap object: its counters, the search of the free list, and what callers may rely on.
 */
module MemHeapObject {
  import opened NatLists
  import opened BlockList
  import opened RingList
  import opened MemHeap
  import opened MemHeapLinks
  import opened MemHeapMemory
  import opened MemHeapAlloc
  import opened MemHeapResize

  /** The payload of a block that reaches from x.0 to x.1 is as it was. */
  ghost predicate Kept(mem: seq<int>, mem': seq<int>, x: (nat, nat)) {
    |mem'| == |mem| && forall q :: x.0 + H <= q < x.1 && q < |mem| ==> mem'[q] == mem[q]
  }

  ghost predicate Touches(mem: seq<int>, mem': seq<int>, hp: Heap, hp': Heap) {
    Only(mem, mem', Heads(hp.blocks, hp.end) + Heads(hp'.blocks, hp'.end))
  }

  lemma KeptBy(mem: seq<int>, mem': seq<int>, hp: Heap, hp': Heap, x: (nat, nat))
    requires Inv(hp) && Inv(hp') && hp'.end == hp.end && |mem| == hp.end + H && Touches(mem, mem', hp, hp')
    requires x in Used(hp) && x in Used(hp')
    ensures Kept(mem, mem', x)
  {
    forall q | x.0 + H <= q < x.1 && q < |mem| ensures mem'[q] == mem[q] {
      PayloadUntouched(mem, mem', hp, hp', x, x, q);
    }
  }

  /** Resized in place, a block keeps the words that it has before and after. */
  lemma KeptCommon(mem: seq<int>, mem': seq<int>, hp: Heap, hp': Heap, a: nat, e: nat, e': nat)
    requires Inv(hp) && Inv(hp') && hp'.end == hp.end && |mem| == hp.end + H && Touches(mem, mem', hp, hp')
    requires (a, e) in Used(hp) && (a, e') in Used(hp')
    ensures Kept(mem, mem', (a, if e < e' then e else e'))
  {
    forall q | a + H <= q < (if e < e' then e else e') && q < |mem| ensures mem'[q] == mem[q] {
      PayloadUntouched(mem, mem', hp, hp', (a, e), (a, e'), q);
    }
  }

  lemma TouchesNothing(mem: seq<int>, hp: Heap)
    ensures Touches(mem, mem, hp, hp)
  {
  }

  /** All that a release or an allocation leaves in use is kept. */
  lemma AllKept(mem: seq<int>, mem': seq<int>, hp: Heap, hp': Heap)
    requires Inv(hp) && Inv(hp') && hp'.end == hp.end && |mem| == hp.end + H && Touches(mem, mem', hp, hp')
    ensures forall x :: x in Used(hp) && x in Used(hp') ==> Kept(mem, mem', x)
  {
    forall x | x in Used(hp) && x in Used(hp') ensures Kept(mem, mem', x) {
      KeptBy(mem, mem', hp, hp', x);
    }
  }

  lemma FirstFitNext(hp: Heap, k: nat, n: nat)
    requires FreeKnown(hp, hp.free) && k < |hp.free|
    ensures FreeKnown(hp, hp.free[k..]) && FreeKnown(hp, hp.free[k + 1..])
    ensures FirstFit(hp, hp.free[k..], n) ==
            if Payload(hp, IndexOf(hp.blocks, hp.free[k])) >= n then Some(hp.free[k]) else FirstFit(hp, hp.free[k + 1..], n)
  {
  }

  /** The search loop of rt_memheap_alloc. */
  method Search(mem: array<int>, ghost hp: Heap, n: nat) returns (a: nat, room: int, ghost k: nat)
    requires Inv(hp) && Rep(mem[..], hp) && n > 0
    ensures FreeKnown(hp, hp.free)
    ensures room < n ==> FirstFit(hp, hp.free, n) == None
    ensures room >= n ==> && k < |hp.free| && hp.free[k] == a && FirstFit(hp, hp.free, n) == Some(a)
                          && room == Payload(hp, IndexOf(hp.blocks, a))
  {
    hide Rep, Inv, Payload, FirstFit, Has;
    KnownFree(hp);
    ReadFree(mem[..], hp, 0);
    NoHeaderFree(hp);
    room := 0;
    a := mem[HEADER + FREES.f];
    k := 0;
    while a != HEADER && room < n
      invariant k <= |hp.free| && FreeKnown(hp, hp.free)
      invariant a == if k < |hp.free| then hp.free[k] else HEADER
      invariant FirstFit(hp, hp.free, n) == FirstFit(hp, hp.free[k..], n)
      invariant room >= n ==> k < |hp.free| && FirstFit(hp, hp.free, n) == Some(a) && room == Payload(hp, IndexOf(hp.blocks, a))
      decreases |hp.free| - k, if room < n then 1 else 0
    {
      FirstFitNext(hp, k, n);
      room := SizeOf(mem, hp, IndexOf(hp.blocks, a), a);
      if room < n {
        ReadFree(mem[..], hp, k + 1);
        a := mem[a + FREES.f];
        k := k + 1;
      }
    }
  }

  lemma NoHeaderFree(hp: Heap)
    requires Inv(hp)
    ensures HEADER !in hp.free
  {
    if HEADER in hp.free {
      FreeSetRange(hp.blocks, hp.end, H, HEADER);
    }
  }

  class MemoryHeap {
    const mem: array<int>
    const poolSize: nat
    var available: nat
    var maxUsed: nat
    ghost var hp: Heap

    ghost predicate Valid()
      reads this, mem
    {
      && Inv(hp) && Rep(mem[..], hp)
      && available == hp.avail && maxUsed == hp.maxUsed && poolSize == PoolSize(hp)
    }

    /** rt_memheap_init on a pool of size words. */
    constructor (size: nat)
      requires size >= 2 * H
      ensures Valid() && hp == Init(size) && fresh(mem)
    {
      mem := new int[START + size];
      poolSize := size;
      available := size - 2 * H;
      maxUsed := 2 * H;
      hp := Init(size);
      new;
      var end := START + size - H;
      InitMemory(mem, end);
      InitInv(size);
      InitRep(mem[..], size);
    }

    method Count(size: nat)
      requires size <= available <= poolSize
      modifies this`available, this`maxUsed
      ensures available == old(available) - size
      ensures maxUsed == if poolSize - available > old(maxUsed) then poolSize - available else old(maxUsed)
    {
      available := available - size;
      if poolSize - available > maxUsed {
        maxUsed := poolSize - available;
      }
    }

    /** rt_memheap_alloc */
    method Alloc(bytes: nat) returns (r: Answer)
      requires Valid()
      modifies this`available, this`maxUsed, this`hp, mem
      ensures Valid() && (hp, r) == MemHeap.Alloc(old(hp), Want(bytes))
      ensures forall x :: x in Used(old(hp)) ==> Kept(old(mem[..]), mem[..], x)
    {
      r := AllocWords(Want(bytes));
      RepLength(old(mem[..]), old(hp));
      AllKept(old(mem[..]), mem[..], old(hp), hp);
      AllocStays(old(hp), Want(bytes));
    }

    method AllocWords(n: nat) returns (r: Answer)
      requires Valid() && n > 0
      modifies this`available, this`maxUsed, this`hp, mem
      ensures Valid() && (hp, r) == MemHeap.Alloc(old(hp), n)
      ensures Touches(old(mem[..]), mem[..], old(hp), hp) && hp.end == old(hp).end
    {
      hide Rep, Inv, Touches, IndexOf, Has, AllocAt, Payload, FirstFit;
      AllocKeeps(hp, n);
      AvailFits(hp);
      if n < available {
        var a, room, k := Search(mem, hp, n);
        if room >= n {
          PayloadFits(hp, a);
          TakeFound(n, a, room, IndexOf(hp.blocks, a), k);
          return Some(a + H);
        }
      }
      TouchesNothing(mem[..], hp);
      r := None;
    }

    /** A block that satisfies the request has been found: split it or hand it out whole. */
    method TakeFound(n: nat, a: nat, room: nat, ghost i: nat, ghost k: nat)
      requires Valid() && i < |hp.blocks| && hp.blocks[i] == Block(a, false) && k < |hp.free| && hp.free[k] == a
      requires n <= room == Payload(hp, i) <= hp.avail <= PoolSize(hp) && Inv(AllocAt(hp, i, n))
      modifies this`available, this`maxUsed, this`hp, mem
      ensures Valid() && hp == AllocAt(old(hp), i, n) && Touches(old(mem[..]), mem[..], old(hp), hp) && hp.end == old(hp).end
    {
      hide Rep, Inv, Touches, Payload, Splice, Without;
      hp := AllocAt(hp, i, n);
      if room >= n + H + MIN {
        TakeSplit(mem, old(hp), i, k, a, n);
        Count(n + H);
      } else {
        TakeWhole(mem, old(hp), i, k, a, n);
        Count(room);
      }
      TouchesIs(old(mem[..]), mem[..], old(hp), hp);
    }

    /** rt_memheap_free */
    method Free(ptr: Answer)
      requires Valid() && (ptr.Some? ==> Live(hp, ptr.addr))
      modifies this`available, this`hp, mem
      ensures Valid() && hp == Release(old(hp), ptr) && hp.end == old(hp).end
      ensures Touches(old(mem[..]), mem[..], old(hp), hp)
      ensures forall x :: x in Used(old(hp)) && (ptr.Some? ==> x.0 + H != ptr.addr) ==> Kept(old(mem[..]), mem[..], x)
    {
      ghost var h0 := hp;
      ReleaseKeeps(hp, ptr);
      RepLength(mem[..], hp);
      ReleaseStays(hp, ptr);
      TouchesNothing(mem[..], hp);
      if ptr.Some? {
        var a := ptr.addr - H;
        ghost var i := IndexOf(hp.blocks, a);
        var gain := FreeBlock(mem, hp, i, a);
        ReleasedAt(hp, i);
        available := available + gain;
        hp := FreeAt(hp, i);
        TouchesIs(old(mem[..]), mem[..], h0, hp);
      }
      AllKept(old(mem[..]), mem[..], h0, hp);
    }

    /** Growing into the free block behind, if it is large enough. */
    method TryGrow(ptr: nat, n: nat, size: nat) returns (done: bool)
      requires Valid() && Live(hp, ptr) && n > size == Payload(hp, IndexOf(hp.blocks, ptr - H))
      modifies this`available, this`maxUsed, this`hp, mem
      ensures Valid() && hp.end == old(hp).end && Touches(old(mem[..]), mem[..], old(hp), hp)
      ensures var i := IndexOf(old(hp).blocks, ptr - H);
              && done == Grows(old(hp), i, n)
              && (!done ==> hp == old(hp) && mem[..] == old(mem[..]))
              && (done ==> n - size <= old(hp).avail && hp == GrowAt(old(hp), i, n))
    {
      hide Rep, Inv, Touches, IndexOf, Has, Payload;
      var a := ptr - H;
      ghost var i, h0 := IndexOf(hp.blocks, a), hp;
      AvailFits(hp);
      TouchesNothing(mem[..], hp);
      var prev, next, left, right := Beside(mem, hp, i, a);
      if right {
        var nextSize := SizeOf(mem, hp, i + 1, next);
        if nextSize + size > n + MIN {
          GrowAtKeeps(hp, i, n);
          GrowBlock(mem, hp, i, a, n, next);
          Count(n - size);
          hp := GrowAt(hp, i, n);
          TouchesIs(old(mem[..]), mem[..], h0, hp);
          return true;
        }
      }
      done := false;
    }

    /** Giving back the end of the block, if it is large enough for a block of its own. */
    method Shrink(ptr: nat, n: nat, size: nat)
      requires Valid() && Live(hp, ptr) && n <= size == Payload(hp, IndexOf(hp.blocks, ptr - H))
      modifies this`available, this`hp, mem
      ensures Valid() && hp.end == old(hp).end && Touches(old(mem[..]), mem[..], old(hp), hp)
      ensures var i := IndexOf(old(hp).blocks, ptr - H);
              hp == if Keeps(size, n) then old(hp) else ShrinkAt(old(hp), i, n)
    {
      hide Rep, Inv, Touches, IndexOf, Has, Payload;
      ghost var i, h0 := IndexOf(hp.blocks, ptr - H), hp;
      TouchesNothing(mem[..], hp);
      if n + H + MIN < size {
        ShrinkAtKeeps(hp, i, n);
        var gain := ShrinkBlock(mem, hp, i, ptr - H, n);
        hp := ShrinkAt(hp, i, n);
        available := available + gain;
        TouchesIs(old(mem[..]), mem[..], h0, hp);
      }
    }

    /** The last resort of rt_memheap_realloc: a new block, a copy, a release. */
    method MoveBlock(ptr: nat, n: nat, size: nat) returns (r: Answer)
      requires Valid() && Live(hp, ptr) && n > size == Payload(hp, IndexOf(hp.blocks, ptr - H))
      modifies this`available, this`maxUsed, this`hp, mem
      ensures Valid() && (hp, r) == Move(old(hp), IndexOf(old(hp).blocks, ptr - H), n)
      ensures forall x :: x in Used(old(hp)) && x.0 + H != ptr ==> Kept(old(mem[..]), mem[..], x)
      ensures r.Some? ==> r.addr + size <= mem.Length && ptr + size <= mem.Length
      ensures r.Some? ==> mem[r.addr..r.addr + size] == old(mem[ptr..ptr + size])
    {
      hide MemHeap.Alloc, Rep, Inv, Touches, Kept, Used, Payload, IndexOf, Has, Release, Live;
      LiveIs(hp, ptr);
      ghost var h0, m0, i := hp, mem[..], IndexOf(hp.blocks, ptr - H);
      RepLength(m0, h0);
      r := AllocWords(n);
      if r.None? {
        AllocRefused(h0, n);
        SameKept(m0, mem[..], h0, hp);
        return;
      }
      ghost var h1, m1 := hp, mem[..];
      ghost var x, y := MoveFacts(h0, i, n);
      StillLive(h0, n, i);
      AllKept(m0, m1, h0, h1);
      CopyWords(mem, h1, x, ptr, r.addr, size);
      ghost var m2 := mem[..];
      Free(Some(ptr));
      MoveKept(m0, m1, m2, mem[..], h0, h1, hp, x, ptr);
      MovedWords(m0, m1, m2, mem[..], x, y, ptr, r.addr, size);
    }

    /** rt_memheap_realloc: the words common to the old and the new size are kept, and so is every
        other block in use. */
    method Realloc(ptr: Answer, bytes: nat) returns (r: Answer)
      requires Valid() && (ptr.Some? ==> Live(hp, ptr.addr))
      modifies this`available, this`maxUsed, this`hp, mem
      ensures Valid() && (hp, r) == MemHeap.Realloc(old(hp), ptr, bytes)
      ensures forall x :: x in Used(old(hp)) && (ptr.Some? ==> x.0 + H != ptr.addr) ==> Kept(old(mem[..]), mem[..], x)
      ensures ptr.Some? && r.Some? ==> SameWords(old(mem[..]), mem[..], ptr.addr, r.addr, Common(old(hp), ptr.addr, bytes))
    {
      ghost var h0, m0 := hp, mem[..];
      if bytes == 0 {
        Free(ptr);
        r := None;
      } else if ptr.None? {
        r := Alloc(bytes);
      } else {
        r := Resize(ptr.addr, bytes);
      }
    }

    method Resize(ptr: nat, bytes: nat) returns (r: Answer)
      requires Valid() && Live(hp, ptr)
      modifies this`available, this`maxUsed, this`hp, mem
      ensures Valid() && (hp, r) == ResizeAt(old(hp), IndexOf(old(hp).blocks, ptr - H), Want(bytes))
      ensures forall x :: x in Used(old(hp)) && x.0 + H != ptr ==> Kept(old(mem[..]), mem[..], x)
      ensures r.Some? ==> SameWords(old(mem[..]), mem[..], ptr, r.addr, Common(old(hp), ptr, bytes))
    {
      hide MemHeap.Alloc, Rep, Inv, Touches, Kept, Used, Payload, IndexOf, Has, Release, Move, GrowAt, ShrinkAt;
      ghost var h0, m0 := hp, mem[..];
      RepLength(m0, h0);
      var n := Want(bytes);
      ghost var i := IndexOf(h0.blocks, ptr - H);
      var size := SizeOf(mem, hp, i, ptr - H);
      if n > size {
        var done := TryGrow(ptr, n, size);
        if !done {
          r := MoveBlock(ptr, n, size);
          return;
        }
      } else {
        Shrink(ptr, n, size);
      }
      InPlaceStays(h0, i, n);
      AllKept(m0, mem[..], h0, hp);
      InPlaceWords(m0, mem[..], h0, hp, i, n);
      r := Some(ptr);
    }
  }

  method InitMemory(mem: array<int>, end: nat)
    requires mem.Length == end + H && end >= START + H
    modifies mem
    ensures mem[HEADER + FREES.f] == START && mem[HEADER + FREES.g] == START
    ensures mem[START + MAGIC_AT] == FREED && mem[START + POOL_AT] == SELF
    ensures mem[START + BLOCKS.f] == end && mem[START + BLOCKS.g] == end
    ensures mem[START + FREES.f] == HEADER && mem[START + FREES.g] == HEADER
    ensures mem[end + MAGIC_AT] == USED && mem[end + POOL_AT] == SELF
    ensures mem[end + BLOCKS.f] == START && mem[end + BLOCKS.g] == START
  {
    WriteHeader(mem, HEADER, FREED, 0, 0, HEADER, HEADER);
    WriteHeader(mem, START, FREED, end, end, mem[HEADER + FREES.f], HEADER);
    mem[HEADER + FREES.g] := START;
    mem[HEADER + FREES.f] := START;
    WriteHeader(mem, end, USED, START, START, 0, 0);
  }

  method WriteHeader(mem: array<int>, a: nat, mark: int, next: int, prev: int, nextFree: int, prevFree: int)
    requires a + H <= mem.Length
    modifies mem
    ensures mem[a + MAGIC_AT] == mark && mem[a + POOL_AT] == SELF
    ensures mem[a + BLOCKS.f] == next && mem[a + BLOCKS.g] == prev
    ensures mem[a + FREES.f] == nextFree && mem[a + FREES.g] == prevFree
    ensures forall q :: 0 <= q < mem.Length && !(a <= q < a + H) ==> mem[q] == old(mem[q])
  {
    mem[a + MAGIC_AT] := mark;
    mem[a + POOL_AT] := SELF;
    mem[a + BLOCKS.f] := next;
    mem[a + BLOCKS.g] := prev;
    mem[a + FREES.f] := nextFree;
    mem[a + FREES.g] := prevFree;
  }

  lemma InitRep(mem: seq<int>, size: nat)
    requires size >= 2 * H && |mem| == START + size
    requires var end := START + size - H;
             && mem[HEADER + FREES.f] == START && mem[HEADER + FREES.g] == START
             && mem[START + MAGIC_AT] == FREED && mem[START + POOL_AT] == SELF
             && mem[START + BLOCKS.f] == end && mem[START + BLOCKS.g] == end
             && mem[START + FREES.f] == HEADER && mem[START + FREES.g] == HEADER
             && mem[end + MAGIC_AT] == USED && mem[end + POOL_AT] == SELF
             && mem[end + BLOCKS.f] == START && mem[end + BLOCKS.g] == START
    ensures Rep(mem, Init(size))
  {
  }

  lemma TouchesIs(mem: seq<int>, mem': seq<int>, hp: Heap, hp': Heap)
    requires hp'.end == hp.end && Only(mem, mem', Heads(hp.blocks, hp.end) + Heads(hp'.blocks, hp.end))
    ensures Touches(mem, mem', hp, hp')
  {
  }

  lemma AvailFits(hp: Heap)
    requires Inv(hp)
    ensures hp.avail <= PoolSize(hp)
  {
    TotalIs(hp.blocks, hp.end);
    WordsNonNegative(hp.blocks, hp.end, true, 0, H);
    LessHeaders(hp.blocks, hp.end);
  }

  lemma {:induction false} LessHeaders(bs: seq<Block>, end: nat)
    ensures Words(bs, end, false, H) <= Words(bs, end, false, 0)
    decreases |bs|
  {
    if bs != [] {
      LessHeaders(bs[1..], end);
    }
  }

  // ---- copying a payload -----------------------------------------------------------------

  ghost predicate SameHeader(mem: seq<int>, mem': seq<int>, a: nat) {
    a + H <= |mem| == |mem'| && mem'[a..a + H] == mem[a..a + H]
  }

  /** Writing payload words leaves the headers as they are. */
  lemma HeadersKept(mem: seq<int>, mem': seq<int>, hp: Heap, x: (nat, nat), a: nat)
    requires Inv(hp) && Rep(mem, hp) && x in Used(hp) && |mem'| == |mem| && a in Heads(hp.blocks, hp.end)
    requires forall q :: 0 <= q < |mem| && !(x.0 + H <= q < x.1) ==> mem'[q] == mem[q]
    ensures SameHeader(mem, mem', a)
  {
    forall q | a <= q < a + H ensures mem'[q] == mem[q] {
      if x.0 + H <= q < x.1 {
        PayloadClear(hp, x, q);
      }
    }
  }

  lemma RepKept(mem: seq<int>, mem': seq<int>, hp: Heap, x: (nat, nat))
    requires Inv(hp) && Rep(mem, hp) && x in Used(hp) && |mem'| == |mem|
    requires forall q :: 0 <= q < |mem| && !(x.0 + H <= q < x.1) ==> mem'[q] == mem[q]
    ensures Rep(mem', hp)
  {
    var heads := Heads(hp.blocks, hp.end);
    forall a | a in heads ensures SameHeader(mem, mem', a) {
      HeadersKept(mem, mem', hp, x, a);
    }
    SameRing(mem, mem', BLOCKS, Cycle(hp.blocks, hp.end), heads);
    SameRing(mem, mem', FREES, [HEADER] + hp.free, heads);
    forall b | b in hp.blocks ensures Marked(mem', b) {
      SameMark(mem, mem', b);
    }
  }

  lemma SameMark(mem: seq<int>, mem': seq<int>, b: Block)
    requires Marked(mem, b) && SameHeader(mem, mem', b.addr)
    ensures Marked(mem', b)
  {
  }

  lemma SameRing(mem: seq<int>, mem': seq<int>, l: Layout, cyc: seq<nat>, heads: set<nat>)
    requires Ring(mem, l, cyc) && Within(cyc, heads) && |mem'| == |mem| && l.w == H
    requires forall a :: a in heads ==> SameHeader(mem, mem', a)
    ensures Ring(mem', l, cyc)
  {
    Frame(mem, mem', l, cyc);
  }

  /** rt_memcpy between two payloads. */
  method CopyWords(mem: array<int>, ghost hp: Heap, ghost x: (nat, nat), src: nat, dst: nat, count: nat)
    requires Inv(hp) && Rep(mem[..], hp) && x in Used(hp) && x.0 + H == dst && dst + count <= x.1 <= mem.Length
    requires src + count <= mem.Length && (src + count <= dst || dst + count <= src)
    modifies mem
    ensures Rep(mem[..], hp)
    ensures mem[dst..dst + count] == old(mem[src..src + count])
    ensures forall q :: 0 <= q < mem.Length && !(dst <= q < x.1) ==> mem[q] == old(mem[q])
  {
    hide Rep, Inv, Used;
    for k := 0 to count
      invariant mem[dst..dst + k] == old(mem[src..src + k])
      invariant forall q :: 0 <= q < mem.Length && !(dst <= q < dst + k) ==> mem[q] == old(mem[q])
    {
      mem[dst + k] := mem[src + k];
    }
    RepKept(old(mem[..]), mem[..], hp, x);
  }

  // ---- what callers rely on --------------------------------------------------------------

  lemma RepLength(mem: seq<int>, hp: Heap)
    requires Rep(mem, hp)
    ensures |mem| == hp.end + H
  {
  }

  lemma LiveIs(hp: Heap, ptr: nat)
    requires Inv(hp) && Live(hp, ptr)
    ensures ptr >= H && Has(hp.blocks, ptr - H)
    ensures var i := IndexOf(hp.blocks, ptr - H);
            && hp.blocks[i] == Block(ptr - H, true) && Payload(hp, i) >= 0
            && (ptr - H, NextAddr(hp.blocks, hp.end, i)) in Used(hp)
            && ptr + Payload(hp, i) == NextAddr(hp.blocks, hp.end, i) <= hp.end
  {
    var i := IndexOf(hp.blocks, ptr - H);
    Order(hp.blocks, hp.end, H, i);
    UsedSetHas(hp.blocks, hp.end, (ptr - H, NextAddr(hp.blocks, hp.end, i)));
  }

  /** Every block in use survives an allocation. */
  lemma AllocStays(hp: Heap, n: nat)
    requires Inv(hp)
    ensures Used(hp) <= Used(Alloc(hp, n).0)
  {
    AllocSucceeds(hp, n);
    if Alloc(hp, n).1.Some? {
      var i :| 0 <= i < |hp.blocks| && !hp.blocks[i].used && n <= Payload(hp, i) <= hp.avail && Alloc(hp, n).0 == AllocAt(hp, i, n);
      AllocAtUsed(hp, i, n);
    }
  }

  lemma AllocRefused(hp: Heap, n: nat)
    requires Inv(hp)
    ensures Alloc(hp, n).1.None? ==> Alloc(hp, n).0 == hp
  {
  }

  lemma SameKept(mem: seq<int>, mem': seq<int>, hp: Heap, hp': Heap)
    requires Inv(hp) && hp' == hp && |mem| == hp.end + H && Touches(mem, mem', hp, hp')
    ensures forall x :: x in Used(hp) ==> Kept(mem, mem', x)
  {
    AllKept(mem, mem', hp, hp');
  }

  /** Where the new block lies, and that the old one is still there and apart. */
  lemma MoveFacts(hp: Heap, i: nat, n: nat) returns (x: (nat, nat), y: (nat, nat))
    requires Inv(hp) && i < |hp.blocks| && hp.blocks[i].used && Alloc(hp, n).1.Some? && Payload(hp, i) <= n
    ensures y == (hp.blocks[i].addr, NextAddr(hp.blocks, hp.end, i))
    ensures var h1, r := Alloc(hp, n).0, Alloc(hp, n).1;
            && Inv(h1) && h1.end == hp.end && x in Used(h1) && y in Used(h1) && y in Used(hp) && x != y
            && x.0 + H == r.addr && r.addr + n <= x.1 <= hp.end
            && (y.1 <= x.0 || x.1 <= y.0) && y.0 + H + Payload(hp, i) == y.1 <= hp.end
            && Used(h1) == Used(hp) + {x} && x !in Used(hp)
  {
    AllocKeeps(hp, n);
    AllocSucceeds(hp, n);
    var j :| && 0 <= j < |hp.blocks| && !hp.blocks[j].used && n <= Payload(hp, j) <= hp.avail
             && Alloc(hp, n).1.addr == hp.blocks[j].addr + H && Alloc(hp, n).0 == AllocAt(hp, j, n);
    y := (hp.blocks[i].addr, NextAddr(hp.blocks, hp.end, i));
    x := NewBlock(hp, j, n);
    UsedBlock(hp, i);
    NewApart(hp, AllocAt(hp, j, n), x, y);
  }

  lemma UsedBlock(hp: Heap, i: nat)
    requires Inv(hp) && i < |hp.blocks| && hp.blocks[i].used
    ensures var y := (hp.blocks[i].addr, NextAddr(hp.blocks, hp.end, i));
            y in Used(hp) && y.0 + H + Payload(hp, i) == y.1 <= hp.end
  {
    Order(hp.blocks, hp.end, H, i);
    UsedSetHas(hp.blocks, hp.end, (hp.blocks[i].addr, NextAddr(hp.blocks, hp.end, i)));
  }

  lemma NewBlock(hp: Heap, j: nat, n: nat) returns (x: (nat, nat))
    requires Inv(hp) && j < |hp.blocks| && !hp.blocks[j].used && n <= Payload(hp, j) <= hp.avail
    ensures var h1 := AllocAt(hp, j, n);
            && h1.end == hp.end && Used(h1) == Used(hp) + {x} && x !in Used(hp)
            && x.0 == hp.blocks[j].addr && x.0 + H + n <= x.1 <= hp.end
  {
    var a := hp.blocks[j].addr;
    x := (a, if Splits(Payload(hp, j), n) then a + H + n else NextAddr(hp.blocks, hp.end, j));
    AllocAtUsed(hp, j, n);
    Order(hp.blocks, hp.end, H, j);
    FreeNotUsed(hp, j, x);
  }

  lemma NewApart(hp: Heap, h1: Heap, x: (nat, nat), y: (nat, nat))
    requires Inv(h1) && Used(h1) == Used(hp) + {x} && x !in Used(hp) && y in Used(hp)
    ensures x != y && (y.1 <= x.0 || x.1 <= y.0)
  {
    UsedDisjoint(h1.blocks, h1.end, H, x, y);
  }

  lemma FreeNotUsed(hp: Heap, j: nat, x: (nat, nat))
    requires Inv(hp) && j < |hp.blocks| && !hp.blocks[j].used && x.0 == hp.blocks[j].addr
    ensures x !in Used(hp)
  {
    UsedSetHas(hp.blocks, hp.end, x);
    if i :| 0 <= i < |hp.blocks| && hp.blocks[i] == Block(x.0, true) {
      SameAddr(hp.blocks, hp.end, H, i, j);
    }
  }

  lemma ReleaseUsed(hp: Heap, ptr: nat)
    requires Inv(hp) && Live(hp, ptr)
    ensures forall z :: z in Used(hp) && z.0 + H != ptr ==> z in Used(Release(hp, Some(ptr)))
  {
    var i := IndexOf(hp.blocks, ptr - H);
    FreeAtUsed(hp, i);
  }

  lemma ApartKept(mem: seq<int>, mem': seq<int>, hp: Heap, x: (nat, nat), z: (nat, nat))
    requires Inv(hp) && x in Used(hp) && z in Used(hp) && x != z && |mem'| == |mem|
    requires forall q :: 0 <= q < |mem| && !(x.0 + H <= q < x.1) ==> mem'[q] == mem[q]
    ensures Kept(mem, mem', z)
  {
    UsedDisjoint(hp.blocks, hp.end, H, x, z);
  }

  /** Through allocation, copy and release, the other blocks keep their contents. */
  lemma MoveKept(m0: seq<int>, m1: seq<int>, m2: seq<int>, m3: seq<int>, h0: Heap, h1: Heap, h2: Heap, x: (nat, nat), ptr: nat)
    requires Inv(h1) && Inv(h2) && h2.end == h1.end && Live(h1, ptr) && h2 == Release(h1, Some(ptr))
    requires |m2| == |m1| && |m2| == h1.end + H && Touches(m2, m3, h1, h2)
    requires Used(h1) == Used(h0) + {x} && x !in Used(h0) && x.0 + H != ptr
    requires forall z :: z in Used(h0) && z in Used(h1) ==> Kept(m0, m1, z)
    requires forall q :: 0 <= q < |m1| && !(x.0 + H <= q < x.1) ==> m2[q] == m1[q]
    ensures forall z :: z in Used(h0) && z.0 + H != ptr ==> Kept(m0, m3, z)
    ensures Kept(m2, m3, x)
  {
    ReleaseUsed(h1, ptr);
    AllKept(m2, m3, h1, h2);
    forall z | z in Used(h0) && z.0 + H != ptr ensures Kept(m0, m3, z) {
      ApartKept(m1, m2, h1, x, z);
    }
  }

  lemma KeptWords(mem: seq<int>, mem': seq<int>, x: (nat, nat), count: nat)
    requires Kept(mem, mem', x) && x.0 + H + count <= x.1 <= |mem|
    ensures mem'[x.0 + H..x.0 + H + count] == mem[x.0 + H..x.0 + H + count]
  {
  }

  lemma MovedWords(m0: seq<int>, m1: seq<int>, m2: seq<int>, m3: seq<int>, x: (nat, nat), y: (nat, nat), ptr: nat, dst: nat, size: nat)
    requires Kept(m0, m1, y) && y.0 + H == ptr && ptr + size <= y.1 <= |m0|
    requires |m2| == |m1| && x.0 + H == dst && dst + size <= x.1 <= |m2| && m2[dst..dst + size] == m1[ptr..ptr + size]
    requires Kept(m2, m3, x)
    ensures dst + size <= |m3| && m3[dst..dst + size] == m0[ptr..ptr + size]
  {
    KeptWords(m0, m1, y, size);
    KeptWords(m2, m3, x, size);
  }

  /** How many words a resized block has in common with its old self. */
  function Common(hp: Heap, ptr: nat, bytes: nat): nat
    requires Inv(hp) && Live(hp, ptr)
  {
    LiveIs(hp, ptr);
    var size := Payload(hp, IndexOf(hp.blocks, ptr - H));
    if size < Want(bytes) then size else Want(bytes)
  }

  predicate SameWords(mem: seq<int>, mem': seq<int>, from: nat, to: nat, count: nat) {
    from + count <= |mem| && to + count <= |mem'| && mem'[to..to + count] == mem[from..from + count]
  }

  lemma ReleasedAt(hp: Heap, i: nat)
    requires i < |hp.blocks| && Payload(hp, i) >= 0
    ensures FreeAt(hp, i).end == hp.end && FreeAt(hp, i).maxUsed == hp.maxUsed
  {
  }

  lemma ReleaseStays(hp: Heap, ptr: Answer)
    requires Inv(hp) && (ptr.Some? ==> Live(hp, ptr.addr))
    ensures forall z :: z in Used(hp) && (ptr.Some? ==> z.0 + H != ptr.addr) ==> z in Used(Release(hp, ptr))
  {
    if ptr.Some? {
      ReleaseUsed(hp, ptr.addr);
    }
  }

  predicate InPlace(hp: Heap, i: nat, n: nat)
    requires i < |hp.blocks|
  {
    n <= Payload(hp, i) || Grows(hp, i, n)
  }

  lemma InPlaceStays(hp: Heap, i: nat, n: nat)
    requires Inv(hp) && i < |hp.blocks| && hp.blocks[i].used && InPlace(hp, i, n)
    ensures var hp', a, e := ResizeAt(hp, i, n).0, hp.blocks[i].addr, NextAddr(hp.blocks, hp.end, i);
            && ResizeAt(hp, i, n).1 == Some(a + H) && (a, e) in Used(hp)
            && (forall z :: z in Used(hp) && z.0 != a ==> z in Used(hp'))
            && exists e' :: (a, e') in Used(hp') && a + H + n <= e'
  {
    UsedBlock(hp, i);
    var a, e := hp.blocks[i].addr, NextAddr(hp.blocks, hp.end, i);
    if n > Payload(hp, i) {
      GrowAtUsed(hp, i, n);
    } else if Keeps(Payload(hp, i), n) {
    } else {
      ShrinkAtUsed(hp, i, n);
    }
  }

  lemma InPlaceWords(mem: seq<int>, mem': seq<int>, hp: Heap, hp': Heap, i: nat, n: nat)
    requires Inv(hp) && Inv(hp') && i < |hp.blocks| && hp.blocks[i].used && InPlace(hp, i, n)
    requires hp' == ResizeAt(hp, i, n).0 && hp'.end == hp.end && |mem| == hp.end + H && Touches(mem, mem', hp, hp')
    ensures var ptr, size := hp.blocks[i].addr + H, Payload(hp, i);
            size >= 0 && SameWords(mem, mem', ptr, ptr, if size < n then size else n)
  {
    InPlaceStays(hp, i, n);
    var a, e := hp.blocks[i].addr, NextAddr(hp.blocks, hp.end, i);
    var e' :| (a, e') in Used(hp') && a + H + n <= e';
    Order(hp.blocks, hp.end, H, i);
    KeptCommon(mem, mem', hp, hp', a, e, e');
  }
}
