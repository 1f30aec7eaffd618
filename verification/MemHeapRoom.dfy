/**
 What the callers of memheap get: room for what they asked for, and nothing but what they asked for.
 The ledger of a run is kept from the calls and their answers alone.
 */
module MemHeapRoom {
  import opened BlockList
  import opened HeapLedger
  import opened MemHeap
  import opened MemHeapObject

  /** The request in words: the fewest that hold the bytes, and never fewer than the minimum. */
  lemma WantIs(bytes: nat, n: nat)
    ensures Want(bytes) >= MIN && 4 * Want(bytes) >= bytes
    ensures n >= MIN && 4 * n >= bytes ==> n >= Want(bytes)
  {
  }

  lemma SameBegin(hp: Heap, x: (nat, nat), y: (nat, nat))
    requires Inv(hp) && x in Used(hp) && y in Used(hp) && x.0 == y.0
    ensures x == y && x.0 + H <= x.1
  {
    UsedSetRange(hp.blocks, hp.end, H, x);
    UsedSetRange(hp.blocks, hp.end, H, y);
    if x != y {
      UsedDisjoint(hp.blocks, hp.end, H, x, y);
    }
  }

  /** A live pointer is one that has a block in use. */
  lemma LiveHasBlock(hp: Heap, ptr: nat)
    requires Inv(hp)
    ensures Live(hp, ptr) <==> exists x :: x in Used(hp) && Of(x, H, ptr)
  {
    if Live(hp, ptr) {
      LiveIs(hp, ptr);
      assert Of((ptr - H, NextAddr(hp.blocks, hp.end, IndexOf(hp.blocks, ptr - H))), H, ptr);
    }
    if x :| x in Used(hp) && Of(x, H, ptr) {
      UsedSetHas(hp.blocks, hp.end, x);
      var i :| 0 <= i < |hp.blocks| && hp.blocks[i] == Block(x.0, true);
      SameAddr(hp.blocks, hp.end, H, i, IndexOf(hp.blocks, x.0));
    }
  }

  // ---- one call --------------------------------------------------------------------------

  /** An answer of the allocator: one more block, large enough, that begins where none began. */
  lemma AllocGives(hp: Heap, n: nat)
    requires Inv(hp)
    ensures Inv(Alloc(hp, n).0)
    ensures var (h1, r) := Alloc(hp, n); if r.None? then h1 == hp else Given(Used(hp), Used(h1), H, n, r.addr)
  {
    hide Inv, Used, Payload, AllocAt, Given;
    AllocKeeps(hp, n);
    AllocSucceeds(hp, n);
    var r := Alloc(hp, n).1;
    if r.Some? {
      var j :| && 0 <= j < |hp.blocks| && !hp.blocks[j].used && Payload(hp, j) >= n
               && r.addr == hp.blocks[j].addr + H && Payload(hp, j) <= hp.avail && Alloc(hp, n).0 == AllocAt(hp, j, n);
      NewBlockGiven(hp, j, n);
    } else {
      AllocRefused(hp, n);
    }
  }

  lemma NewBlockGiven(hp: Heap, j: nat, n: nat)
    requires Inv(hp) && j < |hp.blocks| && !hp.blocks[j].used && n <= Payload(hp, j) <= hp.avail
    ensures Given(Used(hp), Used(AllocAt(hp, j, n)), H, n, hp.blocks[j].addr + H)
  {
    hide Inv, Used, Payload, AllocAt;
    var x := NewBlock(hp, j, n);
    forall z | z in Used(hp) ensures z.0 != x.0 {
      if z.0 == x.0 {
        FreeNotUsed(hp, j, z);
      }
    }
    assert Of(x, H, hp.blocks[j].addr + H) && Room(x, H) >= n;
  }

  /** A release takes exactly the block of the pointer. */
  lemma ReleaseTakes(hp: Heap, ptr: nat)
    requires Inv(hp) && Live(hp, ptr)
    ensures Inv(Release(hp, Some(ptr))) && Less(Used(hp), Used(Release(hp, Some(ptr))), H, ptr)
  {
    hide Inv, Used, FreeAt, Payload;
    ReleaseKeeps(hp, Some(ptr));
    LiveIs(hp, ptr);
    var i := IndexOf(hp.blocks, ptr - H);
    FreeAtUsed(hp, i);
    OnlyBlock(hp, ptr, (ptr - H, NextAddr(hp.blocks, hp.end, i)));
  }

  lemma OnlyBlock(hp: Heap, ptr: nat, x: Extent)
    requires Inv(hp) && x in Used(hp) && Of(x, H, ptr)
    ensures forall z :: z in Used(hp) && Of(z, H, ptr) ==> z == x
  {
    hide Inv, Used;
    forall z | z in Used(hp) && Of(z, H, ptr) ensures z == x {
      SameBegin(hp, z, x);
    }
  }

  /** The block behind is free and can give what is missing and keep a block of its own. */
  predicate CanGrow(hp: Heap, ptr: nat, n: nat)
    requires Live(hp, ptr)
  {
    var i := IndexOf(hp.blocks, ptr - H);
    && i + 1 < |hp.blocks| && !hp.blocks[i + 1].used
    && Payload(hp, i + 1) - (n - Payload(hp, i)) > MIN
  }

  function RoomOf(hp: Heap, ptr: nat): int
    requires Live(hp, ptr)
  {
    Payload(hp, IndexOf(hp.blocks, ptr - H))
  }

  lemma ResizedBy(hp: Heap, used: set<Extent>, ptr: nat, n: nat, e: nat, e': nat)
    requires Inv(hp) && ptr >= H && (ptr - H, e) in Used(hp) && e' - ptr >= n
    requires used == Used(hp) - {(ptr - H, e)} + {(ptr - H, e')}
    ensures Resized(Used(hp), used, H, ptr, n, ptr)
  {
    hide Inv, Used;
    var x := (ptr - H, e');
    OnlyBlock(hp, ptr, (ptr - H, e));
    assert x in used && Of(x, H, ptr) && Room(x, H) >= n;
  }

  lemma InPlaceGives(hp: Heap, ptr: nat, n: nat)
    requires Inv(hp) && Live(hp, ptr) && (n <= RoomOf(hp, ptr) || CanGrow(hp, ptr, n))
    ensures var (hp', r) := ResizeAt(hp, IndexOf(hp.blocks, ptr - H), n);
            r == Some(ptr) && Resized(Used(hp), Used(hp'), H, ptr, n, ptr)
  {
    hide Resized, Inv, Used, GrowAt, ShrinkAt;
    LiveIs(hp, ptr);
    var i := IndexOf(hp.blocks, ptr - H);
    var e := NextAddr(hp.blocks, hp.end, i);
    if n > Payload(hp, i) {
      GrowAtUsed(hp, i, n);
      ResizedBy(hp, Used(GrowAt(hp, i, n)), ptr, n, e, ptr + n);
    } else if Keeps(Payload(hp, i), n) {
      SameUsed(Used(hp), (ptr - H, e));
      ResizedBy(hp, Used(hp), ptr, n, e, e);
    } else {
      ShrinkAtUsed(hp, i, n);
      ResizedBy(hp, Used(ShrinkAt(hp, i, n)), ptr, n, e, ptr + n);
    }
  }

  lemma MoveGives(hp: Heap, ptr: nat, n: nat)
    requires Inv(hp) && Live(hp, ptr)
    ensures var (hp', r) := Move(hp, IndexOf(hp.blocks, ptr - H), n);
            && (r.None? <==> Alloc(hp, n).1.None?) && (r.None? ==> hp' == hp)
            && (r.Some? ==> r.addr != ptr && Resized(Used(hp), Used(hp'), H, ptr, n, r.addr))
  {
    hide Inv, Alloc, Used, Release, Given, Less, Resized;
    LiveIs(hp, ptr);
    AllocGives(hp, n);
    var i := IndexOf(hp.blocks, ptr - H);
    var (h1, r) := Alloc(hp, n);
    if r.Some? {
      StillLive(hp, n, i);
      ReleaseTakes(h1, ptr);
      MovedSets(Used(hp), Used(h1), Used(Release(h1, Some(ptr))), H, ptr, NextAddr(hp.blocks, hp.end, i), n, n, r.addr);
    }
  }

  /** rt_memheap_realloc of a live block: an answer has room for the request, in words and in bytes, and
      every other block stays; one that has moved is new, and the old pointer is dead. It is refused
      exactly when the block is too small, the free block behind cannot give what is missing, and no
      allocation of the size succeeds, and then nothing has changed. */
  lemma ReallocGives(hp: Heap, ptr: nat, bytes: nat)
    requires Inv(hp) && Live(hp, ptr) && bytes > 0
    ensures var n := Want(bytes); var (hp', r) := Realloc(hp, Some(ptr), bytes);
            && Inv(hp')
            && (r.None? <==> RoomOf(hp, ptr) < n && !CanGrow(hp, ptr, n) && Alloc(hp, n).1.None?)
            && (r.None? ==> hp' == hp)
            && (r.Some? ==> Resized(Used(hp), Used(hp'), H, ptr, n, r.addr) && Live(hp', r.addr))
            && (r.Some? && r.addr != ptr ==> RoomOf(hp, ptr) < n && !CanGrow(hp, ptr, n) && !Live(hp', ptr))
            && (r.Some? ==> RoomOf(hp', r.addr) >= n && 4 * RoomOf(hp', r.addr) >= bytes)
  {
    hide Inv, Resized, Move, Alloc, Release, Used, GrowAt, ShrinkAt;
    var n := Want(bytes);
    WantIs(bytes, n);
    LiveIs(hp, ptr);
    var i := IndexOf(hp.blocks, ptr - H);
    ResizeAtKeeps(hp, i, n);
    var (hp', r) := Realloc(hp, Some(ptr), bytes);
    if n <= RoomOf(hp, ptr) || CanGrow(hp, ptr, n) {
      InPlaceGives(hp, ptr, n);
    } else {
      MoveGives(hp, ptr, n);
    }
    if r.Some? {
      ResizedLives(Used(hp), hp', ptr, n, r.addr);
    }
  }

  lemma ResizedLives(used: set<Extent>, hp': Heap, ptr: nat, n: nat, r: nat)
    requires Inv(hp') && Resized(used, Used(hp'), H, ptr, n, r)
    ensures Live(hp', r) && RoomOf(hp', r) >= n && (r != ptr ==> !Live(hp', ptr))
  {
    hide Inv, Used;
    var x :| x in Used(hp') && Of(x, H, r) && Room(x, H) >= n && Swapped(used, Used(hp'), H, ptr, x);
    LiveHasBlock(hp', r);
    LiveHasBlock(hp', ptr);
    RoomIs(hp', r, x);
  }

  lemma RoomIs(hp: Heap, ptr: nat, x: Extent)
    requires Inv(hp) && Live(hp, ptr) && x in Used(hp) && Of(x, H, ptr)
    ensures RoomOf(hp, ptr) == Room(x, H)
  {
    hide Inv, Used;
    LiveIs(hp, ptr);
    OnlyBlock(hp, ptr, (ptr - H, NextAddr(hp.blocks, hp.end, IndexOf(hp.blocks, ptr - H))));
  }

  // ---- whole runs ------------------------------------------------------------------------

  function Answered(hp: Heap, op: Op): Answer
    requires Inv(hp) && Legal(hp, op)
  {
    match op
    case AllocOp(bytes) => Alloc(hp, Want(bytes)).1
    case FreeOp(_) => None
    case ReallocOp(ptr, bytes) => Realloc(hp, ptr, bytes).1
  }

  /** The caller's book, from the calls and their answers alone. */
  function Booked(asked: Ledger, op: Op, r: Answer): Ledger {
    match op
    case AllocOp(bytes) => if r.Some? then asked[r.addr := bytes] else asked
    case FreeOp(ptr) => if ptr.Some? then asked - {ptr.addr} else asked
    case ReallocOp(ptr, bytes) =>
      var rest := if ptr.Some? && (bytes == 0 || r.Some?) then asked - {ptr.addr} else asked;
      if bytes > 0 && r.Some? then rest[r.addr := bytes] else rest
  }

  lemma AllocCovers(hp: Heap, asked: Ledger, bytes: nat)
    requires Inv(hp) && Covers(Used(hp), H, asked)
    ensures var (h1, r) := Alloc(hp, Want(bytes)); Covers(Used(h1), H, if r.Some? then asked[r.addr := bytes] else asked)
    ensures var r := Alloc(hp, Want(bytes)).1; r.Some? ==> r.addr !in asked
  {
    hide Used, Inv, Alloc, Covers, Given;
    var n := Want(bytes);
    WantIs(bytes, n);
    AllocGives(hp, n);
    var (h1, r) := Alloc(hp, n);
    if r.Some? {
      Added(Used(hp), Used(h1), H, asked, n, r.addr, bytes);
    }
  }

  lemma ReleaseCovers(hp: Heap, asked: Ledger, ptr: Answer)
    requires Inv(hp) && Covers(Used(hp), H, asked) && (ptr.Some? ==> Live(hp, ptr.addr))
    ensures Covers(Used(Release(hp, ptr)), H, if ptr.Some? then asked - {ptr.addr} else asked)
  {
    hide Used, Inv, Covers, Less;
    if ptr.Some? {
      ReleaseTakes(hp, ptr.addr);
      Dropped(Used(hp), Used(Release(hp, ptr)), H, asked, ptr.addr);
    }
  }

  lemma ReallocCovers(hp: Heap, asked: Ledger, ptr: nat, bytes: nat)
    requires Inv(hp) && Covers(Used(hp), H, asked) && Live(hp, ptr) && bytes > 0
    ensures var (h1, r) := Realloc(hp, Some(ptr), bytes);
            && Covers(Used(h1), H, if r.Some? then (asked - {ptr})[r.addr := bytes] else asked)
            && (r.Some? && r.addr != ptr ==> r.addr !in asked)
  {
    hide Used, Inv, Covers, Live, Resized, RoomOf, CanGrow, Realloc;
    var n := Want(bytes);
    WantIs(bytes, n);
    ReallocGives(hp, ptr, bytes);
    var (h1, r) := Realloc(hp, Some(ptr), bytes);
    if r.Some? {
      Exchanged(Used(hp), Used(h1), H, asked, ptr, n, r.addr, bytes);
    }
  }

  /** One call; a pointer that is handed out was not live, unless it is the one being resized. */
  lemma StepCovers(hp: Heap, asked: Ledger, op: Op)
    requires Inv(hp) && Legal(hp, op) && Covers(Used(hp), H, asked)
    ensures Inv(Next(hp, op)) && Covers(Used(Next(hp, op)), H, Booked(asked, op, Answered(hp, op)))
    ensures var r := Answered(hp, op); r.Some? && r.addr in asked ==> op.ReallocOp? && op.ptr == r
  {
    hide Used, Inv, Alloc, Covers, Release, Live, ResizeAt;
    StepKeeps(hp, op);
    match op
    case AllocOp(bytes) => AllocCovers(hp, asked, bytes);
    case FreeOp(ptr) => ReleaseCovers(hp, asked, ptr);
    case ReallocOp(ptr, bytes) =>
      if bytes == 0 {
        ReleaseCovers(hp, asked, ptr);
      } else if ptr.None? {
        AllocCovers(hp, asked, bytes);
      } else {
        ReallocCovers(hp, asked, ptr.addr, bytes);
      }
  }

  /** The ledger at the end of a run. */
  ghost predicate Runs(hp: Heap, asked: Ledger, ops: seq<Op>, hp': Heap, asked': Ledger)
    requires Inv(hp)
    decreases |ops|
  {
    if ops == [] then hp' == hp && asked' == asked
    else
      && Legal(hp, ops[0])
      && (StepKeeps(hp, ops[0]); Runs(Next(hp, ops[0]), Booked(asked, ops[0], Answered(hp, ops[0])), ops[1..], hp', asked'))
  }

  lemma {:induction false} RunCovers(hp: Heap, asked: Ledger, ops: seq<Op>, hp': Heap, asked': Ledger)
    requires Inv(hp) && Covers(Used(hp), H, asked) && Runs(hp, asked, ops, hp', asked')
    ensures Inv(hp') && Covers(Used(hp'), H, asked')
    decreases |ops|
  {
    hide Inv, Covers, Legal, Next, Booked, Answered, Used;
    if ops != [] {
      StepCovers(hp, asked, ops[0]);
      RunCovers(Next(hp, ops[0]), Booked(asked, ops[0], Answered(hp, ops[0])), ops[1..], hp', asked');
    }
  }

  /** After every run of alloc, realloc and free the live pointers are exactly those of the caller's
      ledger, the block of each holds at least the bytes last asked for, and no two of them overlap. */
  lemma EveryRequestHasRoom(size: nat, ops: seq<Op>, hp: Heap, asked: Ledger, p: nat, q: nat)
    requires size >= 2 * H && (InitInv(size); Runs(Init(size), map[], ops, hp, asked))
    ensures Live(hp, p) <==> p in asked
    ensures p in asked ==> 4 * RoomOf(hp, p) >= asked[p]
    ensures p in asked && Live(hp, q) && p != q ==> p + RoomOf(hp, p) + H <= q || q + RoomOf(hp, q) + H <= p
  {
    hide Inv, Used, Covers, Live, Runs, RoomOf;
    InitInv(size);
    InitCovers(size);
    RunCovers(Init(size), map[], ops, hp, asked);
    CoveredLives(hp, asked, p);
    if p in asked && Live(hp, q) && p != q {
      Apart(hp, p, q);
    }
  }

  lemma InitCovers(size: nat)
    requires size >= 2 * H
    ensures Covers(Used(Init(size)), H, map[])
  {
    UsedOne(Block(START, false), Init(size).end);
  }

  lemma CoveredLives(hp: Heap, asked: Ledger, p: nat)
    requires Inv(hp) && Covers(Used(hp), H, asked)
    ensures Live(hp, p) <==> p in asked
    ensures p in asked ==> 4 * RoomOf(hp, p) >= asked[p]
  {
    hide Inv, Used, Live, RoomOf;
    LiveHasBlock(hp, p);
    if p in asked {
      var x :| x in Used(hp) && Of(x, H, p) && 4 * Room(x, H) >= asked[p];
      RoomIs(hp, p, x);
    }
  }

  lemma Apart(hp: Heap, p: nat, q: nat)
    requires Inv(hp) && Live(hp, p) && Live(hp, q) && p != q
    ensures p + RoomOf(hp, p) + H <= q || q + RoomOf(hp, q) + H <= p
  {
    LiveIs(hp, p);
    LiveIs(hp, q);
    UsedDisjoint(hp.blocks, hp.end, H, (p - H, NextAddr(hp.blocks, hp.end, IndexOf(hp.blocks, p - H))),
                 (q - H, NextAddr(hp.blocks, hp.end, IndexOf(hp.blocks, q - H))));
  }
}
