/**
 What the callers of the small heap get: room for what they asked for, and nothing but what they asked
 for.
 */
module SmallHeapRoom {
  import opened BlockList
  import opened HeapLedger
  import opened SmallHeap
  import opened SmallHeapRealloc

  /** The request in words: the fewest that hold the bytes. */
  lemma RoundIs(bytes: nat, n: nat)
    ensures 4 * Round(bytes) >= bytes && Round(4 * Round(bytes)) == Round(bytes)
    ensures 4 * n >= bytes ==> n >= Round(bytes)
  {
  }

  lemma OnlyBlock(hp: Heap, ptr: nat, x: Extent)
    requires Inv(hp) && x in Used(hp) && Of(x, H, ptr)
    ensures forall z :: z in Used(hp) && Of(z, H, ptr) ==> z == x
  {
    hide UsedSet, Tiled, Words, Coalesced;
    forall z | z in Used(hp) && Of(z, H, ptr) ensures z == x {
      UsedSetRange(hp.blocks, End(hp), H, x);
      UsedSetRange(hp.blocks, End(hp), H, z);
      if x != z {
        UsedDisjoint(hp.blocks, End(hp), H, x, z);
      }
    }
  }

  /** A live pointer is one that has a block in use. */
  lemma LiveHasBlock(hp: Heap, ptr: nat)
    requires Inv(hp)
    ensures Live(hp, ptr) <==> exists x :: x in Used(hp) && Of(x, H, ptr)
  {
    hide Inv, Used, Live;
    if Live(hp, ptr) {
      LiveExtent(hp, ptr);
      assert Of(ExtentOf(hp, ptr), H, ptr);
    }
    if x :| x in Used(hp) && Of(x, H, ptr) {
      LiveIs(hp, ptr, x.1);
      assert x == (ptr - H, x.1);
    }
  }

  // ---- one call --------------------------------------------------------------------------

  /** An answer of rt_malloc: one more block, large enough, that begins where none began. */
  lemma MallocGives(hp: Heap, bytes: nat)
    requires Inv(hp)
    ensures Inv(Malloc(hp, bytes).0)
    ensures var (h1, r) := Malloc(hp, bytes);
            if r.None? then h1 == hp else Given(Used(hp), Used(h1), H, Max(Round(bytes), MIN), r.addr)
  {
    hide Inv, Used, Given, MallocAt, Payload;
    MallocKeeps(hp, bytes);
    MallocNone(hp, bytes);
    MallocSucceeds(hp, bytes);
    var n, r := Max(Round(bytes), MIN), Malloc(hp, bytes).1;
    if r.Some? {
      var i :| 0 <= i < |hp.blocks| && Fits(hp, i, n) && r.addr == hp.blocks[i].addr + H && Malloc(hp, bytes).0 == MallocAt(hp, i, n);
      NewBlockGiven(hp, i, n);
    }
  }

  lemma NewBlockGiven(hp: Heap, i: nat, n: nat)
    requires Inv(hp) && i < |hp.blocks| && Fits(hp, i, n)
    ensures Given(Used(hp), Used(MallocAt(hp, i, n)), H, n, hp.blocks[i].addr + H)
  {
    hide Inv, Used, MallocAt;
    var x := NewBlock(hp, i, n);
    forall z | z in Used(hp) ensures z.0 != x.0 {
      if z.0 == x.0 {
        FreeNotUsed(hp, i, z);
      }
    }
    assert Of(x, H, hp.blocks[i].addr + H) && Room(x, H) >= n;
  }

  /** A release takes exactly the block of the pointer. */
  lemma FreeTakes(hp: Heap, ptr: nat)
    requires Inv(hp) && Live(hp, ptr)
    ensures Inv(Free(hp, Some(ptr))) && Less(Used(hp), Used(Free(hp, Some(ptr))), H, ptr)
  {
    hide Inv, Used, FreeAt, Payload;
    LiveExtent(hp, ptr);
    FreeAtKeeps(hp, IndexOf(hp.blocks, ptr - H));
    OnlyBlock(hp, ptr, ExtentOf(hp, ptr));
  }

  function RoomOf(hp: Heap, ptr: nat): int
    requires Live(hp, ptr)
  {
    Payload(hp, IndexOf(hp.blocks, ptr - H))
  }

  lemma ResizedBy(hp: Heap, used: set<Extent>, ptr: nat, n: nat, e: nat, e': nat)
    requires Inv(hp) && ptr >= H && (ptr - H, e) in Used(hp) && e' - ptr >= n
    requires used == Used(hp) - {(ptr - H, e)} + {(ptr - H, e')}
    ensures Resized(Used(hp), used, H, ptr, n, ptr)
  {
    hide Inv, Used;
    var x := (ptr - H, e');
    OnlyBlock(hp, ptr, (ptr - H, e));
    assert x in used && Of(x, H, ptr) && Room(x, H) >= n;
  }

  /** The block stays: it has the size already, or the rest is enough for a block of its own. */
  predicate Stays(room: int, n: nat) {
    room == n || n + H + MIN < room
  }

  lemma InPlaceGives(hp: Heap, ptr: nat, bytes: nat)
    requires Inv(hp) && Live(hp, ptr) && Round(bytes) <= hp.size && Stays(RoomOf(hp, ptr), Round(bytes))
    ensures var (hp', r) := SmallHeap.Realloc(hp, Some(ptr), bytes);
            r == Some(ptr) && Inv(hp') && Resized(Used(hp), Used(hp'), H, ptr, Round(bytes), ptr)
  {
    hide Resized, Inv, Used, ShrinkAt, Round, Payload, ExtentOf, SmallHeap.Realloc;
    LiveExtent(hp, ptr);
    ReallocParts(hp, ptr, bytes);
    var n, x := Round(bytes), ExtentOf(hp, ptr);
    if RoomOf(hp, ptr) == n {
      SameUsed(Used(hp), x);
      ResizedBy(hp, Used(hp), ptr, n, x.1, x.1);
    } else {
      ShrinkGives(hp, ptr, n);
    }
  }

  lemma ShrinkGives(hp: Heap, ptr: nat, n: nat)
    requires Inv(hp) && Live(hp, ptr) && Shrinks(RoomOf(hp, ptr), n)
    ensures var i := IndexOf(hp.blocks, ptr - H);
            && n <= Payload(hp, i) <= hp.used && Inv(ShrinkAt(hp, i, n))
            && Resized(Used(hp), Used(ShrinkAt(hp, i, n)), H, ptr, n, ptr)
  {
    hide Resized, Inv, Used, ShrinkAt, Payload;
    LiveExtent(hp, ptr);
    var i, x := IndexOf(hp.blocks, ptr - H), ExtentOf(hp, ptr);
    ShrinkAtKeeps(hp, i, n);
    ResizedBy(hp, Used(ShrinkAt(hp, i, n)), ptr, n, x.1, ptr + n);
  }

  lemma MoveGives(hp: Heap, ptr: nat, bytes: nat)
    requires Inv(hp) && Live(hp, ptr)
    ensures var (hp', r) := Move(hp, ptr, bytes);
            && (r.None? <==> Malloc(hp, bytes).1.None?) && (r.None? ==> hp' == hp) && Inv(hp')
            && (r.Some? ==> r.addr != ptr && Resized(Used(hp), Used(hp'), H, ptr, Round(bytes), r.addr))
  {
    hide Inv, Malloc, Used, Free, Given, Less, Resized, Live;
    LiveExtent(hp, ptr);
    MallocGives(hp, bytes);
    var (h1, r) := Malloc(hp, bytes);
    if r.Some? {
      StillLive(hp, bytes, ptr);
      FreeTakes(h1, ptr);
      MovedSets(Used(hp), Used(h1), Used(Free(h1, Some(ptr))), H, ptr, ExtentOf(hp, ptr).1, Round(bytes), Max(Round(bytes), MIN), r.addr);
    }
  }

  /** rt_realloc of a live block: an answer has room for the request, in words and in bytes, and every
      other block stays; one that has moved is new, and the old pointer is dead. The block stays exactly
      when it has the very size already or the rest is enough for a block of its own; so a request for
      slightly less moves it, and fails where rt_malloc fails. A refusal changes nothing. */
  lemma ReallocGives(hp: Heap, ptr: nat, bytes: nat)
    requires Inv(hp) && Live(hp, ptr)
    ensures var n := Round(bytes); var (hp', r) := SmallHeap.Realloc(hp, Some(ptr), bytes);
            && Inv(hp')
            && (r.None? <==> n > hp.size || (!Stays(RoomOf(hp, ptr), n) && Malloc(hp, 4 * n).1.None?))
            && (r.None? ==> hp' == hp)
            && (r.Some? ==> Resized(Used(hp), Used(hp'), H, ptr, n, r.addr) && Live(hp', r.addr))
            && (r.Some? ==> (r.addr == ptr <==> Stays(RoomOf(hp, ptr), n)) && (r.addr != ptr ==> !Live(hp', ptr)))
            && (r.Some? ==> RoomOf(hp', r.addr) >= n && 4 * RoomOf(hp', r.addr) >= bytes)
  {
    hide Inv, Resized, Move, Malloc, Free, Used, ShrinkAt, Round, Live, SmallHeap.Realloc;
    var n := Round(bytes);
    RoundIs(bytes, n);
    var (hp', r) := SmallHeap.Realloc(hp, Some(ptr), bytes);
    ReallocParts(hp, ptr, bytes);
    if n <= hp.size {
      if Stays(RoomOf(hp, ptr), n) {
        InPlaceGives(hp, ptr, bytes);
      } else {
        MoveGives(hp, ptr, 4 * n);
      }
    }
    if r.Some? {
      ResizedLives(Used(hp), hp', ptr, n, r.addr);
    }
  }

  /** The branches of rt_realloc. */
  lemma ReallocParts(hp: Heap, ptr: nat, bytes: nat)
    requires Inv(hp) && Live(hp, ptr)
    ensures var i, n, r := IndexOf(hp.blocks, ptr - H), Round(bytes), SmallHeap.Realloc(hp, Some(ptr), bytes);
            && (n > hp.size ==> r == (hp, None))
            && (n <= hp.size && RoomOf(hp, ptr) == n ==> r == (hp, Some(ptr)))
            && (n <= hp.size && Shrinks(RoomOf(hp, ptr), n) ==>
                  n <= Payload(hp, i) <= hp.used && r == (ShrinkAt(hp, i, n), Some(ptr)))
            && (n <= hp.size && !Stays(RoomOf(hp, ptr), n) ==> r == Move(hp, ptr, 4 * n))
  {
    hide Inv, Move, Round, ShrinkAt, Payload;
    if Shrinks(RoomOf(hp, ptr), Round(bytes)) {
      ShrinkGives(hp, ptr, Round(bytes));
    }
  }

  lemma ResizedLives(used: set<Extent>, hp': Heap, ptr: nat, n: nat, r: nat)
    requires Inv(hp') && Resized(used, Used(hp'), H, ptr, n, r)
    ensures Live(hp', r) && RoomOf(hp', r) >= n && (r != ptr ==> !Live(hp', ptr))
  {
    hide Inv, Used;
    var x :| x in Used(hp') && Of(x, H, r) && Room(x, H) >= n && Swapped(used, Used(hp'), H, ptr, x);
    LiveHasBlock(hp', r);
    LiveHasBlock(hp', ptr);
    RoomIs(hp', r, x);
  }

  lemma RoomIs(hp: Heap, ptr: nat, x: Extent)
    requires Inv(hp) && Live(hp, ptr) && x in Used(hp) && Of(x, H, ptr)
    ensures RoomOf(hp, ptr) == Room(x, H)
  {
    hide Inv, Used, Live;
    LiveExtent(hp, ptr);
    OnlyBlock(hp, ptr, ExtentOf(hp, ptr));
  }

  // ---- whole runs ------------------------------------------------------------------------

  function Answered(hp: Heap, op: Op): Answer
    requires Inv(hp) && Legal(hp, op)
  {
    match op
    case MallocOp(bytes) => Malloc(hp, bytes).1
    case FreeOp(_) => None
    case ReallocOp(ptr, bytes) => SmallHeap.Realloc(hp, ptr, bytes).1
  }

  /** The caller's book, from the calls and their answers alone. */
  function Booked(asked: Ledger, op: Op, r: Answer): Ledger {
    match op
    case MallocOp(bytes) => if r.Some? then asked[r.addr := bytes] else asked
    case FreeOp(ptr) => if ptr.Some? then asked - {ptr.addr} else asked
    case ReallocOp(ptr, bytes) =>
      if r.None? then asked else (if ptr.Some? then asked - {ptr.addr} else asked)[r.addr := bytes]
  }

  lemma MallocCovers(hp: Heap, asked: Ledger, bytes: nat, want: nat)
    requires Inv(hp) && Covers(Used(hp), H, asked) && 4 * Round(want) >= bytes
    ensures var (h1, r) := Malloc(hp, want); Covers(Used(h1), H, if r.Some? then asked[r.addr := bytes] else asked)
    ensures var r := Malloc(hp, want).1; r.Some? ==> r.addr !in asked
  {
    hide Used, Inv, Malloc, Covers, Given;
    MallocGives(hp, want);
    var (h1, r) := Malloc(hp, want);
    if r.Some? {
      Added(Used(hp), Used(h1), H, asked, Max(Round(want), MIN), r.addr, bytes);
    }
  }

  lemma FreeCovers(hp: Heap, asked: Ledger, ptr: Answer)
    requires Inv(hp) && Covers(Used(hp), H, asked) && (ptr.Some? ==> Live(hp, ptr.addr))
    ensures Covers(Used(Free(hp, ptr)), H, if ptr.Some? then asked - {ptr.addr} else asked)
  {
    hide Used, Inv, Covers, Less;
    if ptr.Some? {
      FreeTakes(hp, ptr.addr);
      Dropped(Used(hp), Used(Free(hp, ptr)), H, asked, ptr.addr);
    }
  }

  lemma ReallocCovers(hp: Heap, asked: Ledger, ptr: nat, bytes: nat)
    requires Inv(hp) && Covers(Used(hp), H, asked) && Live(hp, ptr)
    ensures var (h1, r) := SmallHeap.Realloc(hp, Some(ptr), bytes);
            && Covers(Used(h1), H, if r.Some? then (asked - {ptr})[r.addr := bytes] else asked)
            && (r.Some? && r.addr != ptr ==> r.addr !in asked)
  {
    hide Used, Inv, Covers, Live, Resized, RoomOf, SmallHeap.Realloc;
    var n := Round(bytes);
    RoundIs(bytes, n);
    ReallocGives(hp, ptr, bytes);
    var (h1, r) := SmallHeap.Realloc(hp, Some(ptr), bytes);
    if r.Some? {
      Exchanged(Used(hp), Used(h1), H, asked, ptr, n, r.addr, bytes);
    }
  }

  lemma NewCovers(hp: Heap, asked: Ledger, bytes: nat)
    requires Inv(hp) && Covers(Used(hp), H, asked)
    ensures var (h1, r) := SmallHeap.Realloc(hp, None, bytes); Covers(Used(h1), H, if r.Some? then asked[r.addr := bytes] else asked)
    ensures var r := SmallHeap.Realloc(hp, None, bytes).1; r.Some? ==> r.addr !in asked
  {
    hide Used, Inv, Covers, Malloc, Round;
    RoundIs(bytes, 0);
    RoundIs(4 * Round(bytes), 0);
    MallocCovers(hp, asked, bytes, 4 * Round(bytes));
  }

  /** One call; a pointer that is handed out was not live, unless it is the one being resized. */
  lemma StepCovers(hp: Heap, asked: Ledger, op: Op)
    requires Inv(hp) && Legal(hp, op) && Covers(Used(hp), H, asked)
    ensures Inv(Next(hp, op)) && Covers(Used(Next(hp, op)), H, Booked(asked, op, Answered(hp, op)))
    ensures var r := Answered(hp, op); r.Some? && r.addr in asked ==> op.ReallocOp? && op.ptr == r
  {
    hide Used, Inv, Malloc, Covers, Free, Live, SmallHeap.Realloc, Round;
    StepKeeps(hp, op);
    match op
    case MallocOp(bytes) =>
      RoundIs(bytes, 0);
      MallocCovers(hp, asked, bytes, bytes);
    case FreeOp(ptr) => FreeCovers(hp, asked, ptr);
    case ReallocOp(ptr, bytes) =>
      if ptr.None? {
        NewCovers(hp, asked, bytes);
      } else {
        ReallocCovers(hp, asked, ptr.addr, bytes);
      }
  }

  /** The ledger at the end of a run. */
  ghost predicate Runs(hp: Heap, asked: Ledger, ops: seq<Op>, hp': Heap, asked': Ledger)
    requires Inv(hp)
    decreases |ops|
  {
    if ops == [] then hp' == hp && asked' == asked
    else
      && Legal(hp, ops[0])
      && (StepKeeps(hp, ops[0]); Runs(Next(hp, ops[0]), Booked(asked, ops[0], Answered(hp, ops[0])), ops[1..], hp', asked'))
  }

  lemma {:induction false} RunCovers(hp: Heap, asked: Ledger, ops: seq<Op>, hp': Heap, asked': Ledger)
    requires Inv(hp) && Covers(Used(hp), H, asked) && Runs(hp, asked, ops, hp', asked')
    ensures Inv(hp') && Covers(Used(hp'), H, asked')
    decreases |ops|
  {
    hide Inv, Covers, Legal, Next, Booked, Answered, Used;
    if ops != [] {
      StepCovers(hp, asked, ops[0]);
      RunCovers(Next(hp, ops[0]), Booked(asked, ops[0], Answered(hp, ops[0])), ops[1..], hp', asked');
    }
  }

  /** After every run of malloc, realloc and free the live pointers are exactly those of the caller's
      ledger, the block of each holds at least the bytes last asked for, and no two of them overlap. */
  lemma EveryRequestHasRoom(size: nat, ops: seq<Op>, hp: Heap, asked: Ledger, p: nat, q: nat)
    requires size >= MIN && (InitInv(size); Runs(Init(size), map[], ops, hp, asked))
    ensures Live(hp, p) <==> p in asked
    ensures p in asked ==> 4 * RoomOf(hp, p) >= asked[p]
    ensures p in asked && Live(hp, q) && p != q ==> p + RoomOf(hp, p) + H <= q || q + RoomOf(hp, q) + H <= p
  {
    hide Inv, Used, Covers, Live, Runs, RoomOf;
    InitInv(size);
    InitCovers(size);
    RunCovers(Init(size), map[], ops, hp, asked);
    CoveredLives(hp, asked, p);
    if p in asked && Live(hp, q) && p != q {
      Apart(hp, p, q);
    }
  }

  lemma InitCovers(size: nat)
    requires size >= MIN
    ensures Covers(Used(Init(size)), H, map[])
  {
    UsedOne(Block(0, false), End(Init(size)));
  }

  lemma CoveredLives(hp: Heap, asked: Ledger, p: nat)
    requires Inv(hp) && Covers(Used(hp), H, asked)
    ensures Live(hp, p) <==> p in asked
    ensures p in asked ==> 4 * RoomOf(hp, p) >= asked[p]
  {
    hide Inv, Used, Live, RoomOf;
    LiveHasBlock(hp, p);
    if p in asked {
      var x :| x in Used(hp) && Of(x, H, p) && 4 * Room(x, H) >= asked[p];
      RoomIs(hp, p, x);
    }
  }

  lemma Apart(hp: Heap, p: nat, q: nat)
    requires Inv(hp) && Live(hp, p) && Live(hp, q) && p != q
    ensures p + RoomOf(hp, p) + H <= q || q + RoomOf(hp, q) + H <= p
  {
    LiveExtent(hp, p);
    LiveExtent(hp, q);
    UsedDisjoint(hp.blocks, End(hp), H, ExtentOf(hp, p), ExtentOf(hp, q));
  }
}
