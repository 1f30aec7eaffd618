/**
 memheap on memory: the headers in front of the payloads, the searches and the surgeries.
 */
module MemHeapMemory {
  import opened NatLists
  import opened BlockList
  import opened RingList
  import opened MemHeap
  import opened MemHeapLinks

  const FREED: int := 0x1ea01ea0
  const USED: int := 0x1ea01ea1

  /** What pool_ptr holds: the heap object. */
  const SELF: int := 1

  function Mark(used: bool): int {
    if used then USED else FREED
  }

  function Heads(bs: seq<Block>, end: nat): set<nat> {
    {HEADER, end} + set b | b in bs :: b.addr
  }

  /** The address ring: the blocks and the tailer. */
  function Cycle(bs: seq<Block>, end: nat): (r: seq<nat>)
    ensures |r| == |bs| + 1
    ensures forall i :: 0 <= i <= |bs| ==> r[i] == if i < |bs| then bs[i].addr else end
  {
    seq(|bs| + 1, i requires 0 <= i <= |bs| => if i < |bs| then bs[i].addr else end)
  }

  ghost predicate Marked(mem: seq<int>, b: Block) {
    b.addr + H <= |mem| && mem[b.addr] == Mark(b.used) && mem[b.addr + POOL_AT] == SELF
  }

  ghost predicate Marks(mem: seq<int>, bs: seq<Block>, end: nat) {
    (forall b :: b in bs ==> Marked(mem, b)) && Marked(mem, Block(end, true))
  }

  /** The memory holds the heap. */
  ghost predicate Rep(mem: seq<int>, hp: Heap) {
    && |mem| == hp.end + H
    && Rings(mem, Heads(hp.blocks, hp.end), Cycle(hp.blocks, hp.end), [HEADER] + hp.free)
    && Marks(mem, hp.blocks, hp.end)
  }

  // ---- reading headers -------------------------------------------------------------------

  lemma ReadBlock(mem: seq<int>, hp: Heap, i: nat)
    requires Inv(hp) && Rep(mem, hp) && i < |hp.blocks|
    ensures var a := hp.blocks[i].addr;
            && a + H <= |mem|
            && mem[a + BLOCKS.f] == NextAddr(hp.blocks, hp.end, i)
            && mem[a + BLOCKS.g] == (if i > 0 then hp.blocks[i - 1].addr else hp.end)
            && mem[a] == Mark(hp.blocks[i].used)
            && mem[hp.end] == Mark(true)
            && NextAddr(hp.blocks, hp.end, i) + H <= |mem|
  {
    hide Ring, Heads, Spaced, Within;
    var cyc := Cycle(hp.blocks, hp.end);
    assert cyc[i] == hp.blocks[i].addr;
    At(mem, BLOCKS, cyc, i);
    assert Marked(mem, hp.blocks[i]) && Marked(mem, Block(hp.end, true));
  }

  lemma InvTiled(hp: Heap)
    requires Inv(hp)
    ensures Tiled(hp.blocks, hp.end, H) && hp.blocks != [] && hp.blocks[0].addr == START && Start(hp.blocks, hp.end) == START
  {
  }

  /** The mark of the block after block i tells whether it can be joined. */
  lemma ReadAfter(mem: seq<int>, hp: Heap, i: nat)
    requires Inv(hp) && Rep(mem, hp) && i < |hp.blocks|
    ensures NextAddr(hp.blocks, hp.end, i) + H <= |mem|
    ensures mem[NextAddr(hp.blocks, hp.end, i)] == Mark(!FreeAfter(hp, i))
  {
    if i + 1 < |hp.blocks| {
      ReadBlock(mem, hp, i + 1);
    }
  }

  lemma ReadBefore(mem: seq<int>, hp: Heap, i: nat)
    requires Inv(hp) && Rep(mem, hp) && i < |hp.blocks|
    ensures var p := if i > 0 then hp.blocks[i - 1].addr else hp.end;
            p + H <= |mem| && mem[p] == Mark(!FreeBefore(hp, i))
  {
    ReadBlock(mem, hp, i);
    if i > 0 {
      ReadBlock(mem, hp, i - 1);
    }
    assert |mem| == hp.end + H;
  }

  lemma ReadFree(mem: seq<int>, hp: Heap, k: nat)
    requires Rep(mem, hp) && k <= |hp.free|
    ensures var a := if k == 0 then HEADER else hp.free[k - 1];
            && a + H <= |mem|
            && mem[a + FREES.f] == (if k < |hp.free| then hp.free[k] else HEADER)
  {
    var fr := [HEADER] + hp.free;
    At(mem, FREES, fr, k);
  }

  // ---- where headers may stand -----------------------------------------------------------

  /** A header placed inside a block, behind the block's own, is clear of all others. */
  lemma NewHead(hp: Heap, i: nat, n: nat)
    requires Inv(hp) && i < |hp.blocks| && hp.blocks[i].addr + H <= n && n + H <= NextAddr(hp.blocks, hp.end, i)
    ensures n + H <= hp.end && n !in Heads(hp.blocks, hp.end)
    ensures forall a :: a in Heads(hp.blocks, hp.end) ==> Apart(a, n, H)
  {
    Order(hp.blocks, hp.end, H, i);
    forall a | a in Heads(hp.blocks, hp.end) ensures Apart(a, n, H) {
      if j :| 0 <= j < |hp.blocks| && hp.blocks[j].addr == a {
        if j < i {
          Ordered(hp.blocks, hp.end, H, j, i);
        } else if i < j {
          Ordered(hp.blocks, hp.end, H, i, j);
        }
      }
    }
  }

  /** Headers are never inside the payload of a block in use. */
  lemma PayloadClear(hp: Heap, x: (nat, nat), q: nat)
    requires Inv(hp) && x in Used(hp) && x.0 + H <= q < x.1
    ensures Outside(q, Heads(hp.blocks, hp.end)) && q < hp.end
  {
    UsedSetHas(hp.blocks, hp.end, x);
    var i :| 0 <= i < |hp.blocks| && hp.blocks[i] == Block(x.0, true) && NextAddr(hp.blocks, hp.end, i) == x.1;
    Order(hp.blocks, hp.end, H, i);
    forall a | a in Heads(hp.blocks, hp.end) ensures q < a || a + H <= q {
      if j :| 0 <= j < |hp.blocks| && hp.blocks[j].addr == a {
        if j < i {
          Ordered(hp.blocks, hp.end, H, j, i);
        } else if i < j {
          Ordered(hp.blocks, hp.end, H, i, j);
        }
      }
    }
  }

  /** An operation that writes only headers leaves every payload alone that is in use before
      and after it. */
  lemma PayloadUntouched(mem: seq<int>, mem': seq<int>, hp: Heap, hp': Heap, x: (nat, nat), y: (nat, nat), q: nat)
    requires Inv(hp) && Inv(hp') && hp'.end == hp.end && |mem| == hp.end + H
    requires Only(mem, mem', Heads(hp.blocks, hp.end) + Heads(hp'.blocks, hp'.end))
    requires x in Used(hp) && y in Used(hp') && x.0 + H <= q < x.1 && y.0 + H <= q < y.1
    ensures q < |mem| == |mem'| && mem'[q] == mem[q]
  {
    PayloadClear(hp, x, q);
    PayloadClear(hp', y, q);
  }

  // ---- the surgeries ---------------------------------------------------------------------

  /** n goes behind x in the ring of layout l. */
  method LinkAfter(mem: array<int>, l: Layout, x: nat, n: nat)
    requires IsLayout(l) && x + l.w <= mem.Length && n + l.w <= mem.Length && Apart(x, n, l.w)
    requires 0 <= mem[x + l.f] && mem[x + l.f] + l.w <= mem.Length
    requires Apart(mem[x + l.f], n, l.w) && (mem[x + l.f] == x || Apart(mem[x + l.f], x, l.w))
    modifies mem
    ensures Spliced(old(mem[..]), mem[..], l, x, old(mem[x + l.f]), n)
  {
    var y := mem[x + l.f];
    mem[n + l.g] := x;
    mem[n + l.f] := mem[x + l.f];
    mem[y + l.g] := n;
    mem[x + l.f] := n;
  }

  /** n leaves the ring of layout l. */
  method Unlink(mem: array<int>, l: Layout, n: nat)
    requires IsLayout(l) && n + l.w <= mem.Length
    requires 0 <= mem[n + l.f] && mem[n + l.f] + l.w <= mem.Length && 0 <= mem[n + l.g] && mem[n + l.g] + l.w <= mem.Length
    requires Apart(mem[n + l.f], n, l.w) && Apart(mem[n + l.g], n, l.w)
    requires mem[n + l.f] == mem[n + l.g] || Apart(mem[n + l.f], mem[n + l.g], l.w)
    modifies mem
    ensures Closed(old(mem[..]), mem[..], l, old(mem[n + l.g]), old(mem[n + l.f]))
  {
    var y, p := mem[n + l.f], mem[n + l.g];
    mem[y + l.g] := mem[n + l.g];
    mem[p + l.f] := mem[n + l.f];
  }

  lemma RingParts(mem: seq<int>, heads: set<nat>, cyc: seq<nat>, fr: seq<nat>)
    requires Rings(mem, heads, cyc, fr)
    ensures Spaced(heads, |mem|) && Within(cyc, heads) && Within(fr, heads) && Ring(mem, BLOCKS, cyc) && Ring(mem, FREES, fr)
    ensures IsLayout(BLOCKS) && IsLayout(FREES)
  {
  }

  /** What the surgery needs to know about the k-th node of a ring and a header outside it. */
  lemma RingAround(mem: seq<int>, heads: set<nat>, l: Layout, cyc: seq<nat>, k: nat, n: nat)
    requires Spaced(heads, |mem|) && Within(cyc, heads) && Ring(mem, l, cyc) && l.w == H && k < |cyc|
    requires n in heads && n !in cyc
    ensures var x := cyc[k];
            && x + l.w <= |mem| && n + l.w <= |mem| && Apart(x, n, l.w)
            && mem[x + l.f] == Succ(cyc, k) && Succ(cyc, k) + l.w <= |mem|
            && Apart(Succ(cyc, k), n, l.w) && (Succ(cyc, k) == x || Apart(Succ(cyc, k), x, l.w))
  {
    At(mem, l, cyc, k);
  }

  lemma RingBeside(mem: seq<int>, heads: set<nat>, l: Layout, cyc: seq<nat>, k: nat)
    requires Spaced(heads, |mem|) && Within(cyc, heads) && Ring(mem, l, cyc) && l.w == H && k < |cyc| && |cyc| >= 2
    ensures var x, p, y := cyc[k], Pred(cyc, k), Succ(cyc, k);
            && x + l.w <= |mem| && p + l.w <= |mem| && y + l.w <= |mem|
            && mem[x + l.f] == y && mem[x + l.g] == p
            && Apart(y, x, l.w) && Apart(p, x, l.w) && (y == p || Apart(y, p, l.w))
  {
    At(mem, l, cyc, k);
  }

  // ---- what an operation has done so far ------------------------------------------------

  /** Since the memory was m0, only headers were written, and of the marks only the changed. */
  ghost predicate Since(m0: seq<int>, mem: seq<int>, heads: set<nat>, changed: set<nat>) {
    Only(m0, mem, heads) && SameMagic(m0, mem, heads - changed)
  }

  datatype View = View(m0: seq<int>, heads: set<nat>, cyc: seq<nat>, fr: seq<nat>, changed: set<nat>)

  ghost predicate In(mem: seq<int>, v: View) {
    Rings(mem, v.heads, v.cyc, v.fr) && Since(v.m0, mem, v.heads, v.changed)
  }

  lemma SinceSame(m0: seq<int>, mem: seq<int>, mem': seq<int>, heads: set<nat>, c: set<nat>)
    requires Since(m0, mem, heads, c) && Only(mem, mem', heads) && SameMagic(mem, mem', heads)
    ensures Since(m0, mem', heads, c)
  {
  }

  lemma SinceMark(m0: seq<int>, mem: seq<int>, mem': seq<int>, heads: set<nat>, c: set<nat>, a: nat)
    requires Since(m0, mem, heads, c) && Only(mem, mem', heads) && SameMagic(mem, mem', heads - {a})
    ensures Since(m0, mem', heads, c + {a})
  {
    forall b | b in heads - (c + {a}) && b + H <= |m0|
      ensures mem'[b] == m0[b] && mem'[b + POOL_AT] == m0[b + POOL_AT]
    {
      assert b in heads - c && b in heads - {a};
    }
  }

  lemma MarkedKept(mem: seq<int>, mem': seq<int>, heads: set<nat>)
    requires SameMagic(mem, mem', heads)
    ensures forall b: Block :: b.addr in heads && Marked(mem, b) ==> Marked(mem', b)
  {
  }

  method BlockInsert(mem: array<int>, ghost v: View, ghost k: nat, x: nat, n: nat) returns (ghost v': View)
    requires In(mem[..], v) && k < |v.cyc| && v.cyc[k] == x && n in v.heads && n !in v.cyc
    modifies mem
    ensures v' == v.(cyc := Inserted(v.cyc, k, n)) && In(mem[..], v')
    ensures forall b: Block :: b.addr in v.heads && Marked(old(mem[..]), b) ==> Marked(mem[..], b)
  {
    RingParts(mem[..], v.heads, v.cyc, v.fr);
    RingAround(mem[..], v.heads, BLOCKS, v.cyc, k, n);
    LinkAfter(mem, BLOCKS, x, n);
    InsertBlock(old(mem[..]), mem[..], v.heads, v.cyc, v.fr, k, n);
    SinceSame(v.m0, old(mem[..]), mem[..], v.heads, v.changed);
    MarkedKept(old(mem[..]), mem[..], v.heads);
    v' := v.(cyc := Inserted(v.cyc, k, n));
  }

  method FreeInsert(mem: array<int>, ghost v: View, n: nat) returns (ghost v': View)
    requires In(mem[..], v) && 0 < |v.fr| && v.fr[0] == HEADER && n in v.heads && n !in v.fr
    modifies mem
    ensures v' == v.(fr := Inserted(v.fr, 0, n)) && In(mem[..], v')
    ensures forall b: Block :: b.addr in v.heads && Marked(old(mem[..]), b) ==> Marked(mem[..], b)
  {
    RingParts(mem[..], v.heads, v.cyc, v.fr);
    RingAround(mem[..], v.heads, FREES, v.fr, 0, n);
    LinkAfter(mem, FREES, HEADER, n);
    InsertFree(old(mem[..]), mem[..], v.heads, v.cyc, v.fr, 0, n);
    SinceSame(v.m0, old(mem[..]), mem[..], v.heads, v.changed);
    MarkedKept(old(mem[..]), mem[..], v.heads);
    v' := v.(fr := Inserted(v.fr, 0, n));
  }

  method BlockRemove(mem: array<int>, ghost v: View, ghost k: nat, x: nat) returns (ghost v': View)
    requires In(mem[..], v) && k < |v.cyc| && |v.cyc| >= 2 && v.cyc[k] == x
    modifies mem
    ensures v' == v.(cyc := Removed(v.cyc, k)) && In(mem[..], v')
    ensures forall b: Block :: b.addr in v.heads && Marked(old(mem[..]), b) ==> Marked(mem[..], b)
  {
    RingParts(mem[..], v.heads, v.cyc, v.fr);
    RingBeside(mem[..], v.heads, BLOCKS, v.cyc, k);
    Unlink(mem, BLOCKS, x);
    RemoveBlock(old(mem[..]), mem[..], v.heads, v.cyc, v.fr, k);
    SinceSame(v.m0, old(mem[..]), mem[..], v.heads, v.changed);
    MarkedKept(old(mem[..]), mem[..], v.heads);
    v' := v.(cyc := Removed(v.cyc, k));
  }

  method FreeRemove(mem: array<int>, ghost v: View, ghost k: nat, x: nat) returns (ghost v': View)
    requires In(mem[..], v) && k < |v.fr| && |v.fr| >= 2 && v.fr[k] == x
    modifies mem
    ensures v' == v.(fr := Removed(v.fr, k)) && In(mem[..], v')
    ensures forall b: Block :: b.addr in v.heads && Marked(old(mem[..]), b) ==> Marked(mem[..], b)
  {
    RingParts(mem[..], v.heads, v.cyc, v.fr);
    RingBeside(mem[..], v.heads, FREES, v.fr, k);
    Unlink(mem, FREES, x);
    RemoveFree(old(mem[..]), mem[..], v.heads, v.cyc, v.fr, k);
    SinceSame(v.m0, old(mem[..]), mem[..], v.heads, v.changed);
    MarkedKept(old(mem[..]), mem[..], v.heads);
    v' := v.(fr := Removed(v.fr, k));
  }

  lemma HeadFits(mem: seq<int>, v: View, a: nat)
    requires In(mem, v) && a in v.heads
    ensures a + H <= |mem|
  {
  }

  /** Write the whole mark of a new header. */
  method NewMark(mem: array<int>, ghost v: View, a: nat) returns (ghost v': View)
    requires In(mem[..], v) && a in v.heads
    modifies mem
    ensures v' == v.(changed := v.changed + {a}) && In(mem[..], v') && Marked(mem[..], Block(a, false))
    ensures forall b: Block :: b.addr in v.heads - {a} && Marked(old(mem[..]), b) ==> Marked(mem[..], b)
  {
    HeadFits(mem[..], v, a);
    mem[a + MAGIC_AT] := FREED;
    mem[a + POOL_AT] := SELF;
    MarkWritten(old(mem[..]), mem[..], v.heads, v.cyc, v.fr, a);
    SinceMark(v.m0, old(mem[..]), mem[..], v.heads, v.changed, a);
    MarkedKept(old(mem[..]), mem[..], v.heads - {a});
    v' := v.(changed := v.changed + {a});
  }

  /** Flip the used bit of a header. */
  method SetMark(mem: array<int>, ghost v: View, a: nat, used: bool) returns (ghost v': View)
    requires In(mem[..], v) && a in v.heads && Marked(mem[..], Block(a, !used))
    modifies mem
    ensures v' == v.(changed := v.changed + {a}) && In(mem[..], v') && Marked(mem[..], Block(a, used))
    ensures forall b: Block :: b.addr in v.heads - {a} && Marked(old(mem[..]), b) ==> Marked(mem[..], b)
  {
    mem[a + MAGIC_AT] := if used then mem[a + MAGIC_AT] + 1 else mem[a + MAGIC_AT] - 1;
    MarkWritten(old(mem[..]), mem[..], v.heads, v.cyc, v.fr, a);
    SinceMark(v.m0, old(mem[..]), mem[..], v.heads, v.changed, a);
    v' := v.(changed := v.changed + {a});
  }

  method ClearFree(mem: array<int>, ghost v: View, n: nat)
    requires In(mem[..], v) && n in v.heads && n !in v.fr
    modifies mem
    ensures In(mem[..], v)
    ensures forall b: Block :: b.addr in v.heads && Marked(old(mem[..]), b) ==> Marked(mem[..], b)
  {
    HeadFits(mem[..], v, n);
    mem[n + FREES.f] := 0;
    mem[n + FREES.g] := 0;
    FreeLinksCleared(old(mem[..]), mem[..], v.heads, v.cyc, v.fr, n);
    SinceSame(v.m0, old(mem[..]), mem[..], v.heads, v.changed);
    MarkedKept(old(mem[..]), mem[..], v.heads);
  }

  // ---- from surgeries to operations ------------------------------------------------------

  lemma SplitCycle(bs: seq<Block>, end: nat, i: nat, x: Block, y: Block)
    requires i < |bs| && x.addr == bs[i].addr
    ensures Cycle(Splice(bs, i, i + 1, [x, y]), end) == Inserted(Cycle(bs, end), i, y.addr)
  {
  }

  lemma SameCycle(bs: seq<Block>, end: nat, i: nat, x: Block)
    requires i < |bs| && x.addr == bs[i].addr
    ensures Cycle(Splice(bs, i, i + 1, [x]), end) == Cycle(bs, end)
  {
  }

  lemma JoinCycle(bs: seq<Block>, end: nat, i: nat, x: Block)
    requires i + 1 < |bs| && x.addr == bs[i].addr
    ensures Cycle(Splice(bs, i, i + 2, [x]), end) == Removed(Cycle(bs, end), i + 1)
  {
  }

  lemma JoinBothCycle(bs: seq<Block>, end: nat, i: nat, x: Block)
    requires 0 < i && i + 1 < |bs| && x.addr == bs[i - 1].addr
    ensures Cycle(Splice(bs, i - 1, i + 2, [x]), end) == Removed(Removed(Cycle(bs, end), i), i)
  {
  }

  lemma ReplaceCycle(bs: seq<Block>, end: nat, i: nat, x: Block, y: Block)
    requires i + 1 < |bs| && x.addr == bs[i].addr
    ensures Cycle(Splice(bs, i, i + 2, [x, y]), end) == Inserted(Removed(Cycle(bs, end), i + 1), i, y.addr)
    ensures Cycle(Splice(bs, i, i + 2, [x, y]), end) == Removed(Inserted(Cycle(bs, end), i, y.addr), i + 2)
  {
  }

  lemma FreeCut(free: seq<nat>, k: nat)
    requires Distinct(free) && k < |free|
    ensures [HEADER] + Without(free, free[k]) == Removed([HEADER] + free, k + 1)
  {
    WithoutAt(free, k);
    CutBehindHeader(free, k);
  }

  lemma CutBehindHeader(free: seq<nat>, k: nat)
    requires k < |free|
    ensures [HEADER] + (free[..k] + free[k + 1..]) == Removed([HEADER] + free, k + 1)
  {
  }

  lemma FreePushed(free: seq<nat>, n: nat)
    ensures [HEADER] + ([n] + free) == Inserted([HEADER] + free, 0, n)
  {
  }

  /** The blocks that were not exchanged keep their marks. */
  lemma MarksAfter(mem: seq<int>, mem': seq<int>, hp: Heap, hp': Heap, lo: nat, hi: nat, m: seq<Block>, heads: set<nat>, changed: set<nat>)
    requires Inv(hp) && Inv(hp') && lo < hi <= |hp.blocks| && hp'.end == hp.end && hp'.blocks == Splice(hp.blocks, lo, hi, m)
    requires Marks(mem, hp.blocks, hp.end) && Since(mem, mem', heads, changed) && Heads(hp.blocks, hp.end) <= heads
    requires forall a :: a in changed ==> Has(m, a) || Has(hp.blocks[lo..hi], a)
    requires forall t :: 0 <= t < |m| ==> Marked(mem', m[t])
    requires hp.end !in changed
    ensures Marks(mem', hp'.blocks, hp'.end)
  {
    var bs := hp'.blocks;
    MarkedKept(mem, mem', heads - changed);
    forall b | b in bs ensures Marked(mem', b) {
      var k :| 0 <= k < |bs| && bs[k] == b;
      if lo <= k < lo + |m| {
      } else {
        NotExchanged(hp, hp', lo, hi, m, k);
      }
    }
  }

  lemma NotExchanged(hp: Heap, hp': Heap, lo: nat, hi: nat, m: seq<Block>, k: nat)
    requires Inv(hp) && Inv(hp') && lo < hi <= |hp.blocks| && hp'.end == hp.end && hp'.blocks == Splice(hp.blocks, lo, hi, m)
    requires k < |hp'.blocks| && !(lo <= k < lo + |m|)
    ensures var b := hp'.blocks[k];
            b in hp.blocks && !Has(m, b.addr) && !Has(hp.blocks[lo..hi], b.addr) && b.addr in Heads(hp.blocks, hp.end)
  {
    InvTiled(hp);
    var bs, b := hp'.blocks, hp'.blocks[k];
    var j := if k < lo then k else k - |m| + hi - lo;
    if Has(m, b.addr) {
      var t :| 0 <= t < |m| && m[t].addr == b.addr;
      SameAddr(bs, hp'.end, H, k, lo + t);
      assert false;
    }
    if Has(hp.blocks[lo..hi], b.addr) {
      var t :| 0 <= t < hi - lo && hp.blocks[lo..hi][t].addr == b.addr;
      SameAddr(hp.blocks, hp.end, H, j, lo + t);
      assert false;
    }
  }

  lemma FreeInHeads(hp: Heap)
    requires Inv(hp)
    ensures Within([HEADER] + hp.free, Heads(hp.blocks, hp.end)) && Within(Cycle(hp.blocks, hp.end), Heads(hp.blocks, hp.end))
  {
    var heads := Heads(hp.blocks, hp.end);
    forall k | 0 <= k < |hp.free| ensures hp.free[k] in heads {
      FreeSetHas(hp.blocks, hp.free[k]);
    }
  }

  lemma RepAfter(mem: seq<int>, hp: Heap, heads: set<nat>)
    requires Inv(hp) && |mem| == hp.end + H && Marks(mem, hp.blocks, hp.end)
    requires Rings(mem, heads, Cycle(hp.blocks, hp.end), [HEADER] + hp.free) && Heads(hp.blocks, hp.end) <= heads
    ensures Rep(mem, hp)
  {
    FreeInHeads(hp);
  }
}
