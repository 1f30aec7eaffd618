/**
 The small heap on memory: headers of three words (magic and used flag, next, prev) in front of
 the payloads, with offsets for links.
 */
module SmallHeapMemory {
  import opened BlockList
  import opened SmallHeap

  const MARK_AT: nat := 0
  const NEXT_AT: nat := 1
  const PREV_AT: nat := 2

  /** The halfwords magic (0x1ea0) and used, as one word. */
  function Mark(used: bool): int {
    if used then 0x11ea0 else 0x01ea0
  }

  function PrevAddr(bs: seq<Block>, i: nat): nat
    requires i < |bs|
  {
    if i == 0 then 0 else bs[i - 1].addr
  }

  ghost predicate HeadIs(mem: seq<int>, b: Block, next: nat, prev: nat) {
    && b.addr + H <= |mem|
    && mem[b.addr + MARK_AT] == Mark(b.used) && mem[b.addr + NEXT_AT] == next && mem[b.addr + PREV_AT] == prev
  }

  ghost predicate HeadAt(mem: seq<int>, bs: seq<Block>, end: nat, i: nat)
    requires i < |bs|
  {
    HeadIs(mem, bs[i], NextAddr(bs, end, i), PrevAddr(bs, i))
  }

  /** The end stub is marked used and links to itself; its back link is not kept. */
  ghost predicate StubAt(mem: seq<int>, end: nat) {
    end + H == |mem| && mem[end + MARK_AT] == Mark(true) && mem[end + NEXT_AT] == end
  }

  /** The memory holds the blocks. */
  ghost predicate Rep(mem: seq<int>, bs: seq<Block>, end: nat) {
    StubAt(mem, end) && forall i :: 0 <= i < |bs| ==> HeadAt(mem, bs, end, i)
  }

  lemma ReadHead(mem: seq<int>, bs: seq<Block>, end: nat, i: nat)
    requires Rep(mem, bs, end) && i < |bs|
    ensures HeadIs(mem, bs[i], NextAddr(bs, end, i), PrevAddr(bs, i))
  {
    assert HeadAt(mem, bs, end, i);
  }

  // ---- exchanging blocks -----------------------------------------------------------------

  /** Nothing was written but between from and to, and the back link at to. */
  ghost predicate Within(mem: seq<int>, mem': seq<int>, from: nat, to: nat) {
    |mem'| == |mem| && forall q :: 0 <= q < |mem| && !(from <= q < to) && q != to + PREV_AT ==> mem'[q] == mem[q]
  }

  function NextIn(m: seq<Block>, e: nat, t: nat): nat
    requires t < |m|
  {
    if t + 1 < |m| then m[t + 1].addr else e
  }

  function PrevIn(m: seq<Block>, p: nat, t: nat): nat
    requires t < |m|
  {
    if t > 0 then m[t - 1].addr else p
  }

  ghost predicate NewHead(mem: seq<int>, m: seq<Block>, e: nat, p: nat, t: nat)
    requires t < |m|
  {
    HeadIs(mem, m[t], NextIn(m, e, t), PrevIn(m, p, t))
  }

  lemma HeadBelow(mem: seq<int>, mem': seq<int>, bs: seq<Block>, end: nat, lo: nat, hi: nat, m: seq<Block>, i: nat)
    requires Rep(mem, bs, end) && Tiled(bs, end, H) && lo < hi <= |bs| && m != [] && m[0].addr == bs[lo].addr && i < lo
    requires Within(mem, mem', bs[lo].addr, Start(bs[hi..], end)) && bs[lo].addr <= Start(bs[hi..], end)
    ensures i < |Splice(bs, lo, hi, m)| && HeadAt(mem', Splice(bs, lo, hi, m), end, i)
  {
    ReadHead(mem, bs, end, i);
    Ordered(bs, end, H, i, lo);
  }

  lemma HeadAmong(mem': seq<int>, bs: seq<Block>, end: nat, lo: nat, hi: nat, m: seq<Block>, i: nat)
    requires lo < hi <= |bs| && lo <= i < lo + |m| && NewHead(mem', m, Start(bs[hi..], end), PrevAddr(bs, lo), i - lo)
    ensures i < |Splice(bs, lo, hi, m)| && HeadAt(mem', Splice(bs, lo, hi, m), end, i)
  {
  }

  lemma HeadAbove(mem: seq<int>, mem': seq<int>, bs: seq<Block>, end: nat, lo: nat, hi: nat, m: seq<Block>, i: nat)
    requires Rep(mem, bs, end) && Tiled(bs, end, H) && lo < hi < |bs| && m != []
    requires lo + |m| <= i < |Splice(bs, lo, hi, m)|
    requires Within(mem, mem', bs[lo].addr, bs[hi].addr)
    requires bs[hi].addr + H <= |mem'| && mem'[bs[hi].addr + PREV_AT] == m[|m| - 1].addr
    ensures HeadAt(mem', Splice(bs, lo, hi, m), end, i)
  {
    var j := i - |m| + hi - lo;
    ReadHead(mem, bs, end, j);
    if hi < j {
      Ordered(bs, end, H, hi, j);
    }
  }

  /** New blocks with the right headers take the place of old ones. */
  lemma RepSplice(mem: seq<int>, mem': seq<int>, bs: seq<Block>, end: nat, lo: nat, hi: nat, m: seq<Block>)
    requires Rep(mem, bs, end) && Tiled(bs, end, H) && lo < hi <= |bs| && m != [] && m[0].addr == bs[lo].addr
    requires var e := Start(bs[hi..], end);
             && Within(mem, mem', bs[lo].addr, e)
             && (hi < |bs| ==> e + H <= |mem'| && mem'[e + PREV_AT] == m[|m| - 1].addr)
             && forall t :: 0 <= t < |m| ==> NewHead(mem', m, e, PrevAddr(bs, lo), t)
    ensures Rep(mem', Splice(bs, lo, hi, m), end)
  {
    var e, bs' := Start(bs[hi..], end), Splice(bs, lo, hi, m);
    Order(bs, end, H, hi - 1);
    if lo < hi - 1 {
      Ordered(bs, end, H, lo, hi - 1);
    }
    if hi < |bs| {
      Order(bs, end, H, hi);
    }
    forall i | 0 <= i < |bs'| ensures HeadAt(mem', bs', end, i) {
      if i < lo {
        HeadBelow(mem, mem', bs, end, lo, hi, m, i);
      } else if i < lo + |m| {
        HeadAmong(mem', bs, end, lo, hi, m, i);
      } else {
        HeadAbove(mem, mem', bs, end, lo, hi, m, i);
      }
    }
  }

  // ---- only headers are written ----------------------------------------------------------

  predicate Clear(q: nat, bs: seq<Block>, end: nat) {
    q < end && forall i :: 0 <= i < |bs| ==> q < bs[i].addr || bs[i].addr + H <= q
  }

  ghost predicate OnlyHeads(mem: seq<int>, mem': seq<int>, bs: seq<Block>, bs': seq<Block>, end: nat) {
    |mem'| == |mem| && forall q :: 0 <= q < |mem| && Clear(q, bs, end) && Clear(q, bs', end) ==> mem'[q] == mem[q]
  }

  lemma OnlyHeadsSame(mem: seq<int>, bs: seq<Block>, end: nat)
    ensures OnlyHeads(mem, mem, bs, bs, end)
  {
  }

  /** Words of a used block's payload are clear of all headers. */
  lemma PayloadClear(bs: seq<Block>, end: nat, x: (nat, nat), q: nat)
    requires Tiled(bs, end, H) && x in UsedSet(bs, end) && x.0 + H <= q < x.1
    ensures Clear(q, bs, end)
  {
    UsedSetHas(bs, end, x);
    var i :| 0 <= i < |bs| && bs[i] == Block(x.0, true) && NextAddr(bs, end, i) == x.1;
    Order(bs, end, H, i);
    forall j | 0 <= j < |bs| ensures q < bs[j].addr || bs[j].addr + H <= q {
      if j < i {
        Ordered(bs, end, H, j, i);
      } else if i < j {
        Ordered(bs, end, H, i, j);
      }
    }
  }

  /** What is in use before and after is untouched. */
  lemma PayloadUntouched(mem: seq<int>, mem': seq<int>, bs: seq<Block>, bs': seq<Block>, end: nat,
                         x: (nat, nat), y: (nat, nat), q: nat)
    requires Tiled(bs, end, H) && Tiled(bs', end, H) && |mem| == end + H && OnlyHeads(mem, mem', bs, bs', end)
    requires x in UsedSet(bs, end) && y in UsedSet(bs', end) && x.0 + H <= q < x.1 && y.0 + H <= q < y.1
    ensures q < |mem| == |mem'| && mem'[q] == mem[q]
  {
    PayloadClear(bs, end, x, q);
    PayloadClear(bs', end, y, q);
  }

  // ---- cutting a block in two ------------------------------------------------------------

  /** The words that cut the block at a in two, the second part free and at c. */
  ghost predicate CutTo(mem: seq<int>, mem': seq<int>, a: nat, c: nat, next: nat, end: nat) {
    && |mem'| == |mem| && c + H <= |mem| && a + H <= |mem| && next + H <= |mem|
    && mem'[c + MARK_AT] == Mark(false) && mem'[c + NEXT_AT] == next && mem'[c + PREV_AT] == a
    && mem'[a + MARK_AT] == Mark(true) && mem'[a + NEXT_AT] == c
    && (next != end ==> mem'[next + PREV_AT] == c)
    && (forall q :: 0 <= q < |mem| && q != a + MARK_AT && q != a + NEXT_AT && !(c <= q < c + H) && q != next + PREV_AT ==> mem'[q] == mem[q])
  }

  lemma CutRep(mem: seq<int>, mem': seq<int>, bs: seq<Block>, end: nat, i: nat, c: nat)
    requires Rep(mem, bs, end) && Tiled(bs, end, H) && i < |bs|
    requires bs[i].addr + H <= c && c + H <= NextAddr(bs, end, i)
    requires CutTo(mem, mem', bs[i].addr, c, NextAddr(bs, end, i), end)
    ensures var bs' := Splice(bs, i, i + 1, [Block(bs[i].addr, true), Block(c, false)]);
            Rep(mem', bs', end) && OnlyHeads(mem, mem', bs, bs', end)
  {
    var a, e := bs[i].addr, NextAddr(bs, end, i);
    var m := [Block(a, true), Block(c, false)];
    ReadHead(mem, bs, end, i);
    if i + 1 < |bs| {
      Order(bs, end, H, i + 1);
    }
    RepSplice(mem, mem', bs, end, i, i + 1, m);
    CutOnly(mem, mem', bs, end, i, c);
  }

  lemma CutOnly(mem: seq<int>, mem': seq<int>, bs: seq<Block>, end: nat, i: nat, c: nat)
    requires i < |bs| && |mem| == end + H && NextAddr(bs, end, i) <= end
    requires CutTo(mem, mem', bs[i].addr, c, NextAddr(bs, end, i), end)
    ensures OnlyHeads(mem, mem', bs, Splice(bs, i, i + 1, [Block(bs[i].addr, true), Block(c, false)]), end)
  {
    var m := [Block(bs[i].addr, true), Block(c, false)];
    var bs' := Splice(bs, i, i + 1, m);
    SpliceIndex(bs, i, i + 1, m, i + 1);
  }

  // ---- marking a block -------------------------------------------------------------------

  lemma MarkRep(mem: seq<int>, bs: seq<Block>, end: nat, i: nat, used: bool)
    requires Rep(mem, bs, end) && Tiled(bs, end, H) && i < |bs|
    ensures var a := bs[i].addr; var bs' := Splice(bs, i, i + 1, [Block(a, used)]);
            && a + H <= |mem|
            && Rep(mem[a + MARK_AT := Mark(used)], bs', end) && OnlyHeads(mem, mem[a + MARK_AT := Mark(used)], bs, bs', end)
  {
    var a, e := bs[i].addr, NextAddr(bs, end, i);
    var m := [Block(a, used)];
    ReadHead(mem, bs, end, i);
    Order(bs, end, H, i);
    var mem' := mem[a + MARK_AT := Mark(used)];
    if i + 1 < |bs| {
      ReadHead(mem, bs, end, i + 1);
    }
    RepSplice(mem, mem', bs, end, i, i + 1, m);
  }

  // ---- joining blocks --------------------------------------------------------------------

  /** The words that make one free block of those from lo to hi - 1. */
  ghost predicate Joined(mem: seq<int>, mem': seq<int>, bs: seq<Block>, end: nat, lo: nat, hi: nat)
    requires lo < hi <= |bs|
  {
    var a, e := bs[lo].addr, NextAddr(bs, end, hi - 1);
    && |mem'| == |mem| && a + H <= |mem| && e + H <= |mem|
    && mem'[a + NEXT_AT] == e && (hi < |bs| ==> mem'[e + PREV_AT] == a)
    && (forall q :: 0 <= q < |mem| && q != e + PREV_AT && (forall j :: lo <= j < hi ==> q != bs[j].addr + NEXT_AT) ==> mem'[q] == mem[q])
  }

  lemma JoinRep(mem: seq<int>, mem': seq<int>, bs: seq<Block>, end: nat, lo: nat, hi: nat)
    requires Rep(mem, bs, end) && Tiled(bs, end, H) && lo < hi <= |bs| && !bs[lo].used
    requires Joined(mem, mem', bs, end, lo, hi)
    ensures var bs' := Splice(bs, lo, hi, [Block(bs[lo].addr, false)]);
            Rep(mem', bs', end) && OnlyHeads(mem, mem', bs, bs', end)
  {
    var a, e := bs[lo].addr, NextAddr(bs, end, hi - 1);
    var m := [Block(a, false)];
    forall j | lo <= j < hi ensures a <= bs[j].addr && bs[j].addr + H <= e <= end && (lo < j ==> a + H <= bs[j].addr) {
      Order(bs, end, H, j);
      if lo < j {
        Ordered(bs, end, H, lo, j);
      }
      if j < hi - 1 {
        Ordered(bs, end, H, j, hi - 1);
        Order(bs, end, H, hi - 1);
      }
    }
    ReadHead(mem, bs, end, lo);
    RepSplice(mem, mem', bs, end, lo, hi, m);
  }
}
