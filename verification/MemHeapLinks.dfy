/**
 The two linked structures of memheap in one word memory: the address ring and the free list
 run through different words of the same headers.
 */
module MemHeapLinks {
  import opened RingList
  import opened MemHeap

  /** struct rt_memheap_item: magic, pool_ptr, next, prev, next_free, prev_free. */
  const MAGIC_AT: nat := 0
  const POOL_AT: nat := 1
  const BLOCKS: Layout := Layout(6, 2, 3)
  const FREES: Layout := Layout(6, 4, 5)

  /** The free list header. */
  const HEADER: nat := 0

  /** Headers do not overlap. */
  ghost predicate Spaced(heads: set<nat>, words: nat) {
    && (forall a :: a in heads ==> a + H <= words)
    && (forall a, b :: a in heads && b in heads ==> a == b || Apart(a, b, H))
  }

  ghost predicate Within(cyc: seq<nat>, heads: set<nat>) {
    forall k :: 0 <= k < |cyc| ==> cyc[k] in heads
  }

  ghost predicate Rings(mem: seq<int>, heads: set<nat>, cyc: seq<nat>, fr: seq<nat>) {
    && Spaced(heads, |mem|) && Within(cyc, heads) && Within(fr, heads)
    && Ring(mem, BLOCKS, cyc) && Ring(mem, FREES, fr)
  }

  predicate Outside(q: nat, heads: set<nat>) {
    forall a :: a in heads ==> q < a || a + H <= q
  }

  /** Nothing but headers was written. */
  ghost predicate Only(mem: seq<int>, mem': seq<int>, heads: set<nat>) {
    |mem'| == |mem| && forall q :: 0 <= q < |mem| && Outside(q, heads) ==> mem'[q] == mem[q]
  }

  /** The words that mark a block as used or free are as they were. */
  ghost predicate SameMagic(mem: seq<int>, mem': seq<int>, heads: set<nat>) {
    |mem'| == |mem| && forall a :: a in heads && a + H <= |mem| ==> mem'[a] == mem[a] && mem'[a + POOL_AT] == mem[a + POOL_AT]
  }

  /** At most the fields of layout l of some headers were written. */
  ghost predicate OnlyFields(mem: seq<int>, mem': seq<int>, heads: set<nat>, l: Layout) {
    && |mem'| == |mem|
    && (forall q :: 0 <= q < |mem| && mem'[q] != mem[q] ==> FieldOf(q, heads, l))
  }

  ghost predicate FieldOf(q: nat, heads: set<nat>, l: Layout) {
    exists a :: a in heads && (q == a + l.f || q == a + l.g)
  }

  /** Writing one structure's fields does not disturb the other ring. */
  lemma OtherRing(mem: seq<int>, mem': seq<int>, heads: set<nat>, l: Layout, l2: Layout, cyc: seq<nat>)
    requires Spaced(heads, |mem|) && OnlyFields(mem, mem', heads, l)
    requires l.w == H && l2.w == H && l.f < H && l.g < H && l2.f !in {l.f, l.g} && l2.g !in {l.f, l.g}
    requires Ring(mem, l2, cyc) && Within(cyc, heads)
    ensures Ring(mem', l2, cyc)
  {
    forall k | 0 <= k < |cyc|
      ensures cyc[k] + H <= |mem| && mem'[cyc[k] + l2.f] == mem[cyc[k] + l2.f] && mem'[cyc[k] + l2.g] == mem[cyc[k] + l2.g]
    {
    }
    Frame(mem, mem', l2, cyc);
  }

  // ---- the four surgeries ----------------------------------------------------------------

  /** Exactly the two words that take a node out were written. */
  ghost predicate Closed(mem: seq<int>, mem': seq<int>, l: Layout, p: nat, y: nat) {
    && |mem'| == |mem| && Linked(mem', l, p, y)
    && (forall a :: 0 <= a < |mem| && a != p + l.f && a != y + l.g ==> mem'[a] == mem[a])
  }

  lemma FreshHead(heads: set<nat>, words: nat, cyc: seq<nat>, n: nat)
    requires Spaced(heads, words) && Within(cyc, heads) && n in heads && n !in cyc
    ensures Fresh(cyc, n, H, words)
  {
  }

  lemma SuccIn(cyc: seq<nat>, k: nat, heads: set<nat>)
    requires k < |cyc| && Within(cyc, heads)
    ensures cyc[k] in heads && Succ(cyc, k) in heads && Pred(cyc, k) in heads
  {
  }

  lemma InsertBlock(mem: seq<int>, mem': seq<int>, heads: set<nat>, cyc: seq<nat>, fr: seq<nat>, k: nat, n: nat)
    requires Rings(mem, heads, cyc, fr) && k < |cyc| && n in heads && n !in cyc
    requires Spliced(mem, mem', BLOCKS, cyc[k], Succ(cyc, k), n)
    ensures Rings(mem', heads, Inserted(cyc, k, n), fr)
    ensures SameMagic(mem, mem', heads) && Only(mem, mem', heads)
  {
    FreshHead(heads, |mem|, cyc, n);
    Insert(mem, mem', BLOCKS, cyc, k, n);
    OtherRing(mem, mem', heads, BLOCKS, FREES, fr);
  }

  lemma InsertFree(mem: seq<int>, mem': seq<int>, heads: set<nat>, cyc: seq<nat>, fr: seq<nat>, k: nat, n: nat)
    requires Rings(mem, heads, cyc, fr) && k < |fr| && n in heads && n !in fr
    requires Spliced(mem, mem', FREES, fr[k], Succ(fr, k), n)
    ensures Rings(mem', heads, cyc, Inserted(fr, k, n))
    ensures SameMagic(mem, mem', heads) && Only(mem, mem', heads)
  {
    FreshHead(heads, |mem|, fr, n);
    Insert(mem, mem', FREES, fr, k, n);
    OtherRing(mem, mem', heads, FREES, BLOCKS, cyc);
  }

  lemma RemoveBlock(mem: seq<int>, mem': seq<int>, heads: set<nat>, cyc: seq<nat>, fr: seq<nat>, k: nat)
    requires Rings(mem, heads, cyc, fr) && k < |cyc| && |cyc| >= 2
    requires Closed(mem, mem', BLOCKS, Pred(cyc, k), Succ(cyc, k))
    ensures Rings(mem', heads, Removed(cyc, k), fr)
    ensures SameMagic(mem, mem', heads) && Only(mem, mem', heads)
  {
    SuccIn(cyc, k, heads);
    Remove(mem, mem', BLOCKS, cyc, k);
    OtherRing(mem, mem', heads, BLOCKS, FREES, fr);
  }

  lemma RemoveFree(mem: seq<int>, mem': seq<int>, heads: set<nat>, cyc: seq<nat>, fr: seq<nat>, k: nat)
    requires Rings(mem, heads, cyc, fr) && k < |fr| && |fr| >= 2
    requires Closed(mem, mem', FREES, Pred(fr, k), Succ(fr, k))
    ensures Rings(mem', heads, cyc, Removed(fr, k))
    ensures SameMagic(mem, mem', heads) && Only(mem, mem', heads)
  {
    SuccIn(fr, k, heads);
    Remove(mem, mem', FREES, fr, k);
    OtherRing(mem, mem', heads, FREES, BLOCKS, cyc);
  }

  // ---- other writes ----------------------------------------------------------------------

  /** The words magic and pool_ptr. */
  const MARKS: Layout := Layout(6, 0, 1)

  lemma MarkWritten(mem: seq<int>, mem': seq<int>, heads: set<nat>, cyc: seq<nat>, fr: seq<nat>, a: nat)
    requires Rings(mem, heads, cyc, fr) && a in heads && |mem'| == |mem|
    requires forall q :: 0 <= q < |mem| && q != a && q != a + POOL_AT ==> mem'[q] == mem[q]
    ensures Rings(mem', heads, cyc, fr) && Only(mem, mem', heads)
    ensures SameMagic(mem, mem', heads - {a})
  {
    OtherRing(mem, mem', heads, MARKS, BLOCKS, cyc);
    OtherRing(mem, mem', heads, MARKS, FREES, fr);
  }

  /** A header that is off the free list may lose its free links. */
  lemma FreeLinksCleared(mem: seq<int>, mem': seq<int>, heads: set<nat>, cyc: seq<nat>, fr: seq<nat>, n: nat)
    requires Rings(mem, heads, cyc, fr) && n in heads && n !in fr && |mem'| == |mem|
    requires forall q :: 0 <= q < |mem| && q != n + FREES.f && q != n + FREES.g ==> mem'[q] == mem[q]
    ensures Rings(mem', heads, cyc, fr) && Only(mem, mem', heads) && SameMagic(mem, mem', heads)
  {
    OtherRing(mem, mem', heads, FREES, BLOCKS, cyc);
    Frame(mem, mem', FREES, fr);
  }

  lemma HeadsGrow(mem: seq<int>, heads: set<nat>, cyc: seq<nat>, fr: seq<nat>, n: nat)
    requires Rings(mem, heads, cyc, fr) && n + H <= |mem| && forall a :: a in heads ==> Apart(a, n, H)
    ensures Rings(mem, heads + {n}, cyc, fr)
  {
  }
}
