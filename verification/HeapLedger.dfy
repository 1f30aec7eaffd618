/**
 What the caller of an allocator holds: for every pointer it was given and has not given back, the
 bytes it asked for last. Both heaps are measured against it, whose blocks in use begin h words in
 front of the pointer and are counted in words of four bytes.
 */
module HeapLedger {

  type Extent = (nat, nat)
  type Ledger = map<nat, nat>

  /** The block of a pointer. */
  predicate Of(x: Extent, h: nat, ptr: nat) {
    x.0 + h == ptr
  }

  function Room(x: Extent, h: nat): int {
    x.1 - x.0 - h
  }

  /** No block of the set begins where x does. */
  ghost predicate Fresh(used: set<Extent>, x: Extent) {
    forall z :: z in used ==> z.0 != x.0
  }

  ghost predicate Less(used: set<Extent>, used': set<Extent>, h: nat, ptr: nat) {
    forall z :: z in used' <==> z in used && !Of(z, h, ptr)
  }

  /** A resized block x in the place of the old one. */
  ghost predicate Swapped(used: set<Extent>, used': set<Extent>, h: nat, ptr: nat, x: Extent) {
    && (Of(x, h, ptr) || Fresh(used, x))
    && forall z :: z in used' <==> z == x || (z in used && !Of(z, h, ptr))
  }

  ghost predicate Resized(used: set<Extent>, used': set<Extent>, h: nat, ptr: nat, n: nat, r: nat) {
    exists x :: x in used' && Of(x, h, r) && Room(x, h) >= n && Swapped(used, used', h, ptr, x)
  }

  ghost predicate Given(used: set<Extent>, used': set<Extent>, h: nat, n: nat, r: nat) {
    exists x :: x in used' && Of(x, h, r) && Room(x, h) >= n && Fresh(used, x) && used' == used + {x}
  }

  ghost predicate Holds(used: set<Extent>, h: nat, ptr: nat, bytes: nat) {
    exists x :: x in used && Of(x, h, ptr) && 4 * Room(x, h) >= bytes
  }

  /** The blocks in use are exactly those of the ledger, each with room for what was asked. */
  ghost predicate Covers(used: set<Extent>, h: nat, asked: Ledger) {
    && (forall ptr :: ptr in asked ==> Holds(used, h, ptr, asked[ptr]))
    && (forall x :: x in used ==> x.0 + h in asked)
  }

  lemma HeldIn(used: set<Extent>, used': set<Extent>, h: nat, ptr: nat, bytes: nat)
    requires Holds(used, h, ptr, bytes) && forall z :: z in used && Of(z, h, ptr) ==> z in used'
    ensures Holds(used', h, ptr, bytes)
  {
    var x :| x in used && Of(x, h, ptr) && 4 * Room(x, h) >= bytes;
    assert x in used';
  }

  lemma FreshNotAsked(used: set<Extent>, h: nat, asked: Ledger, x: Extent)
    requires Covers(used, h, asked) && Fresh(used, x)
    ensures x.0 + h !in asked
  {
    hide Fresh, Holds;
    if x.0 + h in asked {
      NotHeld(used, h, asked[x.0 + h], x);
    }
  }

  lemma NotHeld(used: set<Extent>, h: nat, bytes: nat, x: Extent)
    requires Fresh(used, x)
    ensures !Holds(used, h, x.0 + h, bytes)
  {
  }

  lemma Added(used: set<Extent>, used': set<Extent>, h: nat, asked: Ledger, n: nat, r: nat, bytes: nat)
    requires Covers(used, h, asked) && Given(used, used', h, n, r) && 4 * n >= bytes
    ensures Covers(used', h, asked[r := bytes]) && r !in asked
  {
    hide Of, Room, Fresh, Holds, Covers;
    var x :| x in used' && Of(x, h, r) && Room(x, h) >= n && Fresh(used, x) && used' == used + {x};
    BeginsAt(x, h, r);
    FreshNotAsked(used, h, asked, x);
    HeldBy(used', h, r, bytes, x);
    CoversMore(used, used', h, asked, r, bytes, x);
  }

  lemma CoversMore(used: set<Extent>, used': set<Extent>, h: nat, asked: Ledger, r: nat, bytes: nat, x: Extent)
    requires Covers(used, h, asked) && used' == used + {x} && x.0 + h == r && r !in asked && Holds(used', h, r, bytes)
    ensures Covers(used', h, asked[r := bytes])
  {
    hide Of, Room, Holds;
    forall ptr | ptr in asked ensures Holds(used', h, ptr, asked[ptr]) {
      HeldIn(used, used', h, ptr, asked[ptr]);
    }
  }

  lemma BeginsAt(x: Extent, h: nat, r: nat)
    ensures Of(x, h, r) <==> x.0 + h == r
  {
  }

  lemma Dropped(used: set<Extent>, used': set<Extent>, h: nat, asked: Ledger, ptr: nat)
    requires Covers(used, h, asked) && Less(used, used', h, ptr)
    ensures Covers(used', h, asked - {ptr})
  {
    hide Holds;
    forall p | p in asked && p != ptr ensures Holds(used', h, p, asked[p]) {
      HeldIn(used, used', h, p, asked[p]);
    }
  }

  lemma Exchanged(used: set<Extent>, used': set<Extent>, h: nat, asked: Ledger, ptr: nat, n: nat, r: nat, bytes: nat)
    requires Covers(used, h, asked) && Resized(used, used', h, ptr, n, r) && 4 * n >= bytes
    ensures Covers(used', h, (asked - {ptr})[r := bytes]) && (r != ptr ==> r !in asked)
  {
    hide Holds, Of, Room, Fresh;
    var x :| x in used' && Of(x, h, r) && Room(x, h) >= n && Swapped(used, used', h, ptr, x);
    BeginsAt(x, h, r);
    BeginsAt(x, h, ptr);
    if r != ptr {
      FreshNotAsked(used, h, asked, x);
    }
    HeldBy(used', h, r, bytes, x);
    forall p | p in asked && p != ptr && p != r ensures Holds(used', h, p, asked[p]) {
      OtherOf(h, p, ptr);
      HeldIn(used, used', h, p, asked[p]);
    }
    forall z | z in used' ensures z.0 + h in (asked - {ptr})[r := bytes] {
      BeginsAt(z, h, ptr);
    }
  }

  lemma HeldBy(used: set<Extent>, h: nat, r: nat, bytes: nat, x: Extent)
    requires x in used && Of(x, h, r) && 4 * Room(x, h) >= bytes
    ensures Holds(used, h, r, bytes)
  {
  }

  lemma OtherOf(h: nat, p: nat, ptr: nat)
    requires p != ptr
    ensures forall z: Extent :: Of(z, h, p) ==> !Of(z, h, ptr)
  {
  }

  lemma SameUsed(used: set<Extent>, x: Extent)
    requires x in used
    ensures used == used - {x} + {x}
  {
  }

  /** A new block and then the release of the old one: the block has moved. */
  lemma MovedSets(used: set<Extent>, used1: set<Extent>, used2: set<Extent>, h: nat, ptr: nat, e: nat, n: nat, k: nat, r: nat)
    requires ptr >= h && (ptr - h, e) in used && Given(used, used1, h, k, r) && Less(used1, used2, h, ptr) && n <= k
    ensures r != ptr && Resized(used, used2, h, ptr, n, r)
  {
    var x :| x in used1 && Of(x, h, r) && Room(x, h) >= k && Fresh(used, x) && used1 == used + {x};
    assert x in used2 && Swapped(used, used2, h, ptr, x);
  }
}
