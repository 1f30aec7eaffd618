/**
 Circular doubly linked lists in word memory. A node is w words wide and keeps the address of
 its successor in its word f and that of its predecessor in its word g.
 */
module RingList {

  datatype Layout = Layout(w: nat, f: nat, g: nat)

  ghost predicate IsLayout(l: Layout) {
    l.f < l.w && l.g < l.w && l.f != l.g
  }

  predicate Apart(a: nat, b: nat, w: nat) {
    a + w <= b || b + w <= a
  }

  /** Nodes of a ring lie inside the memory and do not overlap. */
  ghost predicate Placed(cyc: seq<nat>, w: nat, words: nat) {
    && (forall i :: 0 <= i < |cyc| ==> cyc[i] + w <= words)
    && (forall i, j :: 0 <= i < |cyc| && 0 <= j < |cyc| && i != j ==> Apart(cyc[i], cyc[j], w))
  }

  function Succ(cyc: seq<nat>, k: nat): nat
    requires k < |cyc|
  {
    if k + 1 < |cyc| then cyc[k + 1] else cyc[0]
  }

  function Pred(cyc: seq<nat>, k: nat): nat
    requires k < |cyc|
  {
    if k > 0 then cyc[k - 1] else cyc[|cyc| - 1]
  }

  ghost predicate Linked(mem: seq<int>, l: Layout, a: nat, b: nat) {
    a + l.f < |mem| && b + l.g < |mem| && mem[a + l.f] == b && mem[b + l.g] == a
  }

  ghost predicate LinkAt(mem: seq<int>, l: Layout, cyc: seq<nat>, k: nat)
    requires k < |cyc|
  {
    Linked(mem, l, cyc[k], Succ(cyc, k))
  }

  ghost predicate Links(mem: seq<int>, l: Layout, cyc: seq<nat>) {
    forall k :: 0 <= k < |cyc| ==> LinkAt(mem, l, cyc, k)
  }

  ghost predicate Ring(mem: seq<int>, l: Layout, cyc: seq<nat>) {
    IsLayout(l) && Placed(cyc, l.w, |mem|) && Links(mem, l, cyc)
  }

  /** What the links of a node say. */
  lemma At(mem: seq<int>, l: Layout, cyc: seq<nat>, k: nat)
    requires Ring(mem, l, cyc) && k < |cyc|
    ensures cyc[k] + l.w <= |mem| && cyc[k] + l.f < |mem| && cyc[k] + l.g < |mem|
    ensures mem[cyc[k] + l.f] == Succ(cyc, k) && mem[cyc[k] + l.g] == Pred(cyc, k)
    ensures Succ(cyc, k) + l.w <= |mem| && Pred(cyc, k) + l.w <= |mem|
  {
    var j := if k > 0 then k - 1 else |cyc| - 1;
    assert LinkAt(mem, l, cyc, j) && LinkAt(mem, l, cyc, k);
  }

  // ---- writes elsewhere ------------------------------------------------------------------

  lemma Frame(mem: seq<int>, mem': seq<int>, l: Layout, cyc: seq<nat>)
    requires Ring(mem, l, cyc) && |mem'| == |mem|
    requires forall k :: 0 <= k < |cyc| ==>
               cyc[k] + l.w <= |mem| && mem'[cyc[k] + l.f] == mem[cyc[k] + l.f] && mem'[cyc[k] + l.g] == mem[cyc[k] + l.g]
    ensures Ring(mem', l, cyc)
  {
    forall k | 0 <= k < |cyc| ensures LinkAt(mem', l, cyc, k) {
      assert LinkAt(mem, l, cyc, k);
    }
  }

  // ---- insertion -------------------------------------------------------------------------

  function Inserted(cyc: seq<nat>, k: nat, n: nat): (r: seq<nat>)
    requires k < |cyc|
    ensures |r| == |cyc| + 1
    ensures forall i :: 0 <= i <= |cyc| ==> r[i] == if i <= k then cyc[i] else if i == k + 1 then n else cyc[i - 1]
  {
    cyc[..k + 1] + [n] + cyc[k + 1..]
  }

  ghost predicate Fresh(cyc: seq<nat>, n: nat, w: nat, words: nat) {
    n + w <= words && forall i :: 0 <= i < |cyc| ==> Apart(cyc[i], n, w)
  }

  /** The four link words that an insertion after x writes; the rest of the memory is kept. */
  ghost predicate Spliced(mem: seq<int>, mem': seq<int>, l: Layout, x: nat, y: nat, n: nat) {
    && |mem'| == |mem|
    && Linked(mem', l, x, n) && Linked(mem', l, n, y)
    && (forall a :: 0 <= a < |mem| && a != x + l.f && a != n + l.g && a != n + l.f && a != y + l.g ==> mem'[a] == mem[a])
  }

  lemma InsertedLink(mem: seq<int>, mem': seq<int>, l: Layout, cyc: seq<nat>, k: nat, n: nat, i: nat)
    requires Ring(mem, l, cyc) && k < |cyc| && Fresh(cyc, n, l.w, |mem|)
    requires Spliced(mem, mem', l, cyc[k], Succ(cyc, k), n) && i < |cyc| && i != k
    ensures LinkAt(mem', l, cyc, i)
  {
    assert LinkAt(mem, l, cyc, i);
  }

  /** Inserting a node after the k-th. */
  lemma Insert(mem: seq<int>, mem': seq<int>, l: Layout, cyc: seq<nat>, k: nat, n: nat)
    requires Ring(mem, l, cyc) && k < |cyc| && Fresh(cyc, n, l.w, |mem|)
    requires Spliced(mem, mem', l, cyc[k], Succ(cyc, k), n)
    ensures Ring(mem', l, Inserted(cyc, k, n))
  {
    hide Placed, LinkAt, Fresh, Linked;
    var r := Inserted(cyc, k, n);
    InsertedPlaced(cyc, k, n, l.w, |mem|);
    forall i | 0 <= i < |r| ensures LinkAt(mem', l, r, i) {
      InsertedLinkAt(mem, mem', l, cyc, k, n, i);
    }
  }

  lemma InsertedPlaced(cyc: seq<nat>, k: nat, n: nat, w: nat, words: nat)
    requires Placed(cyc, w, words) && k < |cyc| && Fresh(cyc, n, w, words)
    ensures Placed(Inserted(cyc, k, n), w, words)
  {
  }

  lemma InsertedLinkAt(mem: seq<int>, mem': seq<int>, l: Layout, cyc: seq<nat>, k: nat, n: nat, i: nat)
    requires Ring(mem, l, cyc) && k < |cyc| && Fresh(cyc, n, l.w, |mem|)
    requires Spliced(mem, mem', l, cyc[k], Succ(cyc, k), n) && i <= |cyc|
    ensures LinkAt(mem', l, Inserted(cyc, k, n), i)
  {
    if i != k && i != k + 1 {
      InsertedLink(mem, mem', l, cyc, k, n, if i < k then i else i - 1);
    }
  }

  // ---- removal ---------------------------------------------------------------------------

  function Removed(cyc: seq<nat>, k: nat): (r: seq<nat>)
    requires k < |cyc|
    ensures |r| == |cyc| - 1
    ensures forall i :: 0 <= i < |cyc| - 1 ==> r[i] == if i < k then cyc[i] else cyc[i + 1]
  {
    cyc[..k] + cyc[k + 1..]
  }

  /** The two link words that close the gap; the words of the removed node do not matter. */
  ghost predicate Bypassed(mem: seq<int>, mem': seq<int>, l: Layout, p: nat, n: nat, y: nat) {
    && |mem'| == |mem|
    && Linked(mem', l, p, y)
    && (forall a :: 0 <= a < |mem| && a != p + l.f && a != y + l.g && !(n <= a < n + l.w) ==> mem'[a] == mem[a])
  }

  lemma RemovedLink(mem: seq<int>, mem': seq<int>, l: Layout, cyc: seq<nat>, k: nat, i: nat)
    requires Ring(mem, l, cyc) && k < |cyc| && i < |cyc| && i != k && Succ(cyc, i) != cyc[k]
    requires Bypassed(mem, mem', l, Pred(cyc, k), cyc[k], Succ(cyc, k))
    ensures LinkAt(mem', l, cyc, i)
  {
    assert LinkAt(mem, l, cyc, i);
  }

  /** Removing the k-th node. */
  lemma Remove(mem: seq<int>, mem': seq<int>, l: Layout, cyc: seq<nat>, k: nat)
    requires Ring(mem, l, cyc) && k < |cyc| && |cyc| >= 2
    requires Bypassed(mem, mem', l, Pred(cyc, k), cyc[k], Succ(cyc, k))
    ensures Ring(mem', l, Removed(cyc, k))
  {
    var r := Removed(cyc, k);
    forall i | 0 <= i < |r| ensures LinkAt(mem', l, r, i) {
      RemovedLinkAt(mem, mem', l, cyc, k, i);
    }
  }

  lemma RemovedLinkAt(mem: seq<int>, mem': seq<int>, l: Layout, cyc: seq<nat>, k: nat, i: nat)
    requires Ring(mem, l, cyc) && k < |cyc| && |cyc| >= 2 && i < |cyc| - 1
    requires Bypassed(mem, mem', l, Pred(cyc, k), cyc[k], Succ(cyc, k))
    ensures LinkAt(mem', l, Removed(cyc, k), i)
  {
    var j := if i < k then i else i + 1;
    var next := if j + 1 < |cyc| then j + 1 else 0;
    if next == k {
    } else {
      RemovedLink(mem, mem', l, cyc, k, j);
    }
  }
}
