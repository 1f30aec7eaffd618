/**
 The list functions of rtservice.h on nodes of two words in memory: next and prev. A list is a
 ring through its head; as a sequence it is the ring behind the head.
 */
module RtList {
  import opened RingList

  const NODE: Layout := Layout(2, 0, 1)

  /** The list with its head at h holds the nodes of items, in order. */
  ghost predicate IsList(mem: seq<int>, h: nat, items: seq<nat>) {
    Ring(mem, NODE, [h] + items)
  }

  /** rt_list_init */
  method Init(mem: array<int>, l: nat)
    requires l + 2 <= mem.Length
    modifies mem
    ensures IsList(mem[..], l, [])
    ensures forall a :: 0 <= a < mem.Length && !(l <= a < l + 2) ==> mem[a] == old(mem[a])
  {
    mem[l + 1] := l;
    mem[l] := l;
  }

  /** rt_list_insert_after: n becomes the node behind the k-th of the ring; k is 0 for the head. */
  method InsertAfter(mem: array<int>, l: nat, n: nat, ghost h: nat, ghost items: seq<nat>, ghost k: nat)
    requires IsList(mem[..], h, items) && k <= |items| && l == ([h] + items)[k] && Fresh([h] + items, n, 2, mem.Length)
    modifies mem
    ensures IsList(mem[..], h, items[..k] + [n] + items[k..])
  {
    ghost var cyc := [h] + items;
    At(mem[..], NODE, cyc, k);
    Around(mem[..], cyc, k, n);
    SpliceAfter(mem, l, n);
    Insert(old(mem[..]), mem[..], NODE, cyc, k, n);
    InsertedAfter(h, items, k, n);
  }

  /** The four writes. */
  method SpliceAfter(mem: array<int>, l: nat, n: nat)
    requires l + 2 <= mem.Length && n + 2 <= mem.Length && 0 <= mem[l] && mem[l] + 2 <= mem.Length
    requires Apart(l, n, 2) && Apart(mem[l], n, 2) && (mem[l] == l || Apart(l, mem[l], 2))
    modifies mem
    ensures Spliced(old(mem[..]), mem[..], NODE, l, old(mem[l]), n)
  {
    var next := mem[l];
    mem[next + 1] := n;
    mem[n] := mem[l];
    mem[l] := n;
    mem[n + 1] := l;
  }

  lemma InsertedAfter(h: nat, items: seq<nat>, k: nat, n: nat)
    requires k <= |items|
    ensures Inserted([h] + items, k, n) == [h] + (items[..k] + [n] + items[k..])
  {
  }

  /** Distances between a new node and its neighbours to be. */
  lemma Around(mem: seq<int>, cyc: seq<nat>, k: nat, n: nat)
    requires Ring(mem, NODE, cyc) && k < |cyc| && Fresh(cyc, n, 2, |mem|)
    ensures Apart(cyc[k], n, 2) && Apart(Succ(cyc, k), n, 2) && n + 2 <= |mem|
    ensures cyc[k] == Succ(cyc, k) || Apart(cyc[k], Succ(cyc, k), 2)
  {
  }

  /** rt_list_insert_before: in front of the k-th node of the ring; in front of the head is the end
      of the list. */
  method InsertBefore(mem: array<int>, l: nat, n: nat, ghost h: nat, ghost items: seq<nat>, ghost k: nat)
    requires IsList(mem[..], h, items) && k <= |items| && l == ([h] + items)[k] && Fresh([h] + items, n, 2, mem.Length)
    modifies mem
    ensures IsList(mem[..], h, if k == 0 then items + [n] else items[..k - 1] + [n] + items[k - 1..])
  {
    ghost var cyc := [h] + items;
    ghost var p := if k > 0 then k - 1 else |items|;
    assert Succ(cyc, p) == l && Pred(cyc, k) == cyc[p];
    At(mem[..], NODE, cyc, k);
    SpliceBefore(mem, l, n);
    Insert(old(mem[..]), mem[..], NODE, cyc, p, n);
    InsertedBefore(h, items, k, n);
  }

  /** The four writes. */
  method SpliceBefore(mem: array<int>, l: nat, n: nat)
    requires l + 2 <= mem.Length && n + 2 <= mem.Length && 0 <= mem[l + 1] && mem[l + 1] + 2 <= mem.Length
    requires Apart(l, n, 2) && Apart(mem[l + 1], n, 2) && (mem[l + 1] == l || Apart(mem[l + 1], l, 2))
    modifies mem
    ensures Spliced(old(mem[..]), mem[..], NODE, old(mem[l + 1]), l, n)
  {
    var prev := mem[l + 1];
    mem[prev] := n;
    mem[n + 1] := mem[l + 1];
    mem[l + 1] := n;
    mem[n] := l;
  }

  lemma InsertedBefore(h: nat, items: seq<nat>, k: nat, n: nat)
    requires k <= |items|
    ensures Inserted([h] + items, if k > 0 then k - 1 else |items|, n) ==
            [h] + (if k == 0 then items + [n] else items[..k - 1] + [n] + items[k - 1..])
  {
  }

  /** rt_list_remove of the k-th item: the list closes up, and the node is a ring of its own. */
  method RemoveNode(mem: array<int>, n: nat, ghost h: nat, ghost items: seq<nat>, ghost k: nat)
    requires IsList(mem[..], h, items) && k < |items| && n == items[k]
    modifies mem
    ensures IsList(mem[..], h, items[..k] + items[k + 1..]) && IsList(mem[..], n, [])
  {
    ghost var cyc := [h] + items;
    At(mem[..], NODE, cyc, k + 1);
    var next, prev := mem[n], mem[n + 1];
    mem[next + 1] := mem[n + 1];
    mem[prev] := mem[n];
    mem[n + 1] := n;
    mem[n] := n;
    assert LinkAt(mem[..], NODE, [n] + [], 0);
    Remove(old(mem[..]), mem[..], NODE, cyc, k + 1);
    assert Removed(cyc, k + 1) == [h] + (items[..k] + items[k + 1..]);
  }

  /** rt_list_isempty */
  method IsEmpty(mem: array<int>, l: nat, ghost items: seq<nat>) returns (empty: bool)
    requires IsList(mem[..], l, items)
    ensures empty <==> items == []
  {
    ghost var cyc := [l] + items;
    At(mem[..], NODE, cyc, 0);
    if items != [] {
    }
    empty := mem[l] == l;
  }
}
