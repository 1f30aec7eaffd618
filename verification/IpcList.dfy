/**
 The lists of suspended threads that every IPC object keeps: arrival order or priority order,
 resumed from the front.
 */
module IpcList {
  import opened NatLists

  type Tid = nat

  datatype Flag = Fifo | Prio

  type Priorities = map<Tid, nat>

  predicate AllIn(s: seq<Tid>, prio: Priorities) {
    forall i :: 0 <= i < |s| ==> s[i] in prio
  }

  /** Most urgent first: a smaller number is more urgent. */
  predicate Sorted(s: seq<Tid>, prio: Priorities)
    requires AllIn(s, prio)
  {
    forall i, j :: 0 <= i < j < |s| ==> prio[s[i]] <= prio[s[j]]
  }

  /** Where a priority list takes a new thread: before the first less urgent one. */
  function Slot(s: seq<Tid>, prio: Priorities, t: Tid): (k: nat)
    requires AllIn(s, prio) && t in prio
    ensures k <= |s|
    ensures forall i :: 0 <= i < k ==> prio[s[i]] <= prio[t]
    ensures k < |s| ==> prio[t] < prio[s[k]]
  {
    if s == [] || prio[t] < prio[s[0]] then 0 else 1 + Slot(s[1..], prio, t)
  }

  function Inserted(s: seq<Tid>, k: nat, t: Tid): (r: seq<Tid>)
    requires k <= |s|
    ensures |r| == |s| + 1
  {
    s[..k] + [t] + s[k..]
  }

  /** rt_ipc_list_suspend */
  function Enqueue(flag: Flag, prio: Priorities, s: seq<Tid>, t: Tid): seq<Tid>
    requires AllIn(s, prio) && t in prio
  {
    Inserted(s, if flag == Fifo then |s| else Slot(s, prio, t), t)
  }

  lemma InsertedMembers(s: seq<Tid>, k: nat, t: Tid, x: Tid)
    requires k <= |s|
    ensures x in Inserted(s, k, t) <==> x == t || x in s
  {
  }

  lemma InsertedDistinct(s: seq<Tid>, k: nat, t: Tid)
    requires k <= |s| && Distinct(s) && t !in s
    ensures Distinct(Inserted(s, k, t))
  {
  }

  lemma InsertedSorted(s: seq<Tid>, k: nat, t: Tid, prio: Priorities)
    requires k <= |s| && AllIn(s, prio) && t in prio && Sorted(s, prio)
    requires forall i :: 0 <= i < k ==> prio[s[i]] <= prio[t]
    requires k < |s| ==> prio[t] < prio[s[k]]
    requires AllIn(Inserted(s, k, t), prio)
    ensures Sorted(Inserted(s, k, t), prio)
  {
  }

  /** A new thread joins the others; a priority list stays in order. */
  lemma EnqueueKeeps(flag: Flag, prio: Priorities, s: seq<Tid>, t: Tid)
    requires AllIn(s, prio) && t in prio && Distinct(s) && t !in s
    ensures var r := Enqueue(flag, prio, s, t);
            && Distinct(r) && AllIn(r, prio) && |r| == |s| + 1
            && (forall x :: x in r <==> x == t || x in s)
            && (flag == Prio && Sorted(s, prio) ==> Sorted(r, prio))
  {
    var k := if flag == Fifo then |s| else Slot(s, prio, t);
    var r := Enqueue(flag, prio, s, t);
    assert r == Inserted(s, k, t) && |r| == |s| + 1;
    forall x ensures x in r <==> x == t || x in s {
      InsertedMembers(s, k, t, x);
    }
    InsertedDistinct(s, k, t);
    assert AllIn(r, prio);
    if flag == Prio && Sorted(s, prio) {
      InsertedSorted(s, k, t, prio);
    }
  }

  /** t has joined the list, and no other thread has moved: at the end of a first-come list, behind all
      that are at least as urgent and in front of a less urgent one in a priority list. */
  ghost predicate Joins(flag: Flag, prio: Priorities, s: seq<Tid>, s': seq<Tid>, t: Tid)
    requires AllIn(s, prio) && t in prio
  {
    exists k ::
      && 0 <= k <= |s| && s' == s[..k] + [t] + s[k..]
      && (flag == Fifo ==> k == |s|)
      && (flag == Prio ==> (forall i :: 0 <= i < k ==> prio[s[i]] <= prio[t]) && (k < |s| ==> prio[t] < prio[s[k]]))
  }

  lemma EnqueueJoins(flag: Flag, prio: Priorities, s: seq<Tid>, t: Tid)
    requires AllIn(s, prio) && t in prio
    ensures Joins(flag, prio, s, Enqueue(flag, prio, s, t), t)
  {
    var k := if flag == Fifo then |s| else Slot(s, prio, t);
    assert Enqueue(flag, prio, s, t) == s[..k] + [t] + s[k..];
  }

  /** In order, there is only one place to join. */
  lemma JoinsOnce(flag: Flag, prio: Priorities, s: seq<Tid>, r: seq<Tid>, r': seq<Tid>, t: Tid)
    requires AllIn(s, prio) && t in prio && Sorted(s, prio)
    requires Joins(flag, prio, s, r, t) && Joins(flag, prio, s, r', t)
    ensures r == r'
  {
  }

  /** Among equally urgent waiters the earlier one stays ahead. */
  lemma EnqueueIsStable(prio: Priorities, s: seq<Tid>, t: Tid, i: nat)
    requires AllIn(s, prio) && t in prio && Sorted(s, prio) && i < |s| && prio[s[i]] <= prio[t]
    ensures i < Slot(s, prio, t)
  {
  }

  /** Taking a thread out of a wait list leaves the others in their order. */
  lemma WithoutKeeps(s: seq<Tid>, t: Tid, prio: Priorities)
    requires Distinct(s)
    ensures var r := Without(s, t);
            && Distinct(r) && t !in r
            && (forall x :: x in r <==> x in s && x != t)
            && (t in s ==> |r| == |s| - 1)
            && (AllIn(s, prio) ==> AllIn(r, prio) && (Sorted(s, prio) ==> Sorted(r, prio)))
  {
    hide Without;
    var r := Without(s, t);
    forall x ensures x in r <==> x in s && x != t {
      WithoutMembers(s, t, x);
    }
    if t in s {
      var k :| 0 <= k < |s| && s[k] == t;
      WithoutAt(s, k);
      forall i | 0 <= i < |r| ensures r[i] == if i < k then s[i] else s[i + 1] {
        CutAt(s, k, i);
      }
    } else {
      WithoutAbsent(s, t);
    }
  }

  lemma TailKeeps(s: seq<Tid>, prio: Priorities)
    requires Distinct(s) && s != []
    ensures s[0] !in s[1..] && Distinct(s[1..])
    ensures forall x :: x in s <==> x == s[0] || x in s[1..]
    ensures AllIn(s, prio) ==> AllIn(s[1..], prio) && (Sorted(s, prio) ==> Sorted(s[1..], prio))
  {
  }

  /** The search loop of rt_ipc_list_suspend. */
  method Suspend(flag: Flag, prio: Priorities, list: seq<Tid>, t: Tid) returns (r: seq<Tid>)
    requires AllIn(list, prio) && t in prio
    ensures r == Enqueue(flag, prio, list, t)
  {
    if flag == Fifo {
      return list[..|list|] + [t] + list[|list|..];
    }
    var n := 0;
    while n < |list| && prio[list[n]] <= prio[t]
      invariant 0 <= n <= |list|
      invariant Slot(list, prio, t) == n + Slot(list[n..], prio, t)
    {
      n := n + 1;
    }
    r := list[..n] + [t] + list[n..];
  }
}
