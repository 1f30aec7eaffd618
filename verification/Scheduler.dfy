/**
 Threads, their states and the lists they are in: the ready lists with their bitmap, the wait
 lists of IPC objects and the list of defunct threads.
 */
module Scheduler {
  import opened NatLists
  import opened ReadyBitmap

  type Tid = nat
  type Queue = nat

  datatype Stat = Fresh | Ready | Suspended | Closed

  /** Which list a thread's node is in. */
  datatype Place = Alone | InReady(prio: nat) | InWait(queue: Queue) | InDefunct

  datatype Tcb = Tcb(stat: Stat, prio: nat, init: nat, masks: Masks)

  datatype State = State(two: bool, threads: map<Tid, Tcb>, ready: seq<seq<Tid>>, waits: map<Queue, seq<Tid>>, defunct: seq<Tid>,
                         place: map<Tid, Place>, bitmap: Bitmap, current: Tid, nest: nat)

  // ---- the parts of the invariant --------------------------------------------------------

  /** A list holds exactly the threads of one place, each once. */
  ghost predicate Holds(list: seq<Tid>, place: map<Tid, Place>, what: Place) {
    && Distinct(list)
    && (forall t :: t in list ==> t in place && place[t] == what)
    && (forall t :: t in place && place[t] == what ==> t in list)
  }

  ghost predicate ReadyHolds(ready: seq<seq<Tid>>, place: map<Tid, Place>) {
    && (forall p :: 0 <= p < |ready| ==> Holds(ready[p], place, InReady(p)))
    && (forall t :: t in place && place[t].InReady? ==> place[t].prio < |ready|)
  }

  ghost predicate WaitsHold(waits: map<Queue, seq<Tid>>, place: map<Tid, Place>) {
    && (forall q :: q in waits ==> Holds(waits[q], place, InWait(q)))
    && (forall t :: t in place && place[t].InWait? ==> place[t].queue in waits)
  }

  /** A thread is READY exactly when it is in the ready list of its current priority; once it has
      been started its masks fit its priority. */
  ghost predicate ThreadOk(two: bool, levels: nat, c: Tcb, at: Place) {
    && c.prio < levels && c.init < levels
    && (c.stat == Ready <==> at == InReady(c.prio)) && (at.InReady? ==> at.prio == c.prio)
    && (c.stat == Fresh ==> at == Alone)
    && (c.stat == Suspended ==> at == Alone || at.InWait?)
    && (c.stat == Closed ==> at == Alone || at == InDefunct)
    && (c.stat != Fresh ==> c.masks == MasksOf(two, c.prio))
  }

  ghost predicate ThreadsOk(two: bool, levels: nat, threads: map<Tid, Tcb>, place: map<Tid, Place>) {
    && threads.Keys == place.Keys
    && forall t :: t in threads ==> ThreadOk(two, levels, threads[t], place[t])
  }

  function Busy(ready: seq<seq<Tid>>): (r: seq<bool>)
    ensures |r| == |ready| && forall p :: 0 <= p < |ready| ==> r[p] == (ready[p] != [])
  {
    seq(|ready|, p requires 0 <= p < |ready| => ready[p] != [])
  }

  ghost predicate Lists(s: State) {
    ReadyHolds(s.ready, s.place) && WaitsHold(s.waits, s.place) && Holds(s.defunct, s.place, InDefunct)
  }

  ghost predicate BitmapOk(s: State) {
    s.bitmap.two == s.two && Agrees(s.bitmap, Busy(s.ready))
  }

  /** All that does not speak of thread control blocks. */
  ghost predicate Core(s: State) {
    |s.ready| == (if s.two then 256 else 32) && Lists(s) && BitmapOk(s)
  }

  ghost predicate Inv(s: State) {
    Core(s) && ThreadsOk(s.two, |s.ready|, s.threads, s.place)
  }

  // ---- list surgery ----------------------------------------------------------------------

  lemma HoldsLess(list: seq<Tid>, place: map<Tid, Place>, what: Place, t: Tid, to: Place)
    requires Holds(list, place, what) && to != what
    ensures Holds(Without(list, t), place[t := to], what)
  {
    DistinctWithout(list, t);
    forall x ensures x in Without(list, t) <==> x in list && x != t {
      WithoutMembers(list, t, x);
    }
  }

  /** A thread joins a list at position k. */
  lemma HoldsMore(list: seq<Tid>, place: map<Tid, Place>, what: Place, t: Tid, k: nat)
    requires Holds(list, place, what) && t !in list && k <= |list|
    ensures Holds(list[..k] + [t] + list[k..], place[t := what], what)
  {
  }

  /** rt_list_remove on the thread's node, wherever it is. */
  function Unlink(s: State, t: Tid): State
    requires t in s.place
  {
    match s.place[t]
    case Alone => s
    case InReady(p) =>
      if p < |s.ready| then s.(ready := s.ready[p := Without(s.ready[p], t)], place := s.place[t := Alone]) else s
    case InWait(q) =>
      if q in s.waits then s.(waits := s.waits[q := Without(s.waits[q], t)], place := s.place[t := Alone]) else s
    case InDefunct => s.(defunct := Without(s.defunct, t), place := s.place[t := Alone])
  }

  lemma HoldsAfter(list: seq<Tid>, place: map<Tid, Place>, what: Place, t: Tid)
    requires Holds(list, place, what) && t in place && what != Alone
    ensures Holds(if place[t] == what then Without(list, t) else list, place[t := Alone], what)
  {
    if place[t] == what {
      HoldsLess(list, place, what, t, Alone);
    }
  }

  /** What Unlink does to each list. */
  lemma UnlinkIs(s: State, t: Tid)
    requires Lists(s) && t in s.place
    ensures var s', w := Unlink(s, t), s.place[t];
            && s'.place == s.place[t := Alone] && |s'.ready| == |s.ready| && s'.waits.Keys == s.waits.Keys
            && (forall p :: 0 <= p < |s.ready| ==> s'.ready[p] == if w == InReady(p) then Without(s.ready[p], t) else s.ready[p])
            && (forall q :: q in s.waits ==> s'.waits[q] == if w == InWait(q) then Without(s.waits[q], t) else s.waits[q])
            && s'.defunct == if w == InDefunct then Without(s.defunct, t) else s.defunct
  {
    hide Holds, Without;
    assert s.place[t] == Alone ==> s.place[t := Alone] == s.place;
  }

  lemma UnlinkReady(s: State, t: Tid)
    requires Lists(s) && t in s.place
    ensures ReadyHolds(Unlink(s, t).ready, Unlink(s, t).place)
  {
    var s' := Unlink(s, t);
    forall p | 0 <= p < |s.ready| ensures Holds(s'.ready[p], s'.place, InReady(p)) {
      HoldsAfter(s.ready[p], s.place, InReady(p), t);
    }
  }

  lemma UnlinkWaits(s: State, t: Tid)
    requires Lists(s) && t in s.place
    ensures WaitsHold(Unlink(s, t).waits, Unlink(s, t).place)
  {
    hide Holds, Without;
    var s' := Unlink(s, t);
    forall q | q in s.waits ensures Holds(s'.waits[q], s'.place, InWait(q)) {
      HoldsAfter(s.waits[q], s.place, InWait(q), t);
    }
  }

  lemma UnlinkLists(s: State, t: Tid)
    requires Lists(s) && t in s.place
    ensures Lists(Unlink(s, t)) && Unlink(s, t).place == s.place[t := Alone]
  {
    hide Holds, Without, Unlink, ReadyHolds, WaitsHold;
    UnlinkIs(s, t);
    UnlinkReady(s, t);
    UnlinkWaits(s, t);
    HoldsAfter(s.defunct, s.place, InDefunct, t);
  }

  /** The other lists do not see a thread that was alone go somewhere else. */
  lemma OthersHold(s: State, t: Tid, to: Place)
    requires Lists(s) && t in s.place && s.place[t] == Alone
    ensures forall p :: 0 <= p < |s.ready| && to != InReady(p) ==> Holds(s.ready[p], s.place[t := to], InReady(p))
    ensures forall q :: q in s.waits && to != InWait(q) ==> Holds(s.waits[q], s.place[t := to], InWait(q))
    ensures to != InDefunct ==> Holds(s.defunct, s.place[t := to], InDefunct)
  {
  }

  /** The thread goes to the end of a ready list. */
  function LinkReady(s: State, t: Tid, p: nat): State
    requires p < |s.ready|
  {
    s.(ready := s.ready[p := s.ready[p] + [t]], place := s.place[t := InReady(p)])
  }

  lemma LinkReadyLists(s: State, t: Tid, p: nat)
    requires Lists(s) && t in s.place && s.place[t] == Alone && p < |s.ready|
    ensures Lists(LinkReady(s, t, p))
  {
  }

  /** The thread goes into a wait list at position k, where rt_ipc_list_suspend puts it. */
  function LinkWait(s: State, t: Tid, q: Queue, k: nat): State
    requires q in s.waits && k <= |s.waits[q]|
  {
    s.(waits := s.waits[q := s.waits[q][..k] + [t] + s.waits[q][k..]], place := s.place[t := InWait(q)])
  }

  lemma LinkWaitLists(s: State, t: Tid, q: Queue, k: nat)
    requires Lists(s) && t in s.place && s.place[t] == Alone && q in s.waits && k <= |s.waits[q]|
    ensures Lists(LinkWait(s, t, q, k))
  {
    HoldsMore(s.waits[q], s.place, InWait(q), t, k);
    OthersHold(s, t, InWait(q));
  }

  function LinkDefunct(s: State, t: Tid): State {
    s.(defunct := [t] + s.defunct, place := s.place[t := InDefunct])
  }

  lemma LinkDefunctLists(s: State, t: Tid)
    requires Lists(s) && t in s.place && s.place[t] == Alone
    ensures Lists(LinkDefunct(s, t))
  {
  }
}
