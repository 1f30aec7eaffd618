/**
 What each thread operation does, seen from outside: the new control block, where the thread stands
 afterwards, and that nothing else has moved.
 */
module ThreadEffects {
  import opened NatLists
  import opened ReadyBitmap
  import opened Scheduler
  import opened ThreadOps

  // ---- where a thread stands -------------------------------------------------------------

  ghost predicate InNoReady(s: State, t: Tid) {
    forall p :: 0 <= p < |s.ready| ==> t !in s.ready[p]
  }

  ghost predicate InNoWait(s: State, t: Tid) {
    forall q :: q in s.waits ==> t !in s.waits[q]
  }

  ghost predicate Nowhere(s: State, t: Tid) {
    InNoReady(s, t) && InNoWait(s, t) && t !in s.defunct && t in s.place && s.place[t] == Alone
  }

  /** At the end of one ready list and in no other list. */
  ghost predicate AtEnd(s: State, t: Tid, p: nat) {
    && p < |s.ready| && s.ready[p] != [] && s.ready[p][|s.ready[p]| - 1] == t
    && (forall r :: 0 <= r < |s.ready| && r != p ==> t !in s.ready[r])
    && InNoWait(s, t) && t !in s.defunct && t in s.place && s.place[t] == InReady(p)
  }

  /** At position k of one wait list and in no other list. */
  ghost predicate WaitsAt(s: State, t: Tid, q: Queue, k: nat) {
    && q in s.waits && k < |s.waits[q]| && s.waits[q][k] == t
    && (forall r :: r in s.waits && r != q ==> t !in s.waits[r])
    && InNoReady(s, t) && t !in s.defunct && t in s.place && s.place[t] == InWait(q)
  }

  /** First of the threads to be cleaned up, and in no other list. */
  ghost predicate FirstDefunct(s: State, t: Tid) {
    && s.defunct != [] && s.defunct[0] == t
    && InNoReady(s, t) && InNoWait(s, t) && t in s.place && s.place[t] == InDefunct
  }

  /** No list is different but for thread t. */
  ghost predicate ListsBut(s: State, s': State, t: Tid) {
    && |s'.ready| == |s.ready| && s'.waits.Keys == s.waits.Keys
    && (forall p :: 0 <= p < |s.ready| ==> Without(s'.ready[p], t) == Without(s.ready[p], t))
    && (forall q :: q in s.waits ==> Without(s'.waits[q], t) == Without(s.waits[q], t))
    && Without(s'.defunct, t) == Without(s.defunct, t)
  }

  /** Nothing is different but for thread t. */
  ghost predicate SameBut(s: State, s': State, t: Tid) {
    && ListsBut(s, s', t)
    && s'.two == s.two && s'.current == s.current && s'.nest == s.nest
    && s'.threads.Keys == s.threads.Keys && s'.place.Keys == s.place.Keys
    && (forall x :: x in s.threads && x != t ==> s'.threads[x] == s.threads[x])
    && (forall x :: x in s.place && x != t ==> s'.place[x] == s.place[x])
  }

  lemma SameTwice(s: State, s1: State, s2: State, t: Tid)
    requires SameBut(s, s1, t) && SameBut(s1, s2, t)
    ensures SameBut(s, s2, t)
  {
    hide Without;
  }

  /** Only the control block of t and the bitmap differ. */
  lemma SameLists(s: State, s': State, t: Tid, c: Tcb)
    requires t in s.threads && s' == s.(threads := s.threads[t := c], bitmap := s'.bitmap)
    ensures SameBut(s, s', t)
    ensures Nowhere(s, t) ==> Nowhere(s', t)
    ensures forall p :: AtEnd(s, t, p) ==> AtEnd(s', t, p)
  {
    hide Without;
  }

  // ---- leaving a list --------------------------------------------------------------------

  lemma WithoutTwice(l: seq<nat>, t: nat)
    requires Distinct(l)
    ensures Without(Without(l, t), t) == Without(l, t) && t !in Without(l, t)
  {
    WithoutMembers(l, t, t);
    WithoutAbsent(Without(l, t), t);
  }

  /** A list of a good state, and the list without t. */
  lemma OneList(l: seq<Tid>, place: map<Tid, Place>, what: Place, t: Tid)
    requires Holds(l, place, what) && t in place
    ensures Distinct(l) && (t in l <==> place[t] == what)
    ensures Without(Without(l, t), t) == Without(l, t) && t !in Without(l, t)
    ensures place[t] != what ==> Without(l, t) == l
  {
    WithoutTwice(l, t);
    if place[t] != what {
      WithoutAbsent(l, t);
    }
  }

  lemma AllLists(s: State, t: Tid)
    requires Lists(s) && t in s.place
    ensures forall p :: 0 <= p < |s.ready| ==>
              var l := s.ready[p];
              && (t in l <==> s.place[t] == InReady(p)) && Without(Without(l, t), t) == Without(l, t) && t !in Without(l, t)
              && (s.place[t] != InReady(p) ==> Without(l, t) == l)
    ensures forall q :: q in s.waits ==>
              var l := s.waits[q];
              && (t in l <==> s.place[t] == InWait(q)) && Without(Without(l, t), t) == Without(l, t) && t !in Without(l, t)
              && (s.place[t] != InWait(q) ==> Without(l, t) == l)
    ensures var l := s.defunct;
            && (t in l <==> s.place[t] == InDefunct) && Without(Without(l, t), t) == Without(l, t) && t !in Without(l, t)
            && (s.place[t] != InDefunct ==> Without(l, t) == l)
  {
    hide Holds, Without;
    forall p | 0 <= p < |s.ready| ensures Holds(s.ready[p], s.place, InReady(p)) {
    }
    forall p | 0 <= p < |s.ready|
      ensures var l := s.ready[p];
              && (t in l <==> s.place[t] == InReady(p)) && Without(Without(l, t), t) == Without(l, t) && t !in Without(l, t)
              && (s.place[t] != InReady(p) ==> Without(l, t) == l)
    {
      OneList(s.ready[p], s.place, InReady(p), t);
    }
    forall q | q in s.waits
      ensures var l := s.waits[q];
              && (t in l <==> s.place[t] == InWait(q)) && Without(Without(l, t), t) == Without(l, t) && t !in Without(l, t)
              && (s.place[t] != InWait(q) ==> Without(l, t) == l)
    {
      OneList(s.waits[q], s.place, InWait(q), t);
    }
    OneList(s.defunct, s.place, InDefunct, t);
  }

  lemma Unlinked(s: State, t: Tid)
    requires Lists(s) && t in s.place
    ensures var s' := Unlink(s, t);
            SameBut(s, s', t) && Nowhere(s', t) && s'.threads == s.threads
  {
    hide Holds, Without, Unlink, ReadyHolds, WaitsHold, Lists;
    UnlinkIs(s, t);
    AllLists(s, t);
    UnlinkRest(s, t);
  }

  lemma UnlinkRest(s: State, t: Tid)
    requires t in s.place
    ensures var s' := Unlink(s, t);
            && s'.two == s.two && s'.threads == s.threads && s'.current == s.current && s'.nest == s.nest
            && s'.bitmap == s.bitmap
  {
    hide Without;
  }

  lemma Removed(s: State, t: Tid)
    requires Lists(s) && Fits(s, t)
    ensures var s' := Remove(s, t); SameBut(s, s', t) && Nowhere(s', t) && s'.threads == s.threads
  {
    hide SameBut, Nowhere, Lists, Unlink;
    Unlinked(s, t);
    var s1 := Unlink(s, t);
    BitmapAside(s, s1, t, Remove(s, t).bitmap);
  }

  lemma BitmapAside(s: State, s1: State, t: Tid, bm: Bitmap)
    requires SameBut(s, s1, t) && Nowhere(s1, t)
    ensures SameBut(s, s1.(bitmap := bm), t) && Nowhere(s1.(bitmap := bm), t)
  {
    hide Without;
  }

  // ---- joining a list --------------------------------------------------------------------

  lemma {:induction false} WithoutJoined(a: seq<nat>, b: seq<nat>, t: nat)
    requires t !in a
    ensures Without(a + [t] + b, t) == a + b
    decreases |a|
  {
    var l := a + [t] + b;
    if a == [] {
      assert l[1..] == b;
    } else {
      assert l[1..] == a[1..] + [t] + b;
      WithoutJoined(a[1..], b, t);
    }
  }

  /** A thread that is in no list joins one list at position k. */
  lemma Joined(l: seq<nat>, t: nat, k: nat)
    requires t !in l && k <= |l|
    ensures Without(l[..k] + [t] + l[k..], t) == l == Without(l, t)
  {
    hide *;
    Halves(l, t, k);
    WithoutJoined(l[..k], l[k..], t);
    WithoutAbsent(l, t);
  }

  lemma Halves(l: seq<nat>, t: nat, k: nat)
    requires t !in l && k <= |l|
    ensures t !in l[..k] && l[..k] + l[k..] == l
  {
  }

  lemma JoinedEnd(l: seq<nat>, t: nat)
    requires t !in l
    ensures Without(l + [t], t) == l == Without(l, t)
  {
    Joined(l, t, |l|);
    assert l[..|l|] + [t] + l[|l|..] == l + [t];
  }

  lemma Inserted(s: State, t: Tid)
    requires Nowhere(s, t) && Fits(s, t)
    ensures var s' := Insert(s, t); var c := s.threads[t];
            SameBut(s, s', t) && AtEnd(s', t, c.prio) && s'.threads[t] == c.(stat := Ready)
  {
    hide Without, MasksOf, SetBits;
    var p := s.threads[t].prio;
    JoinedEnd(s.ready[p], t);
  }

  lemma JoinsWait(s: State, t: Tid, q: Queue, k: nat)
    requires Nowhere(s, t) && q in s.waits && k <= |s.waits[q]|
    ensures var s' := LinkWait(s, t, q, k); SameBut(s, s', t) && WaitsAt(s', t, q, k) && s'.threads == s.threads
  {
    hide Without;
    Joined(s.waits[q], t, k);
  }

  lemma JoinsDefunct(s: State, t: Tid)
    requires Nowhere(s, t)
    ensures var s' := LinkDefunct(s, t); SameBut(s, s', t) && FirstDefunct(s', t) && s'.threads == s.threads
  {
    hide Without;
    Joined(s.defunct, t, 0);
    assert s.defunct[..0] + [t] + s.defunct[0..] == [t] + s.defunct;
  }

  // ---- the operations --------------------------------------------------------------------

  /** A thread made ready stands last among those of its priority. */
  lemma Woken(s: State, t: Tid)
    requires Sleeping(s, t)
    ensures var s' := Wake(s, t);
            SameBut(s, s', t) && AtEnd(s', t, s.threads[t].prio) && s'.threads[t] == s.threads[t].(stat := Ready)
  {
    hide SameBut, AtEnd, Nowhere, Lists, BitmapOk, But, Unlink, Insert, MasksOf;
    var s1 := Unlink(s, t);
    Unlinked(s, t);
    UnlinkSleeping(s, t);
    FitsIs(s1, t);
    Inserted(s1, t);
    SameTwice(s, s1, Insert(s1, t), t);
  }

  /** rt_thread_startup: the initial priority and its masks, READY, last in the list of that priority. */
  lemma StartupDoes(s: State, t: Tid)
    requires Inv(s) && t in s.threads && s.threads[t].stat == Fresh
    ensures var s' := Next(s, Startup(t)); var p := s.threads[t].init;
            && SameBut(s, s', t) && AtEnd(s', t, p)
            && s'.threads[t] == Tcb(Ready, p, p, MasksOf(s.two, p))
  {
    hide SameBut, AtEnd, Sleeping, Wake, MasksOf, Inv;
    var s1 := Started(s, t);
    StartedIs(s, t);
    SameLists(s, s1, t, s1.threads[t]);
    StartedSleeps(s, t);
    Woken(s1, t);
    SameTwice(s, s1, Wake(s1, t), t);
  }

  /** rt_thread_resume: a suspended thread becomes READY and stands last in the list of its priority; any
      other is left alone. */
  lemma ResumeDoes(s: State, t: Tid)
    requires Inv(s) && t in s.threads
    ensures var s' := Next(s, Resume(t)); var c := s.threads[t];
            if c.stat != Suspended then s' == s
            else SameBut(s, s', t) && AtEnd(s', t, c.prio) && s'.threads[t] == c.(stat := Ready)
  {
    hide SameBut, AtEnd, Sleeping, Wake, Inv;
    if s.threads[t].stat == Suspended {
      SuspendedSleeps(s, t);
      Woken(s, t);
    }
  }

  /** rt_thread_timeout does the same. */
  lemma TimeoutDoes(s: State, t: Tid)
    requires Inv(s) && Legal(s, Timeout(t))
    ensures var s' := Next(s, Timeout(t)); var c := s.threads[t];
            SameBut(s, s', t) && AtEnd(s', t, c.prio) && s'.threads[t] == c.(stat := Ready)
  {
    hide SameBut, AtEnd, Sleeping, Wake, Inv;
    SuspendedSleeps(s, t);
    Woken(s, t);
  }

  /** rt_thread_suspend: a READY thread leaves its list; any other is left alone. */
  lemma SuspendDoes(s: State, t: Tid)
    requires Inv(s) && t in s.threads
    ensures var s' := Next(s, Suspend(t)); var c := s.threads[t];
            if c.stat != Ready then s' == s
            else SameBut(s, s', t) && Nowhere(s', t) && s'.threads[t] == c.(stat := Suspended)
  {
    hide SameBut, Nowhere, Remove, Inv;
    if s.threads[t].stat == Ready {
      LeavesList(s, t, Suspended);
    }
  }

  /** A started thread leaves its list, with another state. */
  lemma LeavesList(s: State, t: Tid, stat: Stat)
    requires Inv(s) && t in s.threads && s.threads[t].stat != Fresh
    ensures var s1 := SetStat(s, t, stat);
            && Fits(s1, t)
            && (var s' := Remove(s1, t);
               SameBut(s, s', t) && Nowhere(s', t) && s'.threads == s.threads[t := s.threads[t].(stat := stat)])
  {
    hide SameBut, Nowhere, Remove;
    var s1 := SetStat(s, t, stat);
    RemoveStarted(s, t, stat);
    SameLists(s, s1, t, s1.threads[t]);
    assert Lists(s1);
    Removed(s1, t);
    SameTwice(s, s1, Remove(s1, t), t);
  }

  /** rt_ipc_list_suspend: a READY thread leaves its list and stands at position k of the wait list. */
  lemma WaitOnDoes(s: State, t: Tid, q: Queue, k: nat)
    requires Inv(s) && Legal(s, WaitOn(t, q, k))
    ensures var s' := Next(s, WaitOn(t, q, k));
            SameBut(s, s', t) && WaitsAt(s', t, q, k) && s'.threads[t] == s.threads[t].(stat := Suspended)
  {
    hide SameBut, Nowhere, WaitsAt, Remove, LinkWait, Inv;
    var s1 := SuspendThread(s, t);
    LeavesList(s, t, Suspended);
    WaitsSame(s, t);
    JoinsWait(s1, t, q, k);
    SameTwice(s, s1, LinkWait(s1, t, q, k), t);
  }

  /** RT_THREAD_CTRL_CHANGE_PRIORITY: whatever the state of the thread, it has the new priority and its
      masks, and neither its state nor its initial priority is touched. A READY thread stands last in
      the list of the new priority, any other stays where it is. */
  lemma ChangePriorityDoes(s: State, t: Tid, p: nat)
    requires Inv(s) && t in s.threads && p < |s.ready|
    ensures var s' := Next(s, ChangePriority(t, p)); var c := s.threads[t];
            && SameBut(s, s', t) && s'.threads[t] == Tcb(c.stat, p, c.init, MasksOf(s.two, p))
            && (if c.stat == Ready then AtEnd(s', t, p)
                else s'.ready == s.ready && s'.waits == s.waits && s'.defunct == s.defunct && s'.place == s.place)
  {
    hide SameBut, AtEnd, Nowhere, Remove, Insert, MasksOf, Inv;
    var c := s.threads[t];
    if c.stat == Ready {
      LeavesList(s, t, Ready);
      var s0 := Remove(SetStat(s, t, Ready), t);
      var s1 := SetPrio(s0, t, p);
      SameLists(s0, s1, t, s1.threads[t]);
      TwoKept(s, s0, t);
      MovedFits(s, t, p);
      Inserted(s1, t);
      SameTwice(s, s0, s1, t);
      SameTwice(s, s1, Insert(s1, t), t);
    } else {
      SameLists(s, SetPrio(s, t, p), t, c.(prio := p, masks := MasksOf(s.two, p)));
    }
  }

  lemma TwoKept(s: State, s': State, t: Tid)
    requires SameBut(s, s', t)
    ensures s'.two == s.two
  {
    hide Without;
  }

  /** rt_thread_delete, rt_thread_detach and the end of a thread: closed, off its list, and first of the
      threads to be cleaned up where it is kept for that. */
  lemma CloseDoes(s: State, t: Tid, keep: bool)
    requires Inv(s) && Legal(s, Close(t, keep))
    ensures var s' := Next(s, Close(t, keep));
            && SameBut(s, s', t) && s'.threads[t] == s.threads[t].(stat := Closed)
            && (if keep then FirstDefunct(s', t) else Nowhere(s', t))
  {
    hide SameBut, Nowhere, FirstDefunct, Remove, LinkDefunct, Inv;
    LeavesList(s, t, Closed);
    var s1 := Remove(SetStat(s, t, Closed), t);
    if keep {
      JoinsDefunct(s1, t);
      SameTwice(s, s1, LinkDefunct(s1, t), t);
    }
  }

  /** rt_thread_yield: a READY running thread that is not alone in its list goes to the end of it; no
      control block is touched. */
  lemma YieldDoes(s: State)
    requires Inv(s)
    ensures var s', t := Next(s, Yield), s.current;
            && s'.threads == s.threads
            && (if t in s.threads && s.threads[t].stat == Ready && |s.ready[s.threads[t].prio]| > 1
                then SameBut(s, s', t) && AtEnd(s', t, s.threads[t].prio)
                else s' == s)
  {
    hide SameBut, AtEnd, Without, Holds;
    if Shares(s) {
      ReadyPlace(s, s.current);
      Rotated(s, s.current, s.threads[s.current].prio);
    }
  }

  lemma Rotated(s: State, t: Tid, p: nat)
    requires Lists(s) && t in s.place && s.place[t] == InReady(p) && p < |s.ready|
    ensures var s' := s.(ready := s.ready[p := Without(s.ready[p], t) + [t]]); SameBut(s, s', t) && AtEnd(s', t, p)
  {
    hide Without, Holds, Lists;
    AllLists(s, t);
    JoinedEnd(Without(s.ready[p], t), t);
  }

  /** rt_enter_critical and rt_exit_critical: only the lock depth changes, but the last unlock also makes
      the first thread of the most urgent list the running one. */
  lemma CriticalDoes(s: State, t: Tid)
    requires Inv(s) && SomeReady(s)
    ensures Next(s, Enter) == s.(nest := s.nest + 1)
    ensures s.nest > 1 ==> Next(s, Exit) == s.(nest := s.nest - 1)
    ensures s.nest <= 1 ==>
              var s' := Next(s, Exit); var c := s'.current;
              && s' == s.(nest := 0, current := c)
              && c in s.threads && s.threads[c].stat == Ready && s.ready[s.threads[c].prio][0] == c
              && (t in s.threads && s.threads[t].stat == Ready ==> s.threads[c].prio <= s.threads[t].prio)
  {
    hide Inv;
    if s.nest <= 1 {
      NestFree(s, 0);
      ScheduleRunsMostUrgent(s.(nest := 0), t);
    }
  }
}
