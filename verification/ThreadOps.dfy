/**
 The thread operations and the scheduler's choice, and what every run of them keeps.
 */
module ThreadOps {
  import opened NatLists
  import opened ReadyBitmap
  import opened Scheduler

  predicate Known(s: State, t: Tid) {
    t in s.threads && t in s.place
  }

  /** The masks of a thread point into the bitmap. */
  predicate Fits(s: State, t: Tid) {
    Known(s, t) && s.threads[t].prio < |s.ready| && InTable(s.bitmap, s.threads[t].masks)
  }

  // ---- the operations --------------------------------------------------------------------

  /** rt_schedule_insert_thread */
  function Insert(s: State, t: Tid): State
    requires Fits(s, t)
  {
    var c := s.threads[t];
    LinkReady(s, t, c.prio).(threads := s.threads[t := c.(stat := Ready)], bitmap := SetBits(s.bitmap, c.masks))
  }

  /** rt_schedule_remove_thread */
  function Remove(s: State, t: Tid): State
    requires Fits(s, t)
  {
    var c, s1 := s.threads[t], Unlink(s, t);
    if c.prio < |s1.ready| && s1.ready[c.prio] == [] then s1.(bitmap := ClearBits(s.bitmap, c.masks)) else s1
  }

  function SetStat(s: State, t: Tid, stat: Stat): State
    requires t in s.threads
  {
    s.(threads := s.threads[t := s.threads[t].(stat := stat)])
  }

  function SetPrio(s: State, t: Tid, p: nat): State
    requires t in s.threads
  {
    s.(threads := s.threads[t := s.threads[t].(prio := p, masks := MasksOf(s.two, p))])
  }

  datatype Op =
    | Startup(t: Tid)
    | Resume(t: Tid)
    | Suspend(t: Tid)
    | WaitOn(t: Tid, queue: Queue, k: nat)
    | Timeout(t: Tid)
    | ChangePriority(t: Tid, prio: nat)
    | Yield
    | Close(t: Tid, keep: bool)
    | Schedule
    | Enter
    | Exit

  // ---- everything but one thread ---------------------------------------------------------

  ghost predicate ThreadsBut(two: bool, levels: nat, threads: map<Tid, Tcb>, place: map<Tid, Place>, t: Tid) {
    && threads.Keys == place.Keys && t in threads
    && forall x :: x in threads && x != t ==> ThreadOk(two, levels, threads[x], place[x])
  }

  lemma ButSet(two: bool, levels: nat, threads: map<Tid, Tcb>, place: map<Tid, Place>, t: Tid, c: Tcb, w: Place)
    requires ThreadsBut(two, levels, threads, place, t)
    ensures ThreadsBut(two, levels, threads[t := c], place[t := w], t)
    ensures ThreadsBut(two, levels, threads[t := c], place, t)
    ensures ThreadsBut(two, levels, threads, place[t := w], t)
    ensures ThreadOk(two, levels, c, w) ==> ThreadsOk(two, levels, threads[t := c], place[t := w])
  {
  }

  ghost predicate But(s: State, t: Tid) {
    ThreadsBut(s.two, |s.ready|, s.threads, s.place, t)
  }

  /** All is well but for the state of thread t, which is in no list. */
  ghost predicate Between(s: State, t: Tid) {
    && Core(s) && But(s, t) && Known(s, t)
    && s.place[t] == Alone && s.threads[t].prio < |s.ready| && s.threads[t].init < |s.ready|
  }

  lemma FitsIs(s: State, t: Tid)
    requires Core(s) && Known(s, t)
    requires s.threads[t].prio < |s.ready| && s.threads[t].masks == MasksOf(s.two, s.threads[t].prio)
    ensures Fits(s, t)
  {
  }

  lemma CoreIs(s: State)
    requires Lists(s) && BitmapOk(s) && |s.ready| == (if s.two then 256 else 32)
    ensures Core(s)
  {
  }

  /** Only the place of t changes. */
  lemma ButPlace(s: State, s': State, t: Tid, w: Place)
    requires But(s, t) && s'.threads == s.threads && s'.place == s.place[t := w] && s'.two == s.two && |s'.ready| == |s.ready|
    ensures But(s', t) && Known(s', t)
  {
  }

  lemma Settles(two: bool, levels: nat, c: Tcb, w: Place)
    requires c.prio < levels && c.init < levels && (c.stat != Fresh ==> c.masks == MasksOf(two, c.prio))
    ensures c.stat == Suspended && (w == Alone || w.InWait?) ==> ThreadOk(two, levels, c, w)
    ensures c.stat == Closed && (w == Alone || w == InDefunct) ==> ThreadOk(two, levels, c, w)
    ensures c.stat == Fresh && w == Alone ==> ThreadOk(two, levels, c, w)
  {
  }

  /** A thread of a good state. */
  lemma OfThread(s: State, t: Tid)
    requires Inv(s) && t in s.threads
    ensures Core(s) && But(s, t) && t in s.place && Known(s, t) && ThreadOk(s.two, |s.ready|, s.threads[t], s.place[t])
  {
  }

  /** Setting the bits of a priority whose list gets a thread. */
  lemma SetAgrees(bm: Bitmap, two: bool, busy: seq<bool>, p: nat)
    requires bm.two == two && Agrees(bm, busy) && p < |busy|
    ensures InTable(bm, MasksOf(two, p)) && Agrees(SetBits(bm, MasksOf(two, p)), busy[p := true])
  {
    if two {
      TwoLevelSet(bm, busy, p);
    } else {
      OneLevelSet(bm, busy, p);
    }
  }

  lemma ClearAgrees(bm: Bitmap, two: bool, busy: seq<bool>, p: nat)
    requires bm.two == two && Agrees(bm, busy) && p < |busy|
    ensures InTable(bm, MasksOf(two, p)) && Agrees(ClearBits(bm, MasksOf(two, p)), busy[p := false])
    ensures ClearBits(bm, MasksOf(two, p)).two == two
  {
    if two {
      TwoLevelClear(bm, busy, p);
    } else {
      OneLevelClear(bm, busy, p);
    }
  }

  lemma BusyAfter(ready: seq<seq<Tid>>, ready': seq<seq<Tid>>, p: nat)
    requires |ready'| == |ready| && p < |ready| && forall r :: 0 <= r < |ready| && r != p ==> ready'[r] == ready[r]
    ensures Busy(ready') == Busy(ready)[p := ready'[p] != []]
  {
  }

  lemma InsertLists(s: State, t: Tid)
    requires Lists(s) && Fits(s, t) && s.place[t] == Alone
    ensures Lists(Insert(s, t))
  {
    LinkReadyLists(s, t, s.threads[t].prio);
  }

  lemma InsertBitmap(s: State, t: Tid)
    requires BitmapOk(s) && Fits(s, t) && s.threads[t].masks == MasksOf(s.two, s.threads[t].prio)
    ensures BitmapOk(Insert(s, t))
  {
    var p := s.threads[t].prio;
    SetAgrees(s.bitmap, s.two, Busy(s.ready), p);
  }

  /** rt_schedule_insert_thread completes an operation. */
  lemma InsertKeeps(s: State, t: Tid)
    requires Between(s, t) && s.threads[t].masks == MasksOf(s.two, s.threads[t].prio)
    ensures Fits(s, t) && Inv(Insert(s, t))
  {
    FitsIs(s, t);
    InsertLists(s, t);
    InsertBitmap(s, t);
  }

  lemma RemoveFields(s: State, t: Tid)
    requires Lists(s) && Fits(s, t)
    ensures var s' := Remove(s, t);
            && s'.two == s.two && |s'.ready| == |s.ready| && s'.threads == s.threads && s'.place == s.place[t := Alone]
            && s'.current == s.current && s'.nest == s.nest && Lists(s')
  {
    hide ReadyHolds, WaitsHold, Holds;
    UnlinkLists(s, t);
  }

  /** rt_schedule_remove_thread begins one. */
  lemma RemoveKeeps(s: State, t: Tid)
    requires Core(s) && But(s, t) && Known(s, t)
    requires var c := s.threads[t];
             && c.prio < |s.ready| && c.init < |s.ready| && c.masks == MasksOf(s.two, c.prio)
             && (s.place[t].InReady? ==> s.place[t].prio == c.prio)
    ensures Fits(s, t) && Between(Remove(s, t), t) && Remove(s, t).threads == s.threads && Remove(s, t).two == s.two
    ensures |Remove(s, t).ready| == |s.ready|
  {
    FitsIs(s, t);
    RemoveFields(s, t);
    RemoveBitmap(s, t);
  }

  lemma RemoveBitmap(s: State, t: Tid)
    requires Core(s) && Fits(s, t)
    requires s.threads[t].masks == MasksOf(s.two, s.threads[t].prio)
    requires s.place[t].InReady? ==> s.place[t].prio == s.threads[t].prio
    ensures BitmapOk(Remove(s, t)) && |Remove(s, t).ready| == |s.ready|
  {
    var p, s1, s' := s.threads[t].prio, Unlink(s, t), Remove(s, t);
    BusyAfter(s.ready, s1.ready, p);
    ClearAgrees(s.bitmap, s.two, Busy(s.ready), p);
  }

  // ---- one operation at a time -----------------------------------------------------------

  /** Thread t is in no ready list, and its masks are right. */
  ghost predicate Sleeping(s: State, t: Tid) {
    && Core(s) && But(s, t) && Known(s, t)
    && !s.place[t].InReady? && s.threads[t].prio < |s.ready| && s.threads[t].init < |s.ready|
    && s.threads[t].masks == MasksOf(s.two, s.threads[t].prio)
  }

  lemma UnlinkSleeping(s: State, t: Tid)
    requires Sleeping(s, t)
    ensures Between(Unlink(s, t), t) && Unlink(s, t).threads == s.threads && Unlink(s, t).two == s.two
  {
    hide ReadyHolds, WaitsHold, Holds, Agrees, MasksOf, ThreadsBut;
    UnlinkLists(s, t);
    ButSet(s.two, |s.ready|, s.threads, s.place, t, s.threads[t], Alone);
  }

  /** Out of the list it waits in, into the ready list. */
  ghost function Wake(s: State, t: Tid): State
    requires Sleeping(s, t)
  {
    UnlinkSleeping(s, t);
    FitsIs(Unlink(s, t), t);
    Insert(Unlink(s, t), t)
  }

  lemma WakeKeeps(s: State, t: Tid)
    requires Sleeping(s, t)
    ensures Inv(Wake(s, t))
  {
    UnlinkSleeping(s, t);
    InsertKeeps(Unlink(s, t), t);
  }

  lemma SuspendedSleeps(s: State, t: Tid)
    requires Inv(s) && t in s.threads && s.threads[t].stat == Suspended
    ensures Sleeping(s, t)
  {
  }

  /** Only the control block of t changes. */
  lemma TcbChanges(s: State, t: Tid, c: Tcb)
    requires Core(s) && But(s, t)
    ensures var s' := s.(threads := s.threads[t := c]); Core(s') && But(s', t) && Known(s', t)
  {
  }

  /** rt_thread_startup: the priority and the masks are set, then the thread is resumed. */
  ghost function Started(s: State, t: Tid): State
    requires t in s.threads
  {
    SetStat(SetPrio(s, t, s.threads[t].init), t, Suspended)
  }

  lemma StartedSleeps(s: State, t: Tid)
    requires Inv(s) && t in s.threads && s.threads[t].stat == Fresh
    ensures Sleeping(Started(s, t), t)
  {
    var c := s.threads[t];
    var c' := Tcb(Suspended, c.init, c.init, MasksOf(s.two, c.init));
    StartedIs(s, t);
    TcbChanges(s, t, c');
  }

  lemma StartedIs(s: State, t: Tid)
    requires t in s.threads
    ensures Started(s, t) == s.(threads := s.threads[t := Tcb(Suspended, s.threads[t].init, s.threads[t].init, MasksOf(s.two, s.threads[t].init))])
  {
  }

  /** A started thread leaves the list it is in. */
  lemma RemoveStarted(s: State, t: Tid, stat: Stat)
    requires Inv(s) && t in s.threads && s.threads[t].stat != Fresh
    ensures var s1 := SetStat(s, t, stat);
            Fits(s1, t) && Between(Remove(s1, t), t) && Remove(s1, t).threads == s1.threads && Remove(s1, t).two == s.two
    ensures |Remove(SetStat(s, t, stat), t).ready| == |s.ready|
  {
    TcbChanges(s, t, s.threads[t].(stat := stat));
    RemoveKeeps(SetStat(s, t, stat), t);
  }

  /** rt_thread_suspend */
  ghost function SuspendThread(s: State, t: Tid): State
    requires Inv(s) && t in s.threads && s.threads[t].stat == Ready
  {
    RemoveStarted(s, t, Suspended);
    Remove(SetStat(s, t, Suspended), t)
  }

  lemma BetweenParts(s: State, t: Tid)
    requires Between(s, t)
    ensures Core(s) && But(s, t) && Known(s, t) && s.place[t] == Alone && s.threads[t].prio < |s.ready| && s.threads[t].init < |s.ready|
  {
  }

  /** A started thread that has left its list is suspended or closed. */
  lemma Settle(s: State, s': State, t: Tid)
    requires Inv(s) && t in s.threads && s.threads[t].stat != Fresh && Between(s', t) && s'.two == s.two && |s'.ready| == |s.ready|
    requires t in s'.threads && s'.threads[t] == s.threads[t].(stat := s'.threads[t].stat) && s'.threads[t].stat in {Suspended, Closed}
    ensures Inv(s')
  {
  }

  lemma SuspendKeeps(s: State, t: Tid)
    requires Inv(s) && t in s.threads && s.threads[t].stat == Ready
    ensures Inv(SuspendThread(s, t)) && t in SuspendThread(s, t).place && SuspendThread(s, t).place[t] == Alone
    ensures SuspendThread(s, t).threads == s.threads[t := s.threads[t].(stat := Suspended)]
  {
    RemoveStarted(s, t, Suspended);
    var s' := SuspendThread(s, t);
    Settle(s, s', t);
    BetweenParts(s', t);
  }

  lemma WaitKeeps(s: State, t: Tid, q: Queue, k: nat)
    requires Inv(s) && t in s.threads && s.threads[t].stat == Suspended && t in s.place && s.place[t] == Alone
    requires q in s.waits && k <= |s.waits[q]|
    ensures Inv(LinkWait(s, t, q, k))
  {
    var s' := LinkWait(s, t, q, k);
    LinkWaitLists(s, t, q, k);
    CoreIs(s');
    ButPlace(s, s', t, InWait(q));
    Settles(s.two, |s.ready|, s.threads[t], InWait(q));
  }

  /** rt_thread_control with RT_THREAD_CTRL_CHANGE_PRIORITY */
  ghost function Changed(s: State, t: Tid, p: nat): State
    requires Inv(s) && t in s.threads && p < |s.ready|
  {
    if s.threads[t].stat == Ready then
      MovedFits(s, t, p);
      Insert(Moved(s, t, p), t)
    else SetPrio(s, t, p)
  }

  /** A ready thread off its list, with its new priority. */
  ghost function Moved(s: State, t: Tid, p: nat): State
    requires Inv(s) && t in s.threads && s.threads[t].stat == Ready
  {
    RemoveStarted(s, t, Ready);
    SetPrio(Remove(SetStat(s, t, Ready), t), t, p)
  }

  lemma MovedFits(s: State, t: Tid, p: nat)
    requires Inv(s) && t in s.threads && s.threads[t].stat == Ready && p < |s.ready|
    ensures var s1 := Moved(s, t, p);
            Between(s1, t) && s1.threads[t].masks == MasksOf(s1.two, s1.threads[t].prio) && Fits(s1, t)
  {
    RemoveStarted(s, t, Ready);
    var s0 := Remove(SetStat(s, t, Ready), t);
    TcbChanges(s0, t, s0.threads[t].(prio := p, masks := MasksOf(s0.two, p)));
    FitsIs(Moved(s, t, p), t);
  }

  lemma ChangeKeeps(s: State, t: Tid, p: nat)
    requires Inv(s) && t in s.threads && p < |s.ready|
    ensures Inv(Changed(s, t, p))
  {
    if s.threads[t].stat == Ready {
      MovedFits(s, t, p);
      InsertKeeps(Moved(s, t, p), t);
    } else {
      PrioKeeps(s, t, p);
    }
  }

  lemma PrioKeeps(s: State, t: Tid, p: nat)
    requires Inv(s) && t in s.threads && s.threads[t].stat != Ready && p < |s.ready|
    ensures Inv(SetPrio(s, t, p))
  {
    OfThread(s, t);
    var c := s.threads[t].(prio := p, masks := MasksOf(s.two, p));
    TcbChanges(s, t, c);
  }

  /** The running thread is ready and not alone in its list. */
  predicate Shares(s: State) {
    var t := s.current;
    Known(s, t) && s.threads[t].stat == Ready && s.threads[t].prio < |s.ready| && |s.ready[s.threads[t].prio]| > 1
  }

  /** rt_thread_yield: behind the others of the same priority. */
  function Yielded(s: State): State {
    if Shares(s) then
      var t, p := s.current, s.threads[s.current].prio;
      s.(ready := s.ready[p := Without(s.ready[p], t) + [t]])
    else s
  }

  lemma YieldKeeps(s: State)
    requires Inv(s)
    ensures Inv(Yielded(s))
  {
    hide ThreadsOk, BitmapOk, ReadyHolds, WaitsHold, Holds, Without;
    var t, s' := s.current, Yielded(s);
    if Shares(s) {
      var p := s.threads[t].prio;
      ReadyPlace(s, t);
      YieldReady(s, t, p);
      YieldBitmap(s, s', p);
    }
  }

  lemma YieldReady(s: State, t: Tid, p: nat)
    requires ReadyHolds(s.ready, s.place) && p < |s.ready| && t in s.place && s.place[t] == InReady(p)
    ensures ReadyHolds(s.ready[p := Without(s.ready[p], t) + [t]], s.place)
  {
    RotateHolds(s.ready[p], s.place, InReady(p), t);
  }

  lemma YieldBitmap(s: State, s': State, p: nat)
    requires BitmapOk(s) && s'.two == s.two && s'.bitmap == s.bitmap && p < |s.ready| && s.ready[p] != []
    requires |s'.ready| == |s.ready| && s'.ready[p] != [] && forall r :: 0 <= r < |s.ready| && r != p ==> s'.ready[r] == s.ready[r]
    ensures BitmapOk(s')
  {
  }

  lemma RotateHolds(list: seq<Tid>, place: map<Tid, Place>, what: Place, t: Tid)
    requires Holds(list, place, what) && t in list
    ensures Holds(Without(list, t) + [t], place, what)
  {
    DistinctWithout(list, t);
    var r := Without(list, t);
    forall x ensures x in r <==> x in list && x != t {
      WithoutMembers(list, t, x);
    }
  }

  /** rt_thread_delete, rt_thread_detach and the end of a thread. */
  ghost function CloseThread(s: State, t: Tid, keep: bool): State
    requires Inv(s) && t in s.threads && s.threads[t].stat != Fresh
  {
    RemoveStarted(s, t, Closed);
    var s1 := Remove(SetStat(s, t, Closed), t);
    if keep then LinkDefunct(s1, t) else s1
  }

  lemma CloseKeeps(s: State, t: Tid, keep: bool)
    requires Inv(s) && t in s.threads && s.threads[t].stat != Fresh
    ensures Inv(CloseThread(s, t, keep))
  {
    RemoveStarted(s, t, Closed);
    var s1 := Remove(SetStat(s, t, Closed), t);
    Settle(s, s1, t);
    BetweenParts(s1, t);
    if keep {
      DefunctKeeps(s1, t);
    }
  }

  lemma DefunctKeeps(s: State, t: Tid)
    requires Inv(s) && t in s.threads && s.threads[t].stat == Closed && t in s.place && s.place[t] == Alone
    ensures Inv(LinkDefunct(s, t))
  {
    var s' := LinkDefunct(s, t);
    assert s'.threads == s.threads && s'.place == s.place[t := InDefunct] && s'.two == s.two && s'.ready == s.ready && s'.bitmap == s.bitmap;
    LinkDefunctLists(s, t);
    CoreIs(s');
    ButPlace(s, s', t, InDefunct);
    Settles(s.two, |s.ready|, s.threads[t], InDefunct);
  }

  // ---- the scheduler ---------------------------------------------------------------------

  ghost predicate SomeReady(s: State) {
    exists p :: 0 <= p < |s.ready| && s.ready[p] != []
  }

  /** rt_schedule: unless locked, the first thread of the most urgent list runs. */
  ghost function Scheduled(s: State): State
    requires Inv(s) && SomeReady(s)
  {
    if s.nest != 0 then s
    else
      ChoiceIs(s);
      s.(current := s.ready[Highest(s.bitmap)][0])
  }

  /** The bitmap search finds the most urgent list that is not empty. */
  lemma ChoiceIs(s: State)
    requires Inv(s) && SomeReady(s)
    ensures s.bitmap.group < 0x1_0000_0000 && (forall n :: 0 <= n < |s.bitmap.table| ==> s.bitmap.table[n] < 256)
    ensures s.bitmap.two ==> 0 < Ffs(s.bitmap.group) <= |s.bitmap.table|
    ensures var h := Highest(s.bitmap);
            0 <= h < |s.ready| && s.ready[h] != [] && forall p :: 0 <= p < h ==> s.ready[p] == []
  {
    var q :| 0 <= q < |s.ready| && s.ready[q] != [];
    HighestIs(s.bitmap, Busy(s.ready), q);
  }

  function Entered(s: State): State {
    s.(nest := s.nest + 1)
  }

  /** rt_exit_critical: the last unlock schedules. */
  ghost function Exited(s: State): State
    requires Inv(s) && SomeReady(s)
  {
    if s.nest <= 1 then
      NestFree(s, 0);
      Scheduled(s.(nest := 0))
    else s.(nest := s.nest - 1)
  }

  lemma NestFree(s: State, n: nat)
    requires Inv(s)
    ensures Inv(s.(nest := n)) && (SomeReady(s) ==> SomeReady(s.(nest := n)))
  {
  }

  lemma ScheduleKeeps(s: State)
    requires Inv(s) && SomeReady(s)
    ensures Inv(Scheduled(s))
  {
  }

  // ---- whole runs ------------------------------------------------------------------------

  /** What the operations demand: an idle thread is always ready when the scheduler runs, only
      started threads are closed, and only suspended ones time out. */
  ghost predicate Legal(s: State, op: Op) {
    match op
    case Startup(t) => t in s.threads && s.threads[t].stat == Fresh
    case Resume(t) => t in s.threads
    case Suspend(t) => t in s.threads
    case WaitOn(t, q, k) => t in s.threads && s.threads[t].stat == Ready && q in s.waits && k <= |s.waits[q]|
    case Timeout(t) => t in s.threads && s.threads[t].stat == Suspended
    case ChangePriority(t, p) => t in s.threads && p < |s.ready|
    case Close(t, _) => t in s.threads && s.threads[t].stat != Fresh
    case Yield => true
    case Schedule => SomeReady(s)
    case Enter => true
    case Exit => SomeReady(s)
  }

  /** rt_ipc_list_suspend: suspend the thread and put it into the wait list. */
  ghost function Waiting(s: State, t: Tid, q: Queue, k: nat): State
    requires Inv(s) && t in s.threads && s.threads[t].stat == Ready && q in s.waits && k <= |s.waits[q]|
  {
    var s1 := SuspendThread(s, t);
    WaitsSame(s, t);
    LinkWait(s1, t, q, k)
  }

  lemma WaitsSame(s: State, t: Tid)
    requires Inv(s) && t in s.threads && s.threads[t].stat == Ready
    ensures SuspendThread(s, t).waits == s.waits
  {
    hide Inv, Between, Without, ClearBits, MasksOf;
    ReadyPlace(s, t);
  }

  lemma ReadyPlace(s: State, t: Tid)
    requires Inv(s) && t in s.threads && s.threads[t].stat == Ready
    ensures t in s.place && s.place[t] == InReady(s.threads[t].prio)
  {
  }

  ghost function StartupThread(s: State, t: Tid): State
    requires Inv(s) && t in s.threads && s.threads[t].stat == Fresh
  {
    StartedSleeps(s, t);
    Wake(Started(s, t), t)
  }

  /** rt_thread_resume of a suspended thread, and rt_thread_timeout. */
  ghost function ResumeThread(s: State, t: Tid): State
    requires Inv(s) && t in s.threads && s.threads[t].stat == Suspended
  {
    SuspendedSleeps(s, t);
    Wake(s, t)
  }

  ghost function Next(s: State, op: Op): State
    requires Inv(s) && Legal(s, op)
  {
    hide Inv;
    match op
    case Startup(t) => StartupThread(s, t)
    case Resume(t) => if s.threads[t].stat != Suspended then s else ResumeThread(s, t)
    case Suspend(t) => if s.threads[t].stat != Ready then s else SuspendThread(s, t)
    case WaitOn(t, q, k) => Waiting(s, t, q, k)
    case Timeout(t) => ResumeThread(s, t)
    case ChangePriority(t, p) => Changed(s, t, p)
    case Yield => Yielded(s)
    case Close(t, keep) => CloseThread(s, t, keep)
    case Schedule => Scheduled(s)
    case Enter => Entered(s)
    case Exit => Exited(s)
  }

  lemma StepKeeps(s: State, op: Op)
    requires Inv(s) && Legal(s, op)
    ensures Inv(Next(s, op))
  {
    hide Inv, Sleeping, Wake, Started, SuspendThread, LinkWait, Changed, Yielded, CloseThread, Scheduled;
    match op
    case Startup(t) =>
      StartedSleeps(s, t);
      WakeKeeps(Started(s, t), t);
    case Resume(t) =>
      if s.threads[t].stat == Suspended {
        SuspendedSleeps(s, t);
        WakeKeeps(s, t);
      }
    case Suspend(t) =>
      if s.threads[t].stat == Ready {
        SuspendKeeps(s, t);
      }
    case WaitOn(t, q, k) =>
      SuspendKeeps(s, t);
      WaitsSame(s, t);
      WaitKeeps(SuspendThread(s, t), t, q, k);
    case Timeout(t) =>
      SuspendedSleeps(s, t);
      WakeKeeps(s, t);
    case ChangePriority(t, p) => ChangeKeeps(s, t, p);
    case Yield => YieldKeeps(s);
    case Close(t, keep) => CloseKeeps(s, t, keep);
    case Schedule => ScheduleKeeps(s);
    case Enter => NestFree(s, s.nest + 1);
    case Exit =>
      NestFree(s, 0);
      if s.nest <= 1 {
        ScheduleKeeps(s.(nest := 0));
      } else {
        NestFree(s, s.nest - 1);
      }
  }

  ghost predicate Reaches(s: State, ops: seq<Op>, s': State)
    requires Inv(s)
    decreases |ops|
  {
    if ops == [] then s' == s
    else Legal(s, ops[0]) && (StepKeeps(s, ops[0]); Reaches(Next(s, ops[0]), ops[1..], s'))
  }

  lemma {:induction false} RunKeeps(s: State, ops: seq<Op>, s': State)
    requires Inv(s) && Reaches(s, ops, s')
    ensures Inv(s')
    decreases |ops|
  {
    if ops != [] {
      StepKeeps(s, ops[0]);
      RunKeeps(Next(s, ops[0]), ops[1..], s');
    }
  }

  /** In every reachable state a thread is READY exactly when it is in the ready list of its
      current priority, no thread is in two lists, and in both layouts the bits name exactly the
      lists that are not empty. */
  lemma PlacementSafety(s: State, ops: seq<Op>, s': State, t: Tid, p: nat, q: Queue)
    requires Inv(s) && Reaches(s, ops, s') && t in s'.threads && p < |s'.ready|
    ensures s'.threads[t].prio < |s'.ready| && (s'.threads[t].stat == Ready <==> t in s'.ready[s'.threads[t].prio])
    ensures t in s'.ready[p] ==> p == s'.threads[t].prio && t !in s'.defunct && (q in s'.waits ==> t !in s'.waits[q])
    ensures q in s'.waits && t in s'.waits[q] ==> s'.threads[t].stat == Suspended && t !in s'.defunct
    ensures forall r :: q in s'.waits && r in s'.waits && r != q && t in s'.waits[q] ==> t !in s'.waits[r]
    ensures Agrees(s'.bitmap, Busy(s'.ready)) && Busy(s'.ready)[p] == (s'.ready[p] != [])
  {
    RunKeeps(s, ops, s');
  }

  /** An unlocked rt_schedule runs the first thread of the most urgent list that is not empty. */
  lemma ScheduleRunsMostUrgent(s: State, t: Tid)
    requires Inv(s) && SomeReady(s) && s.nest == 0
    ensures var c := Scheduled(s).current;
            && c in s.threads && s.threads[c].stat == Ready && s.threads[c].prio < |s.ready|
            && s.ready[s.threads[c].prio] != [] && s.ready[s.threads[c].prio][0] == c
            && (t in s.threads && s.threads[t].stat == Ready ==> s.threads[c].prio <= s.threads[t].prio)
  {
    ChoiceIs(s);
  }
}
