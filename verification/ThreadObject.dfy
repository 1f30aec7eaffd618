/**
 The kernel's thread lists and bitmap as an object, and the thread functions on it.
 */
module ThreadObject {
  import opened NatLists
  import opened ReadyBitmap
  import opened Scheduler
  import opened ThreadOps

  class Kernel {
    const two: bool
    var threads: map<Tid, Tcb>
    var ready: seq<seq<Tid>>
    var waits: map<Queue, seq<Tid>>
    var defunct: seq<Tid>
    var place: map<Tid, Place>
    var bitmap: Bitmap
    var current: Tid
    var nest: nat

    function Now(): State
      reads this
    {
      State(two, threads, ready, waits, defunct, place, bitmap, current, nest)
    }

    /** rt_system_scheduler_init, with threads that have been initialised but not started. */
    constructor (two: bool, threads: map<Tid, Tcb>, queues: set<Queue>)
      requires forall t :: t in threads ==>
                 threads[t].stat == Fresh && threads[t].prio < (if two then 256 else 32) && threads[t].init < (if two then 256 else 32)
      ensures Inv(Now()) && Now().threads == threads
    {
      this.two, this.threads := two, threads;
      ready := seq(if two then 256 else 32, p => []);
      waits := map q | q in queues :: [];
      defunct := [];
      place := map t | t in threads :: Alone;
      bitmap := if two then Bitmap(true, 0, seq(32, n => 0)) else Bitmap(false, 0, []);
      current, nest := 0, 0;
      new;
      StartInv(Now());
    }

    /** rt_list_remove on the node of a thread. */
    method UnlinkNode(t: Tid)
      requires Lists(Now()) && t in place
      modifies this`ready, this`waits, this`defunct, this`place
      ensures Now() == Unlink(old(Now()), t)
    {
      match place[t] {
        case Alone =>
        case InReady(p) =>
          ready := ready[p := Without(ready[p], t)];
          place := place[t := Alone];
        case InWait(q) =>
          waits := waits[q := Without(waits[q], t)];
          place := place[t := Alone];
        case InDefunct =>
          defunct := Without(defunct, t);
          place := place[t := Alone];
      }
    }

    /** rt_schedule_insert_thread */
    method InsertThread(t: Tid)
      requires Fits(Now(), t)
      modifies this
      ensures Now() == Insert(old(Now()), t)
    {
      var c := threads[t];
      threads := threads[t := c.(stat := Ready)];
      ready := ready[c.prio := ready[c.prio] + [t]];
      place := place[t := InReady(c.prio)];
      bitmap := SetBits(bitmap, c.masks);
    }

    /** rt_schedule_remove_thread */
    method RemoveThread(t: Tid)
      requires Fits(Now(), t) && Lists(Now())
      modifies this
      ensures Now() == Remove(old(Now()), t)
    {
      var c := threads[t];
      UnlinkNode(t);
      if ready[c.prio] == [] {
        bitmap := ClearBits(bitmap, c.masks);
      }
    }

    /** rt_thread_startup */
    method Startup(t: Tid)
      requires Inv(Now()) && Legal(Now(), Op.Startup(t))
      modifies this
      ensures Inv(old(Now())) && Now() == Next(old(Now()), Op.Startup(t)) && Inv(Now())
    {
      StepKeeps(Now(), Op.Startup(t));
      StartedSleeps(Now(), t);
      StartedIs(Now(), t);
      var c := threads[t];
      threads := threads[t := c.(prio := c.init, masks := MasksOf(two, c.init), stat := Suspended)];
      WakeThread(t);
    }

    /** Out of the wait list and into the ready list. */
    method WakeThread(t: Tid)
      requires Sleeping(Now(), t)
      modifies this
      ensures Sleeping(old(Now()), t) && Now() == Wake(old(Now()), t)
    {
      SleepingFacts(Now(), t);
      UnlinkNode(t);
      InsertThread(t);
    }

    /** rt_thread_resume */
    method Resume(t: Tid) returns (ok: bool)
      requires Inv(Now()) && t in threads
      modifies this
      ensures Inv(old(Now())) && Now() == Next(old(Now()), Op.Resume(t)) && Inv(Now())
      ensures ok <==> old(threads)[t].stat == Suspended
    {
      hide Inv, Sleeping, Wake;
      StepKeeps(Now(), Op.Resume(t));
      if threads[t].stat != Suspended {
        return false;
      }
      SuspendedSleeps(Now(), t);
      WakeThread(t);
      ok := true;
    }

    /** rt_thread_timeout up to the call of the scheduler. */
    method Timeout(t: Tid)
      requires Inv(Now()) && Legal(Now(), Op.Timeout(t))
      modifies this
      ensures Inv(old(Now())) && Now() == Next(old(Now()), Op.Timeout(t)) && Inv(Now())
    {
      StepKeeps(Now(), Op.Timeout(t));
      SuspendedSleeps(Now(), t);
      WakeThread(t);
    }

    /** rt_thread_suspend */
    method Suspend(t: Tid) returns (ok: bool)
      requires Inv(Now()) && t in threads
      modifies this
      ensures Inv(old(Now())) && Now() == Next(old(Now()), Op.Suspend(t)) && Inv(Now())
      ensures ok <==> old(threads)[t].stat == Ready
    {
      StepKeeps(Now(), Op.Suspend(t));
      if threads[t].stat != Ready {
        return false;
      }
      RemoveStarted(Now(), t, Suspended);
      StatLists(Now(), t, Suspended);
      threads := threads[t := threads[t].(stat := Suspended)];
      RemoveThread(t);
      ok := true;
    }

    /** rt_thread_control with RT_THREAD_CTRL_CHANGE_PRIORITY */
    method ChangePriority(t: Tid, p: nat)
      requires Inv(Now()) && Legal(Now(), Op.ChangePriority(t, p))
      modifies this
      ensures Inv(old(Now())) && Now() == Next(old(Now()), Op.ChangePriority(t, p)) && Inv(Now())
    {
      hide Inv, Between, Remove, Fits, Lists, Core, MasksOf, Insert;
      StepKeeps(Now(), Op.ChangePriority(t, p));
      if threads[t].stat == Ready {
        RemoveStarted(Now(), t, Ready);
        MovedFits(Now(), t, p);
        StatLists(Now(), t, Ready);
        SameStat(Now(), t);
        RemoveThread(t);
        threads := threads[t := threads[t].(prio := p, masks := MasksOf(two, p))];
        InsertThread(t);
      } else {
        threads := threads[t := threads[t].(prio := p, masks := MasksOf(two, p))];
      }
    }

    /** rt_thread_yield up to the call of the scheduler. */
    method YieldThread() returns (rotated: bool)
      requires Inv(Now()) && current in threads
      modifies this
      ensures rotated == Shares(old(Now())) && Inv(old(Now())) && Now() == Next(old(Now()), Yield) && Inv(Now())
    {
      hide Inv, Core, But, ThreadOk, MasksOf, Without;
      StepKeeps(Now(), Yield);
      OfThread(Now(), current);
      var t := current;
      var c := threads[t];
      rotated := c.stat == Ready && |ready[c.prio]| > 1;
      if rotated {
        ready := ready[c.prio := Without(ready[c.prio], t) + [t]];
      }
    }

    /** rt_thread_delete, or rt_thread_detach of a thread without a cleanup function. */
    method Close(t: Tid, keep: bool)
      requires Inv(Now()) && Legal(Now(), Op.Close(t, keep))
      modifies this
      ensures Inv(old(Now())) && Now() == Next(old(Now()), Op.Close(t, keep)) && Inv(Now())
    {
      hide Inv, Between, Remove, Fits, Lists, Core;
      StepKeeps(Now(), Op.Close(t, keep));
      RemoveStarted(Now(), t, Closed);
      StatLists(Now(), t, Closed);
      threads := threads[t := threads[t].(stat := Closed)];
      RemoveThread(t);
      if keep {
        defunct := [t] + defunct;
        place := place[t := InDefunct];
      }
    }

    /** rt_schedule */
    method ScheduleNow()
      requires Inv(Now()) && SomeReady(Now())
      modifies this`current
      ensures Inv(old(Now())) && Now() == Next(old(Now()), Schedule) && Inv(Now())
    {
      StepKeeps(Now(), Schedule);
      if nest == 0 {
        ChoiceIs(Now());
        var to := ready[Highest(bitmap)][0];
        if to != current {
          current := to;
        }
      }
    }

    /** rt_enter_critical */
    method EnterCritical()
      requires Inv(Now())
      modifies this`nest
      ensures Inv(old(Now())) && Now() == Next(old(Now()), Enter) && Inv(Now())
    {
      hide Inv;
      StepKeeps(Now(), Enter);
      nest := nest + 1;
    }

    /** rt_exit_critical */
    method ExitCritical()
      requires Inv(Now()) && SomeReady(Now())
      modifies this`nest, this`current
      ensures Inv(old(Now())) && Now() == Next(old(Now()), Exit) && Inv(Now())
    {
      hide Inv, Scheduled, SomeReady;
      StepKeeps(Now(), Exit);
      if nest <= 1 {
        NestFree(Now(), 0);
        nest := 0;
        ScheduleNow();
      } else {
        nest := nest - 1;
      }
    }
  }

  lemma StartInv(s: State)
    requires |s.ready| == (if s.two then 256 else 32) && (forall p :: 0 <= p < |s.ready| ==> s.ready[p] == [])
    requires (forall q :: q in s.waits ==> s.waits[q] == []) && s.defunct == []
    requires s.place.Keys == s.threads.Keys && (forall t :: t in s.place ==> s.place[t] == Alone)
    requires s.bitmap == if s.two then Bitmap(true, 0, seq(32, n => 0)) else Bitmap(false, 0, [])
    requires forall t :: t in s.threads ==> s.threads[t].stat == Fresh && s.threads[t].prio < |s.ready| && s.threads[t].init < |s.ready|
    ensures Inv(s)
  {
    NonZero(0);
  }

  lemma SleepingFacts(s: State, t: Tid)
    requires Sleeping(s, t)
    ensures Lists(s) && t in s.place && Fits(Unlink(s, t), t)
  {
  }

  lemma StatLists(s: State, t: Tid, stat: Stat)
    requires Inv(s) && t in s.threads
    ensures Lists(SetStat(s, t, stat))
  {
  }

  lemma SameStat(s: State, t: Tid)
    requires t in s.threads
    ensures SetStat(s, t, s.threads[t].stat) == s
  {
  }
}
