/**
 rt_thread_resume region by region: the test of the state, the removal from the wait list and
 rt_schedule_insert_thread are separate, and interrupts may run any operation in between. What each
 region keeps and exactly when, and what overlapping resumes of one thread do.
 */
module ThreadRegions {
  import opened NatLists
  import opened ReadyBitmap
  import opened Scheduler
  import opened ThreadOps

  // ---- one region ------------------------------------------------------------------------

  lemma ReadyMustBePlaced(s: State, t: Tid)
    requires Inv(s) && t in s.threads
    ensures t in s.place && (s.threads[t].stat == Ready <==> s.place[t].InReady?)
  {
    OfThread(s, t);
  }

  /** Exactly: the first region keeps the lists in order if and only if the thread is not READY. */
  lemma FirstRegionExactly(s: State, t: Tid)
    requires Inv(s) && t in s.threads
    ensures t in s.place && (Inv(Unlink(s, t)) <==> s.threads[t].stat != Ready)
  {
    hide Inv, Core, Lists;
    OfThread(s, t);
    CoreLists(s);
    UnlinkThreads(s, t);
    if s.threads[t].stat == Ready {
      if Inv(Unlink(s, t)) {
        ReadyMustBePlaced(Unlink(s, t), t);
      }
    } else {
      UnlinkKeeps(s, t);
    }
  }

  lemma CoreLists(s: State)
    requires Core(s)
    ensures Lists(s)
  {
  }

  lemma UnlinkThreads(s: State, t: Tid)
    requires Lists(s) && t in s.place
    ensures var s' := Unlink(s, t); s'.threads == s.threads && s'.place == s.place[t := Alone] && s'.two == s.two && |s'.ready| == |s.ready|
  {
    hide Lists;
    UnlinkLists(s, t);
  }

  lemma UnlinkKeeps(s: State, t: Tid)
    requires Inv(s) && t in s.threads && s.threads[t].stat != Ready
    ensures t in s.place && Inv(Unlink(s, t))
  {
    hide Holds, ReadyHolds, WaitsHold, Agrees, MasksOf;
    OfThread(s, t);
    UnlinkLists(s, t);
    var s' := Unlink(s, t);
    assert s'.ready == s.ready && s'.bitmap == s.bitmap && s'.two == s.two && s'.threads == s.threads;
  }

  /** Exactly: rt_schedule_insert_thread keeps the lists in order if and only if the thread is in none. */
  lemma SecondRegionExactly(s: State, t: Tid)
    requires Inv(s) && t in s.threads && s.threads[t].stat != Fresh
    ensures Fits(s, t) && (Inv(Insert(s, t)) <==> s.place[t] == Alone)
  {
    hide Inv, Core, Between, Insert, Fits;
    OfThread(s, t);
    StartedFits(s, t);
    if s.place[t] == Alone {
      AloneBetween(s, t);
      InsertKeeps(s, t);
    } else if Inv(Insert(s, t)) {
      InsertTwice(s, t);
    }
  }

  lemma StartedFits(s: State, t: Tid)
    requires Inv(s) && t in s.threads && s.threads[t].stat != Fresh
    ensures Fits(s, t) && s.threads[t].masks == MasksOf(s.two, s.threads[t].prio)
  {
    hide Core, MasksOf;
    OfThread(s, t);
    FitsIs(s, t);
  }

  lemma AloneBetween(s: State, t: Tid)
    requires Inv(s) && t in s.threads && t in s.place && s.place[t] == Alone
    ensures Between(s, t)
  {
    hide Core, But;
    OfThread(s, t);
  }

  lemma ListedTwice(s: State, t: Tid, p: nat)
    requires Lists(s) && t in s.place && s.place[t] != Alone && p < |s.ready| && (s.place[t].InReady? ==> s.place[t].prio == p)
    ensures !Lists(LinkReady(s, t, p))
  {
    var w, s' := s.place[t], LinkReady(s, t, p);
    match w {
      case InReady(_) =>
        assert Holds(s.ready[p], s.place, w);
        var i :| 0 <= i < |s.ready[p]| && s.ready[p][i] == t;
        assert s'.ready[p][i] == s'.ready[p][|s.ready[p]|];
        assert !Holds(s'.ready[p], s'.place, w);
      case InWait(q) =>
        assert Holds(s.waits[q], s.place, w);
        assert !Holds(s'.waits[q], s'.place, w);
      case InDefunct =>
        assert Holds(s.defunct, s.place, w);
    }
  }

  /** A thread that is in a list already ends up in two, or twice in one. */
  lemma InsertTwice(s: State, t: Tid)
    requires Inv(s) && t in s.threads && Fits(s, t) && s.place[t] != Alone
    ensures !Inv(Insert(s, t))
  {
    hide Holds, ReadyHolds, WaitsHold, BitmapOk, SetBits, MasksOf;
    OfThread(s, t);
    var p := s.threads[t].prio;
    ListedTwice(s, t, p);
    SameLists(Insert(s, t), LinkReady(s, t, p));
  }

  lemma SameLists(s: State, s': State)
    requires s'.ready == s.ready && s'.waits == s.waits && s'.defunct == s.defunct && s'.place == s.place
    ensures Lists(s) == Lists(s')
  {
  }

  /** Without anything in between the regions make up the operation. */
  lemma RegionsAreResume(s: State, t: Tid)
    requires Inv(s) && t in s.threads && s.threads[t].stat == Suspended
    ensures t in s.place && Fits(Unlink(s, t), t) && Insert(Unlink(s, t), t) == ResumeThread(s, t)
  {
    SuspendedSleeps(s, t);
    UnlinkSleeping(s, t);
    FitsIs(Unlink(s, t), t);
  }

  // ---- calls in progress -----------------------------------------------------------------

  /** How far a call of rt_thread_resume has got. */
  datatype Phase = Tested(t: Tid) | Unlinked(t: Tid)

  /** The kernel and the calls in progress, each by a thread or an interrupt of its own. */
  datatype Split = Split(k: State, calls: map<nat, Phase>)

  datatype Step = Test(c: nat, t: Tid) | First(c: nat) | Second(c: nat) | Whole(op: Op)

  /** All is in order, and the threads of calls in progress are still suspended, off all lists once
      the first region has run. */
  ghost predicate Good(x: Split) {
    && Inv(x.k)
    && forall c :: c in x.calls ==> Pending(x.k, x.calls[c])
  }

  ghost predicate Pending(s: State, ph: Phase) {
    && ph.t in s.threads && ph.t in s.place && s.threads[ph.t].stat == Suspended
    && (ph.Unlinked? ==> s.place[ph.t] == Alone)
  }

  ghost predicate Enabled(x: Split, step: Step) {
    match step
    case Test(c, t) => c !in x.calls && t in x.k.threads && x.k.threads[t].stat == Suspended
    case First(c) => c in x.calls && x.calls[c].Tested?
    case Second(c) => c in x.calls && x.calls[c].Unlinked?
    case Whole(op) => Legal(x.k, op)
  }

  /** The step does not take away a thread that a call in progress is resuming. */
  ghost predicate Undisturbed(x: Split, step: Step) {
    match step
    case Second(c) => c in x.calls && forall d :: d in x.calls && d != c ==> x.calls[d].t != x.calls[c].t
    case Whole(op) => (op.Resume? || op.Timeout? || op.Close?) ==> forall d :: d in x.calls ==> x.calls[d].t != op.t
    case _ => true
  }

  lemma PendingFits(s: State, ph: Phase)
    requires Inv(s) && Pending(s, ph)
    ensures Fits(s, ph.t)
  {
    StartedFits(s, ph.t);
  }

  ghost function Next(x: Split, step: Step): Split
    requires Good(x) && Enabled(x, step)
  {
    match step
    case Test(c, t) => x.(calls := x.calls[c := Tested(t)])
    case First(c) => Split(Unlink(x.k, x.calls[c].t), x.calls[c := Unlinked(x.calls[c].t)])
    case Second(c) =>
      PendingFits(x.k, x.calls[c]);
      Split(Insert(x.k, x.calls[c].t), x.calls - {c})
    case Whole(op) => x.(k := ThreadOps.Next(x.k, op))
  }

  /** The first region touches no thread but its own. */
  lemma FirstKeeps(x: Split, c: nat)
    requires Good(x) && Enabled(x, First(c))
    ensures Good(Next(x, First(c)))
  {
    hide Inv;
    var t := x.calls[c].t;
    assert Pending(x.k, x.calls[c]);
    FirstRegionExactly(x.k, t);
    InvLists(x.k);
    UnlinkThreads(x.k, t);
    var x' := Next(x, First(c));
    forall d | d in x'.calls ensures Pending(x'.k, x'.calls[d]) {
      assert d != c ==> Pending(x.k, x.calls[d]);
    }
  }

  lemma InvLists(s: State)
    requires Inv(s)
    ensures Lists(s)
  {
  }

  lemma SecondKeeps(x: Split, c: nat)
    requires Good(x) && Enabled(x, Second(c)) && Undisturbed(x, Second(c))
    ensures Good(Next(x, Second(c)))
  {
    hide Inv, Fits;
    var t := x.calls[c].t;
    assert Pending(x.k, x.calls[c]);
    SecondRegionExactly(x.k, t);
    var x' := Next(x, Second(c));
    forall d | d in x'.calls ensures Pending(x'.k, x'.calls[d]) {
      assert Pending(x.k, x.calls[d]) && x.calls[d].t != t;
    }
  }

  /** A whole operation leaves the threads alone that it does not name. */
  lemma OpFrame(s: State, op: Op, t: Tid)
    requires Inv(s) && Legal(s, op) && t in s.threads && t in s.place && s.threads[t].stat == Suspended
    requires (op.Resume? || op.Timeout? || op.Close?) ==> op.t != t
    ensures var s' := ThreadOps.Next(s, op);
            t in s'.threads && t in s'.place && s'.threads[t].stat == Suspended && s'.place[t] == s.place[t]
  {
    hide Inv, Lists, Core, But, Between, Without, MasksOf, SetBits, ClearBits, Remove, Wake, Sleeping, Highest;
    InvLists(s);
    match op
    case Startup(u) =>
      StartedSleeps(s, u);
      WakeFrame(Started(s, u), u, t);
    case Resume(u) =>
      if s.threads[u].stat == Suspended {
        SuspendedSleeps(s, u);
        WakeFrame(s, u, t);
      }
    case Timeout(u) =>
      SuspendedSleeps(s, u);
      WakeFrame(s, u, t);
    case Suspend(u) =>
      if s.threads[u].stat == Ready {
        RemoveStarted(s, u, Suspended);
        RemoveFrame(SetStat(s, u, Suspended), u);
      }
    case WaitOn(u, q, k) =>
      RemoveStarted(s, u, Suspended);
      RemoveFrame(SetStat(s, u, Suspended), u);
      WaitsSame(s, u);
    case ChangePriority(u, p) =>
      if s.threads[u].stat == Ready {
        RemoveStarted(s, u, Ready);
        RemoveFrame(SetStat(s, u, Ready), u);
        MovedFits(s, u, p);
      }
    case Close(u, keep) =>
      RemoveStarted(s, u, Closed);
      RemoveFrame(SetStat(s, u, Closed), u);
    case _ =>
  }

  lemma RemoveFrame(s: State, u: Tid)
    requires Fits(s, u)
    ensures var s' := Remove(s, u); s'.threads == s.threads && (s'.place == s.place || s'.place == s.place[u := Alone])
  {
    hide Without, ClearBits, MasksOf;
  }

  lemma WakeFrame(s: State, u: Tid, t: Tid)
    requires Sleeping(s, u) && t != u && t in s.threads && t in s.place
    ensures var s' := Wake(s, u); t in s'.threads && t in s'.place && s'.threads[t] == s.threads[t] && s'.place[t] == s.place[t]
  {
    hide Core, But, MasksOf, Without, SetBits;
    UnlinkSleeping(s, u);
    FitsIs(Unlink(s, u), u);
  }

  lemma WholeKeeps(x: Split, op: Op)
    requires Good(x) && Legal(x.k, op) && Undisturbed(x, Whole(op))
    ensures Good(Next(x, Whole(op)))
  {
    hide Inv, Legal, ThreadOps.Next;
    StepKeeps(x.k, op);
    var x' := Next(x, Whole(op));
    forall d | d in x'.calls ensures Pending(x'.k, x'.calls[d]) {
      assert Pending(x.k, x.calls[d]);
      OpFrame(x.k, op, x.calls[d].t);
    }
  }

  lemma RegionKeeps(x: Split, step: Step)
    requires Good(x) && Enabled(x, step) && Undisturbed(x, step)
    ensures Good(Next(x, step))
  {
    hide Inv;
    match step
    case Test(c, t) => OfThreadPlace(x.k, t);
    case First(c) => FirstKeeps(x, c);
    case Second(c) => SecondKeeps(x, c);
    case Whole(op) => WholeKeeps(x, op);
  }

  lemma OfThreadPlace(s: State, t: Tid)
    requires Inv(s) && t in s.threads
    ensures t in s.place
  {
  }

  ghost predicate Reaches(x: Split, steps: seq<Step>, x': Split)
    requires Good(x)
    decreases |steps|
  {
    if steps == [] then x' == x
    else
      && Enabled(x, steps[0]) && Undisturbed(x, steps[0])
      && (RegionKeeps(x, steps[0]); Reaches(Next(x, steps[0]), steps[1..], x'))
  }

  /** Between any two regions of any run, however the regions of different resumes and all other
      operations interleave, the placement invariant holds, as long as a thread that is being resumed
      is not resumed, timed out or closed by somebody else before its insertion. */
  lemma {:induction false} RegionSafety(x: Split, steps: seq<Step>, x': Split)
    requires Good(x) && Reaches(x, steps, x')
    ensures Good(x')
    decreases |steps|
  {
    hide Inv, Enabled, Undisturbed, Next;
    if steps != [] {
      RegionKeeps(x, steps[0]);
      RegionSafety(Next(x, steps[0]), steps[1..], x');
    }
  }

  /** The thread is in some ready list twice. */
  ghost predicate Twice(ready: seq<seq<Tid>>, t: Tid) {
    exists p, i, j :: 0 <= p < |ready| && 0 <= i < j < |ready[p]| && ready[p][i] == ready[p][j] == t
  }

  lemma InsertedLast(s: State, t: Tid)
    requires Fits(s, t)
    ensures var r, p := Insert(s, t).ready, s.threads[t].prio;
            |r| == |s.ready| && r[p] == s.ready[p] + [t] && Insert(s, t).threads == s.threads[t := s.threads[t].(stat := Ready)]
  {
  }

  /** The condition is needed: of two calls that have both taken the thread off its list, the second to
      insert it puts it into its ready list a second time. */
  lemma OverlapInsertsTwice(x: Split, c: nat, d: nat, s1: State, t: Tid)
    requires Good(x) && c in x.calls && d in x.calls && c != d && x.calls[c] == x.calls[d] == Unlinked(t)
    requires Fits(x.k, t) && s1 == Insert(x.k, t)
    ensures Inv(s1) && Fits(s1, t) && !Inv(Insert(s1, t)) && Twice(Insert(s1, t).ready, t)
  {
    hide Inv, Fits, Insert;
    assert Pending(x.k, x.calls[c]);
    SecondRegionExactly(x.k, t);
    InsertedLast(x.k, t);
    SecondRegionExactly(s1, t);
    InsertedLast(s1, t);
    InsertedPlace(x.k, t);
    var p, n := x.k.threads[t].prio, |x.k.ready[x.k.threads[t].prio]|;
    var r := Insert(s1, t).ready;
    assert r[p][n] == t && r[p][n + 1] == t;
  }

  lemma InsertedPlace(s: State, t: Tid)
    requires Fits(s, t)
    ensures s.threads[t].prio < |s.ready| && t in Insert(s, t).place && Insert(s, t).place[t].InReady?
  {
  }

  lemma ReachesMore(x: Split, step: Step, steps: seq<Step>, x': Split)
    requires Good(x) && Enabled(x, step) && Undisturbed(x, step)
    requires Good(Next(x, step)) && Reaches(Next(x, step), steps, x')
    ensures Reaches(x, [step] + steps, x')
  {
    assert ([step] + steps)[1..] == steps;
  }

  lemma ReachesNow(x: Split)
    requires Good(x)
    ensures Reaches(x, [], x)
  {
  }

  /** Two tests and two first regions lead there from any state in which the thread is suspended. */
  lemma OverlapReached(x: Split, c: nat, d: nat, t: Tid) returns (y: Split)
    requires Good(x) && t in x.k.threads && x.k.threads[t].stat == Suspended && c !in x.calls && d !in x.calls && c != d
    ensures Reaches(x, [Test(c, t)] + ([Test(d, t)] + ([First(c)] + ([First(d)] + []))), y)
    ensures Good(y) && c in y.calls && d in y.calls && y.calls[c] == y.calls[d] == Unlinked(t)
  {
    hide Inv, Good, Reaches, Unlink;
    RegionKeeps(x, Test(c, t));
    var x1 := Next(x, Test(c, t));
    RegionKeeps(x1, Test(d, t));
    var x2 := Next(x1, Test(d, t));
    RegionKeeps(x2, First(c));
    var x3 := Next(x2, First(c));
    RegionKeeps(x3, First(d));
    y := Next(x3, First(d));
    ReachesNow(y);
    ReachesMore(x3, First(d), [], y);
    ReachesMore(x2, First(c), [First(d)] + [], y);
    ReachesMore(x1, Test(d, t), [First(c)] + ([First(d)] + []), y);
    ReachesMore(x, Test(c, t), [Test(d, t)] + ([First(c)] + ([First(d)] + [])), y);
  }

  // ---- rt_thread_delete ------------------------------------------------------------------

  /** Exactly: its first region, rt_schedule_remove_thread, leaves a thread that is READY and in no list if
      and only if the thread was READY. */
  lemma DeleteFirstExactly(s: State, t: Tid)
    requires Inv(s) && t in s.threads && s.threads[t].stat != Fresh
    ensures Fits(s, t) && Between(Remove(s, t), t) && Remove(s, t).threads == s.threads
    ensures Inv(Remove(s, t)) <==> s.threads[t].stat != Ready
  {
    hide Inv, Core, Fits, Remove, MasksOf;
    OfThread(s, t);
    StartedFits(s, t);
    ReadyMustBePlaced(s, t);
    PlacedAtPrio(s, t);
    RemoveKeeps(s, t);
    var s' := Remove(s, t);
    BetweenParts(s', t);
    if s.threads[t].stat == Ready {
      if Inv(s') {
        ReadyMustBePlaced(s', t);
      }
    } else {
      Settle(s, s', t);
    }
  }

  lemma PlacedAtPrio(s: State, t: Tid)
    requires Inv(s) && t in s.threads
    ensures t in s.place && (s.place[t].InReady? ==> s.place[t].prio == s.threads[t].prio)
    ensures s.threads[t].prio < |s.ready| && s.threads[t].init < |s.ready|
  {
    OfThread(s, t);
  }

  /** The second region, after the state is set to closed: onto the defunct list. */
  function Deleted(s: State, t: Tid): State
    requires t in s.threads
  {
    LinkDefunct(SetStat(s, t, Closed), t)
  }

  /** Exactly: whatever happened to the thread in the gap, the second region leaves all in order if and
      only if the thread is in no list. */
  lemma DeleteSecondExactly(s: State, t: Tid)
    requires Core(s) && But(s, t) && Known(s, t) && s.threads[t].prio < |s.ready| && s.threads[t].init < |s.ready|
    requires s.threads[t].masks == MasksOf(s.two, s.threads[t].prio)
    ensures Inv(Deleted(s, t)) <==> s.place[t] == Alone
  {
    hide Inv, ReadyHolds, WaitsHold, Holds, MasksOf, Agrees;
    var s1 := SetStat(s, t, Closed);
    TcbChanges(s, t, s.threads[t].(stat := Closed));
    if s.place[t] == Alone {
      ClosedAlone(s1, t);
      DefunctKeeps(s1, t);
    } else if Inv(Deleted(s, t)) {
      InvLists(Deleted(s, t));
      DefunctTwice(s1, t);
    }
  }

  lemma ClosedAlone(s: State, t: Tid)
    requires Core(s) && But(s, t) && Known(s, t) && s.threads[t].prio < |s.ready| && s.threads[t].init < |s.ready|
    requires s.threads[t].masks == MasksOf(s.two, s.threads[t].prio) && s.threads[t].stat == Closed && s.place[t] == Alone
    ensures Inv(s)
  {
    hide Core, MasksOf;
  }

  lemma DefunctTwice(s: State, t: Tid)
    requires Lists(s) && t in s.place && s.place[t] != Alone
    ensures !Lists(LinkDefunct(s, t))
  {
    var w, s' := s.place[t], LinkDefunct(s, t);
    match w {
      case InReady(p) => assert Holds(s.ready[p], s.place, w) && !Holds(s'.ready[p], s'.place, w);
      case InWait(q) => assert Holds(s.waits[q], s.place, w) && !Holds(s'.waits[q], s'.place, w);
      case InDefunct =>
        assert Holds(s.defunct, s.place, w);
        var i :| 0 <= i < |s.defunct| && s.defunct[i] == t;
        assert s'.defunct[i + 1] == s'.defunct[0] == t;
    }
  }

  lemma UnlinkSetStat(s: State, t: Tid, stat: Stat)
    requires Known(s, t)
    ensures t in Unlink(s, t).threads && Unlink(SetStat(s, t, stat), t) == SetStat(Unlink(s, t), t, stat)
    ensures |Unlink(s, t).ready| == |s.ready|
  {
    hide Without;
  }

  lemma RemoveSetStat(s: State, t: Tid, stat: Stat)
    requires Fits(s, t)
    ensures Fits(SetStat(s, t, stat), t) && t in Remove(s, t).threads && Remove(SetStat(s, t, stat), t) == SetStat(Remove(s, t), t, stat)
  {
    hide Unlink, ClearBits, InTable;
    UnlinkSetStat(s, t, stat);
  }

  /** With nothing in the gap the regions are the whole operation. */
  lemma RegionsAreDelete(s: State, t: Tid)
    requires Inv(s) && t in s.threads && s.threads[t].stat != Fresh
    ensures Fits(s, t) && t in Remove(s, t).threads && Deleted(Remove(s, t), t) == CloseThread(s, t, true)
  {
    hide Inv, Remove, SetStat, LinkDefunct, Fits, MasksOf;
    StartedFits(s, t);
    RemoveSetStat(s, t, Closed);
    RemoveStarted(s, t, Closed);
  }

  /** A resume of a suspended thread in the gap makes the second region put it into two lists. */
  lemma ResumeInTheGap(s: State, t: Tid)
    requires Inv(s) && t in s.threads && s.threads[t].stat == Suspended
    ensures Fits(s, t) && Inv(Remove(s, t)) && t in Remove(s, t).threads && Remove(s, t).threads[t].stat == Suspended
    ensures var s2 := ResumeThread(Remove(s, t), t); Inv(s2) && t in s2.threads && !Inv(Deleted(s2, t))
  {
    hide Inv, Core, Fits, Remove, MasksOf, Insert, Wake, Sleeping, Without;
    DeleteFirstExactly(s, t);
    var s1 := Remove(s, t);
    SuspendedSleeps(s1, t);
    WakeKeeps(s1, t);
    WakePlaces(s1, t);
    var s2 := ResumeThread(s1, t);
    OfThread(s2, t);
    PlacedAtPrio(s2, t);
    StartedFits(s2, t);
    DeleteSecondExactly(s2, t);
  }

  lemma WakePlaces(s: State, t: Tid)
    requires Sleeping(s, t)
    ensures var s' := Wake(s, t); t in s'.threads && t in s'.place && s'.place[t].InReady? && s'.threads[t].stat == Ready
  {
    hide Core, But, MasksOf, Without, SetBits;
    UnlinkSleeping(s, t);
    FitsIs(Unlink(s, t), t);
  }
}
