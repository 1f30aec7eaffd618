/**
 Time slices in the kernel: rt_tick_increase on the thread lists, and that n ticks of the kernel are
 n ticks of the list of slots of its most urgent priority.
 */
module TimeSlice {
  import opened NatLists
  import opened ReadyBitmap
  import opened Scheduler
  import opened ThreadOps
  import opened ThreadObject
  import opened RoundRobin

  const TICKS: nat := 0x1_0000_0000

  /** The kernel with init_tick and remaining_tick of its threads. */
  datatype Timed = Timed(k: State, init: map<Tid, nat>, left: map<Tid, nat>)

  /** --remaining_tick, an unsigned word. */
  function Less(left: nat): nat {
    if left == 0 then TICKS - 1 else left - 1
  }

  /** rt_thread_yield: if others share the priority, behind them, and schedule. */
  ghost function YieldNow(s: State): State
    requires Inv(s) && SomeReady(s)
  {
    if !Shares(s) then s
    else
      YieldSome(s);
      Scheduled(Yielded(s))
  }

  lemma YieldSome(s: State)
    requires Inv(s) && SomeReady(s)
    ensures Inv(Yielded(s)) && SomeReady(Yielded(s))
  {
    hide Inv, Without;
    YieldKeeps(s);
    var p :| 0 <= p < |s.ready| && s.ready[p] != [];
    assert Yielded(s).ready[p] != [];
  }

  /** rt_tick_increase without the timers: the running thread uses a tick; at the end of its slice
      the slice is filled again and the thread yields. */
  ghost function KernelTick(x: Timed): Timed
    requires Inv(x.k) && SomeReady(x.k) && x.k.current in x.init && x.k.current in x.left
  {
    var t := x.k.current;
    var l := Less(x.left[t]);
    if l != 0 then x.(left := x.left[t := l])
    else Timed(YieldNow(x.k), x.init, x.left[t := x.init[t]])
  }

  // ---- the list of slots of the most urgent priority -------------------------------------

  /** The scheduler is not locked, the first thread of the most urgent list runs, and the threads of
      that list have slices. */
  ghost predicate Running(x: Timed, p: nat) {
    && Inv(x.k) && x.k.nest == 0 && p < |x.k.ready| && x.k.ready[p] != [] && x.k.current == x.k.ready[p][0]
    && (forall r :: 0 <= r < p ==> x.k.ready[r] == [])
    && (forall t :: t in x.k.ready[p] ==> t in x.init && t in x.left && 1 <= x.left[t] <= x.init[t])
  }

  function SlotOf(x: Timed, t: Tid): Slot {
    Slot(t, if t in x.init then x.init[t] else 0, if t in x.left then x.left[t] else 0)
  }

  function SlotsOf(x: Timed, list: seq<Tid>): (r: seq<Slot>)
    ensures |r| == |list| && forall i :: 0 <= i < |list| ==> r[i] == SlotOf(x, list[i])
  {
    seq(|list|, i requires 0 <= i < |list| => SlotOf(x, list[i]))
  }

  function View(x: Timed, p: nat): seq<Slot>
    requires p < |x.k.ready|
  {
    SlotsOf(x, x.k.ready[p])
  }

  lemma RunningParts(x: Timed, p: nat)
    requires Running(x, p)
    ensures SomeReady(x.k) && x.k.current in x.init && x.k.current in x.left && Distinct(x.k.ready[p]) && Slices(View(x, p))
  {
    assert Holds(x.k.ready[p], x.k.place, InReady(p));
  }

  /** Nothing but the order of list p, the running thread and the slices of that list changed. */
  ghost predicate OnlyList(x: Timed, x': Timed, p: nat)
    requires p < |x.k.ready|
  {
    && x'.init == x.init && p < |x'.k.ready|
    && x'.k == x.k.(ready := x.k.ready[p := x'.k.ready[p]], current := x'.k.current)
    && (forall t :: t in x'.k.ready[p] <==> t in x.k.ready[p])
    && x'.left.Keys == x.left.Keys && forall t :: t in x.left && t !in x.k.ready[p] ==> x'.left[t] == x.left[t]
  }

  lemma HeadIsReady(s: State, p: nat)
    requires Inv(s) && p < |s.ready| && s.ready[p] != []
    ensures var t := s.ready[p][0];
            && Known(s, t) && s.threads[t].stat == Ready && s.threads[t].prio == p
            && Without(s.ready[p], t) == s.ready[p][1..]
  {
    hide Without, But, MasksOf, BitmapOk, WaitsHold;
    var t, list := s.ready[p][0], s.ready[p];
    assert t in list;
    assert Holds(list, s.place, InReady(p));
    OfThread(s, t);
    WithoutAt(list, 0);
    assert list[..0] + list[0 + 1..] == list[1..];
  }

  /** In the kernel's lists a yield and a schedule do what Tick does at the end of a slice. */
  lemma YieldRotates(s: State, p: nat)
    requires Inv(s) && SomeReady(s) && s.nest == 0 && p < |s.ready| && |s.ready[p]| > 1
    requires s.current == s.ready[p][0] && forall r :: 0 <= r < p ==> s.ready[r] == []
    ensures Yielded(s).ready[p] == s.ready[p][1..] + [s.ready[p][0]]
    ensures Inv(Yielded(s)) && SomeReady(Yielded(s)) && Scheduled(Yielded(s)).current == s.ready[p][1]
  {
    hide Without, Inv, Highest;
    var t, list := s.current, s.ready[p];
    HeadIsReady(s, p);
    YieldKeeps(s);
    var s' := Yielded(s);
    assert s'.ready[p] == list[1..] + [t];
    assert s'.ready[p] != [];
    ChoiceIs(s');
    assert Highest(s'.bitmap) == p;
  }

  /** One tick of the kernel is one tick of the slots. */
  lemma TickSimulates(x: Timed, p: nat)
    requires Running(x, p)
    ensures SomeReady(x.k) && x.k.current in x.init && x.k.current in x.left && Slices(View(x, p))
    ensures var x' := KernelTick(x); Running(x', p) && View(x', p) == Tick(View(x, p)) && OnlyList(x, x', p)
  {
    hide Inv, Slices;
    RunningParts(x, p);
    if Less(x.left[x.k.current]) != 0 {
      TickWithin(x, p);
    } else if |x.k.ready[p]| == 1 {
      TickAlone(x, p);
    } else {
      TickRotates(x, p);
    }
  }

  /** Within a slice only remaining_tick changes. */
  lemma TickWithin(x: Timed, p: nat)
    requires Running(x, p) && SomeReady(x.k) && x.k.current in x.init && x.k.current in x.left && Distinct(x.k.ready[p])
    requires Less(x.left[x.k.current]) != 0 && Slices(View(x, p))
    ensures var x' := KernelTick(x); Running(x', p) && View(x', p) == Tick(View(x, p)) && OnlyList(x, x', p)
  {
    hide Inv;
    var t, x' := x.k.current, KernelTick(x);
    var q, q' := View(x, p), View(x', p);
    assert q[0].left == x.left[t] && Less(x.left[t]) == x.left[t] - 1;
    forall i | 0 < i < |q| ensures q'[i] == q[i] {
      assert x.k.ready[p][i] != t;
    }
    assert Tick(q) == [q[0].(left := q[0].left - 1)] + q[1..];
  }

  /** At the end of a slice a thread without companions goes on. */
  lemma TickAlone(x: Timed, p: nat)
    requires Running(x, p) && SomeReady(x.k) && x.k.current in x.init && x.k.current in x.left
    requires Less(x.left[x.k.current]) == 0 && Slices(View(x, p)) && |x.k.ready[p]| == 1
    ensures var x' := KernelTick(x); Running(x', p) && View(x', p) == Tick(View(x, p)) && OnlyList(x, x', p)
  {
    hide Inv, Without;
    HeadIsReady(x.k, p);
    assert !Shares(x.k);
  }

  lemma TickRotates(x: Timed, p: nat)
    requires Running(x, p) && SomeReady(x.k) && x.k.current in x.init && x.k.current in x.left && Distinct(x.k.ready[p])
    requires Less(x.left[x.k.current]) == 0 && Slices(View(x, p)) && |x.k.ready[p]| > 1
    ensures var x' := KernelTick(x); Running(x', p) && View(x', p) == Tick(View(x, p)) && OnlyList(x, x', p)
  {
    hide Inv, Without, Yielded, Scheduled;
    var t, list, x' := x.k.current, x.k.ready[p], KernelTick(x);
    YieldRotates(x.k, p);
    YieldNowIs(x.k, p);
    ScheduleKeeps(Yielded(x.k));
    var q, q' := View(x, p), View(x', p);
    assert x'.k.ready[p] == list[1..] + [t];
    forall i | 0 < i < |q| ensures q'[i - 1] == q[i] {
      assert list[i] != t && (list[1..] + [t])[i - 1] == list[i];
    }
    assert Tick(q) == q[1..] + [q[0].(left := q[0].init)];
  }

  lemma YieldNowIs(s: State, p: nat)
    requires Inv(s) && SomeReady(s) && s.nest == 0 && p < |s.ready| && |s.ready[p]| > 1
    requires s.current == s.ready[p][0] && forall r :: 0 <= r < p ==> s.ready[r] == []
    requires Yielded(s).ready[p] == s.ready[p][1..] + [s.ready[p][0]] && Distinct(s.ready[p])
    requires Inv(Yielded(s)) && SomeReady(Yielded(s)) && Scheduled(Yielded(s)).current == s.ready[p][1]
    ensures YieldNow(s) == Scheduled(Yielded(s))
    ensures YieldNow(s) == s.(ready := s.ready[p := s.ready[p][1..] + [s.ready[p][0]]], current := s.ready[p][1])
  {
    hide Inv, Without;
    HeadIsReady(s, p);
    assert Shares(s);
  }

  // ---- whole windows ---------------------------------------------------------------------

  /** The kernel after n ticks. */
  ghost function KernelRun(x: Timed, p: nat, n: nat): Timed
    requires Running(x, p)
    decreases n
  {
    if n == 0 then x
    else
      TickSimulates(x, p);
      KernelRun(KernelTick(x), p, n - 1)
  }

  /** During how many of the next n ticks the kernel's current thread is t. */
  ghost function KernelShare(x: Timed, p: nat, n: nat, t: Tid): nat
    requires Running(x, p)
    decreases n
  {
    if n == 0 then 0
    else
      TickSimulates(x, p);
      (if x.k.current == t then 1 else 0) + KernelShare(KernelTick(x), p, n - 1, t)
  }

  /** n ticks of the kernel are n ticks of the slots, and the thread at their head is the current one. */
  lemma {:induction false} RunSimulates(x: Timed, p: nat, n: nat, t: Tid)
    requires Running(x, p)
    ensures Slices(View(x, p))
    ensures var x' := KernelRun(x, p, n); Running(x', p) && View(x', p) == Run(View(x, p), n) && OnlyList(x, x', p)
    ensures KernelShare(x, p, n, t) == Share(View(x, p), n, t)
    decreases n
  {
    hide Inv, Slices, Tick, KernelTick;
    TickSimulates(x, p);
    if n > 0 {
      RunSimulates(KernelTick(x), p, n - 1, t);
    }
  }

  /** Every thread of the list but the running one holds a full slice. */
  ghost predicate OthersFull(x: Timed, p: nat)
    requires p < |x.k.ready|
  {
    forall t :: t in x.k.ready[p] && t != x.k.current && t in x.init && t in x.left ==> x.left[t] == x.init[t]
  }

  /** init_tick of a thread of list p; zero for any other. */
  function SliceTicks(x: Timed, p: nat, t: Tid): nat
    requires p < |x.k.ready|
  {
    if t in x.k.ready[p] && t in x.init then x.init[t] else 0
  }

  lemma {:induction false} SliceIs(x: Timed, list: seq<Tid>, t: Tid)
    requires Distinct(list) && forall u :: u in list ==> u in x.init
    ensures SliceOf(SlotsOf(x, list), t) == if t in list then x.init[t] else 0
    decreases list
  {
    if list != [] {
      assert SlotsOf(x, list)[1..] == SlotsOf(x, list[1..]);
      assert Distinct(list[1..]) && list[0] !in list[1..];
      SliceIs(x, list[1..], t);
    }
  }

  /** Fairness in the kernel: with the other threads of the most urgent priority holding full slices,
      every window of as many ticks as the slices add up to runs each of these threads exactly its
      init_tick ticks, no other thread at all, and leaves the whole kernel as it was. */
  lemma KernelFair(x: Timed, p: nat, t: Tid)
    requires Running(x, p) && OthersFull(x, p)
    ensures var n := Total(View(x, p));
            && KernelShare(x, p, n, t) == SliceTicks(x, p, t)
            && KernelRun(x, p, n) == x
  {
    hide Inv, Slices, Share, Run, Total, SliceOf, KernelShare, KernelRun, Full;
    var q, n := View(x, p), Total(View(x, p));
    RunningParts(x, p);
    ViewFull(x, p);
    RunSimulates(x, p, n, t);
    Fair(q, t);
    SliceIs(x, x.k.ready[p], t);
    SameView(x, KernelRun(x, p, n), p);
  }

  lemma ViewFull(x: Timed, p: nat)
    requires Running(x, p) && OthersFull(x, p) && Distinct(x.k.ready[p])
    ensures View(x, p) != [] && Full(View(x, p)[1..])
  {
    hide Inv;
    var q := View(x, p);
    forall i | 0 <= i < |q[1..]| ensures q[1..][i].left == q[1..][i].init {
      assert q[1..][i] == SlotOf(x, x.k.ready[p][i + 1]) && x.k.ready[p][i + 1] != x.k.ready[p][0];
    }
  }

  /** The slots determine the kernel up to what a tick leaves alone. */
  lemma SameView(x: Timed, x': Timed, p: nat)
    requires Running(x, p) && Running(x', p) && OnlyList(x, x', p) && View(x', p) == View(x, p)
    ensures x' == x
  {
    hide Inv;
    var list, list' := x.k.ready[p], x'.k.ready[p];
    forall i | 0 <= i < |list| ensures list'[i] == list[i] && x'.left[list[i]] == x.left[list[i]] {
      assert View(x', p)[i] == SlotOf(x', list'[i]) && View(x, p)[i] == SlotOf(x, list[i]);
    }
    assert |list'| == |View(x', p)| == |list|;
    assert list' == list && x.k.ready[p := list] == x.k.ready;
    assert x'.left == x.left;
  }

  /** Over m such windows each thread runs m slices. */
  lemma KernelFairRounds(x: Timed, p: nat, m: nat, n: nat, t: Tid)
    requires Running(x, p) && OthersFull(x, p) && n == m * Total(View(x, p))
    ensures KernelShare(x, p, n, t) == m * SliceTicks(x, p, t)
  {
    hide Inv, Slices, Share, Run, Total, SliceOf, KernelShare, KernelRun, Full;
    RunningParts(x, p);
    ViewFull(x, p);
    RunSimulates(x, p, n, t);
    FairRounds(View(x, p), m, t);
    SliceIs(x, x.k.ready[p], t);
  }

  /** After every tick the others still hold full slices. */
  lemma KernelStaysFair(x: Timed, p: nat)
    requires Running(x, p) && OthersFull(x, p)
    ensures SomeReady(x.k) && x.k.current in x.init && x.k.current in x.left
    ensures Running(KernelTick(x), p) && OthersFull(KernelTick(x), p)
  {
    hide Inv, Slices, Tick, KernelTick;
    RunningParts(x, p);
    ViewFull(x, p);
    TickSimulates(x, p);
    StaysFair(View(x, p));
    RunningParts(KernelTick(x), p);
    FullView(KernelTick(x), p);
  }

  lemma FullView(x: Timed, p: nat)
    requires Running(x, p) && View(x, p) != [] && Full(View(x, p)[1..])
    ensures OthersFull(x, p)
  {
    hide Inv;
    var q, list := View(x, p), x.k.ready[p];
    forall t | t in list && t != x.k.current ensures x.left[t] == x.init[t] {
      var i :| 0 <= i < |list| && list[i] == t;
      assert q[1..][i - 1] == q[i] == SlotOf(x, t);
    }
  }

  // ---- the clock -------------------------------------------------------------------------

  class Clock {
    const kernel: Kernel
    var tick: nat
    var init: map<Tid, nat>
    var left: map<Tid, nat>

    ghost function Now(): Timed
      reads this, kernel
    {
      Timed(kernel.Now(), init, left)
    }

    constructor (kernel: Kernel, init: map<Tid, nat>, left: map<Tid, nat>)
      ensures this.kernel == kernel && this.init == init && this.left == left && tick == 0
    {
      this.kernel, this.init, this.left := kernel, init, left;
      tick := 0;
    }

    /** rt_tick_increase up to rt_timer_check; the tick is 32 bits wide. */
    method TickIncrease()
      requires Inv(kernel.Now()) && SomeReady(kernel.Now())
      requires kernel.current in kernel.threads && kernel.current in init && kernel.current in left
      modifies this, kernel
      ensures Inv(old(kernel.Now())) && SomeReady(old(kernel.Now())) && Now() == KernelTick(old(Now()))
      ensures tick == (old(tick) + 1) % TICKS && Inv(kernel.Now())
    {
      hide Inv, Scheduled, SomeReady, Without;
      tick := (tick + 1) % TICKS;
      var t := kernel.current;
      left := left[t := if left[t] == 0 then TICKS - 1 else left[t] - 1];
      if left[t] == 0 {
        left := left[t := init[t]];
        YieldSome(kernel.Now());
        var rotated := kernel.YieldThread();
        if rotated {
          kernel.ScheduleNow();
        }
      }
    }
  }
}
