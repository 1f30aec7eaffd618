/**
 The recursive mutex with priority inheritance, as a step protocol: takes, releases, handovers
 to waiters and timeouts, over one mutex and a fixed set of threads.
 */
module Mutex {
  import opened NatLists
  import opened IpcList

  /** The mutex object, the current priority of every thread, and the waiters whose thread
      timer runs. hold is an 8 bit counter. */
  datatype State = State(
    flag: Flag, value: nat, owner: Option<Tid>, original: nat, hold: nat,
    waiters: seq<Tid>, timed: set<Tid>, prio: Priorities)

  datatype Option<+T> = None | Some(value: T)

  const HOLD_LIMIT: nat := 0x100
  const NO_PRIORITY: nat := 0xFF

  datatype Step =
    | Take(t: Tid, time: int)
    | Release(t: Tid)
    | Expire(t: Tid)

  function Init(flag: Flag, prio: Priorities): State {
    State(flag, 1, None, NO_PRIORITY, 0, [], {}, prio)
  }

  /** Only a thread that is not waiting here can call. */
  predicate Enabled(s: State, step: Step) {
    match step
    case Take(t, _) => t in s.prio && t !in s.waiters
    case Release(t) => t in s.prio && t !in s.waiters
    case Expire(t) => t in s.timed
  }

  predicate WellFormed(s: State) {
    AllIn(s.waiters, s.prio) && (s.owner.Some? ==> s.owner.value in s.prio)
  }

  /** rt_thread_control with RT_THREAD_CTRL_CHANGE_PRIORITY. */
  function SetPriority(s: State, t: Tid, p: nat): State {
    s.(prio := s.prio[t := p])
  }

  /** Raise the owner to the priority of a more urgent newcomer. */
  function Inherit(s: State, t: Tid): (r: State)
    requires WellFormed(s) && t in s.prio && s.owner.Some?
    ensures r.prio.Keys == s.prio.Keys && r == s.(prio := r.prio)
  {
    var o := s.owner.value;
    if s.prio[t] < s.prio[o] then SetPriority(s, o, s.prio[t]) else s
  }

  /** rt_mutex_take up to the call of the scheduler (a taken mutex without an owner does not
      occur: the code would follow a null pointer). */
  function TakeStep(s: State, t: Tid, time: int): State
    requires WellFormed(s) && t in s.prio
  {
    if s.owner == Some(t) then s.(hold := (s.hold + 1) % HOLD_LIMIT)
    else if s.value > 0 then
      s.(value := s.value - 1, owner := Some(t), original := s.prio[t], hold := (s.hold + 1) % HOLD_LIMIT)
    else if time == 0 || s.owner.None? then s
    else
      var s1 := Inherit(s, t);
      s1.(waiters := Enqueue(s.flag, s1.prio, s.waiters, t),
          timed := if time > 0 then s.timed + {t} else s.timed)
  }

  /** rt_mutex_release: at the last release, restore the priority, then hand over or free. */
  function ReleaseStep(s: State, t: Tid): State
    requires WellFormed(s)
  {
    if s.owner != Some(t) then s
    else
      var hold := (s.hold + HOLD_LIMIT - 1) % HOLD_LIMIT;
      if hold != 0 then s.(hold := hold)
      else
        var s1 := if s.original != s.prio[t] then SetPriority(s, t, s.original) else s;
        if s.waiters != [] then
          var w := s.waiters[0];
          s1.(owner := Some(w), original := s1.prio[w], hold := 1,
              waiters := s.waiters[1..], timed := s.timed - {w})
        else
          s1.(value := s.value + 1, owner := None, original := NO_PRIORITY, hold := 0)
  }

  /** rt_thread_timeout on a waiter: it leaves the list; the owner keeps what it inherited. */
  function ExpireStep(s: State, t: Tid): State {
    s.(waiters := Without(s.waiters, t), timed := s.timed - {t})
  }

  function Next(s: State, step: Step): State
    requires WellFormed(s) && Enabled(s, step)
  {
    match step
    case Take(t, time) => TakeStep(s, t, time)
    case Release(t) => ReleaseStep(s, t)
    case Expire(t) => ExpireStep(s, t)
  }

  // ---- invariant -------------------------------------------------------------------------

  /** Free exactly when there is no owner and hold is zero; waiters imply an owner, who does
      not wait on its own mutex. */
  ghost predicate Owned(s: State) {
    && s.value <= 1
    && (s.value == 1 <==> s.owner.None?)
    && (s.hold == 0 <==> s.owner.None?)
    && s.hold < HOLD_LIMIT
    && (s.waiters != [] ==> s.owner.Some?)
    && (s.owner.Some? ==> s.owner.value !in s.waiters)
  }

  /** normal is what every thread's priority is outside the mutex: everybody but the owner has
      it now, the owner has it stored, and runs at least as urgently. */
  ghost predicate Inherits(normal: Priorities, s: State) {
    && s.prio.Keys == normal.Keys
    && (forall t :: t in normal && s.owner != Some(t) ==> s.prio[t] == normal[t])
    && (s.owner.Some? ==>
          && s.owner.value in normal
          && s.original == normal[s.owner.value]
          && s.prio[s.owner.value] <= normal[s.owner.value])
  }

  ghost predicate Inv(normal: Priorities, s: State) {
    && Owned(s)
    && Inherits(normal, s)
    && AllIn(s.waiters, s.prio) && Distinct(s.waiters)
    && (forall t :: t in s.timed ==> t in s.waiters)
  }

  /** With a priority-ordered wait list: the list is in order and the owner is at least as
      urgent as every waiter. */
  ghost predicate Urgent(s: State)
    requires AllIn(s.waiters, s.prio)
  {
    && Sorted(s.waiters, s.prio)
    && (s.owner.Some? && s.owner.value in s.prio ==>
          forall i :: 0 <= i < |s.waiters| ==> s.prio[s.owner.value] <= s.prio[s.waiters[i]])
  }

  /** A step that the 8 bit hold counter can count. */
  predicate Countable(s: State, step: Step) {
    step.Take? && s.owner == Some(step.t) ==> s.hold < HOLD_LIMIT - 1
  }

  lemma TakeKeeps(normal: Priorities, s: State, t: Tid, time: int)
    requires Inv(normal, s) && Enabled(s, Take(t, time)) && Countable(s, Take(t, time))
    ensures Inv(normal, TakeStep(s, t, time))
  {
    if s.owner != Some(t) && s.value == 0 && time != 0 {
      var s1 := Inherit(s, t);
      SamePrioritiesIn(s.waiters, s.prio, s1.prio);
      EnqueueKeeps(s.flag, s1.prio, s.waiters, t);
    }
  }

  lemma SamePrioritiesIn(ts: seq<Tid>, p: Priorities, q: Priorities)
    requires AllIn(ts, p) && p.Keys == q.Keys
    ensures AllIn(ts, q)
  {
  }

  lemma ReleaseKeeps(normal: Priorities, s: State, t: Tid)
    requires Inv(normal, s) && Enabled(s, Release(t))
    ensures Inv(normal, ReleaseStep(s, t))
  {
  }

  lemma ExpireKeeps(normal: Priorities, s: State, t: Tid)
    requires Inv(normal, s) && t in s.timed
    ensures Inv(normal, ExpireStep(s, t))
  {
    WithoutKeeps(s.waiters, t, s.prio);
  }

  lemma StepKeeps(normal: Priorities, s: State, step: Step)
    requires Inv(normal, s) && Enabled(s, step) && Countable(s, step)
    ensures Inv(normal, Next(s, step))
  {
    match step {
      case Take(t, time) => TakeKeeps(normal, s, t, time);
      case Release(t) => ReleaseKeeps(normal, s, t);
      case Expire(t) => ExpireKeeps(normal, s, t);
    }
  }

  // ---- urgency, for priority-ordered lists -----------------------------------------------

  lemma TakeStaysUrgent(normal: Priorities, s: State, t: Tid, time: int)
    requires Inv(normal, s) && Enabled(s, Take(t, time)) && Countable(s, Take(t, time))
    requires s.flag == Prio && Urgent(s)
    ensures AllIn(TakeStep(s, t, time).waiters, TakeStep(s, t, time).prio) && Urgent(TakeStep(s, t, time))
  {
    if s.owner != Some(t) && s.value == 0 && time != 0 {
      var s1 := Inherit(s, t);
      EnqueueKeeps(Prio, s1.prio, s.waiters, t);
    }
  }

  lemma ReleaseStaysUrgent(normal: Priorities, s: State, t: Tid)
    requires Inv(normal, s) && Enabled(s, Release(t)) && s.flag == Prio && Urgent(s)
    ensures AllIn(ReleaseStep(s, t).waiters, ReleaseStep(s, t).prio) && Urgent(ReleaseStep(s, t))
  {
  }

  lemma ExpireStaysUrgent(normal: Priorities, s: State, t: Tid)
    requires Inv(normal, s) && t in s.timed && s.flag == Prio && Urgent(s)
    ensures AllIn(ExpireStep(s, t).waiters, s.prio) && Urgent(ExpireStep(s, t))
  {
    WithoutKeeps(s.waiters, t, s.prio);
    var r := ExpireStep(s, t).waiters;
    forall i | 0 <= i < |r| ensures r[i] in s.waiters {
    }
  }

  lemma StepStaysUrgent(normal: Priorities, s: State, step: Step)
    requires Inv(normal, s) && Enabled(s, step) && Countable(s, step) && s.flag == Prio && Urgent(s)
    ensures var s' := Next(s, step); AllIn(s'.waiters, s'.prio) && Urgent(s') && s'.flag == Prio
  {
    match step {
      case Take(t, time) => TakeStaysUrgent(normal, s, t, time);
      case Release(t) => ReleaseStaysUrgent(normal, s, t);
      case Expire(t) => ExpireStaysUrgent(normal, s, t);
    }
  }

  // ---- whole runs ------------------------------------------------------------------------

  ghost predicate Reaches(s: State, steps: seq<Step>, s': State)
    decreases |steps|
  {
    if steps == [] then s' == s
    else
      && WellFormed(s) && Enabled(s, steps[0]) && Countable(s, steps[0])
      && Reaches(Next(s, steps[0]), steps[1..], s')
  }

  lemma {:induction false} RunKeeps(normal: Priorities, s: State, steps: seq<Step>, s': State)
    requires Inv(normal, s) && Reaches(s, steps, s') && (s.flag == Prio ==> Urgent(s))
    ensures Inv(normal, s') && s'.flag == s.flag && (s.flag == Prio ==> Urgent(s'))
    decreases |steps|
  {
    if steps != [] {
      StepKeeps(normal, s, steps[0]);
      if s.flag == Prio {
        StepStaysUrgent(normal, s, steps[0]);
      }
      FlagKeeps(s, steps[0]);
      RunKeeps(normal, Next(s, steps[0]), steps[1..], s');
    }
  }

  lemma FlagKeeps(s: State, step: Step)
    requires WellFormed(s) && Enabled(s, step)
    ensures Next(s, step).flag == s.flag
  {
  }

  /** Over every run of takes, releases and timeouts whose nesting fits the 8 bit counter. */
  lemma MutexSafety(flag: Flag, normal: Priorities, steps: seq<Step>, s: State)
    requires Reaches(Init(flag, normal), steps, s)
    ensures s.owner.None? <==> s.value == 1
    ensures s.owner.None? <==> s.hold == 0
    ensures s.waiters != [] ==> s.owner.Some? && s.owner.value !in s.waiters
    ensures forall t :: t in normal && s.owner != Some(t) ==> t in s.prio && s.prio[t] == normal[t]
    ensures flag == Prio && s.owner.Some? ==>
              forall i :: 0 <= i < |s.waiters| ==>
                s.owner.value in s.prio && s.waiters[i] in s.prio
                && s.prio[s.owner.value] <= s.prio[s.waiters[i]]
  {
    RunKeeps(normal, Init(flag, normal), steps, s);
  }

  /** The last release gives the owner back the priority it had when it acquired the mutex. */
  lemma ReleaseRestores(normal: Priorities, s: State, t: Tid)
    requires Inv(normal, s) && s.owner == Some(t) && s.hold == 1
    ensures var s' := ReleaseStep(s, t); t in s'.prio && s'.prio[t] == normal[t] && s'.owner != Some(t)
  {
  }

  // ---- what each step does ---------------------------------------------------------------

  /** rt_mutex_take: the owner counts up; a free mutex is taken, with the priority of its new owner noted;
      otherwise the caller is refused, or waits, and lends the owner its priority if it is more urgent. */
  lemma TakeDoes(normal: Priorities, s: State, t: Tid, time: int, x: Tid)
    requires Inv(normal, s) && Enabled(s, Take(t, time)) && Countable(s, Take(t, time))
    ensures var s' := Next(s, Take(t, time));
            if s.owner == Some(t) then s' == s.(hold := s.hold + 1)
            else if s.owner.None? then s' == s.(value := 0, owner := Some(t), original := s.prio[t], hold := 1)
            else if time == 0 then s' == s
            else
              && s'.owner == s.owner && s'.hold == s.hold && s'.value == s.value && s'.original == s.original
              && s'.prio.Keys == s.prio.Keys && AllIn(s.waiters, s'.prio) && s.owner.value in s.prio
              && s'.prio[s.owner.value] == (if s.prio[t] < s.prio[s.owner.value] then s.prio[t] else s.prio[s.owner.value])
              && (x in s.prio && x != s.owner.value ==> s'.prio[x] == s.prio[x])
              && Joins(s.flag, s'.prio, s.waiters, s'.waiters, t)
              && s'.timed - {t} == s.timed && (t in s'.timed <==> time > 0)
  {
    hide Joins, Enqueue, Sorted, Distinct;
    if s.owner.Some? && s.owner != Some(t) && time != 0 {
      var s1 := Inherit(s, t);
      SamePrioritiesIn(s.waiters, s.prio, s1.prio);
      EnqueueJoins(s.flag, s1.prio, s.waiters, t);
    }
  }

  /** rt_mutex_release: refused for all but the owner; an inner release counts down; the last one gives the
      owner its own priority back and the mutex to the first waiter, whose timer stops, or sets it free. */
  lemma ReleaseDoes(normal: Priorities, s: State, t: Tid, x: Tid)
    requires Inv(normal, s) && Enabled(s, Release(t))
    ensures var s' := Next(s, Release(t));
            if s.owner != Some(t) then s' == s
            else if s.hold > 1 then s' == s.(hold := s.hold - 1)
            else
              && s'.prio.Keys == s.prio.Keys && s'.prio[t] == normal[t] && (x in s.prio && x != t ==> s'.prio[x] == s.prio[x])
              && (if s.waiters == [] then s'.owner == None && s'.value == 1 && s'.hold == 0 && s'.waiters == [] && s'.timed == s.timed
                  else
                    && s.waiters == [s.waiters[0]] + s'.waiters && s'.owner == Some(s.waiters[0]) && s'.hold == 1
                    && s'.value == s.value == 0 && s.waiters[0] in normal && s'.original == normal[s.waiters[0]]
                    && s'.timed == s.timed - {s.waiters[0]})
  {
    hide Sorted, Distinct;
  }

  // ---- when the owner is never less urgent than a waiter ---------------------------------

  ghost predicate OwnerUrgent(s: State) {
    s.owner.Some? ==>
      forall i :: 0 <= i < |s.waiters| ==>
        s.owner.value in s.prio && s.waiters[i] in s.prio && s.prio[s.owner.value] <= s.prio[s.waiters[i]]
  }

  /** In no run from creation does a thread wait for one that is less urgent. */
  ghost predicate NeverInverts(flag: Flag, normal: Priorities) {
    forall steps: seq<Step>, s: State :: Reaches(Init(flag, normal), steps, s) ==> OwnerUrgent(s)
  }

  /** Three threads, of which the last is more urgent than the second. */
  ghost predicate Invertible(normal: Priorities, t0: Tid, t1: Tid, t2: Tid) {
    t0 in normal && t1 in normal && t2 in normal && t0 != t1 && t0 != t2 && normal[t2] < normal[t1]
  }

  lemma ReachesMore(s: State, step: Step, steps: seq<Step>, s': State)
    requires WellFormed(s) && Enabled(s, step) && Countable(s, step) && Reaches(Next(s, step), steps, s')
    ensures Reaches(s, [step] + steps, s')
  {
    assert ([step] + steps)[1..] == steps;
  }

  /** While t0 owns the mutex, t1 and then t2 queue up in arrival order. */
  function Queueing(normal: Priorities, t0: Tid, t1: Tid, t2: Tid): (State, State, State)
    requires t0 in normal && t1 in normal && t2 in normal
  {
    var s1 := State(Fifo, 0, Some(t0), normal[t0], 1, [], {}, normal);
    var s2 := Inherit(s1, t1).(waiters := [t1]);
    (s1, s2, Inherit(s2, t2).(waiters := [t1, t2]))
  }

  lemma Queues(normal: Priorities, t0: Tid, t1: Tid, t2: Tid)
    requires Invertible(normal, t0, t1, t2)
    ensures var s0, (s1, s2, s3) := Init(Fifo, normal), Queueing(normal, t0, t1, t2);
            && WellFormed(s0) && Enabled(s0, Take(t0, -1)) && Next(s0, Take(t0, -1)) == s1 && s1.owner == Some(t0)
            && WellFormed(s1) && Enabled(s1, Take(t1, -1)) && Next(s1, Take(t1, -1)) == s2 && s2.owner == Some(t0)
            && WellFormed(s2) && Enabled(s2, Take(t2, -1)) && Next(s2, Take(t2, -1)) == s3
  {
  }

  lemma HandsOver(normal: Priorities, t0: Tid, t1: Tid, t2: Tid)
    requires Invertible(normal, t0, t1, t2)
    ensures var s3 := Queueing(normal, t0, t1, t2).2;
            && WellFormed(s3) && Enabled(s3, Release(t0))
            && Next(s3, Release(t0)) == State(Fifo, 0, Some(t1), normal[t1], 1, [t2], {}, normal)
  {
    assert Queueing(normal, t0, t1, t2).2.prio[t0 := normal[t0]] == normal;
  }

  /** The release of t0 hands over to t1, and the more urgent t2 waits on. */
  lemma FifoInverts(normal: Priorities, t0: Tid, t1: Tid, t2: Tid)
    requires Invertible(normal, t0, t1, t2)
    ensures var s := State(Fifo, 0, Some(t1), normal[t1], 1, [t2], {}, normal);
            Reaches(Init(Fifo, normal), [Take(t0, -1)] + ([Take(t1, -1)] + ([Take(t2, -1)] + ([Release(t0)] + []))), s)
            && !OwnerUrgent(s)
  {
    hide Queueing, Next, Enabled, WellFormed, Reaches;
    var s := State(Fifo, 0, Some(t1), normal[t1], 1, [t2], {}, normal);
    var (s1, s2, s3) := Queueing(normal, t0, t1, t2);
    Queues(normal, t0, t1, t2);
    HandsOver(normal, t0, t1, t2);
    ReachesNow(s);
    ReachesMore(s3, Release(t0), [], s);
    ReachesMore(s2, Take(t2, -1), [Release(t0)] + [], s);
    ReachesMore(s1, Take(t1, -1), [Take(t2, -1)] + ([Release(t0)] + []), s);
    ReachesMore(Init(Fifo, normal), Take(t0, -1), [Take(t1, -1)] + ([Take(t2, -1)] + ([Release(t0)] + [])), s);
    assert s.waiters[0] == t2;
  }

  lemma ReachesNow(s: State)
    ensures Reaches(s, [], s)
  {
  }

  lemma TakeKeepsOwner(normal: Priorities, s: State, t: Tid, time: int)
    requires Inv(normal, s) && Enabled(s, Take(t, time)) && OwnerUrgent(s)
    ensures OwnerUrgent(TakeStep(s, t, time))
  {
    hide Enqueue, Sorted, Distinct;
    if s.owner != Some(t) && s.value == 0 && time != 0 {
      EnqueueKeeps(s.flag, Inherit(s, t).prio, s.waiters, t);
      var r := TakeStep(s, t, time).waiters;
      assert forall i :: 0 <= i < |r| ==> r[i] == t || r[i] in s.waiters;
    }
  }

  /** A handover that leaves waiters involves three threads. */
  lemma ReleaseKeepsOwner(normal: Priorities, s: State, t: Tid)
    requires Inv(normal, s) && Enabled(s, Release(t)) && OwnerUrgent(s)
    requires forall t0, t1, t2 :: !Invertible(normal, t0, t1, t2)
    ensures OwnerUrgent(ReleaseStep(s, t))
  {
    hide Sorted;
    var s' := ReleaseStep(s, t);
    if s.owner == Some(t) && s'.owner != s.owner && s.waiters != [] {
      forall i | 0 <= i < |s'.waiters| ensures normal[s.waiters[0]] <= normal[s'.waiters[i]] {
        assert !Invertible(normal, t, s.waiters[0], s.waiters[i + 1]);
      }
    }
  }

  lemma ExpireKeepsOwner(normal: Priorities, s: State, t: Tid)
    requires Inv(normal, s) && OwnerUrgent(s)
    ensures OwnerUrgent(ExpireStep(s, t))
  {
    hide Without, Sorted, Distinct;
    WithoutKeeps(s.waiters, t, s.prio);
    var r := ExpireStep(s, t).waiters;
    assert forall i :: 0 <= i < |r| ==> r[i] in s.waiters;
  }

  lemma StepStaysOwnerUrgent(normal: Priorities, s: State, step: Step)
    requires Inv(normal, s) && Enabled(s, step) && Countable(s, step) && OwnerUrgent(s)
    requires forall t0, t1, t2 :: !Invertible(normal, t0, t1, t2)
    ensures WellFormed(s) && OwnerUrgent(Next(s, step))
  {
    hide OwnerUrgent, TakeStep, ReleaseStep, ExpireStep, Invertible;
    match step
    case Take(t, time) => TakeKeepsOwner(normal, s, t, time);
    case Release(t) => ReleaseKeepsOwner(normal, s, t);
    case Expire(t) => ExpireKeepsOwner(normal, s, t);
  }

  lemma {:induction false} RunStaysOwnerUrgent(normal: Priorities, s: State, steps: seq<Step>, s': State)
    requires Inv(normal, s) && OwnerUrgent(s) && Reaches(s, steps, s')
    requires forall t0, t1, t2 :: !Invertible(normal, t0, t1, t2)
    ensures OwnerUrgent(s')
    decreases |steps|
  {
    if steps != [] {
      StepStaysOwnerUrgent(normal, s, steps[0]);
      StepKeeps(normal, s, steps[0]);
      RunStaysOwnerUrgent(normal, Next(s, steps[0]), steps[1..], s');
    }
  }

  /** Exactly: the owner is at least as urgent as every waiter in all runs if and only if the mutex was
      created with a priority queue, or no three threads use it of which one is more urgent than
      another - that is, at most two threads or all of the same priority. */
  lemma NeverInvertsExactly(flag: Flag, normal: Priorities)
    ensures NeverInverts(flag, normal) <==> flag == Prio || forall t0, t1, t2 :: !Invertible(normal, t0, t1, t2)
  {
    hide Inv, Reaches, OwnerUrgent;
    InitInv(flag, normal);
    if flag == Prio {
      forall steps: seq<Step>, s: State | Reaches(Init(flag, normal), steps, s) ensures OwnerUrgent(s) {
        UrgentOwner(normal, steps, s);
      }
    } else if exists t0, t1, t2 :: Invertible(normal, t0, t1, t2) {
      var t0, t1, t2 :| Invertible(normal, t0, t1, t2);
      FifoInverts(normal, t0, t1, t2);
      var steps := [Take(t0, -1)] + ([Take(t1, -1)] + ([Take(t2, -1)] + ([Release(t0)] + [])));
      var s := State(Fifo, 0, Some(t1), normal[t1], 1, [t2], {}, normal);
      assert flag == Fifo && Reaches(Init(flag, normal), steps, s) && !OwnerUrgent(s);
    } else {
      forall steps: seq<Step>, s: State | Reaches(Init(flag, normal), steps, s) ensures OwnerUrgent(s) {
        RunStaysOwnerUrgent(normal, Init(flag, normal), steps, s);
      }
    }
  }

  lemma InitInv(flag: Flag, normal: Priorities)
    ensures Inv(normal, Init(flag, normal)) && OwnerUrgent(Init(flag, normal))
  {
  }

  lemma UrgentOwner(normal: Priorities, steps: seq<Step>, s: State)
    requires Reaches(Init(Prio, normal), steps, s)
    ensures OwnerUrgent(s)
  {
    MutexSafety(Prio, normal, steps, s);
  }

  // ---- the 8 bit counter -----------------------------------------------------------------

  /** A run whose nesting need not fit the counter. */
  ghost predicate Runs(s: State, steps: seq<Step>, s': State)
    decreases |steps|
  {
    if steps == [] then s' == s
    else WellFormed(s) && Enabled(s, steps[0]) && Runs(Next(s, steps[0]), steps[1..], s')
  }

  /** The mutex after n takes by one thread. */
  function Nested(flag: Flag, normal: Priorities, t: Tid, n: nat): State
    requires t in normal
  {
    if n == 0 then Init(flag, normal) else State(flag, 0, Some(t), normal[t], n % HOLD_LIMIT, [], {}, normal)
  }

  lemma {:induction false} NestedRuns(flag: Flag, normal: Priorities, t: Tid, k: nat, n: nat)
    requires t in normal && k <= n
    ensures Runs(Nested(flag, normal, t, k), seq(n - k, _ => Take(t, 0)), Nested(flag, normal, t, n))
    decreases n - k
  {
    if k < n {
      assert Next(Nested(flag, normal, t, k), Take(t, 0)) == Nested(flag, normal, t, k + 1);
      NestedRuns(flag, normal, t, k + 1, n);
      assert seq(n - k, _ => Take(t, 0))[1..] == seq(n - k - 1, _ => Take(t, 0));
    }
  }

  /** Exactly: all states of a run of n takes by one thread are in order if and only if n is less than
      256. The 256th take leaves an owned mutex with hold zero. */
  lemma HoldWrapsExactly(flag: Flag, normal: Priorities, t: Tid, n: nat)
    requires t in normal
    ensures Runs(Init(flag, normal), seq(n, _ => Take(t, 0)), Nested(flag, normal, t, n))
    ensures (forall k :: 0 <= k <= n ==> Owned(Nested(flag, normal, t, k))) <==> n < HOLD_LIMIT
    ensures var s := Nested(flag, normal, t, HOLD_LIMIT); s.owner == Some(t) && s.hold == 0
  {
    NestedRuns(flag, normal, t, 0, n);
    if n >= HOLD_LIMIT {
      assert !Owned(Nested(flag, normal, t, HOLD_LIMIT));
    }
  }

  /** How many releases free the mutex after n takes. */
  function Needed(n: nat): nat {
    if n == 0 then 0 else (n - 1) % HOLD_LIMIT + 1
  }

  /** The mutex after n takes and k releases by one thread. */
  function Unwound(flag: Flag, normal: Priorities, t: Tid, n: nat, k: nat): State
    requires t in normal
  {
    if k >= Needed(n) then Init(flag, normal)
    else State(flag, 0, Some(t), normal[t], (Needed(n) - k) % HOLD_LIMIT, [], {}, normal)
  }

  lemma UnwindStep(flag: Flag, normal: Priorities, t: Tid, n: nat, k: nat)
    requires t in normal
    ensures var s := Unwound(flag, normal, t, n, k);
            WellFormed(s) && Enabled(s, Release(t)) && Next(s, Release(t)) == Unwound(flag, normal, t, n, k + 1)
  {
  }

  lemma UnwindStart(flag: Flag, normal: Priorities, t: Tid, n: nat)
    requires t in normal
    ensures Unwound(flag, normal, t, n, 0) == Nested(flag, normal, t, n)
  {
  }

  lemma {:induction false} Unwinds(flag: Flag, normal: Priorities, t: Tid, n: nat, j: nat, k: nat)
    requires t in normal && j <= k
    ensures Runs(Unwound(flag, normal, t, n, j), seq(k - j, _ => Release(t)), Unwound(flag, normal, t, n, k))
    decreases k - j
  {
    hide Unwound, Next, Enabled, WellFormed;
    if j < k {
      UnwindStep(flag, normal, t, n, j);
      Unwinds(flag, normal, t, n, j + 1, k);
      assert seq(k - j, _ => Release(t))[1..] == seq(k - j - 1, _ => Release(t));
    }
  }

  lemma {:induction false} RunsAppend(s: State, a: seq<Step>, s1: State, b: seq<Step>, s2: State)
    requires Runs(s, a, s1) && Runs(s1, b, s2)
    ensures Runs(s, a + b, s2)
    decreases |a|
  {
    hide Next, Enabled, WellFormed;
    if a == [] {
      assert a + b == b;
    } else {
      assert (a + b)[1..] == a[1..] + b;
      RunsAppend(Next(s, a[0]), a[1..], s1, b, s2);
    }
  }

  /** Each of n takes needs its release: the mutex stays owned until the n-th. */
  ghost predicate Balances(flag: Flag, normal: Priorities, t: Tid, n: nat)
    requires t in normal
  {
    forall k :: 0 <= k <= n ==> (Unwound(flag, normal, t, n, k).owner.None? <==> k == n)
  }

  /** Exactly: over the runs of n takes and then k releases by one thread, the mutex is owned through n - 1
      releases and free after the n-th if and only if n is at most 256. The 257th take is lost: one
      release then frees the mutex. */
  lemma BalancesExactly(flag: Flag, normal: Priorities, t: Tid, n: nat, k: nat)
    requires t in normal && n > 0
    ensures Runs(Init(flag, normal), seq(n, _ => Take(t, 0)) + seq(k, _ => Release(t)), Unwound(flag, normal, t, n, k))
    ensures Balances(flag, normal, t, n) <==> n <= HOLD_LIMIT
    ensures Unwound(flag, normal, t, HOLD_LIMIT + 1, 1).owner.None?
  {
    hide Runs;
    NestedRuns(flag, normal, t, 0, n);
    UnwindStart(flag, normal, t, n);
    Unwinds(flag, normal, t, n, 0, k);
    RunsAppend(Init(flag, normal), seq(n, _ => Take(t, 0)), Nested(flag, normal, t, n), seq(k, _ => Release(t)), Unwound(flag, normal, t, n, k));
    if n > HOLD_LIMIT {
      assert Unwound(flag, normal, t, n, Needed(n)).owner.None?;
    }
  }

  /** One step: a recursive take keeps the ownership invariant exactly below the limit. */
  lemma HoldOverflows(normal: Priorities, s: State, t: Tid)
    requires Inv(normal, s) && s.owner == Some(t)
    ensures Owned(TakeStep(s, t, 0)) <==> s.hold < HOLD_LIMIT - 1
  {
  }

  // ---- the object ------------------------------------------------------------------------

  ghost predicate Good(normal: Priorities, s: State) {
    Inv(normal, s) && (s.flag == Prio ==> Urgent(s))
  }

  lemma GoodSteps(normal: Priorities, s: State, step: Step)
    requires Good(normal, s) && Enabled(s, step) && Countable(s, step)
    ensures WellFormed(s) && Good(normal, Next(s, step))
  {
    StepKeeps(normal, s, step);
    if s.flag == Prio {
      StepStaysUrgent(normal, s, step);
    }
  }

  /** What the methods read off a good state. */
  lemma GoodFacts(normal: Priorities, s: State)
    requires Good(normal, s)
    ensures WellFormed(s) && s.hold < HOLD_LIMIT && s.value <= 1
    ensures (s.value == 0 <==> s.owner.Some?) && (s.hold == 0 <==> s.owner.None?)
    ensures forall t :: t in s.timed ==> t in s.waiters
  {
  }

  class Mutex {
    const flag: Flag
    var value: nat
    var owner: Option<Tid>
    var original: nat
    var hold: nat
    var suspended: seq<Tid>
    var timed: set<Tid>
    var prio: Priorities     // current_priority of the threads
    ghost const normal: Priorities

    ghost function Now(): State
      reads this
    {
      State(flag, value, owner, original, hold, suspended, timed, prio)
    }

    ghost predicate Valid()
      reads this
    {
      Good(normal, Now())
    }

    constructor (flag: Flag, prio: Priorities)
      ensures Valid() && Now() == Init(flag, prio) && normal == prio
    {
      this.flag, this.prio, normal := flag, prio, prio;
      value, owner, original, hold, suspended, timed := 1, None, NO_PRIORITY, 0, [], {};
    }

    /** rt_mutex_take; blocked says that the caller is now suspended. */
    method Take(t: Tid, time: int) returns (ok: bool, blocked: bool)
      requires Valid() && Enabled(Now(), Step.Take(t, time)) && Countable(Now(), Step.Take(t, time))
      modifies this
      ensures Valid() && Now() == TakeStep(old(Now()), t, time)
      ensures ok <==> old(owner) == Some(t) || old(owner).None?
      ensures blocked <==> !ok && time != 0
    {
      hide Good;
      GoodSteps(normal, Now(), Step.Take(t, time));
      GoodFacts(normal, Now());
      ok, blocked := true, false;
      if owner == Some(t) {
        hold := (hold + 1) % HOLD_LIMIT;
      } else if value > 0 {
        value := value - 1;
        owner := Some(t);
        original := prio[t];
        hold := (hold + 1) % HOLD_LIMIT;
      } else {
        ok := false;
        if time != 0 {
          if prio[t] < prio[owner.value] {
            prio := prio[owner.value := prio[t]];
          }
          suspended := Suspend(flag, prio, suspended, t);
          if time > 0 {
            timed := timed + {t};
          }
          blocked := true;
        }
      }
    }

    /** rt_mutex_release; refused unless the caller owns the mutex. */
    method Release(t: Tid) returns (ok: bool, reschedule: bool)
      requires Valid() && Enabled(Now(), Step.Release(t))
      modifies this
      ensures Valid() && Now() == ReleaseStep(old(Now()), t)
      ensures ok <==> old(owner) == Some(t)
      ensures reschedule <==> ok && old(hold) == 1 && old(suspended) != []
    {
      hide Good;
      GoodSteps(normal, Now(), Step.Release(t));
      GoodFacts(normal, Now());
      if owner != Some(t) {
        return false, false;
      }
      ok, reschedule := true, false;
      hold := (hold + HOLD_LIMIT - 1) % HOLD_LIMIT;
      if hold == 0 {
        if original != prio[t] {
          prio := prio[t := original];
        }
        if suspended != [] {
          var w := suspended[0];
          owner := Some(w);
          original := prio[w];
          hold := hold + 1;
          suspended := suspended[1..];
          timed := timed - {w};
          reschedule := true;
        } else {
          value := value + 1;
          owner := None;
          original := NO_PRIORITY;
        }
      }
    }

    method Expire(t: Tid)
      requires Valid() && t in timed
      modifies this
      ensures Valid() && Now() == ExpireStep(old(Now()), t)
    {
      GoodSteps(normal, Now(), Step.Expire(t));
      suspended := Without(suspended, t);
      timed := timed - {t};
    }
  }
}
