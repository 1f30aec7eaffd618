/**
 The counting semaphore as a step protocol: every interrupt-disabled region is one step, and
 blocked takes, releases, timeouts and returns interleave freely.
 */
module Semaphore {
  import opened NatLists
  import opened IpcList

  const LIMIT: nat := 0x1_0000   // value is a 16 bit counter

  /** How a blocked take ended, or how far it got. */
  datatype Event = Blocked(t: Tid) | Handed(t: Tid) | TimedOut(t: Tid) | Dropped(t: Tid)

  datatype Error = Ok | Timeout | Failed

  /** value, waiters and flag are the object; timed is the set of waiters whose thread timer
      runs; woken the threads resumed but not yet returned, with their error code. The ledger
      counts since initialization or the last reset. */
  datatype Sem = Sem(
    flag: Flag, value: nat, waiters: seq<Tid>, timed: set<Tid>, woken: map<Tid, Error>,
    initial: nat, releases: nat, takes: nat, handovers: nat, wraps: nat,
    history: multiset<Event>)

  datatype Step =
    | Take(t: Tid, time: int)
    | Release
    | Expire(t: Tid)          // the thread timer of a waiter
    | Return(t: Tid)          // a resumed thread leaves rt_sem_take
    | Reset(v: nat)

  function Init(flag: Flag, value: nat): Sem {
    Sem(flag, value % LIMIT, [], {}, map[], value % LIMIT, 0, 0, 0, 0, multiset{})
  }

  predicate Enabled(prio: Priorities, s: Sem, step: Step) {
    match step
    case Take(t, _) => t in prio && t !in s.waiters && t !in s.woken
    case Expire(t) => t in s.timed
    case Return(t) => t in s.woken
    case _ => true
  }

  predicate WellFormed(prio: Priorities, s: Sem) {
    AllIn(s.waiters, prio)
  }

  /** rt_sem_take up to the call of the scheduler. */
  function TakeStep(prio: Priorities, s: Sem, t: Tid, time: int): Sem
    requires WellFormed(prio, s) && t in prio
  {
    if s.value > 0 then s.(value := s.value - 1, takes := s.takes + 1)
    else if time == 0 then s
    else s.(waiters := Enqueue(s.flag, prio, s.waiters, t),
            timed := if time > 0 then s.timed + {t} else s.timed,
            history := s.history + multiset{Blocked(t)})
  }

  /** rt_sem_release: hand over to the first waiter, or count up, wrapping at 16 bits. */
  function ReleaseStep(s: Sem): Sem {
    if s.waiters != [] then
      var t := s.waiters[0];
      s.(waiters := s.waiters[1..], timed := s.timed - {t}, woken := s.woken[t := Ok],
         releases := s.releases + 1, handovers := s.handovers + 1,
         history := s.history + multiset{Handed(t)})
    else
      s.(value := (s.value + 1) % LIMIT, releases := s.releases + 1,
         wraps := s.wraps + (s.value + 1) / LIMIT)
  }

  /** rt_thread_timeout on a thread waiting here. */
  function ExpireStep(s: Sem, t: Tid): Sem {
    s.(waiters := Without(s.waiters, t), timed := s.timed - {t}, woken := s.woken[t := Timeout],
       history := s.history + multiset{TimedOut(t)})
  }

  function WokenAll(woken: map<Tid, Error>, ts: seq<Tid>): map<Tid, Error>
    decreases ts
  {
    if ts == [] then woken else WokenAll(woken[ts[0] := Failed], ts[1..])
  }

  function DroppedAll(h: multiset<Event>, ts: seq<Tid>): multiset<Event>
    decreases ts
  {
    if ts == [] then h else DroppedAll(h + multiset{Dropped(ts[0])}, ts[1..])
  }

  /** rt_sem_control with RT_IPC_CMD_RESET; a new ledger starts. */
  function ResetStep(s: Sem, v: nat): Sem {
    s.(value := v % LIMIT, waiters := [], timed := s.timed - (set t | t in s.waiters),
       woken := WokenAll(s.woken, s.waiters),
       initial := v % LIMIT, releases := 0, takes := 0, handovers := 0, wraps := 0,
       history := DroppedAll(s.history, s.waiters))
  }

  function Next(prio: Priorities, s: Sem, step: Step): Sem
    requires WellFormed(prio, s) && Enabled(prio, s, step)
  {
    match step
    case Take(t, time) => TakeStep(prio, s, t, time)
    case Release => ReleaseStep(s)
    case Expire(t) => ExpireStep(s, t)
    case Return(t) => s.(woken := s.woken - {t})
    case Reset(v) => ResetStep(s, v)
  }

  // ---- invariant -------------------------------------------------------------------------

  /** Every blocked take of t has ended exactly once, but for the one t is in now. */
  ghost predicate EachEndsOnce(s: Sem) {
    forall t: Tid ::
      s.history[Blocked(t)]
      == s.history[Handed(t)] + s.history[TimedOut(t)] + s.history[Dropped(t)] + (if t in s.waiters then 1 else 0)
  }

  /** Units are conserved: what came in is still there, was taken, was handed over, or was
      lost to a wrap of the 16 bit counter. */
  ghost predicate Conserved(s: Sem) {
    s.initial + s.releases == s.value + s.takes + s.handovers + LIMIT * s.wraps
  }

  ghost predicate Inv(prio: Priorities, s: Sem) {
    && s.value < LIMIT
    && (s.value > 0 ==> s.waiters == [])
    && AllIn(s.waiters, prio) && Distinct(s.waiters)
    && (s.flag == Prio ==> Sorted(s.waiters, prio))
    && (forall t :: t in s.timed ==> t in s.waiters)
    && (forall t :: t in s.woken ==> t !in s.waiters)
    && Conserved(s)
    && EachEndsOnce(s)
  }

  lemma {:induction false} TakeKeeps(prio: Priorities, s: Sem, t: Tid, time: int)
    requires Inv(prio, s) && Enabled(prio, s, Take(t, time))
    ensures Inv(prio, TakeStep(prio, s, t, time))
  {
    EnqueueKeeps(s.flag, prio, s.waiters, t);
  }

  lemma ReleaseKeeps(prio: Priorities, s: Sem)
    requires Inv(prio, s)
    ensures Inv(prio, ReleaseStep(s))
  {
  }

  lemma ExpireKeeps(prio: Priorities, s: Sem, t: Tid)
    requires Inv(prio, s) && t in s.timed
    ensures Inv(prio, ExpireStep(s, t))
  {
    WithoutKeeps(s.waiters, t, prio);
  }

  lemma {:induction false} DroppedAllIs(h: multiset<Event>, ts: seq<Tid>, e: Event)
    requires Distinct(ts)
    ensures DroppedAll(h, ts)[e] == h[e] + (if e.Dropped? && e.t in ts then 1 else 0)
    decreases ts
  {
    if ts != [] {
      var h1 := h + multiset{Dropped(ts[0])};
      DroppedAllIs(h1, ts[1..], e);
    }
  }

  lemma ResetKeeps(prio: Priorities, s: Sem, v: nat)
    requires Inv(prio, s)
    ensures Inv(prio, ResetStep(s, v))
  {
    var s' := ResetStep(s, v);
    forall t: Tid
      ensures s'.history[Blocked(t)] == s'.history[Handed(t)] + s'.history[TimedOut(t)] + s'.history[Dropped(t)]
    {
      DroppedAllIs(s.history, s.waiters, Blocked(t));
      DroppedAllIs(s.history, s.waiters, Handed(t));
      DroppedAllIs(s.history, s.waiters, TimedOut(t));
      DroppedAllIs(s.history, s.waiters, Dropped(t));
    }
  }

  lemma StepKeeps(prio: Priorities, s: Sem, step: Step)
    requires Inv(prio, s) && Enabled(prio, s, step)
    ensures Inv(prio, Next(prio, s, step))
  {
    match step {
      case Take(t, time) => TakeKeeps(prio, s, t, time);
      case Release => ReleaseKeeps(prio, s);
      case Expire(t) => ExpireKeeps(prio, s, t);
      case Return(t) =>
      case Reset(v) => ResetKeeps(prio, s, v);
    }
  }

  // ---- whole runs ------------------------------------------------------------------------

  /** s' is reached from s by these steps, each enabled in its turn. */
  ghost predicate Reaches(prio: Priorities, s: Sem, steps: seq<Step>, s': Sem)
    decreases |steps|
  {
    if steps == [] then s' == s
    else
      && WellFormed(prio, s) && Enabled(prio, s, steps[0])
      && Reaches(prio, Next(prio, s, steps[0]), steps[1..], s')
  }

  lemma {:induction false} RunKeeps(prio: Priorities, s: Sem, steps: seq<Step>, s': Sem)
    requires Inv(prio, s) && Reaches(prio, s, steps, s')
    ensures Inv(prio, s')
    decreases |steps|
  {
    if steps != [] {
      StepKeeps(prio, s, steps[0]);
      RunKeeps(prio, Next(prio, s, steps[0]), steps[1..], s');
    }
  }

  /** Over every run from initialization: units are conserved up to counted wraps, a positive
      value means nobody waits, and every blocked take ends exactly once. */
  lemma SemaphoreSafety(prio: Priorities, flag: Flag, value: nat, steps: seq<Step>, s: Sem)
    requires Reaches(prio, Init(flag, value), steps, s)
    ensures s.initial + s.releases == s.value + s.takes + s.handovers + LIMIT * s.wraps
    ensures s.value > 0 ==> s.waiters == []
    ensures EachEndsOnce(s)
  {
    var s0 := Init(flag, value);
    RunKeeps(prio, s0, steps, s);
  }

  /** The counter loses units exactly when a release finds it at its 16 bit limit with nobody
      waiting. */
  lemma ReleaseWrapsExactlyAtLimit(prio: Priorities, s: Sem)
    requires Inv(prio, s)
    ensures ReleaseStep(s).wraps == s.wraps <==> !(s.waiters == [] && s.value == LIMIT - 1)
    ensures s.waiters == [] ==> (ReleaseStep(s).value == s.value + 1 <==> s.value != LIMIT - 1)
  {
  }

  /** The semaphore after n releases that nobody waits for. */
  function Released(flag: Flag, v: nat, n: nat): Sem {
    var total := v % LIMIT + n;
    Init(flag, v).(value := total % LIMIT, releases := n, wraps := total / LIMIT)
  }

  lemma {:induction false} ReleasedRuns(prio: Priorities, flag: Flag, v: nat, k: nat, n: nat)
    requires k <= n
    ensures Reaches(prio, Released(flag, v, k), seq(n - k, _ => Release), Released(flag, v, n))
    decreases n - k
  {
    if k < n {
      assert Next(prio, Released(flag, v, k), Release) == Released(flag, v, k + 1);
      ReleasedRuns(prio, flag, v, k + 1, n);
      assert seq(n - k, _ => Release)[1..] == seq(n - k - 1, _ => Release);
    }
  }

  /** Exactly: n releases of a new semaphore add up if and only if the sum fits 16 bits. One release
      at the limit leaves zero. */
  lemma ReleasesAddUpExactly(prio: Priorities, flag: Flag, v: nat, n: nat)
    requires v < LIMIT
    ensures var s := Released(flag, v, n);
            && Reaches(prio, Init(flag, v), seq(n, _ => Release), s)
            && (s.value == v + n <==> v + n < LIMIT)
            && (v == LIMIT - 1 && n == 1 ==> s.value == 0)
  {
    ReleasedRuns(prio, flag, v, 0, n);
  }

  // ---- the ledger, from the steps --------------------------------------------------------

  /** What an observer counts who sees the calls and the value and wait list each call finds. */
  datatype Tally = Tally(initial: nat, releases: nat, granted: nat, handed: nat, lost: nat)

  function Counted(s: Sem, step: Step, c: Tally): Tally {
    match step
    case Take(_, _) => if s.value > 0 then c.(granted := c.granted + 1) else c
    case Release =>
      if s.waiters != [] then c.(releases := c.releases + 1, handed := c.handed + 1)
      else if s.value == LIMIT - 1 then c.(releases := c.releases + 1, lost := c.lost + 1)
      else c.(releases := c.releases + 1)
    case Reset(v) => Tally(v % LIMIT, 0, 0, 0, 0)
    case _ => c
  }

  ghost function CountedAll(prio: Priorities, s: Sem, steps: seq<Step>, c: Tally): Tally
    decreases |steps|
  {
    if steps == [] || !WellFormed(prio, s) || !Enabled(prio, s, steps[0]) then c
    else CountedAll(prio, Next(prio, s, steps[0]), steps[1..], Counted(s, steps[0], c))
  }

  ghost predicate Booked(s: Sem, c: Tally) {
    && s.initial == c.initial && s.releases == c.releases && s.takes == c.granted && s.handovers == c.handed
    && s.wraps == c.lost
  }

  lemma StepBooked(prio: Priorities, s: Sem, step: Step, c: Tally)
    requires Inv(prio, s) && Enabled(prio, s, step) && Booked(s, c)
    ensures Booked(Next(prio, s, step), Counted(s, step, c))
  {
    hide Sorted, Distinct, Without, Enqueue, EachEndsOnce, WokenAll, DroppedAll, Conserved;
  }

  lemma {:induction false} RunBooked(prio: Priorities, s: Sem, steps: seq<Step>, s': Sem, c: Tally)
    requires Inv(prio, s) && Reaches(prio, s, steps, s') && Booked(s, c)
    ensures Inv(prio, s') && Booked(s', CountedAll(prio, s, steps, c))
    decreases |steps|
  {
    hide Inv, Counted, Booked, Next, Enabled;
    if steps != [] {
      StepKeeps(prio, s, steps[0]);
      StepBooked(prio, s, steps[0], c);
      RunBooked(prio, Next(prio, s, steps[0]), steps[1..], s', Counted(s, steps[0], c));
    }
  }

  /** Over every run, counted from its steps since the last reset: what there was and what was released
      is still there, was granted at once, was handed to a waiter, or was lost, 2^16 at a time, to a
      release that found the counter full. */
  lemma UnitsConserved(prio: Priorities, flag: Flag, value: nat, steps: seq<Step>, s: Sem)
    requires Reaches(prio, Init(flag, value), steps, s)
    ensures var c := CountedAll(prio, Init(flag, value), steps, Tally(value % LIMIT, 0, 0, 0, 0));
            c.initial + c.releases == s.value + c.granted + c.handed + LIMIT * c.lost
  {
    RunBooked(prio, Init(flag, value), steps, s, Tally(value % LIMIT, 0, 0, 0, 0));
  }

  // ---- what each step does ---------------------------------------------------------------

  /** rt_sem_take: a unit is taken at once, or the caller is refused, or it waits, with its timer running
      exactly if it has a limit. */
  lemma TakeDoes(prio: Priorities, s: Sem, t: Tid, time: int)
    requires Inv(prio, s) && Enabled(prio, s, Take(t, time))
    ensures var s' := Next(prio, s, Take(t, time));
            && s'.flag == s.flag && s'.woken == s.woken
            && (if s.value > 0 then s'.value == s.value - 1 && s'.waiters == s.waiters && s'.timed == s.timed
                else
                  && s'.value == 0
                  && (if time == 0 then s'.waiters == s.waiters && s'.timed == s.timed
                      else && Joins(s.flag, prio, s.waiters, s'.waiters, t)
                           && s'.timed - {t} == s.timed && (t in s'.timed <==> time > 0)))
  {
    hide Joins, Enqueue, Sorted, Distinct, EachEndsOnce, Conserved;
    EnqueueJoins(s.flag, prio, s.waiters, t);
  }

  /** rt_sem_release: the first waiter gets the unit and its timer stops, or the value goes up, to zero
      from the limit. */
  lemma ReleaseDoes(prio: Priorities, s: Sem)
    requires Inv(prio, s)
    ensures var s' := Next(prio, s, Release);
            && s'.flag == s.flag
            && (if s.waiters != [] then
                  && s'.value == s.value == 0 && s.waiters == [s.waiters[0]] + s'.waiters
                  && s'.timed == s.timed - {s.waiters[0]} && s'.woken == s.woken[s.waiters[0] := Ok]
                else
                  && s'.waiters == [] && s'.timed == s.timed && s'.woken == s.woken
                  && (s'.value == s.value + 1 || (s.value == LIMIT - 1 && s'.value == 0)))
  {
    hide Sorted, Distinct, EachEndsOnce, Conserved;
  }

  /** A timeout takes exactly that waiter away; a reset takes all of them, each with an error. */
  lemma FailuresDo(prio: Priorities, s: Sem, t: Tid, v: nat, x: Tid)
    requires Inv(prio, s) && t in s.timed
    ensures var s' := Next(prio, s, Expire(t));
            && s'.value == s.value && s'.woken == s.woken[t := Timeout] && s'.timed == s.timed - {t} && t !in s'.waiters
            && (x != t ==> (x in s'.waiters <==> x in s.waiters))
    ensures var s' := Next(prio, s, Reset(v));
            && s'.value == v % LIMIT && s'.waiters == [] && s'.timed == {}
            && (x in s.waiters ==> x in s'.woken && s'.woken[x] == Failed)
            && (x !in s.waiters ==> (x in s'.woken <==> x in s.woken) && (x in s.woken ==> s'.woken[x] == s.woken[x]))
  {
    hide Without, Sorted, EachEndsOnce, Conserved, WokenAll, DroppedAll;
    WithoutKeeps(s.waiters, t, prio);
    WokenAllIs(s.woken, s.waiters, x);
  }

  lemma {:induction false} WokenAllIs(woken: map<Tid, Error>, ts: seq<Tid>, x: Tid)
    requires Distinct(ts)
    ensures var r := WokenAll(woken, ts);
            && (x in ts ==> x in r && r[x] == Failed)
            && (x !in ts ==> (x in r <==> x in woken) && (x in woken ==> r[x] == woken[x]))
    decreases |ts|
  {
    if ts != [] {
      WokenAllIs(woken[ts[0] := Failed], ts[1..], x);
    }
  }

  // ---- the object ------------------------------------------------------------------------

  class Semaphore {
    const flag: Flag
    var value: nat
    var suspended: seq<Tid>
    var timed: set<Tid>
    var woken: map<Tid, Error>
    ghost var ledger: Sem

    ghost predicate Valid(prio: Priorities)
      reads this
    {
      && Inv(prio, ledger)
      && ledger.flag == flag && ledger.value == value && ledger.waiters == suspended
      && ledger.timed == timed && ledger.woken == woken
    }

    constructor (prio: Priorities, flag: Flag, value: nat)
      ensures Valid(prio) && ledger == Init(flag, value)
    {
      this.flag, this.value, suspended, timed, woken := flag, value % LIMIT, [], {}, map[];
      ledger := Init(flag, value);
    }

    /** rt_sem_take; blocked says that the caller is now suspended. */
    method Take(prio: Priorities, t: Tid, time: int) returns (r: Error, blocked: bool)
      requires Valid(prio) && Enabled(prio, ledger, Step.Take(t, time))
      modifies this
      ensures Valid(prio) && ledger == Next(prio, old(ledger), Step.Take(t, time))
      ensures blocked <==> old(value) == 0 && time != 0
      ensures !blocked ==> r == if old(value) > 0 then Ok else Timeout
    {
      StepKeeps(prio, ledger, Step.Take(t, time));
      ledger := Next(prio, ledger, Step.Take(t, time));
      r, blocked := Ok, false;
      if value > 0 {
        value := value - 1;
      } else if time == 0 {
        r := Timeout;
      } else {
        suspended := Suspend(flag, prio, suspended, t);
        if time > 0 {
          timed := timed + {t};
        }
        blocked := true;
      }
    }

    /** rt_sem_release; reschedule says that a thread was resumed. */
    method Release(prio: Priorities) returns (reschedule: bool)
      requires Valid(prio)
      modifies this
      ensures Valid(prio) && ledger == ReleaseStep(old(ledger))
      ensures reschedule <==> old(suspended) != []
    {
      ledger := ReleaseStep(ledger);
      reschedule := suspended != [];
      if suspended != [] {
        Resume(Ok);
      } else {
        value := (value + 1) % LIMIT;
      }
    }

    /** rt_ipc_list_resume: the first waiter leaves the list and its timer stops. */
    method Resume(code: Error)
      requires suspended != []
      modifies this`suspended, this`timed, this`woken
      ensures suspended == old(suspended)[1..] && timed == old(timed) - {old(suspended)[0]}
      ensures woken == old(woken)[old(suspended)[0] := code]
    {
      var t := suspended[0];
      suspended := suspended[1..];
      timed := timed - {t};
      woken := woken[t := code];
    }

    method Expire(prio: Priorities, t: Tid)
      requires Valid(prio) && t in timed
      modifies this
      ensures Valid(prio) && ledger == ExpireStep(old(ledger), t)
    {
      ExpireKeeps(prio, ledger, t);
      ledger := ExpireStep(ledger, t);
      suspended := Without(suspended, t);
      timed := timed - {t};
      woken := woken[t := Timeout];
    }

    /** The reset loop: resume every waiter with an error, then set the value. */
    method Reset(prio: Priorities, v: nat)
      requires Valid(prio)
      modifies this
      ensures Valid(prio) && ledger == ResetStep(old(ledger), v)
    {
      ghost var w, d := suspended, timed;
      while suspended != []
        invariant WokenAll(woken, suspended) == WokenAll(old(woken), w)
        invariant timed - (set t | t in suspended) == d - (set t | t in w)
        invariant unchanged(this`value, this`ledger)
        decreases |suspended|
        modifies this`suspended, this`timed, this`woken
      {
        Resume(Failed);
      }
      value := v % LIMIT;
      ResetKeeps(prio, ledger, v);
      ledger := ResetStep(ledger, v);
    }
  }
}
