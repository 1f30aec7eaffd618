/**
 The message queue as the code has it: nodes, wait list, and what each calling thread knows. This
 machine has no deque in it; running the deque of MessageQueue on the same steps gives the messages
 that its nodes carry.
 */
module MessageNodes {
  import opened IpcList
  import opened MessageQueue

  /** A call between its two critical sections: the sender's buffer, or a receiver, which only has the
      node. */
  datatype Call = Send(msg: Msg, urgent: bool, copied: bool) | Recv

  datatype Machine = Machine(flag: Flag, size: nat, pool: Pool, calls: map<Tid, Call>, waits: Waits)

  predicate Outside(n: Machine, t: Tid) {
    t !in n.calls && t !in n.waits.list && t !in n.waits.failed
  }

  predicate Sends(n: Machine, t: Tid, copied: bool) {
    t in n.calls && n.calls[t].Send? && n.calls[t].copied == copied && Holds(n.pool, t)
  }

  /** rt_mq_send and rt_mq_urgent, first region. */
  ghost predicate Takes(n: Machine, t: Tid, msg: Msg, urgent: bool, n': Machine) {
    && Outside(n, t) && t !in n.waits.woken
    && if |msg| > n.size || n.pool.free == [] then n' == n
       else n.pool.free[0] < |n.pool.place| && n' == n.(pool := PoolTake(n.pool, t), calls := n.calls[t := Send(msg, urgent, false)])
  }

  ghost predicate Copies(n: Machine, t: Tid, n': Machine) {
    && Sends(n, t, false) && |n.calls[t].msg| <= |n.pool.slots[n.pool.held[t]]|
    && n' == n.(pool := PoolCopy(n.pool, t, n.calls[t].msg), calls := n.calls[t := n.calls[t].(copied := true)])
  }

  ghost predicate Links(n: Machine, t: Tid, n': Machine) {
    && Sends(n, t, true)
    && n' == n.(pool := PoolLink(n.pool, t, n.calls[t].urgent), calls := n.calls - {t}, waits := Wake(n.waits))
  }

  /** One turn of the loop of rt_mq_recv. */
  ghost predicate Unlinks(prio: Priorities, n: Machine, t: Tid, timeout: int, n': Machine) {
    && Outside(n, t) && t in prio && AllIn(n.waits.list, prio)
    && var w := n.waits.(woken := n.waits.woken - {t});
       if n.pool.queue == [] then n' == n.(waits := if timeout == 0 then w else Block(n.flag, prio, w, t, timeout))
       else n.pool.queue[0] < |n.pool.place| && n' == n.(pool := PoolUnlink(n.pool, t), calls := n.calls[t := Recv], waits := w)
  }

  ghost predicate GivesBack(n: Machine, t: Tid, n': Machine) {
    t in n.calls && n.calls[t].Recv? && Holds(n.pool, t) && n' == n.(pool := PoolGiveBack(n.pool, t), calls := n.calls - {t})
  }

  ghost predicate Steps(prio: Priorities, n: Machine, step: Step, n': Machine) {
    match step
    case Take(t, msg, urgent) => Takes(n, t, msg, urgent, n')
    case Copy(t) => Copies(n, t, n')
    case Link(t) => Links(n, t, n')
    case Unlink(t, timeout) => Unlinks(prio, n, t, timeout, n')
    case GiveBack(t) => GivesBack(n, t, n')
    case Expire(t) => t in n.waits.timed && n' == n.(waits := Give(n.waits, t))
    case Return(t) => t in n.waits.failed && n' == n.(waits := n.waits.(failed := n.waits.failed - {t}))
    case Reset => Partition(n.pool) && n' == n.(pool := PoolReset(n.pool), waits := FailAll(n.waits))
  }

  function Start(flag: Flag, size: nat, slots: seq<Msg>): Machine {
    Machine(flag, size, InitPool(slots), map[], Waits([], {}, {}, {}))
  }

  ghost predicate Runs(prio: Priorities, n: Machine, steps: seq<Step>, n': Machine)
    decreases |steps|
  {
    if steps == [] then n' == n
    else exists m :: Steps(prio, n, steps[0], m) && Runs(prio, m, steps[1..], n')
  }

  // ---- machine and deque side by side ----------------------------------------------------

  function CallOf(job: Job): Call {
    match job
    case Sending(msg, urgent, copied) => Send(msg, urgent, copied)
    case Receiving(_) => Recv
  }

  function Calls(jobs: map<Tid, Job>): map<Tid, Call> {
    map t | t in jobs :: CallOf(jobs[t])
  }

  /** The state of MessageQueue without its deque. */
  function Erased(s: State): Machine {
    Machine(s.flag, s.size, s.pool, Calls(s.deque.jobs), s.waits)
  }

  lemma CallsChange(jobs: map<Tid, Job>, t: Tid, job: Job)
    ensures Calls(jobs[t := job]) == Calls(jobs)[t := CallOf(job)] && Calls(jobs - {t}) == Calls(jobs) - {t}
  {
  }

  lemma EraseTake(prio: Priorities, s: State, t: Tid, msg: Msg, urgent: bool)
    requires Inv(prio, s) && Enabled(prio, s, Take(t, msg, urgent))
    ensures Takes(Erased(s), t, msg, urgent, Erased(TakeStep(prio, s, t, msg, urgent)))
  {
    hide Partition, Refines, Calls, CallOf, Full;
    FullIsNoFree(s.deque, s.pool, s.size);
    CallsHave(s.deque.jobs, t);
    CallsChange(s.deque.jobs, t, Sending(msg, urgent, false));
    CallIs(Sending(msg, urgent, false));
    if |msg| <= s.size {
      TakeRefines(s.deque, s.pool, s.size, t, msg, urgent);
    }
  }

  lemma CallIs(job: Job)
    ensures CallOf(job) == if job.Sending? then Send(job.msg, job.urgent, job.copied) else Recv
  {
  }

  lemma CallsHave(jobs: map<Tid, Job>, t: Tid)
    ensures t in Calls(jobs) <==> t in jobs
    ensures t in jobs ==> Calls(jobs)[t] == CallOf(jobs[t])
  {
  }

  lemma EraseCopy(prio: Priorities, s: State, t: Tid)
    requires Inv(prio, s) && IsSending(s.deque, t, false)
    ensures Copies(Erased(s), t, Erased(CopyStep(prio, s, t)))
  {
    hide Partition, Refines, Calls, PoolCopy;
    CallsHave(s.deque.jobs, t);
    CallsChange(s.deque.jobs, t, s.deque.jobs[t].(copied := true));
    CopyRefines(s.deque, s.pool, s.size, t);
  }

  lemma EraseLink(prio: Priorities, s: State, t: Tid)
    requires Inv(prio, s) && IsSending(s.deque, t, true)
    ensures Links(Erased(s), t, Erased(LinkStep(prio, s, t)))
  {
    hide Partition, Refines, Calls, PoolLink;
    CallsHave(s.deque.jobs, t);
    CallsChange(s.deque.jobs, t, s.deque.jobs[t]);
    LinkRefines(s.deque, s.pool, s.size, t);
  }

  lemma EraseUnlink(prio: Priorities, s: State, t: Tid, timeout: int)
    requires Inv(prio, s) && Idle(s, t) && t in prio
    ensures Unlinks(prio, Erased(s), t, timeout, Erased(UnlinkStep(prio, s, t, timeout)))
  {
    hide Partition, Calls, CallOf, PoolUnlink, Block;
    CallsHave(s.deque.jobs, t);
    if s.deque.msgs != [] {
      CallsChange(s.deque.jobs, t, Receiving(s.deque.msgs[0]));
      CallIs(Receiving(s.deque.msgs[0]));
      UnlinkRefines(s.deque, s.pool, s.size, t);
    }
  }

  lemma EraseGiveBack(prio: Priorities, s: State, t: Tid)
    requires Inv(prio, s) && IsReceiving(s.deque, t)
    ensures GivesBack(Erased(s), t, Erased(GiveBackStep(prio, s, t)))
  {
    hide Partition, Refines, Calls, PoolGiveBack;
    CallsHave(s.deque.jobs, t);
    CallsChange(s.deque.jobs, t, s.deque.jobs[t]);
    GiveBackRefines(s.deque, s.pool, s.size, t);
  }

  /** Whatever the pair can do, the machine alone can do. */
  lemma StepErases(prio: Priorities, s: State, step: Step)
    requires Inv(prio, s) && Enabled(prio, s, step)
    ensures Steps(prio, Erased(s), step, Erased(Next(prio, s, step)))
  {
    match step {
      case Take(t, msg, urgent) => EraseTake(prio, s, t, msg, urgent);
      case Copy(t) => EraseCopy(prio, s, t);
      case Link(t) => EraseLink(prio, s, t);
      case Unlink(t, timeout) => EraseUnlink(prio, s, t, timeout);
      case GiveBack(t) => EraseGiveBack(prio, s, t);
      case _ =>
    }
  }

  /** The machine can do nothing else, and a step has one outcome. */
  lemma StepLifts(prio: Priorities, s: State, step: Step, n': Machine)
    requires Inv(prio, s) && Steps(prio, Erased(s), step, n')
    ensures Enabled(prio, s, step) && Erased(Next(prio, s, step)) == n'
  {
    LiftsEnabled(prio, s, step, n');
    StepErases(prio, s, step);
    OneOutcome(prio, Erased(s), step, n', Erased(Next(prio, s, step)));
  }

  lemma LiftsEnabled(prio: Priorities, s: State, step: Step, n': Machine)
    requires Inv(prio, s) && Steps(prio, Erased(s), step, n')
    ensures Enabled(prio, s, step)
  {
    hide Inv, Calls, Partition;
    match step {
      case Take(t, _, _) => CallsHave(s.deque.jobs, t);
      case Copy(t) => CallsHave(s.deque.jobs, t);
      case Link(t) => CallsHave(s.deque.jobs, t);
      case Unlink(t, _) => CallsHave(s.deque.jobs, t);
      case GiveBack(t) => CallsHave(s.deque.jobs, t);
      case _ =>
    }
  }

  lemma OneOutcome(prio: Priorities, n: Machine, step: Step, a: Machine, b: Machine)
    requires Steps(prio, n, step, a) && Steps(prio, n, step, b)
    ensures a == b
  {
  }

  /** Every run of the machine is a run of the pair. */
  lemma {:induction false} RunLifts(prio: Priorities, s: State, steps: seq<Step>, n': Machine) returns (s': State)
    requires Inv(prio, s) && Runs(prio, Erased(s), steps, n')
    ensures Reaches(prio, s, steps, s') && Erased(s') == n'
    decreases |steps|
  {
    hide Inv, Steps, Enabled, Next, Erased;
    s' := s;
    if steps != [] {
      var m :| Steps(prio, Erased(s), steps[0], m) && Runs(prio, m, steps[1..], n');
      StepLifts(prio, s, steps[0], m);
      StepKeeps(prio, s, steps[0]);
      s' := RunLifts(prio, Next(prio, s, steps[0]), steps[1..], n');
    }
  }

  /** Refinement: after any run of the machine from rt_mq_init, the deque run on the same steps - send
      appends, urgent prepends, receive takes the front, reset empties - is what its nodes carry: the
      queued nodes hold its messages in order, each call in progress holds the node of its message, and
      no wakeup is lost. */
  lemma NodesRefineDeque(prio: Priorities, flag: Flag, size: nat, slots: seq<Msg>, steps: seq<Step>, n: Machine)
    requires forall i :: 0 <= i < |slots| ==> |slots[i]| == size
    requires Runs(prio, Start(flag, size, slots), steps, n)
    ensures var d := DequeRun(Deque(|slots|, [], map[]), size, steps);
            Refines(d, n.pool, size) && n.calls == Calls(d.jobs) && NoLostWakeup(|d.msgs|, n.waits)
  {
    hide Partition, JobsCarry, QueueCarries, WaitsOk, Runs, Reaches, DequeRun, InitPool;
    var s0 := Init(flag, size, slots);
    InitInv(prio, flag, size, slots);
    assert Calls(map[]) == map[];
    var s := RunLifts(prio, s0, steps, n);
    RunKeeps(prio, s0, steps, s);
    RunIsDequeRun(prio, s0, steps, s);
    SizeKept(prio, s0, steps, s);
  }

  lemma {:induction false} SizeKept(prio: Priorities, s: State, steps: seq<Step>, s': State)
    requires Inv(prio, s) && Reaches(prio, s, steps, s')
    ensures s'.size == s.size
    decreases |steps|
  {
    if steps != [] {
      StepKeeps(prio, s, steps[0]);
      StepIsDequeStep(prio, s, steps[0]);
      SizeKept(prio, Next(prio, s, steps[0]), steps[1..], s');
    }
  }
}
