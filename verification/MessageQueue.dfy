/**
 The message queue: a pool of nodes linked into a free list and a queue. A send or a receive is
 two critical sections with a copy between them, in which the node belongs to the thread alone;
 other threads may run at every point in between.
 */
module MessageQueue {
  import opened NatLists
  import opened IpcList

  type Msg = seq<nat>
  type Node = nat

  // ---- what a message queue is: a bounded deque ------------------------------------------

  /** A call that is between its two critical sections. */
  datatype Job = Sending(msg: Msg, urgent: bool, copied: bool) | Receiving(msg: Msg)

  /** The messages in order and the calls in progress; no node in sight. */
  datatype Deque = Deque(max: nat, msgs: seq<Msg>, jobs: map<Tid, Job>)

  /** Each message and each call in progress takes one of max places. */
  predicate Full(d: Deque) {
    |d.msgs| + |d.jobs| == d.max
  }

  function DequeTake(d: Deque, t: Tid, msg: Msg, urgent: bool): Deque {
    if Full(d) then d else d.(jobs := d.jobs[t := Sending(msg, urgent, false)])
  }

  predicate IsSending(d: Deque, t: Tid, copied: bool) {
    t in d.jobs && d.jobs[t].Sending? && d.jobs[t].copied == copied
  }

  predicate IsReceiving(d: Deque, t: Tid) {
    t in d.jobs && d.jobs[t].Receiving?
  }

  function DequeCopy(d: Deque, t: Tid): Deque
    requires IsSending(d, t, false)
  {
    d.(jobs := d.jobs[t := d.jobs[t].(copied := true)])
  }

  function DequeLink(d: Deque, t: Tid): Deque
    requires IsSending(d, t, true)
  {
    d.(msgs := if d.jobs[t].urgent then [d.jobs[t].msg] + d.msgs else d.msgs + [d.jobs[t].msg],
       jobs := d.jobs - {t})
  }

  function DequeUnlink(d: Deque, t: Tid): Deque
    requires d.msgs != []
  {
    d.(msgs := d.msgs[1..], jobs := d.jobs[t := Receiving(d.msgs[0])])
  }

  function DequeGiveBack(d: Deque, t: Tid): Deque {
    d.(jobs := d.jobs - {t})
  }

  // ---- the pool of nodes -----------------------------------------------------------------

  datatype Place = Free | Queued | Held(tid: Tid)

  /** The free list and the queue as node sequences, the node each call in progress holds, the
      slot of each node, and where each node is. */
  datatype Pool = Pool(free: seq<Node>, queue: seq<Node>, held: map<Tid, Node>, slots: seq<Msg>, place: seq<Place>)

  function PoolTake(p: Pool, t: Tid): Pool
    requires p.free != [] ==> p.free[0] < |p.place|
  {
    if p.free == [] then p
    else p.(free := p.free[1..], held := p.held[t := p.free[0]], place := p.place[p.free[0] := Held(t)])
  }

  predicate Holds(p: Pool, t: Tid) {
    t in p.held && p.held[t] < |p.slots| == |p.place|
  }

  /** memcpy into the slot: what lies beyond the message stays. */
  function Overlay(slot: Msg, msg: Msg): (r: Msg)
    requires |msg| <= |slot|
    ensures |r| == |slot| && r[..|msg|] == msg
  {
    msg + slot[|msg|..]
  }

  function PoolCopy(p: Pool, t: Tid, msg: Msg): Pool
    requires Holds(p, t) && |msg| <= |p.slots[p.held[t]]|
  {
    var n := p.held[t];
    p.(slots := p.slots[n := Overlay(p.slots[n], msg)])
  }

  function PoolLink(p: Pool, t: Tid, urgent: bool): Pool
    requires Holds(p, t)
  {
    p.(queue := if urgent then [p.held[t]] + p.queue else p.queue + [p.held[t]],
       held := p.held - {t}, place := p.place[p.held[t] := Queued])
  }

  function PoolUnlink(p: Pool, t: Tid): Pool
    requires p.queue != [] && p.queue[0] < |p.place|
  {
    p.(queue := p.queue[1..], held := p.held[t := p.queue[0]], place := p.place[p.queue[0] := Held(t)])
  }

  function PoolGiveBack(p: Pool, t: Tid): Pool
    requires Holds(p, t)
  {
    p.(free := [p.held[t]] + p.free, held := p.held - {t}, place := p.place[p.held[t] := Free])
  }

  /** One turn of the reset loop moves the first queued node onto the free list. */
  function PoolDrop(p: Pool): Pool
    requires p.queue != [] && p.queue[0] < |p.place|
  {
    p.(free := [p.queue[0]] + p.free, queue := p.queue[1..], place := p.place[p.queue[0] := Free])
  }

  // ---- nodes are partitioned -------------------------------------------------------------

  /** A list holds exactly the nodes of one place, each once. */
  ghost predicate Lists(nodes: seq<Node>, place: seq<Place>, what: Place) {
    && Distinct(nodes)
    && (forall n :: n in nodes ==> n < |place| && place[n] == what)
    && (forall n :: 0 <= n < |place| && place[n] == what ==> n in nodes)
  }

  ghost predicate HeldBy(held: map<Tid, Node>, place: seq<Place>) {
    && (forall t :: t in held ==> held[t] < |place| && place[held[t]] == Held(t))
    && (forall n :: 0 <= n < |place| && place[n].Held? ==> place[n].tid in held && held[place[n].tid] == n)
  }

  /** Every node is free, queued or held, and only one of these. */
  ghost predicate Partition(p: Pool) {
    && |p.place| == |p.slots|
    && Lists(p.free, p.place, Free) && Lists(p.queue, p.place, Queued) && HeldBy(p.held, p.place)
    && |p.free| + |p.queue| + |p.held| == |p.slots|
  }

  /** A node moves from the front of a list. */
  lemma ListsPop(nodes: seq<Node>, place: seq<Place>, what: Place, other: Place)
    requires Lists(nodes, place, what) && nodes != [] && other != what
    ensures nodes[0] < |place| && place[nodes[0]] == what && Lists(nodes[1..], place[nodes[0] := other], what)
  {
  }

  /** A node from elsewhere joins a list, at the front or at the end. */
  lemma ListsPush(nodes: seq<Node>, place: seq<Place>, what: Place, n: Node)
    requires Lists(nodes, place, what) && n < |place| && place[n] != what
    ensures Lists([n] + nodes, place[n := what], what) && Lists(nodes + [n], place[n := what], what)
  {
  }

  /** A node moves between two other places. */
  lemma ListsOther(nodes: seq<Node>, place: seq<Place>, what: Place, n: Node, other: Place)
    requires Lists(nodes, place, what) && n < |place| && place[n] != what && other != what
    ensures Lists(nodes, place[n := other], what)
  {
  }

  lemma HeldTake(held: map<Tid, Node>, place: seq<Place>, t: Tid, n: Node)
    requires HeldBy(held, place) && t !in held && n < |place| && !place[n].Held?
    ensures HeldBy(held[t := n], place[n := Held(t)]) && |held[t := n]| == |held| + 1
  {
  }

  lemma HeldDrop(held: map<Tid, Node>, place: seq<Place>, t: Tid, to: Place)
    requires HeldBy(held, place) && t in held && !to.Held?
    ensures held[t] < |place| && HeldBy(held - {t}, place[held[t] := to]) && |held - {t}| == |held| - 1
  {
  }

  lemma HeldOther(held: map<Tid, Node>, place: seq<Place>, n: Node, to: Place)
    requires HeldBy(held, place) && n < |place| && !place[n].Held? && !to.Held?
    ensures HeldBy(held, place[n := to])
  {
  }

  lemma HeldAt(held: map<Tid, Node>, place: seq<Place>, t: Tid)
    requires HeldBy(held, place) && t in held
    ensures held[t] < |place| && place[held[t]] == Held(t)
  {
  }

  lemma TakePartition(p: Pool, t: Tid)
    requires Partition(p) && t !in p.held
    ensures p.free != [] ==> p.free[0] < |p.place|
    ensures Partition(PoolTake(p, t))
  {
    if p.free != [] {
      ListsPop(p.free, p.place, Free, Held(t));
      ListsOther(p.queue, p.place, Queued, p.free[0], Held(t));
      HeldTake(p.held, p.place, t, p.free[0]);
    }
  }

  lemma UnlinkPartition(p: Pool, t: Tid)
    requires Partition(p) && t !in p.held && p.queue != []
    ensures p.queue[0] < |p.place|
    ensures Partition(PoolUnlink(p, t))
  {
    ListsPop(p.queue, p.place, Queued, Held(t));
    ListsOther(p.free, p.place, Free, p.queue[0], Held(t));
    HeldTake(p.held, p.place, t, p.queue[0]);
  }

  lemma LinkPartition(p: Pool, t: Tid, urgent: bool)
    requires Partition(p) && t in p.held
    ensures Holds(p, t)
    ensures Partition(PoolLink(p, t, urgent))
  {
    HeldAt(p.held, p.place, t);
    HeldDrop(p.held, p.place, t, Queued);
    ListsPush(p.queue, p.place, Queued, p.held[t]);
    ListsOther(p.free, p.place, Free, p.held[t], Queued);
  }

  lemma GiveBackPartition(p: Pool, t: Tid)
    requires Partition(p) && t in p.held
    ensures Holds(p, t)
    ensures Partition(PoolGiveBack(p, t))
  {
  }

  lemma DropPartition(p: Pool)
    requires Partition(p) && p.queue != []
    ensures p.queue[0] < |p.place| && Partition(PoolDrop(p))
  {
    ListsPop(p.queue, p.place, Queued, Free);
    ListsPush(p.free, p.place, Free, p.queue[0]);
    HeldOther(p.held, p.place, p.queue[0], Free);
  }

  /** The reset loop. */
  function PoolReset(p: Pool): Pool
    requires Partition(p)
    decreases |p.queue|
  {
    if p.queue == [] then p
    else
      DropPartition(p);
      PoolReset(PoolDrop(p))
  }

  lemma {:induction false} ResetPartition(p: Pool)
    requires Partition(p)
    ensures var q := PoolReset(p); Partition(q) && q.queue == [] && q.held == p.held && q.slots == p.slots
    decreases |p.queue|
  {
    if p.queue != [] {
      DropPartition(p);
      ResetPartition(PoolDrop(p));
    }
  }

  // ---- the pool carries the deque --------------------------------------------------------

  predicate Carries(slot: Msg, msg: Msg) {
    |msg| <= |slot| && slot[..|msg|] == msg
  }

  /** The n-th queued node holds the n-th message. */
  ghost predicate QueueCarries(msgs: seq<Msg>, queue: seq<Node>, slots: seq<Msg>) {
    && |queue| == |msgs|
    && (forall i :: 0 <= i < |msgs| ==> queue[i] < |slots| && Carries(slots[queue[i]], msgs[i]))
  }

  predicate Complete(job: Job) {
    job.Sending? ==> job.copied
  }

  /** A call in progress holds the node of its message, complete once copied. */
  ghost predicate JobsCarry(jobs: map<Tid, Job>, held: map<Tid, Node>, slots: seq<Msg>, size: nat) {
    && jobs.Keys == held.Keys
    && (forall t :: t in jobs ==> held[t] < |slots| && |jobs[t].msg| <= size)
    && (forall t :: t in jobs && Complete(jobs[t]) ==> Carries(slots[held[t]], jobs[t].msg))
  }

  ghost predicate Refines(d: Deque, p: Pool, size: nat) {
    && Partition(p) && d.max == |p.slots|
    && (forall i :: 0 <= i < |p.slots| ==> |p.slots[i]| == size)
    && QueueCarries(d.msgs, p.queue, p.slots)
    && JobsCarry(d.jobs, p.held, p.slots, size)
  }

  /** The free list is empty exactly when every place is taken. */
  lemma FullIsNoFree(d: Deque, p: Pool, size: nat)
    requires Refines(d, p, size)
    ensures Full(d) <==> p.free == []
  {
  }

  lemma JobsStart(jobs: map<Tid, Job>, held: map<Tid, Node>, slots: seq<Msg>, size: nat, t: Tid, job: Job, n: Node)
    requires JobsCarry(jobs, held, slots, size) && n < |slots| && |job.msg| <= size
    requires Complete(job) ==> Carries(slots[n], job.msg)
    ensures JobsCarry(jobs[t := job], held[t := n], slots, size)
  {
  }

  lemma JobsEnd(jobs: map<Tid, Job>, held: map<Tid, Node>, slots: seq<Msg>, size: nat, t: Tid)
    requires JobsCarry(jobs, held, slots, size)
    ensures JobsCarry(jobs - {t}, held - {t}, slots, size)
  {
  }

  lemma TakeRefines(d: Deque, p: Pool, size: nat, t: Tid, msg: Msg, urgent: bool)
    requires Refines(d, p, size) && t !in d.jobs && |msg| <= size
    ensures p.free != [] ==> p.free[0] < |p.place|
    ensures Refines(DequeTake(d, t, msg, urgent), PoolTake(p, t), size)
  {
    TakePartition(p, t);
    if p.free != [] {
      JobsStart(d.jobs, p.held, p.slots, size, t, Sending(msg, urgent, false), p.free[0]);
    }
  }

  lemma CopyQueue(msgs: seq<Msg>, queue: seq<Node>, slots: seq<Msg>, n: Node, slot: Msg)
    requires QueueCarries(msgs, queue, slots) && n < |slots|
    requires forall i :: 0 <= i < |queue| ==> queue[i] != n
    ensures QueueCarries(msgs, queue, slots[n := slot])
  {
  }

  lemma CopyJobs(jobs: map<Tid, Job>, held: map<Tid, Node>, slots: seq<Msg>, size: nat, t: Tid, slot: Msg)
    requires JobsCarry(jobs, held, slots, size) && t in jobs && held[t] < |slots|
    requires jobs[t].Sending? && Carries(slot, jobs[t].msg)
    requires forall u :: u in held && u != t ==> held[u] != held[t]
    ensures JobsCarry(jobs[t := jobs[t].(copied := true)], held, slots[held[t] := slot], size)
  {
  }

  lemma CopyRefines(d: Deque, p: Pool, size: nat, t: Tid)
    requires Refines(d, p, size) && IsSending(d, t, false)
    ensures Holds(p, t) && |d.jobs[t].msg| <= |p.slots[p.held[t]]|
    ensures Refines(DequeCopy(d, t), PoolCopy(p, t, d.jobs[t].msg), size)
  {
    var n, msg := p.held[t], d.jobs[t].msg;
    var slot := Overlay(p.slots[n], msg);
    CopyQueue(d.msgs, p.queue, p.slots, n, slot);
    CopyJobs(d.jobs, p.held, p.slots, size, t, slot);
  }

  lemma LinkRefines(d: Deque, p: Pool, size: nat, t: Tid)
    requires Refines(d, p, size) && IsSending(d, t, true)
    ensures Holds(p, t)
    ensures Refines(DequeLink(d, t), PoolLink(p, t, d.jobs[t].urgent), size)
  {
    LinkPartition(p, t, d.jobs[t].urgent);
    JobsEnd(d.jobs, p.held, p.slots, size, t);
    PushQueue(d.msgs, p.queue, p.slots, d.jobs[t].msg, p.held[t]);
  }

  lemma PushQueue(msgs: seq<Msg>, queue: seq<Node>, slots: seq<Msg>, msg: Msg, n: Node)
    requires QueueCarries(msgs, queue, slots) && n < |slots| && Carries(slots[n], msg)
    ensures QueueCarries([msg] + msgs, [n] + queue, slots)
    ensures QueueCarries(msgs + [msg], queue + [n], slots)
  {
  }

  lemma UnlinkRefines(d: Deque, p: Pool, size: nat, t: Tid)
    requires Refines(d, p, size) && t !in d.jobs && d.msgs != []
    ensures p.queue != [] && p.queue[0] < |p.place|
    ensures Refines(DequeUnlink(d, t), PoolUnlink(p, t), size)
  {
    UnlinkPartition(p, t);
    JobsStart(d.jobs, p.held, p.slots, size, t, Receiving(d.msgs[0]), p.queue[0]);
  }

  /** What a receiver copies out is still the message it took off the queue. */
  lemma GiveBackRefines(d: Deque, p: Pool, size: nat, t: Tid)
    requires Refines(d, p, size) && IsReceiving(d, t)
    ensures Holds(p, t) && Carries(p.slots[p.held[t]], d.jobs[t].msg)
    ensures Refines(DequeGiveBack(d, t), PoolGiveBack(p, t), size)
  {
    GiveBackPartition(p, t);
    JobsEnd(d.jobs, p.held, p.slots, size, t);
  }

  lemma ResetRefines(d: Deque, p: Pool, size: nat)
    requires Refines(d, p, size)
    ensures Refines(d.(msgs := []), PoolReset(p), size)
  {
    ResetPartition(p);
  }

  // ---- the waiting receivers -------------------------------------------------------------

  /** The wait list, the waiters whose thread timer runs, the receivers resumed by a message but
      not yet rerun, and those resumed with an error. */
  datatype Waits = Waits(list: seq<Tid>, timed: set<Tid>, woken: set<Tid>, failed: set<Tid>)

  function Wake(w: Waits): Waits {
    if w.list == [] then w
    else w.(list := w.list[1..], timed := w.timed - {w.list[0]}, woken := w.woken + {w.list[0]})
  }

  function Block(flag: Flag, prio: Priorities, w: Waits, t: Tid, timeout: int): Waits
    requires AllIn(w.list, prio) && t in prio
  {
    w.(list := Enqueue(flag, prio, w.list, t), timed := if timeout > 0 then w.timed + {t} else w.timed)
  }

  function Give(w: Waits, t: Tid): Waits {
    w.(list := Without(w.list, t), timed := w.timed - {t}, failed := w.failed + {t})
  }

  function FailAll(w: Waits): Waits {
    w.(list := [], timed := {}, failed := w.failed + (set t | t in w.list))
  }

  ghost predicate WaitsOk(flag: Flag, prio: Priorities, w: Waits) {
    && AllIn(w.list, prio) && Distinct(w.list) && (flag == Prio ==> Sorted(w.list, prio))
    && (forall t :: t in w.list ==> t !in w.woken && t !in w.failed)
    && (forall t :: t in w.timed ==> t in w.list)
  }

  /** While a receiver is suspended, every message present is covered by a woken receiver. */
  predicate NoLostWakeup(messages: nat, w: Waits) {
    w.list != [] ==> messages <= |w.woken|
  }

  lemma WakeOk(flag: Flag, prio: Priorities, w: Waits, messages: nat)
    requires WaitsOk(flag, prio, w) && NoLostWakeup(messages, w)
    ensures WaitsOk(flag, prio, Wake(w)) && NoLostWakeup(messages + 1, Wake(w))
  {
  }

  lemma RerunOk(flag: Flag, prio: Priorities, w: Waits, t: Tid, messages: nat)
    requires WaitsOk(flag, prio, w) && NoLostWakeup(messages, w)
    ensures var w' := w.(woken := w.woken - {t});
            WaitsOk(flag, prio, w') && (messages > 0 ==> NoLostWakeup(messages - 1, w'))
  {
    hide Distinct, Sorted, AllIn;
    assert w.woken == (w.woken - {t}) + if t in w.woken then {t} else {};
  }

  lemma BlockOk(flag: Flag, prio: Priorities, w: Waits, t: Tid, timeout: int)
    requires WaitsOk(flag, prio, w) && t in prio && t !in w.list && t !in w.woken && t !in w.failed
    ensures WaitsOk(flag, prio, Block(flag, prio, w, t, timeout)) && NoLostWakeup(0, Block(flag, prio, w, t, timeout))
  {
    hide Enqueue, Distinct, Sorted, AllIn;
    EnqueueKeeps(flag, prio, w.list, t);
  }

  lemma GiveOk(flag: Flag, prio: Priorities, w: Waits, t: Tid, messages: nat)
    requires WaitsOk(flag, prio, w) && NoLostWakeup(messages, w)
    ensures WaitsOk(flag, prio, Give(w, t)) && NoLostWakeup(messages, Give(w, t))
  {
    WithoutKeeps(w.list, t, prio);
  }

  // ---- the machine -----------------------------------------------------------------------

  /** Each interrupt-disabled region is a step, and so is a copy. */
  datatype Step =
    | Take(t: Tid, msg: Msg, urgent: bool)
    | Copy(t: Tid)
    | Link(t: Tid)
    | Unlink(t: Tid, timeout: int)
    | GiveBack(t: Tid)
    | Expire(t: Tid)
    | Return(t: Tid)
    | Reset

  datatype State = State(flag: Flag, size: nat, deque: Deque, pool: Pool, waits: Waits)

  ghost predicate Inv(prio: Priorities, s: State) {
    && Refines(s.deque, s.pool, s.size)
    && WaitsOk(s.flag, prio, s.waits)
    && NoLostWakeup(|s.deque.msgs|, s.waits)
  }

  predicate Idle(s: State, t: Tid) {
    t !in s.deque.jobs && t !in s.waits.list && t !in s.waits.failed
  }

  predicate Enabled(prio: Priorities, s: State, step: Step) {
    match step
    case Take(t, _, _) => Idle(s, t) && t !in s.waits.woken
    case Copy(t) => IsSending(s.deque, t, false)
    case Link(t) => IsSending(s.deque, t, true)
    case Unlink(t, _) => Idle(s, t) && t in prio
    case GiveBack(t) => IsReceiving(s.deque, t)
    case Expire(t) => t in s.waits.timed
    case Return(t) => t in s.waits.failed
    case Reset => true
  }

  /** First region of rt_mq_send and rt_mq_urgent: an oversized message is refused. */
  ghost function TakeStep(prio: Priorities, s: State, t: Tid, msg: Msg, urgent: bool): State
    requires Inv(prio, s) && t !in s.deque.jobs
  {
    if |msg| > s.size then s
    else
      TakeRefines(s.deque, s.pool, s.size, t, msg, urgent);
      s.(deque := DequeTake(s.deque, t, msg, urgent), pool := PoolTake(s.pool, t))
  }

  ghost function CopyStep(prio: Priorities, s: State, t: Tid): State
    requires Inv(prio, s) && IsSending(s.deque, t, false)
  {
    CopyRefines(s.deque, s.pool, s.size, t);
    s.(deque := DequeCopy(s.deque, t), pool := PoolCopy(s.pool, t, s.deque.jobs[t].msg))
  }

  /** Second region of a send: link the node and resume one receiver. */
  ghost function LinkStep(prio: Priorities, s: State, t: Tid): State
    requires Inv(prio, s) && IsSending(s.deque, t, true)
  {
    LinkRefines(s.deque, s.pool, s.size, t);
    s.(deque := DequeLink(s.deque, t), pool := PoolLink(s.pool, t, s.deque.jobs[t].urgent), waits := Wake(s.waits))
  }

  /** One turn of the loop of rt_mq_recv. */
  ghost function UnlinkStep(prio: Priorities, s: State, t: Tid, timeout: int): State
    requires Inv(prio, s) && Idle(s, t) && t in prio
  {
    var w := s.waits.(woken := s.waits.woken - {t});
    if s.deque.msgs == [] then
      s.(waits := if timeout == 0 then w else Block(s.flag, prio, w, t, timeout))
    else
      UnlinkRefines(s.deque, s.pool, s.size, t);
      s.(deque := DequeUnlink(s.deque, t), pool := PoolUnlink(s.pool, t), waits := w)
  }

  ghost function GiveBackStep(prio: Priorities, s: State, t: Tid): State
    requires Inv(prio, s) && IsReceiving(s.deque, t)
  {
    GiveBackRefines(s.deque, s.pool, s.size, t);
    s.(deque := DequeGiveBack(s.deque, t), pool := PoolGiveBack(s.pool, t))
  }

  ghost function ResetStep(prio: Priorities, s: State): State
    requires Inv(prio, s)
  {
    s.(deque := s.deque.(msgs := []), pool := PoolReset(s.pool), waits := FailAll(s.waits))
  }

  ghost function Next(prio: Priorities, s: State, step: Step): State
    requires Inv(prio, s) && Enabled(prio, s, step)
  {
    hide Inv;
    match step
    case Take(t, msg, urgent) => TakeStep(prio, s, t, msg, urgent)
    case Copy(t) => CopyStep(prio, s, t)
    case Link(t) => LinkStep(prio, s, t)
    case Unlink(t, timeout) => UnlinkStep(prio, s, t, timeout)
    case GiveBack(t) => GiveBackStep(prio, s, t)
    case Expire(t) => s.(waits := Give(s.waits, t))
    case Return(t) => s.(waits := s.waits.(failed := s.waits.failed - {t}))
    case Reset => ResetStep(prio, s)
  }

  lemma TakeKeeps(prio: Priorities, s: State, t: Tid, msg: Msg, urgent: bool)
    requires Inv(prio, s) && t !in s.deque.jobs
    ensures Inv(prio, TakeStep(prio, s, t, msg, urgent))
  {
    if |msg| <= s.size {
      TakeRefines(s.deque, s.pool, s.size, t, msg, urgent);
    }
  }

  lemma CopyKeeps(prio: Priorities, s: State, t: Tid)
    requires Inv(prio, s) && IsSending(s.deque, t, false)
    ensures Inv(prio, CopyStep(prio, s, t))
  {
    CopyRefines(s.deque, s.pool, s.size, t);
  }

  lemma LinkKeeps(prio: Priorities, s: State, t: Tid)
    requires Inv(prio, s) && IsSending(s.deque, t, true)
    ensures Inv(prio, LinkStep(prio, s, t))
  {
    LinkRefines(s.deque, s.pool, s.size, t);
    WakeOk(s.flag, prio, s.waits, |s.deque.msgs|);
  }

  lemma UnlinkKeeps(prio: Priorities, s: State, t: Tid, timeout: int)
    requires Inv(prio, s) && Idle(s, t) && t in prio
    ensures Inv(prio, UnlinkStep(prio, s, t, timeout))
  {
    RerunOk(s.flag, prio, s.waits, t, |s.deque.msgs|);
    var w := s.waits.(woken := s.waits.woken - {t});
    if s.deque.msgs == [] {
      if timeout != 0 {
        BlockOk(s.flag, prio, w, t, timeout);
      }
      assert NoLostWakeup(0, w);
    } else {
      UnlinkRefines(s.deque, s.pool, s.size, t);
    }
  }

  lemma GiveBackKeeps(prio: Priorities, s: State, t: Tid)
    requires Inv(prio, s) && IsReceiving(s.deque, t)
    ensures Inv(prio, GiveBackStep(prio, s, t))
  {
    GiveBackRefines(s.deque, s.pool, s.size, t);
  }

  lemma ResetKeeps(prio: Priorities, s: State)
    requires Inv(prio, s)
    ensures Inv(prio, ResetStep(prio, s))
  {
    ResetRefines(s.deque, s.pool, s.size);
  }

  lemma ExpireKeeps(prio: Priorities, s: State, t: Tid)
    requires Inv(prio, s)
    ensures Inv(prio, s.(waits := Give(s.waits, t)))
  {
    GiveOk(s.flag, prio, s.waits, t, |s.deque.msgs|);
  }

  lemma ReturnKeeps(prio: Priorities, s: State, t: Tid)
    requires Inv(prio, s)
    ensures Inv(prio, s.(waits := s.waits.(failed := s.waits.failed - {t})))
  {
  }

  lemma StepKeeps(prio: Priorities, s: State, step: Step)
    requires Inv(prio, s) && Enabled(prio, s, step)
    ensures Inv(prio, Next(prio, s, step))
  {
    match step {
      case Take(t, msg, urgent) => TakeKeeps(prio, s, t, msg, urgent);
      case Copy(t) => CopyKeeps(prio, s, t);
      case Link(t) => LinkKeeps(prio, s, t);
      case Unlink(t, timeout) => UnlinkKeeps(prio, s, t, timeout);
      case GiveBack(t) => GiveBackKeeps(prio, s, t);
      case Expire(t) => ExpireKeeps(prio, s, t);
      case Return(t) => ReturnKeeps(prio, s, t);
      case Reset => ResetKeeps(prio, s);
    }
  }

  // ---- whole runs ------------------------------------------------------------------------

  /** The state after rt_mq_init: the loop pushes node 0 first, so the last node is on top. */
  function Stacked(k: nat): (s: seq<Node>)
    ensures |s| == k && Distinct(s) && forall i :: 0 <= i < k ==> s[i] == k - 1 - i
  {
    if k == 0 then [] else [k - 1] + Stacked(k - 1)
  }

  function InitPool(slots: seq<Msg>): Pool {
    Pool(Stacked(|slots|), [], map[], slots, seq(|slots|, i => Free))
  }

  function Init(flag: Flag, size: nat, slots: seq<Msg>): State {
    State(flag, size, Deque(|slots|, [], map[]), InitPool(slots), Waits([], {}, {}, {}))
  }

  lemma InitInv(prio: Priorities, flag: Flag, size: nat, slots: seq<Msg>)
    requires forall i :: 0 <= i < |slots| ==> |slots[i]| == size
    ensures Inv(prio, Init(flag, size, slots))
  {
    var p := InitPool(slots);
    forall n | 0 <= n < |slots| ensures n in p.free {
      assert p.free[|slots| - 1 - n] == n;
    }
  }

  /** Runs, with the waiting side checked as the code does it: whoever is enabled may step. */
  ghost predicate Reaches(prio: Priorities, s: State, steps: seq<Step>, s': State)
    requires Inv(prio, s)
    decreases |steps|
  {
    if steps == [] then s' == s
    else
      && Enabled(prio, s, steps[0])
      && (StepKeeps(prio, s, steps[0]); Reaches(prio, Next(prio, s, steps[0]), steps[1..], s'))
  }

  lemma {:induction false} RunKeeps(prio: Priorities, s: State, steps: seq<Step>, s': State)
    requires Inv(prio, s) && Reaches(prio, s, steps, s')
    ensures Inv(prio, s')
    decreases |steps|
  {
    if steps != [] {
      StepKeeps(prio, s, steps[0]);
      RunKeeps(prio, Next(prio, s, steps[0]), steps[1..], s');
    }
  }

  /** What a step does to the deque, said without nodes. */
  function DequeNext(d: Deque, size: nat, step: Step): Deque {
    match step
    case Take(t, msg, urgent) => if |msg| > size then d else DequeTake(d, t, msg, urgent)
    case Copy(t) => if IsSending(d, t, false) then DequeCopy(d, t) else d
    case Link(t) => if IsSending(d, t, true) then DequeLink(d, t) else d
    case Unlink(t, timeout) => if d.msgs == [] then d else DequeUnlink(d, t)
    case GiveBack(t) => DequeGiveBack(d, t)
    case Reset => d.(msgs := [])
    case _ => d
  }

  function DequeRun(d: Deque, size: nat, steps: seq<Step>): Deque
    decreases |steps|
  {
    if steps == [] then d else DequeRun(DequeNext(d, size, steps[0]), size, steps[1..])
  }

  lemma StepIsDequeStep(prio: Priorities, s: State, step: Step)
    requires Inv(prio, s) && Enabled(prio, s, step)
    ensures Next(prio, s, step).deque == DequeNext(s.deque, s.size, step)
    ensures Next(prio, s, step).size == s.size
  {
  }

  lemma {:induction false} RunIsDequeRun(prio: Priorities, s: State, steps: seq<Step>, s': State)
    requires Inv(prio, s) && Reaches(prio, s, steps, s')
    ensures s'.deque == DequeRun(s.deque, s.size, steps)
    decreases |steps|
  {
    if steps != [] {
      StepKeeps(prio, s, steps[0]);
      StepIsDequeStep(prio, s, steps[0]);
      RunIsDequeRun(prio, Next(prio, s, steps[0]), steps[1..], s');
    }
  }

  /** Where a node is. */
  ghost predicate HeldBySomeone(p: Pool, n: Node) {
    exists t :: t in p.held && p.held[t] == n
  }

  /** Between any two critical sections of any run: the nodes are partitioned into free, queued
      and held; the queued nodes carry the messages of a bounded deque that never saw a node;
      and no wakeup is lost. */
  lemma MessageQueueSafety(prio: Priorities, flag: Flag, size: nat, slots: seq<Msg>, steps: seq<Step>, s: State, n: Node)
    requires forall i :: 0 <= i < |slots| ==> |slots[i]| == size
    requires (InitInv(prio, flag, size, slots); Reaches(prio, Init(flag, size, slots), steps, s))
    ensures s.deque == DequeRun(Deque(|slots|, [], map[]), size, steps)
    ensures |s.pool.slots| == |slots| && |s.pool.free| + |s.pool.queue| + |s.pool.held| == |slots|
    ensures n < |slots| ==>
              && (n in s.pool.free || n in s.pool.queue || HeldBySomeone(s.pool, n))
              && !(n in s.pool.free && n in s.pool.queue)
              && !(n in s.pool.free && HeldBySomeone(s.pool, n))
              && !(n in s.pool.queue && HeldBySomeone(s.pool, n))
    ensures |s.pool.queue| == |s.deque.msgs|
    ensures forall i :: 0 <= i < |s.deque.msgs| ==>
              s.pool.queue[i] < |slots| && Carries(s.pool.slots[s.pool.queue[i]], s.deque.msgs[i])
    ensures s.waits.list != [] ==> |s.deque.msgs| <= |s.waits.woken|
  {
    InitInv(prio, flag, size, slots);
    RunKeeps(prio, Init(flag, size, slots), steps, s);
    RunIsDequeRun(prio, Init(flag, size, slots), steps, s);
    RunKeepsMax(Deque(|slots|, [], map[]), size, steps);
  }

  lemma {:induction false} RunKeepsMax(d: Deque, size: nat, steps: seq<Step>)
    ensures DequeRun(d, size, steps).max == d.max
    decreases |steps|
  {
    if steps != [] {
      RunKeepsMax(DequeNext(d, size, steps[0]), size, steps[1..]);
    }
  }

  // ---- a whole send, and the threads -----------------------------------------------------

  /** A whole send with room for the message leaves it last in the queue, or first if it is urgent, and a
      receive takes the first; nothing else has changed. */
  lemma SendAndReceive(d: Deque, size: nat, t: Tid, msg: Msg, urgent: bool, r: Tid, timeout: int)
    requires |msg| <= size && !Full(d) && t !in d.jobs && r !in d.jobs
    ensures DequeRun(d, size, [Take(t, msg, urgent), Copy(t), Link(t)]) ==
            d.(msgs := if urgent then [msg] + d.msgs else d.msgs + [msg])
    ensures d.msgs != [] ==>
              && DequeRun(d, size, [Unlink(r, timeout)]) == d.(msgs := d.msgs[1..], jobs := d.jobs[r := Receiving(d.msgs[0])])
              && DequeRun(d, size, [Unlink(r, timeout), GiveBack(r)]) == d.(msgs := d.msgs[1..])
  {
    var d1 := DequeNext(d, size, Take(t, msg, urgent));
    var d2 := DequeNext(d1, size, Copy(t));
    var d3 := DequeNext(d2, size, Link(t));
    assert d3.jobs == d.jobs;
    ThreeSteps(d, size, Take(t, msg, urgent), Copy(t), Link(t));
    TwoSteps(d, size, Unlink(r, timeout), GiveBack(r));
  }

  lemma TwoSteps(d: Deque, size: nat, a: Step, b: Step)
    ensures DequeRun(d, size, [a]) == DequeNext(d, size, a)
    ensures DequeRun(d, size, [a, b]) == DequeNext(DequeNext(d, size, a), size, b)
  {
    hide DequeNext;
    OneStep(d, size, a);
    OneStep(DequeNext(d, size, a), size, b);
    assert [a, b][1..] == [b];
  }

  lemma OneStep(d: Deque, size: nat, a: Step)
    ensures DequeRun(d, size, [a]) == DequeNext(d, size, a)
  {
    hide DequeNext;
    assert [a][1..] == [];
  }

  lemma ThreeSteps(d: Deque, size: nat, a: Step, b: Step, c: Step)
    ensures DequeRun(d, size, [a, b, c]) == DequeNext(DequeNext(DequeNext(d, size, a), size, b), size, c)
  {
    hide DequeNext;
    TwoSteps(DequeNext(d, size, a), size, b, c);
    assert [a, b, c][1..] == [b, c];
  }

  /** A message resumes the first waiting receiver; a receiver that blocks joins the list, with its timer
      running exactly if it has a limit; a timeout takes that one away and a reset all of them, with an
      error. */
  lemma WaitsDo(flag: Flag, prio: Priorities, w: Waits, t: Tid, timeout: int, x: Tid)
    requires WaitsOk(flag, prio, w) && t in prio
    ensures w.list == [] ==> Wake(w) == w
    ensures w.list != [] ==>
              var w', first := Wake(w), w.list[0];
              w.list == [first] + w'.list && w'.timed == w.timed - {first} && w'.woken == w.woken + {first} && w'.failed == w.failed
    ensures t !in w.list ==>
              var w' := Block(flag, prio, w, t, timeout);
              && Joins(flag, prio, w.list, w'.list, t) && w'.timed - {t} == w.timed && (t in w'.timed <==> timeout > 0)
              && w'.woken == w.woken && w'.failed == w.failed
    ensures var w' := Give(w, t);
            && t !in w'.list && (x != t ==> (x in w'.list <==> x in w.list)) && w'.timed == w.timed - {t}
            && w'.woken == w.woken && w'.failed == w.failed + {t}
    ensures var w' := FailAll(w);
            w'.list == [] && w'.timed == {} && w'.woken == w.woken && (x in w'.failed <==> x in w.failed || x in w.list)
  {
    hide Joins, Enqueue, Without, Sorted;
    EnqueueJoins(flag, prio, w.list, t);
    WithoutKeeps(w.list, t, prio);
  }
}
