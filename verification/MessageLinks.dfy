/**
 The message queue object: next links through the pool nodes, head, tail, free and entry fields.
 */
module MessageLinks {
  import opened NatLists
  import opened IpcList
  import opened MessageQueue

  // ---- the links -------------------------------------------------------------------------

  /** nodes is the list that starts at from; the end is marked by the number of nodes. */
  ghost predicate Chain(next: seq<nat>, from: nat, nodes: seq<Node>)
    decreases nodes
  {
    if nodes == [] then from == |next|
    else from == nodes[0] && from < |next| && Chain(next, next[from], nodes[1..])
  }

  lemma {:induction false} ChainFrame(next: seq<nat>, from: nat, nodes: seq<Node>, n: Node, v: nat)
    requires Chain(next, from, nodes) && n < |next| && n !in nodes
    ensures Chain(next[n := v], from, nodes)
    decreases nodes
  {
    if nodes != [] {
      ChainFrame(next, next[from], nodes[1..], n, v);
    }
  }

  lemma ChainPush(next: seq<nat>, from: nat, nodes: seq<Node>, n: Node)
    requires Chain(next, from, nodes) && n < |next| && n !in nodes
    ensures Chain(next[n := from], n, [n] + nodes)
  {
    ChainFrame(next, from, nodes, n, from);
  }

  lemma {:induction false} ChainAppend(next: seq<nat>, from: nat, nodes: seq<Node>, n: Node)
    requires Chain(next, from, nodes) && nodes != [] && Distinct(nodes) && n !in nodes
    requires n < |next| && next[n] == |next|
    ensures var last := nodes[|nodes| - 1]; last < |next| && Chain(next[last := n], from, nodes + [n])
    decreases nodes
  {
    assert (nodes + [n])[1..] == nodes[1..] + [n];
    if |nodes| == 1 {
    } else {
      ChainAppend(next, next[from], nodes[1..], n);
    }
  }

  function LastOr(nodes: seq<Node>, end: nat): nat {
    if nodes == [] then end else nodes[|nodes| - 1]
  }

  ghost predicate QueueLinked(next: seq<nat>, head: nat, tail: nat, entry: nat, queue: seq<Node>) {
    Chain(next, head, queue) && tail == LastOr(queue, |next|) && entry == |queue|
  }

  predicate EndsList(job: Job) {
    job.Sending? && job.copied && !job.urgent
  }

  /** A node that rt_mq_send has filled already ends its list. */
  ghost predicate JobsReady(next: seq<nat>, jobs: map<Tid, Job>, held: map<Tid, Node>) {
    forall t :: t in jobs && t in held && EndsList(jobs[t]) ==> held[t] < |next| && next[held[t]] == |next|
  }

  /** The link fields of the object and of the nodes carry the state. */
  ghost predicate Linked(next: seq<nat>, head: nat, tail: nat, free: nat, entry: nat, d: Deque, p: Pool) {
    && |next| == |p.slots|
    && Chain(next, free, p.free) && QueueLinked(next, head, tail, entry, p.queue)
    && JobsReady(next, d.jobs, p.held)
  }

  lemma ReadyCopied(next: seq<nat>, jobs: map<Tid, Job>, held: map<Tid, Node>, t: Tid, job: Job)
    requires JobsReady(next, jobs, held) && t in held && held[t] < |next|
    requires EndsList(job) ==> next[held[t]] == |next|
    ensures JobsReady(next, jobs[t := job], held)
  {
  }

  lemma ReadyEnd(next: seq<nat>, jobs: map<Tid, Job>, held: map<Tid, Node>, t: Tid)
    requires JobsReady(next, jobs, held)
    ensures JobsReady(next, jobs - {t}, held - {t})
  {
  }

  /** A link may change in any node that nobody holds, or to the end mark. */
  lemma ReadyFrame(next: seq<nat>, jobs: map<Tid, Job>, held: map<Tid, Node>, n: Node, v: nat)
    requires JobsReady(next, jobs, held) && n < |next|
    requires v == |next| || forall t :: t in held ==> held[t] != n
    ensures JobsReady(next[n := v], jobs, held)
  {
  }

  lemma TakeLinked(next: seq<nat>, head: nat, tail: nat, free: nat, entry: nat, d: Deque, p: Pool, size: nat,
                   t: Tid, msg: Msg, urgent: bool)
    requires Refines(d, p, size) && t !in d.jobs && Linked(next, head, tail, free, entry, d, p)
    ensures free == |next| <==> Full(d)
    ensures free != |next| ==>
              && free < |next| && p.free != [] && free == p.free[0] && free < |p.place|
              && Linked(next, head, tail, next[free], entry, DequeTake(d, t, msg, urgent), PoolTake(p, t))
  {
  }

  /** A held node is in no list, so its link is free for its holder. */
  lemma HeldFrame(next: seq<nat>, head: nat, tail: nat, free: nat, entry: nat, d: Deque, p: Pool, size: nat, t: Tid)
    requires Refines(d, p, size) && t in d.jobs && Linked(next, head, tail, free, entry, d, p)
    ensures Holds(p, t) && p.held[t] < |next| && p.held[t] !in p.free && p.held[t] !in p.queue
    ensures Linked(next[p.held[t] := |next|], head, tail, free, entry, d, p)
  {
    var n := p.held[t];
    ChainFrame(next, free, p.free, n, |next|);
    ChainFrame(next, head, p.queue, n, |next|);
  }

  lemma CopyLinked(next: seq<nat>, head: nat, tail: nat, free: nat, entry: nat, d: Deque, p: Pool, size: nat, t: Tid)
    requires Refines(d, p, size) && IsSending(d, t, false) && Linked(next, head, tail, free, entry, d, p)
    ensures Holds(p, t) && |d.jobs[t].msg| <= |p.slots[p.held[t]]| && p.held[t] < |next|
    ensures var next' := if d.jobs[t].urgent then next else next[p.held[t] := |next|];
            Linked(next', head, tail, free, entry, DequeCopy(d, t), PoolCopy(p, t, d.jobs[t].msg))
  {
    HeldFrame(next, head, tail, free, entry, d, p, size, t);
    var next' := if d.jobs[t].urgent then next else next[p.held[t] := |next|];
    ReadyCopied(next', d.jobs, p.held, t, d.jobs[t].(copied := true));
  }

  /** rt_mq_send appends. */
  lemma AppendLinked(next: seq<nat>, head: nat, tail: nat, free: nat, entry: nat, d: Deque, p: Pool, size: nat, t: Tid)
    requires Refines(d, p, size) && IsSending(d, t, true) && !d.jobs[t].urgent
    requires Linked(next, head, tail, free, entry, d, p)
    ensures Holds(p, t) && p.held[t] < |next| && tail <= |next| && (tail == |next| <==> head == |next|)
    ensures var n := p.held[t];
            var next' := if tail != |next| then next[tail := n] else next;
            Linked(next', if head == |next| then n else head, n, free, entry + 1, DequeLink(d, t), PoolLink(p, t, false))
  {
    var n := p.held[t];
    AppendQueue(next, head, tail, entry, p.queue, n);
    if tail == |next| {
      ReadyEnd(next, d.jobs, p.held, t);
    } else {
      ChainFrame(next, free, p.free, tail, n);
      ReadyFrame(next, d.jobs, p.held, tail, n);
      ReadyEnd(next[tail := n], d.jobs, p.held, t);
    }
  }

  lemma AppendQueue(next: seq<nat>, head: nat, tail: nat, entry: nat, queue: seq<Node>, n: Node)
    requires QueueLinked(next, head, tail, entry, queue) && Distinct(queue) && n !in queue
    requires n < |next| && next[n] == |next|
    requires queue != [] ==> LastOr(queue, |next|) < |next|
    ensures tail <= |next| && (tail == |next| <==> queue == []) && (head == |next| <==> queue == [])
    ensures var next' := if tail != |next| then next[tail := n] else next;
            QueueLinked(next', if head == |next| then n else head, n, entry + 1, queue + [n])
  {
    if queue == [] {
    } else {
      ChainAppend(next, head, queue, n);
    }
  }

  /** rt_mq_urgent prepends. */
  lemma PrependLinked(next: seq<nat>, head: nat, tail: nat, free: nat, entry: nat, d: Deque, p: Pool, size: nat, t: Tid)
    requires Refines(d, p, size) && IsSending(d, t, true) && d.jobs[t].urgent
    requires Linked(next, head, tail, free, entry, d, p)
    ensures Holds(p, t) && p.held[t] < |next|
    ensures var n := p.held[t];
            Linked(next[n := head], n, if tail == |next| then n else tail, free, entry + 1, DequeLink(d, t), PoolLink(p, t, true))
  {
    var n := p.held[t];
    ChainPush(next, head, p.queue, n);
    ChainFrame(next, free, p.free, n, head);
    ReadyFrame(next, d.jobs - {t}, p.held - {t}, n, head);
  }

  lemma UnlinkLinked(next: seq<nat>, head: nat, tail: nat, free: nat, entry: nat, d: Deque, p: Pool, size: nat, t: Tid)
    requires Refines(d, p, size) && t !in d.jobs && entry != 0 && Linked(next, head, tail, free, entry, d, p)
    ensures d.msgs != [] && p.queue != [] && head == p.queue[0] && head < |next| == |p.place|
    ensures Linked(next, next[head], if tail == head then |next| else tail, free, entry - 1, DequeUnlink(d, t), PoolUnlink(p, t))
  {
  }

  lemma GiveBackLinked(next: seq<nat>, head: nat, tail: nat, free: nat, entry: nat, d: Deque, p: Pool, size: nat, t: Tid)
    requires Refines(d, p, size) && IsReceiving(d, t) && Linked(next, head, tail, free, entry, d, p)
    ensures Holds(p, t) && p.held[t] < |next|
    ensures var n := p.held[t]; Linked(next[n := free], head, tail, n, entry, DequeGiveBack(d, t), PoolGiveBack(p, t))
  {
    var n := p.held[t];
    ChainPush(next, free, p.free, n);
    ChainFrame(next, head, p.queue, n, free);
    ReadyFrame(next, d.jobs - {t}, p.held - {t}, n, free);
  }

  /** One turn of the reset loop. */
  lemma DropLinked(next: seq<nat>, head: nat, tail: nat, free: nat, d: Deque, p: Pool)
    requires Partition(p) && Linked(next, head, tail, free, |p.queue|, d, p) && head != |next|
    ensures p.queue != [] && head == p.queue[0] && head < |next| == |p.place|
    ensures var tail' := if tail == head then |next| else tail;
            Linked(next[head := free], next[head], tail', head, |p.queue| - 1, d, PoolDrop(p))
  {
    ChainPush(next, free, p.free, head);
    ChainFrame(next, next[head], p.queue[1..], head, free);
  }

  // ---- the object ------------------------------------------------------------------------

  lemma InvParts(prio: Priorities, s: State)
    requires Inv(prio, s)
    ensures Refines(s.deque, s.pool, s.size) && AllIn(s.waits.list, prio)
    ensures |s.pool.queue| == |s.deque.msgs| && Partition(s.pool) && |s.pool.place| == |s.pool.slots|
  {
  }

  /** The links after k turns of the init loop. */
  lemma {:induction false} StackedChain(next: seq<nat>, k: nat)
    requires k <= |next| && forall i :: 0 <= i < k ==> next[i] == if i == 0 then |next| else i - 1
    ensures Chain(next, if k == 0 then |next| else k - 1, Stacked(k))
    decreases k
  {
    if k > 0 {
      StackedChain(next, k - 1);
    }
  }

  lemma GiveBackStepIs(prio: Priorities, s: State, t: Tid)
    requires Inv(prio, s) && IsReceiving(s.deque, t)
    ensures Holds(s.pool, t) && Carries(s.pool.slots[s.pool.held[t]], s.deque.jobs[t].msg)
    ensures |s.pool.slots[s.pool.held[t]]| == s.size
    ensures var s' := GiveBackStep(prio, s, t);
            && s' == s.(deque := DequeGiveBack(s.deque, t), pool := PoolGiveBack(s.pool, t))
            && s'.pool.slots == s.pool.slots
  {
  }

  datatype Outcome = Got(node: Node) | Refused | TooLong | Blocked

  class Queue {
    const flag: Flag
    const size: nat
    const next: array<nat>
    const slots: array<Msg>
    var head: nat
    var tail: nat
    var free: nat
    var entry: nat
    var suspended: seq<Tid>
    var timed: set<Tid>
    ghost var state: State

    ghost predicate Valid(prio: Priorities)
      reads this, next, slots
    {
      && Inv(prio, state) && state.flag == flag && state.size == size
      && state.waits.list == suspended && state.waits.timed == timed
      && slots[..] == state.pool.slots
      && Linked(next[..], head, tail, free, entry, state.deque, state.pool)
    }

    /** rt_mq_init: the loop pushes the nodes, one by one, onto the free list. */
    constructor (prio: Priorities, flag: Flag, size: nat, memory: seq<Msg>)
      requires forall i :: 0 <= i < |memory| ==> |memory[i]| == size
      ensures Valid(prio) && state == Init(flag, size, memory) && fresh(next) && fresh(slots)
    {
      this.flag, this.size := flag, size;
      var count := |memory|;
      next := new nat[count];
      slots := new Msg[count](i requires 0 <= i < count => memory[i]);
      head, tail, entry := count, count, 0;
      free := count;
      suspended, timed := [], {};
      state := Init(flag, size, memory);
      new;
      InitInv(prio, flag, size, memory);
      for k := 0 to count
        modifies this`free, next
        invariant free == if k == 0 then count else k - 1
        invariant forall i :: 0 <= i < k ==> next[i] == if i == 0 then count else i - 1
      {
        next[k] := free;
        free := k;
      }
      StackedChain(next[..], count);
      assert slots[..] == memory;
    }

    /** First region of rt_mq_send and rt_mq_urgent: take a node off the free list. */
    method Take(prio: Priorities, t: Tid, msg: Msg, urgent: bool) returns (r: Outcome)
      requires Valid(prio) && t !in state.deque.jobs
      modifies this`free, this`state
      ensures Valid(prio) && state == TakeStep(prio, old(state), t, msg, urgent)
      ensures r == if |msg| > size then TooLong else if Full(old(state).deque) then Refused else Got(old(free))
    {
      hide Inv, Linked, Full, Refines, Partition, AllIn;
      InvParts(prio, state);
      TakeKeeps(prio, state, t, msg, urgent);
      if |msg| > size {
        return TooLong;
      }
      TakeLinked(next[..], head, tail, free, entry, state.deque, state.pool, size, t, msg, urgent);
      FullIsNoFree(state.deque, state.pool, size);
      state := TakeStep(prio, state, t, msg, urgent);
      if free == next.Length {
        return Refused;
      }
      r := Got(free);
      free := next[free];
    }

    /** The copy between the two regions; only the sender knows the node. */
    method CopyIn(prio: Priorities, t: Tid, n: Node, msg: Msg, urgent: bool)
      requires Valid(prio) && IsSending(state.deque, t, false) && state.deque.jobs[t] == Sending(msg, urgent, false)
      requires t in state.pool.held && state.pool.held[t] == n
      modifies this`state, next, slots
      ensures Valid(prio) && state == CopyStep(prio, old(state), t)
    {
      hide Inv, Linked, Refines, Partition, AllIn;
      InvParts(prio, state);
      CopyKeeps(prio, state, t);
      CopyLinked(next[..], head, tail, free, entry, state.deque, state.pool, size, t);
      state := CopyStep(prio, state, t);
      if !urgent {
        next[n] := next.Length;
      }
      slots[n] := Overlay(slots[n], msg);
    }

    /** Second region of rt_mq_send. */
    method LinkTail(prio: Priorities, t: Tid, n: Node)
      requires Valid(prio) && IsSending(state.deque, t, true) && !state.deque.jobs[t].urgent
      requires t in state.pool.held && state.pool.held[t] == n
      modifies this, next
      ensures Valid(prio) && state == LinkStep(prio, old(state), t)
    {
      hide Inv, Linked, Refines, Partition, AllIn;
      InvParts(prio, state);
      LinkKeeps(prio, state, t);
      AppendLinked(next[..], head, tail, free, entry, state.deque, state.pool, size, t);
      state := LinkStep(prio, state, t);
      if tail != next.Length {
        next[tail] := n;
      }
      tail := n;
      if head == next.Length {
        head := n;
      }
      entry := entry + 1;
      ResumeFirst();
    }

    /** Second region of rt_mq_urgent. */
    method LinkHead(prio: Priorities, t: Tid, n: Node)
      requires Valid(prio) && IsSending(state.deque, t, true) && state.deque.jobs[t].urgent
      requires t in state.pool.held && state.pool.held[t] == n
      modifies this, next
      ensures Valid(prio) && state == LinkStep(prio, old(state), t)
    {
      hide Inv, Linked, Refines, Partition, AllIn;
      InvParts(prio, state);
      LinkKeeps(prio, state, t);
      PrependLinked(next[..], head, tail, free, entry, state.deque, state.pool, size, t);
      state := LinkStep(prio, state, t);
      next[n] := head;
      head := n;
      if tail == next.Length {
        tail := n;
      }
      entry := entry + 1;
      ResumeFirst();
    }

    method ResumeFirst()
      modifies this`suspended, this`timed
      ensures suspended == if old(suspended) == [] then [] else old(suspended)[1..]
      ensures timed == if old(suspended) == [] then old(timed) else old(timed) - {old(suspended)[0]}
    {
      if suspended != [] {
        timed := timed - {suspended[0]};
        suspended := suspended[1..];
      }
    }

    /** One turn of rt_mq_recv up to the copy: unlink the head node, or suspend, or give up. */
    method Unlink(prio: Priorities, t: Tid, timeout: int) returns (r: Outcome)
      requires Valid(prio) && Idle(state, t) && t in prio
      modifies this
      ensures Valid(prio) && state == UnlinkStep(prio, old(state), t, timeout)
      ensures r == if old(state).deque.msgs != [] then Got(old(head)) else if timeout == 0 then Refused else Blocked
    {
      hide Inv, AllIn, Refines, Partition, Idle, Chain, JobsReady;
      InvParts(prio, state);
      UnlinkKeeps(prio, state, t, timeout);
      if entry == 0 {
        state := UnlinkStep(prio, state, t, timeout);
        if timeout == 0 {
          return Refused;
        }
        suspended := Suspend(flag, prio, suspended, t);
        if timeout > 0 {
          timed := timed + {t};
        }
        return Blocked;
      }
      NotInJobs(state, t);
      UnlinkLinked(next[..], head, tail, free, entry, state.deque, state.pool, size, t);
      state := UnlinkStep(prio, state, t, timeout);
      r := Got(head);
      head := next[head];
      if tail == r.node {
        tail := next.Length;
      }
      entry := entry - 1;
    }

    /** The copy out: the receiver reads at most its buffer's size of the slot, and what it reads
        is the message it took, however long ago. */
    method CopyOut(prio: Priorities, t: Tid, n: Node, room: nat) returns (buffer: Msg)
      requires Valid(prio) && IsReceiving(state.deque, t)
      requires t in state.pool.held && state.pool.held[t] == n
      ensures |buffer| == if room > size then size else room
      ensures var msg := state.deque.jobs[t].msg;
              |msg| <= size && if |msg| <= room then buffer[..|msg|] == msg else buffer == msg[..room]
    {
      hide Inv, Linked, Refines, Partition, AllIn, GiveBackStep;
      GiveBackStepIs(prio, state, t);
      var count := if room > size then size else room;
      buffer := slots[n][..count];
    }

    /** Last region of rt_mq_recv: the node goes back to the free list. */
    method GiveBack(prio: Priorities, t: Tid, n: Node)
      requires Valid(prio) && IsReceiving(state.deque, t)
      requires t in state.pool.held && state.pool.held[t] == n
      modifies this`free, this`state, next
      ensures Valid(prio) && state == GiveBackStep(prio, old(state), t)
    {
      hide Inv, Linked, Refines, Partition, AllIn, Carries;
      InvParts(prio, state);
      GiveBackKeeps(prio, state, t);
      GiveBackLinked(next[..], head, tail, free, entry, state.deque, state.pool, size, t);
      state := GiveBackStep(prio, state, t);
      next[n] := free;
      free := n;
    }

    /** rt_mq_control with RT_IPC_CMD_RESET: fail the waiters, move every message back. */
    method Reset(prio: Priorities)
      requires Valid(prio)
      modifies this, next
      ensures Valid(prio) && state == ResetStep(prio, old(state))
    {
      hide Inv, Linked, Partition, Refines, AllIn, PoolReset;
      InvParts(prio, state);
      ResetKeeps(prio, state);
      ResetPartition(state.pool);
      suspended, timed := [], {};
      LinkedEntry(next[..], head, tail, free, entry, state.deque, state.pool);
      Drain(state.deque, state.pool);
      ResetLinked(next[..], head, tail, free, state.deque, PoolReset(state.pool));
      entry := 0;
      state := ResetStep(prio, state);
    }

    method Drain(ghost d: Deque, ghost p: Pool)
      requires Partition(p) && Linked(next[..], head, tail, free, |p.queue|, d, p)
      modifies this`head, this`tail, this`free, next
      ensures Linked(next[..], head, tail, free, |PoolReset(p).queue|, d, PoolReset(p))
    {
      ghost var q := p;
      while head != next.Length
        invariant Partition(q) && PoolReset(q) == PoolReset(p)
        invariant Linked(next[..], head, tail, free, |q.queue|, d, q)
        decreases |q.queue|
      {
        ghost var before, free0 := next[..], free;
        DropLinked(next[..], head, tail, free, d, q);
        DropPartition(q);
        q := PoolDrop(q);
        var msg := head;
        head := next[msg];
        if tail == msg {
          tail := next.Length;
        }
        next[msg] := free;
        free := msg;
      }
      EmptyQueue(next[..], head, tail, free, |q.queue|, d, q);
    }
  }

  lemma NotInJobs(s: State, t: Tid)
    requires Idle(s, t)
    ensures t !in s.deque.jobs
  {
  }

  lemma EmptyQueue(next: seq<nat>, head: nat, tail: nat, free: nat, entry: nat, d: Deque, p: Pool)
    requires Linked(next, head, tail, free, entry, d, p) && head == |next|
    ensures p.queue == []
  {
  }

  lemma LinkedEntry(next: seq<nat>, head: nat, tail: nat, free: nat, entry: nat, d: Deque, p: Pool)
    requires Linked(next, head, tail, free, entry, d, p)
    ensures entry == |p.queue|
  {
  }

  lemma ResetLinked(next: seq<nat>, head: nat, tail: nat, free: nat, d: Deque, p: Pool)
    requires Linked(next, head, tail, free, |p.queue|, d, p) && p.queue == []
    ensures Linked(next, head, tail, free, 0, d.(msgs := []), p)
  {
  }
}
