/**
 The mailbox: a bounded FIFO of words with blocking senders and receivers. A woken thread is
 only made ready; it looks at the mailbox again when it runs, and others may run first.
 */
module Mailbox {
  import opened NatLists
  import opened IpcList

  type Mail = nat

  /** The mailbox as a queue, the two wait lists, the waiters whose thread timer runs, the
      threads resumed by a mail or by a free slot but not yet rerun, and the threads resumed
      with an error. sent and received are the mails since the last reset. */
  datatype State = State(
    flag: Flag, size: nat, queue: seq<Mail>, recvWait: seq<Tid>, sendWait: seq<Tid>, timed: set<Tid>,
    wokenR: set<Tid>, wokenS: set<Tid>, failed: set<Tid>, sent: seq<Mail>, received: seq<Mail>)

  /** Each interrupt-disabled region is a step. A blocking call is one Send or Recv step per
      turn of its loop: the first by a running thread, the others after each wakeup. */
  datatype Step =
    | Send(t: Tid, mail: Mail, timeout: int)
    | Recv(t: Tid, timeout: int)
    | Expire(t: Tid)
    | Return(t: Tid)
    | Reset

  function Init(flag: Flag, size: nat): State {
    State(flag, size, [], [], [], {}, {}, {}, {}, [], [])
  }

  predicate WellFormed(prio: Priorities, s: State) {
    AllIn(s.recvWait, prio) && AllIn(s.sendWait, prio)
  }

  /** A thread that is suspended, or resumed for something else, cannot take the step. */
  predicate Enabled(prio: Priorities, s: State, step: Step) {
    match step
    case Send(t, _, _) =>
      t in prio && t !in s.recvWait && t !in s.sendWait && t !in s.wokenR && t !in s.failed
    case Recv(t, _) =>
      t in prio && t !in s.recvWait && t !in s.sendWait && t !in s.wokenS && t !in s.failed
    case Expire(t) => t in s.timed
    case Return(t) => t in s.failed
    case Reset => true
  }

  function WakeReceiver(s: State): State {
    if s.recvWait == [] then s
    else
      var t := s.recvWait[0];
      s.(recvWait := s.recvWait[1..], timed := s.timed - {t}, wokenR := s.wokenR + {t})
  }

  function WakeSender(s: State): State {
    if s.sendWait == [] then s
    else
      var t := s.sendWait[0];
      s.(sendWait := s.sendWait[1..], timed := s.timed - {t}, wokenS := s.wokenS + {t})
  }

  /** One turn of rt_mb_send_wait. */
  function SendStep(prio: Priorities, s: State, t: Tid, mail: Mail, timeout: int): State
    requires WellFormed(prio, s) && t in prio
  {
    var s1 := s.(wokenS := s.wokenS - {t});
    if |s.queue| == s.size then
      if timeout == 0 then s1
      else s1.(sendWait := Enqueue(s.flag, prio, s.sendWait, t),
               timed := if timeout > 0 then s.timed + {t} else s.timed)
    else WakeReceiver(s1.(queue := s.queue + [mail], sent := s.sent + [mail]))
  }

  /** One turn of rt_mb_recv. */
  function RecvStep(prio: Priorities, s: State, t: Tid, timeout: int): State
    requires WellFormed(prio, s) && t in prio
  {
    var s1 := s.(wokenR := s.wokenR - {t});
    if |s.queue| == 0 then
      if timeout == 0 then s1
      else s1.(recvWait := Enqueue(s.flag, prio, s.recvWait, t),
               timed := if timeout > 0 then s.timed + {t} else s.timed)
    else WakeSender(s1.(queue := s.queue[1..], received := s.received + [s.queue[0]]))
  }

  /** rt_thread_timeout on a waiting thread, in whichever list it is. */
  function ExpireStep(s: State, t: Tid): State {
    s.(recvWait := Without(s.recvWait, t), sendWait := Without(s.sendWait, t), timed := s.timed - {t},
       failed := s.failed + {t})
  }

  /** rt_mb_control with RT_IPC_CMD_RESET; a new history starts. */
  function ResetStep(s: State): State {
    s.(queue := [], recvWait := [], sendWait := [], timed := {}, sent := [], received := [],
       failed := s.failed + (set t | t in s.recvWait) + (set t | t in s.sendWait))
  }

  function Next(prio: Priorities, s: State, step: Step): State
    requires WellFormed(prio, s) && Enabled(prio, s, step)
  {
    match step
    case Send(t, mail, timeout) => SendStep(prio, s, t, mail, timeout)
    case Recv(t, timeout) => RecvStep(prio, s, t, timeout)
    case Expire(t) => ExpireStep(s, t)
    case Return(t) => s.(failed := s.failed - {t})
    case Reset => ResetStep(s)
  }

  // ---- invariant -------------------------------------------------------------------------

  /** A thread is in at most one place. */
  ghost predicate Apart(s: State) {
    && (forall t :: t in s.recvWait ==> t !in s.sendWait && t !in s.wokenR && t !in s.wokenS && t !in s.failed)
    && (forall t :: t in s.sendWait ==> t !in s.wokenR && t !in s.wokenS && t !in s.failed)
    && s.wokenR !! s.wokenS !! s.failed
    && (forall t :: t in s.timed ==> t in s.recvWait || t in s.sendWait)
  }

  ghost predicate Lists(prio: Priorities, s: State) {
    && WellFormed(prio, s) && Distinct(s.recvWait) && Distinct(s.sendWait)
    && (s.flag == Prio ==> Sorted(s.recvWait, prio) && Sorted(s.sendWait, prio))
  }

  /** No lost wakeup: while a receiver is suspended, every mail present is covered by a receiver
      already woken; while a sender is suspended, so is every free slot. */
  ghost predicate NoLostWakeup(s: State) {
    && |s.queue| <= s.size
    && (s.recvWait != [] ==> |s.queue| <= |s.wokenR|)
    && (s.sendWait != [] ==> s.size - |s.queue| <= |s.wokenS|)
  }

  ghost predicate Inv(prio: Priorities, s: State) {
    && Apart(s) && Lists(prio, s) && NoLostWakeup(s)
    && s.sent == s.received + s.queue
  }

  // ---- the queue and the counts ----------------------------------------------------------

  /** A woken thread that runs again gives up its claim. */
  lemma ClaimDropped(prio: Priorities, s: State, t: Tid)
    requires Apart(s) && Lists(prio, s)
    ensures var s1 := s.(wokenS := s.wokenS - {t}); Apart(s1) && Lists(prio, s1)
    ensures var s2 := s.(wokenR := s.wokenR - {t}); Apart(s2) && Lists(prio, s2)
  {
  }

  ghost predicate Nowhere(s: State, t: Tid) {
    t !in s.recvWait && t !in s.sendWait && t !in s.wokenR && t !in s.wokenS && t !in s.failed
  }

  lemma SenderBlocks(prio: Priorities, s: State, t: Tid, timed: bool)
    requires Apart(s) && Lists(prio, s) && t in prio && Nowhere(s, t)
    ensures var s1 := s.(sendWait := Enqueue(s.flag, prio, s.sendWait, t),
                         timed := if timed then s.timed + {t} else s.timed);
            Apart(s1) && Lists(prio, s1)
  {
    EnqueueKeeps(s.flag, prio, s.sendWait, t);
  }

  lemma ReceiverBlocks(prio: Priorities, s: State, t: Tid, timed: bool)
    requires Apart(s) && Lists(prio, s) && t in prio && Nowhere(s, t)
    ensures var s1 := s.(recvWait := Enqueue(s.flag, prio, s.recvWait, t),
                         timed := if timed then s.timed + {t} else s.timed);
            Apart(s1) && Lists(prio, s1)
  {
  }

  lemma SendKeepsThreads(prio: Priorities, s: State, t: Tid, mail: Mail, timeout: int)
    requires Apart(s) && Lists(prio, s) && Enabled(prio, s, Send(t, mail, timeout))
    ensures var s' := SendStep(prio, s, t, mail, timeout); Apart(s') && Lists(prio, s')
  {
    ClaimDropped(prio, s, t);
    var s1 := s.(wokenS := s.wokenS - {t});
    if |s.queue| == s.size {
      if timeout != 0 {
        SenderBlocks(prio, s1, t, timeout > 0);
      }
    }
  }

  lemma RecvKeepsThreads(prio: Priorities, s: State, t: Tid, timeout: int)
    requires Apart(s) && Lists(prio, s) && Enabled(prio, s, Recv(t, timeout))
    ensures var s' := RecvStep(prio, s, t, timeout); Apart(s') && Lists(prio, s')
  {
    ClaimDropped(prio, s, t);
    var s1 := s.(wokenR := s.wokenR - {t});
    if |s.queue| == 0 {
      if timeout != 0 {
        ReceiverBlocks(prio, s1, t, timeout > 0);
      }
    }
  }

  /** The counts and the history after a send. */
  lemma SendCounts(prio: Priorities, s: State, t: Tid, mail: Mail, timeout: int)
    requires Inv(prio, s) && Enabled(prio, s, Send(t, mail, timeout))
    ensures var s' := SendStep(prio, s, t, mail, timeout); NoLostWakeup(s') && s'.sent == s'.received + s'.queue
  {
  }

  lemma RecvCounts(prio: Priorities, s: State, t: Tid, timeout: int)
    requires Inv(prio, s) && Enabled(prio, s, Recv(t, timeout))
    ensures var s' := RecvStep(prio, s, t, timeout); NoLostWakeup(s') && s'.sent == s'.received + s'.queue
  {
  }

  lemma SendKeeps(prio: Priorities, s: State, t: Tid, mail: Mail, timeout: int)
    requires Inv(prio, s) && Enabled(prio, s, Send(t, mail, timeout))
    ensures Inv(prio, SendStep(prio, s, t, mail, timeout))
  {
    SendCounts(prio, s, t, mail, timeout);
    SendKeepsThreads(prio, s, t, mail, timeout);
  }

  lemma RecvKeeps(prio: Priorities, s: State, t: Tid, timeout: int)
    requires Inv(prio, s) && Enabled(prio, s, Recv(t, timeout))
    ensures Inv(prio, RecvStep(prio, s, t, timeout))
  {
    RecvCounts(prio, s, t, timeout);
    RecvKeepsThreads(prio, s, t, timeout);
  }

  lemma ExpireKeeps(prio: Priorities, s: State, t: Tid)
    requires Inv(prio, s) && t in s.timed
    ensures Inv(prio, ExpireStep(s, t))
  {
    WithoutKeeps(s.recvWait, t, prio);
    WithoutKeeps(s.sendWait, t, prio);
  }

  lemma StepKeeps(prio: Priorities, s: State, step: Step)
    requires Inv(prio, s) && Enabled(prio, s, step)
    ensures Inv(prio, Next(prio, s, step))
  {
    match step {
      case Send(t, mail, timeout) => SendKeeps(prio, s, t, mail, timeout);
      case Recv(t, timeout) => RecvKeeps(prio, s, t, timeout);
      case Expire(t) => ExpireKeeps(prio, s, t);
      case Return(t) =>
      case Reset => ResetKeeps(prio, s);
    }
  }

  lemma ResetKeeps(prio: Priorities, s: State)
    requires Inv(prio, s)
    ensures Inv(prio, ResetStep(s))
  {
  }

  // ---- whole runs ------------------------------------------------------------------------

  ghost predicate Reaches(prio: Priorities, s: State, steps: seq<Step>, s': State)
    decreases |steps|
  {
    if steps == [] then s' == s
    else
      && WellFormed(prio, s) && Enabled(prio, s, steps[0])
      && Reaches(prio, Next(prio, s, steps[0]), steps[1..], s')
  }

  lemma {:induction false} RunKeeps(prio: Priorities, s: State, steps: seq<Step>, s': State)
    requires Inv(prio, s) && Reaches(prio, s, steps, s')
    ensures Inv(prio, s')
    decreases |steps|
  {
    if steps != [] {
      StepKeeps(prio, s, steps[0]);
      RunKeeps(prio, Next(prio, s, steps[0]), steps[1..], s');
    }
  }

  /** In every interleaving of senders, receivers, timeouts and resets: no wakeup is lost, the
      queue never exceeds its size, and mails come out in the order they went in. */
  lemma MailboxSafety(prio: Priorities, flag: Flag, size: nat, steps: seq<Step>, s: State)
    requires Reaches(prio, Init(flag, size), steps, s)
    ensures |s.queue| <= s.size
    ensures s.recvWait != [] ==> |s.queue| <= |s.wokenR|
    ensures s.sendWait != [] ==> s.size - |s.queue| <= |s.wokenS|
    ensures s.sent == s.received + s.queue
  {
    RunKeeps(prio, Init(flag, size), steps, s);
  }

  /** Once every woken thread has run, nobody waits in vain: a suspended receiver means an empty
      mailbox, a suspended sender a full one. */
  lemma Quiescent(prio: Priorities, flag: Flag, size: nat, steps: seq<Step>, s: State)
    requires Reaches(prio, Init(flag, size), steps, s) && s.wokenR == {} && s.wokenS == {}
    ensures s.recvWait != [] ==> s.queue == []
    ensures s.sendWait != [] ==> |s.queue| == s.size
  {
    MailboxSafety(prio, flag, size, steps, s);
  }

  // ---- the ring --------------------------------------------------------------------------

  /** The mails in a ring buffer, oldest first. */
  function Contents(pool: seq<Mail>, out: nat, entry: nat): seq<Mail>
    requires entry <= |pool| && (out < |pool| || (out == 0 && pool == []))
  {
    if out + entry <= |pool| then pool[out..out + entry]
    else pool[out..] + pool[..out + entry - |pool|]
  }

  function Advance(i: nat, size: nat): nat {
    if i + 1 >= size then 0 else i + 1
  }

  function InOffset(out: nat, entry: nat, size: nat): nat
    requires entry <= size && (out < size || out == size == 0)
  {
    if out + entry < size then out + entry else out + entry - size
  }

  lemma RingPut(pool: seq<Mail>, out: nat, entry: nat, mail: Mail)
    requires entry < |pool| && out < |pool|
    ensures var i := InOffset(out, entry, |pool|);
            && i < |pool|
            && Contents(pool[i := mail], out, entry + 1) == Contents(pool, out, entry) + [mail]
            && Advance(i, |pool|) == InOffset(out, entry + 1, |pool|)
  {
  }

  lemma RingGet(pool: seq<Mail>, out: nat, entry: nat)
    requires 0 < entry <= |pool| && out < |pool|
    ensures Contents(pool, out, entry) != [] && pool[out] == Contents(pool, out, entry)[0]
    ensures Advance(out, |pool|) < |pool|
    ensures Contents(pool, Advance(out, |pool|), entry - 1) == Contents(pool, out, entry)[1..]
    ensures InOffset(Advance(out, |pool|), entry - 1, |pool|) == InOffset(out, entry, |pool|)
  {
  }

  lemma ContentsLength(pool: seq<Mail>, out: nat, entry: nat)
    requires entry <= |pool| && (out < |pool| || (out == 0 && pool == []))
    ensures |Contents(pool, out, entry)| == entry
  {
  }

  datatype Outcome = Done | Refused | Blocked

  class Mailbox {
    const flag: Flag
    const pool: array<Mail>
    var entry: nat
    var inOffset: nat
    var outOffset: nat
    var recvWait: seq<Tid>
    var sendWait: seq<Tid>
    var timed: set<Tid>
    ghost var state: State

    ghost predicate Valid(prio: Priorities)
      reads this, pool
    {
      && Inv(prio, state)
      && state.flag == flag && state.size == pool.Length
      && state.recvWait == recvWait && state.sendWait == sendWait && state.timed == timed
      && entry <= pool.Length && (outOffset < pool.Length || (outOffset == 0 && pool.Length == 0))
      && inOffset == InOffset(outOffset, entry, pool.Length)
      && state.queue == Contents(pool[..], outOffset, entry)
    }

    constructor (prio: Priorities, flag: Flag, size: nat)
      ensures Valid(prio) && state == Init(flag, size) && fresh(pool)
    {
      this.flag := flag;
      pool := new Mail[size];
      entry, inOffset, outOffset := 0, 0, 0;
      recvWait, sendWait, timed := [], [], {};
      state := Init(flag, size);
    }

    /** One turn of rt_mb_send_wait: the mail goes into the ring, or the caller is refused or
        suspended. */
    method Send(prio: Priorities, t: Tid, mail: Mail, timeout: int) returns (r: Outcome)
      requires Valid(prio) && Enabled(prio, state, Step.Send(t, mail, timeout))
      modifies this, pool
      ensures Valid(prio) && state == SendStep(prio, old(state), t, mail, timeout)
      ensures r == if |old(state).queue| < pool.Length then Done else if timeout == 0 then Refused else Blocked
    {
      hide Inv, Enqueue, Contents, InOffset, Advance, AllIn;
      InvFacts(prio, state);
      SendKeeps(prio, state, t, mail, timeout);
      ContentsLength(pool[..], outOffset, entry);
      state := SendStep(prio, state, t, mail, timeout);
      if entry == pool.Length {
        if timeout == 0 {
          return Refused;
        }
        sendWait := Suspend(flag, prio, sendWait, t);
        if timeout > 0 {
          timed := timed + {t};
        }
        return Blocked;
      }
      RingPut(pool[..], outOffset, entry, mail);
      pool[inOffset] := mail;
      inOffset := Advance(inOffset, pool.Length);
      entry := entry + 1;
      if recvWait != [] {
        timed := timed - {recvWait[0]};
        recvWait := recvWait[1..];
      }
      r := Done;
    }

    /** One turn of rt_mb_recv. */
    method Recv(prio: Priorities, t: Tid, timeout: int) returns (r: Outcome, mail: Mail)
      requires Valid(prio) && Enabled(prio, state, Step.Recv(t, timeout))
      modifies this
      ensures Valid(prio) && state == RecvStep(prio, old(state), t, timeout)
      ensures r == if old(state).queue != [] then Done else if timeout == 0 then Refused else Blocked
      ensures r == Done ==> mail == old(state).queue[0]
    {
      hide Inv, Enqueue, Contents, InOffset, Advance, AllIn;
      InvFacts(prio, state);
      RecvKeeps(prio, state, t, timeout);
      ContentsLength(pool[..], outOffset, entry);
      state := RecvStep(prio, state, t, timeout);
      mail := 0;
      if entry == 0 {
        if timeout == 0 {
          return Refused, 0;
        }
        recvWait := Suspend(flag, prio, recvWait, t);
        if timeout > 0 {
          timed := timed + {t};
        }
        return Blocked, 0;
      }
      RingGet(pool[..], outOffset, entry);
      mail := pool[outOffset];
      outOffset := Advance(outOffset, pool.Length);
      entry := entry - 1;
      if sendWait != [] {
        timed := timed - {sendWait[0]};
        sendWait := sendWait[1..];
      }
      r := Done;
    }

    method Expire(prio: Priorities, t: Tid)
      requires Valid(prio) && t in timed
      modifies this
      ensures Valid(prio) && state == ExpireStep(old(state), t)
    {
      ExpireKeeps(prio, state, t);
      state := ExpireStep(state, t);
      recvWait, sendWait := Without(recvWait, t), Without(sendWait, t);
      timed := timed - {t};
    }

    method Reset(prio: Priorities)
      requires Valid(prio)
      modifies this
      ensures Valid(prio) && state == ResetStep(old(state))
    {
      ResetKeeps(prio, state);
      state := ResetStep(state);
      recvWait, sendWait, timed := [], [], {};
      entry, inOffset, outOffset := 0, 0, 0;
    }
  }

  lemma InvFacts(prio: Priorities, s: State)
    requires Inv(prio, s)
    ensures WellFormed(prio, s)
  {
  }
}
