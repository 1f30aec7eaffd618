/**
 The mailbox against a bounded first-in first-out queue that is run by the list of steps alone, and
 what each turn of a send or a receive does to the threads.
 */
module MailboxFifo {
  import opened NatLists
  import opened IpcList
  import opened Mailbox

  // ---- the queue -------------------------------------------------------------------------

  /** What is in the queue, and what has been accepted and handed out since the last reset. */
  datatype Line = Line(queue: seq<Mail>, accepted: seq<Mail>, delivered: seq<Mail>)

  /** A send is accepted while there is room, a receive takes the oldest mail if there is one. */
  function Served(size: nat, f: Line, step: Step): Line {
    match step
    case Send(_, mail, _) =>
      if |f.queue| < size then Line(f.queue + [mail], f.accepted + [mail], f.delivered) else f
    case Recv(_, _) =>
      if f.queue != [] then Line(f.queue[1..], f.accepted, f.delivered + [f.queue[0]]) else f
    case Reset => Line([], [], [])
    case _ => f
  }

  function ServedAll(size: nat, f: Line, steps: seq<Step>): Line
    decreases |steps|
  {
    if steps == [] then f else ServedAll(size, Served(size, f, steps[0]), steps[1..])
  }

  ghost predicate Refines(s: State, f: Line) {
    s.queue == f.queue && s.sent == f.accepted && s.received == f.delivered
  }

  lemma StepRefines(prio: Priorities, s: State, f: Line, step: Step)
    requires WellFormed(prio, s) && Enabled(prio, s, step) && Refines(s, f) && |s.queue| <= s.size
    ensures var s' := Next(prio, s, step);
            Refines(s', Served(s.size, f, step)) && s'.size == s.size && s'.flag == s.flag
  {
    hide AllIn, Enqueue, Without;
  }

  lemma {:induction false} RunRefines(prio: Priorities, s: State, f: Line, steps: seq<Step>, s': State)
    requires Inv(prio, s) && Reaches(prio, s, steps, s') && Refines(s, f)
    ensures Inv(prio, s') && Refines(s', ServedAll(s.size, f, steps)) && s'.size == s.size
    decreases |steps|
  {
    hide Refines;
    if steps != [] {
      StepRefines(prio, s, f, steps[0]);
      StepKeeps(prio, s, steps[0]);
      RunRefines(prio, Next(prio, s, steps[0]), Served(s.size, f, steps[0]), steps[1..], s');
    }
  }

  /** For every run: the mailbox holds what the queue holds, the mails handed out are those the queue
      hands out, and these are the mails of the accepted sends, in order and none left out. */
  lemma MailboxIsFifo(prio: Priorities, flag: Flag, size: nat, steps: seq<Step>, s: State)
    requires Reaches(prio, Init(flag, size), steps, s)
    ensures var f := ServedAll(size, Line([], [], []), steps);
            && s.queue == f.queue && s.received == f.delivered && s.sent == f.accepted
            && f.accepted == f.delivered + f.queue && |f.queue| <= size
  {
    RunRefines(prio, Init(flag, size), Line([], [], []), steps, s);
  }

  /** The queue itself, without any mailbox: what goes in comes out in order. */
  lemma {:induction false} FifoLaw(size: nat, f: Line, steps: seq<Step>)
    requires f.accepted == f.delivered + f.queue && |f.queue| <= size
    ensures var f' := ServedAll(size, f, steps); f'.accepted == f'.delivered + f'.queue && |f'.queue| <= size
    decreases |steps|
  {
    if steps != [] {
      FifoLaw(size, Served(size, f, steps[0]), steps[1..]);
    }
  }

  // ---- the threads -----------------------------------------------------------------------

  /** The first thread of a wait list is resumed, if there is one. */
  ghost predicate WakesFirst(wait: seq<Tid>, wait': seq<Tid>, woken: set<Tid>, woken': set<Tid>, timed: set<Tid>, timed': set<Tid>) {
    if wait == [] then wait' == [] && woken' == woken && timed' == timed
    else wait == [wait[0]] + wait' && woken' == woken + {wait[0]} && timed' == timed - {wait[0]}
  }

  /** A thread goes to sleep in a wait list, with its timer running if it has a limit. */
  ghost predicate Sleeps(prio: Priorities, flag: Flag, wait: seq<Tid>, wait': seq<Tid>, timed: set<Tid>, timed': set<Tid>, t: Tid, timeout: int)
    requires AllIn(wait, prio) && t in prio
  {
    Joins(flag, prio, wait, wait', t) && timed' == if timeout > 0 then timed + {t} else timed
  }

  /** One turn of rt_mb_send_wait: with room the mail is last in the queue and the first waiting receiver
      is resumed; without, the caller is refused or waits among the senders. */
  lemma SendDoes(prio: Priorities, s: State, t: Tid, mail: Mail, timeout: int)
    requires Inv(prio, s) && Enabled(prio, s, Send(t, mail, timeout))
    ensures var s' := Next(prio, s, Send(t, mail, timeout));
            && s'.flag == s.flag && s'.size == s.size && s'.failed == s.failed && s'.wokenS == s.wokenS - {t}
            && (if |s.queue| < s.size then
                  && s'.queue == s.queue + [mail] && s'.sendWait == s.sendWait
                  && WakesFirst(s.recvWait, s'.recvWait, s.wokenR, s'.wokenR, s.timed, s'.timed)
                else
                  && s'.queue == s.queue && s'.recvWait == s.recvWait && s'.wokenR == s.wokenR
                  && (if timeout == 0 then s'.sendWait == s.sendWait && s'.timed == s.timed
                      else Sleeps(prio, s.flag, s.sendWait, s'.sendWait, s.timed, s'.timed, t, timeout)))
  {
    hide Joins, Enqueue, Sorted, Distinct;
    EnqueueJoins(s.flag, prio, s.sendWait, t);
  }

  /** One turn of rt_mb_recv: the oldest mail leaves the queue and the first waiting sender is resumed;
      without mail the caller is refused or waits among the receivers. */
  lemma RecvDoes(prio: Priorities, s: State, t: Tid, timeout: int)
    requires Inv(prio, s) && Enabled(prio, s, Recv(t, timeout))
    ensures var s' := Next(prio, s, Recv(t, timeout));
            && s'.flag == s.flag && s'.size == s.size && s'.failed == s.failed && s'.wokenR == s.wokenR - {t}
            && (if s.queue != [] then
                  && s.queue == [s.queue[0]] + s'.queue && s'.recvWait == s.recvWait
                  && WakesFirst(s.sendWait, s'.sendWait, s.wokenS, s'.wokenS, s.timed, s'.timed)
                else
                  && s'.queue == s.queue && s'.sendWait == s.sendWait && s'.wokenS == s.wokenS
                  && (if timeout == 0 then s'.recvWait == s.recvWait && s'.timed == s.timed
                      else Sleeps(prio, s.flag, s.recvWait, s'.recvWait, s.timed, s'.timed, t, timeout)))
  {
    hide Joins, Enqueue, Sorted, Distinct;
    EnqueueJoins(s.flag, prio, s.recvWait, t);
  }

  /** A timeout resumes exactly that thread with an error; a reset resumes all, and empties the mailbox. */
  lemma FailuresDo(prio: Priorities, s: State, t: Tid, x: Tid)
    requires Inv(prio, s) && t in s.timed
    ensures var s' := Next(prio, s, Expire(t));
            && s'.queue == s.queue && s'.wokenR == s.wokenR && s'.wokenS == s.wokenS
            && s'.failed == s.failed + {t} && s'.timed == s.timed - {t} && t !in s'.recvWait && t !in s'.sendWait
            && (x != t ==> (x in s'.recvWait <==> x in s.recvWait) && (x in s'.sendWait <==> x in s.sendWait))
    ensures var s' := Next(prio, s, Reset);
            && s'.queue == [] && s'.recvWait == [] && s'.sendWait == [] && s'.timed == {}
            && s'.wokenR == s.wokenR && s'.wokenS == s.wokenS
            && (x in s'.failed <==> x in s.failed || x in s.recvWait || x in s.sendWait)
  {
    hide Without, Sorted;
    WithoutKeeps(s.recvWait, t, prio);
    WithoutKeeps(s.sendWait, t, prio);
  }
}
