/**
 The event object: a set of bits, threads waiting for all or any of some bits, and a wake scan
 that may clear bits as it goes.
 */
module Event {
  import opened Bits
  import opened NatLists
  import opened IpcList

  /** event_info: wait for all (AND) or any (OR) of the bits; clear them on receipt. */
  datatype Mode = Mode(all: bool, any: bool, clear: bool)

  /** What a suspended thread waits for: event_set and event_info. */
  datatype Wish = Wish(want: nat, mode: Mode)

  datatype Outcome = Received(bits: nat) | TimedOut | Failed

  /** The object and its waiting threads; woken are threads resumed but not yet returned. The
      ledger counts, per bit, how often it was sent and how often a clearing receiver got it. */
  datatype State = State(
    flag: Flag, bits: nat, waiters: seq<Tid>, wishes: map<Tid, Wish>, timed: set<Tid>,
    woken: map<Tid, Outcome>, sent: multiset<nat>, consumed: multiset<nat>)

  const EVENT_LENGTH: nat := 32

  function BitsOf(v: nat): set<nat> {
    set i | 0 <= i < EVENT_LENGTH && Bit(v, i)
  }

  predicate Satisfied(w: Wish, bits: nat) {
    if w.mode.all then And(w.want, bits) == w.want
    else w.mode.any && And(w.want, bits) != 0
  }

  /** The bits a satisfied waiter receives. */
  function Got(w: Wish, bits: nat): nat {
    if w.mode.all then w.want else And(w.want, bits)
  }

  function Left(w: Wish, bits: nat): nat {
    if w.mode.clear then AndNot(bits, Got(w, bits)) else bits
  }

  /** Result of the wake scan: the bits left, who stays, who was woken with what, and the
      bits that clearing waiters took. */
  datatype Scanned = Scanned(bits: nat, stay: seq<Tid>, woke: seq<(Tid, nat)>, taken: multiset<nat>)

  predicate AllWish(ts: seq<Tid>, wishes: map<Tid, Wish>) {
    forall i :: 0 <= i < |ts| ==> ts[i] in wishes
  }

  function Taken(w: Wish, bits: nat): multiset<nat> {
    if w.mode.clear then multiset(BitsOf(Got(w, bits))) else multiset{}
  }

  function Scan(bits: nat, ts: seq<Tid>, wishes: map<Tid, Wish>): Scanned
    requires AllWish(ts, wishes)
    decreases ts
  {
    if ts == [] then Scanned(bits, [], [], multiset{})
    else
      var w := wishes[ts[0]];
      if Satisfied(w, bits) then
        var r := Scan(Left(w, bits), ts[1..], wishes);
        r.(woke := [(ts[0], Got(w, bits))] + r.woke, taken := Taken(w, bits) + r.taken)
      else
        var r := Scan(bits, ts[1..], wishes);
        r.(stay := [ts[0]] + r.stay)
  }

  function Wake(woken: map<Tid, Outcome>, woke: seq<(Tid, nat)>): map<Tid, Outcome>
    decreases woke
  {
    if woke == [] then woken else Wake(woken[woke[0].0 := Received(woke[0].1)], woke[1..])
  }

  function WakeFailed(woken: map<Tid, Outcome>, ts: seq<Tid>): map<Tid, Outcome>
    decreases ts
  {
    if ts == [] then woken else WakeFailed(woken[ts[0] := Failed], ts[1..])
  }

  /** Resuming a thread stops its timer. */
  function StillTimed(timed: set<Tid>, stay: seq<Tid>): set<Tid> {
    set t | t in timed && t in stay
  }

  datatype Step =
    | Send(bits: nat)
    | Recv(t: Tid, wish: Wish, timeout: int)
    | Expire(t: Tid)
    | Return(t: Tid)
    | Reset

  function Init(flag: Flag): State {
    State(flag, 0, [], map[], {}, map[], multiset{}, multiset{})
  }

  predicate WellFormed(prio: Priorities, s: State) {
    AllWish(s.waiters, s.wishes) && AllIn(s.waiters, prio)
  }

  /** A receiver asks for all or any of some bits, and is not waiting already. */
  predicate Enabled(prio: Priorities, s: State, step: Step) {
    match step
    case Recv(t, w, _) => t in prio && t !in s.waiters && t !in s.woken && (w.mode.all || w.mode.any)
    case Expire(t) => t in s.timed
    case Return(t) => t in s.woken
    case _ => true
  }

  /** rt_event_send */
  function SendStep(prio: Priorities, s: State, bits: nat): State
    requires WellFormed(prio, s)
  {
    if bits == 0 then s
    else
      var r := Scan(Or(s.bits, bits), s.waiters, s.wishes);
      s.(bits := r.bits, waiters := r.stay, timed := StillTimed(s.timed, r.stay),
         woken := Wake(s.woken, r.woke),
         sent := s.sent + multiset(BitsOf(bits)), consumed := s.consumed + r.taken)
  }

  /** rt_event_recv up to the call of the scheduler. */
  function RecvStep(prio: Priorities, s: State, t: Tid, w: Wish, timeout: int): State
    requires WellFormed(prio, s) && t in prio
  {
    if w.want == 0 then s
    else if Satisfied(w, s.bits) then
      if w.mode.clear then
        s.(bits := AndNot(s.bits, w.want),
           consumed := s.consumed + multiset(BitsOf(And(s.bits, w.want))))
      else s
    else if timeout == 0 then s
    else s.(wishes := s.wishes[t := w], waiters := Enqueue(s.flag, prio, s.waiters, t),
            timed := if timeout > 0 then s.timed + {t} else s.timed)
  }

  function ExpireStep(s: State, t: Tid): State {
    s.(waiters := Without(s.waiters, t), timed := s.timed - {t}, woken := s.woken[t := TimedOut])
  }

  /** rt_event_control with RT_IPC_CMD_RESET */
  function ResetStep(s: State): State {
    s.(bits := 0, waiters := [], timed := {}, woken := WakeFailed(s.woken, s.waiters))
  }

  function Next(prio: Priorities, s: State, step: Step): State
    requires WellFormed(prio, s) && Enabled(prio, s, step)
  {
    match step
    case Send(bits) => SendStep(prio, s, bits)
    case Recv(t, w, timeout) => RecvStep(prio, s, t, w, timeout)
    case Expire(t) => ExpireStep(s, t)
    case Return(t) => s.(woken := s.woken - {t})
    case Reset => ResetStep(s)
  }

  // ---- bit by bit ------------------------------------------------------------------------

  /** AND asks for all of the bits, OR for some of them. */
  lemma SatisfiedIs(w: Wish, bits: nat)
    ensures w.mode.all ==> (Satisfied(w, bits) <==> forall i: nat :: Bit(w.want, i) ==> Bit(bits, i))
    ensures !w.mode.all && w.mode.any ==> (Satisfied(w, bits) <==> exists i: nat :: Bit(w.want, i) && Bit(bits, i))
    ensures !w.mode.all && !w.mode.any ==> !Satisfied(w, bits)
  {
    AllBits(w.want, bits);
    SomeBits(w.want, bits);
  }

  lemma AllBits(v: nat, w: nat)
    ensures And(v, w) == v <==> forall i: nat :: Bit(v, i) ==> Bit(w, i)
  {
    hide Bit, And;
    forall i: nat ensures Bit(And(v, w), i) <==> Bit(v, i) && Bit(w, i) {
      BitOfAnd(v, w, i);
    }
    if i: nat :| Bit(v, i) && !Bit(w, i) {
      BitOfAnd(v, w, i);
    } else {
      SameBits(And(v, w), v);
    }
  }

  lemma SomeBits(v: nat, w: nat)
    ensures And(v, w) != 0 <==> exists i: nat :: Bit(v, i) && Bit(w, i)
  {
    hide Bit, And;
    forall i: nat ensures Bit(And(v, w), i) <==> Bit(v, i) && Bit(w, i) {
      BitOfAnd(v, w, i);
    }
    if i: nat :| Bit(v, i) && Bit(w, i) {
      BitOfAnd(v, w, i);
      ZeroHasNoBit(i);
    } else {
      NoBitsIsZero(And(v, w));
    }
  }

  /** A satisfied waiter receives those of its bits that are set, and exactly these leave the set if it
      clears on receipt. */
  lemma ReceiptIs(w: Wish, bits: nat, i: nat)
    requires Satisfied(w, bits)
    ensures Bit(Got(w, bits), i) <==> Bit(w.want, i) && Bit(bits, i)
    ensures Bit(Left(w, bits), i) <==> Bit(bits, i) && !(w.mode.clear && Bit(w.want, i))
  {
    SatisfiedIs(w, bits);
    BitOfAnd(w.want, bits, i);
    BitOfAndNot(bits, Got(w, bits), i);
  }

  /** The set a waiter meets in the scan is what those in front of it leave: it is resumed exactly if that
      satisfies it, and then it gets its bits of that set, and those behind it meet what it leaves. */
  lemma {:induction false} ScanAt(bits: nat, ts: seq<Tid>, wishes: map<Tid, Wish>, k: nat)
    requires AllWish(ts, wishes) && Distinct(ts) && k < |ts| && AllWish(ts[..k], wishes) && AllWish(ts[..k + 1], wishes)
    ensures var r, b, w := Scan(bits, ts, wishes), Scan(bits, ts[..k], wishes).bits, wishes[ts[k]];
            && (ts[k] in r.stay <==> !Satisfied(w, b))
            && (Satisfied(w, b) ==> (ts[k], Got(w, b)) in r.woke)
            && Scan(bits, ts[..k + 1], wishes).bits == if Satisfied(w, b) then Left(w, b) else b
    decreases |ts|
  {
    hide Satisfied, Got, Left, Taken;
    var w0 := wishes[ts[0]];
    var rest := if Satisfied(w0, bits) then Left(w0, bits) else bits;
    StayIsSome(rest, ts[1..], wishes);
    assert ts[..k + 1][0] == ts[0];
    if k == 0 {
      assert ts[..1][1..] == [];
    } else {
      assert ts[..k][0] == ts[0] && ts[..k][1..] == ts[1..][..k - 1] && ts[..k + 1][1..] == ts[1..][..k];
      ScanAt(rest, ts[1..], wishes, k - 1);
    }
  }

  lemma {:induction false} StayIsSome(bits: nat, ts: seq<Tid>, wishes: map<Tid, Wish>)
    requires AllWish(ts, wishes)
    ensures forall t :: t in Scan(bits, ts, wishes).stay ==> t in ts
    decreases |ts|
  {
    hide Satisfied, Got, Left, Taken;
    if ts != [] {
      var w0 := wishes[ts[0]];
      StayIsSome(if Satisfied(w0, bits) then Left(w0, bits) else bits, ts[1..], wishes);
    }
  }

  // ---- clearing bits satisfies nobody ----------------------------------------------------

  ghost predicate Subset(v: nat, w: nat) {
    forall i: nat :: Bit(v, i) ==> Bit(w, i)
  }

  lemma AndNotSubset(v: nat, w: nat)
    ensures Subset(AndNot(v, w), v)
  {
  }

  /** A waiter that a set satisfies is satisfied by every larger set. */
  lemma SatisfiedUpwards(w: Wish, v: nat, u: nat)
    requires Subset(v, u) && Satisfied(w, v)
    ensures Satisfied(w, u)
  {
    forall i: nat ensures Bit(And(w.want, v), i) ==> Bit(And(w.want, u), i) {
      BitOfAnd(w.want, v, i);
      BitOfAnd(w.want, u, i);
    }
    if w.mode.all {
      forall i: nat ensures Bit(And(w.want, u), i) <==> Bit(w.want, i) {
        BitOfAnd(w.want, u, i);
      }
      SameBits(And(w.want, u), w.want);
    } else if And(w.want, u) == 0 {
      forall i: nat ensures !Bit(And(w.want, v), i) {
        ZeroHasNoBit(i);
      }
      NoBitsIsZero(And(w.want, v));
    }
  }

  /** What a satisfied waiter receives was in the set. */
  lemma GotSubset(w: Wish, bits: nat)
    requires Satisfied(w, bits)
    ensures Subset(Got(w, bits), bits)
  {
    forall i: nat ensures Bit(Got(w, bits), i) ==> Bit(bits, i) {
      BitOfAnd(w.want, bits, i);
    }
  }

  lemma LeftSubset(w: Wish, bits: nat)
    ensures Subset(Left(w, bits), bits)
  {
    AndNotSubset(bits, Got(w, bits));
  }

  /** Nobody in ts is satisfied by the set. */
  ghost predicate Quiet(bits: nat, ts: seq<Tid>, wishes: map<Tid, Wish>) {
    AllWish(ts, wishes) && forall i :: 0 <= i < |ts| ==> !Satisfied(wishes[ts[i]], bits)
  }

  lemma QuietDownwards(v: nat, u: nat, ts: seq<Tid>, wishes: map<Tid, Wish>)
    requires Subset(v, u) && Quiet(u, ts, wishes)
    ensures Quiet(v, ts, wishes)
  {
    forall i | 0 <= i < |ts| ensures !Satisfied(wishes[ts[i]], v) {
      if Satisfied(wishes[ts[i]], v) {
        SatisfiedUpwards(wishes[ts[i]], v, u);
      }
    }
  }

  /** The scan is quiescent: those who stay are not satisfied by the bits finally left, although
      bits were cleared after they were looked at. */
  lemma {:induction false} ScanQuiet(bits: nat, ts: seq<Tid>, wishes: map<Tid, Wish>)
    requires AllWish(ts, wishes)
    ensures var r := Scan(bits, ts, wishes); Subset(r.bits, bits) && Quiet(r.bits, r.stay, wishes)
    decreases ts
  {
    if ts != [] {
      var w := wishes[ts[0]];
      var rest := if Satisfied(w, bits) then Left(w, bits) else bits;
      ScanQuiet(rest, ts[1..], wishes);
      LeftSubset(w, bits);
      var r := Scan(rest, ts[1..], wishes);
      if !Satisfied(w, bits) {
        QuietDownwards(r.bits, bits, [ts[0]], wishes);
      }
    }
  }

  /** The scan splits the waiters in two, keeping the order of those who stay. */
  lemma {:induction false} ScanMembers(bits: nat, ts: seq<Tid>, wishes: map<Tid, Wish>, prio: Priorities)
    requires AllWish(ts, wishes) && Distinct(ts) && AllIn(ts, prio)
    ensures var r := Scan(bits, ts, wishes);
            && Distinct(r.stay) && AllIn(r.stay, prio)
            && (forall t :: t in r.stay ==> t in ts)
            && (forall k :: 0 <= k < |r.woke| ==> r.woke[k].0 in ts && r.woke[k].0 !in r.stay)
            && (Sorted(ts, prio) ==> Sorted(r.stay, prio))
            && |r.stay| + |r.woke| == |ts|
    decreases ts
  {
    if ts != [] {
      TailKeeps(ts, prio);
      var w := wishes[ts[0]];
      var rest := if Satisfied(w, bits) then Left(w, bits) else bits;
      ScanMembers(rest, ts[1..], wishes, prio);
      var r := Scan(rest, ts[1..], wishes);
      if !Satisfied(w, bits) {
        if Sorted(ts, prio) {
          forall i | 0 <= i < |r.stay| ensures prio[ts[0]] <= prio[r.stay[i]] {
            assert r.stay[i] in r.stay;
            var j :| 0 <= j < |ts[1..]| && ts[1..][j] == r.stay[i];
          }
        }
      }
    }
  }

  // ---- the ledger ------------------------------------------------------------------------

  function Has(v: nat, b: nat): nat {
    if Bit(v, b) then 1 else 0
  }

  /** Each bit the scan clears is taken by exactly one waiter. */
  lemma {:induction false} ScanConserves(bits: nat, ts: seq<Tid>, wishes: map<Tid, Wish>, b: nat)
    requires AllWish(ts, wishes) && b < EVENT_LENGTH
    ensures var r := Scan(bits, ts, wishes); r.taken[b] + Has(r.bits, b) == Has(bits, b)
    decreases ts
  {
    if ts != [] {
      var w := wishes[ts[0]];
      if Satisfied(w, bits) {
        ScanConserves(Left(w, bits), ts[1..], wishes, b);
        WakeConserves(w, bits, b);
      } else {
        ScanConserves(bits, ts[1..], wishes, b);
      }
    }
  }

  lemma WakeConserves(w: Wish, bits: nat, b: nat)
    requires Satisfied(w, bits) && b < EVENT_LENGTH
    ensures Taken(w, bits)[b] + Has(Left(w, bits), b) == Has(bits, b)
  {
    GotSubset(w, bits);
    BitOfAndNot(bits, Got(w, bits), b);
  }

  // ---- invariant and runs ----------------------------------------------------------------

  /** A bit cannot have been consumed more often than it was sent. */
  ghost predicate ConsumedAtMostSent(s: State) {
    forall b :: 0 <= b < EVENT_LENGTH ==> s.consumed[b] + Has(s.bits, b) <= s.sent[b]
  }

  ghost predicate Inv(prio: Priorities, s: State) {
    && WellFormed(prio, s) && Distinct(s.waiters)
    && (s.flag == Prio ==> Sorted(s.waiters, prio))
    && (forall t :: t in s.timed ==> t in s.waiters)
    && (forall t :: t in s.woken ==> t !in s.waiters)
    && Quiet(s.bits, s.waiters, s.wishes)
    && ConsumedAtMostSent(s)
  }

  lemma {:induction false} WakeIs(woken: map<Tid, Outcome>, woke: seq<(Tid, nat)>, t: Tid)
    requires t in Wake(woken, woke)
    ensures t in woken || exists k :: 0 <= k < |woke| && woke[k].0 == t
    decreases woke
  {
    if woke != [] {
      WakeIs(woken[woke[0].0 := Received(woke[0].1)], woke[1..], t);
    }
  }

  lemma SendKeeps(prio: Priorities, s: State, bits: nat)
    requires Inv(prio, s)
    ensures Inv(prio, SendStep(prio, s, bits))
  {
    if bits != 0 {
      var all := Or(s.bits, bits);
      var r := Scan(all, s.waiters, s.wishes);
      var s' := SendStep(prio, s, bits);
      ScanQuiet(all, s.waiters, s.wishes);
      ScanMembers(all, s.waiters, s.wishes, prio);
      forall t | t in s'.woken ensures t !in s'.waiters {
        WakeIs(s.woken, r.woke, t);
      }
      forall b | 0 <= b < EVENT_LENGTH ensures s'.consumed[b] + Has(s'.bits, b) <= s'.sent[b] {
        ScanConserves(all, s.waiters, s.wishes, b);
        BitOfOr(s.bits, bits, b);
      }
    }
  }

  lemma RecvKeeps(prio: Priorities, s: State, t: Tid, w: Wish, timeout: int)
    requires Inv(prio, s) && Enabled(prio, s, Recv(t, w, timeout))
    ensures Inv(prio, RecvStep(prio, s, t, w, timeout))
  {
    var s' := RecvStep(prio, s, t, w, timeout);
    if w.want != 0 && Satisfied(w, s.bits) && w.mode.clear {
      AndNotSubset(s.bits, w.want);
      QuietDownwards(s'.bits, s.bits, s.waiters, s.wishes);
      forall b | 0 <= b < EVENT_LENGTH ensures s'.consumed[b] + Has(s'.bits, b) <= s'.sent[b] {
        BitOfAnd(s.bits, w.want, b);
        BitOfAndNot(s.bits, w.want, b);
      }
    } else if w.want != 0 && !Satisfied(w, s.bits) && timeout != 0 {
      BlockKeeps(prio, s, t, w, timeout);
    }
  }

  lemma BlockKeeps(prio: Priorities, s: State, t: Tid, w: Wish, timeout: int)
    requires Inv(prio, s) && Enabled(prio, s, Recv(t, w, timeout))
    requires w.want != 0 && !Satisfied(w, s.bits) && timeout != 0
    ensures Inv(prio, RecvStep(prio, s, t, w, timeout))
  {
    var s' := RecvStep(prio, s, t, w, timeout);
    EnqueueKeeps(s.flag, prio, s.waiters, t);
  }

  lemma ExpireKeeps(prio: Priorities, s: State, t: Tid)
    requires Inv(prio, s) && t in s.timed
    ensures Inv(prio, ExpireStep(s, t))
  {
    var s' := ExpireStep(s, t);
    WithoutKeeps(s.waiters, t, prio);
    forall i | 0 <= i < |s'.waiters| ensures s'.waiters[i] in s.wishes && !Satisfied(s.wishes[s'.waiters[i]], s.bits) {
      assert s'.waiters[i] in s'.waiters;
    }
  }

  lemma ResetKeeps(prio: Priorities, s: State)
    requires Inv(prio, s)
    ensures Inv(prio, ResetStep(s))
  {
    forall b: nat ensures Has(0, b) == 0 {
      ZeroHasNoBit(b);
    }
  }

  lemma StepKeeps(prio: Priorities, s: State, step: Step)
    requires Inv(prio, s) && Enabled(prio, s, step)
    ensures Inv(prio, Next(prio, s, step))
  {
    match step {
      case Send(bits) => SendKeeps(prio, s, bits);
      case Recv(t, w, timeout) => RecvKeeps(prio, s, t, w, timeout);
      case Expire(t) => ExpireKeeps(prio, s, t);
      case Return(t) => ReturnKeeps(prio, s, t);
      case Reset => ResetKeeps(prio, s);
    }
  }

  lemma ReturnKeeps(prio: Priorities, s: State, t: Tid)
    requires Inv(prio, s) && t in s.woken
    ensures Inv(prio, s.(woken := s.woken - {t}))
  {
  }

  ghost predicate Reaches(prio: Priorities, s: State, steps: seq<Step>, s': State)
    decreases |steps|
  {
    if steps == [] then s' == s
    else
      && WellFormed(prio, s) && Enabled(prio, s, steps[0])
      && Reaches(prio, Next(prio, s, steps[0]), steps[1..], s')
  }

  lemma {:induction false} RunKeeps(prio: Priorities, s: State, steps: seq<Step>, s': State)
    requires Inv(prio, s) && Reaches(prio, s, steps, s')
    ensures Inv(prio, s')
    decreases |steps|
  {
    if steps != [] {
      StepKeeps(prio, s, steps[0]);
      RunKeeps(prio, Next(prio, s, steps[0]), steps[1..], s');
    }
  }

  /** Over every run of sends, receives, timeouts and resets: no suspended thread's condition
      is satisfied by the current set, and no bit is consumed more often than it was sent, so
      a bit sent once goes to at most one clearing receiver. */
  lemma EventSafety(prio: Priorities, flag: Flag, steps: seq<Step>, s: State)
    requires Reaches(prio, Init(flag), steps, s)
    ensures forall i :: 0 <= i < |s.waiters| ==> s.waiters[i] in s.wishes && !Satisfied(s.wishes[s.waiters[i]], s.bits)
    ensures forall b :: 0 <= b < EVENT_LENGTH ==> s.consumed[b] + Has(s.bits, b) <= s.sent[b]
  {
    InitInv(prio, flag);
    RunKeeps(prio, Init(flag), steps, s);
  }

  lemma InitInv(prio: Priorities, flag: Flag)
    ensures Inv(prio, Init(flag))
  {
    forall b: nat ensures Has(0, b) == 0 {
      ZeroHasNoBit(b);
    }
  }

  // ---- what each step does ---------------------------------------------------------------

  /** rt_event_send: the scan of the wait list starts from the bits that were set or are sent; who is not
      resumed keeps its place, and the timer of who is stops. */
  lemma SendDoes(prio: Priorities, s: State, more: nat, i: nat)
    requires Inv(prio, s) && more != 0
    ensures var s', all := Next(prio, s, Send(more)), Or(s.bits, more);
            && (Bit(all, i) <==> Bit(s.bits, i) || Bit(more, i))
            && s'.bits == Scan(all, s.waiters, s.wishes).bits && s'.waiters == Scan(all, s.waiters, s.wishes).stay
            && (s.waiters == [] ==> s'.bits == all)
            && (i in s'.timed <==> i in s.timed && i in s'.waiters)
            && s'.flag == s.flag && s'.wishes == s.wishes
  {
    hide Satisfied, Got, Left, Taken, Quiet, Sorted, Distinct, Wake;
    BitOfOr(s.bits, more, i);
  }

  /** rt_event_recv: with the wish satisfied the wanted bits leave the set if they are to be cleared, and
      nobody else is concerned; otherwise the caller is refused or waits for them. */
  lemma RecvDoes(prio: Priorities, s: State, t: Tid, w: Wish, timeout: int, i: nat)
    requires Inv(prio, s) && Enabled(prio, s, Recv(t, w, timeout)) && w.want != 0
    ensures var s' := Next(prio, s, Recv(t, w, timeout));
            && s'.flag == s.flag && s'.woken == s.woken
            && (if Satisfied(w, s.bits) then
                  && (Bit(s'.bits, i) <==> Bit(s.bits, i) && !(w.mode.clear && Bit(w.want, i)))
                  && s'.waiters == s.waiters && s'.timed == s.timed && s'.wishes == s.wishes
                else if timeout == 0 then s' == s
                else
                  && s'.bits == s.bits && Joins(s.flag, prio, s.waiters, s'.waiters, t) && s'.wishes == s.wishes[t := w]
                  && s'.timed - {t} == s.timed && (t in s'.timed <==> timeout > 0))
  {
    hide Satisfied, Joins, Enqueue, Quiet, Sorted, Distinct, ConsumedAtMostSent;
    EnqueueJoins(s.flag, prio, s.waiters, t);
    BitOfAndNot(s.bits, w.want, i);
  }

  // ---- the object ------------------------------------------------------------------------

  /** The scan, cut at a position the loop has reached. */
  ghost function Resumed(done: seq<Tid>, woke: seq<(Tid, nat)>, taken: multiset<nat>, r: Scanned): Scanned {
    Scanned(r.bits, done + r.stay, woke + r.woke, taken + r.taken)
  }

  lemma ScanOfNone(bits: nat, wishes: map<Tid, Wish>)
    ensures Scan(bits, [], wishes) == Scanned(bits, [], [], multiset{})
  {
  }

  /** One turn of the walk: the thread at n is resumed and leaves the list, or is passed. */
  lemma ScanTurn(bits: nat, ts: seq<Tid>, n: nat, woke: seq<(Tid, nat)>, taken: multiset<nat>, wishes: map<Tid, Wish>)
    requires n < |ts| && AllWish(ts, wishes)
    ensures var w := wishes[ts[n]];
            var before := Resumed(ts[..n], woke, taken, Scan(bits, ts[n..], wishes));
            if Satisfied(w, bits) then
              var us := ts[..n] + ts[n + 1..];
              && AllWish(us, wishes) && |us| == |ts| - 1
              && before == Resumed(us[..n], woke + [(ts[n], Got(w, bits))], taken + Taken(w, bits),
                                   Scan(if w.mode.clear then AndNot(bits, Got(w, bits)) else bits, us[n..], wishes))
            else
              before == Resumed(ts[..n + 1], woke, taken, Scan(bits, ts[n + 1..], wishes))
  {
  }

  class Event {
    const flag: Flag
    var bits: nat
    var suspended: seq<Tid>
    var wishes: map<Tid, Wish>
    var timed: set<Tid>
    var woken: map<Tid, Outcome>
    ghost var state: State

    ghost predicate Valid(prio: Priorities)
      reads this
    {
      && Inv(prio, state)
      && state.flag == flag && state.bits == bits && state.waiters == suspended
      && state.wishes == wishes && state.timed == timed && state.woken == woken
    }

    constructor (prio: Priorities, flag: Flag)
      ensures Valid(prio) && state == Init(flag)
    {
      this.flag, bits, suspended, wishes, timed, woken := flag, 0, [], map[], {}, map[];
      state := Init(flag);
      InitInv(prio, flag);
    }

    /** rt_event_send: set the bits, then walk the wait list once, resuming every thread whose
        condition holds at its turn. */
    method Send(prio: Priorities, more: nat) returns (ok: bool, reschedule: bool)
      requires Valid(prio)
      modifies this
      ensures Valid(prio) && state == SendStep(prio, old(state), more)
      ensures ok <==> more != 0
      ensures reschedule <==> ok && suspended != old(suspended)
    {
      if more == 0 {
        return false, false;
      }
      SendKeeps(prio, state, more);
      bits := Or(bits, more);
      var woke := WakeScan();
      timed := StillTimed(timed, suspended);
      woken := Wake(woken, woke);
      state := SendStep(prio, state, more);
      ok, reschedule := true, woke != [];
    }

    /** The walk over the wait list. */
    method WakeScan() returns (woke: seq<(Tid, nat)>)
      requires AllWish(suspended, wishes)
      modifies this`bits, this`suspended
      ensures var r := Scan(old(bits), old(suspended), wishes);
              bits == r.bits && suspended == r.stay && woke == r.woke
      ensures woke == [] <==> suspended == old(suspended)
    {
      woke := [];
      ghost var taken: multiset<nat> := multiset{};
      ghost var all := Scan(bits, suspended, wishes);
      var n := 0;
      while n < |suspended|
        invariant 0 <= n <= |suspended| && AllWish(suspended, wishes)
        invariant all == Resumed(suspended[..n], woke, taken, Scan(bits, suspended[n..], wishes))
        invariant |woke| + |suspended| == |old(suspended)|
        invariant woke == [] ==> suspended == old(suspended)
        decreases |suspended| - n
        modifies this`bits, this`suspended
      {
        var t := suspended[n];
        var w := wishes[t];
        ScanTurn(bits, suspended, n, woke, taken, wishes);
        if Satisfied(w, bits) {
          var got := Got(w, bits);
          taken := taken + Taken(w, bits);
          woke := woke + [(t, got)];
          suspended := suspended[..n] + suspended[n + 1..];
          if w.mode.clear {
            bits := AndNot(bits, got);
          }
        } else {
          n := n + 1;
        }
      }
      ScanOfNone(bits, wishes);
    }

    /** rt_event_recv up to the call of the scheduler; received is set unless blocked. */
    method Recv(prio: Priorities, t: Tid, w: Wish, timeout: int) returns (received: Outcome, blocked: bool)
      requires Valid(prio) && Enabled(prio, state, Step.Recv(t, w, timeout))
      modifies this
      ensures Valid(prio) && state == RecvStep(prio, old(state), t, w, timeout)
      ensures blocked <==> w.want != 0 && !Satisfied(w, old(bits)) && timeout != 0
      ensures !blocked ==>
                received == if w.want == 0 then Failed
                            else if Satisfied(w, old(bits)) then Received(And(old(bits), w.want))
                            else TimedOut
    {
      InvFacts(prio, state);
      RecvKeeps(prio, state, t, w, timeout);
      state := RecvStep(prio, state, t, w, timeout);
      received, blocked := Failed, false;
      if w.want == 0 {
        return;
      }
      if Satisfied(w, bits) {
        received := Received(And(bits, w.want));
        if w.mode.clear {
          bits := AndNot(bits, w.want);
        }
      } else if timeout == 0 {
        received := TimedOut;
      } else {
        wishes := wishes[t := w];
        suspended := Suspend(flag, prio, suspended, t);
        if timeout > 0 {
          timed := timed + {t};
        }
        blocked := true;
      }
    }

    method Expire(prio: Priorities, t: Tid)
      requires Valid(prio) && t in timed
      modifies this
      ensures Valid(prio) && state == ExpireStep(old(state), t)
    {
      ExpireKeeps(prio, state, t);
      state := ExpireStep(state, t);
      suspended := Without(suspended, t);
      timed := timed - {t};
      woken := woken[t := TimedOut];
    }
  }

  lemma InvFacts(prio: Priorities, s: State)
    requires Inv(prio, s)
    ensures WellFormed(prio, s)
  {
  }
}
