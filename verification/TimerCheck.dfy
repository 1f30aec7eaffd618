/**
 The operations on timers, the expiry loop as a specification, and what every run keeps.
 */
module TimerCheck {
  import opened NatLists
  import opened Timer
  import opened TimerList

  /** rt_timer_start: out of the rows, a new deadline, into the rows again. */
  function Start(s: State, mask: nat, t: Tid): State
    requires t in s.init && s.rows != []
  {
    var deadline := s.deadline[t := Add(s.now, s.init[t])];
    var random := Add(s.random, 1);
    s.(deadline := deadline, random := random,
       rows := Link(RemoveAll(s.rows, t), t, Height(random, mask, |s.rows|), deadline))
  }

  /** rt_timer_stop, which fails on a timer that is not active. */
  function Stop(s: State, t: Tid): (State, bool) {
    if t in Last(s.rows) then (s.(rows := RemoveAll(s.rows, t)), true) else (s, false)
  }

  /** rt_timer_list_next_timeout */
  function NextTimeout(s: State): nat {
    if Last(s.rows) == [] then TICKS - 1 else DeadlineOf(s.deadline, Last(s.rows)[0])
  }

  /** The timers that rt_timer_check fires: those at the front of the last row that are due. */
  function Due(row: seq<Tid>, deadline: map<Tid, nat>, now: nat): (r: seq<Tid>)
    decreases row
  {
    if row == [] || Sub(now, DeadlineOf(deadline, row[0])) >= HALF then [] else [row[0]] + Due(row[1..], deadline, now)
  }

  /** One turn of rt_timer_check; the callback leaves the timers alone. */
  function Fire(s: State, mask: nat, t: Tid): State
    requires s.rows != [] && (t in s.periodic ==> t in s.init)
  {
    var s1 := s.(rows := RemoveAll(s.rows, t));
    if t in s.periodic then Start(s1, mask, t) else s1
  }

  ghost predicate Configured(s: State) {
    s.rows != [] && forall t :: t in s.periodic ==> t in s.init
  }

  lemma FireConfigured(s: State, mask: nat, t: Tid)
    requires Configured(s)
    ensures var s' := Fire(s, mask, t);
            Configured(s') && s'.periodic == s.periodic && s'.init == s.init && s'.now == s.now && |s'.rows| == |s.rows|
  {
  }

  ghost function FireAll(s: State, mask: nat, ts: seq<Tid>): State
    requires Configured(s)
    decreases ts
  {
    if ts == [] then s
    else
      FireConfigured(s, mask, ts[0]);
      FireAll(Fire(s, mask, ts[0]), mask, ts[1..])
  }

  lemma FireAllTurn(s: State, mask: nat, ts: seq<Tid>)
    requires Configured(s) && ts != []
    ensures Configured(Fire(s, mask, ts[0])) && FireAll(s, mask, ts) == FireAll(Fire(s, mask, ts[0]), mask, ts[1..])
  {
    hide Fire;
    FireConfigured(s, mask, ts[0]);
  }

  /** rt_timer_check */
  ghost function Check(s: State, mask: nat): State
    requires Configured(s)
  {
    FireAll(s, mask, Due(Last(s.rows), s.deadline, s.now))
  }

  // ---- one window ------------------------------------------------------------------------

  /** The rows are in order as seen from base, and the present tick is less than half the range
      after base. */
  ghost predicate Mid(s: State, base: nat) {
    && Configured(s) && base < TICKS && s.now < TICKS && Sub(s.now, base) < HALF
    && Window(Last(s.rows), s.deadline, base)
    && RowsOk(s.rows, Keys(s.deadline, base))
  }

  lemma RowsSame(rows: seq<seq<Tid>>, key: map<Tid, nat>, key': map<Tid, nat>)
    requires RowsOk(rows, key) && forall x :: x in Last(rows) ==> At(key', x) == At(key, x)
    ensures RowsOk(rows, key')
  {
  }

  /** A timer whose new deadline is in the window. */
  ghost predicate Restartable(s: State, base: nat, t: Tid) {
    && t in s.init && Sub(s.now, base) + s.init[t] <= HALF
    && forall x :: x in Last(s.rows) && x != t && x in s.deadline ==> Sub(s.deadline[x], base) < Sub(s.now, base) + s.init[t] + HALF
  }

  /** The rows without the timer, ready to take it in with its new deadline. */
  lemma StartReady(s: State, base: nat, t: Tid, deadline: map<Tid, nat>)
    requires Mid(s, base) && Restartable(s, base, t) && deadline == s.deadline[t := Add(s.now, s.init[t])]
    ensures var rows1 := RemoveAll(s.rows, t);
            && rows1 != [] && Last(rows1) == Without(Last(s.rows), t)
            && RowsOk(rows1, Keys(deadline, base)) && Fits(Last(rows1), t, deadline, base) && t !in Last(rows1)
            && (forall x :: x in Last(rows1) <==> x in Last(s.rows) && x != t)
            && Sub(deadline[t], base) == Sub(s.now, base) + s.init[t]
  {
    var rows1, key, key' := RemoveAll(s.rows, t), Keys(s.deadline, base), Keys(deadline, base);
    AddKey(base, s.now, s.init[t]);
    RemoveAllKeeps(s.rows, t, key);
    forall x | x in Last(rows1) ensures At(key', x) == At(key, x) {
      OtherKey(s.deadline, t, deadline[t], base, x);
    }
    RowsSame(rows1, key, key');
  }

  lemma OtherKey(deadline: map<Tid, nat>, t: Tid, d: nat, base: nat, x: Tid)
    requires x != t
    ensures At(Keys(deadline[t := d], base), x) == At(Keys(deadline, base), x)
  {
  }

  lemma WindowAfter(row: seq<Tid>, row': seq<Tid>, t: Tid, deadline: map<Tid, nat>, base: nat)
    requires Fits(row, t, deadline, base) && forall x :: x in row' <==> x == t || x in row
    ensures Window(row', deadline, base)
  {
  }

  /** The row after a start: stable insertion of the timer into the row without it. */
  lemma StartMid(s: State, base: nat, mask: nat, t: Tid)
    requires Mid(s, base) && Restartable(s, base, t)
    ensures var s' := Start(s, mask, t);
            && Mid(s', base) && t in s'.deadline && Sub(s'.deadline[t], base) == Sub(s.now, base) + s.init[t]
            && Last(s'.rows) == Insert(Without(Last(s.rows), t), t, Keys(s'.deadline, base))
            && (forall x :: x in Last(s'.rows) <==> x == t || x in Last(s.rows))
            && (forall x :: x in s.deadline && x != t ==> x in s'.deadline && s'.deadline[x] == s.deadline[x])
  {
    var s' := Start(s, mask, t);
    StartRows(s, base, mask, t);
  }

  lemma StartFields(s: State, mask: nat, t: Tid)
    requires t in s.init && s.rows != []
    ensures var s' := Start(s, mask, t);
            && s'.deadline == s.deadline[t := Add(s.now, s.init[t])] && s'.init == s.init && s'.periodic == s.periodic
            && s'.now == s.now && |s'.rows| == |s.rows|
  {
  }

  lemma StartRows(s: State, base: nat, mask: nat, t: Tid)
    requires Mid(s, base) && Restartable(s, base, t)
    ensures var s' := Start(s, mask, t);
            && RowsOk(s'.rows, Keys(s'.deadline, base)) && Window(Last(s'.rows), s'.deadline, base)
            && t in s'.deadline && Sub(s'.deadline[t], base) == Sub(s.now, base) + s.init[t]
            && Last(s'.rows) == Insert(Without(Last(s.rows), t), t, Keys(s'.deadline, base))
            && (forall x :: x in Last(s'.rows) <==> x == t || x in Last(s.rows))
  {
    var s' := Start(s, mask, t);
    var key' := Keys(s'.deadline, base);
    var rows1, h := RemoveAll(s.rows, t), Height(s'.random, mask, |s.rows|);
    StartReady(s, base, t, s'.deadline);
    assert s'.rows == Link(rows1, t, h, s'.deadline);
    LinkIsInsert(rows1, t, h, s'.deadline, base);
    InsertAllKeeps(rows1, t, h, key');
    LastInserted(rows1, t, key');
    WindowAfter(Last(rows1), Last(s'.rows), t, s'.deadline, base);
  }

  lemma LastInserted(rows: seq<seq<Tid>>, t: Tid, key: map<Tid, nat>)
    requires RowsOk(rows, key) && t !in Last(rows)
    ensures forall x :: x in Insert(Last(rows), t, key) <==> x == t || x in Last(rows)
  {
    InsertKeeps(Last(rows), t, key);
  }

  // ---- expiry ----------------------------------------------------------------------------

  /** The first timer of the row is due. */
  ghost predicate FirstDue(s: State) {
    Last(s.rows) != [] && Sub(s.now, DeadlineOf(s.deadline, Last(s.rows)[0])) < HALF
  }

  /** Periodic timers wait at least one tick and stay in the window. */
  ghost predicate Periods(s: State, base: nat) {
    forall t :: t in s.periodic ==> t in s.init && s.init[t] >= 1 && Sub(s.now, base) + s.init[t] <= HALF
  }

  lemma {:induction false} DueMembers(row: seq<Tid>, deadline: map<Tid, nat>, now: nat, base: nat, x: Tid)
    requires Window(row, deadline, base) && now < TICKS && Sub(now, base) < HALF && Sorted(row, Keys(deadline, base)) && x in row
    ensures x in Due(row, deadline, now) <==> Sub(deadline[x], base) <= Sub(now, base)
    decreases row
  {
    DueIs(base, now, deadline[row[0]]);
    if Sub(now, DeadlineOf(deadline, row[0])) >= HALF {
      var i :| 0 <= i < |row| && row[i] == x;
    } else if x != row[0] {
      DueMembers(row[1..], deadline, now, base, x);
    }
  }

  lemma {:induction false} DueSame(row: seq<Tid>, deadline: map<Tid, nat>, deadline': map<Tid, nat>, now: nat)
    requires forall x :: x in row ==> DeadlineOf(deadline', x) == DeadlineOf(deadline, x)
    ensures Due(row, deadline', now) == Due(row, deadline, now)
    decreases row
  {
    if row != [] {
      DueSame(row[1..], deadline, deadline', now);
    }
  }

  /** A timer that is not due yet does not change which are. */
  lemma {:induction false} DueInsert(row: seq<Tid>, t: Tid, deadline: map<Tid, nat>, now: nat, base: nat)
    requires Window(row, deadline, base) && now < TICKS && Sub(now, base) < HALF
    requires t in deadline && deadline[t] < TICKS && Sub(now, base) < Sub(deadline[t], base) <= HALF
    ensures Due(Insert(row, t, Keys(deadline, base)), deadline, now) == Due(row, deadline, now)
    decreases row
  {
    var key := Keys(deadline, base);
    DueIs(base, now, deadline[t]);
    if row == [] {
    } else {
      DueIs(base, now, deadline[row[0]]);
      if At(key, row[0]) > At(key, t) {
      } else {
        DueInsert(row[1..], t, deadline, now, base);
      }
    }
  }

  lemma FirstRemoved(s: State, base: nat)
    requires Mid(s, base) && Last(s.rows) != []
    ensures var row, t := Last(s.rows), Last(s.rows)[0]; var s1 := s.(rows := RemoveAll(s.rows, t));
            && Last(s1.rows) == row[1..] && Mid(s1, base) && t !in row[1..] && Without(row[1..], t) == row[1..]
            && (forall x :: x in row <==> x == t || x in row[1..])
  {
    var row, t := Last(s.rows), Last(s.rows)[0];
    Tail(row);
    WithoutAbsent(row[1..], t);
    RemoveAllKeeps(s.rows, t, Keys(s.deadline, base));
  }

  /** One turn of the loop: the first timer fires, and the others that are due stay in line. */
  lemma FireMid(s: State, base: nat, mask: nat)
    requires Mid(s, base) && Periods(s, base) && FirstDue(s)
    ensures var row, t := Last(s.rows), Last(s.rows)[0]; var s' := Fire(s, mask, t);
            && Mid(s', base) && Periods(s', base)
            && Due(Last(s'.rows), s'.deadline, s'.now) == Due(row, s.deadline, s.now)[1..]
            && (forall x :: x in Last(s'.rows) <==> x in row[1..] || (x == t && t in s.periodic))
            && (forall x :: x in s.deadline && x != t ==> x in s'.deadline && s'.deadline[x] == s.deadline[x])
            && (t in s.periodic ==> t in s'.deadline && Sub(s'.deadline[t], base) == Sub(s.now, base) + s.init[t])
  {
    var row, t := Last(s.rows), Last(s.rows)[0];
    var s1 := s.(rows := RemoveAll(s.rows, t));
    FirstRemoved(s, base);
    if t in s.periodic {
      RestartDue(s1, base, mask, t);
    }
  }

  lemma RestartDue(s: State, base: nat, mask: nat, t: Tid)
    requires Mid(s, base) && Periods(s, base) && t in s.periodic && t !in Last(s.rows) && Without(Last(s.rows), t) == Last(s.rows)
    ensures var s' := Start(s, mask, t);
            && Mid(s', base) && Periods(s', base)
            && Due(Last(s'.rows), s'.deadline, s'.now) == Due(Last(s.rows), s.deadline, s.now)
            && (forall x :: x in Last(s'.rows) <==> x == t || x in Last(s.rows))
            && (forall x :: x in s.deadline && x != t ==> x in s'.deadline && s'.deadline[x] == s.deadline[x])
            && t in s'.deadline && Sub(s'.deadline[t], base) == Sub(s.now, base) + s.init[t]
  {
    var s', row := Start(s, mask, t), Last(s.rows);
    StartMid(s, base, mask, t);
    DueInsert(row, t, s'.deadline, s.now, base);
    DueSame(row, s.deadline, s'.deadline, s.now);
  }

  lemma RestartableIs(s: State, base: nat, t: Tid)
    requires Mid(s, base) && Periods(s, base) && t in s.periodic
    ensures Restartable(s, base, t)
  {
    hide Sub, RowsOk;
  }

  lemma {:induction false} DueIsPrefix(row: seq<Tid>, deadline: map<Tid, nat>, now: nat)
    ensures var ts := Due(row, deadline, now); |ts| <= |row| && ts == row[..|ts|]
    decreases row
  {
    if row != [] && Sub(now, DeadlineOf(deadline, row[0])) < HALF {
      DueIsPrefix(row[1..], deadline, now);
    }
  }

  /** What a run of the loop has done, from s to s', having fired ts. */
  ghost predicate Fired(s: State, s': State, ts: seq<Tid>, base: nat) {
    && s'.init == s.init && s'.periodic == s.periodic && s'.now == s.now && |s'.rows| == |s.rows|
    && (forall x :: x in Last(s'.rows) <==> (x in Last(s.rows) && x !in ts) || (x in ts && x in s.periodic))
    && (forall x :: x in s.deadline && x !in ts ==> x in s'.deadline && s'.deadline[x] == s.deadline[x])
    && (forall x :: x in ts && x in s.periodic ==>
          x in s.init && x in s'.deadline && Sub(s'.deadline[x], base) == Sub(s.now, base) + s.init[x])
  }

  /** The loop fires exactly the timers that were due, in order, and leaves none overdue. */
  lemma {:induction false} FireAllMid(s: State, base: nat, mask: nat, ts: seq<Tid>)
    requires Mid(s, base) && Periods(s, base) && ts == Due(Last(s.rows), s.deadline, s.now)
    ensures var s' := FireAll(s, mask, ts);
            && Mid(s', base) && Periods(s', base) && Due(Last(s'.rows), s'.deadline, s'.now) == []
            && Fired(s, s', ts, base)
    decreases ts
  {
    if ts != [] {
      var row := Last(s.rows);
      var t, s1 := row[0], Fire(s, mask, row[0]);
      DueIsPrefix(row, s.deadline, s.now);
      FireMid(s, base, mask);
      FireAllMid(s1, base, mask, ts[1..]);
      FiredOneMore(s, s1, FireAll(s1, mask, ts[1..]), ts, base);
    }
  }

  lemma FiredOneMore(s: State, s1: State, s': State, ts: seq<Tid>, base: nat)
    requires ts != [] && Last(s.rows) != [] && ts[0] == Last(s.rows)[0] && |ts| <= |Last(s.rows)| && ts == Last(s.rows)[..|ts|]
    requires Distinct(Last(s.rows)) && Periods(s, base)
    requires s1.init == s.init && s1.periodic == s.periodic && s1.now == s.now && |s1.rows| == |s.rows|
    requires var t := ts[0];
             && (forall x :: x in Last(s1.rows) <==> x in Last(s.rows)[1..] || (x == t && t in s.periodic))
             && (forall x :: x in s.deadline && x != t ==> x in s1.deadline && s1.deadline[x] == s.deadline[x])
             && (t in s.periodic ==> t in s1.deadline && Sub(s1.deadline[t], base) == Sub(s.now, base) + s.init[t])
    requires Fired(s1, s', ts[1..], base)
    ensures Fired(s, s', ts, base)
  {
  }

  // ---- whole runs ------------------------------------------------------------------------

  /** Between operations no timer is overdue, and all deadlines are less than half the range
      ahead. */
  ghost predicate Inv(s: State) {
    && Mid(s, s.now)
    && (forall x :: x in Last(s.rows) ==> x in s.deadline && Sub(s.deadline[x], s.now) < HALF)
    && (forall t :: t in s.init ==> s.init[t] < HALF)
    && (forall t :: t in s.periodic ==> t in s.init && s.init[t] >= 1)
  }

  datatype Op = StartOp(t: Tid) | StopOp(t: Tid) | SetTime(t: Tid, ticks: nat) | TickOp

  predicate Legal(s: State, op: Op) {
    match op
    case StartOp(t) => t in s.init
    case SetTime(t, ticks) => ticks < HALF && (t in s.periodic ==> ticks >= 1)
    case _ => true
  }

  /** rt_tick_increase, as far as timers are concerned. */
  ghost function Tick(s: State, mask: nat): State
    requires Configured(s)
  {
    Check(s.(now := Add(s.now, 1)), mask)
  }

  ghost function Next(s: State, mask: nat, op: Op): State
    requires Configured(s) && Legal(s, op)
  {
    match op
    case StartOp(t) => Start(s, mask, t)
    case StopOp(t) => Stop(s, t).0
    case SetTime(t, ticks) => s.(init := s.init[t := ticks])
    case TickOp => Tick(s, mask)
  }

  lemma SubSelf(a: nat)
    requires a < TICKS
    ensures Sub(a, a) == 0
  {
  }

  lemma StartKeeps(s: State, mask: nat, t: Tid)
    requires Inv(s) && t in s.init
    ensures Inv(Start(s, mask, t))
  {
    hide Sub, RowsOk, Window, Start, Insert, Without, Keys;
    SubSelf(s.now);
    StartFields(s, mask, t);
    StartMid(s, s.now, mask, t);
  }

  lemma StopKeeps(s: State, t: Tid)
    requires Inv(s)
    ensures Inv(Stop(s, t).0)
  {
    RemoveAllKeeps(s.rows, t, Keys(s.deadline, s.now));
  }

  /** Distances from a later tick are shorter by the ticks in between. */
  lemma Rebase(base: nat, now: nat, d: nat)
    requires base < TICKS && now < TICKS && d < TICKS && Sub(now, base) < Sub(d, base) <= HALF
    ensures Sub(d, now) == Sub(d, base) - Sub(now, base)
  {
  }

  lemma TickReady(s: State)
    requires Inv(s)
    ensures var s1 := s.(now := Add(s.now, 1)); Mid(s1, s.now) && Periods(s1, s.now) && Sub(s1.now, s.now) == 1
  {
  }

  /** After the check every deadline is past the tick; distances can be taken from it. */
  lemma Rebased(s: State, base: nat)
    requires Mid(s, base) && Sub(s.now, base) >= 1 && Due(Last(s.rows), s.deadline, s.now) == []
    ensures Mid(s, s.now) && forall x :: x in Last(s.rows) ==> x in s.deadline && 1 <= Sub(s.deadline[x], s.now) < HALF
  {
    hide Sub;
    var row, key, key' := Last(s.rows), Keys(s.deadline, base), Keys(s.deadline, s.now);
    SubSelf(s.now);
    forall x | x in row ensures At(key', x) == At(key, x) - Sub(s.now, base) && 1 <= Sub(s.deadline[x], s.now) < HALF {
      DueMembers(row, s.deadline, s.now, base, x);
      Rebase(base, s.now, s.deadline[x]);
    }
  }

  /** Intervals are less than half the range, and periodic ones at least a tick. */
  ghost predicate Settings(s: State) {
    (forall t :: t in s.init ==> s.init[t] < HALF) && (forall t :: t in s.periodic ==> t in s.init && s.init[t] >= 1)
  }

  /** A check at least one tick after base leaves nothing overdue, also if it comes late. */
  lemma CheckClears(s: State, base: nat, mask: nat)
    requires Mid(s, base) && Periods(s, base) && Sub(s.now, base) >= 1 && Settings(s)
    ensures Inv(Check(s, mask))
  {
    hide FireAll, Sub;
    FireAllMid(s, base, mask, Due(Last(s.rows), s.deadline, s.now));
    Rebased(Check(s, mask), base);
  }

  lemma TickKeeps(s: State, mask: nat)
    requires Inv(s)
    ensures Inv(Tick(s, mask))
  {
    hide Sub, FireAll;
    TickReady(s);
    CheckClears(s.(now := Add(s.now, 1)), s.now, mask);
  }

  lemma StepKeeps(s: State, mask: nat, op: Op)
    requires Inv(s) && Legal(s, op)
    ensures Inv(Next(s, mask, op))
  {
    match op
    case StartOp(t) => StartKeeps(s, mask, t);
    case StopOp(t) => StopKeeps(s, t);
    case SetTime(t, ticks) =>
    case TickOp => TickKeeps(s, mask);
  }

  ghost predicate Reaches(s: State, mask: nat, ops: seq<Op>, s': State)
    requires Inv(s)
    decreases |ops|
  {
    if ops == [] then s' == s
    else Legal(s, ops[0]) && (StepKeeps(s, mask, ops[0]); Reaches(Next(s, mask, ops[0]), mask, ops[1..], s'))
  }

  lemma {:induction false} RunKeeps(s: State, mask: nat, ops: seq<Op>, s': State)
    requires Inv(s) && Reaches(s, mask, ops, s')
    ensures Inv(s')
    decreases |ops|
  {
    if ops != [] {
      StepKeeps(s, mask, ops[0]);
      RunKeeps(Next(s, mask, ops[0]), mask, ops[1..], s');
    }
  }

  /** No timer is active at first. */
  lemma EmptyInv(s: State)
    requires s.rows != [] && s.now < TICKS && (forall r :: 0 <= r < |s.rows| ==> s.rows[r] == [])
    requires (forall t :: t in s.init ==> s.init[t] < HALF) && forall t :: t in s.periodic ==> t in s.init && s.init[t] >= 1
    ensures Inv(s)
  {
  }

  /** In every run of start, stop, control and tick, also across the wrap of the tick: each row is
      sorted by the time left, each sparser row is a subsequence of the next, and every active timer
      has less than half the range to go. */
  lemma TimerSafety(s: State, mask: nat, ops: seq<Op>, s': State, r: nat)
    requires Inv(s) && Reaches(s, mask, ops, s') && r < |s'.rows|
    ensures Sorted(s'.rows[r], Keys(s'.deadline, s'.now)) && Distinct(s'.rows[r])
    ensures r + 1 < |s'.rows| ==> Thins(s'.rows[r], s'.rows[r + 1])
    ensures forall x :: x in Last(s'.rows) ==> x in s'.deadline && Sub(s'.deadline[x], s'.now) < HALF
  {
    RunKeeps(s, mask, ops, s');
    RowOk(s'.rows, Keys(s'.deadline, s'.now), r);
    if r + 1 < |s'.rows| {
      assert ThinsAt(s'.rows, r);
    }
  }

  /** A tick fires exactly the active timers whose time is up, in the order of the row; one-shot
      timers leave the rows, periodic ones have a full period to go, and none is overdue. */
  lemma TickFires(s: State, mask: nat, x: Tid)
    requires Inv(s)
    ensures var now', s' := Add(s.now, 1), Tick(s, mask);
            var ts := Due(Last(s.rows), s.deadline, now');
            && |ts| <= |Last(s.rows)| && ts == Last(s.rows)[..|ts|]
            && (x in Last(s.rows) ==> x in s.deadline && (x in ts <==> Sub(s.deadline[x], s.now) <= 1))
            && (x in Last(s'.rows) <==> (x in Last(s.rows) && x !in ts) || (x in ts && x in s.periodic))
            && (x in ts && x in s.periodic ==> x in s.init && x in s'.deadline && Sub(s'.deadline[x], s.now) == 1 + s.init[x])
            && (x in Last(s'.rows) ==> x in s'.deadline && 1 <= Sub(s'.deadline[x], now'))
            && s'.now == now'
  {
    var s1 := s.(now := Add(s.now, 1));
    var ts := Due(Last(s.rows), s.deadline, s1.now);
    TickReady(s);
    DueIsPrefix(Last(s.rows), s.deadline, s1.now);
    if x in Last(s.rows) {
      DueMembers(Last(s.rows), s.deadline, s1.now, s.now, x);
    }
    FireAllMid(s1, s.now, mask, ts);
    Rebased(Tick(s, mask), s.now);
  }
}
