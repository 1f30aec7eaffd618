/**
 The life of one timer, seen from outside: where a start puts it, what a stop leaves, when the next
 timeout is, and after how many ticks the timer fires.
 */
module TimerLife {
  import opened NatLists
  import opened Timer
  import opened TimerList
  import opened TimerCheck

  predicate Active(s: State, t: Tid) {
    t in Last(s.rows)
  }

  /** Ticks to go. */
  function LeftOf(s: State, t: Tid): nat {
    Sub(DeadlineOf(s.deadline, t), s.now)
  }

  /** rt_timer_start: the timer runs for its interval. It stands behind all that end no later and in front
      of all that end later; the others keep their order and their deadlines. */
  lemma StartDoes(s: State, mask: nat, t: Tid)
    requires Inv(s) && t in s.init
    ensures var s' := Next(s, mask, StartOp(t)); var row, row' := Last(s.rows), Last(s'.rows);
            && LeftOf(s', t) == s.init[t] && s'.now == s.now && s'.init == s.init && s'.periodic == s.periodic
            && (forall x :: x in s.deadline && x != t ==> x in s'.deadline && s'.deadline[x] == s.deadline[x])
            && exists k ::
                 && 0 <= k <= |Without(row, t)| && row' == Without(row, t)[..k] + [t] + Without(row, t)[k..]
                 && (forall x :: x in Without(row, t)[..k] ==> LeftOf(s', x) <= s.init[t])
                 && (forall x :: x in Without(row, t)[k..] ==> LeftOf(s', x) > s.init[t])
  {
    hide Sub, RowsOk, Window, Start, Insert, Without, Rank;
    SubSelf(s.now);
    StartFields(s, mask, t);
    StartMid(s, s.now, mask, t);
    var s', base := Start(s, mask, t), Without(Last(s.rows), t);
    StartPlace(s', base, t, Keys(s'.deadline, s.now));
  }

  lemma StartPlace(s: State, base: seq<Tid>, t: Tid, key: map<Tid, nat>)
    requires key == Keys(s.deadline, s.now) && t in s.deadline
    requires Mid(s, s.now) && Last(s.rows) == Insert(base, t, key)
    ensures exists k ::
              && 0 <= k <= |base| && Last(s.rows) == base[..k] + [t] + base[k..]
              && (forall x :: x in base[..k] ==> LeftOf(s, x) <= LeftOf(s, t))
              && (forall x :: x in base[k..] ==> LeftOf(s, x) > LeftOf(s, t))
  {
    hide Sub, RowsOk, Insert, Rank, Sorted;
    var k := Rank(base, t, key);
    InsertAtRank(base, t, key);
    RankIs(base, t, key);
    InsertSorted(s, base, t, key, k);
    forall x | x in base[..k] + base[k..] ensures LeftOf(s, x) == At(key, x) {
      assert x in Last(s.rows);
    }
  }

  /** Behind the place everything is later, because the row is in order. */
  lemma InsertSorted(s: State, base: seq<Tid>, t: Tid, key: map<Tid, nat>, k: nat)
    requires RowsOk(s.rows, key) && k <= |base| && Last(s.rows) == base[..k] + [t] + base[k..]
    requires k < |base| ==> At(key, base[k]) > At(key, t)
    ensures forall x :: x in base[k..] ==> At(key, x) > At(key, t)
  {
    var row := Last(s.rows);
    assert forall i :: k <= i < |base| ==> row[i + 1] == base[i];
    forall i | k <= i < |base| ensures At(key, base[i]) > At(key, t) {
      if i > k {
        assert At(key, row[k + 1]) <= At(key, row[i + 1]);
      }
    }
  }

  /** A row with one timer cut out. */
  predicate CutOut(row: seq<Tid>, row': seq<Tid>, t: Tid) {
    if t in row then exists k :: 0 <= k < |row| && row[k] == t && row' == row[..k] + row[k + 1..]
    else row' == row
  }

  /** rt_timer_stop fails exactly on a timer that is not active, which is in no row at all, and then changes
      nothing; afterwards the timer is in no row, and all others stay in their places. */
  lemma StopDoes(s: State, t: Tid, r: nat)
    requires Inv(s) && r < |s.rows|
    ensures var (s', ok) := Stop(s, t);
            && (ok <==> Active(s, t)) && !Active(s', t) && s' == s.(rows := s'.rows) && |s'.rows| == |s.rows|
            && t !in s'.rows[r] && CutOut(s.rows[r], s'.rows[r], t) && (!ok ==> s' == s)
  {
    hide Sub, Window, Without;
    var key := Keys(s.deadline, s.now);
    RowOk(s.rows, key, r);
    SortedWithout(s.rows[r], t, key);
    RemoveAllKeeps(s.rows, t, key);
    if t in s.rows[r] {
      var k :| 0 <= k < |s.rows[r]| && s.rows[r][k] == t;
      WithoutAt(s.rows[r], k);
    } else {
      WithoutAbsent(s.rows[r], t);
    }
  }

  /** The next timeout is the deadline of an active timer that no active timer is before; without any it is
      the largest tick. */
  lemma NextTimeoutIs(s: State, x: Tid)
    requires Inv(s)
    ensures (forall t :: !Active(s, t)) ==> NextTimeout(s) == TICKS - 1
    ensures Active(s, x) ==>
              && (exists t :: Active(s, t) && NextTimeout(s) == DeadlineOf(s.deadline, t))
              && Sub(NextTimeout(s), s.now) <= LeftOf(s, x)
  {
    hide Sub;
    var row, key := Last(s.rows), Keys(s.deadline, s.now);
    if row != [] {
      assert Active(s, row[0]);
    }
    if Active(s, x) {
      var i :| 0 <= i < |row| && row[i] == x;
      FirstIsLeast(row, key, i);
      assert At(key, row[0]) == LeftOf(s, row[0]) && At(key, x) == LeftOf(s, x);
    }
  }

  lemma FirstIsLeast(row: seq<Tid>, key: map<Tid, nat>, i: nat)
    requires Sorted(row, key) && i < |row|
    ensures At(key, row[0]) <= At(key, row[i])
  {
  }

  // ---- ticks -----------------------------------------------------------------------------

  /** One tick for one timer: it fires if at most one tick was left, and otherwise has one less to go. */
  lemma TickDoes(s: State, mask: nat, t: Tid)
    requires Inv(s) && Active(s, t)
    ensures var s' := Tick(s, mask);
            && Inv(s') && s'.now == Add(s.now, 1) && s'.periodic == s.periodic && s'.init == s.init
            && (LeftOf(s, t) > 1 ==> Active(s', t) && LeftOf(s', t) == LeftOf(s, t) - 1)
            && (LeftOf(s, t) <= 1 ==>
                  && (Active(s', t) <==> t in s.periodic)
                  && (t in s.periodic ==> t in s.init && LeftOf(s', t) == s.init[t]))
  {
    hide Sub, Check, RowsOk, Window;
    TickKeeps(s, mask);
    TickFires(s, mask, t);
    TickFields(s, mask, t);
    if LeftOf(s, t) > 1 {
      LessByOne(s.now, s.deadline[t]);
    } else if t in s.periodic {
      LessByOne(s.now, Tick(s, mask).deadline[t]);
    }
  }

  lemma TickFields(s: State, mask: nat, t: Tid)
    requires Inv(s) && Active(s, t)
    ensures var s', ts := Tick(s, mask), Due(Last(s.rows), s.deadline, Add(s.now, 1));
            && s'.init == s.init && s'.periodic == s.periodic
            && (t !in ts ==> t in s.deadline && t in s'.deadline && s'.deadline[t] == s.deadline[t])
            && (t in s'.deadline && Active(s', t) ==> s'.deadline[t] < TICKS)
            && t in s.deadline && s.deadline[t] < TICKS
  {
    hide Sub, FireAll;
    var s1 := s.(now := Add(s.now, 1));
    TickReady(s);
    FireAllMid(s1, s.now, mask, Due(Last(s.rows), s.deadline, s1.now));
  }

  lemma LessByOne(now: nat, d: nat)
    requires now < TICKS && d < TICKS
    ensures Sub(d, now) >= 1 ==> Sub(d, Add(now, 1)) == Sub(d, now) - 1
  {
  }

  lemma Ready(s: State)
    requires Inv(s)
    ensures Configured(s)
  {
  }

  ghost function Ticks(s: State, mask: nat, n: nat): (r: State)
    requires Inv(s)
    ensures Inv(r)
    decreases n
  {
    hide Inv, Tick;
    if n == 0 then s
    else
      var s1 := Ticks(s, mask, n - 1);
      Ready(s1);
      TickKeeps(s1, mask);
      Tick(s1, mask)
  }

  /** Left alone, an active timer is still running for as many ticks as it has to go. */
  lemma {:induction false} RunsOn(s: State, mask: nat, t: Tid, n: nat)
    requires Inv(s) && Active(s, t) && n < LeftOf(s, t)
    ensures var s' := Ticks(s, mask, n);
            Active(s', t) && LeftOf(s', t) == LeftOf(s, t) - n && s'.periodic == s.periodic && s'.init == s.init
    decreases n
  {
    hide Inv, Tick, LeftOf, Active;
    if n > 0 {
      RunsOn(s, mask, t, n - 1);
      TickDoes(Ticks(s, mask, n - 1), mask, t);
    }
  }

  /** A timer that was started and is left alone is running through all but the last tick of its interval
      and fires with the last, across the wrap of the tick as well; a periodic one then has its full period
      to go. */
  lemma FiresAfterItsInterval(s: State, mask: nat, t: Tid, k: nat)
    requires Inv(s) && t in s.init && s.init[t] >= 1 && Configured(s)
    ensures var s1, n := Start(s, mask, t), s.init[t];
            && Inv(s1)
            && (k < n ==> Active(Ticks(s1, mask, k), t) && LeftOf(Ticks(s1, mask, k), t) == n - k)
            && (var s2 := Ticks(s1, mask, n);
               (Active(s2, t) <==> t in s.periodic) && (t in s.periodic ==> LeftOf(s2, t) == n))
  {
    hide Inv, Tick, LeftOf, Start, Active;
    var s1, n := Start(s, mask, t), s.init[t];
    StartKeeps(s, mask, t);
    StartActive(s, mask, t);
    if k < n {
      RunsOn(s1, mask, t, k);
    }
    RunsOn(s1, mask, t, n - 1);
    TickDoes(Ticks(s1, mask, n - 1), mask, t);
  }

  lemma StartActive(s: State, mask: nat, t: Tid)
    requires Inv(s) && t in s.init
    ensures var s1 := Start(s, mask, t); Active(s1, t) && LeftOf(s1, t) == s.init[t] && s1.init == s.init && s1.periodic == s.periodic
  {
    hide Sub, RowsOk, Window, Start, Insert, Without;
    SubSelf(s.now);
    StartFields(s, mask, t);
    StartMid(s, s.now, mask, t);
  }
}
