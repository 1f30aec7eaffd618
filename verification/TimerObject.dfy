/**
 The timer lists: the search through the rows, the links, and the expiry loop.
 */
module TimerObject {
  import opened NatLists
  import opened Timer
  import opened TimerList
  import opened TimerCheck
  import opened TimerSearch

  class Timers {
    const mask: nat
    var deadline: map<Tid, nat>
    var init: map<Tid, nat>
    var periodic: set<Tid>
    var rows: seq<seq<Tid>>
    var now: nat
    var random: nat

    function Now(): State
      reads this
    {
      State(deadline, init, periodic, rows, now, random)
    }

    constructor (mask: nat, levels: nat, init: map<Tid, nat>, periodic: set<Tid>, now: nat)
      requires levels > 0 && now < TICKS
      requires (forall t :: t in init ==> init[t] < HALF) && forall t :: t in periodic ==> t in init && init[t] >= 1
      ensures Inv(Now()) && Last(Now().rows) == []
    {
      this.mask, this.init, this.periodic, this.now := mask, init, periodic, now;
      deadline, random := map[], 0;
      rows := seq(levels, i => []);
      new;
      EmptyInv(Now());
    }

    /** The search of rt_timer_start: from row to row, each time on from where the sparser row
        stopped. */
    method Search(t: Tid) returns (places: seq<nat>)
      requires Nested(rows)
      ensures places == Places(rows, t, deadline)
    {
      hide Nested, Walk, Below, Places, PlacesFrom;
      places := [];
      var k: nat := 0;
      PlacesStart(rows, t, deadline);
      for r := 0 to |rows|
        invariant |places| == r && (r < |rows| ==> k <= |rows[r]|)
        invariant Places(rows, t, deadline) == places + RestOf(rows, r, k, t, deadline)
      {
        var p := WalkRow(rows[r], t, k);
        PlacesTurn(rows, r, k, t, deadline, places);
        places := places + [p];
        k := if r + 1 < |rows| then Below(rows, r, p) else 0;
      }
    }

    /** The walk along one row, up to the first later timer. */
    method WalkRow(row: seq<Tid>, t: Tid, start: nat) returns (k: nat)
      requires start <= |row|
      ensures k == Walk(row, start, t, deadline)
    {
      hide Later;
      k := start;
      while k < |row| && !Later(deadline, row[k], t)
        invariant k <= |row| && Walk(row, k, t, deadline) == Walk(row, start, t, deadline)
      {
        k := k + 1;
      }
    }

    /** rt_timer_start */
    method StartTimer(t: Tid, ghost base: nat)
      requires Mid(Now(), base) && Restartable(Now(), base, t)
      modifies this
      ensures Now() == Start(old(Now()), mask, t) && Mid(Now(), base)
    {
      hide Mid, RowsOk, Fits, Link, LinkAt, RemoveAll, Sub, Add, Keys, Insert, Without, Nested, Places, Height, Place, Last, Window;
      ghost var s := Now();
      StartMid(s, base, mask, t);
      StartReady(s, base, t, s.deadline[t := Add(s.now, s.init[t])]);
      rows := RemoveAll(rows, t);
      deadline := deadline[t := Add(now, init[t])];
      random := Add(random, 1);
      SearchInWindow(rows, t, Height(random, mask, |rows|), deadline, base);
      var places := Search(t);
      LinkTimer(t, places);
    }

    /** rt_timer_stop */
    method StopTimer(t: Tid) returns (ok: bool)
      modifies this
      ensures (Now(), ok) == Stop(old(Now()), t)
    {
      if t !in Last(rows) {
        return false;
      }
      rows := RemoveAll(rows, t);
      ok := true;
    }

    /** rt_timer_list_next_timeout */
    method Next() returns (tick: nat)
      ensures tick == NextTimeout(Now())
    {
      var row := Last(rows);
      if row == [] {
        return TICKS - 1;
      }
      tick := DeadlineOf(deadline, row[0]);
    }

    /** The first timer leaves the rows and, if it is periodic, starts again. */
    method FireFirst(ghost base: nat) returns (t: Tid)
      requires Mid(Now(), base) && Periods(Now(), base) && Configured(Now()) && FirstDue(Now())
      modifies this
      ensures t == Last(old(Now()).rows)[0] && Now() == Fire(old(Now()), mask, t)
    {
      hide Mid, Periods, RemoveAll, Restartable, Start;
      FirstRestartable(Now(), base);
      t := Last(rows)[0];
      rows := RemoveAll(rows, t);
      if t in periodic {
        StartTimer(t, base);
      }
    }

    /** rt_timer_check with callbacks that leave the timers alone: the loop ends because every turn
        fires one of the timers that were due at the start. */
    method CheckTimers(ghost base: nat) returns (fired: seq<Tid>)
      requires Mid(Now(), base) && Periods(Now(), base)
      modifies this
      ensures fired == Due(Last(old(Now()).rows), old(Now()).deadline, now)
      ensures Configured(old(Now())) && Now() == Check(old(Now()), mask) && Mid(Now(), base)
    {
      ghost var s0, rest := Now(), Due(Last(rows), deadline, now);
      fired := [];
      LoopStart(s0, mask, base);
      while Last(rows) != [] && Sub(now, DeadlineOf(deadline, Last(rows)[0])) < HALF
        invariant Looping(s0, Now(), mask, base, fired, rest)
        decreases |rest|
      {
        LoopTurn(s0, Now(), mask, base, fired, rest);
        var t := FireFirst(base);
        fired := fired + [t];
        rest := rest[1..];
      }
    }

    /** rt_tick_increase: one tick on, then the check. */
    method TickTimers() returns (fired: seq<Tid>)
      requires Inv(Now())
      modifies this
      ensures Configured(old(Now())) && Now() == Tick(old(Now()), mask) && Inv(Now())
      ensures fired == Due(Last(old(Now()).rows), old(Now()).deadline, now)
    {
      TickReady(Now());
      TickKeeps(Now(), mask);
      ghost var base := now;
      now := Add(now, 1);
      fired := CheckTimers(base);
    }

    /** Insert after the places found, from the last row upwards while the counter allows. */
    method LinkTimer(t: Tid, places: seq<nat>)
      requires rows != [] && |places| == |rows| && forall r :: 0 <= r < |rows| ==> places[r] <= |rows[r]|
      modifies this`rows
      ensures rows == LinkAt(old(rows), places, t, Height(random, mask, |old(rows)|))
    {
      hide Height, PutFrom, PutAt, LinkAt, ZeroDigit, Shifted;
      ghost var before, h := rows, Height(random, mask, |rows|);
      var n := |rows|;
      var tst: nat := random;
      PutNone(rows, places, t);
      PutOneMore(rows, rows, places, t, n - 1);
      rows := PutAt(rows, n - 1, places[n - 1], t);
      var r: nat := n - 1;
      while r > 0 && ZeroDigit(tst, mask)
        invariant r < n && |rows| == n && PutFrom(rows, before, places, t, r)
        invariant h == n - 1 - r + Height(tst, mask, r + 1)
      {
        HeightTurn(tst, mask, r + 1);
        r := r - 1;
        PutOneMore(rows, before, places, t, r);
        rows := PutAt(rows, r, places[r], t);
        tst := Shifted(tst, mask);
      }
      HeightTurn(tst, mask, r + 1);
      PutAll(rows, before, places, t, h);
    }
  }

  /** The places of the rows from r on, if there are any. */
  ghost function RestOf(rows: seq<seq<Tid>>, r: nat, k: nat, t: Tid, deadline: map<Tid, nat>): seq<nat>
    requires Nested(rows) && r <= |rows| && (r < |rows| ==> k <= |rows[r]|)
  {
    if r < |rows| then PlacesFrom(rows, r, k, t, deadline) else []
  }

  lemma PlacesStart(rows: seq<seq<Tid>>, t: Tid, deadline: map<Tid, nat>)
    requires Nested(rows)
    ensures Places(rows, t, deadline) == [] + RestOf(rows, 0, 0, t, deadline)
  {
  }

  lemma PlacesTurn(rows: seq<seq<Tid>>, r: nat, k: nat, t: Tid, deadline: map<Tid, nat>, places: seq<nat>)
    requires Nested(rows) && r < |rows| && k <= |rows[r]|
    ensures var p := Walk(rows[r], k, t, deadline);
            places + RestOf(rows, r, k, t, deadline)
            == (places + [p]) + RestOf(rows, r + 1, if r + 1 < |rows| then Below(rows, r, p) else 0, t, deadline)
  {
  }

  /** The rows from r on have the timer at its place, the others are as before. */
  ghost predicate PutFrom(rows: seq<seq<Tid>>, before: seq<seq<Tid>>, places: seq<nat>, t: Tid, r: nat) {
    && |rows| == |before| == |places| && (forall i :: 0 <= i < |before| ==> places[i] <= |before[i]|)
    && (forall i :: 0 <= i < |before| ==>
          rows[i] == if i >= r then before[i][..places[i]] + [t] + before[i][places[i]..] else before[i])
  }

  lemma PutNone(rows: seq<seq<Tid>>, places: seq<nat>, t: Tid)
    requires |places| == |rows| && forall r :: 0 <= r < |rows| ==> places[r] <= |rows[r]|
    ensures PutFrom(rows, rows, places, t, |rows|)
  {
  }

  lemma PutOneMore(rows: seq<seq<Tid>>, before: seq<seq<Tid>>, places: seq<nat>, t: Tid, r: nat)
    requires PutFrom(rows, before, places, t, r + 1) && r < |rows|
    ensures |places| == |rows| && places[r] <= |rows[r]| && PutFrom(PutAt(rows, r, places[r], t), before, places, t, r)
    ensures |PutAt(rows, r, places[r], t)| == |rows|
  {
  }

  lemma HeightTurn(random: nat, mask: nat, rows: nat)
    requires rows > 0
    ensures rows == 1 || !ZeroDigit(random, mask) ==> Height(random, mask, rows) == 1
    ensures rows > 1 && ZeroDigit(random, mask) ==> Height(random, mask, rows) == 1 + Height(Shifted(random, mask), mask, rows - 1)
  {
  }

  lemma PutAll(rows: seq<seq<Tid>>, before: seq<seq<Tid>>, places: seq<nat>, t: Tid, h: nat)
    requires 1 <= h <= |before| && PutFrom(rows, before, places, t, |before| - h)
    ensures rows == LinkAt(before, places, t, h)
  {
  }

  function PutAt(rows: seq<seq<Tid>>, r: nat, k: nat, t: Tid): seq<seq<Tid>>
    requires r < |rows| && k <= |rows[r]|
  {
    rows[r := rows[r][..k] + [t] + rows[r][k..]]
  }

  /** Between turns: what was due is what has fired and what is still to fire. */
  ghost predicate Looping(s0: State, s: State, mask: nat, base: nat, fired: seq<Tid>, rest: seq<Tid>) {
    && Configured(s0) && Configured(s) && Mid(s, base) && Periods(s, base) && s.now == s0.now
    && fired + rest == Due(Last(s0.rows), s0.deadline, s0.now) && rest == Due(Last(s.rows), s.deadline, s.now)
    && FireAll(s0, mask, fired + rest) == FireAll(s, mask, rest)
  }

  lemma LoopStart(s: State, mask: nat, base: nat)
    requires Mid(s, base) && Periods(s, base)
    ensures Looping(s, s, mask, base, [], Due(Last(s.rows), s.deadline, s.now))
  {
  }

  lemma LoopTurn(s0: State, s: State, mask: nat, base: nat, fired: seq<Tid>, rest: seq<Tid>)
    requires Looping(s0, s, mask, base, fired, rest) && FirstDue(s)
    ensures Mid(s, base) && Periods(s, base) && Configured(s) && rest != []
    ensures var t := Last(s.rows)[0]; Looping(s0, Fire(s, mask, t), mask, base, fired + [t], rest[1..])
  {
    hide Mid, Periods, Due, Fire, FireAll, FirstDue;
    FirstIsDue(s, rest);
    FireTurn(s, base, mask, rest);
    FireAllTurn(s, mask, rest);
    assert fired + rest == (fired + [rest[0]]) + rest[1..];
  }

  /** The timers that are due begin with the first of the row. */
  lemma FirstIsDue(s: State, ts: seq<Tid>)
    requires FirstDue(s) && ts == Due(Last(s.rows), s.deadline, s.now)
    ensures Last(s.rows) != [] && ts != [] && ts[0] == Last(s.rows)[0]
  {
  }

  /** After a turn the other due timers are the due ones. */
  lemma FireTurn(s: State, base: nat, mask: nat, ts: seq<Tid>)
    requires Mid(s, base) && Periods(s, base) && Configured(s) && FirstDue(s) && ts == Due(Last(s.rows), s.deadline, s.now)
    ensures ts != [] && ts[0] == Last(s.rows)[0]
    ensures var s' := Fire(s, mask, ts[0]);
            && Mid(s', base) && Periods(s', base) && Configured(s') && s'.now == s.now
            && ts[1..] == Due(Last(s'.rows), s'.deadline, s'.now)
  {
    hide Mid, Periods, Due, Fire, FirstDue, Configured, Last;
    FirstIsDue(s, ts);
    FireMid(s, base, mask);
    FireConfigured(s, mask, ts[0]);
  }

  /** Out of the rows, the first timer can be started again if it is periodic. */
  lemma FirstRestartable(s: State, base: nat)
    requires Mid(s, base) && Periods(s, base) && Last(s.rows) != []
    ensures var t := Last(s.rows)[0]; var s1 := s.(rows := RemoveAll(s.rows, t));
            Mid(s1, base) && (t in s.periodic ==> Restartable(s1, base, t))
  {
    hide Mid, RemoveAll, Restartable;
    FirstRemoved(s, base);
    var t := Last(s.rows)[0];
    if t in s.periodic {
      RestartableIs(s.(rows := RemoveAll(s.rows, t)), base, t);
    }
  }
}
