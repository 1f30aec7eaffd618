/**
 rt_timer_start region by region: the removal from the rows, the new deadline and the insertion are
 separate, and ticks and other calls may come in between, so that a timer may be inserted after its
 deadline. What each part keeps and exactly when, and what the next tick makes of a late timer.
 */
module TimerRegions {
  import opened NatLists
  import opened Timer
  import opened TimerList
  import opened TimerCheck
  import opened TimerSearch

  // ---- one region ------------------------------------------------------------------------

  /** First region: out of all rows. */
  function Unlinked(s: State, t: Tid): State {
    s.(rows := RemoveAll(s.rows, t))
  }

  /** Between the regions: timeout_tick is set from the tick of that moment. */
  function Dated(s: State, t: Tid): State
    requires t in s.init
  {
    s.(deadline := s.deadline[t := Add(s.now, s.init[t])])
  }

  /** Second region: search and links, whatever the deadline is by now. */
  function Linked(s: State, mask: nat, t: Tid): State
    requires s.rows != [] && Nested(s.rows)
  {
    var random := Add(s.random, 1);
    s.(random := random, rows := LinkAt(s.rows, Places(s.rows, t, s.deadline), t, Height(random, mask, |s.rows|)))
  }

  /** Without anything in between the parts make up the operation. */
  lemma RegionsAreStart(s: State, base: nat, mask: nat, t: Tid)
    requires Mid(s, base) && Restartable(s, base, t)
    ensures var s1 := Dated(Unlinked(s, t), t); s1.rows != [] && Nested(s1.rows) && Linked(s1, mask, t) == Start(s, mask, t)
  {
    hide Mid, RowsOk, Fits, RemoveAll, Keys, Without, Nested, Places, Place, Add, Sub, LinkAt, Link, Height;
    var s1 := Dated(Unlinked(s, t), t);
    StartReady(s, base, t, s1.deadline);
    SearchInWindow(s1.rows, t, Height(Add(s.random, 1), mask, |s1.rows|), s1.deadline, base);
    SameNumber(s.rows, t);
  }

  lemma SameNumber(rows: seq<seq<Tid>>, t: Tid)
    ensures |RemoveAll(rows, t)| == |rows|
  {
  }

  // ---- rows in order ---------------------------------------------------------------------

  /** Seen from base, a tick less than half the range ago, all deadlines of the rows, overdue ones
      included, are less than half the range ahead, and the rows are sorted and nested. */
  ghost predicate InOrderFrom(s: State, base: nat) {
    Mid(s, base) && forall x :: x in Last(s.rows) ==> x in s.deadline && Sub(s.deadline[x], base) < HALF
  }

  ghost predicate InOrder(s: State) {
    exists base :: InOrderFrom(s, base)
  }

  /** Seen from base, there is room for the deadline of t as well. */
  ghost predicate Room(s: State, base: nat, t: Tid) {
    InOrderFrom(s, base) && t in s.deadline && s.deadline[t] < TICKS && Sub(s.deadline[t], base) < HALF
  }

  lemma OrderParts(s: State, base: nat)
    requires InOrderFrom(s, base)
    ensures RowsOk(s.rows, Keys(s.deadline, base)) && s.rows != [] && Nested(s.rows) && Distinct(Last(s.rows)) && Configured(s)
  {
    RowsNested(s.rows, Keys(s.deadline, base));
  }

  lemma UnlinkedKeeps(s: State, base: nat, t: Tid)
    requires InOrderFrom(s, base)
    ensures InOrderFrom(Unlinked(s, t), base) && forall x :: x in Last(Unlinked(s, t).rows) <==> x in Last(s.rows) && x != t
  {
    hide RowsOk, RemoveAll, Keys, Sub, Last;
    RemoveAllKeeps(s.rows, t, Keys(s.deadline, base));
    SameNumber(s.rows, t);
  }

  lemma DatedKeeps(s: State, base: nat, t: Tid)
    requires InOrderFrom(s, base) && t in s.init && t !in Last(s.rows)
    ensures InOrderFrom(Dated(s, t), base)
  {
    hide RowsOk, Sub, Add;
    var s' := Dated(s, t);
    var key, key' := Keys(s.deadline, base), Keys(s'.deadline, base);
    forall x | x in Last(s.rows) ensures At(key', x) == At(key, x) {
      OtherKey(s.deadline, t, s'.deadline[t], base, x);
    }
    RowsSame(s.rows, key, key');
  }

  lemma RoomFits(s: State, base: nat, t: Tid)
    requires Room(s, base, t)
    ensures Fits(Last(s.rows), t, s.deadline, base)
  {
    hide Sub, RowsOk, Last;
  }

  /** With room, the second region is stable insertion and keeps the order. */
  lemma RoomKeeps(s: State, base: nat, mask: nat, t: Tid)
    requires Room(s, base, t) && t !in Last(s.rows)
    ensures s.rows != [] && Nested(s.rows) && InOrderFrom(Linked(s, mask, t), base)
    ensures Last(Linked(s, mask, t).rows) == Insert(Last(s.rows), t, Keys(s.deadline, base))
    ensures forall x :: x in Last(Linked(s, mask, t).rows) <==> x == t || x in Last(s.rows)
  {
    hide RowsOk, Sub, Add, Keys, Fits, Nested, Places, LinkAt, Link, InsertAll, Insert, Height, Last;
    var key, h := Keys(s.deadline, base), Height(Add(s.random, 1), mask, |s.rows|);
    OrderParts(s, base);
    RoomFits(s, base, t);
    SearchInWindow(s.rows, t, h, s.deadline, base);
    LinkIsInsert(s.rows, t, h, s.deadline, base);
    InsertAllKeeps(s.rows, t, h, key);
    LastInserted(s.rows, t, key);
    WindowAfter(Last(s.rows), Last(Linked(s, mask, t).rows), t, s.deadline, base);
  }

  /** The inserted timer stands where the search ended. */
  lemma LinkedLast(s: State, mask: nat, t: Tid)
    requires s.rows != [] && Nested(s.rows)
    ensures var row, ps := Last(s.rows), Places(s.rows, t, s.deadline);
            var p := ps[|ps| - 1];
            p <= |row| && Last(Linked(s, mask, t).rows) == row[..p] + [t] + row[p..]
    ensures forall x :: x in Last(Linked(s, mask, t).rows) <==> x == t || x in Last(s.rows)
  {
    hide Nested, Places, Height;
    var row, ps := Last(s.rows), Places(s.rows, t, s.deadline);
    var p := ps[|ps| - 1];
    var r := row[..p] + [t] + row[p..];
    forall x ensures x in r <==> x == t || x in row {
      SplitMembers(row, p, t, x);
    }
  }

  lemma SplitMembers(row: seq<Tid>, p: nat, t: Tid, x: Tid)
    requires p <= |row|
    ensures x in row[..p] + [t] + row[p..] <==> x == t || x in row
  {
    assert row == row[..p] + row[p..];
  }

  lemma TwiceInRow(row: seq<Tid>, p: nat, t: Tid)
    requires t in row && p <= |row|
    ensures !Distinct(row[..p] + [t] + row[p..])
  {
    var i :| 0 <= i < |row| && row[i] == t;
    var r := row[..p] + [t] + row[p..];
    assert r[p] == t && r[if i < p then i else i + 1] == t;
  }

  lemma SplitBack(row: seq<Tid>, p: nat, t: Tid)
    requires t !in row && Distinct(row) && p <= |row|
    ensures Without(row[..p] + [t] + row[p..], t) == row
  {
    var r := row[..p] + [t] + row[p..];
    assert r[p] == t;
    assert Distinct(r) by {
      forall i, j | 0 <= i < j < |r| ensures r[i] != r[j] {
      }
    }
    WithoutAt(r, p);
    assert r[..p] + r[p + 1..] == row[..p] + row[p..] == row;
  }

  /** Taking the timer out again undoes the second region. */
  lemma LinkedBack(s: State, base: nat, mask: nat, t: Tid)
    requires InOrderFrom(s, base) && t !in Last(s.rows)
    ensures s.rows != [] && Nested(s.rows) && RemoveAll(Linked(s, mask, t).rows, t) == s.rows
  {
    hide Sub, Height, Places, Nested, Sorted, Distinct, Without, ThinsAt;
    OrderParts(s, base);
    var rows' := Linked(s, mask, t).rows;
    forall i | 0 <= i < |s.rows| ensures Without(rows'[i], t) == s.rows[i] {
      RowOk(s.rows, Keys(s.deadline, base), i);
      WithoutAbsent(s.rows[i], t);
      SplitBack(s.rows[i], Places(s.rows, t, s.deadline)[i], t);
    }
  }

  /** Exactly: the second region leaves the rows in order if and only if the timer is not in them and
      there was a tick from which all deadlines, its own included, are less than half the range ahead. */
  lemma SecondInOrderExactly(s: State, mask: nat, t: Tid)
    requires InOrder(s) && t in s.deadline && s.deadline[t] < TICKS
    ensures s.rows != [] && Nested(s.rows)
    ensures InOrder(Linked(s, mask, t)) <==> t !in Last(s.rows) && exists base :: Room(s, base, t)
  {
    hide Mid, RowsOk, Sub, Linked, Nested, Places, Distinct, Last;
    var b :| InOrderFrom(s, b);
    OrderParts(s, b);
    var s' := Linked(s, mask, t);
    if t in Last(s.rows) {
      LinkedTwice(s, mask, t);
    } else if InOrder(s') {
      var base :| InOrderFrom(s', base);
      LinkedBack(s, b, mask, t);
      RoomBefore(s, base, mask, t);
    } else if base :| Room(s, base, t) {
      RoomKeeps(s, base, mask, t);
    }
  }

  lemma LinkedTwice(s: State, mask: nat, t: Tid)
    requires s.rows != [] && Nested(s.rows) && t in Last(s.rows)
    ensures !InOrder(Linked(s, mask, t)) && !Distinct(Last(Linked(s, mask, t).rows))
  {
    hide Mid, RowsOk, Sub, Places, Distinct, Last;
    LinkedLast(s, mask, t);
    var ps := Places(s.rows, t, s.deadline);
    TwiceInRow(Last(s.rows), ps[|ps| - 1], t);
    if InOrder(Linked(s, mask, t)) {
      var base :| InOrderFrom(Linked(s, mask, t), base);
      OrderParts(Linked(s, mask, t), base);
    }
  }

  /** What is in order with the timer is in order without it. */
  lemma RoomBefore(s: State, base: nat, mask: nat, t: Tid)
    requires s.rows != [] && Nested(s.rows) && InOrderFrom(Linked(s, mask, t), base)
    requires RemoveAll(Linked(s, mask, t).rows, t) == s.rows && t in s.deadline && s.deadline[t] < TICKS
    ensures Room(s, base, t)
  {
    hide RowsOk, Sub, Places, Nested, Last, LinkAt, RemoveAll, Keys;
    var s' := Linked(s, mask, t);
    UnlinkedKeeps(s', base, t);
    LinkedLast(s, mask, t);
  }

  // ---- from a good state -----------------------------------------------------------------

  lemma InvOrder(s: State)
    requires Inv(s)
    ensures InOrderFrom(s, s.now)
  {
    hide Mid, Sub;
  }

  /** All active deadlines are less than half the range after that of t. */
  ghost predicate Near(s: State, t: Tid)
    requires t in s.deadline
  {
    forall x :: x in Last(s.rows) ==> x in s.deadline && Sub(s.deadline[x], s.deadline[t]) < HALF
  }

  /** Three points on the circle of ticks, seen from base and from now. */
  lemma SeenFrom(base: nat, now: nat, d: nat, x: nat)
    requires base < TICKS && now < TICKS && d < TICKS && x < TICKS
    requires Sub(now, base) < HALF && Sub(d, base) < HALF && Sub(x, base) < HALF && Sub(x, now) < HALF
    ensures Sub(d, now) < HALF || (Sub(now, d) < HALF && Sub(x, d) < HALF)
  {
    hide Sub;
    Between(base, now, d);
    Between(base, now, x);
    Between(base, d, x);
  }

  /** Of two points in a half circle, the distance from the nearer to the farther is the difference, and
      the way back is longer than half the circle. */
  lemma Between(base: nat, a: nat, b: nat)
    requires base < TICKS && a < TICKS && b < TICKS && Sub(a, base) < HALF && Sub(b, base) < HALF
    ensures Sub(a, base) <= Sub(b, base) ==> Sub(b, a) == Sub(b, base) - Sub(a, base)
    ensures Sub(a, base) < Sub(b, base) ==> Sub(a, b) >= HALF
    ensures Sub(b, base) <= Sub(a, base) ==> Sub(a, b) == Sub(a, base) - Sub(b, base)
    ensures Sub(b, base) < Sub(a, base) ==> Sub(b, a) >= HALF
  {
  }

  lemma Backwards(now: nat, d: nat, x: nat)
    requires now < TICKS && d < TICKS && x < TICKS && Sub(now, d) < HALF && Sub(x, now) < HALF
    ensures Sub(x, d) == Sub(x, now) + Sub(now, d)
  {
  }

  lemma RowsSorted(rows: seq<seq<Tid>>, key: map<Tid, nat>, key': map<Tid, nat>)
    requires RowsOk(rows, key) && Sorted(Last(rows), key')
    ensures RowsOk(rows, key')
  {
  }

  /** The rows seen from an earlier tick. */
  lemma EarlierBase(s: State, t: Tid)
    requires Inv(s) && t in s.deadline && s.deadline[t] < TICKS && Sub(s.now, s.deadline[t]) < HALF && Near(s, t)
    ensures Room(s, s.deadline[t], t)
  {
    hide Sub;
    var d, row := s.deadline[t], Last(s.rows);
    var key, key' := Keys(s.deadline, s.now), Keys(s.deadline, d);
    forall x | x in row ensures At(key', x) == At(key, x) + Sub(s.now, d) {
      Backwards(s.now, d, s.deadline[x]);
    }
    RowsSorted(s.rows, key, key');
    SubSelf(d);
  }

  /** Exactly: the second region leaves the rows of a good state in order if and only if the timer is not
      in them, and its deadline is not past, or past by less than half the range with no active deadline
      half the range or more after it. */
  lemma SecondRegionExactly(s: State, mask: nat, t: Tid)
    requires Inv(s) && t in s.deadline && s.deadline[t] < TICKS
    ensures s.rows != [] && Nested(s.rows)
    ensures InOrder(Linked(s, mask, t)) <==>
            t !in Last(s.rows) && (Sub(s.deadline[t], s.now) < HALF || (Sub(s.now, s.deadline[t]) < HALF && Near(s, t)))
  {
    hide Inv, Mid, Sub, Linked, Nested;
    InvOrder(s);
    SecondInOrderExactly(s, mask, t);
    if base :| Room(s, base, t) {
      RoomSeen(s, base, t);
    }
    if Sub(s.deadline[t], s.now) < HALF {
      assert Room(s, s.now, t);
    } else if Sub(s.now, s.deadline[t]) < HALF && Near(s, t) {
      EarlierBase(s, t);
    }
  }

  lemma RoomSeen(s: State, base: nat, t: Tid)
    requires Inv(s) && Room(s, base, t)
    ensures Sub(s.deadline[t], s.now) < HALF || (Sub(s.now, s.deadline[t]) < HALF && Near(s, t))
  {
    hide Sub, RowsOk;
    var d := s.deadline[t];
    SubSelf(s.now);
    SeenFrom(base, s.now, d, s.now);
    if Sub(d, s.now) >= HALF {
      forall x | x in Last(s.rows) ensures Sub(s.deadline[x], d) < HALF {
        SeenFrom(base, s.now, d, s.deadline[x]);
      }
    }
  }

  // ---- a late timer ----------------------------------------------------------------------

  /** The first timer of every row is less than half the range after t. */
  ghost predicate FirstsNear(s: State, t: Tid)
    requires t in s.deadline
  {
    forall i :: 0 <= i < |s.rows| && s.rows[i] != [] ==> Sub(DeadlineOf(s.deadline, s.rows[i][0]), s.deadline[t]) < HALF
  }

  /** The deadline of t is past, by less than half the range, and t is in no row. */
  ghost predicate Late(s: State, t: Tid) {
    t in s.deadline && s.deadline[t] < TICKS && 0 < Sub(s.now, s.deadline[t]) < HALF && t !in Last(s.rows)
  }

  lemma FirstsAreLater(s: State, t: Tid)
    requires Inv(s) && Late(s, t)
    ensures AllLater(s.rows, 0, t, s.deadline) <==> FirstsNear(s, t)
  {
    hide Sub, RowsOk;
    forall i | 0 <= i < |s.rows| && s.rows[i] != []
      ensures Later(s.deadline, s.rows[i][0], t) <==> Sub(DeadlineOf(s.deadline, s.rows[i][0]), s.deadline[t]) < HALF
    {
      RowOk(s.rows, Keys(s.deadline, s.now), i);
      var x := s.rows[i][0];
      assert x in Last(s.rows);
      Backwards(s.now, s.deadline[t], s.deadline[x]);
    }
  }

  /** Exactly: a late timer comes to stand first, where rt_timer_check finds it due, if and only if the
      first timer of every row is less than half the range after it. */
  lemma LateFirstExactly(s: State, mask: nat, t: Tid)
    requires Inv(s) && Late(s, t)
    ensures s.rows != [] && Nested(s.rows)
    ensures var s' := Linked(s, mask, t); Last(s'.rows) != [] && (Last(s'.rows)[0] == t && FirstDue(s') <==> FirstsNear(s, t))
    ensures FirstsNear(s, t) ==> Last(Linked(s, mask, t).rows) == [t] + Last(s.rows)
  {
    hide Inv, Sub, Nested, AllLater, FirstsNear, PlacesFrom, LinkAt;
    InvOrder(s);
    OrderParts(s, s.now);
    FirstsAreLater(s, t);
    FrontExactly(s.rows, 0, 0, t, s.deadline);
    LinkedLast(s, mask, t);
    var row, ps := Last(s.rows), Places(s.rows, t, s.deadline);
    var p := ps[|ps| - 1];
    if p == 0 {
      assert row[..p] + [t] + row[p..] == [t] + row;
    } else {
      assert (row[..p] + [t] + row[p..])[0] == row[0] != t;
    }
  }

  /** The next tick fires a late timer that stands first before all others that are due, and leaves
      everything in order. */
  lemma LateFires(s: State, mask: nat, t: Tid)
    requires Inv(s) && Late(s, t) && FirstsNear(s, t) && Sub(Add(s.now, 1), s.deadline[t]) < HALF
    ensures s.rows != [] && Nested(s.rows)
    ensures var s' := Linked(s, mask, t);
            && Due(Last(s'.rows), s'.deadline, Add(s.now, 1)) == [t] + Due(Last(s.rows), s.deadline, Add(s.now, 1))
            && Configured(s') && Inv(Tick(s', mask))
  {
    hide Inv, Sub, Add, Nested, Linked, FirstsNear, Mid, Periods, RowsOk, Without, FireAll, Start;
    var now' := Add(s.now, 1);
    LateFirstExactly(s, mask, t);
    InvOrder(s);
    LinkedBack(s, s.now, mask, t);
    InvParts(s);
    LinkedFields(s, mask, t);
    var s1 := Linked(s, mask, t).(now := now');
    var s2 := s1.(rows := s.rows);
    OtherRandom(s, s1.random);
    TickReady(s.(random := s1.random));
    var rest := Due(Last(s.rows), s.deadline, now');
    assert ([t] + rest)[1..] == rest;
    var s3 := Fire(s1, mask, t);
    if t in s.periodic {
      WithoutAbsent(Last(s.rows), t);
      StartFields(s2, mask, t);
      RestartDue(s2, s.now, mask, t);
    }
    CheckClears(s3, s.now, mask);
    FireAllTurn(s1, mask, [t] + rest);
    assert Tick(Linked(s, mask, t), mask) == Check(s3, mask);
  }

  lemma InvParts(s: State)
    requires Inv(s)
    ensures Configured(s) && Settings(s)
  {
  }

  lemma OtherRandom(s: State, random: nat)
    requires Inv(s)
    ensures Inv(s.(random := random))
  {
  }

  lemma LinkedFields(s: State, mask: nat, t: Tid)
    requires s.rows != [] && Nested(s.rows)
    ensures var s' := Linked(s, mask, t); s' == s.(rows := s'.rows, random := s'.random) && |s'.rows| == |s.rows|
  {
  }

  lemma AddIs(now: nat, k: nat)
    requires now < TICKS && k <= HALF
    ensures Add(now, k) == if now + k < TICKS then now + k else now + k - TICKS
  {
  }

  lemma SubIs(a: nat, b: nat)
    requires a < TICKS && b < TICKS
    ensures Sub(a, b) == if b <= a then a - b else a + TICKS - b
  {
  }

  /** Ticks between the two regions make a timer late if and only if they are more than it runs for. */
  lemma DelayExactly(now: nat, k: nat, init: nat)
    requires now < TICKS && k <= HALF && init < HALF
    ensures Sub(Add(now, init), Add(now, k)) < HALF <==> k <= init
    ensures k > init ==> Sub(Add(now, k), Add(now, init)) == k - init
  {
    hide Add, Sub;
    AddIs(now, k);
    AddIs(now, init);
    SubIs(Add(now, init), Add(now, k));
    SubIs(Add(now, k), Add(now, init));
  }

  // ---- calls in progress -----------------------------------------------------------------

  /** How far a call of rt_timer_start has got. */
  datatype Phase = Out(t: Tid) | Timed(t: Tid)

  datatype Split = Split(s: State, calls: map<nat, Phase>)

  datatype Step = First(c: nat, t: Tid) | Date(c: nat) | Second(c: nat) | StopIt(t: Tid) | ChangeTime(t: Tid, ticks: nat) | OneTick

  ghost predicate Enabled(x: Split, step: Step) {
    && Configured(x.s) && Nested(x.s.rows)
    && match step
       case First(c, t) => c !in x.calls && t in x.s.init
       case Date(c) => c in x.calls && x.calls[c].Out? && x.calls[c].t in x.s.init
       case Second(c) => c in x.calls && x.calls[c].Timed?
       case StopIt(t) => true
       case ChangeTime(t, ticks) => ticks < HALF && (t in x.s.periodic ==> ticks >= 1)
       case OneTick => true
  }

  ghost function Next(x: Split, mask: nat, step: Step): Split
    requires Enabled(x, step)
  {
    match step
    case First(c, t) => Split(Unlinked(x.s, t), x.calls[c := Out(t)])
    case Date(c) => Split(Dated(x.s, x.calls[c].t), x.calls[c := Timed(x.calls[c].t)])
    case Second(c) => Split(Linked(x.s, mask, x.calls[c].t), x.calls - {c})
    case StopIt(t) => x.(s := Stop(x.s, t).0)
    case ChangeTime(t, ticks) => x.(s := x.s.(init := x.s.init[t := ticks]))
    case OneTick => x.(s := Tick(x.s, mask))
  }

  ghost predicate Runs(x: Split, mask: nat, steps: seq<Step>, x': Split)
    decreases |steps|
  {
    if steps == [] then x' == x
    else Enabled(x, steps[0]) && Runs(Next(x, mask, steps[0]), mask, steps[1..], x')
  }

  lemma RunsMore(x: Split, mask: nat, step: Step, steps: seq<Step>, x': Split)
    requires Enabled(x, step) && Runs(Next(x, mask, step), mask, steps, x')
    ensures Runs(x, mask, [step] + steps, x')
  {
    assert ([step] + steps)[1..] == steps;
  }

  lemma RunFirst(s: State, calls: map<nat, Phase>, mask: nat, c: nat, t: Tid, steps: seq<Step>, x': Split)
    requires Configured(s) && Nested(s.rows) && c !in calls && t in s.init
    requires Runs(Split(Unlinked(s, t), calls[c := Out(t)]), mask, steps, x')
    ensures Runs(Split(s, calls), mask, [First(c, t)] + steps, x')
  {
    hide Runs, Configured, Nested;
    RunsMore(Split(s, calls), mask, First(c, t), steps, x');
  }

  lemma RunDate(s: State, calls: map<nat, Phase>, mask: nat, c: nat, t: Tid, steps: seq<Step>, x': Split)
    requires Configured(s) && Nested(s.rows) && c in calls && calls[c] == Out(t) && t in s.init
    requires Runs(Split(Dated(s, t), calls[c := Timed(t)]), mask, steps, x')
    ensures Runs(Split(s, calls), mask, [Date(c)] + steps, x')
  {
    hide Runs, Configured, Nested;
    RunsMore(Split(s, calls), mask, Date(c), steps, x');
  }

  lemma RunSecond(s: State, calls: map<nat, Phase>, mask: nat, c: nat, t: Tid, steps: seq<Step>, x': Split)
    requires Configured(s) && s.rows != [] && Nested(s.rows) && c in calls && calls[c] == Timed(t)
    requires Runs(Split(Linked(s, mask, t), calls - {c}), mask, steps, x')
    ensures Runs(Split(s, calls), mask, [Second(c)] + steps, x')
  {
    hide Runs, Configured, Nested, Linked;
    RunsMore(Split(s, calls), mask, Second(c), steps, x');
  }

  lemma RunTick(s: State, calls: map<nat, Phase>, mask: nat, steps: seq<Step>, x': Split)
    requires Configured(s) && Nested(s.rows) && Runs(Split(Tick(s, mask), calls), mask, steps, x')
    ensures Runs(Split(s, calls), mask, [OneTick] + steps, x')
  {
    hide Runs, Nested, Tick;
    RunsMore(Split(s, calls), mask, OneTick, steps, x');
  }

  lemma RunsNow(x: Split, mask: nat)
    ensures Runs(x, mask, [], x)
  {
  }

  // ---- what every interleaving keeps -----------------------------------------------------

  ghost predicate Pending(s: State, ph: Phase) {
    ph.t in s.init && ph.t !in Last(s.rows) && (ph.Timed? ==> ph.t in s.deadline && s.deadline[ph.t] < TICKS)
  }

  /** The rows are in order, perhaps with overdue timers, and the timers of calls in progress are in no row. */
  ghost predicate Good(x: Split) {
    InOrder(x.s) && Settings(x.s) && forall c :: c in x.calls ==> Pending(x.s, x.calls[c])
  }

  /** Room for a tick: the deadlines, the next tick and the new deadlines of periodic timers are within
      half the range of some earlier tick. */
  ghost predicate TickRoom(s: State) {
    exists base :: TickRoomFrom(s, base)
  }

  ghost predicate TickRoomFrom(s: State, base: nat) {
    InOrderFrom(s, base) && Sub(s.now, base) + 1 < HALF && Periods(s, base)
    && forall t :: t in s.periodic && t in s.init ==> Sub(s.now, base) + 1 + s.init[t] <= HALF
  }

  /** An insertion, late or not, finds room for its deadline, and nobody else starts the timer meanwhile. */
  ghost predicate Calm(x: Split, step: Step) {
    match step
    case Second(c) => c in x.calls && (forall d :: d in x.calls && d != c ==> x.calls[d].t != x.calls[c].t) && exists base :: Room(x.s, base, x.calls[c].t)
    case OneTick => TickRoom(x.s)
    case _ => true
  }

  /** Nothing is asked of a tick when no timer is overdue. */
  lemma TickRoomOfInv(s: State)
    requires Inv(s)
    ensures TickRoom(s)
  {
    hide Mid, Sub;
    InvOrder(s);
    NowIsHere(s);
    SubSelf(s.now);
    assert TickRoomFrom(s, s.now);
  }

  lemma NowIsHere(s: State)
    requires Inv(s)
    ensures s.now < TICKS
  {
  }

  lemma EnabledWhenGood(x: Split)
    requires Good(x)
    ensures Configured(x.s) && Nested(x.s.rows)
  {
    hide Sub, Nested;
    var base :| InOrderFrom(x.s, base);
    OrderParts(x.s, base);
  }

  lemma FirstKeeps(x: Split, mask: nat, c: nat, t: Tid)
    requires Good(x) && Enabled(x, First(c, t))
    ensures Good(Next(x, mask, First(c, t)))
  {
    hide InOrderFrom, RemoveAll, Last, Nested;
    var base :| InOrderFrom(x.s, base);
    UnlinkedKeeps(x.s, base, t);
    var x' := Next(x, mask, First(c, t));
    forall d | d in x'.calls ensures Pending(x'.s, x'.calls[d]) {
      assert d != c ==> Pending(x.s, x.calls[d]);
    }
  }

  lemma DateKeeps(x: Split, mask: nat, c: nat)
    requires Good(x) && Enabled(x, Date(c))
    ensures Good(Next(x, mask, Date(c)))
  {
    hide InOrderFrom, Last, Nested;
    var base :| InOrderFrom(x.s, base);
    assert Pending(x.s, x.calls[c]);
    DatedKeeps(x.s, base, x.calls[c].t);
    var x' := Next(x, mask, Date(c));
    forall d | d in x'.calls ensures Pending(x'.s, x'.calls[d]) {
      assert Pending(x.s, x.calls[d]);
    }
  }

  lemma SecondKeeps(x: Split, mask: nat, c: nat)
    requires Good(x) && Enabled(x, Second(c)) && Calm(x, Second(c))
    ensures Good(Next(x, mask, Second(c)))
  {
    hide InOrderFrom, Last, Nested, LinkAt, Places, Height, Room;
    var t := x.calls[c].t;
    var base :| Room(x.s, base, t);
    assert Pending(x.s, x.calls[c]);
    RoomKeeps(x.s, base, mask, t);
    var x' := Next(x, mask, Second(c));
    forall d | d in x'.calls ensures Pending(x'.s, x'.calls[d]) {
      assert Pending(x.s, x.calls[d]);
    }
  }

  lemma StopKeepsAll(x: Split, mask: nat, t: Tid)
    requires Good(x) && Enabled(x, StopIt(t))
    ensures Good(Next(x, mask, StopIt(t)))
  {
    hide InOrderFrom, RemoveAll, Last, Nested;
    var base :| InOrderFrom(x.s, base);
    UnlinkedKeeps(x.s, base, t);
    var x' := Next(x, mask, StopIt(t));
    forall d | d in x'.calls ensures Pending(x'.s, x'.calls[d]) {
      assert Pending(x.s, x.calls[d]);
    }
  }

  lemma ChangeKeeps(x: Split, mask: nat, t: Tid, ticks: nat)
    requires Good(x) && Enabled(x, ChangeTime(t, ticks))
    ensures Good(Next(x, mask, ChangeTime(t, ticks)))
  {
    hide RowsOk, Sub, Last, Nested;
    var base :| InOrderFrom(x.s, base);
    var x' := Next(x, mask, ChangeTime(t, ticks));
    assert InOrderFrom(x'.s, base);
    forall d | d in x'.calls ensures Pending(x'.s, x'.calls[d]) {
      assert Pending(x.s, x.calls[d]);
    }
  }

  lemma OneLater(now: nat, base: nat)
    requires now < TICKS && base < TICKS && Sub(now, base) + 1 < HALF
    ensures Add(now, 1) < TICKS && Sub(Add(now, 1), base) == Sub(now, base) + 1
  {
  }

  /** The state of the tick, before the check. */
  lemma TickStarts(s: State, base: nat)
    requires TickRoomFrom(s, base) && Settings(s)
    ensures var s1 := s.(now := Add(s.now, 1)); Mid(s1, base) && Periods(s1, base) && Sub(s1.now, base) >= 1
  {
    hide RowsOk, Sub, Add, Last;
    OneLater(s.now, base);
  }

  /** A tick with room fires all that is overdue, late insertions included. */
  lemma TickClears(s: State, mask: nat)
    requires Settings(s) && TickRoom(s)
    ensures Configured(s) && Inv(Tick(s, mask)) && Tick(s, mask).init == s.init
    ensures forall t :: t !in Last(s.rows) ==> t !in Last(Tick(s, mask).rows)
    ensures forall t :: t !in Last(s.rows) && t in s.deadline ==> t in Tick(s, mask).deadline && Tick(s, mask).deadline[t] == s.deadline[t]
  {
    hide Inv, Mid, Periods, Sub, Add, Due, FireAll, Last;
    var base :| TickRoomFrom(s, base);
    OrderParts(s, base);
    TickStarts(s, base);
    var s1 := s.(now := Add(s.now, 1));
    CheckClears(s1, base, mask);
    DueIsPrefix(Last(s.rows), s.deadline, s1.now);
    FireAllMid(s1, base, mask, Due(Last(s.rows), s.deadline, s1.now));
  }

  lemma InvGood(s: State)
    requires Inv(s)
    ensures InOrder(s) && Settings(s)
  {
    InvOrder(s);
  }

  lemma OneTickKeeps(x: Split, mask: nat)
    requires Good(x) && Enabled(x, OneTick) && Calm(x, OneTick)
    ensures Good(Next(x, mask, OneTick)) && Inv(Next(x, mask, OneTick).s)
  {
    hide Inv, InOrder, Settings, TickRoom, Tick, Last, Nested;
    TickClears(x.s, mask);
    InvGood(Tick(x.s, mask));
    var x' := Next(x, mask, OneTick);
    forall d | d in x'.calls ensures Pending(x'.s, x'.calls[d]) {
      assert Pending(x.s, x.calls[d]);
    }
  }

  lemma RegionKeeps(x: Split, mask: nat, step: Step)
    requires Good(x) && Enabled(x, step) && Calm(x, step)
    ensures Good(Next(x, mask, step)) && (step.OneTick? ==> Inv(Next(x, mask, step).s))
  {
    hide Inv, Good, Next, Calm, Enabled;
    match step
    case First(c, t) => FirstKeeps(x, mask, c, t);
    case Date(c) => DateKeeps(x, mask, c);
    case Second(c) => SecondKeeps(x, mask, c);
    case StopIt(t) => StopKeepsAll(x, mask, t);
    case ChangeTime(t, ticks) => ChangeKeeps(x, mask, t, ticks);
    case OneTick => OneTickKeeps(x, mask);
  }

  ghost predicate Reaches(x: Split, mask: nat, steps: seq<Step>, x': Split)
    decreases |steps|
  {
    if steps == [] then x' == x
    else Enabled(x, steps[0]) && Calm(x, steps[0]) && Reaches(Next(x, mask, steps[0]), mask, steps[1..], x')
  }

  /** Between any two regions of any run the rows are in order, and after every tick none is overdue,
      however the parts of different starts, stops and ticks interleave and however late an insertion
      comes, as long as all deadlines find room in half the range and nobody else starts the timer
      meanwhile. */
  lemma {:induction false} RegionSafety(x: Split, mask: nat, steps: seq<Step>, x': Split)
    requires Good(x) && Reaches(x, mask, steps, x')
    ensures Good(x') && (steps != [] && steps[|steps| - 1].OneTick? ==> Inv(x'.s))
    ensures Configured(x'.s) && Nested(x'.s.rows)
    decreases |steps|
  {
    hide Inv, Good, Enabled, Calm, Next, Configured, Nested;
    EnabledWhenGood(x);
    if steps != [] {
      RegionKeeps(x, mask, steps[0]);
      RegionSafety(Next(x, mask, steps[0]), mask, steps[1..], x');
    }
  }

  // ---- the failing cases, reached by runs ------------------------------------------------

  /** Two overlapping starts of a timer, from any state between operations, put it into the rows twice. */
  lemma OverlapInsertsTwice(s: State, mask: nat, c: nat, d: nat, t: Tid) returns (x': Split)
    requires Inv(s) && t in s.init && c != d
    ensures Runs(Split(s, map[]), mask,
                 [First(c, t)] + ([First(d, t)] + ([Date(c)] + ([Date(d)] + ([Second(c)] + ([Second(d)] + []))))), x')
    ensures !Distinct(Last(x'.s.rows)) && !InOrder(x'.s)
  {
    hide Inv, InOrderFrom, RemoveAll, Runs, Linked, Dated, Unlinked, Last, Distinct, Nested;
    InvOrder(s);
    var s1 := Unlinked(s, t);
    var s2 := Unlinked(s1, t);
    UnlinkedKeeps(s, s.now, t);
    UnlinkedKeeps(s1, s.now, t);
    UnlinkedFields(s, t);
    UnlinkedFields(s1, t);
    var s3 := Dated(s2, t);
    DatedFields(s2, t);
    DatedKeeps(s2, s.now, t);
    var s4 := Dated(s3, t);
    DatedFields(s3, t);
    DatedKeeps(s3, s.now, t);
    DateInTime(s, t);
    RoomIs(s4, s.now, t);
    RoomKeeps(s4, s.now, mask, t);
    var s5 := Linked(s4, mask, t);
    OrderParts(s, s.now);
    OrderParts(s1, s.now);
    OrderParts(s2, s.now);
    OrderParts(s3, s.now);
    OrderParts(s4, s.now);
    OrderParts(s5, s.now);
    LinkedTwice(s5, mask, t);
    x' := Split(Linked(s5, mask, t), map[]);
    OverlapRun(s, s1, s2, s3, s4, s5, mask, c, d, t, x');
  }

  lemma OverlapRun(s: State, s1: State, s2: State, s3: State, s4: State, s5: State, mask: nat, c: nat, d: nat, t: Tid, x': Split)
    requires s1 == Unlinked(s, t) && s2 == Unlinked(s1, t) && c != d && t in s2.init && s3 == Dated(s2, t) && t in s3.init && s4 == Dated(s3, t)
    requires t in s.init && t in s1.init && Configured(s) && Configured(s1) && Configured(s2) && Configured(s3) && Configured(s4) && Configured(s5)
    requires Nested(s.rows) && Nested(s1.rows) && Nested(s2.rows) && Nested(s3.rows) && Nested(s4.rows) && Nested(s5.rows)
    requires s4.rows != [] && s5 == Linked(s4, mask, t) && s5.rows != [] && x' == Split(Linked(s5, mask, t), map[])
    ensures Runs(Split(s, map[]), mask,
                 [First(c, t)] + ([First(d, t)] + ([Date(c)] + ([Date(d)] + ([Second(c)] + ([Second(d)] + []))))), x')
  {
    hide Configured, Nested, Unlinked, Dated, Linked, Runs;
    var none: map<nat, Phase> := map[];
    var m1 := none[c := Out(t)];
    var m2 := m1[d := Out(t)];
    var m3 := m2[c := Timed(t)];
    var m4 := m3[d := Timed(t)];
    assert m4 - {c} - {d} == none;
    RunsNow(x', mask);
    RunSecond(s5, m4 - {c}, mask, d, t, [], x');
    RunSecond(s4, m4, mask, c, t, [Second(d)] + [], x');
    RunDate(s3, m3, mask, d, t, [Second(c)] + ([Second(d)] + []), x');
    RunDate(s2, m2, mask, c, t, [Date(d)] + ([Second(c)] + ([Second(d)] + [])), x');
    RunFirst(s1, m1, mask, d, t, [Date(c)] + ([Date(d)] + ([Second(c)] + ([Second(d)] + []))), x');
    RunFirst(s, none, mask, c, t, [First(d, t)] + ([Date(c)] + ([Date(d)] + ([Second(c)] + ([Second(d)] + [])))), x');
  }

  lemma UnlinkedFields(s: State, t: Tid)
    ensures var s' := Unlinked(s, t); s' == s.(rows := s'.rows)
  {
  }

  lemma DatedFields(s: State, t: Tid)
    requires t in s.init
    ensures Dated(s, t) == s.(deadline := s.deadline[t := Add(s.now, s.init[t])])
  {
  }

  lemma DateInTime(s: State, t: Tid)
    requires Inv(s) && t in s.init
    ensures Add(s.now, s.init[t]) < TICKS && Sub(Add(s.now, s.init[t]), s.now) < HALF
  {
    NowIsHere(s);
    SubSelf(s.now);
    AddKey(s.now, s.now, s.init[t]);
  }

  lemma RoomIs(s: State, base: nat, t: Tid)
    requires InOrderFrom(s, base) && t in s.deadline && s.deadline[t] < TICKS && Sub(s.deadline[t], base) < HALF
    ensures Room(s, base, t)
  {
  }

  /** No timer is active; timer 0 runs for no tick and timer 1 for as long as a timer can. */
  const TWO_TIMERS: State := State(map[], map[0 := 0, 1 := HALF - 1], {}, [[]], 0, 0)

  /** After a tick between the regions of timer 0, in which timer 1 starts, the row is timer 1, timer 0. */
  const LOST: State := State(map[0 := 0, 1 := HALF], map[0 := 0, 1 := HALF - 1], {}, [[1, 0]], 1, 2)

  lemma StartsEmpty(t: Tid)
    ensures Inv(TWO_TIMERS) && Configured(TWO_TIMERS) && Unlinked(TWO_TIMERS, t) == TWO_TIMERS
  {
    EmptyInv(TWO_TIMERS);
    assert RemoveAll([[]], t) == [[]];
  }

  lemma NestedOne(row: seq<Tid>)
    ensures Nested([row])
  {
  }

  lemma TickOfNone(s: State, mask: nat)
    requires s.rows == [[]] && s.periodic == {}
    ensures Configured(s) && Tick(s, mask) == s.(now := Add(s.now, 1))
  {
  }

  /** One timer into the empty row. */
  lemma LinkFirst(s: State, mask: nat, t: Tid)
    requires s.rows == [[]]
    ensures Nested(s.rows) && Linked(s, mask, t) == s.(rows := [[t]], random := Add(s.random, 1))
  {
    NestedOne([]);
    var r := LinkAt(s.rows, Places(s.rows, t, s.deadline), t, 1);
    assert r[0] == [t];
    assert r == [[t]];
  }

  lemma LinkBehind(s: State, mask: nat, t: Tid, u: Tid)
    requires s.rows == [[u]] && !Later(s.deadline, u, t)
    ensures Nested(s.rows) && Linked(s, mask, t) == s.(rows := [[u, t]], random := Add(s.random, 1))
  {
    hide Later;
    NestedOne([u]);
    assert Walk([u], 0, t, s.deadline) == Walk([u], 1, t, s.deadline) == 1;
    assert Places(s.rows, t, s.deadline) == [1];
    var r := LinkAt(s.rows, [1], t, 1);
    assert r[0] == [u, t];
    assert r == [[u, t]];
  }

  /** The late insertion that fails, reached by a run: timer 0 is overdue, stands behind timer 1, and the next
      tick does not fire it. */
  lemma LateTimerIsLost(mask: nat)
    ensures Inv(TWO_TIMERS)
    ensures Runs(Split(TWO_TIMERS, map[]), mask,
                 [First(0, 0)] + ([Date(0)] + ([OneTick] + ([First(1, 1)] + ([Date(1)] + ([Second(1)] + ([Second(0)] + [])))))),
                 Split(LOST, map[]))
    ensures !InOrder(LOST) && Sub(LOST.now, LOST.deadline[0]) == 1 && Due(Last(LOST.rows), LOST.deadline, Add(LOST.now, 1)) == []
  {
    hide Runs, Linked, Nested, Tick, Inv, InOrder;
    StartsEmpty(0);
    LostOrder();
    var s0 := TWO_TIMERS;
    var s1, s2 := s0.(deadline := map[0 := 0]), s0.(deadline := map[0 := 0], now := 1);
    var s3 := s2.(deadline := map[0 := 0, 1 := HALF]);
    var s4 := s3.(rows := [[1]], random := 1);
    NestedOne([]);
    NestedOne([1]);
    OneRow(s0, 0);
    OneRow(s2, 1);
    TickOfNone(s1, mask);
    LinkFirst(s3, mask, 1);
    LinkBehind(s4, mask, 0, 1);
    assert s4.deadline == map[0 := 0, 1 := HALF];
    assert Dated(s0, 0) == s1 && Dated(s2, 1) == s3;
    LostRun(s0, s1, s2, s3, s4, mask);
  }

  lemma OneRow(s: State, t: Tid)
    requires s.rows == [[]]
    ensures Unlinked(s, t) == s
  {
    assert RemoveAll([[]], t) == [[]];
  }

  lemma LostRun(s0: State, s1: State, s2: State, s3: State, s4: State, mask: nat)
    requires s0 == Unlinked(s0, 0) && 0 in s0.init && s1 == Dated(s0, 0) && s2 == Unlinked(s2, 1) && 1 in s2.init && s3 == Dated(s2, 1)
    requires Configured(s0) && Configured(s1) && Configured(s2) && Configured(s3) && Configured(s4)
    requires Nested(s0.rows) && Nested(s1.rows) && Nested(s2.rows) && Nested(s3.rows) && Nested(s4.rows)
    requires s2 == Tick(s1, mask) && s3.rows != [] && s4 == Linked(s3, mask, 1) && s4.rows != [] && LOST == Linked(s4, mask, 0)
    ensures Runs(Split(s0, map[]), mask,
                 [First(0, 0)] + ([Date(0)] + ([OneTick] + ([First(1, 1)] + ([Date(1)] + ([Second(1)] + ([Second(0)] + [])))))),
                 Split(LOST, map[]))
  {
    hide Configured, Nested, Unlinked, Dated, Linked, Tick, Runs, LOST;
    var x' := Split(LOST, map[]);
    var none: map<nat, Phase> := map[];
    var m1 := none[0 := Out(0)];
    var m2 := m1[0 := Timed(0)];
    var m3 := m2[1 := Out(1)];
    var m4 := m3[1 := Timed(1)];
    assert m4 - {1} - {0} == none;
    RunsNow(x', mask);
    RunSecond(s4, m4 - {1}, mask, 0, 0, [], x');
    RunSecond(s3, m4, mask, 1, 1, [Second(0)] + [], x');
    RunDate(s2, m3, mask, 1, 1, [Second(1)] + ([Second(0)] + []), x');
    RunFirst(s2, m2, mask, 1, 1, [Date(1)] + ([Second(1)] + ([Second(0)] + [])), x');
    RunTick(s1, m2, mask, [First(1, 1)] + ([Date(1)] + ([Second(1)] + ([Second(0)] + []))), x');
    RunDate(s0, m1, mask, 0, 0, [OneTick] + ([First(1, 1)] + ([Date(1)] + ([Second(1)] + ([Second(0)] + [])))), x');
    RunFirst(s0, none, mask, 0, 0, [Date(0)] + ([OneTick] + ([First(1, 1)] + ([Date(1)] + ([Second(1)] + ([Second(0)] + []))))), x');
  }

  /** No tick has both deadlines less than half the range ahead. */
  lemma NoBase(base: nat)
    requires base < TICKS && Sub(0, base) < HALF
    ensures Sub(HALF, base) >= HALF
  {
  }

  lemma LostOrder()
    ensures !InOrder(LOST) && Due(Last(LOST.rows), LOST.deadline, 2) == []
  {
    hide RowsOk, Sub;
    LostNotDue();
    if InOrder(LOST) {
      var base :| InOrderFrom(LOST, base);
      assert Last(LOST.rows) == [1, 0];
      assert Last(LOST.rows)[0] == 1 && Last(LOST.rows)[1] == 0;
      assert 0 in Last(LOST.rows) && 1 in Last(LOST.rows) && LOST.deadline[0] == 0 && LOST.deadline[1] == HALF;
      NoBase(base);
    }
  }

  lemma LostNotDue()
    ensures Due(Last(LOST.rows), LOST.deadline, 2) == []
  {
    assert Last(LOST.rows)[0] == 1 && DeadlineOf(LOST.deadline, 1) == HALF;
  }
}
