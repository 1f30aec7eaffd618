/**
 Starting, stopping and expiring timers: what rt_timer_start, rt_timer_stop and rt_timer_check do
 to the rows, and what every run of them keeps.
 */
module TimerList {
  import opened NatLists
  import opened Timer

  /** timeout_tick, init_tick, the periodic timers, the rows from the sparsest to the full one, the
      tick and the insert counter. A timer is active when it is in the last row. */
  datatype State = State(deadline: map<Tid, nat>, init: map<Tid, nat>, periodic: set<Tid>, rows: seq<seq<Tid>>, now: nat, random: nat)

  function Last(rows: seq<seq<Tid>>): seq<Tid> {
    if rows == [] then [] else rows[|rows| - 1]
  }

  // ---- all rows at once ------------------------------------------------------------------

  ghost predicate ThinsAt(rows: seq<seq<Tid>>, r: nat)
    requires r + 1 < |rows|
  {
    Thins(rows[r], rows[r + 1])
  }

  /** The last row is sorted, and each sparser row is a subsequence of the next. */
  ghost predicate RowsOk(rows: seq<seq<Tid>>, key: map<Tid, nat>) {
    && rows != [] && Sorted(Last(rows), key) && Distinct(Last(rows))
    && forall r :: 0 <= r < |rows| - 1 ==> ThinsAt(rows, r)
  }

  /** Every row is sorted and holds only timers of the last row. */
  lemma {:induction false} RowOk(rows: seq<seq<Tid>>, key: map<Tid, nat>, r: nat)
    requires RowsOk(rows, key) && r < |rows|
    ensures Sorted(rows[r], key) && Distinct(rows[r])
    ensures forall x :: x in rows[r] ==> x in Last(rows)
    decreases |rows| - r
  {
    if r + 1 < |rows| {
      RowOk(rows, key, r + 1);
      assert ThinsAt(rows, r);
      KeepSorted(rows[r + 1], Elements(rows[r]), key);
      forall x | x in rows[r] ensures x in Last(rows) {
        KeepMembers(rows[r + 1], Elements(rows[r]), x);
      }
    }
  }

  /** _rt_timer_remove */
  function RemoveAll(rows: seq<seq<Tid>>, t: Tid): (r: seq<seq<Tid>>)
    ensures |r| == |rows|
    ensures forall i :: 0 <= i < |rows| ==> r[i] == Without(rows[i], t)
  {
    seq(|rows|, i requires 0 <= i < |rows| => Without(rows[i], t))
  }

  lemma ThinWithout(a: seq<Tid>, b: seq<Tid>, t: Tid)
    requires Distinct(a) && Distinct(b) && Thins(a, b)
    ensures Thins(Without(a, t), Without(b, t))
  {
    hide Without, Distinct, Keep;
    KeepWithout(b, t, Elements(a));
    forall x ensures x in Without(a, t) <==> x in a && x != t {
      WithoutMembers(a, t, x);
    }
    assert Elements(Without(a, t)) == Elements(a) - {t};
  }

  lemma SortedWithout(row: seq<Tid>, t: Tid, key: map<Tid, nat>)
    requires Sorted(row, key) && Distinct(row)
    ensures Sorted(Without(row, t), key) && Distinct(Without(row, t)) && t !in Without(row, t)
    ensures forall x :: x in Without(row, t) <==> x in row && x != t
  {
    DistinctWithout(row, t);
    forall x ensures x in Without(row, t) <==> x in row && x != t {
      WithoutMembers(row, t, x);
    }
    if t in row {
      var k :| 0 <= k < |row| && row[k] == t;
      WithoutAt(row, k);
      var r := Without(row, t);
      forall i | 0 <= i < |r| ensures r[i] == if i < k then row[i] else row[i + 1] {
        CutAt(row, k, i);
      }
    } else {
      WithoutAbsent(row, t);
    }
  }

  lemma RemoveAllKeeps(rows: seq<seq<Tid>>, t: Tid, key: map<Tid, nat>)
    requires RowsOk(rows, key)
    ensures RowsOk(RemoveAll(rows, t), key) && forall x :: x in Last(RemoveAll(rows, t)) <==> x in Last(rows) && x != t
  {
    hide RemoveAll, Without, Sorted, Distinct, Thins;
    var r := RemoveAll(rows, t);
    SortedWithout(Last(rows), t, key);
    forall i | 0 <= i < |rows| - 1 ensures ThinsAt(r, i) {
      RowOk(rows, key, i);
      RowOk(rows, key, i + 1);
      assert ThinsAt(rows, i);
      ThinWithout(rows[i], rows[i + 1], t);
    }
  }

  /** The timer goes into the h densest rows, at its place. */
  function InsertAll(rows: seq<seq<Tid>>, t: Tid, h: nat, key: map<Tid, nat>): (r: seq<seq<Tid>>)
    ensures |r| == |rows|
    ensures forall i :: 0 <= i < |rows| ==> r[i] == if i + h >= |rows| then Insert(rows[i], t, key) else rows[i]
  {
    seq(|rows|, i requires 0 <= i < |rows| => if i + h >= |rows| then Insert(rows[i], t, key) else rows[i])
  }

  lemma ThinInsert(a: seq<Tid>, b: seq<Tid>, t: Tid, key: map<Tid, nat>)
    requires Sorted(a, key) && Distinct(a) && Sorted(b, key) && t !in b && t !in a && Thins(a, b)
    ensures Thins(Insert(a, t, key), Insert(b, t, key)) && Thins(a, Insert(b, t, key))
  {
    hide Insert, Sorted, Distinct, Keep;
    KeepInsert(b, t, key, Elements(a));
    InsertKeeps(a, t, key);
    assert Elements(Insert(a, t, key)) == Elements(a) + {t};
  }

  /** Every row stays sorted and a subsequence of the next, whatever the height. */
  lemma InsertAllKeeps(rows: seq<seq<Tid>>, t: Tid, h: nat, key: map<Tid, nat>)
    requires RowsOk(rows, key) && t !in Last(rows) && h > 0
    ensures RowsOk(InsertAll(rows, t, h, key), key)
    ensures Last(InsertAll(rows, t, h, key)) == Insert(Last(rows), t, key)
  {
    hide InsertAll, Insert, Sorted, Distinct, Thins;
    var r := InsertAll(rows, t, h, key);
    InsertKeeps(Last(rows), t, key);
    forall i | 0 <= i < |rows| - 1 ensures ThinsAt(r, i) {
      RowOk(rows, key, i);
      RowOk(rows, key, i + 1);
      assert ThinsAt(rows, i);
      ThinInsert(rows[i], rows[i + 1], t, key);
    }
  }

  // ---- the comparison in the code --------------------------------------------------------

  function DeadlineOf(deadline: map<Tid, nat>, t: Tid): nat {
    if t in deadline then deadline[t] else 0
  }

  /** The search of rt_timer_start stops in front of a timer with a later deadline. */
  predicate Later(deadline: map<Tid, nat>, x: Tid, t: Tid) {
    0 < Sub(DeadlineOf(deadline, x), DeadlineOf(deadline, t)) < HALF
  }

  function Place(row: seq<Tid>, t: Tid, deadline: map<Tid, nat>): (k: nat)
    ensures k <= |row|
    ensures forall i :: 0 <= i < k ==> !Later(deadline, row[i], t)
    ensures k < |row| ==> Later(deadline, row[k], t)
    decreases row
  {
    if row == [] || Later(deadline, row[0], t) then 0 else 1 + Place(row[1..], t, deadline)
  }

  /** Deadlines as distances from base. */
  function Keys(deadline: map<Tid, nat>, base: nat): map<Tid, nat> {
    map t | t in deadline :: Sub(deadline[t], base)
  }

  /** All deadlines of a row are at most half the range after base. */
  ghost predicate Window(row: seq<Tid>, deadline: map<Tid, nat>, base: nat) {
    && base < TICKS
    && forall x :: x in row ==> x in deadline && deadline[x] < TICKS && Sub(deadline[x], base) <= HALF
  }

  /** A timer can be compared with a row: its deadline is in the window too, and none of the row is
      half the range after it. */
  ghost predicate Fits(row: seq<Tid>, t: Tid, deadline: map<Tid, nat>, base: nat) {
    && Window(row, deadline, base) && t in deadline && deadline[t] < TICKS && Sub(deadline[t], base) <= HALF
    && forall x :: x in row ==> Sub(deadline[x], base) < Sub(deadline[t], base) + HALF
  }

  lemma {:induction false} PlaceIsRank(row: seq<Tid>, t: Tid, deadline: map<Tid, nat>, base: nat)
    requires Fits(row, t, deadline, base)
    ensures Place(row, t, deadline) == Rank(row, t, Keys(deadline, base))
    decreases row
  {
    if row != [] {
      CompareIs(base, deadline[row[0]], deadline[t]);
      PlaceIsRank(row[1..], t, deadline, base);
    }
  }

  /** tst_nr & RT_TIMER_SKIP_LIST_MASK is zero, for the masks 1 and 3. */
  predicate ZeroDigit(random: nat, mask: nat) {
    random % (mask + 1) == 0
  }

  function Shifted(random: nat, mask: nat): nat {
    random / (mask + 1)
  }

  /** The counter decides the height: one more row for each zero digit. */
  function Height(random: nat, mask: nat, rows: nat): (h: nat)
    requires rows > 0
    ensures 1 <= h <= rows
    decreases rows
  {
    if rows == 1 || !ZeroDigit(random, mask) then 1 else 1 + Height(Shifted(random, mask), mask, rows - 1)
  }

  /** What rt_timer_start does to the rows when all deadlines are in the window; see TimerSearch. */
  function Link(rows: seq<seq<Tid>>, t: Tid, h: nat, deadline: map<Tid, nat>): (r: seq<seq<Tid>>)
    ensures |r| == |rows|
    ensures forall i :: 0 <= i < |rows| ==>
              r[i] == if i + h >= |rows| then var k := Place(rows[i], t, deadline); rows[i][..k] + [t] + rows[i][k..] else rows[i]
  {
    seq(|rows|, i requires 0 <= i < |rows| =>
      if i + h >= |rows| then var k := Place(rows[i], t, deadline); rows[i][..k] + [t] + rows[i][k..] else rows[i])
  }

  /** Starting a timer is stable insertion into a flat sorted list, seen from any base that has all
      deadlines in its window; every sparser row stays a subsequence. */
  lemma LinkIsInsert(rows: seq<seq<Tid>>, t: Tid, h: nat, deadline: map<Tid, nat>, base: nat)
    requires RowsOk(rows, Keys(deadline, base)) && t !in Last(rows) && Fits(Last(rows), t, deadline, base)
    ensures Link(rows, t, h, deadline) == InsertAll(rows, t, h, Keys(deadline, base))
  {
    var key := Keys(deadline, base);
    forall i | 0 <= i < |rows|
      ensures var k := Place(rows[i], t, deadline); rows[i][..k] + [t] + rows[i][k..] == Insert(rows[i], t, key)
    {
      RowOk(rows, key, i);
      PlaceIsRank(rows[i], t, deadline, base);
      InsertAtRank(rows[i], t, key);
    }
    var l, r := Link(rows, t, h, deadline), InsertAll(rows, t, h, key);
  }
}
