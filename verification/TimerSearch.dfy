/**
 The search of rt_timer_start as the code does it, whatever the deadlines: along the sparsest row up
 to a later timer, then on in the next row from the node where the walk stopped. In the window this is
 the place in each row.
 */
module TimerSearch {
  import opened Timer
  import opened TimerList

  /** Where a timer stands in a row. */
  function IndexIn(row: seq<Tid>, x: Tid): (i: nat)
    requires x in row
    ensures i < |row| && row[i] == x
  {
    if row[0] == x then 0 else 1 + IndexIn(row[1..], x)
  }

  ghost predicate Within(a: seq<Tid>, b: seq<Tid>) {
    forall x :: x in a ==> x in b
  }

  /** A timer of a sparser row is in the next row too. */
  ghost predicate Nested(rows: seq<seq<Tid>>) {
    forall r :: 0 <= r < |rows| - 1 ==> Within(rows[r], rows[r + 1])
  }

  /** The walk along one row from position k, up to the first later timer. */
  function Walk(row: seq<Tid>, k: nat, t: Tid, deadline: map<Tid, nat>): (p: nat)
    requires k <= |row|
    ensures k <= p <= |row|
    decreases |row| - k
  {
    if k == |row| || Later(deadline, row[k], t) then k else Walk(row, k + 1, t, deadline)
  }

  /** The position in the next row that the walk goes on from: behind the node in front of p. */
  function Below(rows: seq<seq<Tid>>, r: nat, p: nat): (k: nat)
    requires Nested(rows) && r + 1 < |rows| && p <= |rows[r]|
    ensures k <= |rows[r + 1]| && (k == 0 <==> p == 0)
  {
    if p == 0 then 0
    else
      assert Within(rows[r], rows[r + 1]);
      IndexIn(rows[r + 1], rows[r][p - 1]) + 1
  }

  /** One place for each row from row r on. */
  function PlacesFrom(rows: seq<seq<Tid>>, r: nat, k: nat, t: Tid, deadline: map<Tid, nat>): (ps: seq<nat>)
    requires Nested(rows) && r < |rows| && k <= |rows[r]|
    ensures |ps| == |rows| - r && forall i :: 0 <= i < |ps| ==> ps[i] <= |rows[r + i]|
    decreases |rows| - r
  {
    var p := Walk(rows[r], k, t, deadline);
    if r + 1 == |rows| then [p] else [p] + PlacesFrom(rows, r + 1, Below(rows, r, p), t, deadline)
  }

  function Places(rows: seq<seq<Tid>>, t: Tid, deadline: map<Tid, nat>): (ps: seq<nat>)
    requires Nested(rows)
    ensures |ps| == |rows| && forall i :: 0 <= i < |ps| ==> ps[i] <= |rows[i]|
  {
    if rows == [] then [] else PlacesFrom(rows, 0, 0, t, deadline)
  }

  /** The timer goes into the h densest rows, at the places found. */
  function LinkAt(rows: seq<seq<Tid>>, places: seq<nat>, t: Tid, h: nat): (r: seq<seq<Tid>>)
    requires |places| == |rows| && forall i :: 0 <= i < |rows| ==> places[i] <= |rows[i]|
    ensures |r| == |rows|
    ensures forall i :: 0 <= i < |rows| ==>
              r[i] == if i + h >= |rows| then rows[i][..places[i]] + [t] + rows[i][places[i]..] else rows[i]
  {
    seq(|rows|, i requires 0 <= i < |rows| =>
      if i + h >= |rows| then rows[i][..places[i]] + [t] + rows[i][places[i]..] else rows[i])
  }

  // ---- in the window ---------------------------------------------------------------------

  lemma {:induction false} RowsNested(rows: seq<seq<Tid>>, key: map<Tid, nat>)
    requires RowsOk(rows, key)
    ensures Nested(rows)
  {
    forall r | 0 <= r < |rows| - 1 ensures Within(rows[r], rows[r + 1]) {
      assert ThinsAt(rows, r);
      forall x | x in rows[r] ensures x in rows[r + 1] {
        KeepMembers(rows[r + 1], Elements(rows[r]), x);
      }
    }
  }

  lemma RowFits(rows: seq<seq<Tid>>, r: nat, t: Tid, deadline: map<Tid, nat>, base: nat)
    requires RowsOk(rows, Keys(deadline, base)) && r < |rows| && Fits(Last(rows), t, deadline, base)
    ensures Fits(rows[r], t, deadline, base) && Sorted(rows[r], Keys(deadline, base))
  {
    RowOk(rows, Keys(deadline, base), r);
  }

  /** A walk that does not start too late stops at the place. */
  lemma {:induction false} WalkIsPlace(row: seq<Tid>, k: nat, t: Tid, deadline: map<Tid, nat>)
    requires k <= Place(row, t, deadline)
    ensures Walk(row, k, t, deadline) == Place(row, t, deadline)
    decreases |row| - k
  {
    hide Later;
    if k < Place(row, t, deadline) {
      WalkIsPlace(row, k + 1, t, deadline);
    }
  }

  /** The node before the place in a sparser row is at or before the place in the next. */
  lemma NextStart(rows: seq<seq<Tid>>, r: nat, t: Tid, deadline: map<Tid, nat>, base: nat)
    requires RowsOk(rows, Keys(deadline, base)) && r + 1 < |rows| && Fits(Last(rows), t, deadline, base)
    ensures Nested(rows) && Below(rows, r, Place(rows[r], t, deadline)) <= Place(rows[r + 1], t, deadline)
  {
    var k, key := Place(rows[r], t, deadline), Keys(deadline, base);
    RowsNested(rows, key);
    RowFits(rows, r, t, deadline, base);
    RowFits(rows, r + 1, t, deadline, base);
    if k > 0 {
      var x := rows[r][k - 1];
      assert Within(rows[r], rows[r + 1]);
      PlaceIsRank(rows[r], t, deadline, base);
      PlaceIsRank(rows[r + 1], t, deadline, base);
      InsertIsStable(rows[r], t, key, k - 1);
      InsertIsStable(rows[r + 1], t, key, IndexIn(rows[r + 1], x));
    }
  }

  lemma {:induction false} PlacesInWindow(rows: seq<seq<Tid>>, r: nat, k: nat, t: Tid, deadline: map<Tid, nat>, base: nat)
    requires RowsOk(rows, Keys(deadline, base)) && Fits(Last(rows), t, deadline, base)
    requires Nested(rows) && r < |rows| && k <= Place(rows[r], t, deadline)
    ensures forall i :: 0 <= i < |rows| - r ==> PlacesFrom(rows, r, k, t, deadline)[i] == Place(rows[r + i], t, deadline)
    decreases |rows| - r
  {
    hide RowsOk, Fits, Place, Walk, Below;
    WalkIsPlace(rows[r], k, t, deadline);
    if r + 1 < |rows| {
      NextStart(rows, r, t, deadline, base);
      var k1 := Below(rows, r, Place(rows[r], t, deadline));
      PlacesInWindow(rows, r + 1, k1, t, deadline, base);
      forall i | 0 <= i < |rows| - r ensures PlacesFrom(rows, r, k, t, deadline)[i] == Place(rows[r + i], t, deadline) {
        if i > 0 {
          assert PlacesFrom(rows, r, k, t, deadline)[i] == PlacesFrom(rows, r + 1, k1, t, deadline)[i - 1];
        }
      }
    }
  }

  /** With all deadlines in the window the search finds the place in every row. */
  lemma SearchInWindow(rows: seq<seq<Tid>>, t: Tid, h: nat, deadline: map<Tid, nat>, base: nat)
    requires RowsOk(rows, Keys(deadline, base)) && Fits(Last(rows), t, deadline, base)
    ensures Nested(rows) && forall i :: 0 <= i < |rows| ==> Places(rows, t, deadline)[i] == Place(rows[i], t, deadline)
    ensures LinkAt(rows, Places(rows, t, deadline), t, h) == Link(rows, t, h, deadline)
  {
    hide RowsOk, Fits, Place, PlacesFrom, Nested, LinkAt, Link, Keys, Last;
    RowsNested(rows, Keys(deadline, base));
    RowsThere(rows, Keys(deadline, base));
    PlacesInWindow(rows, 0, 0, t, deadline, base);
    LinkAtPlaces(rows, Places(rows, t, deadline), t, h, deadline);
  }

  lemma LinkAtPlaces(rows: seq<seq<Tid>>, places: seq<nat>, t: Tid, h: nat, deadline: map<Tid, nat>)
    requires |places| == |rows| && forall i :: 0 <= i < |rows| ==> places[i] == Place(rows[i], t, deadline) <= |rows[i]|
    ensures LinkAt(rows, places, t, h) == Link(rows, t, h, deadline)
  {
    hide Place;
    var a, b := LinkAt(rows, places, t, h), Link(rows, t, h, deadline);
    forall i | 0 <= i < |rows| ensures a[i] == b[i] {
    }
  }

  lemma RowsThere(rows: seq<seq<Tid>>, key: map<Tid, nat>)
    requires RowsOk(rows, key)
    ensures rows != []
  {
  }

  // ---- at the front ----------------------------------------------------------------------

  /** The first timer of every row is later. */
  ghost predicate AllLater(rows: seq<seq<Tid>>, r: nat, t: Tid, deadline: map<Tid, nat>) {
    forall i :: r <= i < |rows| && rows[i] != [] ==> Later(deadline, rows[i][0], t)
  }

  /** Exactly: the search ends in front of the last row if and only if the first timer of every row is
      later; then it is in front of every row. */
  lemma {:induction false} FrontExactly(rows: seq<seq<Tid>>, r: nat, k: nat, t: Tid, deadline: map<Tid, nat>)
    requires Nested(rows) && r < |rows| && k <= |rows[r]|
    ensures var ps := PlacesFrom(rows, r, k, t, deadline);
            && (ps[|ps| - 1] == 0 <==> k == 0 && AllLater(rows, r, t, deadline))
            && (ps[|ps| - 1] == 0 ==> forall i :: 0 <= i < |ps| ==> ps[i] == 0)
    decreases |rows| - r
  {
    hide Later, Below, Nested;
    var p := Walk(rows[r], k, t, deadline);
    assert p == 0 <==> k == 0 && (rows[r] == [] || Later(deadline, rows[r][0], t));
    if r + 1 < |rows| {
      FrontExactly(rows, r + 1, Below(rows, r, p), t, deadline);
      assert AllLater(rows, r, t, deadline) <==>
               (rows[r] == [] || Later(deadline, rows[r][0], t)) && AllLater(rows, r + 1, t, deadline);
    }
  }
}
