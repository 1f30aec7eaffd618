/**
 The timer skip list as rows of timers in deadline order, and the expiry loop.
 */
module Timer {
  import opened NatLists

  type Tid = nat

  // ---- ticks that wrap -------------------------------------------------------------------

  const TICKS: nat := 0x1_0000_0000
  const HALF: nat := 0x7fff_ffff

  /** a - b in 32 bits. */
  function Sub(a: nat, b: nat): nat {
    (a - b) % TICKS
  }

  function Add(a: nat, b: nat): nat {
    (a + b) % TICKS
  }

  /** Seen from a tick base that no deadline is before, the comparison of rt_timer_start orders
      deadlines as distances from base. */
  lemma CompareIs(base: nat, t: nat, n: nat)
    requires base < TICKS && t < TICKS && n < TICKS
    requires Sub(t, base) <= HALF && Sub(n, base) <= HALF && Sub(t, base) < Sub(n, base) + HALF
    ensures Sub(t, n) == 0 <==> Sub(t, base) == Sub(n, base)
    ensures 0 < Sub(t, n) < HALF <==> Sub(t, base) > Sub(n, base)
  {
  }

  /** The expiry test of rt_timer_check. */
  lemma DueIs(base: nat, now: nat, d: nat)
    requires base < TICKS && now < TICKS && d < TICKS && Sub(now, base) < HALF && Sub(d, base) <= HALF
    ensures Sub(now, d) < HALF <==> Sub(d, base) <= Sub(now, base)
  {
  }

  lemma AddKey(base: nat, now: nat, ticks: nat)
    requires base < TICKS && now < TICKS && Sub(now, base) + ticks < TICKS
    ensures Add(now, ticks) < TICKS && Sub(Add(now, ticks), base) == Sub(now, base) + ticks
  {
  }

  // ---- rows ------------------------------------------------------------------------------

  /** The deadline of a timer as a distance. */
  function At(key: map<Tid, nat>, t: Tid): nat {
    if t in key then key[t] else 0
  }

  predicate Sorted(row: seq<Tid>, key: map<Tid, nat>) {
    forall i, j :: 0 <= i < j < |row| ==> At(key, row[i]) <= At(key, row[j])
  }

  /** Insertion into a flat sorted list, after all timers with the same deadline. */
  function Insert(row: seq<Tid>, t: Tid, key: map<Tid, nat>): seq<Tid>
    decreases row
  {
    if row == [] || At(key, row[0]) > At(key, t) then [t] + row else [row[0]] + Insert(row[1..], t, key)
  }

  /** How many timers of a row come before t. */
  function Rank(row: seq<Tid>, t: Tid, key: map<Tid, nat>): (k: nat)
    ensures k <= |row|
    decreases row
  {
    if row == [] || At(key, row[0]) > At(key, t) then 0 else 1 + Rank(row[1..], t, key)
  }

  lemma {:induction false} InsertAtRank(row: seq<Tid>, t: Tid, key: map<Tid, nat>)
    ensures var k := Rank(row, t, key); Insert(row, t, key) == row[..k] + [t] + row[k..]
    decreases row
  {
    if row != [] && At(key, row[0]) <= At(key, t) {
      InsertAtRank(row[1..], t, key);
    }
  }

  lemma {:induction false} RankIs(row: seq<Tid>, t: Tid, key: map<Tid, nat>)
    ensures var k := Rank(row, t, key);
            && (forall i :: 0 <= i < k ==> At(key, row[i]) <= At(key, t))
            && (k < |row| ==> At(key, row[k]) > At(key, t))
    decreases row
  {
    if row != [] && At(key, row[0]) <= At(key, t) {
      RankIs(row[1..], t, key);
    }
  }

  /** Insertion keeps a row sorted, keeps timers distinct and adds exactly t. */
  lemma InsertKeeps(row: seq<Tid>, t: Tid, key: map<Tid, nat>)
    requires Sorted(row, key) && Distinct(row) && t !in row
    ensures Sorted(Insert(row, t, key), key) && Distinct(Insert(row, t, key))
    ensures forall x :: x in Insert(row, t, key) <==> x == t || x in row
  {
    hide Insert, Rank;
    InsertAtRank(row, t, key);
    RankIs(row, t, key);
    var k, r := Rank(row, t, key), Insert(row, t, key);
  }

  /** Timers with the same deadline stay in the order in which they were started. */
  lemma InsertIsStable(row: seq<Tid>, t: Tid, key: map<Tid, nat>, i: nat)
    requires Sorted(row, key) && i < |row|
    ensures At(key, row[i]) <= At(key, t) <==> i < Rank(row, t, key)
  {
    RankIs(row, t, key);
  }

  /** The timers of a row that are in s, in order. */
  function Keep(row: seq<Tid>, s: set<Tid>): seq<Tid>
    decreases row
  {
    if row == [] then [] else (if row[0] in s then [row[0]] else []) + Keep(row[1..], s)
  }

  function Elements(row: seq<Tid>): set<Tid> {
    set t | t in row
  }

  /** a is a subsequence of b, which has no repetitions. */
  predicate Thins(a: seq<Tid>, b: seq<Tid>) {
    a == Keep(b, Elements(a))
  }

  lemma {:induction false} KeepMembers(row: seq<Tid>, s: set<Tid>, x: Tid)
    ensures x in Keep(row, s) <==> x in row && x in s
    decreases row
  {
    if row != [] {
      KeepMembers(row[1..], s, x);
    }
  }

  lemma {:induction false} KeepSame(row: seq<Tid>, s: set<Tid>, u: set<Tid>)
    requires forall x :: x in row ==> (x in s <==> x in u)
    ensures Keep(row, s) == Keep(row, u)
    decreases row
  {
    if row != [] {
      KeepSame(row[1..], s, u);
    }
  }

  /** Sortedness passes to subsequences. */
  lemma {:induction false} KeepSorted(row: seq<Tid>, s: set<Tid>, key: map<Tid, nat>)
    requires Sorted(row, key) && Distinct(row)
    ensures Sorted(Keep(row, s), key) && Distinct(Keep(row, s))
    decreases row
  {
    if row != [] {
      var rest := Keep(row[1..], s);
      KeepSorted(row[1..], s, key);
      forall i | 0 <= i < |rest| ensures At(key, row[0]) <= At(key, rest[i]) && rest[i] != row[0] {
        KeepMembers(row[1..], s, rest[i]);
        assert rest[i] in row[1..];
        var j :| 0 <= j < |row[1..]| && row[1..][j] == rest[i];
        assert row[j + 1] == rest[i];
      }
    }
  }

  /** Inserting commutes with thinning out: in a sparser row the new timer goes to the same
      place. */
  lemma {:induction false} KeepInsert(row: seq<Tid>, t: Tid, key: map<Tid, nat>, s: set<Tid>)
    requires Sorted(row, key) && t !in row
    ensures Keep(Insert(row, t, key), s + {t}) == Insert(Keep(row, s), t, key)
    ensures t !in s ==> Keep(Insert(row, t, key), s) == Keep(row, s)
    decreases row
  {
    if row == [] || At(key, row[0]) > At(key, t) {
      KeepSame(row, s + {t}, s);
      KeepLater(row, t, key, s);
    } else {
      KeepInsert(row[1..], t, key, s);
      KeepPast(row, t, key, s);
    }
  }

  lemma KeepLater(row: seq<Tid>, t: Tid, key: map<Tid, nat>, s: set<Tid>)
    requires Sorted(row, key) && (row == [] || At(key, row[0]) > At(key, t))
    ensures Insert(Keep(row, s), t, key) == [t] + Keep(row, s)
  {
    var k := Keep(row, s);
    if k != [] {
      KeepMembers(row, s, k[0]);
      var j :| 0 <= j < |row| && row[j] == k[0];
    }
  }

  lemma KeepPast(row: seq<Tid>, t: Tid, key: map<Tid, nat>, s: set<Tid>)
    requires row != [] && At(key, row[0]) <= At(key, t)
    ensures Insert(Keep(row, s), t, key) ==
            (if row[0] in s then [row[0]] else []) + Insert(Keep(row[1..], s), t, key)
  {
    var k := Keep(row[1..], s);
    if row[0] in s {
    } else {
      assert [] + k == k;
    }
  }

  /** Removing commutes with thinning out. */
  lemma {:induction false} KeepWithout(row: seq<Tid>, t: Tid, s: set<Tid>)
    requires Distinct(row)
    ensures Keep(Without(row, t), s - {t}) == Without(Keep(row, s), t)
    decreases row
  {
    if row != [] {
      if row[0] == t {
        KeepSame(row[1..], s, s - {t});
        KeepMembers(row[1..], s, t);
        if t in s {
          assert ([t] + Keep(row[1..], s))[1..] == Keep(row[1..], s);
        } else {
          WithoutAbsent(Keep(row[1..], s), t);
          assert [] + Keep(row[1..], s) == Keep(row[1..], s);
        }
      } else {
        KeepWithout(row[1..], t, s);
        var r, k := Without(row[1..], t), Keep(row[1..], s);
      }
    }
  }
}
