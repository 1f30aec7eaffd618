/**
 The page allocator below the slab: a list of runs of free pages in address order.
 */
module PageList {

  /** A run of count free pages; addresses are page numbers. */
  datatype Run = Run(start: nat, count: nat)

  datatype Answer = None | Some(page: nat)

  predicate IsFree(runs: seq<Run>, p: nat) {
    runs != [] && (runs[0].start <= p < runs[0].start + runs[0].count || IsFree(runs[1..], p))
  }

  /** Canonical form: runs are not empty, in order, and a page in use lies between any two. */
  predicate Canonical(runs: seq<Run>) {
    runs == [] || (
      && runs[0].count > 0
      && (|runs| > 1 ==> runs[0].start + runs[0].count < runs[1].start)
      && Canonical(runs[1..]))
  }

  /** rt_page_alloc: the first run that is long enough. */
  function Alloc(runs: seq<Run>, n: nat): (seq<Run>, Answer) {
    if runs == [] then ([], None)
    else if runs[0].count > n then ([Run(runs[0].start + n, runs[0].count - n)] + runs[1..], Some(runs[0].start))
    else if runs[0].count == n then (runs[1..], Some(runs[0].start))
    else
      var (rest, r) := Alloc(runs[1..], n);
      ([runs[0]] + rest, r)
  }

  /** rt_page_free of n pages from s on. */
  function Free(runs: seq<Run>, s: nat, n: nat): seq<Run> {
    if runs == [] then [Run(s, n)]
    else
      var b, rest := runs[0], runs[1..];
      if b.start + b.count == s then
        if rest != [] && b.start + b.count + n == rest[0].start then
          [Run(b.start, b.count + n + rest[0].count)] + rest[1..]
        else [Run(b.start, b.count + n)] + rest
      else if b.start == s + n then [Run(s, b.count + n)] + rest
      else if b.start > s + n then [Run(s, n)] + runs
      else [b] + Free(rest, s, n)
  }

  // ---- canonical form --------------------------------------------------------------------

  /** Every free page is at or behind the start of the list. */
  lemma {:induction false} FirstIsLowest(runs: seq<Run>, p: nat)
    requires Canonical(runs) && IsFree(runs, p)
    ensures runs[0].start <= p
    decreases |runs|
  {
    if !(runs[0].start <= p < runs[0].start + runs[0].count) {
      FirstIsLowest(runs[1..], p);
    }
  }

  /** The page behind a run is in use. */
  lemma BehindFirst(runs: seq<Run>)
    requires Canonical(runs) && runs != []
    ensures !IsFree(runs, runs[0].start + runs[0].count)
  {
    var p := runs[0].start + runs[0].count;
    if IsFree(runs[1..], p) {
      FirstIsLowest(runs[1..], p);
    }
  }

  /** The set of free pages determines the list. */
  lemma {:induction false} Unique(a: seq<Run>, b: seq<Run>)
    requires Canonical(a) && Canonical(b) && forall p: nat :: IsFree(a, p) <==> IsFree(b, p)
    ensures a == b
    decreases |a|
  {
    if a == [] {
      if b != [] {
        assert IsFree(b, b[0].start);
      }
    } else {
      FirstIsLowest(b, a[0].start);
      FirstIsLowest(a, b[0].start);
      SameLength(a, b);
      forall p: nat ensures IsFree(a[1..], p) <==> IsFree(b[1..], p) {
        RestOf(a, p);
        RestOf(b, p);
      }
      Unique(a[1..], b[1..]);
    }
  }

  lemma SameLength(a: seq<Run>, b: seq<Run>)
    requires Canonical(a) && Canonical(b) && a != [] && b != [] && a[0].start == b[0].start
    requires forall p: nat :: IsFree(a, p) <==> IsFree(b, p)
    ensures a[0].count == b[0].count
  {
    var ca, cb := a[0].count, b[0].count;
    BehindFirst(a);
    BehindFirst(b);
  }

  lemma RestOf(runs: seq<Run>, p: nat)
    requires Canonical(runs) && runs != []
    ensures IsFree(runs[1..], p) <==> IsFree(runs, p) && !(runs[0].start <= p < runs[0].start + runs[0].count)
  {
    if IsFree(runs[1..], p) {
      FirstIsLowest(runs[1..], p);
    }
  }

  // ---- allocation ------------------------------------------------------------------------

  /** All n pages from s on are free. */
  ghost predicate AllFree(runs: seq<Run>, s: nat, n: nat) {
    forall p: nat :: s <= p < s + n ==> IsFree(runs, p)
  }

  ghost predicate NoneFree(runs: seq<Run>, s: nat, n: nat) {
    forall p: nat :: s <= p < s + n ==> !IsFree(runs, p)
  }

  /** A successful allocation takes n free pages and no other; the list stays canonical. */
  lemma {:induction false} AllocTakes(runs: seq<Run>, n: nat)
    requires Canonical(runs) && n > 0
    ensures var (rest, r) := Alloc(runs, n);
            && Canonical(rest)
            && (rest != [] ==> runs != [] && runs[0].start <= rest[0].start)
            && (r.None? ==> rest == runs)
            && (r.Some? ==> AllFree(runs, r.page, n) && forall p: nat :: IsFree(rest, p) <==> IsFree(runs, p) && !(r.page <= p < r.page + n))
    decreases |runs|
  {
    if runs != [] {
      var b := runs[0];
      if b.count > n {
        forall p: nat ensures IsFree(Alloc(runs, n).0, p) <==> IsFree(runs, p) && !(b.start <= p < b.start + n) {
          RestOf(runs, p);
        }
      } else if b.count == n {
        forall p: nat ensures IsFree(runs[1..], p) <==> IsFree(runs, p) && !(b.start <= p < b.start + n) {
          RestOf(runs, p);
        }
      } else {
        AllocTakesLater(runs, n);
      }
    }
  }

  lemma AllocTakesLater(runs: seq<Run>, n: nat)
    requires Canonical(runs) && runs != [] && runs[0].count < n
    ensures var (rest, r) := Alloc(runs, n);
            && Canonical(rest)
            && (rest != [] ==> runs[0].start <= rest[0].start)
            && (r.None? ==> rest == runs)
            && (r.Some? ==> AllFree(runs, r.page, n) && forall p: nat :: IsFree(rest, p) <==> IsFree(runs, p) && !(r.page <= p < r.page + n))
    decreases |runs|, 0
  {
    AllocTakes(runs[1..], n);
    var (rest, r) := Alloc(runs[1..], n);
    if r.Some? {
      FirstIsLowest(runs[1..], r.page);
      forall p: nat ensures IsFree([runs[0]] + rest, p) <==> IsFree(runs, p) && !(r.page <= p < r.page + n) {
      }
    }
  }

  /** Allocation fails exactly when nowhere n pages in a row are free. */
  lemma {:induction false} AllocFails(runs: seq<Run>, n: nat)
    requires Canonical(runs) && n > 0
    ensures Alloc(runs, n).1.None? <==> forall s: nat :: !AllFree(runs, s, n)
    decreases |runs|
  {
    if Alloc(runs, n).1.Some? {
      AllocTakes(runs, n);
    } else {
      forall s: nat ensures !AllFree(runs, s, n) {
        NoRoom(runs, n, s);
      }
    }
  }

  lemma {:induction false} NoRoom(runs: seq<Run>, n: nat, s: nat)
    requires Canonical(runs) && n > 0 && Alloc(runs, n).1.None?
    ensures !AllFree(runs, s, n)
    decreases |runs|
  {
    if AllFree(runs, s, n) {
      assert IsFree(runs, s);
      BehindFirst(runs);
      FirstIsLowest(runs, s);
      forall p: nat | s <= p < s + n ensures IsFree(runs[1..], p) {
        assert IsFree(runs, p);
      }
      NoRoom(runs[1..], n, s);
    }
  }

  // ---- release ---------------------------------------------------------------------------

  /** Freeing n pages adds exactly these, and the list stays canonical. */
  lemma {:induction false} FreeAdds(runs: seq<Run>, s: nat, n: nat)
    requires Canonical(runs) && n > 0 && NoneFree(runs, s, n)
    ensures var r := Free(runs, s, n);
            && Canonical(r) && r != [] && r[0].start == (if runs == [] || s < runs[0].start then s else runs[0].start)
            && forall p: nat :: IsFree(r, p) <==> IsFree(runs, p) || s <= p < s + n
    decreases |runs|
  {
    if runs == [] {
    } else {
      var b, rest := runs[0], runs[1..];
      if b.start + b.count == s {
        FreeBehind(runs, s, n);
      } else if b.start == s + n {
      } else if b.start > s + n {
      } else {
        FreeLater(runs, s, n);
      }
    }
  }

  lemma FreeBehind(runs: seq<Run>, s: nat, n: nat)
    requires Canonical(runs) && runs != [] && n > 0 && NoneFree(runs, s, n) && runs[0].start + runs[0].count == s
    ensures var r := Free(runs, s, n);
            && Canonical(r) && r != [] && r[0].start == runs[0].start
            && forall p: nat :: IsFree(r, p) <==> IsFree(runs, p) || s <= p < s + n
  {
    var b, rest := runs[0], runs[1..];
    if rest != [] {
      assert IsFree(runs, rest[0].start);
    }
  }

  lemma FreeLater(runs: seq<Run>, s: nat, n: nat)
    requires Canonical(runs) && runs != [] && n > 0 && NoneFree(runs, s, n)
    requires runs[0].start + runs[0].count != s && runs[0].start < s + n
    ensures var r := Free(runs, s, n);
            && Canonical(r) && r != [] && r[0].start == runs[0].start && runs[0].start <= s
            && forall p: nat :: IsFree(r, p) <==> IsFree(runs, p) || s <= p < s + n
    decreases |runs|, 0
  {
    var b, rest := runs[0], runs[1..];
    assert IsFree(runs, b.start);
    assert !IsFree(runs, s);
    forall p: nat | s <= p < s + n ensures !IsFree(rest, p) {
      assert !IsFree(runs, p);
    }
    FreeAdds(rest, s, n);
  }

  /** Freeing what was just allocated restores the list exactly. */
  lemma FreeUndoesAlloc(runs: seq<Run>, n: nat)
    requires Canonical(runs) && n > 0 && Alloc(runs, n).1.Some?
    ensures Free(Alloc(runs, n).0, Alloc(runs, n).1.page, n) == runs
  {
    var (rest, r) := Alloc(runs, n);
    AllocTakes(runs, n);
    FreeAdds(rest, r.page, n);
  }

  /** Releases of disjoint ranges commute. */
  lemma FreesCommute(runs: seq<Run>, s: nat, n: nat, t: nat, m: nat)
    requires Canonical(runs) && n > 0 && m > 0 && NoneFree(runs, s, n) && NoneFree(runs, t, m)
    requires s + n <= t || t + m <= s
    ensures Free(Free(runs, s, n), t, m) == Free(Free(runs, t, m), s, n)
  {
    FreeAdds(runs, s, n);
    FreeAdds(runs, t, m);
    var a, b := Free(runs, s, n), Free(runs, t, m);
    FreeAdds(a, t, m);
    FreeAdds(b, s, n);
    Unique(Free(a, t, m), Free(b, s, n));
  }

  // ---- the loops -------------------------------------------------------------------------

  /** One turn of the search of rt_page_free. */
  lemma FreeTurn(runs: seq<Run>, k: nat, s: nat, n: nat)
    requires k < |runs|
    ensures var b, rest, r := runs[k], runs[k + 1..], Free(runs[k..], s, n);
            if b.start + b.count == s then
              r == (if rest != [] && b.start + b.count + n == rest[0].start then
                      [Run(b.start, b.count + n + rest[0].count)] + rest[1..]
                    else [Run(b.start, b.count + n)] + rest)
            else if b.start == s + n then r == [Run(s, b.count + n)] + rest
            else if b.start > s + n then r == [Run(s, n)] + runs[k..]
            else runs[..k] + r == runs[..k + 1] + Free(rest, s, n)
  {
  }

  lemma FreeOfNone(runs: seq<Run>, s: nat, n: nat)
    requires runs == []
    ensures Free(runs, s, n) == [Run(s, n)]
  {
  }

  class Pages {
    var list: seq<Run>

    constructor ()
      ensures list == []
    {
      list := [];
    }

    /** rt_page_alloc */
    method PageAlloc(npages: nat) returns (r: Answer)
      modifies this
      ensures if npages == 0 then r == None && list == old(list) else (list, r) == Alloc(old(list), npages)
    {
      if npages == 0 {
        return None;
      }
      var k := 0;
      while k < |list|
        invariant k <= |list| && list == old(list)
        invariant Alloc(list, npages).0 == list[..k] + Alloc(list[k..], npages).0
        invariant Alloc(list, npages).1 == Alloc(list[k..], npages).1
      {
        var b := list[k];
        if b.count > npages {
          list := list[..k] + ([Run(b.start + npages, b.count - npages)] + list[k + 1..]);
          return Some(b.start);
        }
        if b.count == npages {
          list := list[..k] + list[k + 1..];
          return Some(b.start);
        }
        k := k + 1;
      }
      assert list[..k] == list && list[k..] == [] && list + [] == list;
      r := None;
    }

    /** rt_page_free */
    method PageFree(s: nat, npages: nat)
      requires npages != 0
      modifies this
      ensures list == Free(old(list), s, npages)
    {
      hide Free;
      var k := 0;
      assert list[0..] == list && list[..0] == [];
      while k < |list|
        invariant k <= |list| && list == old(list)
        invariant Free(list, s, npages) == list[..k] + Free(list[k..], s, npages)
      {
        var b, rest := list[k], list[k + 1..];
        FreeTurn(list, k, s, npages);
        if b.start + b.count == s {
          if rest != [] && b.start + b.count + npages == rest[0].start {
            list := list[..k] + ([Run(b.start, b.count + npages + rest[0].count)] + rest[1..]);
          } else {
            list := list[..k] + ([Run(b.start, b.count + npages)] + rest);
          }
          return;
        }
        if b.start == s + npages {
          list := list[..k] + ([Run(s, b.count + npages)] + rest);
          return;
        }
        if b.start > s + npages {
          list := list[..k] + ([Run(s, npages)] + list[k..]);
          return;
        }
        k := k + 1;
      }
      FreeOfNone(list[k..], s, npages);
      list := list[..k] + [Run(s, npages)];
    }
  }
}
