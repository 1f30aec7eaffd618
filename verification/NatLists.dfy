/**
 Sequences of numbers without repetition, and taking one element out.
 */
module NatLists {

  predicate Distinct(s: seq<nat>) {
    forall i, j :: 0 <= i < j < |s| ==> s[i] != s[j]
  }

  /** s without t. */
  function Without(s: seq<nat>, t: nat): (r: seq<nat>)
    ensures |r| <= |s|
  {
    if s == [] then [] else if s[0] == t then s[1..] else [s[0]] + Without(s[1..], t)
  }

  lemma {:induction false} WithoutAt(s: seq<nat>, k: nat)
    requires Distinct(s) && k < |s|
    ensures Without(s, s[k]) == s[..k] + s[k + 1..]
  {
    if k > 0 {
      var t := s[1..];
      WithoutAt(t, k - 1);
    }
  }

  lemma {:induction false} WithoutAbsent(s: seq<nat>, t: nat)
    requires t !in s
    ensures Without(s, t) == s
  {
    if s != [] {
      WithoutAbsent(s[1..], t);
    }
  }

  lemma CutAt(s: seq<nat>, k: nat, i: nat)
    requires k < |s| && i < |s| - 1
    ensures (s[..k] + s[k + 1..])[i] == if i < k then s[i] else s[i + 1]
  {
  }

  lemma WithoutMembers(s: seq<nat>, t: nat, x: nat)
    requires Distinct(s)
    ensures x in Without(s, t) <==> x in s && x != t
  {
  }

  lemma Tail(s: seq<nat>)
    requires Distinct(s) && s != []
    ensures s[0] !in s[1..] && Distinct(s[1..])
    ensures forall x :: x in s <==> x == s[0] || x in s[1..]
  {
  }

  lemma DistinctWithout(s: seq<nat>, x: nat)
    requires Distinct(s)
    ensures Distinct(Without(s, x))
  {
    if x in s {
      var k :| 0 <= k < |s| && s[k] == x;
      WithoutAt(s, k);
    } else {
      WithoutAbsent(s, x);
    }
  }
}
