/**
 Time slices as a list of slots: what rt_tick_increase does to the threads of one priority, when none
 of them blocks, and that each gets its share. TimeSlice carries this over to the kernel's lists.
 */
module RoundRobin {
  type Tid = nat

  /** A thread of the list with its init_tick and remaining_tick; the first one runs. */
  datatype Slot = Slot(t: Tid, init: nat, left: nat)

  /** One tick: the running thread uses it; at the end of its slice it goes behind the others. */
  function Tick(q: seq<Slot>): seq<Slot>
    requires q != [] && q[0].left > 0
  {
    var h := q[0].(left := q[0].left - 1);
    if h.left == 0 then q[1..] + [h.(left := h.init)] else [h] + q[1..]
  }

  /** Slices are at least one tick, and no thread has more left than its slice. */
  ghost predicate Slices(q: seq<Slot>) {
    q != [] && forall i :: 0 <= i < |q| ==> 1 <= q[i].left <= q[i].init
  }

  lemma TickKeeps(q: seq<Slot>)
    requires Slices(q)
    ensures Slices(Tick(q)) && |Tick(q)| == |q|
  {
  }

  /** The list after n ticks. */
  ghost function Run(q: seq<Slot>, n: nat): seq<Slot>
    requires Slices(q)
    decreases n
  {
    if n == 0 then q
    else
      TickKeeps(q);
      Run(Tick(q), n - 1)
  }

  /** How many of the next n ticks thread t runs. */
  ghost function Share(q: seq<Slot>, n: nat, t: Tid): nat
    requires Slices(q)
    decreases n
  {
    if n == 0 then 0
    else
      TickKeeps(q);
      (if q[0].t == t then 1 else 0) + Share(Tick(q), n - 1, t)
  }

  lemma {:induction false} Split(q: seq<Slot>, a: nat, b: nat, t: Tid)
    requires Slices(q)
    ensures Slices(Run(q, a)) && Run(q, a + b) == Run(Run(q, a), b)
    ensures Share(q, a + b, t) == Share(q, a, t) + Share(Run(q, a), b, t)
    decreases a
  {
    if a > 0 {
      TickKeeps(q);
      Split(Tick(q), a - 1, b, t);
    }
  }

  /** k ticks within the slice of the first thread. */
  lemma {:induction false} Within(q: seq<Slot>, k: nat, t: Tid)
    requires Slices(q) && k < q[0].left
    ensures Run(q, k) == [q[0].(left := q[0].left - k)] + q[1..]
    ensures Share(q, k, t) == if q[0].t == t then k else 0
    decreases k
  {
    if k > 0 {
      var r := Tick(q);
      Within(r, k - 1, t);
    }
  }

  /** The rest of a slice: the first thread goes behind the others, its slice full again. */
  lemma Slice(q: seq<Slot>, t: Tid)
    requires Slices(q)
    ensures Run(q, q[0].left) == q[1..] + [q[0].(left := q[0].init)]
    ensures Share(q, q[0].left, t) == if q[0].t == t then q[0].left else 0
  {
    var k := q[0].left - 1;
    Within(q, k, t);
    Split(q, k, 1, t);
  }

  ghost predicate Full(q: seq<Slot>) {
    forall i :: 0 <= i < |q| ==> q[i].left == q[i].init
  }

  function Total(q: seq<Slot>): nat {
    if q == [] then 0 else q[0].init + Total(q[1..])
  }

  /** The slice of thread t. */
  function SliceOf(q: seq<Slot>, t: Tid): nat {
    if q == [] then 0 else (if q[0].t == t then q[0].init else 0) + SliceOf(q[1..], t)
  }

  lemma NoTime(q: seq<Slot>, t: Tid)
    requires Slices(q)
    ensures Run(q, 0) == q && Share(q, 0, t) == 0
  {
  }

  /** A turn of all threads of rest, each with a full slice, while those of done wait behind. */
  lemma {:induction false} Turn(rest: seq<Slot>, done: seq<Slot>, t: Tid)
    requires rest + done != [] && Slices(rest + done) && Full(rest)
    ensures Run(rest + done, Total(rest)) == done + rest
    ensures Share(rest + done, Total(rest), t) == SliceOf(rest, t)
    decreases rest
  {
    hide Run, Share, Tick, Slices;
    var q := rest + done;
    if rest == [] {
      NoTime(q, t);
    } else {
      var h := rest[0];
      Slice(q, t);
      Split(q, h.init, Total(rest[1..]), t);
      var r := rest[1..] + (done + [h]);
      assert Run(q, h.init) == r;
      Turn(rest[1..], done + [h], t);
    }
  }

  /** Fairness: with all but the running thread holding a full slice, in every window of as many
      ticks as the slices add up to each thread runs exactly its own slice, and the list is back
      where it was. */
  lemma Fair(q: seq<Slot>, t: Tid)
    requires Slices(q) && Full(q[1..])
    ensures Share(q, Total(q), t) == SliceOf(q, t)
    ensures Run(q, Total(q)) == q
  {
    hide Run, Share, Tick, Total, SliceOf;
    var h := q[0];
    RoundButRest(q, t);
    var n, c := h.left + Total(q[1..]), h.init - h.left;
    Split(q, n, c, t);
    var q2 := Run(q, n);
    Within(q2, c, t);
    TotalOfFirst(q, t);
  }

  lemma TotalOfFirst(q: seq<Slot>, t: Tid)
    requires q != []
    ensures Total(q) == q[0].init + Total(q[1..]) && SliceOf(q, t) == (if q[0].t == t then q[0].init else 0) + SliceOf(q[1..], t)
  {
  }

  /** The rest of the running slice and a turn of all the others. */
  lemma RoundButRest(q: seq<Slot>, t: Tid)
    requires Slices(q) && Full(q[1..])
    ensures var n, full := q[0].left + Total(q[1..]), q[0].(left := q[0].init);
            && Run(q, n) == [full] + q[1..]
            && Share(q, n, t) == (if q[0].t == t then q[0].left else 0) + SliceOf(q[1..], t)
  {
    assert q != [];
    var rest, full := q[1..], q[0].(left := q[0].init);
    Slice(q, t);
    Split(q, q[0].left, Total(rest), t);
    Turn(rest, [full], t);
  }

  /** Every list that arises within such windows is again of this kind. */
  lemma StaysFair(q: seq<Slot>)
    requires Slices(q) && Full(q[1..])
    ensures Slices(Tick(q)) && Full(Tick(q)[1..])
  {
  }

  /** No window of any length favours a thread: over m rounds it runs m slices. */
  lemma {:induction false} FairRounds(q: seq<Slot>, m: nat, t: Tid)
    requires Slices(q) && Full(q[1..])
    ensures Share(q, m * Total(q), t) == m * SliceOf(q, t)
    decreases m
  {
    if m > 0 {
      Fair(q, t);
      FairRounds(q, m - 1, t);
      Split(q, Total(q), (m - 1) * Total(q), t);
      assert m * SliceOf(q, t) == SliceOf(q, t) + (m - 1) * SliceOf(q, t);
    }
  }
}
