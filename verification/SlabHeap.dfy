/**
 rt_malloc and rt_free of the slab, and what every run of them keeps.
 */
module SlabHeap {
  import opened NatLists
  import opened SlabSizes
  import opened SlabZones
  import PageList

  datatype Answer = None | Some(addr: nat)

  // ---- the operations --------------------------------------------------------------------

  /** Large requests get pages of their own. */
  function MallocLarge(s: Slab, n: nat): (Slab, Answer)
    requires Inv(s) && n > 0
  {
    TakenPages(s.pages, s.owner, n);
    var (rest, r) := PageList.Alloc(s.pages, n);
    if r.None? then (s, None)
    else
      (s.(pages := rest, larges := s.larges[r.page := n], owner := Claim(s.owner, r.page, n, OfLarge(r.page)),
          usage := s.usage[r.page := Large(n)]),
       Some(r.page * PAGE))
  }

  predicate HasZone(s: Slab, i: nat) {
    i < |s.lists| && s.lists[i] != [] && s.lists[i][0] in s.zones
  }

  predicate CanTake(z: Zone) {
    z.nfree > 0 && (z.uindex + 1 == z.nmax ==> z.free != [])
  }

  /** A chunk from the first zone of its list; a zone with no chunk left leaves the list. */
  function MallocFrom(s: Slab, i: nat): (Slab, Answer)
    requires HasZone(s, i) && CanTake(s.zones[s.lists[i][0]])
  {
    var p := s.lists[i][0];
    var (z, k) := TakeChunk(s.zones[p]);
    (s.(zones := s.zones[p := z], lists := if z.nfree == 0 then s.lists[i := s.lists[i][1..]] else s.lists),
     Some(Addr(p, z, k)))
  }

  /** A zone from the free list, or else from the page allocator. */
  function GetZone(s: Slab): (Slab, Answer) {
    if s.retired != [] then (s.(retired := s.retired[1..]), Some(s.retired[0]))
    else
      var (rest, r) := PageList.Alloc(s.pages, ZonePages(s));
      if r.None? then (s, None)
      else
        (s.(pages := rest, owner := Claim(s.owner, r.page, ZonePages(s), OfZone(r.page)),
            usage := MarkZone(s.usage, r.page, ZonePages(s))),
         Some(r.page))
  }

  function AddZone(s: Slab, p: nat, z: Zone): Slab
    requires z.index < |s.lists|
  {
    s.(zones := s.zones[p := z], lists := s.lists[z.index := [p] + s.lists[z.index]])
  }

  /** A class fits a zone. */
  predicate Cuts(zoneSize: nat, c: Class) {
    0 <= c.index < NZONES && c.size == SizeOfClass(c.index) > 0 && Offset(c.size) <= zoneSize && ChunkCount(zoneSize, c.size) >= 2
  }

  function MallocNew(s: Slab, c: Class): (Slab, Answer)
    requires Cuts(s.zoneSize, c) && |s.lists| == NZONES
  {
    var (s1, r) := GetZone(s);
    if r.None? then (s, None)
    else
      var z := NewZone(s.zoneSize, c);
      (AddZone(s1, r.addr, z), Some(Addr(r.addr, z, 0)))
  }

  function MallocSmall(s: Slab, size: nat): (Slab, Answer)
    requires Inv(s) && 0 < size < ZoneLimit(s.zoneSize)
  {
    SmallFacts(s, size);
    var c := ZoneIndex(size);
    if s.lists[c.index] != [] then MallocFrom(s, c.index) else MallocNew(s, c)
  }

  function PagesFor(size: nat): (n: nat)
    ensures size <= n * PAGE < size + PAGE
  {
    (size + PAGE - 1) / PAGE
  }

  /** rt_malloc */
  function Malloc(s: Slab, size: nat): (Slab, Answer)
    requires Inv(s)
  {
    if size == 0 then (s, None)
    else if size >= ZoneLimit(s.zoneSize) then MallocLarge(s, PagesFor(size))
    else MallocSmall(s, size)
  }

  lemma SmallFacts(s: Slab, size: nat)
    requires Inv(s) && 0 < size < ZoneLimit(s.zoneSize)
    ensures var c := ZoneIndex(size);
            && Cuts(s.zoneSize, c) && |s.lists| == NZONES && size <= c.size
            && (s.lists[c.index] != [] ==> HasZone(s, c.index) && CanTake(s.zones[s.lists[c.index][0]]))
  {
    ZoneHoldsTwo(s.zoneSize, size);
    ZoneIndexIsLeast(size);
  }

  // ---- release ---------------------------------------------------------------------------

  /** A large block goes back to the page allocator; memusage keeps its type and loses its size. */
  function FreeLarge(s: Slab, p: nat): Slab
    requires p in s.larges && p < |s.usage|
  {
    s.(pages := PageList.Free(s.pages, p, s.larges[p]), larges := s.larges - {p},
       owner := Claim(s.owner, p, s.larges[p], Nobody), usage := s.usage[p := Large(0)])
  }

  /** The chunk goes onto the zone's free list, and the zone back onto its list if it was off. */
  function GiveBack(s: Slab, p: nat, k: nat): Slab
    requires p in s.zones && s.zones[p].index < |s.lists|
  {
    var z := s.zones[p];
    s.(zones := s.zones[p := GiveChunk(z, k)],
       lists := if z.nfree == 0 then s.lists[z.index := [p] + s.lists[z.index]] else s.lists)
  }

  /** A zone without live chunks leaves its list for zone_free. */
  function Retire(s: Slab, p: nat): Slab
    requires p in s.zones && s.zones[p].index < |s.lists|
  {
    var i := s.zones[p].index;
    s.(zones := s.zones - {p}, lists := s.lists[i := Without(s.lists[i], p)], retired := [p] + s.retired)
  }

  /** The zone at the front of zone_free goes back to the page allocator. */
  function Unload(s: Slab): Slab
    requires s.retired != []
  {
    var p := s.retired[0];
    s.(retired := s.retired[1..], pages := PageList.Free(s.pages, p, ZonePages(s)),
       owner := Claim(s.owner, p, ZonePages(s), Nobody), usage := MarkFree(s.usage, p, ZonePages(s)))
  }

  /** rt_free of a chunk: retire an empty zone if its class has another; keep at most two. */
  function FreeChunk(s: Slab, p: nat, k: nat): Slab
    requires p in s.zones && s.zones[p].index < |s.lists|
  {
    var s1 := GiveBack(s, p, k);
    var z := s1.zones[p];
    if z.nfree == z.nmax && |s1.lists[z.index]| > 1 then
      var s2 := Retire(s1, p);
      if |s2.retired| > THRESHOLD then Unload(s2) else s2
    else s1
  }

  // ---- lists of zones --------------------------------------------------------------------

  lemma ListLoses(list: seq<nat>, zones: map<nat, Zone>, i: nat, p: nat)
    requires ListOk(list, zones, i)
    ensures ListOk(Without(list, p), zones - {p}, i)
  {
    DistinctWithout(list, p);
    forall x ensures x in Without(list, p) <==> x in list && x != p {
      WithoutMembers(list, p, x);
    }
  }

  // ---- every operation keeps the invariant -----------------------------------------------

  lemma MallocLargeKeeps(s: Slab, n: nat)
    requires Inv(s) && n > 0
    ensures Inv(MallocLarge(s, n).0)
  {
    TakenPages(s.pages, s.owner, n);
    var (rest, r) := PageList.Alloc(s.pages, n);
    if r.Some? {
      var s', p := MallocLarge(s, n).0, r.page;
      OthersKeep(s, s'.owner, s'.usage, s.zones, s.retired, s.larges, p, n);
    }
  }

  /** No large block and no zone owns a free page. */
  lemma LargesNot(s: Slab, p: nat, n: nat)
    requires Base(s) && p + n <= |s.owner| && n > 0 && forall q :: p <= q < p + n ==> s.owner[q] == Nobody
    ensures p !in s.larges && (ZonePages(s) > 0 ==> p !in s.zones && p !in s.retired)
  {
    assert s.owner[p] == Nobody;
  }

  lemma FreeLargeKeeps(s: Slab, p: nat)
    requires Inv(s) && p in s.larges
    ensures p < |s.usage| && Inv(FreeLarge(s, p))
  {
    var n := s.larges[p];
    var s' := FreeLarge(s, p);
    GivenPages(s.pages, s.owner, p, n);
    OthersKeep(s, s'.owner, s'.usage, s.zones, s.retired, s'.larges, p, n);
  }

  /** One zone of a class changes; the rest of the state does not see it. */
  lemma ZoneChanges(s: Slab, p: nat, z: Zone, lists: seq<seq<nat>>)
    requires Base(s) && p in s.zones && ZoneOk(z, s.zoneSize) && ListsOk(lists, s.zones[p := z])
    ensures Base(s.(zones := s.zones[p := z], lists := lists))
  {
  }

  lemma MallocFromKeeps(s: Slab, i: nat)
    requires Inv(s) && HasZone(s, i)
    ensures CanTake(s.zones[s.lists[i][0]]) && Inv(MallocFrom(s, i).0)
  {
    var p := s.lists[i][0];
    TakeChunkOk(s.zones[p], s.zoneSize);
    ZoneChanges(s, p, TakeChunk(s.zones[p]).0, MallocFrom(s, i).0.lists);
  }

  /** A zone that is about to be cut: it owns its pages but is in no list. */
  ghost predicate Loose(s: Slab, p: nat) {
    ZoneAt(s.owner, s.usage, p, ZonePages(s)) && p !in s.zones && p !in s.retired
  }

  lemma GetZoneKeeps(s: Slab)
    requires Inv(s)
    ensures var (s1, r) := GetZone(s);
            && Inv(s1) && s1.zones == s.zones && s1.lists == s.lists && s1.zoneSize == s.zoneSize
            && (r.Some? ==> Loose(s1, r.addr)) && (r.None? ==> s1 == s)
  {
    if s.retired != [] {
    } else {
      GetPages(s);
    }
  }

  lemma GetPages(s: Slab)
    requires Inv(s) && s.retired == []
    ensures var (s1, r) := GetZone(s);
            && Inv(s1) && s1.zones == s.zones && s1.lists == s.lists && s1.zoneSize == s.zoneSize
            && (r.Some? ==> Loose(s1, r.addr)) && (r.None? ==> s1 == s)
  {
    var n := ZonePages(s);
    TakenPages(s.pages, s.owner, n);
    var (rest, r) := PageList.Alloc(s.pages, n);
    if r.Some? {
      var s1 := GetZone(s).0;
      LargesNot(s, r.page, n);
      OthersKeep(s, s1.owner, s1.usage, s.zones, s.retired, s.larges, r.page, n);
    }
  }

  lemma AddZoneKeeps(s: Slab, p: nat, z: Zone)
    requires Inv(s) && Loose(s, p) && ZoneOk(z, s.zoneSize) && z.nfree > 0
    ensures |s.lists| == NZONES && Inv(AddZone(s, p, z))
  {
  }

  lemma NewZoneOk(zoneSize: nat, c: Class)
    requires IsZoneSize(zoneSize) && Cuts(zoneSize, c)
    ensures ZoneOk(NewZone(zoneSize, c), zoneSize) && NewZone(zoneSize, c).nfree > 0 && Lives(NewZone(zoneSize, c), 0)
  {
    hide Offset;
    var q := OffsetIs(c.size);
    DivBounds(zoneSize - Offset(c.size), c.size);
  }

  lemma MallocNewKeeps(s: Slab, c: Class)
    requires Inv(s) && Cuts(s.zoneSize, c) && |s.lists| == NZONES
    ensures Inv(MallocNew(s, c).0)
  {
    GetZoneKeeps(s);
    var (s1, r) := GetZone(s);
    if r.Some? {
      NewZoneOk(s.zoneSize, c);
      AddZoneKeeps(s1, r.addr, NewZone(s.zoneSize, c));
    }
  }

  lemma MallocKeeps(s: Slab, size: nat)
    requires Inv(s)
    ensures Inv(Malloc(s, size).0)
  {
    if size > 0 {
      if size >= ZoneLimit(s.zoneSize) {
        MallocLargeKeeps(s, PagesFor(size));
      } else {
        SmallFacts(s, size);
        var c := ZoneIndex(size);
        if s.lists[c.index] != [] {
          MallocFromKeeps(s, c.index);
        } else {
          MallocNewKeeps(s, c);
        }
      }
    }
  }

  lemma GiveBackKeeps(s: Slab, p: nat, k: nat)
    requires Inv(s) && p in s.zones && Lives(s.zones[p], k)
    ensures s.zones[p].index < |s.lists| && Inv(GiveBack(s, p, k))
    ensures p in GiveBack(s, p, k).lists[s.zones[p].index]
  {
    var z := s.zones[p];
    ZoneChanges(s, p, GiveChunk(z, k), GiveBack(s, p, k).lists);
  }

  lemma RetireKeeps(s: Slab, p: nat)
    requires Inv(s) && p in s.zones && s.zones[p].index < |s.lists|
    ensures Base(Retire(s, p)) && |Retire(s, p).retired| == |s.retired| + 1
  {
    var s', i := Retire(s, p), s.zones[p].index;
    ListLoses(s.lists[i], s.zones, i, p);
  }

  lemma UnloadKeeps(s: Slab)
    requires Base(s) && s.retired != []
    ensures Base(Unload(s)) && |Unload(s).retired| == |s.retired| - 1
  {
    var s', p, n := Unload(s), s.retired[0], ZonePages(s);
    assert p in s.retired;
    GivenPages(s.pages, s.owner, p, n);
    OthersKeep(s, s'.owner, s'.usage, s.zones, s'.retired, s.larges, p, n);
  }

  lemma FreeChunkKeeps(s: Slab, p: nat, k: nat)
    requires Inv(s) && p in s.zones && Lives(s.zones[p], k)
    ensures s.zones[p].index < |s.lists| && Inv(FreeChunk(s, p, k))
  {
    GiveBackKeeps(s, p, k);
    var s1 := GiveBack(s, p, k);
    var z := s1.zones[p];
    if z.nfree == z.nmax && |s1.lists[z.index]| > 1 {
      RetireKeeps(s1, p);
      var s2 := Retire(s1, p);
      if |s2.retired| > THRESHOLD {
        UnloadKeeps(s2);
      }
    }
  }

  // ---- live memory -----------------------------------------------------------------------

  /** What rt_malloc has given out: a chunk of a zone or a large block. */
  datatype Item = Chunk(zone: nat, k: nat) | Pages(page: nat)

  predicate IsLive(s: Slab, x: Item) {
    match x
    case Chunk(p, k) => p in s.zones && Lives(s.zones[p], k)
    case Pages(p) => p in s.larges
  }

  function StartOf(s: Slab, x: Item): nat
    requires IsLive(s, x)
  {
    match x
    case Chunk(p, k) => Addr(p, s.zones[p], k)
    case Pages(p) => p * PAGE
  }

  function SizeOf(s: Slab, x: Item): nat
    requires IsLive(s, x)
  {
    match x
    case Chunk(p, k) => s.zones[p].size
    case Pages(p) => s.larges[p] * PAGE
  }

  /** First page of the zone or block, and how many pages it has. */
  function Home(x: Item): nat {
    if x.Chunk? then x.zone else x.page
  }

  function HomePages(s: Slab, x: Item): nat
    requires IsLive(s, x)
  {
    if x.Chunk? then ZonePages(s) else s.larges[x.page]
  }

  function HomeOwner(x: Item): Owner {
    if x.Chunk? then OfZone(x.zone) else OfLarge(x.page)
  }

  /** An item lies within the pages of its home, and the home owns them. */
  lemma LiveAtHome(s: Slab, x: Item)
    requires Inv(s) && IsLive(s, x)
    ensures var p, n := Home(x), HomePages(s, x);
            && n > 0 && p + n <= |s.owner| == |s.usage| && (forall q :: p <= q < p + n ==> s.owner[q] == HomeOwner(x))
            && p * PAGE <= StartOf(s, x) && StartOf(s, x) + SizeOf(s, x) <= p * PAGE + n * PAGE && SizeOf(s, x) > 0
  {
    match x
    case Chunk(p, k) => ChunkAtHome(s, p, k);
    case Pages(p) =>
  }

  lemma ChunkAtHome(s: Slab, p: nat, k: nat)
    requires Inv(s) && IsLive(s, Chunk(p, k))
    ensures var x := Chunk(p, k); var n := HomePages(s, x);
            && n > 0 && p + n <= |s.owner| == |s.usage| && (forall q :: p <= q < p + n ==> s.owner[q] == HomeOwner(x))
            && p * PAGE <= StartOf(s, x) && StartOf(s, x) + SizeOf(s, x) <= p * PAGE + n * PAGE && SizeOf(s, x) > 0
  {
    hide ListsOk, RetiredOk, LargesAt, PagesOk, Addr;
    ChunkInside(p, s.zones[p], s.zoneSize, k);
  }

  /** Two homes do not share a page. */
  lemma HomesApart(s: Slab, x: Item, y: Item)
    requires Inv(s) && IsLive(s, x) && IsLive(s, y) && HomeOwner(x) != HomeOwner(y)
    ensures Home(x) + HomePages(s, x) <= Home(y) || Home(y) + HomePages(s, y) <= Home(x)
  {
    LiveAtHome(s, x);
    var q := if Home(x) < Home(y) then Home(y) else Home(x);
    if q < Home(x) + HomePages(s, x) {
      assert s.owner[q] == HomeOwner(x);
    }
  }

  /** Live items do not overlap. */
  lemma LiveDisjoint(s: Slab, x: Item, y: Item)
    requires Inv(s) && IsLive(s, x) && IsLive(s, y) && x != y
    ensures StartOf(s, x) + SizeOf(s, x) <= StartOf(s, y) || StartOf(s, y) + SizeOf(s, y) <= StartOf(s, x)
  {
    if HomeOwner(x) == HomeOwner(y) {
      if x.k < y.k {
        ChunksApart(x.zone, s.zones[x.zone], x.k, y.k);
      } else {
        ChunksApart(x.zone, s.zones[x.zone], y.k, x.k);
      }
    } else {
      LiveAtHome(s, x);
      LiveAtHome(s, y);
      HomesApart(s, x, y);
    }
  }

  // ---- the page table --------------------------------------------------------------------

  /** The page table leads any byte of a live chunk back to its zone, and the start of a large
      block to its length. */
  lemma LeadsHome(s: Slab, x: Item, a: nat)
    requires Inv(s) && IsLive(s, x) && StartOf(s, x) <= a < StartOf(s, x) + SizeOf(s, x)
    ensures a / PAGE < |s.usage|
    ensures x.Chunk? ==> s.usage[a / PAGE].Small? && s.usage[a / PAGE].off <= a / PAGE && a / PAGE - s.usage[a / PAGE].off == x.zone
    ensures x.Pages? ==> s.usage[StartOf(s, x) / PAGE] == Large(s.larges[x.page])
  {
    LiveAtHome(s, x);
    match x
    case Chunk(p, k) => assert ZoneAt(s.owner, s.usage, p, ZonePages(s));
    case Pages(p) => assert LargeAt(s.owner, s.usage, p, s.larges[p]);
  }

  /** What rt_free makes of a pointer. */
  function Lookup(s: Slab, ptr: nat): (x: Item)
    requires ptr / PAGE < |s.usage|
  {
    match s.usage[ptr / PAGE]
    case Small(off) =>
      if off <= ptr / PAGE && ptr / PAGE - off in s.zones then
        var p := ptr / PAGE - off;
        var z := s.zones[p];
        if z.size > 0 && ptr >= p * PAGE + z.base then Chunk(p, (ptr - p * PAGE - z.base) / z.size) else Pages(ptr / PAGE)
      else Pages(ptr / PAGE)
    case _ => Pages(ptr / PAGE)
  }

  /** rt_free finds the very item that rt_malloc gave out. */
  lemma LookupFinds(s: Slab, x: Item)
    requires Inv(s) && IsLive(s, x)
    ensures StartOf(s, x) / PAGE < |s.usage| && Lookup(s, StartOf(s, x)) == x
  {
    LiveAtHome(s, x);
    match x
    case Chunk(p, k) => ChunkNumber(s, p, k);
    case Pages(p) => assert StartOf(s, x) / PAGE == p;
  }

  lemma ChunkNumber(s: Slab, p: nat, k: nat)
    requires Inv(s) && p in s.zones
    ensures var z, a := s.zones[p], Addr(p, s.zones[p], k);
            z.size > 0 && a >= p * PAGE + z.base && (a - p * PAGE - z.base) / z.size == k
  {
    assert ZoneOk(s.zones[p], s.zoneSize);
    var z := s.zones[p];
    ExactQuotient(k, z.size);
  }

  lemma ExactQuotient(k: nat, u: nat)
    requires u > 0
    ensures k * u / u == k
  {
    QuotientUnique(k, k * u / u, k * u, u);
  }

  function Release(s: Slab, x: Item): Slab
    requires Inv(s) && IsLive(s, x)
  {
    match x
    case Chunk(p, k) =>
      FreeChunkKeeps(s, p, k);
      FreeChunk(s, p, k)
    case Pages(p) =>
      FreeLargeKeeps(s, p);
      FreeLarge(s, p)
  }

  // ---- whole runs ------------------------------------------------------------------------

  datatype Op = MallocOp(size: nat) | FreeOp(item: Item)

  predicate Legal(s: Slab, op: Op) {
    op.FreeOp? ==> IsLive(s, op.item)
  }

  function Next(s: Slab, op: Op): Slab
    requires Inv(s) && Legal(s, op)
  {
    match op
    case MallocOp(size) => Malloc(s, size).0
    case FreeOp(x) => Release(s, x)
  }

  lemma StepKeeps(s: Slab, op: Op)
    requires Inv(s) && Legal(s, op)
    ensures Inv(Next(s, op))
  {
    match op
    case MallocOp(size) => MallocKeeps(s, size);
    case FreeOp(x) =>
      match x
      case Chunk(p, k) => FreeChunkKeeps(s, p, k);
      case Pages(p) => FreeLargeKeeps(s, p);
  }

  ghost predicate Reaches(s: Slab, ops: seq<Op>, s': Slab)
    requires Inv(s)
    decreases |ops|
  {
    if ops == [] then s' == s
    else Legal(s, ops[0]) && (StepKeeps(s, ops[0]); Reaches(Next(s, ops[0]), ops[1..], s'))
  }

  lemma {:induction false} RunKeeps(s: Slab, ops: seq<Op>, s': Slab)
    requires Inv(s) && Reaches(s, ops, s')
    ensures Inv(s')
    decreases |ops|
  {
    if ops != [] {
      StepKeeps(s, ops[0]);
      RunKeeps(Next(s, ops[0]), ops[1..], s');
    }
  }

  /** rt_system_heap_init: all pages free, then the first ones taken for memusage, whose contents
      are whatever was in memory. */
  function Init(zoneSize: nat, table: nat, usage: seq<Usage>): Slab
    requires table < |usage|
  {
    Slab(zoneSize, map[], seq(NZONES, i => []), [], map[], PageList.Alloc([PageList.Run(0, |usage|)], table).0, usage,
         seq(|usage|, q => if q < table then OfTable else Nobody))
  }

  lemma InitInv(zoneSize: nat, table: nat, usage: seq<Usage>)
    requires IsZoneSize(zoneSize) && 0 < table < |usage|
    ensures Inv(Init(zoneSize, table, usage))
  {
  }

  /** After every run of malloc and free: the counters are right, a zone is in its list exactly
      when it has a chunk to give, live items are apart, and the page table leads them home. */
  lemma SlabSafety(zoneSize: nat, table: nat, usage: seq<Usage>, ops: seq<Op>, s: Slab, p: nat, x: Item, y: Item)
    requires IsZoneSize(zoneSize) && 0 < table < |usage|
    requires (InitInv(zoneSize, table, usage); Reaches(Init(zoneSize, table, usage), ops, s))
    ensures p in s.zones ==>
              var z := s.zones[p];
              && z.nfree == (z.nmax - 1 - z.uindex) + |z.free| && (z.nfree == z.nmax <==> forall k: nat :: !Lives(z, k))
              && z.index < |s.lists| && (p in s.lists[z.index] <==> z.nfree > 0)
    ensures p in s.retired ==> p !in s.zones && forall i :: 0 <= i < |s.lists| ==> p !in s.lists[i]
    ensures |s.retired| <= 2
    ensures IsLive(s, x) && IsLive(s, y) && x != y ==>
              StartOf(s, x) + SizeOf(s, x) <= StartOf(s, y) || StartOf(s, y) + SizeOf(s, y) <= StartOf(s, x)
    ensures IsLive(s, x) ==> StartOf(s, x) / PAGE < |s.usage| && Lookup(s, StartOf(s, x)) == x
  {
    InitInv(zoneSize, table, usage);
    RunKeeps(Init(zoneSize, table, usage), ops, s);
    if p in s.zones {
      NoneLives(s.zones[p], s.zoneSize);
    }
    if IsLive(s, x) {
      LookupFinds(s, x);
      if IsLive(s, y) && x != y {
        LiveDisjoint(s, x, y);
      }
    }
  }

  /** An allocation of memory fails exactly when nothing is asked for, or, for a large request, nowhere are
      enough pages in a row free, or, for a small one, no zone of its class has a chunk, none is kept in
      reserve, and nowhere are enough pages in a row free for a new one. Then nothing has changed. */
  lemma MallocFailsExactly(s: Slab, size: nat)
    requires Inv(s)
    ensures var (s', r) := Malloc(s, size);
            && (r.None? ==> s' == s)
            && (r.None? <==>
                  || size == 0
                  || (size >= ZoneLimit(s.zoneSize) && NoRow(s.pages, PagesFor(size)))
                  || (0 < size < ZoneLimit(s.zoneSize) && 0 <= ZoneIndex(size).index < |s.lists|
                      && s.lists[ZoneIndex(size).index] == [] && s.retired == [] && NoRow(s.pages, ZonePages(s))))
  {
    hide Claim, MarkZone, PageList.Alloc, TakeChunk, AddZone, PageList.AllFree;
    if size >= ZoneLimit(s.zoneSize) && size > 0 {
      PageList.AllocFails(s.pages, PagesFor(size));
    } else if size > 0 {
      SmallFacts(s, size);
      GetZoneKeeps(s);
      PageList.AllocFails(s.pages, ZonePages(s));
    }
  }

  ghost predicate NoRow(pages: Runs, n: nat) {
    forall p: nat :: !PageList.AllFree(pages, p, n)
  }

  /** An allocation adds exactly one live item, with room for the request; a failed one changes
      nothing. */
  lemma MallocAdds(s: Slab, size: nat) returns (x: Item)
    requires Inv(s) && Malloc(s, size).1.Some?
    ensures var (s', r) := Malloc(s, size);
            && !IsLive(s, x) && IsLive(s', x) && StartOf(s', x) == r.addr && SizeOf(s', x) >= size
            && forall y :: y != x ==> (IsLive(s', y) <==> IsLive(s, y))
  {
    if size >= ZoneLimit(s.zoneSize) {
      var n := PagesFor(size);
      TakenPages(s.pages, s.owner, n);
      x := Pages(PageList.Alloc(s.pages, n).1.page);
      LargesNot(s, x.page, n);
    } else {
      SmallFacts(s, size);
      var c := ZoneIndex(size);
      if s.lists[c.index] != [] {
        x := TakenItem(s, c.index);
      } else {
        x := NewItem(s, c);
      }
    }
  }

  lemma TakenItem(s: Slab, i: nat) returns (x: Item)
    requires Inv(s) && HasZone(s, i) && CanTake(s.zones[s.lists[i][0]])
    ensures var (s', r) := MallocFrom(s, i);
            && !IsLive(s, x) && IsLive(s', x) && r == Some(StartOf(s', x)) && SizeOf(s', x) == SizeOfClass(i)
            && forall y :: y != x ==> (IsLive(s', y) <==> IsLive(s, y))
  {
    var p := s.lists[i][0];
    x := Chunk(p, TakeChunk(s.zones[p]).1);
  }

  lemma NewItem(s: Slab, c: Class) returns (x: Item)
    requires Inv(s) && Cuts(s.zoneSize, c) && |s.lists| == NZONES && MallocNew(s, c).1.Some?
    ensures var (s', r) := MallocNew(s, c);
            && !IsLive(s, x) && IsLive(s', x) && r == Some(StartOf(s', x)) && SizeOf(s', x) == c.size
            && forall y :: y != x ==> (IsLive(s', y) <==> IsLive(s, y))
  {
    GetZoneKeeps(s);
    var (s1, r) := GetZone(s);
    x := Chunk(r.addr, 0);
  }

  /** A release removes exactly the item: no other live memory is lost, even when a zone retires. */
  lemma ReleaseRemoves(s: Slab, x: Item, y: Item)
    requires Inv(s) && IsLive(s, x)
    ensures IsLive(Release(s, x), y) <==> IsLive(s, y) && y != x
    ensures IsLive(s, y) && y != x ==> StartOf(Release(s, x), y) == StartOf(s, y) && SizeOf(Release(s, x), y) == SizeOf(s, y)
  {
    match x
    case Chunk(p, k) =>
      ChunkRemoved(s, p, k, y);
    case Pages(p) =>
  }

  lemma ChunkRemoved(s: Slab, p: nat, k: nat, y: Item)
    requires Inv(s) && p in s.zones && Lives(s.zones[p], k) && s.zones[p].index < |s.lists|
    ensures var s' := FreeChunk(s, p, k);
            && (IsLive(s', y) <==> IsLive(s, y) && y != Chunk(p, k))
            && (IsLive(s, y) && y != Chunk(p, k) ==> StartOf(s', y) == StartOf(s, y) && SizeOf(s', y) == SizeOf(s, y))
  {
    var z := s.zones[p];
    GiveChunkOk(z, s.zoneSize, k);
    NoneLives(GiveChunk(z, k), s.zoneSize);
  }
}
