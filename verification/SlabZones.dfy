/**
 The slab: zones of equal chunks on top of the page allocator, with a page table that leads from
 any chunk back to its zone.
 */
module SlabZones {
  import opened NatLists
  import opened SlabSizes
  import PageList

  type Runs = seq<PageList.Run>

  const PAGE: nat := 4096

  /** slab_zone: chunk numbers stand for chunk addresses; free is the list of freed chunks. */
  datatype Zone = Zone(index: nat, size: nat, base: nat, nmax: nat, nfree: nat, uindex: nat, free: seq<nat>)

  /** struct memusage */
  datatype Usage = FreePage | Small(off: nat) | Large(count: nat)

  /** Who a page belongs to. */
  datatype Owner = Nobody | OfZone(zone: nat) | OfLarge(start: nat) | OfTable

  /** The state: zones by first page, the lists of zone_array, zone_free, the live large blocks by
      first page, the page list, memusage, and the owner of each page. */
  datatype Slab = Slab(zoneSize: nat, zones: map<nat, Zone>, lists: seq<seq<nat>>, retired: seq<nat>, larges: map<nat, nat>,
                       pages: Runs, usage: seq<Usage>, owner: seq<Owner>)

  // ---- one zone --------------------------------------------------------------------------

  ghost predicate ZoneOk(z: Zone, zoneSize: nat) {
    && z.index < NZONES && z.size == SizeOfClass(z.index) > 0 && z.nmax >= 2
    && ZONE_HEADER <= z.base && z.base + z.nmax * z.size <= zoneSize
    && z.uindex < z.nmax && Distinct(z.free) && (forall c :: c in z.free ==> c <= z.uindex)
    && z.nfree == (z.nmax - 1 - z.uindex) + |z.free|
  }

  predicate Lives(z: Zone, k: nat) {
    k <= z.uindex && k !in z.free
  }

  /** A fresh zone gives its first chunk away. */
  function NewZone(zoneSize: nat, c: Class): Zone
    requires c.index >= 0 && c.size > 0 && Offset(c.size) <= zoneSize && ChunkCount(zoneSize, c.size) >= 1
  {
    var nmax := ChunkCount(zoneSize, c.size);
    Zone(c.index, c.size, Offset(c.size), nmax, nmax - 1, 0, [])
  }

  /** A chunk from a zone that has one: never used memory first, then the freed ones. */
  function TakeChunk(z: Zone): (Zone, nat)
    requires z.nfree > 0 && (z.uindex + 1 == z.nmax ==> z.free != [])
  {
    if z.uindex + 1 != z.nmax then (z.(nfree := z.nfree - 1, uindex := z.uindex + 1), z.uindex + 1)
    else (z.(nfree := z.nfree - 1, free := z.free[1..]), z.free[0])
  }

  function GiveChunk(z: Zone, k: nat): Zone {
    z.(nfree := z.nfree + 1, free := [k] + z.free)
  }

  lemma TakeChunkOk(z: Zone, zoneSize: nat)
    requires ZoneOk(z, zoneSize) && z.nfree > 0
    ensures z.uindex + 1 == z.nmax ==> z.free != []
    ensures var (z', k) := TakeChunk(z);
            && ZoneOk(z', zoneSize) && k < z.nmax && !Lives(z, k) && Lives(z', k)
            && forall j :: j != k ==> (Lives(z', j) <==> Lives(z, j))
  {
    if z.uindex + 1 == z.nmax {
      Tail(z.free);
    }
  }

  lemma GiveChunkOk(z: Zone, zoneSize: nat, k: nat)
    requires ZoneOk(z, zoneSize) && Lives(z, k)
    ensures ZoneOk(GiveChunk(z, k), zoneSize) && !Lives(GiveChunk(z, k), k)
    ensures forall j :: j != k ==> (Lives(GiveChunk(z, k), j) <==> Lives(z, j))
  {
  }

  /** A list without repetition of numbers below n has at most n entries, and n only if it has
      them all. */
  lemma {:induction false} Pigeonhole(s: seq<nat>, n: nat)
    requires Distinct(s) && forall c :: c in s ==> c < n
    ensures |s| <= n
    ensures |s| == n ==> forall k: nat :: k < n ==> k in s
    decreases n
  {
    assert s == [] || s[0] in s;
    if n > 0 {
      var t := Without(s, n - 1);
      DistinctWithout(s, n - 1);
      forall c ensures c in t <==> c in s && c != n - 1 {
        WithoutMembers(s, n - 1, c);
      }
      Pigeonhole(t, n - 1);
      if n - 1 in s {
        var k :| 0 <= k < |s| && s[k] == n - 1;
        WithoutAt(s, k);
      } else {
        WithoutAbsent(s, n - 1);
      }
    }
  }

  /** z_nfree counts: it never exceeds the number of chunks, and equals it exactly when no chunk
      lives. */
  lemma NoneLives(z: Zone, zoneSize: nat)
    requires ZoneOk(z, zoneSize)
    ensures z.nfree <= z.nmax
    ensures z.nfree == z.nmax <==> forall k: nat :: !Lives(z, k)
  {
    Pigeonhole(z.free, z.uindex + 1);
    if z.nfree == z.nmax {
    } else if forall k: nat :: !Lives(z, k) {
      forall k: nat | k <= z.uindex ensures k in z.free {
        assert !Lives(z, k);
      }
      AllOf(z.free, z.uindex + 1);
    }
  }

  lemma {:induction false} AllOf(s: seq<nat>, n: nat)
    requires Distinct(s) && forall k: nat :: k < n ==> k in s
    ensures |s| >= n
    decreases n
  {
    if n > 0 {
      var t := Without(s, n - 1);
      DistinctWithout(s, n - 1);
      assert n - 1 in s;
      var j :| 0 <= j < |s| && s[j] == n - 1;
      WithoutAt(s, j);
      assert |t| == |s| - 1;
      forall k: nat | k < n - 1 ensures k in t {
        WithoutMembers(s, n - 1, k);
      }
      AllOf(t, n - 1);
    }
  }

  // ---- chunk addresses -------------------------------------------------------------------

  function Addr(p: nat, z: Zone, k: nat): nat {
    p * PAGE + z.base + k * z.size
  }

  /** A chunk lies inside its zone, behind the header. */
  lemma ChunkInside(p: nat, z: Zone, zoneSize: nat, k: nat)
    requires ZoneOk(z, zoneSize) && k < z.nmax
    ensures p * PAGE + ZONE_HEADER <= Addr(p, z, k) && Addr(p, z, k) + z.size <= p * PAGE + zoneSize
  {
    MulMono(k + 1, z.nmax, z.size);
  }

  /** Two chunks of a zone do not overlap. */
  lemma ChunksApart(p: nat, z: Zone, j: nat, k: nat)
    requires j < k
    ensures Addr(p, z, j) + z.size <= Addr(p, z, k)
  {
    MulMono(j + 1, k, z.size);
  }

  // ---- the parts of the state ------------------------------------------------------------

  ghost predicate ZonesOk(zones: map<nat, Zone>, zoneSize: nat) {
    forall p :: p in zones ==> ZoneOk(zones[p], zoneSize)
  }

  /** A list of zone_array holds exactly the zones of its class that have a free chunk. */
  ghost predicate ListOk(list: seq<nat>, zones: map<nat, Zone>, i: nat) {
    && Distinct(list)
    && (forall p :: p in list ==> p in zones && zones[p].index == i && zones[p].nfree > 0)
    && (forall p :: p in zones && zones[p].index == i && zones[p].nfree > 0 ==> p in list)
  }

  ghost predicate ListsOk(lists: seq<seq<nat>>, zones: map<nat, Zone>) {
    |lists| == NZONES && forall i :: 0 <= i < NZONES ==> ListOk(lists[i], zones, i)
  }

  const THRESHOLD: nat := 2

  /** Zones on the free list are not in use. */
  ghost predicate RetiredOk(retired: seq<nat>, zones: map<nat, Zone>) {
    Distinct(retired) && forall p :: p in retired ==> p !in zones
  }

  /** A zone owns its pages, and the page table leads from each of them to the first. */
  ghost predicate ZoneAt(owner: seq<Owner>, usage: seq<Usage>, p: nat, count: nat) {
    && p + count <= |owner| == |usage|
    && forall q :: p <= q < p + count ==> owner[q] == OfZone(p) && usage[q] == Small(q - p)
  }

  ghost predicate ZonesAt(owner: seq<Owner>, usage: seq<Usage>, zones: map<nat, Zone>, retired: seq<nat>, count: nat) {
    && (forall p :: p in zones ==> ZoneAt(owner, usage, p, count))
    && (forall p :: p in retired ==> ZoneAt(owner, usage, p, count))
  }

  /** A large block owns its pages, and the page table has its length. */
  ghost predicate LargeAt(owner: seq<Owner>, usage: seq<Usage>, p: nat, count: nat) {
    && count > 0 && p + count <= |owner| == |usage| && usage[p] == Large(count)
    && forall q :: p <= q < p + count ==> owner[q] == OfLarge(p)
  }

  ghost predicate LargesAt(owner: seq<Owner>, usage: seq<Usage>, larges: map<nat, nat>) {
    forall p :: p in larges ==> LargeAt(owner, usage, p, larges[p])
  }

  /** The page list holds exactly the pages nobody owns. */
  ghost predicate PagesOk(pages: Runs, owner: seq<Owner>) {
    && PageList.Canonical(pages)
    && forall q: nat :: PageList.IsFree(pages, q) <==> q < |owner| && owner[q] == Nobody
  }

  function ZonePages(s: Slab): nat {
    s.zoneSize / PAGE
  }

  ghost predicate Base(s: Slab) {
    && IsZoneSize(s.zoneSize) && |s.owner| == |s.usage|
    && ZonesOk(s.zones, s.zoneSize)
    && ListsOk(s.lists, s.zones)
    && RetiredOk(s.retired, s.zones)
    && ZonesAt(s.owner, s.usage, s.zones, s.retired, ZonePages(s))
    && LargesAt(s.owner, s.usage, s.larges)
    && PagesOk(s.pages, s.owner)
  }

  ghost predicate Inv(s: Slab) {
    Base(s) && |s.retired| <= THRESHOLD
  }

  // ---- pages change hands ----------------------------------------------------------------

  function Claim(owner: seq<Owner>, p: nat, n: nat, o: Owner): (r: seq<Owner>)
    ensures |r| == |owner|
    ensures forall q :: 0 <= q < |owner| ==> r[q] == if p <= q < p + n then o else owner[q]
  {
    seq(|owner|, q requires 0 <= q < |owner| => if p <= q < p + n then o else owner[q])
  }

  /** memusage of a zone's pages. */
  function MarkZone(usage: seq<Usage>, p: nat, n: nat): (r: seq<Usage>)
    ensures |r| == |usage|
    ensures forall q :: 0 <= q < |usage| ==> r[q] == if p <= q < p + n then Small(q - p) else usage[q]
  {
    seq(|usage|, q requires 0 <= q < |usage| => if p <= q < p + n then Small(q - p) else usage[q])
  }

  function MarkFree(usage: seq<Usage>, p: nat, n: nat): (r: seq<Usage>)
    ensures |r| == |usage|
    ensures forall q :: 0 <= q < |usage| ==> r[q] == if p <= q < p + n then FreePage else usage[q]
  {
    seq(|usage|, q requires 0 <= q < |usage| => if p <= q < p + n then FreePage else usage[q])
  }

  /** Pages that are taken belonged to nobody. */
  lemma TakenPages(pages: Runs, owner: seq<Owner>, n: nat)
    requires PagesOk(pages, owner) && n > 0
    ensures var (rest, r) := PageList.Alloc(pages, n);
            r.Some? ==>
              && r.page + n <= |owner|
              && (forall q :: r.page <= q < r.page + n ==> owner[q] == Nobody)
              && forall o :: o != Nobody ==> PagesOk(rest, Claim(owner, r.page, n, o))
  {
    var (rest, r) := PageList.Alloc(pages, n);
    PageList.AllocTakes(pages, n);
    if r.Some? {
      assert PageList.IsFree(pages, r.page + n - 1);
    }
  }

  /** Pages that are given back belong to nobody. */
  lemma GivenPages(pages: Runs, owner: seq<Owner>, p: nat, n: nat)
    requires PagesOk(pages, owner) && n > 0 && p + n <= |owner| && forall q :: p <= q < p + n ==> owner[q] != Nobody
    ensures PagesOk(PageList.Free(pages, p, n), Claim(owner, p, n, Nobody))
  {
    PageList.FreeAdds(pages, p, n);
  }

  /** What others own is not touched. */
  lemma OtherZone(owner: seq<Owner>, usage: seq<Usage>, owner': seq<Owner>, usage': seq<Usage>, p: nat, count: nat, from: nat, n: nat)
    requires ZoneAt(owner, usage, p, count) && |owner'| == |owner| && |usage'| == |usage|
    requires forall q :: 0 <= q < |owner| && !(from <= q < from + n) ==> owner'[q] == owner[q] && usage'[q] == usage[q]
    requires forall q :: from <= q < from + n && q < |owner| ==> owner[q] != OfZone(p)
    ensures ZoneAt(owner', usage', p, count)
  {
  }

  lemma OtherLarge(owner: seq<Owner>, usage: seq<Usage>, owner': seq<Owner>, usage': seq<Usage>, p: nat, count: nat, from: nat, n: nat)
    requires LargeAt(owner, usage, p, count) && |owner'| == |owner| && |usage'| == |usage|
    requires forall q :: 0 <= q < |owner| && !(from <= q < from + n) ==> owner'[q] == owner[q] && usage'[q] == usage[q]
    requires forall q :: from <= q < from + n && q < |owner| ==> owner[q] != OfLarge(p)
    ensures LargeAt(owner', usage', p, count)
  {
    assert owner[p] == OfLarge(p);
  }

  /** All zones and large blocks but those that own the range keep what is theirs. */
  lemma OthersKeep(s: Slab, owner': seq<Owner>, usage': seq<Usage>, zones: map<nat, Zone>, retired: seq<nat>, larges: map<nat, nat>,
                   from: nat, n: nat)
    requires Base(s) && |owner'| == |s.owner| && |usage'| == |s.usage|
    requires forall q :: 0 <= q < |s.owner| && !(from <= q < from + n) ==> owner'[q] == s.owner[q] && usage'[q] == s.usage[q]
    requires forall p :: p in zones || p in retired ==> p in s.zones || p in s.retired
    requires forall p :: p in larges ==> p in s.larges && larges[p] == s.larges[p]
    requires forall p, q :: (p in zones || p in retired) && from <= q < from + n && q < |s.owner| ==> s.owner[q] != OfZone(p)
    requires forall p, q :: p in larges && from <= q < from + n && q < |s.owner| ==> s.owner[q] != OfLarge(p)
    ensures ZonesAt(owner', usage', zones, retired, ZonePages(s)) && LargesAt(owner', usage', larges)
  {
    forall p | p in zones || p in retired ensures ZoneAt(owner', usage', p, ZonePages(s)) {
      OtherZone(s.owner, s.usage, owner', usage', p, ZonePages(s), from, n);
    }
    forall p | p in larges ensures LargeAt(owner', usage', p, larges[p]) {
      OtherLarge(s.owner, s.usage, owner', usage', p, larges[p], from, n);
    }
  }
}
