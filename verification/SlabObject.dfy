/**
 The slab object: rt_malloc and rt_free with their loops.
 */
module SlabObject {
  import opened NatLists
  import opened SlabSizes
  import opened SlabZones
  import opened SlabHeap
  import PageList

  /** The zone size that rt_system_heap_init chooses for a heap of limsize bytes. */
  method ChooseZoneSize(limsize: nat) returns (zoneSize: nat)
    ensures IsZoneSize(zoneSize)
    ensures zoneSize < 131072 ==> 2 * zoneSize >= limsize / 1024
    ensures zoneSize > 32768 ==> zoneSize < limsize / 1024
  {
    zoneSize := 32768;
    while zoneSize < 131072 && 2 * zoneSize < limsize / 1024
      invariant IsZoneSize(zoneSize) && (zoneSize > 32768 ==> zoneSize < limsize / 1024)
      decreases 131072 - zoneSize
    {
      zoneSize := 2 * zoneSize;
    }
  }

  lemma SearchTurn(list: seq<nat>, p: nat, k: nat)
    requires Distinct(list) && k < |list| && list[k] == p
    ensures list[..k] + list[k + 1..] == Without(list, p)
  {
    WithoutAt(list, k);
  }

  lemma InvParts(s: Slab)
    requires Inv(s)
    ensures |s.lists| == NZONES && |s.owner| == |s.usage| && |s.retired| <= THRESHOLD && IsZoneSize(s.zoneSize)
    ensures PagesOk(s.pages, s.owner) && ListsOk(s.lists, s.zones)
  {
  }

  class SlabMemory {
    const zoneSize: nat
    const pageList: PageList.Pages
    var zones: map<nat, Zone>
    var lists: seq<seq<nat>>
    var zoneFree: seq<nat>
    var usage: seq<Usage>
    ghost var s: Slab

    ghost predicate Valid()
      reads this, pageList
    {
      && Inv(s) && s.zoneSize == zoneSize && s.zones == zones && s.lists == lists && s.retired == zoneFree
      && s.usage == usage && s.pages == pageList.list
    }

    /** rt_system_heap_init for a heap of |memory| pages, of which memusage needs table. */
    constructor (zoneSize: nat, table: nat, memory: seq<Usage>)
      requires IsZoneSize(zoneSize) && 0 < table < |memory|
      ensures Valid() && s == Init(zoneSize, table, memory) && fresh(pageList)
    {
      this.zoneSize := zoneSize;
      var list := new PageList.Pages();
      list.PageFree(0, |memory|);
      var r := list.PageAlloc(table);
      pageList := list;
      zones, lists, zoneFree, usage := map[], seq(NZONES, i => []), [], memory;
      s := Init(zoneSize, table, memory);
      new;
      InitInv(zoneSize, table, memory);
    }

    /** rt_malloc */
    method Malloc(size: nat) returns (r: Answer)
      requires Valid()
      modifies this, pageList
      ensures Valid() && (s, r) == SlabHeap.Malloc(old(s), size)
    {
      if size == 0 {
        return None;
      }
      if size >= ZoneLimit(zoneSize) {
        r := TakeLarge(PagesFor(size));
        return;
      }
      SmallFacts(s, size);
      var c := ZoneIndex(size);
      if lists[c.index] != [] {
        r := TakeFrom(c.index);
      } else {
        r := TakeNew(c);
      }
    }

    method TakeLarge(n: nat) returns (r: Answer)
      requires Valid() && n > 0
      modifies this, pageList
      ensures Valid() && (s, r) == MallocLarge(old(s), n)
    {
      InvParts(s);
      MallocLargeKeeps(s, n);
      TakenPages(s.pages, s.owner, n);
      PageList.AllocTakes(s.pages, n);
      ghost var s0 := s;
      var page := pageList.PageAlloc(n);
      s := MallocLarge(s0, n).0;
      if page.None? {
        return None;
      }
      usage := usage[page.page := Large(n)];
      r := Some(page.page * PAGE);
    }

    method TakeFrom(i: nat) returns (r: Answer)
      requires Valid() && HasZone(s, i) && CanTake(s.zones[s.lists[i][0]])
      modifies this
      ensures Valid() && (s, r) == MallocFrom(old(s), i)
    {
      MallocFromKeeps(s, i);
      s := MallocFrom(s, i).0;
      var p := lists[i][0];
      var z := zones[p];
      z := z.(nfree := z.nfree - 1);
      if z.nfree == 0 {
        lists := lists[i := lists[i][1..]];
      }
      var k;
      if z.uindex + 1 != z.nmax {
        z := z.(uindex := z.uindex + 1);
        k := z.uindex;
      } else {
        k := z.free[0];
        z := z.(free := z.free[1..]);
      }
      zones := zones[p := z];
      r := Some(Addr(p, z, k));
    }

    method TakeNew(c: Class) returns (r: Answer)
      requires Valid() && Cuts(zoneSize, c) && |s.lists| == NZONES
      modifies this, pageList
      ensures Valid() && (s, r) == MallocNew(old(s), c)
    {
      hide Inv, Claim, MarkZone, PageList.Alloc, Offset, ChunkCount;
      ghost var s0 := s;
      MallocNewKeeps(s, c);
      GetZoneKeeps(s);
      InvParts(s);
      PageList.AllocTakes(s.pages, ZonePages(s));
      s := MallocNew(s0, c).0;
      var p;
      if zoneFree != [] {
        p := zoneFree[0];
        zoneFree := zoneFree[1..];
      } else {
        var page := pageList.PageAlloc(zoneSize / PAGE);
        if page.None? {
          return None;
        }
        p := page.page;
        MarkPages(p, zoneSize / PAGE);
      }
      var z := NewZone(zoneSize, c);
      zones := zones[p := z];
      lists := lists[c.index := [p] + lists[c.index]];
      r := Some(Addr(p, z, 0));
    }

    /** The loop that enters a new zone into memusage. */
    method MarkPages(p: nat, n: nat)
      requires p + n <= |usage|
      modifies this`usage
      ensures usage == MarkZone(old(usage), p, n)
    {
      for off := 0 to n
        invariant |usage| == |old(usage)|
        invariant forall q :: 0 <= q < |usage| ==> usage[q] == if p <= q < p + off then Small(q - p) else old(usage)[q]
      {
        usage := usage[p + off := Small(off)];
      }
    }

    /** The loop that takes a zone out of memusage. */
    method ClearPages(p: nat, n: nat)
      requires p + n <= |usage|
      modifies this`usage
      ensures usage == MarkFree(old(usage), p, n)
    {
      for i := 0 to n
        invariant |usage| == |old(usage)|
        invariant forall q :: 0 <= q < |usage| ==> usage[q] == if p <= q < p + i then FreePage else old(usage)[q]
      {
        usage := usage[p + i := FreePage];
      }
    }

    /** rt_free of a pointer to the live item x. */
    method Free(ptr: nat, ghost x: Item)
      requires Valid() && IsLive(s, x) && ptr == StartOf(s, x)
      modifies this, pageList
      ensures Valid() && s == Release(old(s), x)
    {
      LookupFinds(s, x);
      LeadsHome(s, x, ptr) by {
        LiveAtHome(s, x);
      }
      var kup := usage[ptr / PAGE];
      if kup.Large? {
        FreePages(ptr / PAGE, kup.count);
      } else {
        var p := ptr / PAGE - kup.off;
        ReleaseChunk(p, (ptr - p * PAGE - zones[p].base) / zones[p].size);
      }
    }

    method FreePages(p: nat, n: nat)
      requires Valid() && p in s.larges && n == s.larges[p]
      modifies this, pageList
      ensures p < |old(s).usage| && Valid() && s == FreeLarge(old(s), p)
    {
      FreeLargeKeeps(s, p);
      LiveAtHome(s, Pages(p));
      s := FreeLarge(s, p);
      usage := usage[p := Large(0)];
      pageList.PageFree(p, n);
    }

    method ReleaseChunk(p: nat, k: nat)
      requires Valid() && p in zones && Lives(zones[p], k)
      modifies this, pageList
      ensures old(s).zones[p].index < |old(s).lists| && Valid() && s == FreeChunk(old(s), p, k)
    {
      GiveBackKeeps(s, p, k);
      var z := zones[p];
      var i := z.index;
      if z.nfree == 0 {
        lists := lists[i := [p] + lists[i]];
      }
      z := z.(free := [k] + z.free, nfree := z.nfree + 1);
      zones := zones[p := z];
      s := GiveBack(s, p, k);
      ListFacts(s, p);
      if z.nfree == z.nmax && (lists[i][|lists[i]| - 1] != p || lists[i][0] != p) {
        RetireZone(p, i);
      }
    }

    /** Move a zone from its list to zone_free, and the newest there to the page allocator when
        there are too many. */
    method RetireZone(p: nat, i: nat)
      requires Valid() && p in zones && i == zones[p].index < |s.lists| && p in lists[i]
      modifies this, pageList
      ensures var s1 := Retire(old(s), p);
              Base(s) && s == (if |s1.retired| > THRESHOLD then Unload(s1) else s1)
      ensures |s.retired| <= THRESHOLD && Valid()
    {
      RetireKeeps(s, p);
      InvParts(s);
      var k := FindZone(p, i);
      lists := lists[i := lists[i][..k] + lists[i][k + 1..]];
      zones := zones - {p};
      zoneFree := [p] + zoneFree;
      s := Retire(s, p);
      if |zoneFree| > THRESHOLD {
        UnloadKeeps(s);
        UnloadPages(s);
        s := Unload(s);
        var q := zoneFree[0];
        zoneFree := zoneFree[1..];
        ClearPages(q, zoneSize / PAGE);
        pageList.PageFree(q, zoneSize / PAGE);
      }
      InvIs(s);
    }

    /** The loop that finds a zone in its list. */
    method FindZone(p: nat, i: nat) returns (k: nat)
      requires i < |lists| && p in lists[i] && Distinct(lists[i])
      ensures k < |lists[i]| && lists[i][k] == p
      ensures lists[i][..k] + lists[i][k + 1..] == Without(lists[i], p)
    {
      k := 0;
      while lists[i][k] != p
        invariant k < |lists[i]| && p in lists[i][k..]
        decreases |lists[i]| - k
      {
        k := k + 1;
      }
      SearchTurn(lists[i], p, k);
    }
  }

  lemma InvIs(s: Slab)
    requires Base(s) && |s.retired| <= THRESHOLD
    ensures Inv(s)
  {
  }

  lemma UnloadPages(s: Slab)
    requires Base(s) && s.retired != []
    ensures s.retired[0] + ZonePages(s) <= |s.usage| && ZonePages(s) > 0
  {
    assert s.retired[0] in s.retired;
  }

  /** The list of a zone with a free chunk, and when the zone is alone there. */
  lemma ListFacts(s: Slab, p: nat)
    requires Inv(s) && p in s.zones && s.zones[p].nfree > 0
    ensures var i := s.zones[p].index;
            && i < |s.lists| && p in s.lists[i] && Distinct(s.lists[i]) && |s.lists[i]| > 0
            && ((s.lists[i][|s.lists[i]| - 1] != p || s.lists[i][0] != p) <==> |s.lists[i]| > 1)
  {
  }
}
