/**
 Size classes of the slab allocator: zoneindex, and how a zone is cut into chunks.
 */
module SlabSizes {
  import opened Bits

  // ---- arithmetic and masks --------------------------------------------------------------

  lemma DivBounds(x: nat, u: nat)
    requires u > 0
    ensures x / u * u <= x < x / u * u + u
  {
  }

  lemma MulMono(a: nat, b: nat, u: nat)
    requires a <= b
    ensures a * u <= b * u
  {
  }

  lemma Twice(q: nat, p: nat)
    ensures 2 * (q * p) == q * (2 * p)
  {
  }

  /** The mask v & ~(2^k - 1) is the multiple of 2^k at or below v. */
  lemma {:induction false} ClearLow(v: nat, k: nat) returns (q: nat)
    ensures AndNot(v, Pow2(k) - 1) == q * Pow2(k)
    ensures q * Pow2(k) <= v < q * Pow2(k) + Pow2(k)
    decreases k
  {
    if v == 0 {
      q := 0;
    } else if k == 0 {
      q := v;
    } else {
      var p := Pow2(k - 1);
      q := ClearLow(v / 2, k - 1);
      Twice(q, p);
    }
  }

  /** The test (s | (s - 1)) + 1 == s << 1 finds the powers of two. */
  predicate PowerTest(s: nat)
    requires s > 0
  {
    Or(s, s - 1) + 1 == 2 * s
  }

  lemma {:induction false} OrSelf(v: nat)
    ensures Or(v, v) == v
  {
    if v != 0 {
      OrSelf(v / 2);
    }
  }

  lemma {:induction false} PowerTestIs(s: nat)
    requires s > 0
    ensures PowerTest(s) <==> exists k: nat :: s == Pow2(k)
    decreases s
  {
    var t := s / 2;
    if s == 1 {
      assert Pow2(0) == 1;
    } else if s % 2 == 0 {
      PowerTestIs(t);
      assert (s - 1) / 2 == t - 1 && (s - 1) % 2 == 1;
      if k: nat :| t == Pow2(k) {
        assert s == Pow2(k + 1);
      }
      if k: nat :| s == Pow2(k) {
        assert k > 0 && t == Pow2(k - 1);
      }
    } else {
      OrSelf(t);
    }
  }

  // ---- zoneindex -------------------------------------------------------------------------

  datatype Class = Class(index: int, size: nat)

  /** (n + u - 1) & ~(u - 1) for u = 2^k. */
  function RoundUp(n: nat, u: nat): nat
    requires u > 0
  {
    AndNot(n + u - 1, u - 1)
  }

  /** zoneindex: the class of a request of n bytes and its chunk size. */
  function ZoneIndex(n: nat): Class {
    if n < 128 then var s := RoundUp(n, 8); Class(s / 8 - 1, s)
    else if n < 256 then var s := RoundUp(n, 16); Class(s / 16 + 7, s)
    else if n < 512 then var s := RoundUp(n, 32); Class(s / 32 + 15, s)
    else if n < 1024 then var s := RoundUp(n, 64); Class(s / 64 + 23, s)
    else if n < 2048 then var s := RoundUp(n, 128); Class(s / 128 + 31, s)
    else if n < 4096 then var s := RoundUp(n, 256); Class(s / 256 + 39, s)
    else if n < 8192 then var s := RoundUp(n, 512); Class(s / 512 + 47, s)
    else if n < 16384 then var s := RoundUp(n, 1024); Class(s / 1024 + 55, s)
    else Class(0, n)
  }

  lemma QuotientUnique(q: nat, p: nat, v: nat, u: nat)
    requires q * u <= v < q * u + u && p * u <= v < p * u + u
    ensures q == p
  {
    if q < p {
      MulMono(q + 1, p, u);
    } else if p < q {
      MulMono(p + 1, q, u);
    }
  }

  /** The mask rounds up to the next multiple. */
  lemma MaskIsQuotient(n: nat, k: nat)
    ensures RoundUp(n, Pow2(k)) == (n + Pow2(k) - 1) / Pow2(k) * Pow2(k)
  {
    hide AndNot, Pow2;
    var v, u := n + Pow2(k) - 1, Pow2(k);
    var q := ClearLow(v, k);
    DivBounds(v, u);
    QuotientUnique(q, v / u, v, u);
  }

  lemma Powers()
    ensures Pow2(3) == 8 && Pow2(4) == 16 && Pow2(5) == 32 && Pow2(6) == 64
    ensures Pow2(7) == 128 && Pow2(8) == 256 && Pow2(9) == 512 && Pow2(10) == 1024
  {
    assert Pow2(6) == 64;
  }

  const NZONES: nat := 72

  /** The chunk size of each class. */
  function SizeOfClass(i: nat): nat {
    if i < 16 then 8 * (i + 1)
    else if i < 24 then 16 * (i - 7)
    else if i < 32 then 32 * (i - 15)
    else if i < 40 then 64 * (i - 23)
    else if i < 48 then 128 * (i - 31)
    else if i < 56 then 256 * (i - 39)
    else if i < 64 then 512 * (i - 47)
    else 1024 * (i - 55)
  }

  /** c is the smallest class whose chunks hold n bytes. */
  predicate IsLeast(n: nat, c: Class) {
    && 0 <= c.index < NZONES && c.size == SizeOfClass(c.index)
    && n <= c.size && (c.index > 0 ==> SizeOfClass(c.index - 1) < n)
  }

  lemma Range8(n: nat)
    requires 1 <= n < 128
    ensures IsLeast(n, ZoneIndex(n))
  {
    hide RoundUp, Pow2;
    Powers();
    MaskIsQuotient(n, 3);
  }

  lemma Range16(n: nat)
    requires 128 <= n < 256
    ensures IsLeast(n, ZoneIndex(n))
  {
    hide RoundUp, Pow2;
    Powers();
    MaskIsQuotient(n, 4);
  }

  lemma Range32(n: nat)
    requires 256 <= n < 512
    ensures IsLeast(n, ZoneIndex(n))
  {
    hide RoundUp, Pow2;
    Powers();
    MaskIsQuotient(n, 5);
  }

  lemma Range64(n: nat)
    requires 512 <= n < 1024
    ensures IsLeast(n, ZoneIndex(n))
  {
    hide RoundUp, Pow2;
    Powers();
    MaskIsQuotient(n, 6);
  }

  lemma Range128(n: nat)
    requires 1024 <= n < 2048
    ensures IsLeast(n, ZoneIndex(n))
  {
    hide RoundUp, Pow2;
    Powers();
    MaskIsQuotient(n, 7);
  }

  lemma Range256(n: nat)
    requires 2048 <= n < 4096
    ensures IsLeast(n, ZoneIndex(n))
  {
    hide RoundUp, Pow2;
    Powers();
    MaskIsQuotient(n, 8);
  }

  lemma Range512(n: nat)
    requires 4096 <= n < 8192
    ensures IsLeast(n, ZoneIndex(n))
  {
    hide RoundUp, Pow2;
    Powers();
    MaskIsQuotient(n, 9);
  }

  lemma Range1024(n: nat)
    requires 8192 <= n < 16384
    ensures IsLeast(n, ZoneIndex(n))
  {
    hide RoundUp, Pow2;
    Powers();
    MaskIsQuotient(n, 10);
  }

  /** zoneindex picks the smallest class that is large enough, also where two ranges meet. */
  lemma ZoneIndexIsLeast(n: nat)
    requires 0 < n < 16384
    ensures IsLeast(n, ZoneIndex(n))
  {
    if n < 128 {
      Range8(n);
    } else if n < 256 {
      Range16(n);
    } else if n < 512 {
      Range32(n);
    } else if n < 1024 {
      Range64(n);
    } else if n < 2048 {
      Range128(n);
    } else if n < 4096 {
      Range256(n);
    } else if n < 8192 {
      Range512(n);
    } else {
      Range1024(n);
    }
  }

  lemma {:induction false} SizesGrow(i: nat, j: nat)
    requires i < j
    ensures SizeOfClass(i) < SizeOfClass(j)
    decreases j - i
  {
    if i + 1 < j {
      SizesGrow(i, j - 1);
    }
  }

  /** Equal index means equal chunk size, and larger requests never get a smaller class. */
  lemma ZoneIndexMonotone(n: nat, m: nat)
    requires 0 < n <= m < 16384
    ensures ZoneIndex(n).index <= ZoneIndex(m).index && ZoneIndex(n).size <= ZoneIndex(m).size
    ensures ZoneIndex(n).index == ZoneIndex(m).index <==> ZoneIndex(n).size == ZoneIndex(m).size
  {
    hide ZoneIndex, SizeOfClass;
    ZoneIndexIsLeast(n);
    ZoneIndexIsLeast(m);
    var i, j := ZoneIndex(n).index, ZoneIndex(m).index;
    if j < i {
      if j < i - 1 {
        SizesGrow(j, i - 1);
      }
    } else if i < j {
      SizesGrow(i, j);
    }
  }

  /** Chunk sizes are between the request and the limit of the zone. */
  lemma ZoneIndexBounds(n: nat, limit: nat)
    requires 0 < n < limit && limit in {8192, 16384}
    ensures var c := ZoneIndex(n); 0 <= c.index < NZONES && n <= c.size <= limit
  {
    hide ZoneIndex;
    ZoneIndexIsLeast(n);
  }

  // ---- the cutting of a zone -------------------------------------------------------------

  /** sizeof(slab_zone) on a 32-bit target. */
  const ZONE_HEADER: nat := 36

  /** Where the chunks of a zone begin. */
  function Offset(size: nat): nat
    requires size > 0
  {
    if PowerTest(size) then RoundUp(ZONE_HEADER, size) else RoundUp(ZONE_HEADER, 8)
  }

  /** A power-of-two chunk size makes the offset a multiple of it; otherwise it is 40. */
  lemma OffsetIs(size: nat) returns (q: nat)
    requires size > 0
    ensures PowerTest(size) ==> Offset(size) == q * size && ZONE_HEADER <= Offset(size) < ZONE_HEADER + size
    ensures !PowerTest(size) ==> Offset(size) == 40
  {
    q := 0;
    if PowerTest(size) {
      PowerTestIs(size);
      var k: nat :| size == Pow2(k);
      q := ClearLow(ZONE_HEADER + size - 1, k);
    } else {
      var r := ClearLow(ZONE_HEADER + 7, 3);
    }
  }

  /** Zone sizes that rt_system_heap_init chooses from, and their limits. */
  predicate IsZoneSize(z: nat) {
    z == 32768 || z == 65536 || z == 131072
  }

  function ZoneLimit(z: nat): nat {
    if z / 4 > 16384 then 16384 else z / 4
  }

  function ChunkCount(z: nat, size: nat): nat
    requires size > 0 && Offset(size) <= z
  {
    (z - Offset(size)) / size
  }

  /** Every zone holds at least two chunks, and they fit. */
  lemma ZoneHoldsTwo(z: nat, n: nat)
    requires IsZoneSize(z) && 0 < n < ZoneLimit(z)
    ensures var size := ZoneIndex(n).size;
            size > 0 && Offset(size) <= z && ChunkCount(z, size) >= 2 && Offset(size) + ChunkCount(z, size) * size <= z
  {
    hide ZoneIndex, Offset, PowerTest;
    var size := ZoneIndex(n).size;
    ZoneIndexBounds(n, ZoneLimit(z));
    var q := OffsetIs(size);
    var room := z - Offset(size);
    AtLeastTwo(room, size);
  }

  lemma AtLeastTwo(room: nat, size: nat)
    requires size > 0 && room >= 2 * size
    ensures room / size >= 2 && room / size * size <= room
  {
  }

  /** Small power-of-two chunks are aligned to their size: a zone starts on a page. */
  lemma PowerAligned(page: nat, size: nat, k: nat, j: nat)
    requires size == Pow2(j) && j <= 12
    ensures exists m: nat :: page * 4096 + Offset(size) + k * size == m * size
  {
    PowerTestIs(size);
    var q := OffsetIs(size);
    var b := PageIsMultiple(j);
    Distribute(page, b, q, k, size);
  }

  lemma Distribute(a: nat, b: nat, q: nat, k: nat, u: nat)
    ensures (a * b + q + k) * u == a * (b * u) + q * u + k * u
  {
  }

  lemma PageIsMultiple(j: nat) returns (b: nat)
    requires j <= 12
    ensures 4096 == b * Pow2(j)
  {
    b := Pow2(12 - j);
    PowAdds(12 - j, j);
    assert Pow2(12) == 4096;
  }
}
