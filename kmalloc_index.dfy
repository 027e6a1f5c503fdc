// kmalloc size classes (mm/slab_common.c): the small-size lookup table
// size_index, its boot-time patching for large minimum alignments, the
// choice of cache for a request, and the sizes of the kmalloc caches.
//
// The configuration is SLUB on a 4K-page arm64 kernel with MAX_ORDER 11:
// KMALLOC_SHIFT_HIGH = PAGE_SHIFT + 1 and KMALLOC_MAX_SIZE = 2^23.
// KMALLOC_MIN_SIZE is 2^minShift with 3 <= minShift <= 8, the range the
// source's BUILD_BUG_ON admits (arm64 uses minShift 7).

module KmallocIndex {
  import opened Base

  const SIZE_INDEX_LEN: nat := 24
  const KMALLOC_SHIFT_HIGH: nat := 13
  const KMALLOC_MAX_SIZE: nat := 0x80_0000

  // The static size_index table: entry e serves requests of 8e+1..8e+8
  // bytes.
  const DefaultSizeIndex: seq<int> :=
    [3, 4, 5, 5, 6, 6, 6, 6, 1, 1, 1, 1, 7, 7, 7, 7, 2, 2, 2, 2, 2, 2, 2, 2]

  // size_index_elem.
  function SizeIndexElem(bytes: nat): int
  {
    (bytes - 1) / 8
  }

  // kmalloc_info[i].size: caches 1 and 2 are the 96- and 192-byte ones,
  // every other index i >= 3 is the 2^i-byte cache.
  function InfoSize(i: int): nat
  {
    if i == 1 then 96 else if i == 2 then 192 else if i >= 3 then Pow2(i) else 0
  }

  // Where kmalloc_slab sends a request: NULL, ZERO_SIZE_PTR, or entry
  // `index` of kmalloc_caches (or of kmalloc_dma_caches for GFP_DMA).
  datatype Choice = NoCache | ZeroSizePtr | Cache(dma: bool, index: int)

  // kmalloc_slab.
  function KmallocSlab(sizeIndex: seq<int>, size: nat, dma: bool): Choice
    requires |sizeIndex| == SIZE_INDEX_LEN
  {
    if size > KMALLOC_MAX_SIZE then NoCache
    else if size == 0 then ZeroSizePtr
    else if size <= 192 then Cache(dma, sizeIndex[SizeIndexElem(size)])
    else Cache(dma, Fls(size - 1))
  }

  // Every table entry names a cache at least as large as the requests it
  // serves.
  ghost predicate Serves(sizeIndex: seq<int>)
  {
    |sizeIndex| == SIZE_INDEX_LEN &&
    forall e :: 0 <= e < SIZE_INDEX_LEN ==> InfoSize(sizeIndex[e]) >= 8 * (e + 1)
  }

  lemma DefaultServes()
    ensures Serves(DefaultSizeIndex)
  {
    assert Pow2(3) == 8 && Pow2(4) == 16 && Pow2(5) == 32 && Pow2(6) == 64 && Pow2(7) == 128;
  }

  // A request below KMALLOC_MAX_SIZE gets a cache that holds it, whenever
  // the table serves its entries.
  lemma {:induction false} KmallocSlabFits(sizeIndex: seq<int>, size: nat, dma: bool)
    requires Serves(sizeIndex)
    ensures var c := KmallocSlab(sizeIndex, size, dma);
            (c == NoCache <==> size > KMALLOC_MAX_SIZE) &&
            (c == ZeroSizePtr <==> size == 0) &&
            (c.Cache? ==> c.dma == dma && InfoSize(c.index) >= size)
  {
    if 192 < size <= KMALLOC_MAX_SIZE {
      FlsBounds(size - 1);
      assert Pow2(0) == 1 && Pow2(1) == 2 && Pow2(2) == 4;
    } else if 0 < size <= 192 {
      var e := SizeIndexElem(size);
      assert 0 <= e < SIZE_INDEX_LEN && 8 * (e + 1) >= size;
    }
  }

  // Above the table, the cache is the smallest power of two that holds
  // the request.
  lemma KmallocSlabTight(sizeIndex: seq<int>, size: nat, dma: bool)
    requires |sizeIndex| == SIZE_INDEX_LEN && 192 < size <= KMALLOC_MAX_SIZE
    ensures KmallocSlab(sizeIndex, size, dma).index >= 1
    ensures Pow2(KmallocSlab(sizeIndex, size, dma).index - 1) < size
  {
    FlsBounds(size - 1);
  }

  // The caches create_kmalloc_caches creates: the power-of-two ones from
  // KMALLOC_SHIFT_LOW up to KMALLOC_SHIFT_HIGH, the 96-byte one when
  // KMALLOC_MIN_SIZE <= 32 and the 192-byte one when it is <= 64.
  predicate CacheCreated(i: int, minShift: nat)
  {
    (minShift <= i <= KMALLOC_SHIFT_HIGH) ||
    (i == 1 && Pow2(minShift) <= 32) ||
    (i == 2 && Pow2(minShift) <= 64)
  }

  // Entry e of size_index after setup_kmalloc_cache_index_table, as the
  // three loops leave it: the later loops overwrite the first.
  function PatchedEntry(t: seq<int>, minShift: nat, e: nat): int
    requires |t| == SIZE_INDEX_LEN && e < SIZE_INDEX_LEN
  {
    var size := 8 * (e + 1);
    if Pow2(minShift) >= 128 && 136 <= size <= 192 then 8
    else if Pow2(minShift) >= 64 && 72 <= size <= 96 then 7
    else if size < Pow2(minShift) then minShift
    else t[e]
  }

  function Patched(t: seq<int>, minShift: nat): (u: seq<int>)
    requires |t| == SIZE_INDEX_LEN
    ensures |u| == SIZE_INDEX_LEN
  {
    seq(SIZE_INDEX_LEN, e requires 0 <= e < SIZE_INDEX_LEN => PatchedEntry(t, minShift, e))
  }

  // The entries the setup rewrites: those below KMALLOC_MIN_SIZE, and the
  // 72..96 and 136..192 byte ones when it is at least 64 or 128.
  lemma PatchedChanges(t: seq<int>, minShift: nat, e: nat)
    requires |t| == SIZE_INDEX_LEN && e < SIZE_INDEX_LEN
    ensures var size := 8 * (e + 1);
            (!(size < Pow2(minShift) || (Pow2(minShift) >= 64 && 72 <= size <= 96) ||
               (Pow2(minShift) >= 128 && 136 <= size <= 192))) ==> Patched(t, minShift)[e] == t[e]
    ensures 8 * (e + 1) < Pow2(minShift) && !(72 <= 8 * (e + 1) <= 192) ==> Patched(t, minShift)[e] == minShift
  {
  }

  // The patched table still serves every request it covers.
  lemma PatchedServes(t: seq<int>, minShift: nat)
    requires Serves(t) && 3 <= minShift <= 8
    ensures Serves(Patched(t, minShift))
  {
    assert Pow2(7) == 128 && Pow2(8) == 256;
    forall e | 0 <= e < SIZE_INDEX_LEN
      ensures InfoSize(Patched(t, minShift)[e]) >= 8 * (e + 1)
    {
      if 8 * (e + 1) < Pow2(minShift) {
        assert InfoSize(minShift) == Pow2(minShift);
      }
    }
  }

  // With KMALLOC_MIN_SIZE 256 the 72..96-byte entries are sent back to
  // cache 7 (128 bytes), which create_kmalloc_caches never creates since
  // it starts at KMALLOC_SHIFT_LOW = 8: kmalloc(80) finds no cache.
  lemma PatchedMissingCache()
    ensures Patched(DefaultSizeIndex, 8)[SizeIndexElem(80)] == 7
    ensures !CacheCreated(7, 8)
    ensures KmallocSlab(Patched(DefaultSizeIndex, 8), 80, false) == Cache(false, 7)
  {
    assert Pow2(8) == 256;
    assert SizeIndexElem(80) == 9;
  }

  // For every smaller KMALLOC_MIN_SIZE the as-written setup only names
  // caches that exist.
  lemma PatchedCachesExist(minShift: nat)
    requires 3 <= minShift <= 7
    ensures forall e :: 0 <= e < SIZE_INDEX_LEN ==> CacheCreated(Patched(DefaultSizeIndex, minShift)[e], minShift)
  {
    assert Pow2(3) == 8 && Pow2(4) == 16 && Pow2(5) == 32 && Pow2(6) == 64 && Pow2(7) == 128;
  }

  // The evident intent: entries below KMALLOC_MIN_SIZE end at
  // KMALLOC_SHIFT_LOW whatever the later fix-ups say, which is what
  // running the first loop last gives.
  function FixedEntry(t: seq<int>, minShift: nat, e: nat): int
    requires |t| == SIZE_INDEX_LEN && e < SIZE_INDEX_LEN
  {
    var size := 8 * (e + 1);
    if size < Pow2(minShift) then minShift
    else PatchedEntry(t, minShift, e)
  }

  function Fixed(t: seq<int>, minShift: nat): (u: seq<int>)
    requires |t| == SIZE_INDEX_LEN
    ensures |u| == SIZE_INDEX_LEN
  {
    seq(SIZE_INDEX_LEN, e requires 0 <= e < SIZE_INDEX_LEN => FixedEntry(t, minShift, e))
  }

  // With the fix, every entry names a cache that exists and is large
  // enough, for every admitted KMALLOC_MIN_SIZE.
  lemma FixedCachesExist(minShift: nat)
    requires 3 <= minShift <= 8
    ensures Serves(Fixed(DefaultSizeIndex, minShift))
    ensures forall e :: 0 <= e < SIZE_INDEX_LEN ==> CacheCreated(Fixed(DefaultSizeIndex, minShift)[e], minShift)
  {
    assert Pow2(3) == 8 && Pow2(4) == 16 && Pow2(5) == 32 && Pow2(6) == 64 && Pow2(7) == 128 && Pow2(8) == 256;
    forall e | 0 <= e < SIZE_INDEX_LEN
      ensures InfoSize(Fixed(DefaultSizeIndex, minShift)[e]) >= 8 * (e + 1)
    {
      if 8 * (e + 1) < Pow2(minShift) {
        assert InfoSize(minShift) == Pow2(minShift);
      }
    }
  }

  // The size_index array, which setup_kmalloc_cache_index_table patches
  // in place at boot.
  class SizeIndexTable {
    const minShift: nat
    const sizeIndex: array<int>

    constructor (minShift: nat)
      requires 3 <= minShift <= 8
      ensures this.minShift == minShift && sizeIndex[..] == DefaultSizeIndex && fresh(sizeIndex)
    {
      this.minShift := minShift;
      sizeIndex := new int[SIZE_INDEX_LEN](i requires 0 <= i < SIZE_INDEX_LEN => DefaultSizeIndex[i]);
      new;
      assert sizeIndex[..] == DefaultSizeIndex;
    }

    // setup_kmalloc_cache_index_table, as written.
    method Setup()
      requires sizeIndex.Length == SIZE_INDEX_LEN && 3 <= minShift <= 8
      modifies sizeIndex
      ensures sizeIndex[..] == Patched(old(sizeIndex[..]), minShift)
    {
      ghost var t := sizeIndex[..];
      var minSize := Pow2(minShift);
      assert minSize in {8, 16, 32, 64, 128, 256} by {
        assert Pow2(3) == 8 && Pow2(4) == 16 && Pow2(5) == 32 && Pow2(6) == 64 && Pow2(7) == 128 && Pow2(8) == 256;
      }
      var i := 8;
      while i < minSize
        invariant 8 <= i <= minSize && i % 8 == 0
        invariant forall e :: 0 <= e < SIZE_INDEX_LEN ==>
                    sizeIndex[e] == if 8 * (e + 1) < i then minShift else t[e]
      {
        var elem := SizeIndexElem(i);
        if elem >= SIZE_INDEX_LEN {
          break;
        }
        sizeIndex[elem] := minShift;
        i := i + 8;
      }
      assert forall e :: 0 <= e < SIZE_INDEX_LEN ==>
               sizeIndex[e] == if 8 * (e + 1) < minSize then minShift else t[e];
      if minSize >= 64 {
        i := 64 + 8;
        while i <= 96
          invariant 72 <= i <= 104 && i % 8 == 0
          invariant forall e :: 0 <= e < SIZE_INDEX_LEN ==>
                      sizeIndex[e] == if 72 <= 8 * (e + 1) < i then 7
                                      else if 8 * (e + 1) < minSize then minShift else t[e]
        {
          sizeIndex[SizeIndexElem(i)] := 7;
          i := i + 8;
        }
      }
      if minSize >= 128 {
        i := 128 + 8;
        while i <= 192
          invariant 136 <= i <= 200 && i % 8 == 0
          invariant forall e :: 0 <= e < SIZE_INDEX_LEN ==>
                      sizeIndex[e] == if 136 <= 8 * (e + 1) < i then 8
                                      else if 72 <= 8 * (e + 1) <= 96 then 7
                                      else if 8 * (e + 1) < minSize then minShift else t[e]
        {
          sizeIndex[SizeIndexElem(i)] := 8;
          i := i + 8;
        }
      }
    }
  }
}
