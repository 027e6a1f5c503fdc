// Boot-time memory layout of arm64 (arch/arm64/mm/init.c): the top of
// ZONE_DMA, the zone sizes and holes handed to the page allocator, the
// "mem=" limit, the base of the linear map and the page-frame bounds, and
// the freeing of memmap entries no memory bank needs.
//
// The memblock allocator is not part of this model: the DRAM bounds and
// the list of memory banks it reports are parameters, and so is the
// address of each pfn's struct page. The configuration is 4K pages,
// 39-bit virtual addresses, CONFIG_ZONE_DMA and CONFIG_SPARSEMEM without
// CONFIG_SPARSEMEM_VMEMMAP.

module Arm64Init {
  import opened Base

  const SZ_4G: nat := 0x1_0000_0000
  // -(s64)PAGE_OFFSET with VA_BITS = 39: half the kernel address space.
  const LINEAR_REGION_SIZE: nat := 0x40_0000_0000
  // PUD_SIZE with 4K pages.
  const ARM64_MEMSTART_ALIGN: nat := 0x4000_0000
  // 1 << (SECTION_SIZE_BITS - PAGE_SHIFT), SECTION_SIZE_BITS = 30.
  const PAGES_PER_SECTION: nat := 0x4_0000
  // 1 << (MAX_ORDER - 1), MAX_ORDER = 11.
  const MAX_ORDER_NR_PAGES: nat := 1024
  // sizeof(struct page) on arm64.
  const STRUCT_PAGE_SIZE: nat := 64

  const ZONE_DMA: nat := 0
  const ZONE_NORMAL: nat := 1
  // ZONE_DMA, ZONE_NORMAL and ZONE_MOVABLE.
  const MAX_NR_ZONES: nat := 3

  // u64 subtraction.
  function Sub64(a: int, b: int): nat
  {
    (a - b) % WORD
  }

  // PFN_UP and PFN_DOWN.
  function PfnUp(x: nat): nat
  {
    (x + PAGE_SIZE - 1) / PAGE_SIZE
  }

  function PfnDown(x: nat): nat
  {
    x / PAGE_SIZE
  }

  // ---------------------------------------------------------------------
  // max_zone_dma_phys

  // The top of ZONE_DMA: 4 GiB above the start of DRAM with its low 32
  // bits cleared (the mask GENMASK_ULL(63, 32)), or the end of DRAM if
  // that comes first; the sum wraps in 64 bits.
  function MaxZoneDmaPhys(dramStart: nat, dramEnd: nat): (r: nat)
    ensures r <= dramEnd
  {
    var offset := dramStart - dramStart % SZ_4G;
    Min((offset + SZ_4G) % WORD, dramEnd)
  }

  // Unless the sum wraps, ZONE_DMA ends inside the 4 GiB-aligned window
  // holding the start of DRAM, after that start when DRAM is not empty,
  // and at the end of DRAM when DRAM lies within that window.
  lemma DmaZoneWindow(dramStart: nat, dramEnd: nat)
    requires dramStart < WORD - SZ_4G
    ensures dramStart - dramStart % SZ_4G <= dramStart
    ensures MaxZoneDmaPhys(dramStart, dramEnd) <= dramStart - dramStart % SZ_4G + SZ_4G
    ensures dramStart < dramEnd ==> dramStart < MaxZoneDmaPhys(dramStart, dramEnd)
    ensures (dramStart - dramStart % SZ_4G) % SZ_4G == 0
    ensures dramEnd <= dramStart - dramStart % SZ_4G + SZ_4G <==> MaxZoneDmaPhys(dramStart, dramEnd) == dramEnd
  {
    var offset := dramStart - dramStart % SZ_4G;
    assert (offset + SZ_4G) % WORD == offset + SZ_4G;
    DivMod(offset, dramStart / SZ_4G, SZ_4G, 0);
  }

  // ---------------------------------------------------------------------
  // zone_sizes_init

  // A memory bank as memblock reports it, in bytes.
  datatype Region = Region(base: nat, size: nat)

  // memblock_region_memory_base_pfn and memblock_region_memory_end_pfn:
  // the whole pages a bank holds.
  function BasePfn(r: Region): nat
  {
    PfnUp(r.base)
  }

  function EndPfn(r: Region): nat
  {
    PfnDown(r.base + r.size)
  }

  // What one bank takes from the ZONE_DMA hole: nothing if it starts at
  // or above max or above the DMA limit, else its pages below max_dma.
  function DmaPart(r: Region, max: nat, maxDma: nat): int
  {
    if BasePfn(r) >= max then 0
    else if BasePfn(r) < maxDma then Min(EndPfn(r), maxDma) - BasePfn(r)
    else 0
  }

  // What one bank takes from the ZONE_NORMAL hole.
  function NormalPart(r: Region, max: nat, maxDma: nat): int
  {
    if BasePfn(r) >= max then 0
    else if EndPfn(r) > maxDma then Min(EndPfn(r), max) - Max(BasePfn(r), maxDma)
    else 0
  }

  function DmaCovered(rs: seq<Region>, max: nat, maxDma: nat): int
  {
    if rs == [] then 0 else DmaCovered(rs[..|rs| - 1], max, maxDma) + DmaPart(rs[|rs| - 1], max, maxDma)
  }

  function NormalCovered(rs: seq<Region>, max: nat, maxDma: nat): int
  {
    if rs == [] then 0 else NormalCovered(rs[..|rs| - 1], max, maxDma) + NormalPart(rs[|rs| - 1], max, maxDma)
  }

  lemma ModSub(a: int, b: int)
    ensures (a % WORD - b % WORD) % WORD == (a - b) % WORD
  {
    DivMod(a, a / WORD, WORD, a % WORD);
    DivMod(b, b / WORD, WORD, b % WORD);
    var d := a % WORD - b % WORD;
    var q := a / WORD - b / WORD;
    assert a - b == q * WORD + d;
    if d >= 0 {
      DivMod(a - b, q, WORD, d);
      DivMod(d, 0, WORD, d);
    } else {
      DivMod(a - b, q - 1, WORD, d + WORD);
      DivMod(d, -1, WORD, d + WORD);
    }
  }

  // Subtracting in u64 one bank after the other is subtracting their sum.
  lemma HoleStep(size: int, covered: int, x: int, y: int)
    ensures Sub64(Sub64(size, covered), Sub64(x, y)) == Sub64(size, covered + (x - y))
  {
    ModSub(size - covered, x - y);
  }

  lemma CoveredSnoc(rs: seq<Region>, i: nat, max: nat, maxDma: nat)
    requires i < |rs|
    ensures DmaCovered(rs[..i + 1], max, maxDma) == DmaCovered(rs[..i], max, maxDma) + DmaPart(rs[i], max, maxDma)
    ensures NormalCovered(rs[..i + 1], max, maxDma) == NormalCovered(rs[..i], max, maxDma) + NormalPart(rs[i], max, maxDma)
  {
    assert rs[..i + 1][..i] == rs[..i];
  }

  // One pass of zone_sizes_init's loop over the memblock banks: take
  // bank i's pages out of the DMA and normal holes.
  method HoleBank(holes: array<nat>, dmaSize: nat, normalSize: nat, regions: seq<Region>, i: nat, max: nat, maxDma: nat)
    requires holes.Length == MAX_NR_ZONES && i < |regions|
    requires holes[ZONE_DMA] == Sub64(dmaSize, DmaCovered(regions[..i], max, maxDma))
    requires holes[ZONE_NORMAL] == Sub64(normalSize, NormalCovered(regions[..i], max, maxDma))
    modifies holes
    ensures holes[ZONE_DMA] == Sub64(dmaSize, DmaCovered(regions[..i + 1], max, maxDma))
    ensures holes[ZONE_NORMAL] == Sub64(normalSize, NormalCovered(regions[..i + 1], max, maxDma))
    ensures holes[2] == old(holes[2])
  {
    CoveredSnoc(regions, i, max, maxDma);
    var start := BasePfn(regions[i]);
    var end := EndPfn(regions[i]);
    if start < max {
      if start < maxDma {
        var dmaEnd := Min(end, maxDma);
        HoleStep(dmaSize, DmaCovered(regions[..i], max, maxDma), dmaEnd, start);
        holes[ZONE_DMA] := Sub64(holes[ZONE_DMA], Sub64(dmaEnd, start));
      }
      if end > maxDma {
        var normalEnd := Min(end, max);
        var normalStart := Max(start, maxDma);
        HoleStep(normalSize, NormalCovered(regions[..i], max, maxDma), normalEnd, normalStart);
        holes[ZONE_NORMAL] := Sub64(holes[ZONE_NORMAL], Sub64(normalEnd, normalStart));
      }
    }
  }

  // zone_sizes_init: the zone sizes and holes passed to
  // free_area_init_node, for the pfn bounds min and max of DRAM, the DMA
  // limit dmaLimit (arm64_dma_phys_limit) and the memory banks. Every
  // subtraction is the source's unsigned one.
  method ZoneSizesInit(min: nat, max: nat, dmaLimit: nat, regions: seq<Region>)
    returns (zoneSize: seq<nat>, zholeSize: seq<nat>)
    ensures zoneSize == [Sub64(PfnDown(dmaLimit), min), Sub64(max, PfnDown(dmaLimit)), 0]
    ensures zholeSize == [Sub64(zoneSize[ZONE_DMA], DmaCovered(regions, max, PfnDown(dmaLimit))),
                          Sub64(zoneSize[ZONE_NORMAL], NormalCovered(regions, max, PfnDown(dmaLimit))),
                          0]
  {
    var sizes := new nat[MAX_NR_ZONES](_ => 0);
    var maxDma := PfnDown(dmaLimit);
    sizes[ZONE_DMA] := Sub64(maxDma, min);
    sizes[ZONE_NORMAL] := Sub64(max, maxDma);
    var holes := new nat[MAX_NR_ZONES](i reads sizes requires 0 <= i < MAX_NR_ZONES => sizes[i]);
    var i := 0;
    while i < |regions|
      invariant i <= |regions|
      invariant holes[ZONE_DMA] == Sub64(sizes[ZONE_DMA], DmaCovered(regions[..i], max, maxDma))
      invariant holes[ZONE_NORMAL] == Sub64(sizes[ZONE_NORMAL], NormalCovered(regions[..i], max, maxDma))
      invariant holes[2] == 0
      modifies holes
    {
      HoleBank(holes, sizes[ZONE_DMA], sizes[ZONE_NORMAL], regions, i, max, maxDma);
      i := i + 1;
    }
    assert regions[..i] == regions;
    zoneSize := sizes[..];
    zholeSize := holes[..];
  }

  // The pages of [s, e) that lie in [lo, hi).
  function Overlap(s: int, e: int, lo: int, hi: int): nat
  {
    if Min(e, hi) > Max(s, lo) then Min(e, hi) - Max(s, lo) else 0
  }

  function Covered(rs: seq<Region>, lo: int, hi: int): nat
  {
    if rs == [] then 0 else Covered(rs[..|rs| - 1], lo, hi) + Overlap(BasePfn(rs[|rs| - 1]), EndPfn(rs[|rs| - 1]), lo, hi)
  }

  // The banks memblock keeps: each holds whole pages from min on, and
  // they come in address order without overlapping.
  predicate Banks(rs: seq<Region>, min: nat)
  {
    (forall i :: 0 <= i < |rs| ==> min <= BasePfn(rs[i]) <= EndPfn(rs[i])) &&
    (forall i, j :: 0 <= i < j < |rs| ==> rs[i].base + rs[i].size <= rs[j].base)
  }

  // For banks, the hole arithmetic of one bank is its overlap with each
  // zone.
  lemma PartsAreOverlaps(r: Region, min: nat, max: nat, maxDma: nat)
    requires min <= BasePfn(r) <= EndPfn(r) && min <= maxDma <= max
    ensures DmaPart(r, max, maxDma) == Overlap(BasePfn(r), EndPfn(r), min, maxDma)
    ensures NormalPart(r, max, maxDma) == Overlap(BasePfn(r), EndPfn(r), maxDma, max)
    ensures Overlap(BasePfn(r), EndPfn(r), min, maxDma) + Overlap(BasePfn(r), EndPfn(r), maxDma, max) ==
            Overlap(BasePfn(r), EndPfn(r), min, max)
  {
  }

  lemma {:induction false} CoveredByParts(rs: seq<Region>, min: nat, max: nat, maxDma: nat)
    requires Banks(rs, min) && min <= maxDma <= max
    ensures DmaCovered(rs, max, maxDma) == Covered(rs, min, maxDma)
    ensures NormalCovered(rs, max, maxDma) == Covered(rs, maxDma, max)
    ensures Covered(rs, min, maxDma) + Covered(rs, maxDma, max) == Covered(rs, min, max)
  {
    if rs != [] {
      var p := rs[..|rs| - 1];
      assert Banks(p, min);
      CoveredByParts(p, min, max, maxDma);
      PartsAreOverlaps(rs[|rs| - 1], min, max, maxDma);
    }
  }

  lemma PfnMono(a: nat, b: nat)
    requires a <= b
    ensures PfnDown(a) <= PfnDown(b) && PfnUp(a) <= PfnUp(b) && PfnDown(a) <= PfnUp(a)
  {
  }

  // Banks in order cover at most the pages of [lo, hi), and none past
  // the end of the last one.
  lemma {:induction false} CoveredBound(rs: seq<Region>, min: nat, lo: int, hi: int)
    requires Banks(rs, min) && rs != [] && lo <= hi
    ensures Covered(rs, lo, hi) <= Max(lo, Min(EndPfn(rs[|rs| - 1]), hi)) - lo
  {
    var r := rs[|rs| - 1];
    var p := rs[..|rs| - 1];
    if p != [] {
      assert Banks(p, min);
      CoveredBound(p, min, lo, hi);
      var q := p[|p| - 1];
      assert q.base + q.size <= r.base;
      PfnMono(q.base + q.size, r.base);
    }
  }

  // With banks as memblock keeps them and the DMA limit inside DRAM, no
  // unsigned subtraction wraps: each hole is its zone's size less the
  // pages banks hold in it, and together the holes are the pages of
  // [min, max) no bank holds.
  lemma ZoneHolesExact(min: nat, max: nat, dmaLimit: nat, regions: seq<Region>)
    requires Banks(regions, min) && min <= PfnDown(dmaLimit) <= max < WORD
    ensures Sub64(Sub64(PfnDown(dmaLimit), min), DmaCovered(regions, max, PfnDown(dmaLimit))) ==
            PfnDown(dmaLimit) - min - Covered(regions, min, PfnDown(dmaLimit))
    ensures Sub64(Sub64(max, PfnDown(dmaLimit)), NormalCovered(regions, max, PfnDown(dmaLimit))) ==
            max - PfnDown(dmaLimit) - Covered(regions, PfnDown(dmaLimit), max)
    ensures Sub64(Sub64(PfnDown(dmaLimit), min), DmaCovered(regions, max, PfnDown(dmaLimit))) +
            Sub64(Sub64(max, PfnDown(dmaLimit)), NormalCovered(regions, max, PfnDown(dmaLimit))) ==
            max - min - Covered(regions, min, max)
  {
    var maxDma := PfnDown(dmaLimit);
    CoveredByParts(regions, min, max, maxDma);
    var dma := Covered(regions, min, maxDma);
    var normal := Covered(regions, maxDma, max);
    if regions != [] {
      CoveredBound(regions, min, min, maxDma);
      CoveredBound(regions, min, maxDma, max);
    }
    HoleExact(min, maxDma, dma);
    HoleExact(maxDma, max, normal);
  }

  // A zone's hole, when what the banks hold in it fits: no subtraction
  // wraps.
  lemma HoleExact(lo: nat, hi: nat, covered: nat)
    requires lo <= hi < WORD && covered <= hi - lo
    ensures Sub64(Sub64(hi, lo), covered) == hi - lo - covered
  {
    Sub64Exact(hi, lo);
    Sub64Exact(hi - lo, covered);
  }

  lemma Sub64Exact(a: int, b: int)
    requires 0 <= a - b < WORD
    ensures Sub64(a, b) == a - b
  {
    DivMod(a - b, 0, WORD, a - b);
  }

  // ---------------------------------------------------------------------
  // arm64_memblock_init: the base of the linear map

  // memstart_addr: the start of DRAM rounded down to
  // ARM64_MEMSTART_ALIGN, then, under KASLR with a non-zero seed and
  // room to spare, moved down by a seed-scaled number of alignment
  // units. dramStart and dramEnd are the DRAM bounds memblock reports
  // after the ranges the linear map cannot cover are removed.
  function MemstartAddr(dramStart: nat, dramEnd: nat, seed: nat, randomize: bool): int
    requires seed < 0x1_0000
  {
    var base := AlignDown(dramStart, ARM64_MEMSTART_ALIGN);
    var range := Sub64(LINEAR_REGION_SIZE, Sub64(dramEnd, dramStart));
    if randomize && seed > 0 && range >= ARM64_MEMSTART_ALIGN then
      base - ARM64_MEMSTART_ALIGN * (((range / ARM64_MEMSTART_ALIGN + 1) * seed) / 0x1_0000)
    else base
  }

  lemma ScaledBelow(q: nat, seed: nat)
    requires seed < 0x1_0000
    ensures ((q + 1) * seed) / 0x1_0000 <= q
  {
    assert (q + 1) * seed < (q + 1) * 0x1_0000;
  }

  // memstart_addr is aligned to ARM64_MEMSTART_ALIGN and at most the
  // start of DRAM; without randomisation it is the start rounded down,
  // and randomisation moves it down by whole alignment units and by no
  // more than the room the linear region has beyond the span of DRAM.
  lemma MemstartAligned(dramStart: nat, dramEnd: nat, seed: nat, randomize: bool)
    requires seed < 0x1_0000
    ensures MemstartAddr(dramStart, dramEnd, seed, randomize) % ARM64_MEMSTART_ALIGN == 0
    ensures MemstartAddr(dramStart, dramEnd, seed, randomize) <= AlignDown(dramStart, ARM64_MEMSTART_ALIGN) <= dramStart
    ensures !randomize || seed == 0 ==> MemstartAddr(dramStart, dramEnd, seed, randomize) == AlignDown(dramStart, ARM64_MEMSTART_ALIGN)
    ensures MemstartAddr(dramStart, dramEnd, seed, randomize) >=
            AlignDown(dramStart, ARM64_MEMSTART_ALIGN) - Sub64(LINEAR_REGION_SIZE, Sub64(dramEnd, dramStart))
  {
    var base := AlignDown(dramStart, ARM64_MEMSTART_ALIGN);
    AlignDownBounds(dramStart, ARM64_MEMSTART_ALIGN);
    var range := Sub64(LINEAR_REGION_SIZE, Sub64(dramEnd, dramStart));
    if randomize && seed > 0 && range >= ARM64_MEMSTART_ALIGN {
      var q := range / ARM64_MEMSTART_ALIGN;
      var k := ((q + 1) * seed) / 0x1_0000;
      ScaledBelow(q, seed);
      MulLe(k, q, ARM64_MEMSTART_ALIGN);
      assert q * ARM64_MEMSTART_ALIGN <= range;
      assert base / ARM64_MEMSTART_ALIGN * ARM64_MEMSTART_ALIGN == base;
      DivMod(base - ARM64_MEMSTART_ALIGN * k, base / ARM64_MEMSTART_ALIGN - k, ARM64_MEMSTART_ALIGN, 0);
    }
  }

  lemma MulLe(a: nat, b: nat, k: nat)
    requires a <= b
    ensures a * k <= b * k
  {
  }

  // ---------------------------------------------------------------------
  // free_memmap and free_unused_memmap

  // A range of physical addresses or pfns, [lo, hi).
  datatype Range = Range(lo: nat, hi: nat)

  // free_memmap: the part of the memmap of pfns [startPfn, endPfn) that
  // fills whole pages, if any; memmap(pfn) is the physical address of
  // pfn's struct page.
  function FreeMemmap(startPfn: nat, endPfn: nat, memmap: nat -> nat): (r: Option<Range>)
    requires startPfn >= 1 && endPfn >= 1
    ensures r.Some? <==> AlignUp(memmap(startPfn - 1) + STRUCT_PAGE_SIZE, PAGE_SIZE) <
                         AlignDown(memmap(endPfn - 1) + STRUCT_PAGE_SIZE, PAGE_SIZE)
    ensures r.Some? ==> memmap(startPfn - 1) + STRUCT_PAGE_SIZE <= r.value.lo < r.value.hi <=
                        memmap(endPfn - 1) + STRUCT_PAGE_SIZE
    ensures r.Some? ==> r.value.lo % PAGE_SIZE == 0 && r.value.hi % PAGE_SIZE == 0
    // ... and it is the whole page-aligned interior: no page boundary lies
    // between start_pg and lo, or between hi and end_pg.
    ensures r.Some? ==> r.value.lo < memmap(startPfn - 1) + STRUCT_PAGE_SIZE + PAGE_SIZE &&
                        memmap(endPfn - 1) + STRUCT_PAGE_SIZE < r.value.hi + PAGE_SIZE
  {
    var startPg := memmap(startPfn - 1) + STRUCT_PAGE_SIZE;
    var endPg := memmap(endPfn - 1) + STRUCT_PAGE_SIZE;
    AlignUpBounds(startPg, PAGE_SIZE);
    AlignDownBounds(endPg, PAGE_SIZE);
    var pg := AlignUp(startPg, PAGE_SIZE);
    var pgend := AlignDown(endPg, PAGE_SIZE);
    if pg < pgend then Some(Range(pg, pgend)) else None
  }

  // __phys_to_pfn of a bank's start and end.
  function StartPfnOf(r: Region): nat
  {
    PfnDown(r.base)
  }

  function EndPfnOf(r: Region): nat
  {
    PfnDown(r.base + r.size)
  }

  // A pfn range none of whose pfns a bank holds.
  predicate OutsideBank(g: Range, r: Region)
  {
    g.hi <= StartPfnOf(r) || EndPfnOf(r) <= g.lo
  }

  // Banks in address order without overlap.
  predicate Ordered(rs: seq<Region>)
  {
    forall i, j :: 0 <= i < j < |rs| ==> rs[i].base + rs[i].size <= rs[j].base
  }

  // prev_end when free_unused_memmap reaches bank i: the end pfn of the
  // bank before it aligned up to MAX_ORDER_NR_PAGES, or 0 for the first.
  function PrevEnd(rs: seq<Region>, i: nat): nat
    requires i <= |rs|
  {
    if i == 0 then 0 else AlignUp(EndPfnOf(rs[i - 1]), MAX_ORDER_NR_PAGES)
  }

  // The range freed in front of bank i: from prev_end up to the bank's
  // start pfn, but no further than the section prev_end lies in, and
  // nothing in front of the first bank.
  function GapBefore(rs: seq<Region>, i: nat): seq<Range>
    requires i < |rs|
  {
    var pe := PrevEnd(rs, i);
    var start := Min(StartPfnOf(rs[i]), AlignUp(pe, PAGES_PER_SECTION));
    if pe != 0 && pe < start then [Range(pe, start)] else []
  }

  // The ranges freed in front of the first n banks, in bank order.
  function InterGaps(rs: seq<Region>, n: nat): seq<Range>
    requires n <= |rs|
  {
    if n == 0 then [] else InterGaps(rs, n - 1) + GapBefore(rs, n - 1)
  }

  // The rest of the section holding the last bank's aligned end.
  function TailGap(rs: seq<Region>): seq<Range>
  {
    var pe := PrevEnd(rs, |rs|);
    if pe % PAGES_PER_SECTION != 0 then [Range(pe, AlignUp(pe, PAGES_PER_SECTION))] else []
  }

  // Every pfn range free_unused_memmap hands to free_memmap, in order.
  function UnusedGaps(rs: seq<Region>): seq<Range>
  {
    InterGaps(rs, |rs|) + TailGap(rs)
  }

  // Bank i's pfns start no earlier than every earlier bank ends.
  lemma BanksApart(rs: seq<Region>, j: nat, i: nat)
    requires Ordered(rs) && j < i < |rs|
    ensures EndPfnOf(rs[j]) <= StartPfnOf(rs[i])
  {
    PfnMono(rs[j].base + rs[j].size, rs[i].base);
  }

  // The range freed in front of bank i is non-empty, above pfn 0 and,
  // for banks in order, holds no pfn of any bank.
  lemma GapBeforeSafe(rs: seq<Region>, i: nat)
    requires i < |rs|
    ensures forall g :: g in GapBefore(rs, i) ==> 0 < g.lo < g.hi
    ensures Ordered(rs) ==> forall g, j :: g in GapBefore(rs, i) && 0 <= j < |rs| ==> OutsideBank(g, rs[j])
  {
    if Ordered(rs) && GapBefore(rs, i) != [] {
      var g := GapBefore(rs, i)[0];
      AlignUpBounds(EndPfnOf(rs[i - 1]), MAX_ORDER_NR_PAGES);
      forall j | 0 <= j < |rs|
        ensures OutsideBank(g, rs[j])
      {
        if j < i {
          if j < i - 1 {
            BanksApart(rs, j, i - 1);
            PfnMono(rs[i - 1].base, rs[i - 1].base + rs[i - 1].size);
          }
        } else {
          if i < j {
            BanksApart(rs, i, j);
            PfnMono(rs[j].base, rs[j].base + rs[j].size);
            PfnMono(rs[i].base, rs[i].base + rs[i].size);
          }
        }
      }
    }
  }

  // What free_unused_memmap frees before reaching bank n is safe.
  lemma {:induction false} InterGapsSafe(rs: seq<Region>, n: nat)
    requires n <= |rs|
    ensures |InterGaps(rs, n)| <= n
    ensures forall g :: g in InterGaps(rs, n) ==> 0 < g.lo < g.hi
    ensures Ordered(rs) ==> forall g, j :: g in InterGaps(rs, n) && 0 <= j < |rs| ==> OutsideBank(g, rs[j])
  {
    if n > 0 {
      InterGapsSafe(rs, n - 1);
      GapBeforeSafe(rs, n - 1);
    }
  }

  // The ranges free_unused_memmap frees are at most one per bank plus
  // the section tail, each non-empty and above pfn 0; for banks in
  // address order none holds a pfn of any bank, so no struct page that
  // memory needs is freed.
  lemma UnusedGapsSafe(rs: seq<Region>)
    ensures |UnusedGaps(rs)| <= |rs| + 1
    ensures forall g :: g in UnusedGaps(rs) ==> 0 < g.lo < g.hi
    ensures Ordered(rs) ==> forall g, r :: g in UnusedGaps(rs) && r in rs ==> OutsideBank(g, r)
  {
    InterGapsSafe(rs, |rs|);
    var pe := PrevEnd(rs, |rs|);
    AlignUpBounds(pe, PAGES_PER_SECTION);
    if |rs| > 0 {
      AlignUpBounds(EndPfnOf(rs[|rs| - 1]), MAX_ORDER_NR_PAGES);
    }
    if Ordered(rs) {
      forall g, r | g in UnusedGaps(rs) && r in rs
        ensures OutsideBank(g, r)
      {
        var j :| 0 <= j < |rs| && rs[j] == r;
        if g in TailGap(rs) {
          if j < |rs| - 1 {
            BanksApart(rs, j, |rs| - 1);
            PfnMono(rs[|rs| - 1].base, rs[|rs| - 1].base + rs[|rs| - 1].size);
          }
        }
      }
    }
  }

  // free_unused_memmap: the pfn ranges whose memmap it frees, in the
  // order of its free_memmap calls.
  method FreeUnusedMemmap(regions: seq<Region>) returns (gaps: seq<Range>)
    ensures gaps == UnusedGaps(regions)
  {
    gaps := [];
    var prevEnd: nat := 0;
    var i := 0;
    while i < |regions|
      invariant i <= |regions|
      invariant gaps == InterGaps(regions, i) && prevEnd == PrevEnd(regions, i)
    {
      gaps, prevEnd := MemmapStep(regions, i, gaps, prevEnd);
      i := i + 1;
    }
    if prevEnd % PAGES_PER_SECTION != 0 {
      gaps := gaps + [Range(prevEnd, AlignUp(prevEnd, PAGES_PER_SECTION))];
    }
  }

  // One bank of free_unused_memmap: free the gap before it, if any, and
  // move prev_end to its end aligned to MAX_ORDER_NR_PAGES.
  method MemmapStep(regions: seq<Region>, i: nat, gaps: seq<Range>, prevEnd: nat)
    returns (gaps': seq<Range>, prevEnd': nat)
    requires i < |regions| && prevEnd == PrevEnd(regions, i)
    ensures gaps' == gaps + GapBefore(regions, i) && prevEnd' == PrevEnd(regions, i + 1)
  {
    var r := regions[i];
    var start := Min(StartPfnOf(r), AlignUp(prevEnd, PAGES_PER_SECTION));
    gaps' := gaps;
    if prevEnd != 0 && prevEnd < start {
      gaps' := gaps + [Range(prevEnd, start)];
    }
    AlignUpBounds(EndPfnOf(r), MAX_ORDER_NR_PAGES);
    prevEnd' := AlignUp(EndPfnOf(r), MAX_ORDER_NR_PAGES);
  }

  // ---------------------------------------------------------------------
  // The boot-time globals of init.c

  // memory_limit, memstart_addr, arm64_dma_phys_limit, max_pfn and
  // max_low_pfn, and the zone sizes and holes bootmem_init hands to the
  // page allocator.
  class Arm64Boot {
    var memoryLimit: nat
    var memstartAddr: int
    var dmaPhysLimit: nat
    var maxPfn: nat
    var maxLowPfn: nat
    var zoneSizes: seq<nat>
    var zoneHoles: seq<nat>

    constructor ()
      ensures memoryLimit == ULONG_MAX
    {
      memoryLimit := ULONG_MAX;
      memstartAddr := 0;
      dmaPhysLimit := 0;
      maxPfn := 0;
      maxLowPfn := 0;
      zoneSizes := [];
      zoneHoles := [];
    }

    // early_mem, the "mem=" handler: arg is what memparse reads from the
    // option, None for a missing one. The limit becomes that size rounded
    // down to a page.
    method EarlyMem(arg: Option<nat>) returns (r: int)
      requires arg.Some? ==> arg.value < WORD
      modifies this`memoryLimit
      ensures arg.None? ==> r == 1 && memoryLimit == old(memoryLimit)
      ensures arg.Some? ==> r == 0 && memoryLimit == AlignDown(arg.value, PAGE_SIZE)
      ensures arg.Some? ==> memoryLimit % PAGE_SIZE == 0 && arg.value - PAGE_SIZE < memoryLimit <= arg.value
    {
      if arg.None? {
        return 1;
      }
      AlignDownBounds(arg.value, PAGE_SIZE);
      memoryLimit := AlignDown(arg.value, PAGE_SIZE);
      r := 0;
    }

    // The arithmetic of arm64_memblock_init: memstart_addr and, with
    // CONFIG_ZONE_DMA, arm64_dma_phys_limit. seed is memstart_offset_seed
    // and randomize CONFIG_RANDOMIZE_BASE.
    method MemblockInit(dramStart: nat, dramEnd: nat, seed: nat, randomize: bool)
      requires seed < 0x1_0000
      modifies this`memstartAddr, this`dmaPhysLimit
      ensures memstartAddr == MemstartAddr(dramStart, dramEnd, seed, randomize)
      ensures dmaPhysLimit == MaxZoneDmaPhys(dramStart, dramEnd)
    {
      memstartAddr := AlignDown(dramStart, ARM64_MEMSTART_ALIGN);
      if randomize {
        var range := Sub64(LINEAR_REGION_SIZE, Sub64(dramEnd, dramStart));
        if seed > 0 && range >= ARM64_MEMSTART_ALIGN {
          range := range / ARM64_MEMSTART_ALIGN + 1;
          memstartAddr := memstartAddr - ARM64_MEMSTART_ALIGN * ((range * seed) / 0x1_0000);
        }
      }
      dmaPhysLimit := MaxZoneDmaPhys(dramStart, dramEnd);
    }

    // bootmem_init: the pfn bounds of DRAM, the zones built on them and
    // the highest pfn.
    method BootmemInit(dramStart: nat, dramEnd: nat, regions: seq<Region>)
      modifies this`maxPfn, this`maxLowPfn, this`zoneSizes, this`zoneHoles
      ensures maxPfn == maxLowPfn == PfnDown(dramEnd)
      ensures zoneSizes == [Sub64(PfnDown(dmaPhysLimit), PfnUp(dramStart)),
                            Sub64(PfnDown(dramEnd), PfnDown(dmaPhysLimit)), 0]
      ensures zoneHoles == [Sub64(zoneSizes[ZONE_DMA], DmaCovered(regions, PfnDown(dramEnd), PfnDown(dmaPhysLimit))),
                            Sub64(zoneSizes[ZONE_NORMAL], NormalCovered(regions, PfnDown(dramEnd), PfnDown(dmaPhysLimit))),
                            0]
    {
      var min := PfnUp(dramStart);
      var max := PfnDown(dramEnd);
      zoneSizes, zoneHoles := ZoneSizesInit(min, max, dmaPhysLimit, regions);
      maxPfn := max;
      maxLowPfn := max;
    }
  }
}
