// Boot-time allocation of the virtually mapped struct page array
// (mm/sparse-vmemmap.c): the reserved page pool of a vmem_altmap, the
// bump-pointer buffer vmemmap_buf, and the population of the kernel page
// tables that back the vmemmap, section by section.
//
// Page tables are abstracted as a map from (level, index) to the address
// of the page installed there: the entry at a level that covers an
// address is identified by the level and the address divided by the span
// of that level (4K pages, four levels).

module Vmemmap {
  import opened Base

  // The span covered by one entry at each level.
  const PGDIR_SIZE: nat := 0x80_0000_0000
  const PUD_SIZE: nat := 0x4000_0000
  const PMD_SIZE: nat := 0x20_0000

  // sizeof(struct page) * PAGES_PER_SECTION (64-byte struct page,
  // 2^18 pages per 1 GiB section): the bytes of vmemmap per section, a
  // multiple of PMD_SIZE.
  const SECTION_MAP_BYTES: nat := 0x100_0000

  datatype Level = Pgd | Pud | Pmd | Pte

  function Span(l: Level): (r: nat)
    ensures r > 0
  {
    match l
    case Pgd => PGDIR_SIZE
    case Pud => PUD_SIZE
    case Pmd => PMD_SIZE
    case Pte => PAGE_SIZE
  }

  datatype Entry = Entry(level: Level, index: nat)

  // The entry at level l whose range holds addr.
  function EntryOf(l: Level, addr: nat): Entry
  {
    Entry(l, addr / Span(l))
  }

  // A table that only gained entries: nothing installed was changed.
  ghost predicate Grows(t0: map<Entry, nat>, t1: map<Entry, nat>)
  {
    t0.Keys <= t1.Keys && forall e :: e in t0 ==> t1[e] == t0[e]
  }

  // addr is backed: every level that covers it has an entry.
  ghost predicate Populated(t: map<Entry, nat>, addr: nat)
  {
    EntryOf(Pgd, addr) in t && EntryOf(Pud, addr) in t && EntryOf(Pmd, addr) in t && EntryOf(Pte, addr) in t
  }

  // The k-th page of a range starting at start.
  function PageAddr(start: nat, k: nat): nat
  {
    start + k * PAGE_SIZE
  }

  // Every page of [start, end) is backed.
  ghost predicate RangePopulated(t: map<Entry, nat>, start: nat, end: nat)
  {
    forall k: nat :: PageAddr(start, k) < end ==> Populated(t, PageAddr(start, k))
  }

  lemma GrowsKeepsPopulated(t0: map<Entry, nat>, t1: map<Entry, nat>, start: nat, end: nat)
    requires Grows(t0, t1) && RangePopulated(t0, start, end)
    ensures RangePopulated(t1, start, end)
  {
  }

  // find_first_bit(&n, BITS_PER_LONG): the index of the lowest set bit.
  function FirstBit(n: nat): (k: nat)
    requires n > 0
    ensures n % Pow2(k) == 0 && (n / Pow2(k)) % 2 == 1
  {
    if n % 2 == 1 then
      0
    else
      var k := FirstBit(n / 2);
      FirstBitStep(n, k);
      k + 1
  }

  // An even n has its lowest set bit one above that of n / 2.
  lemma FirstBitStep(n: nat, k: nat)
    requires n > 0 && n % 2 == 0
    requires (n / 2) % Pow2(k) == 0 && (n / 2 / Pow2(k)) % 2 == 1
    ensures n % Pow2(k + 1) == 0 && (n / Pow2(k + 1)) % 2 == 1
  {
    var m, p := n / 2, Pow2(k);
    var q := m / p;
    ExactDiv(m, p, q);
    assert n == q * (2 * p) by {
      assert n == 2 * m;
      assert m == q * p;
    }
    ExactDiv(n, 2 * p, q);
  }

  // The alignment vmem_altmap_alloc gives a request of n pages: the
  // largest power of two dividing n.
  function RequestAlign(n: nat): (a: nat)
    requires n > 0
    ensures a > 0 && n % a == 0 && (n / a) % 2 == 1
  {
    Pow2(FirstBit(n))
  }

  // struct vmem_altmap: a device's pages reserved for its own memmap.
  // base_pfn, reserve and free are fixed; alloc and align grow.
  class Altmap {
    const basePfn: nat
    const reserve: nat
    const free: nat
    var alloc: nat
    var align: nat

    constructor (basePfn: nat, reserve: nat, free: nat)
      ensures this.basePfn == basePfn && this.reserve == reserve && this.free == free
      ensures alloc == 0 && align == 0
    {
      this.basePfn := basePfn;
      this.reserve := reserve;
      this.free := free;
      alloc := 0;
      align := 0;
    }

    // vmem_altmap_next_pfn: the first pfn after the reserve and what has
    // been handed out so far, padding included.
    function NextPfn(): nat
      reads this
    {
      basePfn + reserve + alloc + align
    }

    // vmem_altmap_nr_free: free less what was used, never below zero.
    function NrFree(): (r: nat)
      reads this
      ensures alloc + align < free ==> alloc + align + r == free
      ensures alloc + align >= free ==> r == 0
    {
      var used := alloc + align;
      if free > used then free - used else 0
    }

    // vmem_altmap_alloc: nrPfns pages aligned to the request's lowest
    // set bit, taken from the next free pfn on, or ULONG_MAX when they
    // (with their padding) do not fit in what is left.
    method Alloc(nrPfns: nat) returns (pfn: nat)
      requires nrPfns > 0
      modifies this`alloc, this`align
      ensures var next := old(NextPfn());
              var pad := RoundUp(next, RequestAlign(nrPfns)) - next;
              if nrPfns + pad > old(NrFree()) then
                pfn == ULONG_MAX && alloc == old(alloc) && align == old(align)
              else
                pfn == next + pad && alloc == old(alloc) + nrPfns && align == old(align) + pad
      ensures alloc != old(alloc) ==>
                pfn % RequestAlign(nrPfns) == 0 && old(NextPfn()) <= pfn < old(NextPfn()) + RequestAlign(nrPfns) &&
                NextPfn() == pfn + nrPfns && pfn + nrPfns <= basePfn + reserve + free
    {
      var next := NextPfn();
      var nrAlign := RequestAlign(nrPfns);
      nrAlign := RoundUp(next, nrAlign) - next;
      if nrPfns + nrAlign > NrFree() {
        return ULONG_MAX;
      }
      alloc := alloc + nrPfns;
      align := align + nrAlign;
      return next + nrAlign;
    }

    // altmap_alloc_block_buf: size must be whole pages; the result is the
    // physical address of the pages taken, or None (NULL).
    method AllocBlockBuf(size: nat) returns (r: Option<nat>)
      requires size != 0 && basePfn + reserve + free <= ULONG_MAX
      modifies this`alloc, this`align
      ensures size % PAGE_SIZE != 0 ==> r == None && alloc == old(alloc) && align == old(align)
      ensures r == None ==> alloc == old(alloc) && align == old(align)
      ensures r.Some? ==>
                size % PAGE_SIZE == 0 && r.value % PAGE_SIZE == 0 &&
                old(NextPfn()) * PAGE_SIZE <= r.value && r.value + size == NextPfn() * PAGE_SIZE &&
                r.value + size <= (basePfn + reserve + free) * PAGE_SIZE &&
                alloc == old(alloc) + size / PAGE_SIZE
      ensures (size % PAGE_SIZE == 0 && size / PAGE_SIZE <= old(NrFree()) &&
               old(NextPfn()) % RequestAlign(size / PAGE_SIZE) == 0) ==> r.Some?
    {
      if size % PAGE_SIZE != 0 {
        return None;
      }
      var nrPfns := size / PAGE_SIZE;
      ghost var next := NextPfn();
      if next % RequestAlign(nrPfns) == 0 {
        AlignUpAligned(next, RequestAlign(nrPfns));
      }
      var pfn := Alloc(nrPfns);
      if pfn < ULONG_MAX {
        r := Some(pfn * PAGE_SIZE);
      } else {
        r := None;
      }
    }
  }

  // The boot-time vmemmap state: the page tables, the bump buffer
  // vmemmap_buf .. vmemmap_buf_end (None for a NULL vmemmap_buf) and the
  // page allocator behind vmemmap_alloc_block, whose answers are an
  // oracle indexed by the attempt.
  class Tables {
    var entries: map<Entry, nat>
    var buf: Option<nat>
    var bufEnd: nat
    var attempts: nat
    // memblock_free_early calls: (physical start, length).
    var freed: seq<(nat, nat)>
    const blockFails: nat -> bool
    const blockAddr: nat -> nat
    // The virtual address of the struct page of pfn 0.
    const vmemmapBase: nat

    ghost predicate Valid()
      reads this
    {
      buf.Some? ==> buf.value <= bufEnd
    }

    constructor (blockFails: nat -> bool, blockAddr: nat -> nat, vmemmapBase: nat)
      ensures Valid() && entries == map[] && buf == None && freed == []
      ensures this.blockFails == blockFails && this.blockAddr == blockAddr && this.vmemmapBase == vmemmapBase
    {
      entries := map[];
      buf := None;
      bufEnd := 0;
      attempts := 0;
      freed := [];
      this.blockFails := blockFails;
      this.blockAddr := blockAddr;
      this.vmemmapBase := vmemmapBase;
    }

    // vmemmap_alloc_block: the page allocator (or memblock) asked for
    // size bytes.
    method AllocBlock(size: nat) returns (r: Option<nat>)
      modifies this`attempts
      ensures attempts == old(attempts) + 1
      ensures r == if blockFails(old(attempts)) then None else Some(blockAddr(old(attempts)))
    {
      r := if blockFails(attempts) then None else Some(blockAddr(attempts));
      attempts := attempts + 1;
    }

    // The bump pointer only moves up: a NULL buffer stays NULL and a live
    // one is never moved below where it was.
    static predicate BufForward(b0: Option<nat>, b: Option<nat>)
    {
      (b0 == None ==> b == None) && (b0.Some? ==> b.Some? && b0.value <= b.value)
    }

    // alloc_block_buf: carve size bytes, aligned to size, off the buffer
    // when there is one and they fit; otherwise fall back to
    // vmemmap_alloc_block and leave the buffer alone.
    method AllocBlockBuf(size: nat) returns (r: Option<nat>)
      requires Valid() && size > 0
      modifies this`buf, this`attempts
      ensures Valid()
      ensures old(buf).Some? && RoundUp(old(buf).value, size) + size <= bufEnd ==>
                r == Some(RoundUp(old(buf).value, size)) && buf == Some(r.value + size) &&
                r.value % size == 0 && old(buf).value <= r.value && attempts == old(attempts)
      ensures BufForward(old(buf), buf)
      ensures !(old(buf).Some? && RoundUp(old(buf).value, size) + size <= bufEnd) ==>
                buf == old(buf) && attempts == old(attempts) + 1 &&
                r == if blockFails(old(attempts)) then None else Some(blockAddr(old(attempts)))
    {
      if buf.None? {
        r := AllocBlock(size);
        return;
      }
      var ptr := RoundUp(buf.value, size);
      if ptr + size > bufEnd {
        r := AllocBlock(size);
        return;
      }
      buf := Some(ptr + size);
      return Some(ptr);
    }

    // vmemmap_{pgd,pud,pmd,pte}_populate: allocate and install the entry
    // at level l covering addr only when it is empty (the last level
    // takes its page from the bump buffer). An installed entry is kept
    // as it is; false stands for the NULL returned when the allocation
    // fails.
    method PopulateLevel(l: Level, addr: nat) returns (ok: bool)
      requires Valid()
      modifies this`entries, this`buf, this`attempts
      ensures Valid() && Grows(old(entries), entries)
      ensures EntryOf(l, addr) in old(entries) ==> ok && entries == old(entries) && buf == old(buf)
      ensures ok <==> EntryOf(l, addr) in entries
      ensures entries.Keys <= old(entries).Keys + {EntryOf(l, addr)}
      ensures l != Pte || old(buf) == None ==> buf == old(buf)
      ensures BufForward(old(buf), buf)
    {
      var e := EntryOf(l, addr);
      if e in entries {
        return true;
      }
      var p;
      if l == Pte {
        p := AllocBlockBuf(PAGE_SIZE);
      } else {
        p := AllocBlock(PAGE_SIZE);
      }
      if p.None? {
        return false;
      }
      entries := entries[e := p.value];
      return true;
    }

    // One page of vmemmap_populate_basepages: its four levels in turn,
    // stopping at the first that cannot be populated.
    method PopulatePage(addr: nat) returns (ok: bool)
      requires Valid()
      modifies this`entries, this`buf, this`attempts
      ensures Valid() && Grows(old(entries), entries)
      ensures ok <==> Populated(entries, addr)
      ensures BufForward(old(buf), buf)
    {
      ok := PopulateLevel(Pgd, addr);
      if !ok {
        return;
      }
      ok := PopulateLevel(Pud, addr);
      if !ok {
        return;
      }
      ok := PopulateLevel(Pmd, addr);
      if !ok {
        return;
      }
      ok := PopulateLevel(Pte, addr);
    }

    // vmemmap_populate_basepages: back every page of [start, end);
    // -ENOMEM as soon as one cannot be.
    method PopulateBasepages(start: nat, end: nat) returns (ret: int)
      requires Valid()
      modifies this`entries, this`buf, this`attempts
      ensures Valid() && Grows(old(entries), entries)
      ensures ret == 0 || ret == -ENOMEM
      ensures ret == 0 <==> RangePopulated(entries, start, end)
      ensures BufForward(old(buf), buf)
    {
      var addr := start;
      ghost var k: nat := 0;
      while addr < end
        invariant Valid() && Grows(old(entries), entries)
        invariant addr == PageAddr(start, k)
        invariant BufForward(old(buf), buf)
        invariant forall j: nat :: j < k ==> Populated(entries, PageAddr(start, j))
        decreases end - addr
      {
        var ok := PopulatePage(addr);
        if !ok {
          return -ENOMEM;
        }
        addr := addr + PAGE_SIZE;
        k := k + 1;
      }
      return 0;
    }

    // The address of the struct page array of section pnum.
    function SectionMap(pnum: nat): nat
    {
      vmemmapBase + pnum * SECTION_MAP_BYTES
    }

    // sparse_mem_map_populate: the section's memmap, backed, or None.
    method SectionPopulate(pnum: nat) returns (map_: Option<nat>)
      requires Valid()
      modifies this`entries, this`buf, this`attempts
      ensures Valid() && Grows(old(entries), entries)
      ensures map_ == None || map_ == Some(SectionMap(pnum))
      ensures BufForward(old(buf), buf)
      ensures map_.Some? <==> RangePopulated(entries, SectionMap(pnum), SectionMap(pnum) + SECTION_MAP_BYTES)
    {
      var start := SectionMap(pnum);
      var ret := PopulateBasepages(start, start + SECTION_MAP_BYTES);
      if ret != 0 {
        return None;
      }
      return Some(start);
    }

    // What sparse_mem_maps_populate_node leaves for section p: an absent
    // section is untouched; a present one has its backed memmap recorded,
    // or a NULL map and section_mem_map cleared.
    ghost predicate SectionOutcome(p: nat, present: set<nat>, t: map<Entry, nat>, maps: seq<Option<nat>>,
                                   memMap: seq<nat>, maps0: seq<Option<nat>>, memMap0: seq<nat>)
      requires p < |maps| == |maps0| && p < |memMap| == |memMap0|
    {
      if p !in present then
        maps[p] == maps0[p] && memMap[p] == memMap0[p]
      else
        (maps[p] == Some(SectionMap(p)) && memMap[p] == memMap0[p] &&
         RangePopulated(t, SectionMap(p), SectionMap(p) + SECTION_MAP_BYTES)) ||
        (maps[p] == None && memMap[p] == 0)
    }

    // One pass of the loop of sparse_mem_maps_populate_node.
    method PopulateSection(pnum: nat, present: set<nat>, mapMap: array<Option<nat>>, memMap: array<nat>)
      requires Valid() && pnum < mapMap.Length && pnum < memMap.Length
      modifies this`entries, this`buf, this`attempts, mapMap, memMap
      ensures Valid() && Grows(old(entries), entries)
      ensures mapMap.Length == memMap.Length ==>
                SectionOutcome(pnum, present, entries, mapMap[..], memMap[..], old(mapMap[..]), old(memMap[..]))
      ensures forall p :: 0 <= p < mapMap.Length && p != pnum ==> mapMap[p] == old(mapMap[p])
      ensures BufForward(old(buf), buf)
      ensures forall p :: 0 <= p < memMap.Length && p != pnum ==> memMap[p] == old(memMap[p])
    {
      if pnum !in present {
        return;
      }
      var m := SectionPopulate(pnum);
      mapMap[pnum] := m;
      if m.None? {
        memMap[pnum] := 0;
      }
    }

    // sparse_mem_maps_populate_node: back the memmap of every present
    // section in [pnumBegin, pnumEnd). bootmem is what
    // __earlyonly_bootmem_alloc gave for the node's buffer of mapCount
    // section maps; when there is one, sections are carved from it and
    // what is left of it is handed back at the end.
    method PopulateNode(mapMap: array<Option<nat>>, memMap: array<nat>, present: set<nat>,
                        pnumBegin: nat, pnumEnd: nat, mapCount: nat, bootmem: Option<nat>)
      requires Valid() && pnumEnd <= mapMap.Length == memMap.Length
      requires buf == None
      modifies this, mapMap, memMap
      ensures Valid() && Grows(old(entries), entries)
      ensures forall p :: pnumBegin <= p < pnumEnd ==>
                SectionOutcome(p, present, entries, mapMap[..], memMap[..], old(mapMap[..]), old(memMap[..]))
      ensures forall p :: 0 <= p < mapMap.Length && !(pnumBegin <= p < pnumEnd) ==>
                mapMap[p] == old(mapMap[p]) && memMap[p] == old(memMap[p])
      ensures bootmem.Some? ==> buf == None && bufEnd == 0 && |freed| == |old(freed)| + 1 &&
                                freed[..|old(freed)|] == old(freed)
      // What is handed back is the unused tail of the node's buffer: it
      // starts at or past the buffer's start and ends at its end.
      ensures bootmem.Some? ==> bootmem.value <= freed[|old(freed)|].0 &&
                                freed[|old(freed)|].0 + freed[|old(freed)|].1 ==
                                  bootmem.value + RoundUp(SECTION_MAP_BYTES, PMD_SIZE) * mapCount
      ensures bootmem.None? ==> buf == None && bufEnd == old(bufEnd) && freed == old(freed)
    {
      var size := RoundUp(SECTION_MAP_BYTES, PMD_SIZE);
      if bootmem.Some? {
        buf := bootmem;
        bufEnd := bootmem.value + size * mapCount;
      }
      var pnum := pnumBegin;
      while pnum < pnumEnd
        invariant Valid() && Grows(old(entries), entries)
        invariant pnum == pnumBegin || pnumBegin <= pnum <= pnumEnd
        invariant forall p :: pnumBegin <= p < pnum && p < pnumEnd ==>
                    SectionOutcome(p, present, entries, mapMap[..], memMap[..], old(mapMap[..]), old(memMap[..]))
        invariant forall p :: 0 <= p < mapMap.Length && !(pnumBegin <= p < pnum) ==>
                    mapMap[p] == old(mapMap[p]) && memMap[p] == old(memMap[p])
        invariant bootmem.None? ==> buf == None && bufEnd == old(bufEnd)
        invariant bufEnd == old(bufEnd) || bootmem.Some?
        invariant bootmem.Some? ==> buf.Some? && bootmem.value <= buf.value && bufEnd == bootmem.value + size * mapCount
        invariant freed == old(freed)
      {
        ghost var t0 := entries;
        ghost var maps0, mem0 := mapMap[..], memMap[..];
        PopulateSection(pnum, present, mapMap, memMap);
        forall p | pnumBegin <= p < pnum
          ensures SectionOutcome(p, present, entries, mapMap[..], memMap[..], old(mapMap[..]), old(memMap[..]))
        {
          assert mapMap[p] == maps0[p] && memMap[p] == mem0[p];
          assert SectionOutcome(p, present, t0, maps0, mem0, old(mapMap[..]), old(memMap[..]));
          if p in present && maps0[p].Some? {
            GrowsKeepsPopulated(t0, entries, SectionMap(p), SectionMap(p) + SECTION_MAP_BYTES);
          }
        }
        pnum := pnum + 1;
      }
      if bootmem.Some? {
        var left := if buf.Some? then buf.value else 0;
        freed := freed + [(left, bufEnd - left)];
        buf := None;
        bufEnd := 0;
      }
    }
  }
}
