// Building the kernel page tables of arm64 (arch/arm64/mm/mmu.c): the
// walk that maps a physical range at a virtual address with 1 GiB blocks,
// 2 MiB sections or 4 KiB pages, the splitting of a block whose range is
// only partly remapped, the mapping of a memory bank around the read-only
// kernel text, and the early remapping of the flattened device tree.
//
// The configuration is 4K pages and 39-bit virtual addresses: three
// levels of table, with the PUD level folded into the PGD, so a PGD entry
// is a PUD entry that covers 1 GiB. Each level is one map from the index
// of the entry (the virtual address divided by the size an entry covers)
// to the entry; a table page handed out by pgtable_alloc is zeroed, which
// the model expresses by clearing the entries that page holds.

module Arm64Mmu {
  import opened Base

  // SECTION_SIZE (PMD_SIZE) and PUD_SIZE == PGDIR_SIZE.
  const PMD_SIZE: nat := 0x20_0000
  const PUD_SIZE: nat := 0x4000_0000
  const PTRS_PER_PTE: nat := 512
  const PTRS_PER_PMD: nat := 512
  // With VA_BITS = 39: the bottom of the linear map, and VMALLOC_START,
  // which is MODULES_END (VA_START plus 128 MiB of modules).
  const PAGE_OFFSET: nat := 0xFFFF_FFC0_0000_0000
  const VMALLOC_START: nat := 0xFFFF_FF80_0800_0000
  // The size of the linear map: half the kernel address space.
  const LINEAR_SIZE: nat := 0x40_0000_0000
  // Section maps with 4K pages: the early mappings use 2 MiB blocks.
  const SWAPPER_BLOCK_SIZE: nat := 0x20_0000
  const MIN_FDT_ALIGN: nat := 8
  const MAX_FDT_SIZE: nat := 0x20_0000

  // Attribute sets of an entry (pgprot_t). The bit values live in headers
  // that are not part of this model; only which set an entry carries matters.
  datatype Prot = PageKernel | PageKernelRo | PageKernelExec | Other(bits: nat)

  // An entry of the PGD/PUD or of the PMD level: empty, a pointer to the
  // next-level table, or a block (1 GiB) or section (2 MiB) mapping.
  datatype Upper = Unused | Table | Sect(phys: nat, prot: Prot)

  // An entry of the PTE level.
  datatype Pte = NoPage | Page(pfn: nat, prot: Prot)

  datatype Tables = Tables(pud: map<nat, Upper>, pmd: map<nat, Upper>, pte: map<nat, Pte>)

  // Where a virtual address leads: the physical address and the attributes.
  datatype Pa = Pa(phys: nat, prot: Prot)

  function PudIndex(va: nat): nat { va / 0x4000_0000 }
  function PmdIndex(va: nat): nat { va / 0x20_0000 }
  function PteIndex(va: nat): nat { va / 0x1000 }

  function PudAt(m: map<nat, Upper>, j: nat): Upper
  {
    if j in m then m[j] else Unused
  }

  function PmdAt(m: map<nat, Upper>, k: nat): Upper
  {
    if k in m then m[k] else Unused
  }

  function PteAt(m: map<nat, Pte>, n: nat): Pte
  {
    if n in m then m[n] else NoPage
  }

  // The hardware walk.
  function Translate(t: Tables, va: nat): Option<Pa>
  {
    match PudAt(t.pud, PudIndex(va))
    case Unused => None
    case Sect(p, prot) => Some(Pa(p + va % 0x4000_0000, prot))
    case Table =>
      match PmdAt(t.pmd, PmdIndex(va))
      case Unused => None
      case Sect(p, prot) => Some(Pa(p + va % 0x20_0000, prot))
      case Table =>
        match PteAt(t.pte, PteIndex(va))
        case NoPage => None
        case Page(pfn, prot) => Some(Pa(pfn * 0x1000 + va % 0x1000, prot))
  }

  // Blocks and sections point at physical addresses aligned to their size
  // (pud_set_huge and pmd_set_huge insist on it).
  ghost predicate Wf(t: Tables)
  {
    (forall j | j in t.pud && t.pud[j].Sect? :: t.pud[j].phys % 0x4000_0000 == 0) &&
    (forall k | k in t.pmd && t.pmd[k].Sect? :: t.pmd[k].phys % 0x20_0000 == 0)
  }

  // Every address of [lo, hi) leads to phys + its distance from lo.
  ghost predicate MapsRange(t: Tables, lo: nat, hi: nat, phys: nat, prot: Prot)
  {
    forall va: nat :: lo <= va < hi ==> Translate(t, va) == Some(Pa(phys + (va - lo), prot))
  }

  // Nothing outside [lo, hi) leads anywhere new.
  ghost predicate SameOutside(t0: Tables, t1: Tables, lo: nat, hi: nat)
  {
    forall va: nat :: !(lo <= va < hi) ==> Translate(t1, va) == Translate(t0, va)
  }

  // A translation survives: it is unchanged, or it still leads to the same
  // physical address with the attributes split_pmd gives the pages of a
  // split section.
  predicate Preserved(o: Option<Pa>, n: Option<Pa>)
  {
    n == o || (o.Some? && n.Some? && n.value.phys == o.value.phys && n.value.prot == PageKernelExec)
  }

  // Inside [slo, shi) but outside [lo, hi), every translation survives.
  ghost predicate Kept(t0: Tables, t1: Tables, slo: nat, shi: nat, lo: nat, hi: nat)
  {
    forall va: nat :: slo <= va < shi && !(lo <= va < hi) ==> Preserved(Translate(t0, va), Translate(t1, va))
  }

  // What a call for [lo, hi) within the slot [slo, shi) of its level does.
  ghost predicate Effect(t0: Tables, t1: Tables, slo: nat, shi: nat, lo: nat, hi: nat, phys: nat, prot: Prot)
  {
    MapsRange(t1, lo, hi, phys, prot) && SameOutside(t0, t1, slo, shi) && Kept(t0, t1, slo, shi, lo, hi)
  }

  lemma PreservedTrans(a: Option<Pa>, b: Option<Pa>, c: Option<Pa>)
    requires Preserved(a, b) && Preserved(b, c)
    ensures Preserved(a, c)
  {
  }

  // ---------------------------------------------------------------------
  // Index arithmetic: an entry of one level covers 512 entries of the next.

  lemma PmdSlot(va: nat, k: nat)
    ensures PmdIndex(va) == k <==> k * 0x20_0000 <= va < k * 0x20_0000 + 0x20_0000
  {
  }

  lemma PudSlot(va: nat, j: nat)
    ensures PudIndex(va) == j <==> j * 0x4000_0000 <= va < j * 0x4000_0000 + 0x4000_0000
  {
  }

  lemma PteInPmd(va: nat)
    ensures PmdIndex(va) * 512 <= PteIndex(va) < PmdIndex(va) * 512 + 512
  {
  }

  lemma PmdInPud(va: nat)
    ensures PudIndex(va) * 512 <= PmdIndex(va) < PudIndex(va) * 512 + 512
  {
  }

  // ---------------------------------------------------------------------
  // One pass of a do-while loop: the chunk [a, next) mapped by the call of
  // the level below, within its own slot [sublo, subhi), extends what the
  // loop has mapped so far and keeps everything else.

  lemma PageMultiples(x: nat, y: nat)
    requires x % 0x1000 == 0 && y % 0x1000 == 0
    ensures (x + y) % 0x1000 == 0
    ensures x <= y ==> (y - x) % 0x1000 == 0
  {
    var qx, qy := x / 0x1000, y / 0x1000;
    assert x + y == (qx + qy) * 0x1000;
  }

  // The arithmetic of one pass of alloc_init_pmd's loop: the chunk's pmd
  // slot lies in the pud slot, and phys stays page aligned.
  lemma PmdChunkArith(j: nat, addr: nat, a: nat, next: nat, end: nat, phys: nat)
    requires addr <= a < next <= end && PudIndex(addr) == j && PudIndex(end - 1) == j
    requires a % 0x1000 == 0 && next % 0x1000 == 0 && (a == addr || a % 0x20_0000 == 0)
    requires (phys + (a - addr)) % 0x1000 == 0
    ensures PudIndex(a) == j
    ensures j * 0x4000_0000 <= PmdIndex(a) * 0x20_0000
    ensures PmdIndex(a) * 0x20_0000 + 0x20_0000 <= j * 0x4000_0000 + 0x4000_0000
    ensures a == addr || a <= PmdIndex(a) * 0x20_0000
    ensures (phys + (a - addr) + (next - a)) % 0x1000 == 0
  {
    PudSlot(addr, j);
    PudSlot(end - 1, j);
    PudSlot(a, j);
    PmdInPud(a);
    PageMultiples(a, next);
    PageMultiples(phys + (a - addr), next - a);
  }

  lemma BlockIsPages(x: nat)
    requires x % 0x4000_0000 == 0
    ensures x % 0x1000 == 0
  {
    var q := x / 0x4000_0000;
    assert x == (q * 0x4_0000) * 0x1000;
  }

  // The arithmetic of one pass of init_pgd's loop.
  lemma PgdChunkArith(addr: nat, a: nat, next: nat, end: nat, phys: nat)
    requires addr <= a < next <= end <= WORD
    requires a % 0x1000 == 0 && end % 0x1000 == 0 && (next == end || next % 0x4000_0000 == 0)
    requires a == addr || a % 0x4000_0000 == 0
    requires (phys + (a - addr)) % 0x1000 == 0
    ensures next % 0x1000 == 0
    ensures PudIndex(a) * 0x4000_0000 + 0x4000_0000 <= WORD
    ensures a == addr || a <= PudIndex(a) * 0x4000_0000
    ensures (phys + (a - addr) + (next - a)) % 0x1000 == 0
  {
    PudSlot(a, PudIndex(a));
    if next != end {
      BlockIsPages(next);
    }
    PageMultiples(a, next);
    PageMultiples(phys + (a - addr), next - a);
  }

  // init_pgd's range: the page holding virt up to the page end of
  // virt + size, which a non-empty request and a range below 2^64 keep
  // non-empty and below 2^64.
  lemma InitPgdArith(virt: nat, size: nat)
    requires virt + size <= WORD
    requires 0 < size || virt % 0x1000 != 0
    ensures virt - virt % 0x1000 < virt - virt % 0x1000 + PageAlign(size + virt % 0x1000) <= WORD
    ensures (virt - virt % 0x1000) % 0x1000 == 0
    ensures (virt - virt % 0x1000 + PageAlign(size + virt % 0x1000)) % 0x1000 == 0
  {
    var addr := virt - virt % 0x1000;
    var length := PageAlign(size + virt % 0x1000);
    assert addr % 0x1000 == 0;
    PageMultiples(addr, length);
  }

  // The pages init_pgd maps hold the range asked for, each address
  // leading to its own offset from phys.
  lemma CoversRequest(t: Tables, phys: nat, virt: nat, size: nat, prot: Prot)
    requires phys % 0x1000 == virt % 0x1000
    requires MapsRange(t, virt - virt % 0x1000, virt - virt % 0x1000 + PageAlign(size + virt % 0x1000),
                       phys - phys % 0x1000, prot)
    ensures MapsRange(t, virt, virt + size, phys, prot)
  {
    var lo := virt - virt % 0x1000;
    forall va: nat | virt <= va < virt + size
      ensures Translate(t, va) == Some(Pa(phys + (va - virt), prot))
    {
      assert Translate(t, va) == Some(Pa(phys - phys % 0x1000 + (va - lo), prot));
    }
  }

  // What a do-while loop has done when it has mapped [addr, a) of its slot.
  ghost predicate Progress(t0: Tables, t: Tables, slo: nat, shi: nat, addr: nat, a: nat, phys: nat, prot: Prot)
  {
    MapsRange(t, addr, a, phys, prot) && SameOutside(t0, t, slo, shi) && Kept(t0, t, slo, shi, addr, a)
  }

  // A loop starts having mapped nothing, on tables that translate as the
  // ones it was given.
  lemma ProgressStart(t0: Tables, t: Tables, slo: nat, shi: nat, addr: nat, phys: nat, prot: Prot)
    requires SameOutside(t0, t, 0, 0)
    ensures Progress(t0, t, slo, shi, addr, addr, phys, prot)
  {
    forall va: nat | slo <= va < shi
      ensures Preserved(Translate(t0, va), Translate(t, va))
    {
      assert Translate(t, va) == Translate(t0, va);
    }
  }

  lemma {:induction false} ChunkStep(t0: Tables, tp: Tables, tn: Tables, slo: nat, shi: nat,
                                     addr: nat, a: nat, next: nat, sublo: nat, subhi: nat,
                                     phys: nat, prot: Prot)
    requires slo <= sublo && subhi <= shi && addr <= a <= next && (a == addr || a <= sublo)
    requires Progress(t0, tp, slo, shi, addr, a, phys, prot)
    requires Effect(tp, tn, sublo, subhi, a, next, phys + (a - addr), prot)
    ensures Progress(t0, tn, slo, shi, addr, next, phys, prot)
  {
    forall va: nat | addr <= va < next
      ensures Translate(tn, va) == Some(Pa(phys + (va - addr), prot))
    {
      if va < a {
        assert Translate(tn, va) == Translate(tp, va);
      } else {
        assert Translate(tn, va) == Some(Pa(phys + (a - addr) + (va - a), prot));
      }
    }
    forall va: nat | !(slo <= va < shi)
      ensures Translate(tn, va) == Translate(t0, va)
    {
      assert Translate(tn, va) == Translate(tp, va);
    }
    forall va: nat | slo <= va < shi && !(addr <= va < next)
      ensures Preserved(Translate(t0, va), Translate(tn, va))
    {
      if sublo <= va < subhi {
        PreservedTrans(Translate(t0, va), Translate(tp, va), Translate(tn, va));
      }
    }
  }

  // ---------------------------------------------------------------------
  // The PTE level (alloc_init_pte). The entry of the pmd slot k is made a
  // table: an empty one gets a zeroed page of ptes, a section gets the
  // pages split_pmd writes, and the ptes of [lo, hi) then map pfn onwards.

  function PteAfter(ptes: map<nat, Pte>, e: Upper, k: nat, lo: nat, hi: nat, pfn: nat, prot: Prot, n: nat): Pte
  {
    if lo <= n < hi then Page(pfn + (n - lo), prot)
    else if k * 512 <= n < k * 512 + 512 then
      match e
      case Table => PteAt(ptes, n)
      case Sect(p, _) => Page(p / 0x1000 + (n - k * 512), PageKernelExec)
      case Unused => NoPage
    else PteAt(ptes, n)
  }

  // The tables after alloc_init_pte(addr, end, pfn, prot) on t0.
  ghost predicate PteWritten(t0: Tables, t1: Tables, addr: nat, end: nat, pfn: nat, prot: Prot)
  {
    var k := PmdIndex(addr);
    t1.pud == t0.pud && t1.pmd == t0.pmd[k := Table] &&
    forall n :: PteAt(t1.pte, n) == PteAfter(t0.pte, PmdAt(t0.pmd, k), k, addr / 0x1000, end / 0x1000, pfn, prot, n)
  }

  // The walk from one address, inside the range written.
  lemma PteInside(t0: Tables, t1: Tables, addr: nat, end: nat, pfn: nat, prot: Prot, va: nat)
    requires addr < end && PmdIndex(addr) == PmdIndex(end - 1)
    requires addr % 0x1000 == 0 && end % 0x1000 == 0
    requires PudAt(t0.pud, PudIndex(addr)).Table?
    requires PteWritten(t0, t1, addr, end, pfn, prot)
    requires addr <= va < end
    ensures Translate(t1, va) == Some(Pa(pfn * 0x1000 + (va - addr), prot))
  {
    var k := PmdIndex(addr);
    PmdSlot(addr, k);
    PmdSlot(end - 1, k);
    PmdSlot(va, k);
    PmdInPud(addr);
    PmdInPud(va);
    assert PteAt(t1.pte, PteIndex(va)) == Page(pfn + (PteIndex(va) - addr / 0x1000), prot);
  }

  // ... outside the pmd slot, where nothing changes ...
  lemma PteOutside(t0: Tables, t1: Tables, addr: nat, end: nat, pfn: nat, prot: Prot, va: nat)
    requires addr < end && PmdIndex(addr) == PmdIndex(end - 1)
    requires PteWritten(t0, t1, addr, end, pfn, prot)
    requires PmdIndex(va) != PmdIndex(addr)
    ensures Translate(t1, va) == Translate(t0, va)
  {
    var k := PmdIndex(addr);
    PmdSlot(addr, k);
    PmdSlot(end - 1, k);
    PmdSlot(va, k);
    PteInPmd(va);
    assert PteAt(t1.pte, PteIndex(va)) == PteAt(t0.pte, PteIndex(va));
  }

  // ... and in the rest of the slot, where a split section keeps its pages.
  lemma PteRest(t0: Tables, t1: Tables, addr: nat, end: nat, pfn: nat, prot: Prot, va: nat)
    requires Wf(t0)
    requires addr < end && PmdIndex(addr) == PmdIndex(end - 1)
    requires addr % 0x1000 == 0 && end % 0x1000 == 0
    requires PudAt(t0.pud, PudIndex(addr)).Table?
    requires PteWritten(t0, t1, addr, end, pfn, prot)
    requires PmdIndex(va) == PmdIndex(addr) && !(addr <= va < end)
    ensures Preserved(Translate(t0, va), Translate(t1, va))
  {
    var k := PmdIndex(addr);
    var e := PmdAt(t0.pmd, k);
    PmdInPud(addr);
    PmdInPud(va);
    PteInPmd(va);
    var n := PteIndex(va);
    assert !(addr / 0x1000 <= n < end / 0x1000);
    if e.Sect? {
      assert e.phys % 0x20_0000 == 0;
      assert PteAt(t1.pte, n) == Page(e.phys / 0x1000 + (n - k * 512), PageKernelExec);
      SplitPagePhys(e.phys, va);
    }
  }

  // The pte split_pmd gives va's page leads where the section did.
  lemma SplitPagePhys(base: nat, va: nat)
    requires base % 0x20_0000 == 0
    ensures PmdIndex(va) * 512 <= PteIndex(va)
    ensures (base / 0x1000 + (PteIndex(va) - PmdIndex(va) * 512)) * 0x1000 + va % 0x1000 == base + va % 0x20_0000
  {
    var q, r := va / 0x20_0000, va % 0x20_0000;
    assert va == q * 0x20_0000 + r;
    assert va / 0x1000 == q * 512 + r / 0x1000 by {
      assert va == (q * 512 + r / 0x1000) * 0x1000 + r % 0x1000;
    }
    assert va % 0x1000 == r % 0x1000 by {
      assert va == (q * 512 + r / 0x1000) * 0x1000 + r % 0x1000;
    }
    assert base / 0x1000 * 0x1000 == base;
  }

  lemma PteLevel(t0: Tables, t1: Tables, addr: nat, end: nat, pfn: nat, prot: Prot)
    requires Wf(t0)
    requires addr < end && PmdIndex(addr) == PmdIndex(end - 1)
    requires addr % 0x1000 == 0 && end % 0x1000 == 0
    requires PudAt(t0.pud, PudIndex(addr)).Table?
    requires PteWritten(t0, t1, addr, end, pfn, prot)
    ensures Effect(t0, t1, PmdIndex(addr) * 0x20_0000, PmdIndex(addr) * 0x20_0000 + 0x20_0000,
                   addr, end, pfn * 0x1000, prot)
  {
    var k := PmdIndex(addr);
    forall va: nat | addr <= va < end
      ensures Translate(t1, va) == Some(Pa(pfn * 0x1000 + (va - addr), prot))
    {
      PteInside(t0, t1, addr, end, pfn, prot, va);
    }
    forall va: nat | !(k * 0x20_0000 <= va < k * 0x20_0000 + 0x20_0000)
      ensures Translate(t1, va) == Translate(t0, va)
    {
      PmdSlot(va, k);
      PteOutside(t0, t1, addr, end, pfn, prot, va);
    }
    forall va: nat | k * 0x20_0000 <= va < k * 0x20_0000 + 0x20_0000 && !(addr <= va < end)
      ensures Preserved(Translate(t0, va), Translate(t1, va))
    {
      PmdSlot(va, k);
      PteRest(t0, t1, addr, end, pfn, prot, va);
    }
  }

  // ---------------------------------------------------------------------
  // The PMD level: a section over the whole slot of addr (pmd_set_huge).

  lemma SectLevel(t0: Tables, t1: Tables, addr: nat, phys: nat, prot: Prot)
    requires addr % 0x20_0000 == 0
    requires PudAt(t0.pud, PudIndex(addr)).Table?
    requires t1 == t0.(pmd := t0.pmd[PmdIndex(addr) := Sect(phys, prot)])
    ensures Effect(t0, t1, PmdIndex(addr) * 0x20_0000, PmdIndex(addr) * 0x20_0000 + 0x20_0000,
                   addr, addr + 0x20_0000, phys, prot)
  {
    var k := PmdIndex(addr);
    forall va: nat | addr <= va < addr + 0x20_0000
      ensures Translate(t1, va) == Some(Pa(phys + (va - addr), prot))
    {
      PmdSlot(va, k);
      PmdInPud(va);
      PmdInPud(addr);
    }
    forall va: nat | !(k * 0x20_0000 <= va < k * 0x20_0000 + 0x20_0000)
      ensures Translate(t1, va) == Translate(t0, va)
    {
      PmdSlot(va, k);
    }
  }

  // The pmd entries of pud slot j after alloc_init_pmd makes the entry e
  // of that slot a table: a zeroed page for an empty entry, the 512
  // sections split_pud writes for a block, the old table otherwise.
  function PmdAfter(pmds: map<nat, Upper>, e: Upper, j: nat, k: nat): Upper
  {
    if j * 512 <= k < j * 512 + 512 then
      match e
      case Table => PmdAt(pmds, k)
      case Sect(p, prot) => Sect(p + (k - j * 512) * 0x20_0000, prot)
      case Unused => Unused
    else PmdAt(pmds, k)
  }

  ghost predicate PudPopulated(t0: Tables, t1: Tables, j: nat)
  {
    t1.pud == t0.pud[j := Table] && t1.pte == t0.pte &&
    forall k :: PmdAt(t1.pmd, k) == PmdAfter(t0.pmd, PudAt(t0.pud, j), j, k)
  }

  lemma PopulateAt(t0: Tables, t1: Tables, j: nat, va: nat)
    requires Wf(t0) && PudPopulated(t0, t1, j)
    ensures Translate(t1, va) == Translate(t0, va)
  {
    PmdInPud(va);
    var m := PmdIndex(va);
    assert PmdAt(t1.pmd, m) == PmdAfter(t0.pmd, PudAt(t0.pud, j), j, m);
    if PudIndex(va) == j && PudAt(t0.pud, j).Sect? {
      assert PudAt(t0.pud, j).phys % 0x4000_0000 == 0;
    }
  }

  // Making a pud entry a table changes no translation.
  lemma PudPopulate(t0: Tables, t1: Tables, j: nat)
    requires Wf(t0) && PudPopulated(t0, t1, j)
    ensures Wf(t1)
    ensures SameOutside(t0, t1, 0, 0)
  {
    forall va: nat
      ensures Translate(t1, va) == Translate(t0, va)
    {
      PopulateAt(t0, t1, j, va);
    }
    forall k | k in t1.pmd && t1.pmd[k].Sect?
      ensures t1.pmd[k].phys % 0x20_0000 == 0
    {
      assert PmdAt(t1.pmd, k) == PmdAfter(t0.pmd, PudAt(t0.pud, j), j, k);
    }
  }

  // ---------------------------------------------------------------------
  // The PUD level: a 1 GiB block over the whole slot (pud_set_huge).

  lemma BlockLevel(t0: Tables, t1: Tables, addr: nat, phys: nat, prot: Prot)
    requires addr % 0x4000_0000 == 0
    requires t1 == t0.(pud := t0.pud[PudIndex(addr) := Sect(phys, prot)])
    ensures Effect(t0, t1, PudIndex(addr) * 0x4000_0000, PudIndex(addr) * 0x4000_0000 + 0x4000_0000,
                   addr, addr + 0x4000_0000, phys, prot)
  {
    var j := PudIndex(addr);
    forall va: nat | addr <= va < addr + 0x4000_0000
      ensures Translate(t1, va) == Some(Pa(phys + (va - addr), prot))
    {
      PudSlot(va, j);
    }
    forall va: nat | !(j * 0x4000_0000 <= va < j * 0x4000_0000 + 0x4000_0000)
      ensures Translate(t1, va) == Translate(t0, va)
    {
      PudSlot(va, j);
    }
  }

  // ---------------------------------------------------------------------
  // pgd_addr_end and pmd_addr_end: the end of the chunk of [addr, end)
  // that lies in the slot of addr. The boundary addr + size rounded down
  // may be 2^64, which an unsigned long holds as 0; comparing boundary - 1
  // with end - 1 is what keeps that case right, and on these unbounded
  // values it is the plain comparison.

  function PgdAddrEnd(addr: nat, end: nat): (r: nat)
    requires addr < end
    ensures addr < r <= end && PudIndex(r - 1) == PudIndex(addr)
    ensures r == Min(end, (PudIndex(addr) + 1) * 0x4000_0000)
    ensures r == end || r % 0x4000_0000 == 0
  {
    var boundary := (addr + 0x4000_0000) - (addr + 0x4000_0000) % 0x4000_0000;
    if boundary - 1 < end - 1 then boundary else end
  }

  function PmdAddrEnd(addr: nat, end: nat): (r: nat)
    requires addr < end
    ensures addr < r <= end && PmdIndex(r - 1) == PmdIndex(addr)
    ensures r == Min(end, (PmdIndex(addr) + 1) * 0x20_0000)
    ensures r == end || r % 0x20_0000 == 0
  {
    var boundary := (addr + 0x20_0000) - (addr + 0x20_0000) % 0x20_0000;
    if boundary - 1 < end - 1 then boundary else end
  }

  // PAGE_ALIGN.
  function PageAlign(x: nat): (r: nat)
    ensures x <= r < x + 0x1000 && r % 0x1000 == 0
  {
    (x + 0xFFF) / 0x1000 * 0x1000
  }

  // ---------------------------------------------------------------------
  // Block or table. The source tests (addr | next | phys) & ~MASK == 0,
  // which holds exactly when each of the three has no bit below the block
  // size set; the model writes it as the three alignments.

  // use_1G_block: only the 4K granule has 1 GiB blocks at this level.
  predicate Use1GBlock(addr: nat, next: nat, phys: nat)
  {
    PAGE_SHIFT == 12 && addr % 0x4000_0000 == 0 && next % 0x4000_0000 == 0 && phys % 0x4000_0000 == 0
  }

  // The section test at the top of alloc_init_pmd's loop.
  predicate SectionAligned(addr: nat, next: nat, phys: nat)
  {
    addr % 0x20_0000 == 0 && next % 0x20_0000 == 0 && phys % 0x20_0000 == 0
  }

  // block_mappings_allowed with CONFIG_DEBUG_PAGEALLOC: the linear map must
  // use pages when debug_pagealloc is on, but a mapping made without an
  // allocator (create_mapping_noalloc) may still use blocks. Without the
  // option it is always true, which is debugPagealloc == false here.
  predicate BlockMappingsAllowed(hasAlloc: bool, debugPagealloc: bool)
  {
    !hasAlloc || !debugPagealloc
  }

  // A block is chosen only for a whole 1 GiB slot ...
  lemma BlockWholeSlot(addr: nat, next: nat, phys: nat)
    requires addr < next && PudIndex(next - 1) == PudIndex(addr)
    ensures Use1GBlock(addr, next, phys) ==> next == addr + PUD_SIZE
    ensures Use1GBlock(addr, next, phys) <==> (addr % PUD_SIZE == 0 && next == addr + PUD_SIZE && phys % PUD_SIZE == 0)
  {
  }

  // ... and a section only for a whole 2 MiB slot.
  lemma SectionWholeSlot(addr: nat, next: nat, phys: nat)
    requires addr < next && PmdIndex(next - 1) == PmdIndex(addr)
    ensures SectionAligned(addr, next, phys) <==> (addr % PMD_SIZE == 0 && next == addr + PMD_SIZE && phys % PMD_SIZE == 0)
  {
  }

  // ---------------------------------------------------------------------
  // The linear map.

  // __phys_to_virt: (x - PHYS_OFFSET) | PAGE_OFFSET, where the low 38 bits
  // of PAGE_OFFSET are clear, so for an address in the linear region the
  // OR is a sum.
  function PhysToVirt(x: nat, physOffset: nat): (r: nat)
    requires physOffset <= x < physOffset + LINEAR_SIZE
    ensures PAGE_OFFSET <= r < WORD && r + physOffset == x + PAGE_OFFSET
  {
    x - physOffset + PAGE_OFFSET
  }

  // Every address of [lo, hi) leads to its linear-map physical address.
  ghost predicate Linear(t: Tables, lo: nat, hi: nat, physOffset: nat)
  {
    forall va: nat :: lo <= va < hi ==>
      Translate(t, va).Some? && Translate(t, va).value.phys + PAGE_OFFSET == va + physOffset
  }

  lemma MapsLinear(t: Tables, lo: nat, hi: nat, phys: nat, prot: Prot, physOffset: nat)
    requires MapsRange(t, lo, hi, phys, prot) && phys + PAGE_OFFSET == lo + physOffset
    ensures Linear(t, lo, hi, physOffset)
  {
    forall va: nat | lo <= va < hi
      ensures Translate(t, va).Some? && Translate(t, va).value.phys + PAGE_OFFSET == va + physOffset
    {
      assert Translate(t, va) == Some(Pa(phys + (va - lo), prot));
    }
  }

  // A further linear mapping keeps what was linear linear.
  lemma LinearKeep(t0: Tables, t1: Tables, lo: nat, hi: nat, mlo: nat, mhi: nat, phys: nat, prot: Prot,
                   physOffset: nat)
    requires Linear(t0, lo, hi, physOffset) && hi <= WORD
    requires Effect(t0, t1, 0, WORD, mlo, mhi, phys, prot) && phys + PAGE_OFFSET == mlo + physOffset
    ensures Linear(t1, lo, hi, physOffset)
  {
    forall va: nat | lo <= va < hi
      ensures Translate(t1, va).Some? && Translate(t1, va).value.phys + PAGE_OFFSET == va + physOffset
    {
      if mlo <= va < mhi {
        assert Translate(t1, va) == Some(Pa(phys + (va - mlo), prot));
      } else {
        assert Preserved(Translate(t0, va), Translate(t1, va));
      }
    }
  }

  // Every address of [lo, hi) still leads to phys + its distance from lo,
  // with prot or, if a section split came by, PAGE_KERNEL_EXEC.
  ghost predicate MapsRangeKept(t: Tables, lo: nat, hi: nat, phys: nat, prot: Prot)
  {
    forall va: nat :: lo <= va < hi ==> Preserved(Some(Pa(phys + (va - lo), prot)), Translate(t, va))
  }

  lemma MapsKept(t: Tables, lo: nat, hi: nat, phys: nat, prot: Prot)
    requires MapsRange(t, lo, hi, phys, prot)
    ensures MapsRangeKept(t, lo, hi, phys, prot)
  {
  }

  // A mapping of a range apart from [lo, hi) keeps what [lo, hi) maps.
  lemma KeptApart(t0: Tables, t1: Tables, lo: nat, hi: nat, phys: nat, prot: Prot,
                  mlo: nat, mhi: nat, mphys: nat, mprot: Prot)
    requires MapsRangeKept(t0, lo, hi, phys, prot) && hi <= WORD && (hi <= mlo || mhi <= lo)
    requires Effect(t0, t1, 0, WORD, mlo, mhi, mphys, mprot)
    ensures MapsRangeKept(t1, lo, hi, phys, prot)
  {
    forall va: nat | lo <= va < hi
      ensures Preserved(Some(Pa(phys + (va - lo), prot)), Translate(t1, va))
    {
      assert Preserved(Translate(t0, va), Translate(t1, va));
      PreservedTrans(Some(Pa(phys + (va - lo), prot)), Translate(t0, va), Translate(t1, va));
    }
  }

  lemma PageAlignExact(x: nat)
    requires x % 0x1000 == 0
    ensures PageAlign(x) == x
  {
  }

  // The bank [vs, ve) is covered by the text [vks, vke) and the parts
  // mapped before (when the bank starts below the text) and after it (when
  // it ends above).
  lemma LinearCover(t: Tables, vs: nat, ve: nat, vks: nat, vke: nat, physOffset: nat, before: bool, after: bool)
    requires Linear(t, vks, vke, physOffset)
    requires before ==> Linear(t, vs, vks, physOffset)
    requires after ==> Linear(t, vke, ve, physOffset)
    requires !before ==> vks <= vs
    requires !after ==> ve <= vke
    ensures Linear(t, vs, ve, physOffset)
  {
    forall va: nat | vs <= va < ve
      ensures Translate(t, va).Some? && Translate(t, va).value.phys + PAGE_OFFSET == va + physOffset
    {
      if va < vks {
        assert before;
      } else if va >= vke {
        assert after;
      }
    }
  }

  // Moving by multiples of a page keeps the offset within the page.
  lemma PageOffsetShift(x: nat, y: nat, z: nat)
    requires y <= x && y % 0x1000 == 0 && z % 0x1000 == 0
    ensures (x - y + z) % 0x1000 == x % 0x1000
  {
    var qx, qy, qz := x / 0x1000, y / 0x1000, z / 0x1000;
    assert x - y + z == (qx - qy + qz) * 0x1000 + x % 0x1000;
    DivMod(x - y + z, qx - qy + qz, 0x1000, x % 0x1000);
  }

  // ---------------------------------------------------------------------
  // Clearing a block or a section (pmd_clear_huge, pud_clear_huge).

  lemma SectionCleared(t0: Tables, t1: Tables, k: nat)
    requires PmdAt(t0.pmd, k).Sect? && t1 == t0.(pmd := t0.pmd[k := Unused])
    ensures forall va: nat :: PmdIndex(va) == k && PudAt(t0.pud, PudIndex(va)).Table? ==> Translate(t1, va) == None
    ensures forall va: nat :: PmdIndex(va) == k && PudAt(t0.pud, PudIndex(va)).Table? ==> Translate(t0, va).Some?
    ensures forall va: nat :: PmdIndex(va) != k ==> Translate(t1, va) == Translate(t0, va)
  {
  }

  lemma BlockCleared(t0: Tables, t1: Tables, j: nat)
    requires PudAt(t0.pud, j).Sect? && t1 == t0.(pud := t0.pud[j := Unused])
    ensures forall va: nat :: PudIndex(va) == j ==> Translate(t1, va) == None && Translate(t0, va).Some?
    ensures forall va: nat :: PudIndex(va) != j ==> Translate(t1, va) == Translate(t0, va)
  {
  }

  // Whole subranges of a mapped range are mapped.
  lemma MapsSub(t: Tables, lo: nat, hi: nat, phys: nat, prot: Prot, lo': nat, hi': nat)
    requires MapsRange(t, lo, hi, phys, prot) && lo <= lo' && hi' <= hi
    ensures MapsRange(t, lo', hi', phys + (lo' - lo), prot)
  {
    forall va: nat | lo' <= va < hi'
      ensures Translate(t, va) == Some(Pa(phys + (lo' - lo) + (va - lo'), prot))
    {
      assert Translate(t, va) == Some(Pa(phys + (va - lo), prot));
    }
  }

  // ---------------------------------------------------------------------
  // The size of the device tree blob.

  // The int that fdt_totalsize's u32 becomes when __fixmap_remap_fdt
  // stores it through its int *size.
  function Int32(x: nat): (r: int)
    requires x < 0x1_0000_0000
    ensures -0x8000_0000 <= r < 0x8000_0000 && (r - x) % 0x1_0000_0000 == 0
  {
    if x < 0x8000_0000 then x else x - 0x1_0000_0000
  }

  // The size check as written: totalSize through an int, then compared
  // with MAX_FDT_SIZE.
  function FdtSizeAsWritten(totalSize: nat): (r: Option<int>)
    requires totalSize < 0x1_0000_0000
  {
    var size := Int32(totalSize);
    if size > MAX_FDT_SIZE then None else Some(size)
  }

  // A header claiming 2 GiB passes the check with a negative size. The
  // test against SWAPPER_BLOCK_SIZE, an unsigned long, then sees
  // offset + size as a huge unsigned value, so the second mapping is
  // attempted with a huge rounded length, and memblock_reserve later gets
  // a huge unsigned length too.
  lemma FdtNegativeSizeAccepted(offset: nat)
    requires offset < SWAPPER_BLOCK_SIZE
    ensures FdtSizeAsWritten(0x8000_0000) == Some(-0x8000_0000)
    ensures Int32(0x8000_0000) < 0
    ensures (offset + Int32(0x8000_0000)) % WORD > SWAPPER_BLOCK_SIZE
  {
  }

  // The check with the size kept unsigned: a blob is accepted exactly when
  // it fits in MAX_FDT_SIZE.
  function FdtSize(totalSize: nat): (r: Option<nat>)
    ensures r.Some? <==> totalSize <= MAX_FDT_SIZE
    ensures r.Some? ==> r.value == totalSize
  {
    if totalSize > MAX_FDT_SIZE then None else Some(totalSize)
  }

  // Both agree on every size an int holds as itself.
  lemma FdtSizeAgrees(totalSize: nat)
    requires totalSize < 0x8000_0000
    ensures FdtSizeAsWritten(totalSize) == if FdtSize(totalSize).Some? then Some(totalSize as int) else None
  {
  }

  // 2 MiB rounding of the remapped length (round_up(.., SWAPPER_BLOCK_SIZE)).
  function BlockAlign(x: nat): (r: nat)
    ensures x <= r < x + 0x20_0000 && r % 0x20_0000 == 0
  {
    (x + 0x1F_FFFF) / 0x20_0000 * 0x20_0000
  }

  // An accepted blob, wherever it starts within its 2 MiB block, fits in
  // the two blocks of the FDT fixmap slot.
  lemma FdtFitsSlot(dtPhys: nat, totalSize: nat)
    requires FdtSize(totalSize).Some?
    ensures BlockAlign(dtPhys % 0x20_0000 + totalSize) <= 2 * SWAPPER_BLOCK_SIZE
  {
  }

  // The address arithmetic of the end of __fixmap_remap_fdt: the block
  // base and the slot are page aligned, and the rounded length of an
  // accepted blob stays inside the slot.
  lemma FdtRestArith(dtPhys: nat, fdtVirtBase: nat, totalSize: nat)
    requires fdtVirtBase % 0x20_0000 == 0 && fdtVirtBase + 2 * SWAPPER_BLOCK_SIZE <= WORD
    requires FdtSize(totalSize).Some?
    ensures (dtPhys - dtPhys % SWAPPER_BLOCK_SIZE) % 0x1000 == 0 && fdtVirtBase % 0x1000 == 0
    ensures dtPhys % SWAPPER_BLOCK_SIZE + totalSize <= BlockAlign(dtPhys % SWAPPER_BLOCK_SIZE + totalSize)
    ensures fdtVirtBase + BlockAlign(dtPhys % SWAPPER_BLOCK_SIZE + totalSize) <= WORD
  {
    FdtFitsSlot(dtPhys, totalSize);
    BlockBasePageAligned(dtPhys);
    BlockBasePageAligned(fdtVirtBase);
  }

  // The start of the 2 MiB block holding x is page aligned.
  lemma BlockBasePageAligned(x: nat)
    ensures (x - x % 0x20_0000) % 0x1000 == 0
  {
    var k := x / 0x20_0000;
    assert x - x % 0x20_0000 == (k * 0x200) * 0x1000;
  }

  // ---------------------------------------------------------------------
  // The kernel's page tables (swapper_pg_dir and the tables below it).

  class PageTable {
    var pud: map<nat, Upper>
    var pmd: map<nat, Upper>
    var pte: map<nat, Pte>
    // debug_pagealloc_enabled().
    const debugPagealloc: bool
    // A BUG_ON has fired; the model carries on past it.
    ghost var oops: bool

    ghost function Tabs(): Tables
      reads this
    {
      Tables(pud, pmd, pte)
    }

    constructor (debugPagealloc: bool)
      ensures pud == map[] && pmd == map[] && pte == map[]
      ensures this.debugPagealloc == debugPagealloc && !oops
    {
      pud := map[];
      pmd := map[];
      pte := map[];
      this.debugPagealloc := debugPagealloc;
      oops := false;
    }

    // pgtable_alloc for the ptes under pmd slot k: a zeroed page.
    method FreshPtes(k: nat)
      modifies this`pte
      ensures forall n: nat ::
                PteAt(pte, n) == if k * 512 <= n < k * 512 + 512 then NoPage else PteAt(old(pte), n)
    {
      pte := map n | n in pte && !(k * 512 <= n < k * 512 + 512) :: pte[n];
    }

    // pgtable_alloc for the pmds under pud slot j: a zeroed page.
    method FreshPmds(j: nat)
      modifies this`pmd
      ensures forall k: nat ::
                PmdAt(pmd, k) == if j * 512 <= k < j * 512 + 512 then Unused else PmdAt(old(pmd), k)
    {
      pmd := map k | k in pmd && !(j * 512 <= k < j * 512 + 512) :: pmd[k];
    }

    // split_pmd: the pages of the section at pmd slot k, written into its
    // new pte table with the least restrictive attributes.
    method SplitPmd(k: nat)
      requires PmdAt(pmd, k).Sect?
      modifies this`pte
      ensures forall n: nat ::
                PteAt(pte, n) ==
                  if k * 512 <= n < k * 512 + 512
                  then Page(PmdAt(pmd, k).phys / 0x1000 + (n - k * 512), PageKernelExec)
                  else PteAt(old(pte), n)
    {
      var pfn := PmdAt(pmd, k).phys / 0x1000;
      var i := 0;
      while i < PTRS_PER_PTE
        invariant 0 <= i <= 512 && pfn == PmdAt(pmd, k).phys / 0x1000 + i
        invariant forall n: nat ::
                    PteAt(pte, n) ==
                      if k * 512 <= n < k * 512 + i
                      then Page(PmdAt(pmd, k).phys / 0x1000 + (n - k * 512), PageKernelExec)
                      else PteAt(old(pte), n)
      {
        ghost var prev := pte;
        pte := pte[k * 512 + i := Page(pfn, PageKernelExec)];
        assert forall n: nat :: PteAt(pte, n) == if n == k * 512 + i then Page(pfn, PageKernelExec) else PteAt(prev, n);
        pfn := pfn + 1;
        i := i + 1;
      }
    }

    // split_pud: the block at pud slot j as 512 sections of its new pmd
    // table, with the block's own attributes (pud_val ^ addr).
    method SplitPud(j: nat)
      requires PudAt(pud, j).Sect?
      modifies this`pmd
      ensures forall k: nat ::
                PmdAt(pmd, k) ==
                  if j * 512 <= k < j * 512 + 512
                  then Sect(PudAt(pud, j).phys + (k - j * 512) * 0x20_0000, PudAt(pud, j).prot)
                  else PmdAt(old(pmd), k)
    {
      var addr := PudAt(pud, j).phys;
      var prot := PudAt(pud, j).prot;
      var i := 0;
      while i < PTRS_PER_PMD
        invariant 0 <= i <= 512 && addr == PudAt(pud, j).phys + i * 0x20_0000
        invariant forall k: nat ::
                    PmdAt(pmd, k) ==
                      if j * 512 <= k < j * 512 + i
                      then Sect(PudAt(pud, j).phys + (k - j * 512) * 0x20_0000, prot)
                      else PmdAt(old(pmd), k)
      {
        ghost var prev := pmd;
        pmd := pmd[j * 512 + i := Sect(addr, prot)];
        assert forall k: nat :: PmdAt(pmd, k) == if k == j * 512 + i then Sect(addr, prot) else PmdAt(prev, k);
        addr := addr + PMD_SIZE;
        i := i + 1;
      }
    }
  
    // pmd_set_huge: a section at pmd slot k; the address must be 2 MiB
    // aligned (BUG_ON).
    method PmdSetHuge(k: nat, phys: nat, prot: Prot) returns (r: int)
      modifies this`pmd, this`oops
      ensures r == 1 && pmd == old(pmd)[k := Sect(phys, prot)]
      ensures oops == (old(oops) || phys % PMD_SIZE != 0)
    {
      if phys % PMD_SIZE != 0 {
        oops := true;
      }
      pmd := pmd[k := Sect(phys, prot)];
      r := 1;
    }

    // pud_set_huge: a block at pud slot j; the address must be 1 GiB
    // aligned (BUG_ON).
    method PudSetHuge(j: nat, phys: nat, prot: Prot) returns (r: int)
      modifies this`pud, this`oops
      ensures r == 1 && pud == old(pud)[j := Sect(phys, prot)]
      ensures oops == (old(oops) || phys % PUD_SIZE != 0)
    {
      if phys % PUD_SIZE != 0 {
        oops := true;
      }
      pud := pud[j := Sect(phys, prot)];
      r := 1;
    }

    // pmd_clear_huge: removes a section and answers 1; anything else is
    // left alone and the answer is 0.
    method PmdClearHuge(k: nat) returns (r: int)
      modifies this`pmd
      ensures r == (if PmdAt(old(pmd), k).Sect? then 1 else 0)
      ensures pmd == if r == 1 then old(pmd)[k := Unused] else old(pmd)
    {
      if !PmdAt(pmd, k).Sect? {
        return 0;
      }
      pmd := pmd[k := Unused];
      r := 1;
    }

    // pud_clear_huge, the same one level up.
    method PudClearHuge(j: nat) returns (r: int)
      modifies this`pud
      ensures r == (if PudAt(old(pud), j).Sect? then 1 else 0)
      ensures pud == if r == 1 then old(pud)[j := Unused] else old(pud)
    {
      if !PudAt(pud, j).Sect? {
        return 0;
      }
      pud := pud[j := Unused];
      r := 1;
    }

    // alloc_init_pte: map [addr, end), inside one pmd slot, with pages
    // from pfn on. A missing allocator is the BUG_ON(!pgtable_alloc).
    method AllocInitPte(addr: nat, end: nat, pfn: nat, prot: Prot, hasAlloc: bool)
      requires addr < end && PmdIndex(addr) == PmdIndex(end - 1)
      requires addr % 0x1000 == 0 && end % 0x1000 == 0
      modifies this
      ensures PteWritten(old(Tabs()), Tabs(), addr, end, pfn, prot)
      ensures oops == (old(oops) || (!hasAlloc && !PmdAt(old(pmd), PmdIndex(addr)).Table?))
    {
      var k := PmdIndex(addr);
      var e := PmdAt(pmd, k);
      if e.Unused? || e.Sect? {
        if !hasAlloc {
          oops := true;
        }
        FreshPtes(k);
        if e.Sect? {
          SplitPmd(k);
        }
        pmd := pmd[k := Table];
      }
      // pmd_bad cannot hold: the entry is a table now.
      var a := addr;
      var f := pfn;
      while a != end
        invariant addr <= a <= end && a % 0x1000 == 0 && f == pfn + (a - addr) / 0x1000
        invariant pud == old(pud) && pmd == old(pmd)[k := Table]
        invariant oops == (old(oops) || (!hasAlloc && !e.Table?))
        invariant forall n: nat ::
                    PteAt(pte, n) == PteAfter(old(pte), e, k, addr / 0x1000, a / 0x1000, pfn, prot, n)
        decreases end - a
      {
        ghost var prev := pte;
        pte := pte[a / 0x1000 := Page(f, prot)];
        assert forall n: nat :: PteAt(pte, n) == if n == a / 0x1000 then Page(f, prot) else PteAt(prev, n);
        f := f + 1;
        a := a + PAGE_SIZE;
      }
    }

    // One pass of alloc_init_pmd's loop: a section where the chunk, its end
    // and phys are all 2 MiB aligned and blocks are allowed, pages otherwise.
    method PmdStep(a: nat, next: nat, phys: nat, prot: Prot, hasAlloc: bool)
      requires a < next && PmdIndex(a) == PmdIndex(next - 1)
      requires a % 0x1000 == 0 && next % 0x1000 == 0 && phys % 0x1000 == 0
      requires Wf(Tabs()) && PudAt(pud, PudIndex(a)).Table?
      modifies this
      ensures Wf(Tabs()) && pud == old(pud)
      ensures Effect(old(Tabs()), Tabs(), PmdIndex(a) * 0x20_0000, PmdIndex(a) * 0x20_0000 + 0x20_0000,
                     a, next, phys, prot)
      ensures hasAlloc ==> oops == old(oops)
    {
      SectionWholeSlot(a, next, phys);
      if SectionAligned(a, next, phys) && BlockMappingsAllowed(hasAlloc, debugPagealloc) {
        var _ := PmdSetHuge(PmdIndex(a), phys, prot);
        SectLevel(old(Tabs()), Tabs(), a, phys, prot);
      } else {
        AllocInitPte(a, next, phys / 0x1000, prot, hasAlloc);
        PteLevel(old(Tabs()), Tabs(), a, next, phys / 0x1000, prot);
      }
    }

    // The table alloc_init_pmd puts under pud slot j before it maps: a
    // zeroed one for an empty entry, the block split by split_pud for a
    // block. A missing allocator is the BUG_ON(!pgtable_alloc).
    method PopulatePud(j: nat, hasAlloc: bool)
      modifies this
      ensures PudPopulated(old(Tabs()), Tabs(), j)
      ensures oops == (old(oops) || (!hasAlloc && !PudAt(old(pud), j).Table?))
    {
      var e := PudAt(pud, j);
      if e.Unused? || e.Sect? {
        if !hasAlloc {
          oops := true;
        }
        FreshPmds(j);
        if e.Sect? {
          SplitPud(j);
        }
        pud := pud[j := Table];
      } else {
        assert pud == pud[j := Table];
      }
    }

    // One pass of alloc_init_pmd's loop over [addr, end) in pud slot j.
    method PmdChunk(j: nat, addr: nat, a: nat, end: nat, phys: nat, prot: Prot, hasAlloc: bool, ghost t0: Tables)
      returns (next: nat)
      requires addr <= a < end && PudIndex(addr) == j && PudIndex(end - 1) == j
      requires a % 0x1000 == 0 && end % 0x1000 == 0 && (a == addr || a % 0x20_0000 == 0)
      requires (phys + (a - addr)) % 0x1000 == 0
      requires Wf(Tabs()) && PudAt(pud, j).Table?
      requires Progress(t0, Tabs(), j * 0x4000_0000, j * 0x4000_0000 + 0x4000_0000, addr, a, phys, prot)
      modifies this
      ensures a < next <= end && (next == end || next % 0x20_0000 == 0) && next % 0x1000 == 0
      ensures (phys + (a - addr) + (next - a)) % 0x1000 == 0
      ensures Wf(Tabs()) && PudAt(pud, j).Table?
      ensures Progress(t0, Tabs(), j * 0x4000_0000, j * 0x4000_0000 + 0x4000_0000, addr, next, phys, prot)
      ensures hasAlloc ==> oops == old(oops)
    {
      next := PmdAddrEnd(a, end);
      PmdChunkArith(j, addr, a, next, end, phys);
      ghost var tp := Tabs();
      PmdStep(a, next, phys + (a - addr), prot, hasAlloc);
      ChunkStep(t0, tp, Tabs(), j * 0x4000_0000, j * 0x4000_0000 + 0x4000_0000,
                addr, a, next, PmdIndex(a) * 0x20_0000, PmdIndex(a) * 0x20_0000 + 0x20_0000, phys, prot);
    }

    // alloc_init_pmd: map [addr, end), inside one pud slot, to phys on.
    method AllocInitPmd(addr: nat, end: nat, phys: nat, prot: Prot, hasAlloc: bool)
      requires addr < end && PudIndex(addr) == PudIndex(end - 1)
      requires addr % 0x1000 == 0 && end % 0x1000 == 0 && phys % 0x1000 == 0
      requires Wf(Tabs())
      modifies this
      ensures Wf(Tabs())
      ensures Effect(old(Tabs()), Tabs(), PudIndex(addr) * 0x4000_0000, PudIndex(addr) * 0x4000_0000 + 0x4000_0000,
                     addr, end, phys, prot)
      ensures hasAlloc ==> oops == old(oops)
    {
      var j := PudIndex(addr);
      PopulatePud(j, hasAlloc);
      PudPopulate(old(Tabs()), Tabs(), j);
      ProgressStart(old(Tabs()), Tabs(), j * 0x4000_0000, j * 0x4000_0000 + 0x4000_0000, addr, phys, prot);
      var a := addr;
      var p := phys;
      while a != end
        invariant addr <= a <= end && a % 0x1000 == 0 && (a == addr || a == end || a % 0x20_0000 == 0)
        invariant p == phys + (a - addr) && p % 0x1000 == 0
        invariant Wf(Tabs()) && PudAt(pud, j).Table?
        invariant Progress(old(Tabs()), Tabs(), j * 0x4000_0000, j * 0x4000_0000 + 0x4000_0000, addr, a, phys, prot)
        invariant hasAlloc ==> oops == old(oops)
        decreases end - a
      {
        var next := PmdChunk(j, addr, a, end, phys, prot, hasAlloc, old(Tabs()));
        p := p + (next - a);
        a := next;
      }
    }

    // alloc_init_pud. With the pud level folded into the pgd, pgd_none is
    // always false and pud_addr_end returns end, so the loop body runs once
    // over [addr, end), which lies inside one pud slot.
    method AllocInitPud(addr: nat, end: nat, phys: nat, prot: Prot, hasAlloc: bool)
      requires addr < end && PudIndex(addr) == PudIndex(end - 1)
      requires addr % 0x1000 == 0 && end % 0x1000 == 0 && phys % 0x1000 == 0
      requires Wf(Tabs())
      modifies this
      ensures Wf(Tabs())
      ensures Effect(old(Tabs()), Tabs(), PudIndex(addr) * 0x4000_0000, PudIndex(addr) * 0x4000_0000 + 0x4000_0000,
                     addr, end, phys, prot)
      ensures hasAlloc ==> oops == old(oops)
    {
      var next := end;
      BlockWholeSlot(addr, next, phys);
      if Use1GBlock(addr, next, phys) && BlockMappingsAllowed(hasAlloc, debugPagealloc) {
        var _ := PudSetHuge(PudIndex(addr), phys, prot);
        BlockLevel(old(Tabs()), Tabs(), addr, phys, prot);
      } else {
        AllocInitPmd(addr, next, phys, prot, hasAlloc);
      }
    }

    // One pass of init_pgd's loop.
    method PgdChunk(addr: nat, a: nat, end: nat, phys: nat, prot: Prot, hasAlloc: bool, ghost t0: Tables)
      returns (next: nat)
      requires addr <= a < end <= WORD && a % 0x1000 == 0 && end % 0x1000 == 0
      requires a == addr || a % 0x4000_0000 == 0
      requires (phys + (a - addr)) % 0x1000 == 0
      requires Wf(Tabs())
      requires Progress(t0, Tabs(), 0, WORD, addr, a, phys, prot)
      modifies this
      ensures a < next <= end && (next == end || next % 0x4000_0000 == 0) && next % 0x1000 == 0
      ensures (phys + (a - addr) + (next - a)) % 0x1000 == 0
      ensures Wf(Tabs())
      ensures Progress(t0, Tabs(), 0, WORD, addr, next, phys, prot)
      ensures hasAlloc ==> oops == old(oops)
    {
      next := PgdAddrEnd(a, end);
      PgdChunkArith(addr, a, next, end, phys);
      ghost var tp := Tabs();
      AllocInitPud(a, next, phys + (a - addr), prot, hasAlloc);
      ChunkStep(t0, tp, Tabs(), 0, WORD, addr, a, next,
                PudIndex(a) * 0x4000_0000, PudIndex(a) * 0x4000_0000 + 0x4000_0000, phys, prot);
    }

    // init_pgd, which __create_pgd_mapping runs: map size bytes at virt to
    // phys, widened to whole pages. When phys and virt differ in their
    // offset within a page nothing is mapped (WARN_ON). Everything outside
    // the range keeps its physical address; only the pages of a section
    // split on the way change their attributes (to PAGE_KERNEL_EXEC).
    // The requires leaves out a zero size at a page-aligned virt: there
    // end == addr, yet the do-while of init_pgd (mmu.c:324-328) still runs
    // once, mapping a whole block or section when addr and phys allow one
    // and otherwise stepping the pte do-while (mmu.c:140-143) until addr
    // wraps past the end of the address space. No caller passes such a range.
    method InitPgd(phys: nat, virt: nat, size: nat, prot: Prot, hasAlloc: bool)
      requires virt + size <= WORD
      requires 0 < size || virt % 0x1000 != 0
      requires Wf(Tabs())
      modifies this
      ensures Wf(Tabs())
      ensures hasAlloc ==> oops == old(oops)
      ensures phys % 0x1000 != virt % 0x1000 ==> Tabs() == old(Tabs()) && oops == old(oops)
      ensures phys % 0x1000 == virt % 0x1000 ==>
                Effect(old(Tabs()), Tabs(), 0, WORD, virt - virt % 0x1000,
                       virt - virt % 0x1000 + PageAlign(size + virt % 0x1000), phys - phys % 0x1000, prot)
      ensures phys % 0x1000 == virt % 0x1000 ==> MapsRange(Tabs(), virt, virt + size, phys, prot)
    {
      if phys % 0x1000 != virt % 0x1000 {
        return;
      }
      var p := phys - phys % 0x1000;
      var addr := virt - virt % 0x1000;
      var length := PageAlign(size + virt % 0x1000);
      var end := addr + length;
      InitPgdArith(virt, size);
      ProgressStart(old(Tabs()), Tabs(), 0, WORD, addr, p, prot);
      var a := addr;
      while a != end
        invariant addr <= a <= end && a % 0x1000 == 0 && (a == addr || a == end || a % 0x4000_0000 == 0)
        invariant p == phys - phys % 0x1000 + (a - addr) && p % 0x1000 == 0
        invariant Wf(Tabs())
        invariant Progress(old(Tabs()), Tabs(), 0, WORD, addr, a, phys - phys % 0x1000, prot)
        invariant hasAlloc ==> oops == old(oops)
        decreases end - a
      {
        var next := PgdChunk(addr, a, end, phys - phys % 0x1000, prot, hasAlloc, old(Tabs()));
        p := p + (next - a);
        a := next;
      }
      CoversRequest(Tabs(), phys, virt, size, prot);
    }

    // create_mapping_noalloc: a mapping below VMALLOC_START is refused (a
    // warning, nothing mapped); otherwise init_pgd without an allocator, so
    // only existing tables can be used (BUG_ON otherwise).
    method CreateMappingNoalloc(phys: nat, virt: nat, size: nat, prot: Prot)
      requires virt >= VMALLOC_START ==> virt + size <= WORD && (0 < size || virt % 0x1000 != 0)
      requires Wf(Tabs())
      modifies this
      ensures Wf(Tabs())
      ensures virt < VMALLOC_START ==> Tabs() == old(Tabs()) && oops == old(oops)
      ensures virt >= VMALLOC_START && phys % 0x1000 == virt % 0x1000 ==>
                MapsRange(Tabs(), virt, virt + size, phys, prot) &&
                Effect(old(Tabs()), Tabs(), 0, WORD, virt - virt % 0x1000,
                       virt - virt % 0x1000 + PageAlign(size + virt % 0x1000), phys - phys % 0x1000, prot)
    {
      if virt < VMALLOC_START {
        return;
      }
      InitPgd(phys, virt, size, prot, false);
    }

    // create_mapping_late: the same guard, with the page allocator behind
    // the tables, so no BUG_ON can fire.
    method CreateMappingLate(phys: nat, virt: nat, size: nat, prot: Prot)
      requires virt >= VMALLOC_START ==> virt + size <= WORD && (0 < size || virt % 0x1000 != 0)
      requires Wf(Tabs())
      modifies this
      ensures Wf(Tabs()) && oops == old(oops)
      ensures virt < VMALLOC_START ==> Tabs() == old(Tabs())
      ensures virt >= VMALLOC_START && phys % 0x1000 == virt % 0x1000 ==>
                MapsRange(Tabs(), virt, virt + size, phys, prot) &&
                Effect(old(Tabs()), Tabs(), 0, WORD, virt - virt % 0x1000,
                       virt - virt % 0x1000 + PageAlign(size + virt % 0x1000), phys - phys % 0x1000, prot)
    {
      if virt < VMALLOC_START {
        return;
      }
      InitPgd(phys, virt, size, prot, true);
    }

    // __create_pgd_mapping of a physical range at its linear-map address
    // with early_pgtable_alloc, as __map_memblock does it.
    method MapLinear(phys: nat, size: nat, prot: Prot, physOffset: nat)
      requires physOffset <= phys && phys + size <= physOffset + LINEAR_SIZE && 0 < size
      requires physOffset % 0x1000 == 0
      requires Wf(Tabs())
      modifies this
      ensures Wf(Tabs()) && oops == old(oops)
      ensures MapsRange(Tabs(), PhysToVirt(phys, physOffset), PhysToVirt(phys, physOffset) + size, phys, prot)
      ensures exists lo: nat, hi: nat, p: nat ::
                p + PAGE_OFFSET == lo + physOffset && Effect(old(Tabs()), Tabs(), 0, WORD, lo, hi, p, prot)
      ensures Effect(old(Tabs()), Tabs(), 0, WORD, PhysToVirt(phys, physOffset) - phys % 0x1000,
                     PhysToVirt(phys, physOffset) - phys % 0x1000 + PageAlign(size + phys % 0x1000),
                     phys - phys % 0x1000, prot)
    {
      var virt := PhysToVirt(phys, physOffset);
      PageOffsetShift(phys, physOffset, PAGE_OFFSET);
      InitPgd(phys, virt, size, prot, true);
      var lo, p := virt - virt % 0x1000, phys - phys % 0x1000;
      assert p + PAGE_OFFSET == lo + physOffset;
    }

    // What the PAGE_KERNEL parts beside the text [kernelStart, kernelEnd)
    // leave in t: each part that exists is linear and, when the text
    // bounds are page aligned, maps its pages as PAGE_KERNEL (up to a
    // split section's PAGE_KERNEL_EXEC).
    static ghost predicate Beside(t: Tables, start: nat, end: nat, kernelStart: nat, kernelEnd: nat, physOffset: nat)
      requires physOffset <= start < end <= physOffset + LINEAR_SIZE
      requires physOffset <= kernelStart < kernelEnd <= physOffset + LINEAR_SIZE
    {
      (start < kernelStart ==>
         Linear(t, PhysToVirt(start, physOffset), PhysToVirt(kernelStart, physOffset), physOffset)) &&
      (kernelEnd < end ==>
         Linear(t, PhysToVirt(kernelEnd, physOffset), PhysToVirt(end - 1, physOffset) + 1, physOffset)) &&
      (kernelStart % 0x1000 == 0 && kernelEnd % 0x1000 == 0 ==>
         (start < kernelStart ==>
            MapsRangeKept(t, PhysToVirt(start, physOffset), PhysToVirt(kernelStart, physOffset), start, PageKernel)) &&
         (kernelEnd < end ==>
            MapsRangeKept(t, PhysToVirt(kernelEnd, physOffset), PhysToVirt(end - 1, physOffset) + 1,
                          kernelEnd, PageKernel)))
    }

    // __map_memblock: map the memory bank [start, end) at its linear
    // address without a writable alias of the kernel text
    // [kernelStart, kernelEnd): a bank clear of the text is mapped whole as
    // PAGE_KERNEL; otherwise the parts before and after the text are, and
    // the text itself is mapped read-only last.
    method MapMemblock(start: nat, end: nat, kernelStart: nat, kernelEnd: nat, physOffset: nat)
      requires start < end && kernelStart < kernelEnd
      requires physOffset <= start && physOffset <= kernelStart
      requires end <= physOffset + LINEAR_SIZE && kernelEnd <= physOffset + LINEAR_SIZE
      requires physOffset % 0x1000 == 0
      requires Wf(Tabs())
      modifies this
      ensures Wf(Tabs()) && oops == old(oops)
      ensures Linear(Tabs(), PhysToVirt(start, physOffset), PhysToVirt(end - 1, physOffset) + 1, physOffset)
      ensures end < kernelStart || start >= kernelEnd ==>
                MapsRange(Tabs(), PhysToVirt(start, physOffset), PhysToVirt(end - 1, physOffset) + 1, start, PageKernel)
      ensures !(end < kernelStart || start >= kernelEnd) ==>
                MapsRange(Tabs(), PhysToVirt(kernelStart, physOffset), PhysToVirt(kernelEnd - 1, physOffset) + 1,
                          kernelStart, PageKernelRo)
      // With page-aligned text bounds the parts beside the text keep their
      // PAGE_KERNEL mapping (up to a split section's PAGE_KERNEL_EXEC).
      ensures !(end < kernelStart || start >= kernelEnd) && kernelStart % 0x1000 == 0 && kernelEnd % 0x1000 == 0 ==>
                (start < kernelStart ==>
                   MapsRangeKept(Tabs(), PhysToVirt(start, physOffset), PhysToVirt(kernelStart, physOffset),
                                 start, PageKernel)) &&
                (kernelEnd < end ==>
                   MapsRangeKept(Tabs(), PhysToVirt(kernelEnd, physOffset), PhysToVirt(end - 1, physOffset) + 1,
                                 kernelEnd, PageKernel))
    {
      if end < kernelStart || start >= kernelEnd {
        var vs, ve := PhysToVirt(start, physOffset), PhysToVirt(end - 1, physOffset) + 1;
        MapLinear(start, end - start, PageKernel, physOffset);
        MapsLinear(Tabs(), vs, ve, start, PageKernel, physOffset);
        return;
      }
      MapBesideText(start, end, kernelStart, kernelEnd, physOffset);
      MapTextRo(start, end, kernelStart, kernelEnd, physOffset);
    }

    // Mapping the text read-only, over its page-widened range, keeps what
    // the parts beside it map.
    static lemma TextKeepsBeside(t2: Tables, t: Tables, start: nat, end: nat, kernelStart: nat, kernelEnd: nat,
                                 physOffset: nat)
      requires physOffset <= start < end <= physOffset + LINEAR_SIZE
      requires physOffset <= kernelStart < kernelEnd <= physOffset + LINEAR_SIZE
      requires physOffset % 0x1000 == 0
      requires Beside(t2, start, end, kernelStart, kernelEnd, physOffset)
      requires Effect(t2, t, 0, WORD, PhysToVirt(kernelStart, physOffset) - kernelStart % 0x1000,
                      PhysToVirt(kernelStart, physOffset) - kernelStart % 0x1000 +
                        PageAlign(kernelEnd - kernelStart + kernelStart % 0x1000),
                      kernelStart - kernelStart % 0x1000, PageKernelRo)
      ensures Beside(t, start, end, kernelStart, kernelEnd, physOffset)
    {
      var vs, ve := PhysToVirt(start, physOffset), PhysToVirt(end - 1, physOffset) + 1;
      var vks := PhysToVirt(kernelStart, physOffset);
      var lo, p := vks - kernelStart % 0x1000, kernelStart - kernelStart % 0x1000;
      var hi := lo + PageAlign(kernelEnd - kernelStart + kernelStart % 0x1000);
      assert p + PAGE_OFFSET == lo + physOffset;
      if start < kernelStart {
        LinearKeep(t2, t, vs, vks, lo, hi, p, PageKernelRo, physOffset);
      }
      if kernelEnd < end {
        LinearKeep(t2, t, PhysToVirt(kernelEnd, physOffset), ve, lo, hi, p, PageKernelRo, physOffset);
      }
      if kernelStart % 0x1000 == 0 && kernelEnd % 0x1000 == 0 {
        PageAlignExact(kernelEnd - kernelStart);
        if start < kernelStart {
          KeptApart(t2, t, vs, vks, start, PageKernel, lo, hi, p, PageKernelRo);
        }
        if kernelEnd < end {
          KeptApart(t2, t, PhysToVirt(kernelEnd, physOffset), ve, kernelEnd, PageKernel, lo, hi, p, PageKernelRo);
        }
      }
    }

    // The first half of __map_memblock for a bank overlapping the text:
    // the parts before and after the text, as PAGE_KERNEL.
    method MapBesideText(start: nat, end: nat, kernelStart: nat, kernelEnd: nat, physOffset: nat)
      requires physOffset <= start < end <= physOffset + LINEAR_SIZE
      requires physOffset <= kernelStart < kernelEnd <= physOffset + LINEAR_SIZE
      requires !(end < kernelStart || start >= kernelEnd)
      requires physOffset % 0x1000 == 0
      requires Wf(Tabs())
      modifies this
      ensures Wf(Tabs()) && oops == old(oops)
      ensures Beside(Tabs(), start, end, kernelStart, kernelEnd, physOffset)
    {
      var vs, ve := PhysToVirt(start, physOffset), PhysToVirt(end - 1, physOffset) + 1;
      var vks := PhysToVirt(kernelStart, physOffset);
      // Each part is linear once mapped, and stays so.
      if start < kernelStart {
        MapLinear(start, kernelStart - start, PageKernel, physOffset);
        MapsLinear(Tabs(), vs, vks, start, PageKernel, physOffset);
      }
      ghost var t1 := Tabs();
      if kernelEnd < end {
        var vke := PhysToVirt(kernelEnd, physOffset);
        MapLinear(kernelEnd, end - kernelEnd, PageKernel, physOffset);
        MapsLinear(Tabs(), vke, ve, kernelEnd, PageKernel, physOffset);
        MapsKept(Tabs(), vke, ve, kernelEnd, PageKernel);
        if start < kernelStart {
          AfterKeepsBefore(t1, Tabs(), start, end, kernelStart, kernelEnd, physOffset);
        }
      } else if start < kernelStart {
        MapsKept(Tabs(), vs, vks, start, PageKernel);
      }
    }

    // Mapping the part after the text keeps the part before it.
    static lemma AfterKeepsBefore(t1: Tables, t: Tables, start: nat, end: nat, kernelStart: nat, kernelEnd: nat,
                                  physOffset: nat)
      requires physOffset <= start < kernelStart < kernelEnd < end <= physOffset + LINEAR_SIZE
      requires physOffset % 0x1000 == 0
      requires MapsRange(t1, PhysToVirt(start, physOffset), PhysToVirt(kernelStart, physOffset), start, PageKernel)
      requires Effect(t1, t, 0, WORD, PhysToVirt(kernelEnd, physOffset) - kernelEnd % 0x1000,
                      PhysToVirt(kernelEnd, physOffset) - kernelEnd % 0x1000 +
                        PageAlign(end - kernelEnd + kernelEnd % 0x1000),
                      kernelEnd - kernelEnd % 0x1000, PageKernel)
      ensures Linear(t, PhysToVirt(start, physOffset), PhysToVirt(kernelStart, physOffset), physOffset)
      ensures kernelEnd % 0x1000 == 0 ==>
                MapsRangeKept(t, PhysToVirt(start, physOffset), PhysToVirt(kernelStart, physOffset), start, PageKernel)
    {
      var vs, vks := PhysToVirt(start, physOffset), PhysToVirt(kernelStart, physOffset);
      var lo, p := PhysToVirt(kernelEnd, physOffset) - kernelEnd % 0x1000, kernelEnd - kernelEnd % 0x1000;
      var hi := lo + PageAlign(end - kernelEnd + kernelEnd % 0x1000);
      assert p + PAGE_OFFSET == lo + physOffset;
      MapsLinear(t1, vs, vks, start, PageKernel, physOffset);
      LinearKeep(t1, t, vs, vks, lo, hi, p, PageKernel, physOffset);
      if kernelEnd % 0x1000 == 0 {
        MapsKept(t1, vs, vks, start, PageKernel);
        KeptApart(t1, t, vs, vks, start, PageKernel, lo, hi, p, PageKernel);
      }
    }

    // The end of __map_memblock for a bank overlapping the text: the
    // linear alias of the text, read-only, which keeps the parts beside it.
    method MapTextRo(start: nat, end: nat, kernelStart: nat, kernelEnd: nat, physOffset: nat)
      requires physOffset <= start < end <= physOffset + LINEAR_SIZE
      requires physOffset <= kernelStart < kernelEnd <= physOffset + LINEAR_SIZE
      requires !(end < kernelStart || start >= kernelEnd)
      requires physOffset % 0x1000 == 0
      requires Wf(Tabs()) && Beside(Tabs(), start, end, kernelStart, kernelEnd, physOffset)
      modifies this
      ensures Wf(Tabs()) && oops == old(oops)
      ensures Beside(Tabs(), start, end, kernelStart, kernelEnd, physOffset)
      ensures MapsRange(Tabs(), PhysToVirt(kernelStart, physOffset), PhysToVirt(kernelEnd - 1, physOffset) + 1,
                        kernelStart, PageKernelRo)
      ensures Linear(Tabs(), PhysToVirt(start, physOffset), PhysToVirt(end - 1, physOffset) + 1, physOffset)
    {
      var vs, ve := PhysToVirt(start, physOffset), PhysToVirt(end - 1, physOffset) + 1;
      var vks, vke := PhysToVirt(kernelStart, physOffset), PhysToVirt(kernelEnd - 1, physOffset) + 1;
      ghost var t2 := Tabs();
      MapLinear(kernelStart, kernelEnd - kernelStart, PageKernelRo, physOffset);
      MapsLinear(Tabs(), vks, vke, kernelStart, PageKernelRo, physOffset);
      TextKeepsBeside(t2, Tabs(), start, end, kernelStart, kernelEnd, physOffset);
      LinearCover(Tabs(), vs, ve, vks, vke, physOffset, start < kernelStart, kernelEnd < end);
    }

    // __fixmap_remap_fdt: map the device tree blob at dtPhys at the FDT
    // fixmap slot fdtVirtBase (__fix_to_virt(FIX_FDT), 2 MiB aligned) and
    // answer its virtual address; None is NULL. headerOk is what
    // fdt_check_header says of the mapped header and totalSize its
    // totalsize field. The size check is the unsigned one (FdtSize).
    method FixmapRemapFdt(dtPhys: nat, fdtVirtBase: nat, headerOk: bool, totalSize: nat, prot: Prot)
      returns (dtVirt: Option<nat>, size: int)
      requires VMALLOC_START <= fdtVirtBase && fdtVirtBase % 0x20_0000 == 0
      requires fdtVirtBase + 2 * SWAPPER_BLOCK_SIZE <= WORD
      requires Wf(Tabs())
      modifies this
      ensures Wf(Tabs())
      ensures dtPhys == 0 || dtPhys % MIN_FDT_ALIGN != 0 ==> dtVirt == None && Tabs() == old(Tabs())
      ensures dtPhys != 0 && dtPhys % MIN_FDT_ALIGN == 0 ==>
                (dtVirt == None <==> !headerOk || FdtSize(totalSize).None?)
      ensures dtVirt.Some? ==> dtVirt.value == fdtVirtBase + dtPhys % SWAPPER_BLOCK_SIZE && size == totalSize
      ensures dtVirt.Some? ==> MapsRange(Tabs(), dtVirt.value, dtVirt.value + totalSize, dtPhys, prot)
    {
      if dtPhys == 0 || dtPhys % MIN_FDT_ALIGN != 0 {
        return None, 0;
      }
      var offset := dtPhys % SWAPPER_BLOCK_SIZE;
      var virt := fdtVirtBase + offset;
      var base := dtPhys - offset;
      BlockBasePageAligned(dtPhys);
      BlockBasePageAligned(fdtVirtBase);
      // The first block, to read the header.
      CreateMappingNoalloc(base, fdtVirtBase, SWAPPER_BLOCK_SIZE, prot);
      if !headerOk {
        return None, 0;
      }
      size := totalSize;
      if FdtSize(totalSize).None? {
        return None, size;
      }
      MapFdtRest(dtPhys, fdtVirtBase, totalSize, prot);
      dtVirt := Some(virt);
    }

    // The end of __fixmap_remap_fdt: when the blob runs past the first
    // 2 MiB block, map it again with the whole rounded length; either
    // way the blob is then mapped at its place in the slot.
    method MapFdtRest(dtPhys: nat, fdtVirtBase: nat, totalSize: nat, prot: Prot)
      requires VMALLOC_START <= fdtVirtBase && fdtVirtBase % 0x20_0000 == 0
      requires fdtVirtBase + 2 * SWAPPER_BLOCK_SIZE <= WORD
      requires Wf(Tabs()) && FdtSize(totalSize).Some?
      requires MapsRange(Tabs(), fdtVirtBase, fdtVirtBase + SWAPPER_BLOCK_SIZE,
                         dtPhys - dtPhys % SWAPPER_BLOCK_SIZE, prot)
      modifies this
      ensures Wf(Tabs())
      ensures MapsRange(Tabs(), fdtVirtBase + dtPhys % SWAPPER_BLOCK_SIZE,
                        fdtVirtBase + dtPhys % SWAPPER_BLOCK_SIZE + totalSize, dtPhys, prot)
    {
      var offset := dtPhys % SWAPPER_BLOCK_SIZE;
      var virt := fdtVirtBase + offset;
      var base := dtPhys - offset;
      FdtRestArith(dtPhys, fdtVirtBase, totalSize);
      if offset + totalSize > SWAPPER_BLOCK_SIZE {
        CreateMappingNoalloc(base, fdtVirtBase, BlockAlign(offset + totalSize), prot);
        MapsSub(Tabs(), fdtVirtBase, fdtVirtBase + BlockAlign(offset + totalSize), base, prot, virt, virt + totalSize);
      } else {
        MapsSub(Tabs(), fdtVirtBase, fdtVirtBase + SWAPPER_BLOCK_SIZE, base, prot, virt, virt + totalSize);
      }
    }
}
}
