// Early (boot-time) ioremap on top of the fixmap (mm/early_ioremap.c).
// FIX_BTMAPS_SLOTS slots, each a window of NR_FIX_BTMAPS fixmap pages;
// prev_map[slot] is the address handed out for the slot (0 for NULL),
// prev_size[slot] the size asked for. The fixmap itself is a map from
// fixmap index to the physical page installed there.

module EarlyIoremap {
  import opened Base

  const FIX_BTMAPS_SLOTS: nat := 7
  const NR_FIX_BTMAPS: nat := 64
  const TOTAL_FIX_BTMAPS: nat := 448
  // NR_FIX_BTMAPS << PAGE_SHIFT
  const MAX_MAP_CHUNK: nat := 0x40000
  // unsigned int, the type of nrpages
  const UINT_RANGE: nat := 0x1_0000_0000

  // The protections early_ioremap, early_memremap and early_memremap_ro
  // ask for (FIXMAP_PAGE_IO, FIXMAP_PAGE_NORMAL, FIXMAP_PAGE_RO).
  datatype Prot = PageIo | PageNormal | PageRo

  // A fixmap entry: the physical page and its protection.
  datatype Fix = Fix(phys: nat, prot: Prot)

  // The first index of s holding v, or -1: the slot search of
  // __early_ioremap (v = NULL) and of early_iounmap (v = the address).
  function FindSlot(s: seq<nat>, v: nat): (r: int)
    ensures -1 <= r < |s|
    ensures r >= 0 ==> s[r] == v && forall k :: 0 <= k < r ==> s[k] != v
    ensures r == -1 ==> forall k :: 0 <= k < |s| ==> s[k] != v
  {
    if s == [] then -1
    else if s[0] == v then 0
    else
      var r := FindSlot(s[1..], v);
      assert forall k :: 0 < k < |s| ==> s[k] == s[1..][k - 1];
      if r < 0 then -1 else r + 1
  }

  // The fixmap after __early_set_fixmap for n pages: index hi gets pa,
  // hi - 1 gets pa + PAGE_SIZE, and so on downwards.
  function SetRange(f: map<int, Fix>, hi: int, pa: nat, n: nat, prot: Prot): map<int, Fix>
  {
    if n == 0 then f
    else SetRange(f, hi, pa, n - 1, prot)[hi - (n - 1) := Fix(pa + (n - 1) * PAGE_SIZE, prot)]
  }

  // The fixmap after clearing n pages from index hi downwards.
  function ClearRange(f: map<int, Fix>, hi: int, n: nat): map<int, Fix>
  {
    if n == 0 then f else ClearRange(f, hi, n - 1) - {hi - (n - 1)}
  }

  lemma {:induction false} SetRangeAt(f: map<int, Fix>, hi: int, pa: nat, n: nat, prot: Prot, idx: int)
    ensures idx in SetRange(f, hi, pa, n, prot) <==> idx in f || hi - n < idx <= hi
    ensures hi - n < idx <= hi ==> SetRange(f, hi, pa, n, prot)[idx] == Fix(pa + (hi - idx) * PAGE_SIZE, prot)
    ensures !(hi - n < idx <= hi) && idx in f ==> SetRange(f, hi, pa, n, prot)[idx] == f[idx]
  {
    if n > 0 {
      SetRangeAt(f, hi, pa, n - 1, prot, idx);
    }
  }

  lemma {:induction false} ClearRangeAt(f: map<int, Fix>, hi: int, n: nat, idx: int)
    ensures idx in ClearRange(f, hi, n) <==> idx in f && !(hi - n < idx <= hi)
    ensures idx in ClearRange(f, hi, n) ==> ClearRange(f, hi, n)[idx] == f[idx]
  {
    if n > 0 {
      ClearRangeAt(f, hi, n - 1, idx);
    }
  }

  // Clearing the pages just set undoes the setting.
  lemma ClearSetRange(f: map<int, Fix>, hi: int, pa: nat, n: nat, prot: Prot)
    ensures ClearRange(SetRange(f, hi, pa, n, prot), hi, n) == ClearRange(f, hi, n)
  {
    var a, b := ClearRange(SetRange(f, hi, pa, n, prot), hi, n), ClearRange(f, hi, n);
    forall idx
      ensures idx in a <==> idx in b
      ensures idx in a ==> a[idx] == b[idx]
    {
      SetRangeAt(f, hi, pa, n, prot, idx);
      ClearRangeAt(SetRange(f, hi, pa, n, prot), hi, n, idx);
      ClearRangeAt(f, hi, n, idx);
    }
  }

  // Clearing pages that hold nothing changes nothing.
  lemma ClearRangeAbsent(f: map<int, Fix>, hi: int, n: nat)
    requires forall idx :: hi - n < idx <= hi ==> idx !in f
    ensures ClearRange(f, hi, n) == f
  {
    var a := ClearRange(f, hi, n);
    forall idx
      ensures idx in a <==> idx in f
      ensures idx in a ==> a[idx] == f[idx]
    {
      ClearRangeAt(f, hi, n, idx);
    }
  }

  // The pages __early_ioremap maps for [phys, phys + size):
  // (PAGE_ALIGN(last_addr + 1) - (phys & PAGE_MASK)) >> PAGE_SHIFT.
  function MapPages(phys: nat, size: nat): nat
  {
    (RoundUp(phys + size, PAGE_SIZE) - (phys - phys % PAGE_SIZE)) / PAGE_SIZE
  }

  // The same count as __early_ioremap stores it, in an unsigned int.
  function MapPagesAsWritten(phys: nat, size: nat): nat
  {
    MapPages(phys, size) % UINT_RANGE
  }

  // The pages early_iounmap clears for a mapping at virtual address v:
  // PAGE_ALIGN(offset + size) >> PAGE_SHIFT.
  function UnmapPages(v: nat, size: nat): nat
  {
    RoundUp(v % PAGE_SIZE + size, PAGE_SIZE) / PAGE_SIZE
  }

  // Rounding down to a page boundary gives a page boundary.
  lemma PageBase(x: nat)
    ensures (x - x % PAGE_SIZE) % PAGE_SIZE == 0
  {
    DivMod(x, x / PAGE_SIZE, PAGE_SIZE, x % PAGE_SIZE);
    assert x - x % PAGE_SIZE == (x / PAGE_SIZE) * PAGE_SIZE;
    MulMod(x / PAGE_SIZE, PAGE_SIZE);
  }

  // Adding a multiple of a commutes with rounding up to a multiple of a.
  lemma RoundUpShift(b: nat, x: nat, a: nat)
    requires a > 0 && b % a == 0
    ensures RoundUp(b + x, a) == b + RoundUp(x, a)
  {
    var r, s := RoundUp(b + x, a), b + RoundUp(x, a);
    var q := b / a;
    ExactDiv(b, a, q);
    assert s == (q + RoundUp(x, a) / a) * a by {
      ExactDiv(RoundUp(x, a), a, RoundUp(x, a) / a);
    }
    assert s % a == 0 by { MulMod(q + RoundUp(x, a) / a, a); }
    if r < s {
      DistinctMultiples(r, s, a);
    } else if s < r {
      DistinctMultiples(s, r, a);
    }
  }

  // The count of pages mapped covers the request and is the count the
  // unmap of the same size clears.
  lemma MapPagesCover(phys: nat, size: nat)
    ensures MapPages(phys, size) == UnmapPages(phys, size)
    ensures phys % PAGE_SIZE + size <= MapPages(phys, size) * PAGE_SIZE < phys % PAGE_SIZE + size + PAGE_SIZE
  {
    var o := phys % PAGE_SIZE;
    var b := phys - o;
    assert b % PAGE_SIZE == 0 by {
      assert b == (phys / PAGE_SIZE) * PAGE_SIZE;
      MulMod(phys / PAGE_SIZE, PAGE_SIZE);
    }
    RoundUpShift(b, o + size, PAGE_SIZE);
    var u := RoundUp(o + size, PAGE_SIZE);
    ExactDiv(u, PAGE_SIZE, u / PAGE_SIZE);
  }

  // Findings: nrpages is an unsigned int, so a request of 2^44 + 1 bytes
  // needs 2^32 + 1 pages but is counted as one and passes the
  // NR_FIX_BTMAPS check.
  lemma MapPagesTruncated()
    ensures MapPages(0, 0x1000_0000_0001) == UINT_RANGE + 1 > NR_FIX_BTMAPS
    ensures MapPagesAsWritten(0, 0x1000_0000_0001) == 1 <= NR_FIX_BTMAPS
    ensures MapPagesAsWritten(0, 0x1000_0000_0001) * PAGE_SIZE < 0x1000_0000_0001
  {
    var u := RoundUp(0x1000_0000_0001, PAGE_SIZE);
    assert u == 0x1000_0000_1000 by {
      var c := 0x1000_0000_1000;
      assert c % PAGE_SIZE == 0 && 0x1000_0000_0001 <= c < 0x1000_0000_0001 + PAGE_SIZE;
      if u < c {
        DistinctMultiples(u, c, PAGE_SIZE);
      } else if c < u {
        DistinctMultiples(c, u, PAGE_SIZE);
      }
    }
  }

  // last_addr = phys_addr + size - 1 in 64 bits: below phys_addr exactly
  // when the range wraps (or the size is 0 and phys_addr is 0).
  lemma LastAddr(phys: nat, size: nat)
    requires phys < WORD && size < WORD
    ensures var last := (phys + size - 1) % WORD;
            (size > 0 ==> (last < phys <==> phys + size > WORD)) &&
            (size > 0 && phys + size <= WORD ==> last + 1 == phys + size)
  {
    var x := phys + size - 1;
    if x < 0 {
      assert x % WORD == x + WORD;
    } else if x < WORD {
      assert x % WORD == x;
    } else {
      assert x % WORD == x - WORD;
    }
  }

  // Each slot's window of fixmap indices, (hi - NR_FIX_BTMAPS, hi],
  // holds exactly its n top indices.
  ghost predicate WindowExact(f: map<int, Fix>, hi: int, n: nat)
  {
    forall idx :: hi - NR_FIX_BTMAPS < idx <= hi ==> (idx in f <==> hi - n < idx)
  }

  // The early ioremap state: the three slot arrays and the fixmap. The
  // fixmap layout (FIX_BTMAP_BEGIN and FIXADDR_TOP) comes from the
  // architecture; mem is physical memory as copy_from_early_mem reads it.
  class Ioremap {
    const btmapBegin: nat
    const fixaddrTop: nat
    const prevMap: array<nat>
    const prevSize: array<nat>
    const slotVirt: array<nat>
    var fixmap: map<int, Fix>
    const mem: nat -> bv8

    // The layout leaves room for all slot windows below FIXADDR_TOP.
    predicate Config()
    {
      btmapBegin + 1 >= TOTAL_FIX_BTMAPS && fixaddrTop % PAGE_SIZE == 0 && fixaddrTop >= (btmapBegin + 1) * PAGE_SIZE &&
      prevMap.Length == FIX_BTMAPS_SLOTS && prevSize.Length == FIX_BTMAPS_SLOTS &&
      slotVirt.Length == FIX_BTMAPS_SLOTS &&
      prevMap != prevSize && prevMap != slotVirt && prevSize != slotVirt
    }

    // FIX_BTMAP_BEGIN - NR_FIX_BTMAPS * slot: the top index of the slot.
    function SlotIdx(slot: nat): int
    {
      btmapBegin - NR_FIX_BTMAPS * slot
    }

    // __fix_to_virt
    function FixToVirt(idx: int): int
    {
      fixaddrTop - idx * PAGE_SIZE
    }

    function SlotVirt(slot: nat): int
    {
      FixToVirt(SlotIdx(slot))
    }

    // virt_to_fix followed by a lookup: the physical address behind
    // virtual address v, if its page is mapped.
    function Translate(f: map<int, Fix>, v: nat): Option<nat>
    {
      var idx := (fixaddrTop - AlignDown(v, PAGE_SIZE)) / PAGE_SIZE;
      if idx in f then Some(f[idx].phys + v % PAGE_SIZE) else None
    }

    // The physical address behind byte k from virtual address v.
    function ReadAt(f: map<int, Fix>, v: nat, k: nat): Option<nat>
    {
      Translate(f, v + k)
    }

    // The pages a slot holds: those early_iounmap would clear.
    function Used(m: nat, size: nat): nat
    {
      if m == 0 then 0 else UnmapPages(m, size)
    }

    // The slot table agrees with the fixmap: an address in use lies in
    // the first page of its slot's window, and each window holds exactly
    // the pages its slot uses.
    ghost predicate Consistent(pm: seq<nat>, ps: seq<nat>, f: map<int, Fix>)
    {
      |pm| == |ps| == FIX_BTMAPS_SLOTS &&
      forall i :: 0 <= i < FIX_BTMAPS_SLOTS ==> SlotOk(f, i, pm[i], ps[i])
    }

    // One slot of Consistent.
    ghost predicate SlotOk(f: map<int, Fix>, i: nat, m: nat, size: nat)
    {
      (m != 0 ==> SlotVirt(i) <= m < SlotVirt(i) + PAGE_SIZE && Used(m, size) <= NR_FIX_BTMAPS) &&
      WindowExact(f, SlotIdx(i), Used(m, size))
    }

    ghost predicate Ready()
      reads this, prevMap, prevSize, slotVirt
    {
      Config() && (forall i :: 0 <= i < FIX_BTMAPS_SLOTS ==> slotVirt[i] == SlotVirt(i)) &&
      Consistent(prevMap[..], prevSize[..], fixmap)
    }

    constructor (btmapBegin: nat, fixaddrTop: nat, mem: nat -> bv8)
      requires btmapBegin + 1 >= TOTAL_FIX_BTMAPS && fixaddrTop % PAGE_SIZE == 0
      requires fixaddrTop >= (btmapBegin + 1) * PAGE_SIZE
      ensures Config() && fixmap == map[] && this.mem == mem
      ensures this.btmapBegin == btmapBegin && this.fixaddrTop == fixaddrTop
      ensures forall i :: 0 <= i < FIX_BTMAPS_SLOTS ==> prevMap[i] == 0
      ensures Consistent(prevMap[..], prevSize[..], fixmap)
    {
      this.btmapBegin := btmapBegin;
      this.fixaddrTop := fixaddrTop;
      this.mem := mem;
      prevMap := new nat[FIX_BTMAPS_SLOTS](_ => 0);
      prevSize := new nat[FIX_BTMAPS_SLOTS](_ => 0);
      slotVirt := new nat[FIX_BTMAPS_SLOTS](_ => 0);
      fixmap := map[];
    }

    // Slot windows are NR_FIX_BTMAPS pages apart, so they do not overlap.
    lemma WindowsDisjoint(i: nat, j: nat, idx: int)
      requires i != j
      requires SlotIdx(i) - NR_FIX_BTMAPS < idx <= SlotIdx(i)
      ensures !(SlotIdx(j) - NR_FIX_BTMAPS < idx <= SlotIdx(j))
    {
    }

    lemma SlotVirtAligned(slot: nat)
      requires Config() && slot < FIX_BTMAPS_SLOTS
      ensures SlotVirt(slot) >= PAGE_SIZE && SlotVirt(slot) % PAGE_SIZE == 0
      ensures slot > 0 ==> SlotVirt(slot) >= SlotVirt(slot - 1) + NR_FIX_BTMAPS * PAGE_SIZE
    {
      var q := fixaddrTop / PAGE_SIZE;
      ExactDiv(fixaddrTop, PAGE_SIZE, q);
      assert SlotVirt(slot) == (q - SlotIdx(slot)) * PAGE_SIZE;
      MulMod(q - SlotIdx(slot), PAGE_SIZE);
    }

    // early_ioremap_setup: the virtual address of each slot's window
    // (the WARN_ON scan of prev_map only warns).
    method Setup()
      requires Config() && Consistent(prevMap[..], prevSize[..], fixmap)
      modifies slotVirt
      ensures Ready() && forall i :: 0 <= i < FIX_BTMAPS_SLOTS ==> slotVirt[i] == SlotVirt(i)
    {
      var i := 0;
      while i < FIX_BTMAPS_SLOTS
        invariant i <= FIX_BTMAPS_SLOTS
        invariant forall k :: 0 <= k < i ==> slotVirt[k] == SlotVirt(k)
      {
        SlotVirtAligned(i);
        slotVirt[i] := FixToVirt(btmapBegin - NR_FIX_BTMAPS * i);
        i := i + 1;
      }
      assert prevMap[..] == old(prevMap[..]) && prevSize[..] == old(prevSize[..]);
    }

    // The slot search loop shared by map and unmap.
    method SearchSlot(v: nat) returns (slot: int)
      requires Config()
      ensures slot == FindSlot(prevMap[..], v)
    {
      slot := -1;
      var i := 0;
      while i < FIX_BTMAPS_SLOTS
        invariant i <= FIX_BTMAPS_SLOTS
        invariant forall k :: 0 <= k < i ==> prevMap[k] != v
      {
        if prevMap[i] == v {
          slot := i;
          break;
        }
        i := i + 1;
      }
      assert slot >= 0 ==> prevMap[..][slot] == v;
    }

    // Taking a free slot for n pages keeps the table and fixmap in step.
    lemma MapConsistent(pm: seq<nat>, ps: seq<nat>, f: map<int, Fix>, slot: nat, phys: nat, size: nat, prot: Prot)
      requires Config() && Consistent(pm, ps, f) && slot < FIX_BTMAPS_SLOTS && pm[slot] == 0
      requires MapPages(phys, size) <= NR_FIX_BTMAPS
      ensures Consistent(pm[slot := SlotVirt(slot) + phys % PAGE_SIZE], ps[slot := size],
                         SetRange(f, SlotIdx(slot), phys - phys % PAGE_SIZE, MapPages(phys, size), prot))
    {
      var n := MapPages(phys, size);
      var m := SlotVirt(slot) + phys % PAGE_SIZE;
      var f' := SetRange(f, SlotIdx(slot), phys - phys % PAGE_SIZE, n, prot);
      SlotVirtAligned(slot);
      MapPagesCover(phys, size);
      assert m % PAGE_SIZE == phys % PAGE_SIZE by {
        var q := SlotVirt(slot) / PAGE_SIZE;
        ExactDiv(SlotVirt(slot), PAGE_SIZE, q);
        ExactDiv(m - phys % PAGE_SIZE, PAGE_SIZE, q);
        assert m == q * PAGE_SIZE + phys % PAGE_SIZE;
      }
      assert Used(m, size) == n;
      forall i | 0 <= i < FIX_BTMAPS_SLOTS
        ensures WindowExact(f', SlotIdx(i), Used(pm[slot := m][i], ps[slot := size][i]))
      {
        forall idx | SlotIdx(i) - NR_FIX_BTMAPS < idx <= SlotIdx(i)
          ensures idx in f' <==> SlotIdx(i) - Used(pm[slot := m][i], ps[slot := size][i]) < idx
        {
          SetRangeAt(f, SlotIdx(slot), phys - phys % PAGE_SIZE, n, prot, idx);
          if i != slot {
            WindowsDisjoint(i, slot, idx);
          }
        }
      }
    }

    // A new size for a free slot does not matter to the fixmap.
    lemma SizeConsistent(pm: seq<nat>, ps: seq<nat>, f: map<int, Fix>, slot: nat, size: nat)
      requires Consistent(pm, ps, f) && slot < FIX_BTMAPS_SLOTS && pm[slot] == 0
      ensures Consistent(pm, ps[slot := size], f)
    {
      assert forall i :: 0 <= i < FIX_BTMAPS_SLOTS ==> Used(pm[i], ps[slot := size][i]) == Used(pm[i], ps[i]);
    }

    // Freeing a slot in use and clearing its pages keeps them in step.
    lemma UnmapConsistent(pm: seq<nat>, ps: seq<nat>, f: map<int, Fix>, s: nat)
      requires Config() && Consistent(pm, ps, f) && s < FIX_BTMAPS_SLOTS && pm[s] != 0
      ensures Consistent(pm[s := 0], ps, ClearRange(f, SlotIdx(s), Used(pm[s], ps[s])))
    {
      var f' := ClearRange(f, SlotIdx(s), Used(pm[s], ps[s]));
      forall i | 0 <= i < FIX_BTMAPS_SLOTS
        ensures WindowExact(f', SlotIdx(i), Used(pm[s := 0][i], ps[i]))
      {
        forall idx | SlotIdx(i) - NR_FIX_BTMAPS < idx <= SlotIdx(i)
          ensures idx in f' <==> SlotIdx(i) - Used(pm[s := 0][i], ps[i]) < idx
        {
          ClearRangeAt(f, SlotIdx(s), Used(pm[s], ps[s]), idx);
          if i != s {
            WindowsDisjoint(i, s, idx);
          }
        }
      }
    }

    // The __early_set_fixmap loop of __early_ioremap: n pages from index
    // idx down, physical addresses going up from pa.
    method SetPages(idx: int, pa: nat, nrpages: nat, prot: Prot)
      modifies this`fixmap
      ensures fixmap == SetRange(old(fixmap), idx, pa, nrpages, prot)
    {
      var i, p, left := idx, pa, nrpages;
      while left > 0
        invariant 0 <= left <= nrpages
        invariant fixmap == SetRange(old(fixmap), idx, pa, nrpages - left, prot)
        invariant p == pa + (nrpages - left) * PAGE_SIZE && i == idx - (nrpages - left)
      {
        fixmap := fixmap[i := Fix(p, prot)];
        p := p + PAGE_SIZE;
        i := i - 1;
        left := left - 1;
      }
    }

    // The clearing loop of early_iounmap.
    method ClearPages(idx: int, nrpages: nat)
      modifies this`fixmap
      ensures fixmap == ClearRange(old(fixmap), idx, nrpages)
    {
      var i, left := idx, nrpages;
      while left > 0
        invariant 0 <= left <= nrpages
        invariant fixmap == ClearRange(old(fixmap), idx, nrpages - left)
        invariant i == idx - (nrpages - left)
      {
        fixmap := fixmap - {i};
        i := i - 1;
        left := left - 1;
      }
    }

    // What __early_ioremap does, from slot table pm0/ps0 and fixmap f0 to
    // pm/ps/f, returning r.
    ghost predicate MapOutcome(pm0: seq<nat>, ps0: seq<nat>, f0: map<int, Fix>,
                               pm: seq<nat>, ps: seq<nat>, f: map<int, Fix>,
                               phys: nat, size: nat, prot: Prot, r: nat)
    {
      var slot := FindSlot(pm0, 0);
      if slot < 0 || slot >= |ps0| || size == 0 || phys + size > WORD then
        // no free slot, or a zero or wrapping range
        r == 0 && pm == pm0 && ps == ps0 && f == f0
      else if MapPages(phys, size) > NR_FIX_BTMAPS then
        // too many pages, after prev_size was written
        r == 0 && pm == pm0 && ps == ps0[slot := size] && f == f0
      else
        r == SlotVirt(slot) + phys % PAGE_SIZE && r != 0 &&
        pm == pm0[slot := r] && ps == ps0[slot := size] &&
        f == SetRange(f0, SlotIdx(slot), phys - phys % PAGE_SIZE, MapPages(phys, size), prot)
    }

    // __early_ioremap: map [phys, phys + size) into the lowest free slot.
    // NULL (0) when no slot is free, for a zero size or a range that
    // wraps, and when the range needs more than NR_FIX_BTMAPS pages (by
    // then prev_size[slot] has been written). Otherwise the slot's pages
    // are set from its top index down and the address of phys within the
    // window is recorded and returned.
    method Map(phys: nat, size: nat, prot: Prot) returns (r: nat)
      requires Ready() && phys < WORD && size < WORD
      modifies prevMap, prevSize, this`fixmap
      ensures Ready()
      ensures MapOutcome(old(prevMap[..]), old(prevSize[..]), old(fixmap), prevMap[..], prevSize[..], fixmap,
                         phys, size, prot, r)
    {
      var slot := SearchSlot(0);
      if slot < 0 {
        return 0;
      }
      var lastAddr := (phys + size - 1) % WORD;
      LastAddr(phys, size);
      if size == 0 || lastAddr < phys {
        return 0;
      }
      r := MapSlot(slot, phys, size, prot, lastAddr);
    }

    // The part of __early_ioremap after the checks: record the size,
    // count the pages, and map them unless there are too many. The count
    // is the full one (MapPagesCover), not the source's 32-bit unsigned
    // int nrpages (MapPagesTruncated).
    method MapSlot(slot: nat, phys: nat, size: nat, prot: Prot, lastAddr: nat) returns (r: nat)
      requires Ready() && slot == FindSlot(prevMap[..], 0) >= 0
      requires size > 0 && lastAddr + 1 == phys + size <= WORD
      modifies prevMap, prevSize, this`fixmap
      ensures Ready()
      ensures MapOutcome(old(prevMap[..]), old(prevSize[..]), old(fixmap), prevMap[..], prevSize[..], fixmap,
                         phys, size, prot, r)
    {
      ghost var pm0, ps0 := prevMap[..], prevSize[..];
      prevSize[slot] := size;
      assert prevSize[..] == ps0[slot := size];
      var offset := phys % PAGE_SIZE;
      var pa: nat := phys - offset;
      var nrpages := (RoundUp(lastAddr + 1, PAGE_SIZE) - pa) / PAGE_SIZE;
      assert nrpages == MapPages(phys, size);
      if nrpages > NR_FIX_BTMAPS {
        SizeConsistent(pm0, ps0, fixmap, slot, size);
        return 0;
      }
      MapConsistent(pm0, ps0, fixmap, slot, phys, size, prot);
      SetPages(SlotIdx(slot), pa, nrpages, prot);
      SlotVirtAligned(slot);
      prevMap[slot] := offset + slotVirt[slot];
      assert prevMap[..] == pm0[slot := offset + slotVirt[slot]];
      assert Consistent(prevMap[..], prevSize[..], fixmap);
      return prevMap[slot];
    }

    // early_iounmap: undo the mapping at addr. An address no slot holds,
    // a size other than the one mapped, or an address below the windows
    // changes nothing; otherwise the slot's pages are cleared and the
    // slot is freed.
    method Unmap(addr: nat, size: nat)
      requires Ready()
      modifies prevMap, this`fixmap
      ensures Ready()
      ensures var s := FindSlot(old(prevMap[..]), addr);
              s < 0 || prevSize[s] != size || addr < SlotVirt(0) ==>
                prevMap[..] == old(prevMap[..]) && fixmap == old(fixmap)
      ensures var s := FindSlot(old(prevMap[..]), addr);
              s >= 0 && prevSize[s] == size && addr >= SlotVirt(0) ==>
                prevMap[..] == old(prevMap[..])[s := 0] &&
                fixmap == ClearRange(old(fixmap), SlotIdx(s), UnmapPages(addr, size))
    {
      var slot := SearchSlot(addr);
      if slot < 0 {
        return;
      }
      if prevSize[slot] != size {
        return;
      }
      if addr < FixToVirt(btmapBegin) {
        return;
      }
      SlotVirtAligned(0);
      ghost var pm0 := prevMap[..];
      UnmapConsistent(pm0, prevSize[..], fixmap, slot);
      var offset := addr % PAGE_SIZE;
      var nrpages := RoundUp(offset + size, PAGE_SIZE) / PAGE_SIZE;
      ClearPages(SlotIdx(slot), nrpages);
      prevMap[slot] := 0;
      assert prevMap[..] == pm0[slot := 0];
    }

    // The window of a slot mapped from pa reads back pa, byte by byte.
    lemma TranslateMapped(slot: nat, f: map<int, Fix>, pa: nat, n: nat, prot: Prot, t: nat)
      requires Config() && slot < FIX_BTMAPS_SLOTS && t < n * PAGE_SIZE
      ensures SlotVirt(slot) >= 0
      ensures Translate(SetRange(f, SlotIdx(slot), pa, n, prot), SlotVirt(slot) + t) == Some(pa + t)
    {
      SlotVirtAligned(slot);
      var j, o := t / PAGE_SIZE, t % PAGE_SIZE;
      var q := fixaddrTop / PAGE_SIZE;
      ExactDiv(fixaddrTop, PAGE_SIZE, q);
      var v := SlotVirt(slot) + t;
      assert v == (q - SlotIdx(slot) + j) * PAGE_SIZE + o;
      DivMod(v, q - SlotIdx(slot) + j, PAGE_SIZE, o);
      assert AlignDown(v, PAGE_SIZE) == (q - SlotIdx(slot) + j) * PAGE_SIZE;
      var idx := SlotIdx(slot) - j;
      assert fixaddrTop - AlignDown(v, PAGE_SIZE) == idx * PAGE_SIZE;
      DivMod(idx * PAGE_SIZE, idx, PAGE_SIZE, 0);
      assert j < n;
      SetRangeAt(f, SlotIdx(slot), pa, n, prot, idx);
    }

    // memcpy from a virtual address behind the fixmap.
    method Memcpy(dest: array<bv8>, d: nat, f: map<int, Fix>, v: nat, len: nat)
      requires d + len <= dest.Length
      requires forall k :: 0 <= k < len ==> ReadAt(f, v, k).Some?
      modifies dest
      ensures forall k :: 0 <= k < dest.Length ==>
                dest[k] == if d <= k < d + len then mem(ReadAt(f, v, k - d).value) else old(dest[k])
    {
      forall k | d <= k < d + len {
        dest[k] := mem(ReadAt(f, v, k - d).value);
      }
    }

    // After the chunk at src is mapped: the slot, window and fixmap it took.
    lemma ChunkMapped(pm0: seq<nat>, ps0: seq<nat>, f0: map<int, Fix>,
                      pm: seq<nat>, ps: seq<nat>, f: map<int, Fix>, src: nat, clen: nat, p: nat)
      requires Config() && Consistent(pm0, ps0, f0) && FindSlot(pm0, 0) >= 0
      requires 0 < clen && clen + src % PAGE_SIZE <= MAX_MAP_CHUNK && src + clen <= WORD
      requires MapOutcome(pm0, ps0, f0, pm, ps, f, src - src % PAGE_SIZE, clen + src % PAGE_SIZE, PageNormal, p)
      ensures var slot, n := FindSlot(pm0, 0), MapPages(src - src % PAGE_SIZE, clen + src % PAGE_SIZE);
              p == SlotVirt(slot) && pm == pm0[slot := p] &&
              ps == ps0[slot := clen + src % PAGE_SIZE] &&
              f == SetRange(f0, SlotIdx(slot), src - src % PAGE_SIZE, n, PageNormal)
    {
      PageBase(src);
      MapPagesCover(src - src % PAGE_SIZE, clen + src % PAGE_SIZE);
    }

    // The mapped chunk's window: early_iounmap finds it by its address and
    // clears exactly the pages mapped, which cover the chunk.
    lemma ChunkWindow(pm0: seq<nat>, slot: nat, src: nat, clen: nat, p: nat)
      requires Config() && |pm0| == FIX_BTMAPS_SLOTS && FindSlot(pm0, 0) == slot >= 0 && p == SlotVirt(slot)
      requires clen + src % PAGE_SIZE <= MAX_MAP_CHUNK
      requires forall i :: 0 <= i < slot ==> pm0[i] != p
      ensures var n := MapPages(src - src % PAGE_SIZE, clen + src % PAGE_SIZE);
              p >= SlotVirt(0) && FindSlot(pm0[slot := p], p) == slot &&
              NR_FIX_BTMAPS >= n && n * PAGE_SIZE >= clen + src % PAGE_SIZE &&
              UnmapPages(p, clen + src % PAGE_SIZE) == n
    {
      PageBase(src);
      MapPagesCover(src - src % PAGE_SIZE, clen + src % PAGE_SIZE);
      SlotVirtAligned(slot);
      var pm := pm0[slot := p];
      assert pm[slot] == p;
    }

    // No slot in use holds the first address of another slot's window.
    lemma SlotStartsFree(pm: seq<nat>, ps: seq<nat>, f: map<int, Fix>, slot: nat)
      requires Config() && Consistent(pm, ps, f) && slot < FIX_BTMAPS_SLOTS
      ensures forall i :: 0 <= i < FIX_BTMAPS_SLOTS && i != slot ==> pm[i] != SlotVirt(slot)
    {
      forall i | 0 <= i < FIX_BTMAPS_SLOTS && i != slot
        ensures pm[i] != SlotVirt(slot)
      {
        assert SlotOk(f, i, pm[i], ps[i]);
      }
    }

    // The bytes of the mapped chunk read back from its physical source.
    lemma ChunkReadable(slot: nat, f0: map<int, Fix>, f: map<int, Fix>, src: nat, clen: nat, n: nat, v: nat)
      requires Config() && slot < FIX_BTMAPS_SLOTS && n * PAGE_SIZE >= clen + src % PAGE_SIZE
      requires f == SetRange(f0, SlotIdx(slot), src - src % PAGE_SIZE, n, PageNormal)
      requires v == SlotVirt(slot) + src % PAGE_SIZE
      ensures forall k :: 0 <= k < clen ==> ReadAt(f, v, k) == Some(src + k)
    {
      forall k | 0 <= k < clen
        ensures ReadAt(f, v, k) == Some(src + k)
      {
        TranslateMapped(slot, f0, src - src % PAGE_SIZE, n, PageNormal, src % PAGE_SIZE + k);
      }
    }

    // Unmapping the chunk's window leaves the slot table and the fixmap as
    // they were before it was mapped.
    lemma ChunkRestored(pm0: seq<nat>, ps0: seq<nat>, f0: map<int, Fix>, slot: nat, pa: nat, n: nat, p: nat)
      requires Config() && Consistent(pm0, ps0, f0) && FindSlot(pm0, 0) == slot >= 0 && n <= NR_FIX_BTMAPS
      ensures ClearRange(SetRange(f0, SlotIdx(slot), pa, n, PageNormal), SlotIdx(slot), n) == f0
      ensures pm0[slot := p][slot := 0] == pm0
    {
      ClearSetRange(f0, SlotIdx(slot), pa, n, PageNormal);
      assert SlotOk(f0, slot, pm0[slot], ps0[slot]);
      assert WindowExact(f0, SlotIdx(slot), 0);
      ClearRangeAbsent(f0, SlotIdx(slot), n);
    }

    // The destination buffer is none of the slot arrays.
    predicate Apart(dest: array<bv8>)
    {
      dest as object != prevMap && dest as object != prevSize && dest as object != slotVirt
    }

    // One round of copy_from_early_mem: map the pages holding
    // [src, src + clen), copy the bytes out, unmap them again.
    method CopyChunk(dest: array<bv8>, d: nat, src: nat, clen: nat)
      requires Ready() && FindSlot(prevMap[..], 0) >= 0 && Apart(dest)
      requires 0 < clen && clen + src % PAGE_SIZE <= MAX_MAP_CHUNK && src + clen <= WORD && d + clen <= dest.Length
      modifies dest, prevMap, prevSize, this`fixmap
      ensures Ready() && prevMap[..] == old(prevMap[..]) && fixmap == old(fixmap)
      ensures forall i :: 0 <= i < FIX_BTMAPS_SLOTS && prevMap[i] != 0 ==> prevSize[i] == old(prevSize[i])
      ensures forall k :: 0 <= k < dest.Length ==>
                dest[k] == if d <= k < d + clen then mem(src + (k - d)) else old(dest[k])
    {
      ghost var slot := FindSlot(prevMap[..], 0);
      ghost var pm0, ps0, f0 := prevMap[..], prevSize[..], fixmap;
      var slop := src % PAGE_SIZE;
      ghost var n := MapPages(src - slop, clen + slop);
      var p := MapChunk(src, clen);
      var v := p + slop;
      ChunkReadable(slot, f0, fixmap, src, clen, n, v);
      Memcpy(dest, d, fixmap, v, clen);
      UnmapChunk(slot, p, clen + slop, n);
      ChunkRestored(pm0, ps0, f0, slot, src - slop, n, p);
    }

    // The unmapping half of a round of copy_from_early_mem.
    method UnmapChunk(ghost slot: nat, p: nat, size: nat, ghost n: nat)
      requires Ready() && slot < FIX_BTMAPS_SLOTS && FindSlot(prevMap[..], p) == slot
      requires prevSize[slot] == size && p >= SlotVirt(0) && UnmapPages(p, size) == n
      modifies prevMap, this`fixmap
      ensures Ready() && prevMap[..] == old(prevMap[..])[slot := 0]
      ensures fixmap == ClearRange(old(fixmap), SlotIdx(slot), n)
    {
      Unmap(p, size);
    }

    // The mapping half of a round of copy_from_early_mem.
    method MapChunk(src: nat, clen: nat) returns (p: nat)
      requires Ready() && FindSlot(prevMap[..], 0) >= 0
      requires 0 < clen && clen + src % PAGE_SIZE <= MAX_MAP_CHUNK && src + clen <= WORD
      modifies prevMap, prevSize, this`fixmap
      ensures Ready()
      ensures var slot, n := FindSlot(old(prevMap[..]), 0), MapPages(src - src % PAGE_SIZE, clen + src % PAGE_SIZE);
              p == SlotVirt(slot) && p >= SlotVirt(0) && NR_FIX_BTMAPS >= n && n * PAGE_SIZE >= clen + src % PAGE_SIZE &&
              prevMap[..] == old(prevMap[..])[slot := p] && FindSlot(prevMap[..], p) == slot &&
              prevSize[..] == old(prevSize[..])[slot := clen + src % PAGE_SIZE] &&
              fixmap == SetRange(old(fixmap), SlotIdx(slot), src - src % PAGE_SIZE, n, PageNormal) &&
              UnmapPages(p, clen + src % PAGE_SIZE) == n
    {
      ghost var slot := FindSlot(prevMap[..], 0);
      ghost var pm0, ps0, f0 := prevMap[..], prevSize[..], fixmap;
      var slop := src % PAGE_SIZE;
      p := Map(src - slop, clen + slop, PageNormal);
      ChunkMapped(pm0, ps0, f0, prevMap[..], prevSize[..], fixmap, src, clen, p);
      SlotStartsFree(pm0, ps0, f0, slot);
      ChunkWindow(pm0, slot, src, clen, p);
    }

    // copy_from_early_mem: copy size bytes of physical memory at src to
    // dest, at most MAX_MAP_CHUNK bytes of mapped pages at a time. A free
    // slot is needed (the kernel would dereference NULL otherwise); the
    // slot table and fixmap are as they were afterwards.
    method CopyFromEarlyMem(dest: array<bv8>, d: nat, src: nat, size: nat)
      requires Ready() && FindSlot(prevMap[..], 0) >= 0 && Apart(dest)
      requires d + size <= dest.Length && src + size <= WORD
      modifies dest, prevMap, prevSize, this`fixmap
      ensures Ready() && prevMap[..] == old(prevMap[..]) && fixmap == old(fixmap)
      ensures forall i :: 0 <= i < FIX_BTMAPS_SLOTS && prevMap[i] != 0 ==> prevSize[i] == old(prevSize[i])
      ensures forall k :: 0 <= k < dest.Length ==>
                dest[k] == if d <= k < d + size then mem(src + (k - d)) else old(dest[k])
    {
      var dp, sp, left := d, src, size;
      while left > 0
        invariant 0 <= left <= size && dp == d + (size - left) && sp == src + (size - left)
        invariant Ready() && prevMap[..] == old(prevMap[..]) && fixmap == old(fixmap)
        invariant forall i :: 0 <= i < FIX_BTMAPS_SLOTS && prevMap[i] != 0 ==> prevSize[i] == old(prevSize[i])
        invariant forall k :: 0 <= k < dest.Length ==>
                    dest[k] == if d <= k < dp then mem(src + (k - d)) else old(dest[k])
      {
        var slop := sp % PAGE_SIZE;
        var clen := left;
        if clen > MAX_MAP_CHUNK - slop {
          clen := MAX_MAP_CHUNK - slop;
        }
        CopyChunk(dest, dp, sp, clen);
        dp, sp, left := dp + clen, sp + clen, left - clen;
      }
    }

    // check_early_ioremap_leak: 1 when a slot is still in use.
    method CheckLeak() returns (r: int)
      requires Config()
      ensures r == 0 || r == 1
      ensures r == 1 <==> exists i :: 0 <= i < FIX_BTMAPS_SLOTS && prevMap[i] != 0
      ensures r == 1 <==> CountUsed(prevMap[..]) > 0
    {
      var count := 0;
      var i := 0;
      while i < FIX_BTMAPS_SLOTS
        invariant i <= FIX_BTMAPS_SLOTS
        invariant count == CountUsed(prevMap[..i])
      {
        assert prevMap[..i + 1][..i] == prevMap[..i];
        if prevMap[i] != 0 {
          count := count + 1;
        }
        i := i + 1;
      }
      assert prevMap[..] == prevMap[..FIX_BTMAPS_SLOTS];
      CountUsedZero(prevMap[..]);
      r := if count > 0 then 1 else 0;
    }
  }

  // The number of slots in use.
  function CountUsed(s: seq<nat>): nat
  {
    if s == [] then 0 else CountUsed(s[..|s| - 1]) + (if s[|s| - 1] != 0 then 1 else 0)
  }

  lemma {:induction false} CountUsedZero(s: seq<nat>)
    ensures CountUsed(s) == 0 <==> forall i :: 0 <= i < |s| ==> s[i] == 0
  {
    if s != [] {
      CountUsedZero(s[..|s| - 1]);
      assert forall i :: 0 <= i < |s| - 1 ==> s[..|s| - 1][i] == s[i];
    }
  }
}
