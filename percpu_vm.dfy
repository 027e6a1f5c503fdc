// The vmalloc-backed chunk allocator of the per-CPU allocator
// (mm/percpu-vm.c): the shared temporary pages array, allocating and
// freeing a page range for every unit, mapping it into a chunk with
// rollback, and populating and depopulating a chunk's page range.
//
// Every possible CPU owns one unit: units 0 .. nrUnits - 1, and page i of
// unit c sits at index c * unitPages + i of the pages array. A chunk's
// vmalloc area is a map from (unit, page) to the page mapped there. The
// page allocator hands out page numbers from 1 up (0 is NULL); whether an
// allocation or a mapping succeeds is an oracle indexed by the attempt.

module PercpuVm {
  import opened Base

  // c * up: where unit c's pages start in the pages array.
  function RowBase(up: nat, c: nat): nat
  {
    if c == 0 then 0 else RowBase(up, c - 1) + up
  }

  // pcpu_page_idx with the identity unit map.
  function Idx(up: nat, c: nat, i: nat): nat
  {
    RowBase(up, c) + i
  }

  lemma {:induction false} RowBaseMul(up: nat, c: nat)
    ensures RowBase(up, c) == c * up
  {
    if c > 0 {
      RowBaseMul(up, c - 1);
      assert c * up == (c - 1) * up + up;
    }
  }

  // Rows follow each other without overlap.
  lemma {:induction false} RowsApart(up: nat, c1: nat, c2: nat)
    requires c1 < c2
    ensures RowBase(up, c1) + up <= RowBase(up, c2)
  {
    if c1 + 1 < c2 {
      RowsApart(up, c1, c2 - 1);
    }
  }

  lemma RowInArray(up: nat, n: nat, c: nat)
    requires c < n
    ensures Idx(up, c, 0) + up <= n * up
  {
    RowsApart(up, c, n);
    RowBaseMul(up, n);
  }

  // Entry k of the pages array, NULL past its end.
  function Page(s: seq<nat>, k: nat): nat
  {
    if k < |s| then s[k] else 0
  }

  function NonNull(p: nat): set<nat>
  {
    if p == 0 then {} else {p}
  }

  // The pages held by unit c's entries [start, end).
  function RowIds(s: seq<nat>, up: nat, c: nat, start: nat, end: nat): set<nat>
    decreases end
  {
    if end <= start then {} else RowIds(s, up, c, start, end - 1) + NonNull(Page(s, Idx(up, c, end - 1)))
  }

  // The pages held by entries [start, end) of units 0 .. cpus - 1.
  function GridIds(s: seq<nat>, up: nat, cpus: nat, start: nat, end: nat): set<nat>
  {
    if cpus == 0 then {} else GridIds(s, up, cpus - 1, start, end) + RowIds(s, up, cpus - 1, start, end)
  }

  // A place in a chunk's vmalloc area: page `page` of unit `cpu`.
  datatype Loc = Loc(cpu: nat, page: nat)

  predicate InGrid(l: Loc, cpus: nat, start: nat, end: nat)
  {
    l.cpu < cpus && start <= l.page < end
  }

  // vmalloc_to_page: the page mapped at a place, NULL if none is.
  function Lookup(vm: map<Loc, nat>, c: nat, i: nat): nat
  {
    if Loc(c, i) in vm then vm[Loc(c, i)] else 0
  }

  // The mappings __pcpu_map_pages adds for unit c.
  function RowMap(s: seq<nat>, up: nat, c: nat, start: nat, end: nat): map<Loc, nat>
  {
    map i | start <= i < end :: Loc(c, i) := Page(s, Idx(up, c, i))
  }

  // The mappings of units 0 .. cpus - 1.
  function GridMap(s: seq<nat>, up: nat, cpus: nat, start: nat, end: nat): map<Loc, nat>
  {
    if cpus == 0 then map[] else GridMap(s, up, cpus - 1, start, end) + RowMap(s, up, cpus - 1, start, end)
  }

  // __pcpu_unmap_pages for unit c.
  function RowUnmap(vm: map<Loc, nat>, c: nat, start: nat, end: nat): map<Loc, nat>
  {
    map l | l in vm && !(l.cpu == c && start <= l.page < end) :: vm[l]
  }

  // The area with entries [start, end) of units 0 .. cpus - 1 unmapped.
  function GridUnmap(vm: map<Loc, nat>, cpus: nat, start: nat, end: nat): map<Loc, nat>
  {
    map l | l in vm && !InGrid(l, cpus, start, end) :: vm[l]
  }

  // pcpu_set_page_chunk for every page of ids.
  function Owned(ids: set<nat>, id: nat): map<nat, nat>
  {
    map p | p in ids :: id
  }

  // RowIds holds exactly the non-NULL entries of the row.
  lemma {:induction false} RowIdsMem(s: seq<nat>, up: nat, c: nat, start: nat, end: nat, p: nat)
    ensures p in RowIds(s, up, c, start, end) <==>
            p != 0 && exists i :: start <= i < end && Page(s, Idx(up, c, i)) == p
  {
    if end > start {
      RowIdsMem(s, up, c, start, end - 1, p);
      if p != 0 && Page(s, Idx(up, c, end - 1)) != p {
        if exists i :: start <= i < end && Page(s, Idx(up, c, i)) == p {
          var i :| start <= i < end && Page(s, Idx(up, c, i)) == p;
          assert i < end - 1;
        }
      }
    }
  }

  // GridIds holds exactly the non-NULL entries of the rows.
  lemma {:induction false} GridIdsMem(s: seq<nat>, up: nat, cpus: nat, start: nat, end: nat, p: nat)
    ensures p in GridIds(s, up, cpus, start, end) <==>
            p != 0 && exists c, i :: 0 <= c < cpus && start <= i < end && Page(s, Idx(up, c, i)) == p
  {
    if cpus > 0 {
      GridIdsMem(s, up, cpus - 1, start, end, p);
      RowIdsMem(s, up, cpus - 1, start, end, p);
    }
  }

  // A row's pages depend only on the row's entries.
  lemma {:induction false} RowIdsFrame(s: seq<nat>, t: seq<nat>, up: nat, c: nat, start: nat, end: nat)
    requires forall i :: start <= i < end ==> Page(s, Idx(up, c, i)) == Page(t, Idx(up, c, i))
    ensures RowIds(s, up, c, start, end) == RowIds(t, up, c, start, end)
  {
    if end > start {
      RowIdsFrame(s, t, up, c, start, end - 1);
    }
  }

  lemma {:induction false} GridIdsFrame(s: seq<nat>, t: seq<nat>, up: nat, cpus: nat, start: nat, end: nat)
    requires forall c, i :: 0 <= c < cpus && start <= i < end ==> Page(s, Idx(up, c, i)) == Page(t, Idx(up, c, i))
    ensures GridIds(s, up, cpus, start, end) == GridIds(t, up, cpus, start, end)
  {
    if cpus > 0 {
      GridIdsFrame(s, t, up, cpus - 1, start, end);
      RowIdsFrame(s, t, up, cpus - 1, start, end);
    }
  }

  // Entries all within [lo, hi) give pages within [lo, hi).
  lemma {:induction false} RowIdsBounded(s: seq<nat>, up: nat, c: nat, start: nat, end: nat, lo: nat, hi: nat)
    requires forall i :: start <= i < end ==> lo <= Page(s, Idx(up, c, i)) < hi
    ensures forall p :: p in RowIds(s, up, c, start, end) ==> lo <= p < hi
  {
    if end > start {
      RowIdsBounded(s, up, c, start, end - 1, lo, hi);
    }
  }

  lemma {:induction false} GridIdsBounded(s: seq<nat>, up: nat, cpus: nat, start: nat, end: nat, lo: nat, hi: nat)
    requires forall c, i :: 0 <= c < cpus && start <= i < end ==> lo <= Page(s, Idx(up, c, i)) < hi
    ensures forall p :: p in GridIds(s, up, cpus, start, end) ==> lo <= p < hi
  {
    if cpus > 0 {
      GridIdsBounded(s, up, cpus - 1, start, end, lo, hi);
      RowIdsBounded(s, up, cpus - 1, start, end, lo, hi);
    }
  }

  // GridMap maps exactly the places of the grid, each to its entry.
  lemma {:induction false} GridMapAt(s: seq<nat>, up: nat, cpus: nat, start: nat, end: nat, l: Loc)
    ensures l in GridMap(s, up, cpus, start, end) <==> InGrid(l, cpus, start, end)
    ensures l in GridMap(s, up, cpus, start, end) ==> GridMap(s, up, cpus, start, end)[l] == Page(s, Idx(up, l.cpu, l.page))
  {
    if cpus > 0 {
      GridMapAt(s, up, cpus - 1, start, end, l);
      if l.cpu == cpus - 1 && start <= l.page < end {
        assert l == Loc(cpus - 1, l.page);
        assert l in RowMap(s, up, cpus - 1, start, end);
      }
    }
  }

  // Mapping a grid into an area where it is not mapped and then
  // unmapping it gives the area back, and while mapped each place reads
  // back its entry: depopulating a populated range records the same pages.
  lemma MapUnmapRoundTrip(vm: map<Loc, nat>, s: seq<nat>, up: nat, cpus: nat, start: nat, end: nat)
    requires forall l :: l in vm ==> !InGrid(l, cpus, start, end)
    ensures GridUnmap(vm + GridMap(s, up, cpus, start, end), cpus, start, end) == vm
    ensures forall c, i :: 0 <= c < cpus && start <= i < end ==>
              Lookup(vm + GridMap(s, up, cpus, start, end), c, i) == Page(s, Idx(up, c, i))
  {
    var m := vm + GridMap(s, up, cpus, start, end);
    forall l
      ensures l in GridUnmap(m, cpus, start, end) <==> l in vm
      ensures l in vm ==> GridUnmap(m, cpus, start, end)[l] == vm[l]
    {
      GridMapAt(s, up, cpus, start, end, l);
    }
    forall c, i | 0 <= c < cpus && start <= i < end
      ensures Lookup(m, c, i) == Page(s, Idx(up, c, i))
    {
      GridMapAt(s, up, cpus, start, end, Loc(c, i));
    }
  }

  // Filling row cpu leaves the rows of the units before it alone.
  lemma EarlierRowsKept(up: nat, s1: seq<nat>, s2: seq<nat>, cpu: nat, start: nat, end: nat)
    requires start <= end <= up && |s2| == |s1|
    requires forall k :: 0 <= k < |s2| && !(Idx(up, cpu, start) <= k < Idx(up, cpu, end)) ==> s2[k] == s1[k]
    ensures forall c, i :: 0 <= c < cpu && 0 <= i < up ==> Page(s1, Idx(up, c, i)) == Page(s2, Idx(up, c, i))
  {
    forall c, i | 0 <= c < cpu && 0 <= i < up
      ensures Page(s1, Idx(up, c, i)) == Page(s2, Idx(up, c, i))
    {
      RowsApart(up, c, cpu);
    }
  }

  // The pages of rows 0..cpu are all in [n0, h2) once row cpu's are in
  // [h1, h2) and the earlier ones in [n0, h1).
  lemma RowsBoundedStep(up: nat, s1: seq<nat>, s2: seq<nat>, cpu: nat, start: nat, end: nat,
                        n0: nat, h1: nat, h2: nat)
    requires start <= end <= up && n0 <= h1 <= h2
    requires forall c, i :: 0 <= c < cpu && 0 <= i < up ==> Page(s1, Idx(up, c, i)) == Page(s2, Idx(up, c, i))
    requires forall c, i :: 0 <= c < cpu && start <= i < end ==> n0 <= Page(s1, Idx(up, c, i)) < h1
    requires forall i :: start <= i < end ==> h1 <= Page(s2, Idx(up, cpu, i)) < h2
    ensures forall c, i :: 0 <= c < cpu + 1 && start <= i < end ==> n0 <= Page(s2, Idx(up, c, i)) < h2
  {
    forall c, i | 0 <= c < cpu + 1 && start <= i < end
      ensures n0 <= Page(s2, Idx(up, c, i)) < h2
    {
      if c < cpu {
        assert Page(s2, Idx(up, c, i)) == Page(s1, Idx(up, c, i));
      }
    }
  }

  // Entries outside [start, end), and every row after cpu, still hold
  // what they held before the first round.
  lemma UntouchedStep(up: nat, s0: seq<nat>, s1: seq<nat>, s2: seq<nat>, cpu: nat, start: nat, end: nat)
    requires start <= end <= up && |s1| == |s0| && |s2| == |s1|
    requires forall k :: 0 <= k < |s2| && !(Idx(up, cpu, start) <= k < Idx(up, cpu, end)) ==> s2[k] == s1[k]
    requires forall c, i :: 0 <= c < cpu && 0 <= i < up ==> Page(s1, Idx(up, c, i)) == Page(s2, Idx(up, c, i))
    requires forall k :: Idx(up, cpu, 0) <= k < |s1| ==> s1[k] == s0[k]
    requires forall c, i :: 0 <= c < cpu && 0 <= i < up && (i < start || end <= i) ==>
               Page(s1, Idx(up, c, i)) == Page(s0, Idx(up, c, i))
    ensures forall c, i :: 0 <= c < cpu + 1 && 0 <= i < up && (i < start || end <= i) ==>
              Page(s2, Idx(up, c, i)) == Page(s0, Idx(up, c, i))
    ensures forall k :: Idx(up, cpu + 1, 0) <= k < |s2| ==> s2[k] == s0[k]
  {
    RowsApart(up, cpu, cpu + 1);
    forall c, i | 0 <= c < cpu + 1 && 0 <= i < up && (i < start || end <= i)
      ensures Page(s2, Idx(up, c, i)) == Page(s0, Idx(up, c, i))
    {
      assert Page(s2, Idx(up, c, i)) == Page(s1, Idx(up, c, i));
    }
  }

  // The non-NULL pages mapped at places [start, end) of units 0 .. cpus - 1.
  function MappedIds(vm: map<Loc, nat>, cpus: nat, start: nat, end: nat): set<nat>
  {
    set c, i | 0 <= c < cpus && start <= i < end && Lookup(vm, c, i) != 0 :: Lookup(vm, c, i)
  }

  // Entries that record what is mapped hold exactly the mapped pages.
  lemma GridIdsRecorded(s: seq<nat>, vm: map<Loc, nat>, up: nat, cpus: nat, start: nat, end: nat)
    requires forall c, i :: 0 <= c < cpus && start <= i < end ==> Page(s, Idx(up, c, i)) == Lookup(vm, c, i)
    ensures GridIds(s, up, cpus, start, end) == MappedIds(vm, cpus, start, end)
  {
    forall p
      ensures p in GridIds(s, up, cpus, start, end) <==> p in MappedIds(vm, cpus, start, end)
    {
      GridIdsMem(s, up, cpus, start, end, p);
    }
  }

  // Unmapping one more unit's range.
  lemma GridUnmapStep(vm: map<Loc, nat>, c: nat, start: nat, end: nat)
    ensures RowUnmap(GridUnmap(vm, c, start, end), c, start, end) == GridUnmap(vm, c + 1, start, end)
  {
  }

  // Unmapping units before c leaves the places of unit c and later ones alone.
  lemma GridUnmapLater(vm: map<Loc, nat>, cpus: nat, start: nat, end: nat, c: nat, i: nat)
    requires cpus <= c
    ensures Lookup(GridUnmap(vm, cpus, start, end), c, i) == Lookup(vm, c, i)
  {
  }

  // Mapping one more unit's range.
  lemma GridMapStep(vm: map<Loc, nat>, s: seq<nat>, up: nat, c: nat, start: nat, end: nat)
    ensures (vm + GridMap(s, up, c, start, end)) + RowMap(s, up, c, start, end) == vm + GridMap(s, up, c + 1, start, end)
  {
  }

  // Marking one more unit's pages.
  lemma OwnedStep(o: map<nat, nat>, a: set<nat>, b: set<nat>, id: nat)
    ensures (o + Owned(a, id)) + Owned(b, id) == o + Owned(a + b, id)
  {
  }

  // Adding one page to the set whose pages belong to a chunk.
  lemma OwnedAdd(base: map<nat, nat>, a: set<nat>, p: nat, id: nat)
    ensures (base + Owned(a, id))[p := id] == base + Owned(a + {p}, id)
  {
  }

  // Recording row cpu of the mappings into the entries keeps the rows
  // recorded before.
  lemma RecordedStep(up: nat, vm: map<Loc, nat>, s1: seq<nat>, s2: seq<nat>, cpu: nat, start: nat, end: nat)
    requires start <= end <= up
    requires forall c, i :: 0 <= c < cpu && 0 <= i < up ==> Page(s1, Idx(up, c, i)) == Page(s2, Idx(up, c, i))
    requires forall c, i :: 0 <= c < cpu && start <= i < end ==> Page(s1, Idx(up, c, i)) == Lookup(vm, c, i)
    requires forall i :: start <= i < end ==> Page(s2, Idx(up, cpu, i)) == Lookup(vm, cpu, i)
    ensures forall c, i :: 0 <= c < cpu + 1 && start <= i < end ==> Page(s2, Idx(up, c, i)) == Lookup(vm, c, i)
  {
    forall c, i | 0 <= c < cpu + 1 && start <= i < end
      ensures Page(s2, Idx(up, c, i)) == Lookup(vm, c, i)
    {
      if c < cpu {
        assert Page(s2, Idx(up, c, i)) == Page(s1, Idx(up, c, i));
      }
    }
  }

  // Depopulating a range that a populate call has just mapped gives back
  // the mappings and the set of live pages as they were before it.
  lemma DepopulateUndoesPopulate(vm: map<Loc, nat>, s: seq<nat>, up: nat, cpus: nat, start: nat, end: nat,
                                 before: set<nat>)
    requires forall l :: l in vm ==> !InGrid(l, cpus, start, end)
    requires forall c, i :: 0 <= c < cpus && start <= i < end ==> Page(s, Idx(up, c, i)) !in before
    ensures GridUnmap(vm + GridMap(s, up, cpus, start, end), cpus, start, end) == vm
    ensures (before + MappedIds(vm + GridMap(s, up, cpus, start, end), cpus, start, end)) -
            MappedIds(vm + GridMap(s, up, cpus, start, end), cpus, start, end) == before
  {
    MapUnmapRoundTrip(vm, s, up, cpus, start, end);
    GridIdsRecorded(s, vm + GridMap(s, up, cpus, start, end), up, cpus, start, end);
    forall p | p in GridIds(s, up, cpus, start, end)
      ensures p !in before
    {
      GridIdsMem(s, up, cpus, start, end, p);
    }
  }

  // A chunk of the per-CPU allocator; only its vmalloc area is modelled.
  class Chunk {
    const id: nat
    var vmap: map<Loc, nat>

    constructor (id: nat)
      ensures this.id == id && vmap == map[]
    {
      this.id := id;
      vmap := map[];
    }
  }

  // The allocator state this file uses: the static temporary pages array
  // of pcpu_get_pages, the page allocator, and page->index as set by
  // pcpu_set_page_chunk.
  class PcpuVm {
    const nrUnits: nat
    const unitPages: nat
    var tmp: array?<nat>
    var live: set<nat>
    var nextPage: nat
    var allocs: nat
    var mapAttempts: nat
    var owner: map<nat, nat>
    const zallocFails: bool
    const allocFails: nat -> bool
    const mapFails: nat -> bool

    ghost predicate Valid()
      reads this
    {
      nextPage >= 1 && (forall p :: p in live ==> 1 <= p < nextPage) &&
      (tmp != null ==> tmp.Length == nrUnits * unitPages)
    }

    constructor (nrUnits: nat, unitPages: nat, zallocFails: bool, allocFails: nat -> bool, mapFails: nat -> bool)
      ensures Valid() && tmp == null && live == {} && owner == map[]
      ensures this.nrUnits == nrUnits && this.unitPages == unitPages
      ensures this.zallocFails == zallocFails && this.allocFails == allocFails && this.mapFails == mapFails
    {
      this.nrUnits := nrUnits;
      this.unitPages := unitPages;
      tmp := null;
      live := {};
      nextPage := 1;
      allocs := 0;
      mapAttempts := 0;
      owner := map[];
      this.zallocFails := zallocFails;
      this.allocFails := allocFails;
      this.mapFails := mapFails;
    }

    // pcpu_get_pages: the one temporary array, allocated zeroed on the
    // first call that can get it and returned unchanged afterwards.
    method GetPages() returns (p: array?<nat>)
      requires Valid()
      modifies this`tmp
      ensures Valid() && p == tmp
      ensures old(tmp) != null ==> tmp == old(tmp)
      ensures old(tmp) == null && zallocFails ==> tmp == null
      ensures old(tmp) == null && !zallocFails ==>
                tmp != null && fresh(tmp) && forall k :: 0 <= k < tmp.Length ==> tmp[k] == 0
    {
      if tmp == null && !zallocFails {
        tmp := new nat[nrUnits * unitPages](_ => 0);
      }
      p := tmp;
    }

    // alloc_pages_node: a new page, or NULL.
    method AllocPage() returns (p: nat)
      requires Valid()
      modifies this`live, this`nextPage, this`allocs
      ensures Valid() && allocs == old(allocs) + 1
      ensures allocFails(old(allocs)) ==> p == 0 && live == old(live) && nextPage == old(nextPage)
      ensures !allocFails(old(allocs)) ==> p == old(nextPage) && live == old(live) + {p} && nextPage == p + 1
    {
      var k := allocs;
      allocs := allocs + 1;
      if allocFails(k) {
        return 0;
      }
      p := nextPage;
      live := live + {p};
      nextPage := nextPage + 1;
    }

    // __free_page.
    method FreePage(p: nat)
      modifies this`live
      ensures live == old(live) - {p}
    {
      live := live - {p};
    }

    // The inner loop of pcpu_free_pages: free the non-NULL entries
    // [start, end) of unit c.
    method FreeRow(pages: array<nat>, c: nat, start: nat, end: nat)
      modifies this`live
      ensures live == old(live) - RowIds(pages[..], unitPages, c, start, end)
    {
      var i := start;
      while i < end
        invariant i == start || start <= i <= end
        invariant live == old(live) - RowIds(pages[..], unitPages, c, start, i)
      {
        var k := Idx(unitPages, c, i);
        if k < pages.Length && pages[k] != 0 {
          FreePage(pages[k]);
        }
        i := i + 1;
      }
    }

    // Free the entries [start, end) of units 0 .. cpus - 1.
    method FreeRows(pages: array<nat>, cpus: nat, start: nat, end: nat)
      modifies this`live
      ensures live == old(live) - GridIds(pages[..], unitPages, cpus, start, end)
    {
      var c := 0;
      while c < cpus
        invariant c <= cpus
        invariant live == old(live) - GridIds(pages[..], unitPages, c, start, end)
      {
        FreeRow(pages, c, start, end);
        c := c + 1;
      }
    }

    // pcpu_free_pages: free the non-NULL entries [start, end) of every
    // unit, and nothing else.
    method FreePages(pages: array<nat>, start: nat, end: nat)
      modifies this`live
      ensures live == old(live) - GridIds(pages[..], unitPages, nrUnits, start, end)
    {
      FreeRows(pages, nrUnits, start, end);
    }

    // The inner loop of pcpu_alloc_pages for unit c, with the part of its
    // error path that frees, from the top down, the pages this unit got
    // before the failing one.
    method AllocRow(pages: array<nat>, c: nat, start: nat, end: nat) returns (ok: bool)
      requires Valid() && pages.Length == nrUnits * unitPages && c < nrUnits && start <= end <= unitPages
      modifies pages, this`live, this`nextPage, this`allocs
      ensures Valid() && old(nextPage) <= nextPage
      ensures forall k :: 0 <= k < pages.Length && !(Idx(unitPages, c, start) <= k < Idx(unitPages, c, end)) ==>
                pages[k] == old(pages[k])
      ensures ok ==> live == old(live) + RowIds(pages[..], unitPages, c, start, end)
      ensures ok ==> forall i :: start <= i < end ==> old(nextPage) <= Page(pages[..], Idx(unitPages, c, i)) < nextPage
      ensures !ok ==> live == old(live)
    {
      RowInArray(unitPages, nrUnits, c);
      ghost var n0 := nextPage;
      var i := start;
      while i < end
        invariant start <= i <= end && Valid() && nextPage == n0 + (i - start)
        invariant forall q :: q in old(live) ==> q < n0
        invariant forall k :: 0 <= k < pages.Length && !(Idx(unitPages, c, start) <= k < Idx(unitPages, c, i)) ==>
                    pages[k] == old(pages[k])
        invariant forall j :: start <= j < i ==> Page(pages[..], Idx(unitPages, c, j)) == n0 + (j - start)
        invariant live == old(live) + RowIds(pages[..], unitPages, c, start, i)
      {
        var k := Idx(unitPages, c, i);
        ghost var before := pages[..];
        var x := AllocPage();
        pages[k] := x;
        RowIdsFrame(before, pages[..], unitPages, c, start, i);
        if x == 0 {
          FreeRowDown(pages, c, start, i, old(live), n0);
          return false;
        }
        i := i + 1;
      }
      ok := true;
    }

    // The first loop of pcpu_alloc_pages' error path: free unit c's
    // entries below i, from the top down. They hold the consecutive pages
    // n0, n0 + 1, ... this call got, none of which was live before.
    method FreeRowDown(pages: array<nat>, c: nat, start: nat, i: nat, ghost before: set<nat>, ghost n0: nat)
      requires Idx(unitPages, c, i) <= pages.Length && start <= i
      requires forall j :: start <= j < i ==> Page(pages[..], Idx(unitPages, c, j)) == n0 + (j - start)
      requires forall q :: q in before ==> q < n0
      requires live == before + RowIds(pages[..], unitPages, c, start, i)
      modifies this`live
      ensures live == before
    {
      var j := i;
      while j > start
        invariant start <= j <= i
        invariant live == before + RowIds(pages[..], unitPages, c, start, j)
      {
        j := j - 1;
        var p := pages[Idx(unitPages, c, j)];
        RowIdsBounded(pages[..], unitPages, c, start, j, n0, p);
        FreePage(p);
      }
    }

    // What the first cpu rounds of pcpu_alloc_pages have done, from
    // array s0 and live set before: every entry [start, end) of those
    // units holds a page in [n0, hi), and live has gained exactly those
    // pages; the other entries of those units and every entry of the
    // later units are as they were.
    ghost predicate AllocatedSoFar(s: seq<nat>, s0: seq<nat>, cpu: nat, start: nat, end: nat,
                                   n0: nat, hi: nat, l: set<nat>, before: set<nat>)
    {
      |s| == |s0| &&
      l == before + GridIds(s, unitPages, cpu, start, end) &&
      (forall c, i :: 0 <= c < cpu && start <= i < end ==> n0 <= Page(s, Idx(unitPages, c, i)) < hi) &&
      (forall k :: Idx(unitPages, cpu, 0) <= k < |s| ==> s[k] == s0[k]) &&
      (forall c, i :: 0 <= c < cpu && 0 <= i < unitPages && (i < start || end <= i) ==>
         Page(s, Idx(unitPages, c, i)) == Page(s0, Idx(unitPages, c, i)))
    }

    // One round of pcpu_alloc_pages' outer loop, for unit cpu; when it
    // fails, the rest of the error path has freed the earlier units'
    // entries too.
    method AllocUnit(pages: array<nat>, cpu: nat, start: nat, end: nat,
                     ghost s0: seq<nat>, ghost before: set<nat>, ghost n0: nat) returns (ok: bool)
      requires Valid() && pages.Length == nrUnits * unitPages && cpu < nrUnits && start <= end <= unitPages
      requires (forall q :: q in before ==> q < n0) && n0 <= nextPage
      requires AllocatedSoFar(pages[..], s0, cpu, start, end, n0, nextPage, live, before)
      modifies pages, this`live, this`nextPage, this`allocs
      ensures Valid() && old(nextPage) <= nextPage
      ensures ok ==> AllocatedSoFar(pages[..], s0, cpu + 1, start, end, n0, nextPage, live, before)
      ensures !ok ==> live == before
    {
      ghost var s1, l1, h1 := pages[..], live, nextPage;
      ok := AllocRow(pages, cpu, start, end);
      if !ok {
        // The entries freed here were all set by this call, so the
        // NULL test inside FreeRow never skips one.
        RowKept(s0, s1, pages[..], cpu, start, end, n0, h1, nextPage, l1, before);
        FreeRows(pages, cpu, start, end);
        return;
      }
      RowAdded(s0, s1, pages[..], cpu, start, end, n0, h1, nextPage, l1, live, before);
    }

    // After unit cpu's row [start, end) has been filled with pages in
    // [h1, h2): the earlier rounds' work is intact and one more unit done.
    lemma RowAdded(s0: seq<nat>, s1: seq<nat>, s2: seq<nat>, cpu: nat, start: nat, end: nat,
                   n0: nat, h1: nat, h2: nat, l1: set<nat>, l2: set<nat>, before: set<nat>)
      requires start <= end <= unitPages && n0 <= h1 <= h2
      requires AllocatedSoFar(s1, s0, cpu, start, end, n0, h1, l1, before)
      requires |s2| == |s1|
      requires forall k :: 0 <= k < |s2| && !(Idx(unitPages, cpu, start) <= k < Idx(unitPages, cpu, end)) ==> s2[k] == s1[k]
      requires l2 == l1 + RowIds(s2, unitPages, cpu, start, end)
      requires forall i :: start <= i < end ==> h1 <= Page(s2, Idx(unitPages, cpu, i)) < h2
      ensures AllocatedSoFar(s2, s0, cpu + 1, start, end, n0, h2, l2, before)
    {
      EarlierRowsKept(unitPages, s1, s2, cpu, start, end);
      GridIdsFrame(s1, s2, unitPages, cpu, start, end);
      RowsBoundedStep(unitPages, s1, s2, cpu, start, end, n0, h1, h2);
      UntouchedStep(unitPages, s0, s1, s2, cpu, start, end);
    }

    // After unit cpu's row has failed and been freed again: live is back
    // to the earlier rounds' state, whose pages are all new.
    lemma RowKept(s0: seq<nat>, s1: seq<nat>, s2: seq<nat>, cpu: nat, start: nat, end: nat,
                  n0: nat, h1: nat, h2: nat, l1: set<nat>, before: set<nat>)
      requires start <= end <= unitPages && h1 <= h2
      requires AllocatedSoFar(s1, s0, cpu, start, end, n0, h1, l1, before)
      requires |s2| == |s1|
      requires forall k :: 0 <= k < |s2| && !(Idx(unitPages, cpu, start) <= k < Idx(unitPages, cpu, end)) ==> s2[k] == s1[k]
      ensures l1 == before + GridIds(s2, unitPages, cpu, start, end)
      ensures forall p :: p in GridIds(s2, unitPages, cpu, start, end) ==> n0 <= p < h2
    {
      forall c, i | 0 <= c < cpu && start <= i < end
        ensures Page(s1, Idx(unitPages, c, i)) == Page(s2, Idx(unitPages, c, i))
      {
        RowsApart(unitPages, c, cpu);
      }
      GridIdsFrame(s1, s2, unitPages, cpu, start, end);
      GridIdsBounded(s2, unitPages, cpu, start, end, n0, h2);
    }

    // pcpu_alloc_pages: a new page in entries [start, end) of every unit,
    // or -ENOMEM with every page allocated on the way freed again.
    method AllocPages(pages: array<nat>, start: nat, end: nat) returns (r: int)
      requires Valid() && pages.Length == nrUnits * unitPages && start <= end <= unitPages
      modifies pages, this`live, this`nextPage, this`allocs
      ensures Valid() && old(nextPage) <= nextPage
      ensures r == 0 || r == -ENOMEM
      ensures r == 0 ==> AllocatedSoFar(pages[..], old(pages[..]), nrUnits, start, end, old(nextPage), nextPage,
                                        live, old(live))
      ensures r != 0 ==> live == old(live)
    {
      ghost var n0 := nextPage;
      var cpu := 0;
      while cpu < nrUnits
        invariant cpu <= nrUnits && Valid() && n0 <= nextPage
        invariant forall q :: q in old(live) ==> q < n0
        invariant AllocatedSoFar(pages[..], old(pages[..]), cpu, start, end, n0, nextPage, live, old(live))
      {
        var ok := AllocUnit(pages, cpu, start, end, old(pages[..]), old(live), n0);
        if !ok {
          return -ENOMEM;
        }
        cpu := cpu + 1;
      }
      r := 0;
    }
    // __pcpu_map_pages for unit c: map entries [start, end) at the unit's
    // places. Whether the page tables can be extended is not modelled: it
    // is an oracle indexed by the attempt.
    method MapRow(chunk: Chunk, pages: array<nat>, c: nat, start: nat, end: nat) returns (err: int)
      modifies chunk`vmap, this`mapAttempts
      ensures mapAttempts == old(mapAttempts) + 1
      ensures err == (if mapFails(old(mapAttempts)) then -ENOMEM else 0)
      ensures err == 0 ==> chunk.vmap == old(chunk.vmap) + RowMap(pages[..], unitPages, c, start, end)
      ensures err != 0 ==> chunk.vmap == old(chunk.vmap)
    {
      var k := mapAttempts;
      mapAttempts := mapAttempts + 1;
      if mapFails(k) {
        return -ENOMEM;
      }
      chunk.vmap := chunk.vmap + RowMap(pages[..], unitPages, c, start, end);
      err := 0;
    }

    // The inner loop of pcpu_map_pages: pcpu_set_page_chunk for every
    // entry [start, end) of unit c, which all hold pages.
    method SetRowChunk(pages: array<nat>, c: nat, start: nat, end: nat, id: nat)
      requires forall i :: start <= i < end ==> Page(pages[..], Idx(unitPages, c, i)) != 0
      modifies this`owner
      ensures owner == old(owner) + Owned(RowIds(pages[..], unitPages, c, start, end), id)
    {
      var i := start;
      while i < end
        invariant i == start || start <= i <= end
        invariant owner == old(owner) + Owned(RowIds(pages[..], unitPages, c, start, i), id)
      {
        var k := Idx(unitPages, c, i);
        assert Page(pages[..], k) != 0;
        OwnedAdd(old(owner), RowIds(pages[..], unitPages, c, start, i), pages[k], id);
        owner := owner[pages[k] := id];
        i := i + 1;
      }
    }

    // __pcpu_unmap_pages for units 0 .. cpus - 1.
    method UnmapRows(chunk: Chunk, cpus: nat, start: nat, end: nat)
      modifies chunk`vmap
      ensures chunk.vmap == GridUnmap(old(chunk.vmap), cpus, start, end)
    {
      var c := 0;
      while c < cpus
        invariant c <= cpus
        invariant chunk.vmap == GridUnmap(old(chunk.vmap), c, start, end)
      {
        GridUnmapStep(old(chunk.vmap), c, start, end);
        chunk.vmap := RowUnmap(chunk.vmap, c, start, end);
        c := c + 1;
      }
    }

    // pcpu_map_pages: map entries [start, end) of every unit into the
    // chunk's area and mark their pages as the chunk's. When mapping unit
    // cpu fails, the units before it are unmapped again, so the area is as
    // it was; the pages already marked stay marked.
    method MapPages(chunk: Chunk, pages: array<nat>, start: nat, end: nat) returns (err: int)
      requires forall l :: l in chunk.vmap ==> !InGrid(l, nrUnits, start, end)
      requires forall c, i :: 0 <= c < nrUnits && start <= i < end ==> Page(pages[..], Idx(unitPages, c, i)) != 0
      modifies chunk`vmap, this`mapAttempts, this`owner
      ensures err == 0 || err == -ENOMEM
      ensures err == 0 ==> chunk.vmap == old(chunk.vmap) + GridMap(pages[..], unitPages, nrUnits, start, end)
      ensures err == 0 ==> owner == old(owner) + Owned(GridIds(pages[..], unitPages, nrUnits, start, end), chunk.id)
      ensures err != 0 ==> chunk.vmap == old(chunk.vmap)
      ensures err != 0 ==> exists c :: 0 <= c < nrUnits &&
                             owner == old(owner) + Owned(GridIds(pages[..], unitPages, c, start, end), chunk.id)
    {
      var cpu := 0;
      while cpu < nrUnits
        invariant cpu <= nrUnits
        invariant chunk.vmap == old(chunk.vmap) + GridMap(pages[..], unitPages, cpu, start, end)
        invariant owner == old(owner) + Owned(GridIds(pages[..], unitPages, cpu, start, end), chunk.id)
      {
        err := MapUnit(chunk, pages, cpu, start, end, old(chunk.vmap), old(owner));
        if err < 0 {
          return;
        }
        cpu := cpu + 1;
      }
      err := 0;
    }

    // One round of pcpu_map_pages' loop, for unit cpu, with the error path
    // that unmaps units 0 .. cpu - 1 when mapping this one fails.
    method MapUnit(chunk: Chunk, pages: array<nat>, cpu: nat, start: nat, end: nat,
                   ghost vm0: map<Loc, nat>, ghost o0: map<nat, nat>) returns (err: int)
      requires cpu < nrUnits
      requires forall l :: l in vm0 ==> !InGrid(l, nrUnits, start, end)
      requires forall i :: start <= i < end ==> Page(pages[..], Idx(unitPages, cpu, i)) != 0
      requires chunk.vmap == vm0 + GridMap(pages[..], unitPages, cpu, start, end)
      requires owner == o0 + Owned(GridIds(pages[..], unitPages, cpu, start, end), chunk.id)
      modifies chunk`vmap, this`mapAttempts, this`owner
      ensures err == 0 || err == -ENOMEM
      ensures err == 0 ==> chunk.vmap == vm0 + GridMap(pages[..], unitPages, cpu + 1, start, end)
      ensures err == 0 ==> owner == o0 + Owned(GridIds(pages[..], unitPages, cpu + 1, start, end), chunk.id)
      ensures err != 0 ==> chunk.vmap == vm0
      ensures err != 0 ==> owner == o0 + Owned(GridIds(pages[..], unitPages, cpu, start, end), chunk.id)
    {
      err := MapRow(chunk, pages, cpu, start, end);
      if err < 0 {
        UnmapRows(chunk, cpu, start, end);
        MapUnmapRoundTrip(vm0, pages[..], unitPages, cpu, start, end);
        return;
      }
      GridMapStep(vm0, pages[..], unitPages, cpu, start, end);
      SetRowChunk(pages, cpu, start, end, chunk.id);
      OwnedStep(o0, GridIds(pages[..], unitPages, cpu, start, end), RowIds(pages[..], unitPages, cpu, start, end), chunk.id);
    }

    // The inner loop of pcpu_unmap_pages for unit c: record the page
    // mapped at each of the unit's places [start, end).
    method RecordRow(chunk: Chunk, pages: array<nat>, c: nat, start: nat, end: nat)
      requires start <= end && Idx(unitPages, c, end) <= pages.Length
      modifies pages
      ensures forall i :: start <= i < end ==> Page(pages[..], Idx(unitPages, c, i)) == Lookup(chunk.vmap, c, i)
      ensures forall k :: 0 <= k < pages.Length && !(Idx(unitPages, c, start) <= k < Idx(unitPages, c, end)) ==>
                pages[k] == old(pages[k])
    {
      var i := start;
      while i < end
        invariant start <= i <= end
        invariant forall j :: start <= j < i ==> Page(pages[..], Idx(unitPages, c, j)) == Lookup(chunk.vmap, c, j)
        invariant forall k :: 0 <= k < pages.Length && !(Idx(unitPages, c, start) <= k < Idx(unitPages, c, i)) ==>
                    pages[k] == old(pages[k])
      {
        pages[Idx(unitPages, c, i)] := Lookup(chunk.vmap, c, i);
        i := i + 1;
      }
    }

    // pcpu_unmap_pages: for every unit, record the pages mapped at
    // [start, end) into its entries, then unmap them.
    method UnmapPages(chunk: Chunk, pages: array<nat>, start: nat, end: nat)
      requires pages.Length == nrUnits * unitPages && start <= end <= unitPages
      modifies pages, chunk`vmap
      ensures chunk.vmap == GridUnmap(old(chunk.vmap), nrUnits, start, end)
      ensures forall c, i :: 0 <= c < nrUnits && start <= i < end ==>
                Page(pages[..], Idx(unitPages, c, i)) == Lookup(old(chunk.vmap), c, i)
      ensures forall c, i :: 0 <= c < nrUnits && 0 <= i < unitPages && (i < start || end <= i) ==>
                Page(pages[..], Idx(unitPages, c, i)) == Page(old(pages[..]), Idx(unitPages, c, i))
    {
      var cpu := 0;
      while cpu < nrUnits
        invariant cpu <= nrUnits && pages.Length == |old(pages[..])|
        invariant chunk.vmap == GridUnmap(old(chunk.vmap), cpu, start, end)
        invariant forall c, i :: 0 <= c < cpu && start <= i < end ==>
                    Page(pages[..], Idx(unitPages, c, i)) == Lookup(old(chunk.vmap), c, i)
        invariant forall k :: Idx(unitPages, cpu, 0) <= k < pages.Length ==> pages[k] == old(pages[k])
        invariant forall c, i :: 0 <= c < cpu && 0 <= i < unitPages && (i < start || end <= i) ==>
                    Page(pages[..], Idx(unitPages, c, i)) == Page(old(pages[..]), Idx(unitPages, c, i))
      {
        RowInArray(unitPages, nrUnits, cpu);
        ghost var s1 := pages[..];
        RecordRow(chunk, pages, cpu, start, end);
        UnmapStep(old(chunk.vmap), old(pages[..]), s1, pages[..], cpu, start, end);
        GridUnmapStep(old(chunk.vmap), cpu, start, end);
        chunk.vmap := RowUnmap(chunk.vmap, cpu, start, end);
        cpu := cpu + 1;
      }
    }

    // One round of pcpu_unmap_pages' loop, on values: row cpu now records
    // what was mapped there at the start, and the rest keeps its content.
    lemma UnmapStep(vm0: map<Loc, nat>, s0: seq<nat>, s1: seq<nat>, s2: seq<nat>, cpu: nat, start: nat, end: nat)
      requires start <= end <= unitPages && |s1| == |s0| && |s2| == |s1|
      requires forall k :: 0 <= k < |s2| && !(Idx(unitPages, cpu, start) <= k < Idx(unitPages, cpu, end)) ==> s2[k] == s1[k]
      requires forall k :: Idx(unitPages, cpu, 0) <= k < |s1| ==> s1[k] == s0[k]
      requires forall c, i :: 0 <= c < cpu && start <= i < end ==> Page(s1, Idx(unitPages, c, i)) == Lookup(vm0, c, i)
      requires forall c, i :: 0 <= c < cpu && 0 <= i < unitPages && (i < start || end <= i) ==>
                 Page(s1, Idx(unitPages, c, i)) == Page(s0, Idx(unitPages, c, i))
      requires forall i :: start <= i < end ==>
                 Page(s2, Idx(unitPages, cpu, i)) == Lookup(GridUnmap(vm0, cpu, start, end), cpu, i)
      ensures forall c, i :: 0 <= c < cpu + 1 && start <= i < end ==> Page(s2, Idx(unitPages, c, i)) == Lookup(vm0, c, i)
      ensures forall k :: Idx(unitPages, cpu + 1, 0) <= k < |s2| ==> s2[k] == s0[k]
      ensures forall c, i :: 0 <= c < cpu + 1 && 0 <= i < unitPages && (i < start || end <= i) ==>
                Page(s2, Idx(unitPages, c, i)) == Page(s0, Idx(unitPages, c, i))
    {
      EarlierRowsKept(unitPages, s1, s2, cpu, start, end);
      forall i | start <= i < end
        ensures Page(s2, Idx(unitPages, cpu, i)) == Lookup(vm0, cpu, i)
      {
        GridUnmapLater(vm0, cpu, start, end, cpu, i);
      }
      RecordedStep(unitPages, vm0, s1, s2, cpu, start, end);
      UntouchedStep(unitPages, s0, s1, s2, cpu, start, end);
    }

    // pcpu_populate_chunk: allocate a page for entries [start, end) of
    // every unit and map them into the chunk's area. On success each of
    // those places maps a page that was not live before and now belongs to
    // the chunk; on failure the area and the live pages are as they were.
    method Populate(chunk: Chunk, start: nat, end: nat) returns (r: int)
      requires Valid() && start <= end <= unitPages
      requires forall l :: l in chunk.vmap ==> !InGrid(l, nrUnits, start, end)
      modifies this`tmp, tmp, this`live, this`nextPage, this`allocs, this`mapAttempts, this`owner, chunk`vmap
      ensures Valid() && (old(tmp) != null ==> tmp == old(tmp))
      ensures r == 0 || r == -ENOMEM
      ensures r != 0 ==> live == old(live) && chunk.vmap == old(chunk.vmap)
      ensures r == 0 ==> tmp != null
      ensures r == 0 ==> chunk.vmap == old(chunk.vmap) + GridMap(tmp[..], unitPages, nrUnits, start, end)
      ensures r == 0 ==> live == old(live) + MappedIds(chunk.vmap, nrUnits, start, end)
      ensures r == 0 ==> forall c, i :: 0 <= c < nrUnits && start <= i < end ==>
                Lookup(chunk.vmap, c, i) != 0 && Lookup(chunk.vmap, c, i) !in old(live) &&
                Lookup(chunk.vmap, c, i) in owner && owner[Lookup(chunk.vmap, c, i)] == chunk.id
    {
      var pages := GetPages();
      if pages == null {
        return -ENOMEM;
      }
      ghost var n0 := nextPage;
      r := AllocPages(pages, start, end);
      if r != 0 {
        return -ENOMEM;
      }
      GridIdsBounded(pages[..], unitPages, nrUnits, start, end, n0, nextPage);
      ghost var vm0 := chunk.vmap;
      var err := MapPages(chunk, pages, start, end);
      if err != 0 {
        FreePages(pages, start, end);
        return -ENOMEM;
      }
      MapUnmapRoundTrip(vm0, pages[..], unitPages, nrUnits, start, end);
      GridIdsRecorded(pages[..], chunk.vmap, unitPages, nrUnits, start, end);
      forall c, i | 0 <= c < nrUnits && start <= i < end
        ensures Lookup(chunk.vmap, c, i) in owner && owner[Lookup(chunk.vmap, c, i)] == chunk.id
      {
        GridIdsMem(pages[..], unitPages, nrUnits, start, end, Lookup(chunk.vmap, c, i));
      }
    }

    // pcpu_depopulate_chunk: unmap entries [start, end) of every unit,
    // recording the pages through the temporary array, and free them. The
    // array exists once a population has succeeded, which callers ensure.
    method Depopulate(chunk: Chunk, start: nat, end: nat)
      requires Valid() && tmp != null && start <= end <= unitPages
      modifies this`tmp, tmp, this`live, chunk`vmap
      ensures tmp == old(tmp)
      ensures chunk.vmap == GridUnmap(old(chunk.vmap), nrUnits, start, end)
      ensures live == old(live) - MappedIds(old(chunk.vmap), nrUnits, start, end)
    {
      var pages := GetPages();
      UnmapPages(chunk, pages, start, end);
      GridIdsRecorded(pages[..], old(chunk.vmap), unitPages, nrUnits, start, end);
      FreePages(pages, start, end);
    }
  }
}
