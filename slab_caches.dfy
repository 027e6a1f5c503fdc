// Slab cache creation, merging and destruction (mm/slab_common.c): the
// object alignment computed from the flags, the search of slab_caches for
// an existing cache a new one can be merged into, and the reference count
// that decides when a cache is shut down.
//
// Flags are unsigned long bit sets (bv64). Sizes and alignments are
// natural numbers: ALIGN(x, a) and the mask test (x & ~(a - 1)) == x are
// the rounding up and divisibility they compute for power-of-two a.

module SlabCaches {
  import opened Base

  // SLAB_* flag bits of Linux 4.6 (include/linux/slab.h), with the
  // debugging options that define them all configured.
  const SLAB_RED_ZONE: bv64 := 0x400
  const SLAB_POISON: bv64 := 0x800
  const SLAB_HWCACHE_ALIGN: bv64 := 0x2000
  const SLAB_CACHE_DMA: bv64 := 0x4000
  const SLAB_STORE_USER: bv64 := 0x1_0000
  const SLAB_RECLAIM_ACCOUNT: bv64 := 0x2_0000
  const SLAB_DESTROY_BY_RCU: bv64 := 0x8_0000
  const SLAB_TRACE: bv64 := 0x20_0000
  const SLAB_NOLEAKTRACE: bv64 := 0x80_0000
  const SLAB_NOTRACK: bv64 := 0x100_0000
  const SLAB_FAILSLAB: bv64 := 0x200_0000
  const SLAB_ACCOUNT: bv64 := 0x400_0000
  const SLAB_KASAN: bv64 := 0x800_0000

  const SLAB_NEVER_MERGE: bv64 := SLAB_RED_ZONE | SLAB_POISON | SLAB_STORE_USER | SLAB_TRACE |
                                  SLAB_DESTROY_BY_RCU | SLAB_NOLEAKTRACE | SLAB_FAILSLAB | SLAB_KASAN
  const SLAB_MERGE_SAME: bv64 := SLAB_RECLAIM_ACCOUNT | SLAB_CACHE_DMA | SLAB_NOTRACK | SLAB_ACCOUNT

  // ARCH_SLAB_MINALIGN on arm64 (__alignof__(unsigned long long)) and
  // sizeof(void *).
  const ARCH_SLAB_MINALIGN: nat := 8
  const PTR_BYTES: nat := 8

  // The hardware cache line halved while the object still fits in half.
  function HwAlign(ralign: nat, size: nat): nat
    requires size != 0
  {
    if size <= ralign / 2 then HwAlign(ralign / 2, size) else ralign
  }

  // The halving stops at the first value whose half is below the size,
  // and only goes below the cache line while the size still fits.
  lemma {:induction false} HwAlignBounds(ralign: nat, size: nat)
    requires size != 0
    ensures HwAlign(ralign, size) <= ralign
    ensures size > HwAlign(ralign, size) / 2
    ensures HwAlign(ralign, size) < ralign ==> size <= HwAlign(ralign, size)
  {
    if size <= ralign / 2 {
      HwAlignBounds(ralign / 2, size);
    }
  }

  // calculate_alignment, as a value: what the method below computes.
  function Alignment(flags: bv64, align: nat, size: nat, cacheLine: nat): nat
    requires flags & SLAB_HWCACHE_ALIGN == 0 || size != 0
  {
    var a := if flags & SLAB_HWCACHE_ALIGN != 0 then Max(align, HwAlign(cacheLine, size)) else align;
    RoundUp(Max(a, ARCH_SLAB_MINALIGN), PTR_BYTES)
  }

  // The alignment is a multiple of the pointer size, at least the
  // requested alignment, the architecture minimum and (with
  // SLAB_HWCACHE_ALIGN) the halved cache line, and less than a pointer
  // size above the largest of them.
  lemma AlignmentBounds(flags: bv64, align: nat, size: nat, cacheLine: nat)
    requires flags & SLAB_HWCACHE_ALIGN == 0 || size != 0
    ensures var r := Alignment(flags, align, size, cacheLine);
            var lo := Max(if flags & SLAB_HWCACHE_ALIGN != 0 then Max(align, HwAlign(cacheLine, size)) else align,
                          ARCH_SLAB_MINALIGN);
            r % PTR_BYTES == 0 && lo <= r < lo + PTR_BYTES && r >= align && r >= ARCH_SLAB_MINALIGN &&
            (flags & SLAB_HWCACHE_ALIGN != 0 ==> r >= HwAlign(cacheLine, size))
  {
  }

  // calculate_alignment. cacheLine is cache_line_size(), read from the
  // CPU. With SLAB_HWCACHE_ALIGN and size 0 the halving loop never ends,
  // which the precondition excludes.
  method CalculateAlignment(flags: bv64, align: nat, size: nat, cacheLine: nat) returns (r: nat)
    requires flags & SLAB_HWCACHE_ALIGN == 0 || size != 0
    ensures r == Alignment(flags, align, size, cacheLine)
  {
    var a := align;
    if flags & SLAB_HWCACHE_ALIGN != 0 {
      var ralign := cacheLine;
      while size <= ralign / 2
        invariant HwAlign(ralign, size) == HwAlign(cacheLine, size)
      {
        ralign := ralign / 2;
      }
      a := Max(a, ralign);
    }
    if a < ARCH_SLAB_MINALIGN {
      a := ARCH_SLAB_MINALIGN;
    }
    r := RoundUp(a, PTR_BYTES);
  }

  // A struct kmem_cache: everything but the reference count is fixed
  // once the cache exists.
  class Cache {
    const name: string
    const objectSize: nat
    const size: nat
    const align: nat
    const flags: bv64
    const hasCtor: bool
    const isRoot: bool
    var refcount: int

    constructor (name: string, objectSize: nat, size: nat, align: nat, flags: bv64, hasCtor: bool, refcount: int)
      ensures this.name == name && this.objectSize == objectSize && this.size == size
      ensures this.align == align && this.flags == flags && this.hasCtor == hasCtor
      ensures this.isRoot && this.refcount == refcount
    {
      this.name := name;
      this.objectSize := objectSize;
      this.size := size;
      this.align := align;
      this.flags := flags;
      this.hasCtor := hasCtor;
      this.isRoot := true;
      this.refcount := refcount;
    }
  }

  // slab_unmergeable.
  predicate Unmergeable(nomerge: bool, s: Cache)
    reads s
  {
    nomerge || s.flags & SLAB_NEVER_MERGE != 0 || !s.isRoot || s.hasCtor || s.refcount < 0
  }

  // The tests find_mergeable applies to one cache, for the rounded size
  // and alignment of the new cache; configSlab is IS_ENABLED(CONFIG_SLAB).
  predicate Mergeable(nomerge: bool, configSlab: bool, s: Cache, size: nat, align: nat, flags: bv64)
    reads s
  {
    !Unmergeable(nomerge, s) &&
    size <= s.size &&
    flags & SLAB_MERGE_SAME == s.flags & SLAB_MERGE_SAME &&
    (align > 0 ==> s.size % align == 0) &&
    s.size - size < PTR_BYTES &&
    !(configSlab && align != 0 && (align > s.align || s.align % align != 0))
  }

  // The cache list_for_each_entry_reverse finds first: slab_caches is
  // kept newest first, so the walk starts at the oldest cache.
  function OldestMergeable(caches: seq<Cache>, nomerge: bool, configSlab: bool, size: nat, align: nat, flags: bv64)
    : Option<Cache>
    reads caches
  {
    if caches == [] then None
    else if Mergeable(nomerge, configSlab, caches[|caches| - 1], size, align, flags) then Some(caches[|caches| - 1])
    else OldestMergeable(caches[..|caches| - 1], nomerge, configSlab, size, align, flags)
  }

  // What the search returns: a cache of the list that passes every test,
  // with no older cache passing them; None only when no cache does.
  lemma {:induction false} OldestMergeableMeaning(caches: seq<Cache>, nomerge: bool, configSlab: bool, size: nat,
                                                  align: nat, flags: bv64)
    ensures var r := OldestMergeable(caches, nomerge, configSlab, size, align, flags);
            (r.None? <==> forall i :: 0 <= i < |caches| ==> !Mergeable(nomerge, configSlab, caches[i], size, align, flags)) &&
            (r.Some? ==> exists i :: 0 <= i < |caches| && caches[i] == r.value &&
                           Mergeable(nomerge, configSlab, caches[i], size, align, flags) &&
                           forall j :: i < j < |caches| ==> !Mergeable(nomerge, configSlab, caches[j], size, align, flags))
  {
    if caches != [] {
      var n := |caches| - 1;
      if !Mergeable(nomerge, configSlab, caches[n], size, align, flags) {
        OldestMergeableMeaning(caches[..n], nomerge, configSlab, size, align, flags);
        assert forall i :: 0 <= i < n ==> caches[..n][i] == caches[i];
      }
    }
  }

  // A cache that passes the tests never breaks the new cache's layout:
  // it is large enough, wastes less than a pointer per object, keeps
  // the flags that must agree, and its size is aligned.
  lemma MergeableMeaning(nomerge: bool, configSlab: bool, s: Cache, size: nat, align: nat, flags: bv64)
    requires Mergeable(nomerge, configSlab, s, size, align, flags)
    ensures !nomerge && s.flags & SLAB_NEVER_MERGE == 0 && !s.hasCtor && s.isRoot && s.refcount >= 0
    ensures size <= s.size < size + PTR_BYTES
    ensures s.flags & SLAB_MERGE_SAME == flags & SLAB_MERGE_SAME
    ensures align > 0 ==> s.size % align == 0
  {
  }

  // Removing a cache from slab_caches.
  function Without(caches: seq<Cache>, s: Cache): (r: seq<Cache>)
  {
    if caches == [] then []
    else if caches[0] == s then Without(caches[1..], s)
    else [caches[0]] + Without(caches[1..], s)
  }

  lemma {:induction false} WithoutMembers(caches: seq<Cache>, s: Cache, c: Cache)
    ensures c in Without(caches, s) <==> c in caches && c != s
  {
    if caches != [] {
      WithoutMembers(caches[1..], s, c);
      assert caches == [caches[0]] + caches[1..];
    }
  }

  // slab_caches and the settings that govern merging.
  class SlabState {
    var caches: seq<Cache>
    const nomerge: bool
    const configSlab: bool
    const cacheLine: nat

    constructor (nomerge: bool, configSlab: bool, cacheLine: nat)
      ensures caches == [] && this.nomerge == nomerge && this.configSlab == configSlab && this.cacheLine == cacheLine
    {
      caches := [];
      this.nomerge := nomerge;
      this.configSlab := configSlab;
      this.cacheLine := cacheLine;
    }

    // find_mergeable. kmem_cache_flags leaves the flags alone (no
    // slub_debug option is given). hasCtor says whether a constructor is
    // passed.
    method FindMergeable(size: nat, align: nat, flags: bv64, hasCtor: bool) returns (r: Option<Cache>)
      requires flags & SLAB_HWCACHE_ALIGN == 0 || size != 0
      ensures nomerge || flags & SLAB_NEVER_MERGE != 0 || hasCtor ==> r.None?
      ensures !(nomerge || flags & SLAB_NEVER_MERGE != 0 || hasCtor) ==>
                var sz := RoundUp(size, PTR_BYTES);
                var al := Alignment(flags, align, sz, cacheLine);
                al > 0 && r == OldestMergeable(caches, nomerge, configSlab, RoundUp(sz, al), al, flags)
    {
      if nomerge || flags & SLAB_NEVER_MERGE != 0 {
        return None;
      }
      if hasCtor {
        return None;
      }
      var sz := RoundUp(size, PTR_BYTES);
      var al := CalculateAlignment(flags, align, sz, cacheLine);
      AlignmentBounds(flags, align, sz, cacheLine);
      sz := RoundUp(sz, al);
      var i := |caches|;
      assert caches[..i] == caches;
      while i > 0
        invariant 0 <= i <= |caches|
        invariant OldestMergeable(caches[..i], nomerge, configSlab, sz, al, flags) ==
                  OldestMergeable(caches, nomerge, configSlab, sz, al, flags)
      {
        var s := caches[i - 1];
        assert caches[..i][..i - 1] == caches[..i - 1];
        if Mergeable(nomerge, configSlab, s, sz, al, flags) {
          return Some(s);
        }
        i := i - 1;
      }
      return None;
    }

    // create_cache. allocOk is whether the kmem_cache object could be
    // allocated; initErr is what init_memcg_params and then
    // __kmem_cache_create return (the first non-zero one).
    method CreateCache(name: string, objectSize: nat, size: nat, align: nat, flags: bv64, hasCtor: bool,
                       allocOk: bool, initErr: int) returns (r: Option<Cache>, err: int)
      modifies this`caches
      ensures !allocOk ==> err == -ENOMEM && r.None? && caches == old(caches)
      ensures allocOk && initErr != 0 ==> err == initErr && r.None? && caches == old(caches)
      ensures allocOk && initErr == 0 ==>
                err == 0 && r.Some? && fresh(r.value) && caches == [r.value] + old(caches) &&
                r.value.refcount == 1 && r.value.name == name && r.value.objectSize == objectSize &&
                r.value.size == size && r.value.align == align && r.value.hasCtor == hasCtor &&
                r.value.flags == flags && r.value.isRoot
    {
      if !allocOk {
        return None, -ENOMEM;
      }
      var s := new Cache(name, objectSize, size, align, flags, hasCtor, 0);
      if initErr != 0 {
        return None, initErr;
      }
      s.refcount := 1;
      caches := [s] + caches;
      return Some(s), 0;
    }

    // kmem_cache_destroy. busy is whether shutting the cache down finds
    // objects still allocated (the cache then stays, with the error
    // reported).
    method Destroy(s: Option<Cache>, busy: bool)
      modifies if s.Some? then {s.value} else {}, this`caches
      ensures s.None? ==> caches == old(caches)
      ensures s.Some? ==>
                s.value.refcount == old(s.value.refcount) - 1 &&
                caches == if s.value.refcount == 0 && !busy then Without(old(caches), s.value) else old(caches)
    {
      if s.None? {
        return;
      }
      var c := s.value;
      c.refcount := c.refcount - 1;
      if c.refcount != 0 {
        return;
      }
      if !busy {
        caches := Without(caches, c);
      }
    }
  }
}
