// Bulk allocation and reallocation on top of the slab allocator
// (mm/slab_common.c): __kmem_cache_alloc_bulk, __kmem_cache_free_bulk,
// __do_krealloc, __krealloc and krealloc.
//
// The allocator itself is a heap of live objects, each with its contents;
// an object's length is its ksize. Whether an allocation succeeds and how
// much it grants beyond the request are decided by the allocator, which
// is not part of this model; they are oracles indexed by the attempt.

module SlabAlloc {
  import opened Base

  // A pointer as these functions see it: NULL, ZERO_SIZE_PTR, or a
  // slab object.
  datatype Ptr = Null | ZeroSize | Obj(id: nat)

  // ksize(p) for a live object or ZERO_SIZE_PTR, and the 0 __do_krealloc
  // uses for NULL.
  function KSize(live: map<nat, seq<bv8>>, p: Ptr): nat
  {
    if p.Obj? && p.id in live then |live[p.id]| else 0
  }

  // The bytes of p that survive a reallocation to n bytes.
  function Kept(live: map<nat, seq<bv8>>, p: Ptr, n: nat): seq<bv8>
  {
    if p.Obj? && p.id in live then live[p.id][..Min(|live[p.id]|, n)] else []
  }

  // The objects named by a sequence of pointers.
  function Ids(ps: seq<Ptr>): set<nat>
  {
    set k | 0 <= k < |ps| && ps[k].Obj? :: ps[k].id
  }

  lemma IdsSnoc(ps: seq<Ptr>, x: Ptr)
    ensures Ids(ps + [x]) == Ids(ps) + (if x.Obj? then {x.id} else {})
  {
    var qs := ps + [x];
    forall id | id in Ids(qs)
      ensures id in Ids(ps) + (if x.Obj? then {x.id} else {})
    {
      var k :| 0 <= k < |qs| && qs[k].Obj? && qs[k].id == id;
      if k < |ps| {
        assert ps[k] == qs[k];
      }
    }
    forall id | id in Ids(ps)
      ensures id in Ids(qs)
    {
      var k :| 0 <= k < |ps| && ps[k].Obj? && ps[k].id == id;
      assert qs[k] == ps[k];
    }
    if x.Obj? {
      assert qs[|ps|] == x;
    }
  }

  class Heap {
    var live: map<nat, seq<bv8>>
    var nextId: nat
    var attempts: nat
    const fails: nat -> bool
    const extra: nat -> nat

    ghost predicate Valid()
      reads this
    {
      forall id :: id in live ==> id < nextId
    }

    constructor (fails: nat -> bool, extra: nat -> nat)
      ensures Valid() && live == map[] && this.fails == fails && this.extra == extra
    {
      live := map[];
      nextId := 0;
      attempts := 0;
      this.fails := fails;
      this.extra := extra;
    }

    // kmem_cache_alloc / kmalloc_track_caller: a new object of at least
    // n bytes, or NULL.
    method Alloc(n: nat) returns (r: Ptr)
      requires Valid()
      modifies this
      ensures Valid() && attempts == old(attempts) + 1
      ensures r.Null? || r.Obj?
      ensures r.Null? ==> live == old(live) && nextId == old(nextId)
      ensures r.Obj? ==> r.id == old(nextId) && nextId == old(nextId) + 1
      ensures r.Obj? ==> r.id !in old(live) && live.Keys == old(live).Keys + {r.id} &&
                         |live[r.id]| == n + extra(old(attempts)) &&
                         forall id :: id in old(live) ==> live[id] == old(live)[id]
    {
      var k := attempts;
      attempts := attempts + 1;
      if fails(k) {
        return Null;
      }
      var buf: seq<bv8> := seq(n + extra(k), _ => 0);
      var contents: seq<bv8> :| |contents| == |buf|;
      r := Obj(nextId);
      live := live[nextId := contents];
      nextId := nextId + 1;
    }

    // kfree / kmem_cache_free: NULL and ZERO_SIZE_PTR are ignored.
    method Free(p: Ptr)
      requires p.Obj? ==> p.id in live
      modifies this`live
      ensures live == if p.Obj? then old(live) - {p.id} else old(live)
    {
      if p.Obj? {
        live := live - {p.id};
      }
    }

    // __kmem_cache_free_bulk: free the first nr objects of p.
    method FreeBulk(nr: nat, p: array<Ptr>)
      requires nr <= p.Length
      requires forall i :: 0 <= i < nr ==> p[i].Obj? && p[i].id in live
      requires forall i, j :: 0 <= i < j < nr ==> p[i] != p[j]
      modifies this`live
      ensures live == old(live) - Ids(p[..nr])
    {
      var i := 0;
      while i < nr
        invariant i <= nr
        invariant live == old(live) - Ids(p[..i])
      {
        assert p[..i + 1] == p[..i] + [p[i]];
        IdsSnoc(p[..i], p[i]);
        Free(p[i]);
        i := i + 1;
      }
    }

    // __kmem_cache_alloc_bulk: fill p[0..nr) with new objects of the
    // cache's size. All or nothing: at the first failure the objects
    // already allocated are freed and 0 is returned.
    method AllocBulk(size: nat, nr: nat, p: array<Ptr>) returns (ret: nat)
      requires Valid() && nr <= p.Length
      modifies this, p
      ensures Valid()
      ensures ret == nr || (ret == 0 && live == old(live))
      ensures ret == nr ==>
                (forall i :: 0 <= i < nr ==> p[i].Obj? && p[i].id !in old(live) && p[i].id in live &&
                                             |live[p[i].id]| >= size) &&
                (forall i, j :: 0 <= i < j < nr ==> p[i] != p[j]) &&
                live.Keys == old(live).Keys + Ids(p[..nr])
      ensures forall id :: id in old(live) ==> id in live && live[id] == old(live)[id]
      ensures p[nr..] == old(p[nr..])
    {
      var i := 0;
      while i < nr
        invariant i <= nr && Valid()
        invariant Filled(p, i, size, old(live), old(nextId))
        invariant p[nr..] == old(p[nr..])
      {
        var ok := AllocInto(size, nr, i, p, old(live), old(nextId));
        if !ok {
          return 0;
        }
        i := i + 1;
      }
      return i;
    }

    // The first i entries of p hold distinct objects of at least size
    // bytes, allocated since nextId was next0, on top of the objects of
    // live0, which are untouched.
    ghost predicate Filled(p: array<Ptr>, i: nat, size: nat, live0: map<nat, seq<bv8>>, next0: nat)
      reads this, p
    {
      i <= p.Length &&
      (forall k :: 0 <= k < i ==> p[k].Obj? && next0 <= p[k].id < nextId && p[k].id in live &&
                                  |live[p[k].id]| >= size) &&
      (forall k, j :: 0 <= k < j < i ==> p[k] != p[j]) &&
      live.Keys == live0.Keys + Ids(p[..i]) &&
      (forall id :: id in live0 ==> live[id] == live0[id]) &&
      next0 <= nextId
    }

    // One pass of __kmem_cache_alloc_bulk's loop: allocate p[i], or on
    // failure free p[0..i) and answer false.
    method AllocInto(size: nat, nr: nat, i: nat, p: array<Ptr>, ghost live0: map<nat, seq<bv8>>, ghost next0: nat)
      returns (ok: bool)
      requires Valid() && i < nr <= p.Length && Filled(p, i, size, live0, next0)
      requires forall id :: id in live0 ==> id < next0
      modifies this, p
      ensures Valid() && p[nr..] == old(p[nr..])
      ensures ok ==> Filled(p, i + 1, size, live0, next0)
      ensures !ok ==> live == live0
    {
      ghost var prefix := p[..i];
      var x := Alloc(size);
      p[i] := x;
      assert p[..i] == prefix;
      if x.Null? {
        assert forall k :: 0 <= k < i ==> p[k].id !in live0;
        FreeBulk(i, p);
        assert live.Keys == live0.Keys;
        return false;
      }
      assert p[..i + 1] == prefix + [x];
      IdsSnoc(prefix, x);
      return true;
    }

    // __do_krealloc: keep p when its ksize already covers n, else
    // allocate and copy the ksize bytes over (p itself is left alone).
    method DoKrealloc(p: Ptr, n: nat) returns (r: Ptr)
      requires Valid() && (p.Obj? ==> p.id in live)
      modifies this
      ensures Valid() && forall id :: id in old(live) ==> id in live && live[id] == old(live)[id]
      ensures KSize(old(live), p) >= n ==> r == p && live == old(live)
      ensures KSize(old(live), p) < n ==>
                (r.Null? && live == old(live)) ||
                (r.Obj? && r.id !in old(live) && live.Keys == old(live).Keys + {r.id} && |live[r.id]| >= n &&
                 live[r.id][..KSize(old(live), p)] == Kept(old(live), p, n))
    {
      var ks := 0;
      if p.Obj? {
        ks := |live[p.id]|;
      }
      if ks >= n {
        return p;
      }
      r := Alloc(n);
      if r.Obj? && !p.Null? {
        var old_ := if p.Obj? then live[p.id] else [];
        live := live[r.id := old_[..ks] + live[r.id][ks..]];
      }
    }

    // __krealloc: like krealloc, but p is never freed.
    method KreallocNoFree(p: Ptr, n: nat) returns (r: Ptr)
      requires Valid() && (p.Obj? ==> p.id in live)
      modifies this
      ensures Valid()
      ensures n == 0 ==> r == ZeroSize && live == old(live)
      ensures n > 0 && KSize(old(live), p) >= n ==> r == p && live == old(live)
      ensures n > 0 && KSize(old(live), p) < n ==>
                (r.Null? && live == old(live)) ||
                (r.Obj? && r.id !in old(live) && live.Keys == old(live).Keys + {r.id} && |live[r.id]| >= n &&
                 live[r.id][..KSize(old(live), p)] == Kept(old(live), p, n) &&
                 forall id :: id in old(live) ==> live[id] == old(live)[id])
    {
      if n == 0 {
        return ZeroSize;
      }
      r := DoKrealloc(p, n);
    }

    // krealloc: n == 0 frees p; otherwise p is freed exactly when a
    // different buffer is returned, and the first min(ksize, n) bytes are
    // the same in the result. On failure p is kept as it was.
    method Krealloc(p: Ptr, n: nat) returns (r: Ptr)
      requires Valid() && (p.Obj? ==> p.id in live)
      modifies this
      ensures Valid()
      ensures n == 0 ==> r == ZeroSize && live == if p.Obj? then old(live) - {p.id} else old(live)
      ensures n > 0 && r.Null? ==> live == old(live)
      ensures n > 0 && r == p && !r.Null? ==> live == old(live) && KSize(old(live), p) >= n
      ensures n > 0 && r.Obj? && r != p ==>
                r.id !in old(live) && r.id in live && |live[r.id]| >= n &&
                live[r.id][..|Kept(old(live), p, n)|] == Kept(old(live), p, n) &&
                live.Keys == old(live).Keys - (if p.Obj? then {p.id} else {}) + {r.id} &&
                forall id :: id in old(live) && !(p.Obj? && id == p.id) ==> live[id] == old(live)[id]
    {
      if n == 0 {
        Free(p);
        return ZeroSize;
      }
      r := DoKrealloc(p, n);
      if !r.Null? && p != r {
        assert r.Obj? && r.id in live;
        assert p.Obj? ==> p.id in old(live) && p.id != r.id;
        Free(p);
      }
    }
  }
}
