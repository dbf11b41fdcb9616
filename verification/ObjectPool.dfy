/** include/hydra/object_pool.hpp: a fixed slab of slots with an intrusive LIFO free list. */
module Pools {
  import opened Types

  /** A slot index, or NULL. The pool only hands out indices into its slab. */
  type Ptr = int

  const NULL: Ptr := -1

  /** The source's union: a slot holds either the next link of the free list or an object. Using a slot as an object
      is only well-formed while it holds one, so no proof goes through for a use after release. */
  datatype Slot<T> = Next(next: Ptr) | Object(obj: T)

  function At(ptrs: seq<Ptr>, i: int): Ptr {
    if 0 <= i < |ptrs| then ptrs[i] else NULL
  }

  function Elements(ptrs: seq<Ptr>): set<Ptr> {
    set p | p in ptrs
  }

  lemma {:induction false} CountElements(ptrs: seq<Ptr>)
    requires forall i, j :: 0 <= i < j < |ptrs| ==> ptrs[i] != ptrs[j]
    ensures |Elements(ptrs)| == |ptrs|
  {
    if ptrs != [] {
      CountElements(ptrs[1..]);
      assert Elements(ptrs) == {ptrs[0]} + Elements(ptrs[1..]);
    }
  }

  function Range(n: nat): (all: set<Ptr>)
    ensures forall p :: p in all <==> 0 <= p < n
    ensures |all| == n
  {
    if n == 0 then {} else Range(n - 1) + {n - 1}
  }

  lemma SomeElement<T>(s: set<T>) returns (x: T)
    requires s != {}
    ensures x in s
  {
    x :| x in s;
  }

  lemma Pigeonhole<T>(some: set<T>, all: set<T>)
    requires some <= all && |some| == |all|
    ensures some == all
  {
    if p :| p in all && p !in some {
      Fewer(some, all - {p});
    }
  }

  lemma {:induction false} Fewer<T>(some: set<T>, all: set<T>)
    requires some <= all
    ensures |some| <= |all|
  {
    if some != {} {
      var p :| p in some;
      Fewer(some - {p}, all - {p});
    }
  }

  class ObjectPool<T(0)> {
    const slab: array<Slot<T>>
    var freeHead: Ptr
    var exhaustionCount: nat

    /** The free list, head first, and the objects handed out. */
    ghost var free: seq<Ptr>
    ghost var live: map<Ptr, T>

    /** The free list is acyclic and properly linked, no slot on it is live, and the counts add up; by
        Partition every slot is then on exactly one of the two sides. */
    ghost predicate Valid()
      reads this, slab
    {
      && slab.Length > 0
      && freeHead == At(free, 0)
      && |free| + |live| == slab.Length
      && (forall i :: 0 <= i < |free| ==> FreeAt(i))
      && (forall i, j :: 0 <= i < j < |free| ==> free[i] != free[j])
      && (forall p :: p in live ==> 0 <= p < slab.Length && slab[p] == Object(live[p]))
    }

    ghost predicate FreeAt(i: nat)
      requires i < |free|
      reads `free, `live, slab
    {
      && 0 <= free[i] < slab.Length
      && free[i] !in live
      && slab[free[i]] == Next(At(free, i + 1))
    }

    /** Free and live slots partition the slab. */
    lemma Partition()
      requires Valid()
      ensures forall p :: 0 <= p < slab.Length ==> (p in live <==> p !in free)
      ensures forall p :: p in live || p in free ==> 0 <= p < slab.Length
    {
      var onList, all := Elements(free), Range(slab.Length);
      forall p | p in onList
        ensures p in all && p !in live
      {
        var i :| 0 <= i < |free| && free[i] == p;
        assert FreeAt(i);
      }
      CountElements(free);
      assert onList !! live.Keys;
      Pigeonhole(onList + live.Keys, all);
      forall p | 0 <= p < slab.Length
        ensures p in live <==> p !in free
      {
        assert p in all && (p in onList <==> p in free);
      }
    }

    constructor (n: nat)
      requires n > 0
      ensures Valid() && fresh(slab) && slab.Length == n
      ensures live == map[] && exhaustionCount == 0
      ensures free == seq(n, i => i)
    {
      slab := new Slot<T>[n](_ => Next(NULL));
      exhaustionCount := 0;
      freeHead := 0;
      live := map[];
      free := seq(n, i => i);
      new;
      LinkAll();
    }

    /** The linking loop shared by the constructor and reset(). */
    method LinkAll()
      requires slab.Length > 0
      modifies slab, `freeHead, `live, `free
      ensures Valid() && live == map[] && free == seq(slab.Length, i => i)
    {
      var i := 0;
      while i + 1 < slab.Length
        invariant 0 <= i < slab.Length
        invariant forall j :: 0 <= j < i ==> slab[j] == Next(j + 1)
      {
        slab[i] := Next(i + 1);
        i := i + 1;
      }
      slab[slab.Length - 1] := Next(NULL);
      freeHead := 0;
      live := map[];
      free := seq(slab.Length, j => j);
      assert forall j :: 0 <= j < |free| ==> FreeAt(j);
    }

    /** Takes the head of the free list, or counts an exhaustion and returns NULL when every slot is live. */
    method Acquire(init: T) returns (p: Ptr)
      requires Valid()
      modifies this, slab
      ensures Valid()
      ensures p == NULL <==> |old(live)| == slab.Length
      ensures p == NULL ==> live == old(live) && free == old(free) && exhaustionCount == old(exhaustionCount) + 1
      ensures p != NULL ==> p !in old(live) && live == old(live)[p := init]
      ensures p != NULL ==> old(free) == [p] + free && exhaustionCount == old(exhaustionCount)
    {
      assert free == [] || FreeAt(0);
      if freeHead == NULL {
        exhaustionCount := exhaustionCount + 1;
        return NULL;
      }
      p := freeHead;
      freeHead := slab[p].next;
      slab[p] := Object(init);
      live := live[p := init];
      free := free[1..];
      forall i | 0 <= i < |free|
        ensures FreeAt(i)
      {
        assert old(FreeAt(i + 1));
        assert free[i] == old(free)[i + 1] && free[i] != p;
      }
    }

    /** Puts a live slot back at the head of the free list. */
    method Release(p: Ptr)
      requires Valid() && p in live
      modifies `freeHead, `free, `live, slab
      ensures Valid()
      ensures live == old(live) - {p} && free == [p] + old(free)
    {
      slab[p] := Next(freeHead);
      freeHead := p;
      live := live - {p};
      free := [p] + free;
      assert old(live).Keys == live.Keys + {p};
      forall i | 0 <= i < |free|
        ensures FreeAt(i) && (i > 0 ==> free[i] != p)
      {
        assert i > 0 ==> old(FreeAt(i - 1)) && free[i] == old(free)[i - 1];
      }
    }

    /** Dereferences a pointer. */
    function Get(p: Ptr): (v: T)
      reads this, slab
      requires Valid() && p in live
      ensures v == live[p]
    {
      slab[p].obj
    }

    /** Writes through a pointer. */
    method Put(p: Ptr, v: T)
      requires Valid() && p in live
      modifies `live, slab
      ensures Valid()
      ensures live == old(live)[p := v]
    {
      slab[p] := Object(v);
      live := live[p := v];
      assert live.Keys == old(live).Keys;
      forall i | 0 <= i < |free|
        ensures FreeAt(i)
      {
        assert old(FreeAt(i));
        assert free[i] != p;
      }
    }

    /** Every slot is free again, whatever was live; the exhaustion count is kept. */
    method Reset()
      requires slab.Length > 0
      modifies slab, `freeHead, `live, `free
      ensures Valid() && live == map[] && free == seq(slab.Length, i => i)
    {
      LinkAll();
    }
  }
}
