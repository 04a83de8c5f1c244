/**
 The three-level tree refines a partial map from page numbers to page-table words: mappages updates it,
 uvmunmap removes from it, and neither touches the map of another page table.
 */
module PageMap {
  import opened PageTable
  import opened VirtualMemory

  /** k updates of a partial map, one page number after the other. */
  ghost function Updated(m: map<int, int>, v: int, k: nat, pa: int, perm: int): (r: map<int, int>)
    ensures forall u :: u in r <==> u in m || v <= u < v + k
    ensures forall u :: u in r ==> r[u] == if v <= u < v + k then Pte(pa + (u - v) * PGSIZE, perm) else m[u]
  {
    if k == 0 then m else Updated(m, v, k - 1, pa, perm)[v + k - 1 := Pte(pa + (k - 1) * PGSIZE, perm)]
  }

  /** k removals from a partial map. */
  ghost function Removed(m: map<int, int>, v: int, k: nat): (r: map<int, int>)
    ensures forall u :: u in r <==> u in m && !(v <= u < v + k)
    ensures forall u :: u in r ==> r[u] == m[u]
  {
    if k == 0 then m else Removed(m, v, k - 1) - {v + k - 1}
  }

  lemma SameMap(m: map<int, int>, m': map<int, int>)
    requires forall u :: u in m <==> u in m'
    requires forall u :: u in m ==> m[u] == m'[u]
    ensures m == m'
  {
    forall u: int
      ensures u in m.Keys <==> u in m'.Keys
    {
    }
    assert m.Keys == m'.Keys;
    forall u: int | u in m
      ensures m[u] == m'[u]
    {
    }
  }

  lemma IsUpdated(m: map<int, int>, m': map<int, int>, v: int, k: nat, pa: int, perm: int)
    requires forall u :: u in m' <==> u in m || v <= u < v + k
    requires forall u :: u in m' ==> m'[u] == if v <= u < v + k then Pte(pa + (u - v) * PGSIZE, perm) else m[u]
    ensures m' == Updated(m, v, k, pa, perm)
  {
    SameMap(m', Updated(m, v, k, pa, perm));
  }

  lemma IsRemoved(m: map<int, int>, m': map<int, int>, v: int, k: nat)
    requires forall u :: u in m' <==> u in m && !(v <= u < v + k)
    requires forall u :: u in m' ==> m'[u] == m[u]
    ensures m' == Removed(m, v, k)
  {
    SameMap(m', Removed(m, v, k));
  }

  lemma SamePages(mem: Memory, mem': Memory, r: int)
    requires SameLookups(mem, mem', r)
    ensures Pages(mem', r) == Pages(mem, r)
  {
    forall u | 0 <= u < NPAGES
      ensures Lookup(mem', r, u) == Lookup(mem, r, u)
    {
    }
    SameMap(Pages(mem', r), Pages(mem, r));
  }

  /** Mapping k pages updates the partial map of page table root, */
  lemma MapUpdates(s: Ram, s': Ram, root: int, v: int, k: nat, pa: int, perm: int)
    requires MappedRange(s, s', root, v, k, pa, perm) && IsRoot(s, root) && 0 <= v && v + k <= NPAGES &&
             pa % PGSIZE == 0 && 0 <= perm < 1024
    ensures Pages(s'.mem, root) == Updated(Pages(s.mem, root), v, k, pa, perm)
  {
    forall u | 0 <= u < NPAGES
      ensures V(Lookup(s'.mem, root, u)) <==> V(Lookup(s.mem, root, u)) || v <= u < v + k
      ensures Lookup(s'.mem, root, u) == if v <= u < v + k then Pte(pa + (u - v) * PGSIZE, perm)
              else Lookup(s.mem, root, u)
    {
      PteRoundTrip(pa + (u - v) * PGSIZE, perm);
    }
    IsUpdated(Pages(s.mem, root), Pages(s'.mem, root), v, k, pa, perm);
  }

  /** and that of no other. */
  lemma MapKeepsOthers(s: Ram, s': Ram, root: int, v: int, k: nat, pa: int, perm: int, r: int)
    requires MappedRange(s, s', root, v, k, pa, perm) && IsRoot(s, r) && r != root
    ensures Pages(s'.mem, r) == Pages(s.mem, r)
  {
    SamePages(s.mem, s'.mem, r);
  }

  /** Unmapping k pages removes them from the partial map of page table root, */
  lemma UnmapRemoves(s: Ram, s': Ram, root: int, v: int, k: nat, drop: bool)
    requires UnmappedRange(s, s', root, v, k, drop) && IsRoot(s, root)
    ensures Pages(s'.mem, root) == Removed(Pages(s.mem, root), v, k)
  {
    forall u | 0 <= u < NPAGES
      ensures Lookup(s'.mem, root, u) == if v <= u < v + k then 0 else Lookup(s.mem, root, u)
    {
    }
    IsRemoved(Pages(s.mem, root), Pages(s'.mem, root), v, k);
  }

  /** and from no other. */
  lemma UnmapKeepsOthers(s: Ram, s': Ram, root: int, v: int, k: nat, drop: bool, r: int)
    requires UnmappedRange(s, s', root, v, k, drop) && IsRoot(s, r) && r != root
    ensures Pages(s'.mem, r) == Pages(s.mem, r)
  {
    SamePages(s.mem, s'.mem, r);
  }
}
