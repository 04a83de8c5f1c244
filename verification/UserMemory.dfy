/**
 Growing, shrinking, copying and faulting in the user part of a page table. On every path, failures included,
 the pages taken from the free list are accounted for.
 */
module UserMemory {
  import opened PageTable
  import opened VirtualMemory

  /** Page b while pages were taken from the free list for nodes of page table root and its user pages lo up to hi. */
  predicate TakenAt(s: Ram, s': Ram, root: int, lo: int, hi: int, b: int)
    requires b in s.role && b in s'.role && b in s.mem && b in s'.mem
  {
    var t := s'.role[b];
    if s.role[b].Free? then
      t.Free? || (t.Tree? && t.root == root && (t.level >= 0 || (t.level == -1 && lo <= t.prefix < hi)))
    else t == s.role[b] && ((Node(t) && t.root == root) || s'.mem[b] == s.mem[b])
  }

  ghost predicate Taken(s: Ram, s': Ram, root: int, lo: int, hi: int) {
    && SameKeys(s, s')
    && (forall b {:trigger TakenAt(s, s', root, lo, hi, b)} :: b in s.role ==> TakenAt(s, s', root, lo, hi, b))
    && (forall r, u {:trigger Lookup(s'.mem, r, u)} ::
          IsRoot(s, r) && 0 <= u < NPAGES && (r != root || !(lo <= u < hi)) ==>
            Lookup(s'.mem, r, u) == Lookup(s.mem, r, u))
  }

  lemma TakenRoot(s: Ram, s': Ram, root: int, lo: int, hi: int, r: int)
    requires Taken(s, s', root, lo, hi) && IsRoot(s, r)
    ensures IsRoot(s', r)
  {
    assert TakenAt(s, s', root, lo, hi, r);
  }

  lemma TakenTrans(a: Ram, b: Ram, c: Ram, root: int, lo: int, mid: int, hi: int)
    requires lo <= mid <= hi && Taken(a, b, root, lo, mid) && Taken(b, c, root, mid, hi)
    ensures Taken(a, c, root, lo, hi)
  {
    forall x | x in a.role
      ensures TakenAt(a, c, root, lo, hi, x)
    {
      assert TakenAt(a, b, root, lo, mid, x) && TakenAt(b, c, root, mid, hi, x);
    }
    forall r, u | IsRoot(a, r) && 0 <= u < NPAGES && (r != root || !(lo <= u < hi))
      ensures Lookup(c.mem, r, u) == Lookup(a.mem, r, u)
    {
      TakenRoot(a, b, root, lo, mid, r);
      assert Lookup(b.mem, r, u) == Lookup(a.mem, r, u);
    }
  }

  lemma TakenRefl(s: Ram, root: int, lo: int)
    requires PagesOk(s)
    ensures Taken(s, s, root, lo, lo)
  {
  }

  lemma ExtendedIsTaken(s: Ram, s': Ram, root: int, lo: int)
    requires Extended(s, s', root)
    ensures Taken(s, s', root, lo, lo)
  {
    forall b | b in s.role
      ensures TakenAt(s, s', root, lo, lo, b)
    {
      assert GrewAt(s, s', root, b);
    }
  }

  /** Page number u of page table root is a page with the given contents and permissions. */
  ghost predicate HasPage(s: Ram, root: int, u: int, page: seq<int>, perm: int) {
    var w := Lookup(s.mem, root, u);
    V(w) && Flags(w) == perm / 2 * 2 + 1 && Frame(w) in s.mem && s.mem[Frame(w)] == page
  }

  /** Pages taken later leave a user page alone. */
  lemma PageKept(s: Ram, s': Ram, root: int, lo: int, hi: int, r: int, u: int)
    requires Inv(s, {}) && Taken(s, s', root, lo, hi) && IsRoot(s, r) && 0 <= u < USERTOP &&
             (r != root || !(lo <= u < hi))
    ensures Lookup(s'.mem, r, u) == Lookup(s.mem, r, u)
    ensures V(Lookup(s.mem, r, u)) ==>
            Frame(Lookup(s.mem, r, u)) in s.mem &&
            s'.mem[Frame(Lookup(s.mem, r, u))] == s.mem[Frame(Lookup(s.mem, r, u))]
  {
    if V(Lookup(s.mem, r, u)) {
      MappedIsUserPage(s, r, u);
      assert TakenAt(s, s', root, lo, hi, Frame(Lookup(s.mem, r, u)));
    }
  }

  /** Giving back what was taken: only nodes stay behind. */
  lemma RolledBack(a: Ram, b: Ram, c: Ram, root: int, lo: int, hi: int)
    requires Inv(a, {}) && IsRoot(a, root) && 0 <= lo <= hi && Taken(a, b, root, lo, hi) &&
             UnmappedRange(b, c, root, lo, hi - lo, true)
    requires forall u :: lo <= u < hi ==> Lookup(a.mem, root, u) == 0
    ensures Extended(a, c, root)
  {
    forall x | x in a.role
      ensures GrewAt(a, c, root, x)
    {
      assert TakenAt(a, b, root, lo, hi, x) && UnmappedAt(b, c, root, lo, hi - lo, true, x);
      if a.role[x].Tree? && a.role[x].level == -1 {
        UserPageMapped(a, x);
      }
    }
    forall r, u | IsRoot(a, r) && 0 <= u < NPAGES
      ensures Lookup(c.mem, r, u) == Lookup(a.mem, r, u)
    {
      TakenRoot(a, b, root, lo, hi, r);
    }
  }

  /** The free page p of a is held in b; the rest is the same. */
  ghost predicate Prepared(a: Ram, b: Ram, p: int) {
    && SameKeys(a, b) && p in a.role && a.role[p].Free? && b.role[p] == Held
    && forall x :: x in a.role && x != p ==> b.role[x] == a.role[x] && b.mem[x] == a.mem[x]
  }

  lemma PreparedLookup(a: Ram, b: Ram, p: int, r: int, u: int)
    requires Inv(a, {}) && Prepared(a, b, p) && IsRoot(a, r) && 0 <= u < NPAGES
    ensures IsRoot(b, r) && Lookup(b.mem, r, u) == Lookup(a.mem, r, u)
  {
    forall x | x in a.mem
      ensures x != 0
    {
      assert PageOk(a, x);
    }
    LookupFrame(a, b.mem, r, u);
  }

  /** A prepared page was mapped as user page v. */
  lemma PageTaken(a: Ram, b: Ram, c: Ram, root: int, v: int, p: int, perm: int)
    requires Inv(a, {}) && 0 <= v < USERTOP && Prepared(a, b, p)
    requires MappedRange(b, c, root, v, 1, p, perm)
    ensures Taken(a, c, root, v, v + 1)
  {
    assert PageOk(a, p);
    forall x | x in a.role
      ensures TakenAt(a, c, root, v, v + 1, x)
    {
      assert PageOk(a, x) && MappedAt(b, c, root, v, 1, p, x);
    }
    forall r, u | IsRoot(a, r) && 0 <= u < NPAGES && (r != root || u != v)
      ensures Lookup(c.mem, r, u) == Lookup(a.mem, r, u)
    {
      PreparedLookup(a, b, p, r, u);
    }
  }

  /** A prepared page was given back after the mapping failed. */
  lemma PageReturned(a: Ram, b: Ram, c: Ram, d: Ram, root: int, p: int)
    requires Inv(a, {}) && Inv(c, {}) && Inv(d, {}) && Prepared(a, b, p) && Extended(b, c, root) && Prepared(d, c, p)
    ensures Extended(a, d, root)
  {
    forall x | x in a.role
      ensures GrewAt(a, d, root, x)
    {
      assert GrewAt(b, c, root, x);
    }
    forall r, u | IsRoot(a, r) && 0 <= u < NPAGES
      ensures Lookup(d.mem, r, u) == Lookup(a.mem, r, u)
    {
      PreparedLookup(a, b, p, r, u);
      assert GrewAt(b, c, root, r) && Lookup(c.mem, r, u) == Lookup(b.mem, r, u);
      PreparedLookup(d, c, p, r, u);
    }
  }

  /** A page is allocated, given its contents and mapped at va; 0 if memory runs out, when all of it is given back. */
  method TakePage(vm: Vm, root: int, va: int, page: seq<int>, perm: int) returns (pa: int)
    requires vm.Valid() && IsRoot(vm.State(), root) && va % PGSIZE == 0 && 0 <= va < TRAPFRAME && |page| == NPTE &&
             0 <= perm < 1024
    requires Lookup(vm.mem, root, va / PGSIZE) == 0
    modifies vm
    ensures vm.Valid()
    ensures pa == 0 ==> Extended(old(vm.State()), vm.State(), root)
    ensures pa != 0 ==> Taken(old(vm.State()), vm.State(), root, va / PGSIZE, va / PGSIZE + 1)
    ensures pa != 0 ==>
            HasPage(vm.State(), root, va / PGSIZE, page, perm) && pa == Frame(Lookup(vm.mem, root, va / PGSIZE))
    ensures if pa == 0 then |old(vm.free)| <= 2 else |vm.free| + 3 >= |old(vm.free)|
  {
    ghost var a := vm.State();
    pa := vm.Kalloc({});
    if pa == 0 {
      ExtendedRefl(a, root);
      return;
    }
    vm.Memset(pa, page);
    PreparedLookup(a, vm.State(), pa, root, va / PGSIZE);
    pa := MapHeld(vm, root, va, pa, perm, a);
  }

  /** mappages, for one page. */
  method MapPage(vm: Vm, root: int, va: int, p: int, perm: int) returns (ok: bool)
    requires vm.Valid() && IsRoot(vm.State(), root) && va % PGSIZE == 0 && 0 <= va < TRAPFRAME && 0 <= perm < 1024
    requires p % PGSIZE == 0 && HeldAt(vm.State(), p) && Lookup(vm.mem, root, va / PGSIZE) == 0
    modifies vm
    ensures vm.Valid()
    ensures MappedRange(old(vm.State()), vm.State(), root, va / PGSIZE, if ok then 1 else 0, p, perm)
    ensures if ok then |vm.free| + 2 >= |old(vm.free)| else |old(vm.free)| <= 1
  {
    ghost var done;
    var ret;
    ret, done := vm.Mappages(root, va, PGSIZE, p, perm);
    ok := ret == 0;
  }

  /** The second half: the page prepared is mapped, or freed again. */
  method MapHeld(vm: Vm, root: int, va: int, p: int, perm: int, ghost a: Ram) returns (pa: int)
    requires vm.Valid() && IsRoot(vm.State(), root) && va % PGSIZE == 0 && 0 <= va < TRAPFRAME && 0 <= perm < 1024
    requires Inv(a, {}) && Prepared(a, vm.State(), p) && Lookup(vm.mem, root, va / PGSIZE) == 0
    modifies vm
    ensures vm.Valid()
    ensures pa == 0 ==> Extended(a, vm.State(), root)
    ensures pa != 0 ==> Taken(a, vm.State(), root, va / PGSIZE, va / PGSIZE + 1)
    ensures pa != 0 ==>
            HasPage(vm.State(), root, va / PGSIZE, old(vm.mem)[p], perm) &&
            pa == Frame(Lookup(vm.mem, root, va / PGSIZE))
    ensures if pa == 0 then |old(vm.free)| <= 1 else |vm.free| + 2 >= |old(vm.free)|
  {
    ghost var b, v := vm.State(), va / PGSIZE;
    assert PageOk(b, p);
    var ok := MapPage(vm, root, va, p, perm);
    ghost var c := vm.State();
    assert MappedAt(b, c, root, v, if ok then 1 else 0, p, p);
    if !ok {
      MappedNone(b, c, root, v, p, perm);
      vm.Kfree(p, {});
      PageReturned(a, b, c, vm.State(), root, p);
      return 0;
    }
    PageTaken(a, b, c, root, v, p, perm);
    PteRoundTrip(p, perm);
    pa := p;
  }

  lemma MappedNone(s: Ram, s': Ram, root: int, v: int, pa: int, perm: int)
    requires MappedRange(s, s', root, v, 0, pa, perm)
    ensures Extended(s, s', root)
  {
    forall b | b in s.role
      ensures GrewAt(s, s', root, b)
    {
      assert MappedAt(s, s', root, v, 0, pa, b);
    }
  }

  function Up(a: int): int {
    PgRoundUp(a) / PGSIZE
  }

  lemma UpMono(a: int, b: int)
    requires a <= b
    ensures Up(a) <= Up(b) && Up(a) * PGSIZE == PgRoundUp(a) && (b % PGSIZE == 0 ==> PgRoundUp(b) == b)
    ensures a <= Up(a) * PGSIZE < a + PGSIZE
  {
  }

  /** The pages between two sizes. */
  lemma PagesBetween(lo: int, hi: int)
    requires 0 <= lo <= hi <= TRAPFRAME
    ensures var a, b := PgRoundUp(lo), PgRoundUp(hi);
            && 0 <= a && a % PGSIZE == 0 && a / PGSIZE == Up(lo) <= Up(hi) && b <= TRAPFRAME
            && (b - a) / PGSIZE == Up(hi) - Up(lo) && a + (Up(hi) - Up(lo)) * PGSIZE == b
  {
    UpMono(lo, hi);
    UpMono(hi, TRAPFRAME);
  }

  /** Whole pages: k of them are all those below sz, or there is one more. */
  lemma WholePages(k: int, sz: int)
    requires 0 <= k <= Up(sz)
    ensures k * PGSIZE / PGSIZE == k && k * PGSIZE % PGSIZE == 0 && (k * PGSIZE < sz <==> k < Up(sz))
  {
  }

  /** uvmdealloc. */
  method Uvmdealloc(vm: Vm, root: int, oldsz: int, newsz: int) returns (sz: int)
    requires vm.Valid() && IsRoot(vm.State(), root) && 0 <= newsz && 0 <= oldsz &&
             (newsz < oldsz ==> oldsz <= TRAPFRAME)
    modifies vm
    ensures vm.Valid() && sz == (if newsz < oldsz then newsz else oldsz)
    ensures UnmappedRange(old(vm.State()), vm.State(), root, Up(sz), Up(oldsz) - Up(sz), true)
  {
    if newsz >= oldsz {
      NothingMapped(vm.State(), root, Up(oldsz), 0, true);
      return oldsz;
    }
    PagesBetween(newsz, oldsz);
    if PgRoundUp(newsz) < PgRoundUp(oldsz) {
      var npages := (PgRoundUp(oldsz) - PgRoundUp(newsz)) / PGSIZE;
      vm.Uvmunmap(root, PgRoundUp(newsz), npages, true);
    } else {
      NothingMapped(vm.State(), root, Up(newsz), 0, true);
    }
    return newsz;
  }

  /** Pages lo up to hi of page table root are zero pages with permissions perm. */
  ghost predicate Zeroed(s: Ram, root: int, lo: int, hi: int, perm: int) {
    forall u {:trigger HasPage(s, root, u, Filler(0), perm)} :: lo <= u < hi ==> HasPage(s, root, u, Filler(0), perm)
  }

  lemma ZeroedMore(a: Ram, b: Ram, root: int, lo: int, hi: int, perm: int)
    requires Inv(a, {}) && IsRoot(a, root) && 0 <= lo <= hi < USERTOP && Zeroed(a, root, lo, hi, perm) &&
             Taken(a, b, root, hi, hi + 1)
    requires HasPage(b, root, hi, Filler(0), perm)
    ensures Zeroed(b, root, lo, hi + 1, perm)
  {
    forall u | lo <= u < hi
      ensures HasPage(b, root, u, Filler(0), perm)
    {
      assert HasPage(a, root, u, Filler(0), perm);
      PageKept(a, b, root, hi, hi + 1, root, u);
    }
  }

  /** The failure path of uvmalloc: the pages from start up to a are given back. */
  method GiveBack(vm: Vm, root: int, a: int, start: int, ghost s: Ram)
    requires vm.Valid() && Inv(s, {}) && IsRoot(s, root) && 0 <= start <= a <= TRAPFRAME && a % PGSIZE == 0 &&
             start % PGSIZE == 0
    requires Taken(s, vm.State(), root, start / PGSIZE, a / PGSIZE)
    requires forall u :: start / PGSIZE <= u < a / PGSIZE ==> Lookup(s.mem, root, u) == 0
    modifies vm
    ensures vm.Valid() && Extended(s, vm.State(), root)
  {
    ghost var s2 := vm.State();
    TakenRoot(s, s2, root, start / PGSIZE, a / PGSIZE, root);
    UpMono(start, a);
    UpMono(a, a);
    var _ := Uvmdealloc(vm, root, a, start);
    RolledBack(s, s2, vm.State(), root, start / PGSIZE, a / PGSIZE);
  }

  /** One round of the loop of uvmalloc, its failure path included; s is the state at the start. */
  method AllocNext(vm: Vm, root: int, a: int, start: int, perm: int, ghost s: Ram) returns (ok: bool)
    requires vm.Valid() && Inv(s, {}) && IsRoot(s, root) && 0 <= start <= a < TRAPFRAME && a % PGSIZE == 0 &&
             start % PGSIZE == 0 && 0 <= perm < 1024
    requires Taken(s, vm.State(), root, start / PGSIZE, a / PGSIZE) &&
             Zeroed(vm.State(), root, start / PGSIZE, a / PGSIZE, perm)
    requires forall u :: start / PGSIZE <= u <= a / PGSIZE ==> Lookup(s.mem, root, u) == 0
    modifies vm
    ensures vm.Valid()
    ensures if ok then Taken(s, vm.State(), root, start / PGSIZE, a / PGSIZE + 1) &&
            Zeroed(vm.State(), root, start / PGSIZE, a / PGSIZE + 1, perm)
            else Extended(s, vm.State(), root)
    ensures if ok then |vm.free| + 3 >= |old(vm.free)| else |old(vm.free)| <= 2
  {
    ghost var s1, lo, v := vm.State(), start / PGSIZE, a / PGSIZE;
    TakenRoot(s, s1, root, lo, v, root);
    assert Lookup(s1.mem, root, v) == Lookup(s.mem, root, v) == 0;
    var pa := TakePage(vm, root, a, Filler(0), perm);
    if pa == 0 {
      ExtendedIsTaken(s1, vm.State(), root, v);
      TakenTrans(s, s1, vm.State(), root, lo, v, v);
      GiveBack(vm, root, a, start, s);
      return false;
    }
    TakenTrans(s, s1, vm.State(), root, lo, v, v + 1);
    ZeroedMore(s1, vm.State(), root, lo, v, perm);
    return true;
  }

  /** uvmalloc: either every page from oldsz to newsz is there, or everything but page-table nodes is as before. */
  method Uvmalloc(vm: Vm, root: int, oldsz: int, newsz: int, xperm: int) returns (sz: int)
    requires vm.Valid() && IsRoot(vm.State(), root) && 0 <= oldsz && 0 <= newsz <= TRAPFRAME && xperm in {0, 4, 8, 12}
    requires forall u :: Up(oldsz) <= u < Up(newsz) ==> Lookup(vm.mem, root, u) == 0
    modifies vm
    ensures vm.Valid()
    ensures newsz < oldsz ==> sz == oldsz && vm.State() == old(vm.State())
    ensures newsz >= oldsz ==>
              || (sz == newsz && Taken(old(vm.State()), vm.State(), root, Up(oldsz), Up(newsz)) &&
                Zeroed(vm.State(), root, Up(oldsz), Up(newsz), PTE_R + PTE_U + xperm))
              || (sz == 0 && Extended(old(vm.State()), vm.State(), root) &&
                |old(vm.free)| < 3 * (Up(newsz) - Up(oldsz)))
  {
    if newsz < oldsz {
      return oldsz;
    }
    ghost var s, lo := vm.State(), Up(oldsz);
    UpMono(oldsz, newsz);
    UpMono(newsz, TRAPFRAME);
    TakenRefl(s, root, lo);
    var start := PgRoundUp(oldsz);
    var a := start;
    while a < newsz
      invariant vm.Valid() && a % PGSIZE == 0 && lo <= a / PGSIZE <= Up(newsz)
      invariant Taken(s, vm.State(), root, lo, a / PGSIZE) &&
                Zeroed(vm.State(), root, lo, a / PGSIZE, PTE_R + PTE_U + xperm)
      invariant |vm.free| + 3 * (a / PGSIZE - lo) >= |s.free|
      decreases TRAPFRAME - a
    {
      UpMono(a, newsz);
      assert a / PGSIZE < Up(newsz);
      var ok := AllocNext(vm, root, a, start, PTE_R + PTE_U + xperm, s);
      if !ok {
        return 0;
      }
      a := a + PGSIZE;
    }
    UpMono(newsz, a);
    return newsz;
  }

  /** The page in which an address lies. */
  lemma PageOf(va: int)
    requires 0 <= va
    ensures var a := va / PGSIZE * PGSIZE;
            0 <= a <= va && a % PGSIZE == 0 && a / PGSIZE == va / PGSIZE
  {
  }

  lemma UnmappedIsZero(s: Ram, root: int, v: int)
    requires Inv(s, {}) && IsRoot(s, root) && 0 <= v < NPAGES && v !in Pages(s.mem, root)
    ensures Lookup(s.mem, root, v) == 0
  {
  }

  /**
   vmfault: a zero page below sz is supplied where none is mapped. It looks in the page table given and maps in the one
   of the process, root; exec's copies give another. mappages panics if only the second has the page.
   */
  method Vmfault(vm: Vm, given: int, root: int, sz: int, va: int) returns (pa: int)
    requires vm.Valid() && IsRoot(vm.State(), given) && IsRoot(vm.State(), root) && 0 <= sz <= TRAPFRAME && 0 <= va
    requires va < sz && va / PGSIZE in Pages(vm.mem, root) ==> va / PGSIZE in Pages(vm.mem, given)
    modifies vm
    ensures vm.Valid()
    ensures va >= sz || va / PGSIZE in old(Pages(vm.mem, given)) ==> pa == 0 && vm.State() == old(vm.State())
    ensures pa == 0 ==> Extended(old(vm.State()), vm.State(), root)
    ensures pa == 0 ==> va >= sz || va / PGSIZE in old(Pages(vm.mem, given)) || |old(vm.free)| <= 2
    ensures pa != 0 ==> Taken(old(vm.State()), vm.State(), root, va / PGSIZE, va / PGSIZE + 1)
    ensures pa != 0 ==>
            HasPage(vm.State(), root, va / PGSIZE, Filler(0), PTE_W + PTE_U + PTE_R) &&
            pa == Frame(Lookup(vm.mem, root, va / PGSIZE))
  {
    ExtendedRefl(vm.State(), root);
    if va >= sz {
      return 0;
    }
    PageOf(va);
    var a := va / PGSIZE * PGSIZE;
    var mapped := vm.Ismapped(given, a);
    if mapped {
      return 0;
    }
    UnmappedIsZero(vm.State(), root, a / PGSIZE);
    pa := TakePage(vm, root, a, Filler(0), PTE_W + PTE_U + PTE_R);
  }

  /** Page number u of page table to in s' is a copy of what page table from had in s. */
  ghost predicate CopiedAt(s: Ram, s': Ram, from: int, to: int, u: int) {
    var w, w' := Lookup(s.mem, from, u), Lookup(s'.mem, to, u);
    if V(w) then
      && V(w') && Flags(w') == Flags(w)
      && Frame(w) in s.mem && Frame(w') in s'.mem && s'.mem[Frame(w')] == s.mem[Frame(w)]
    else w' == 0
  }

  ghost predicate Copied(s: Ram, s': Ram, from: int, to: int, n: int) {
    forall u {:trigger CopiedAt(s, s', from, to, u)} :: 0 <= u < n ==> CopiedAt(s, s', from, to, u)
  }

  lemma CopiedMore(s: Ram, a: Ram, b: Ram, from: int, to: int, v: int)
    requires Inv(a, {}) && IsRoot(a, to) && 0 <= v < USERTOP && Copied(s, a, from, to, v) && Taken(a, b, to, v, v + 1)
    requires CopiedAt(s, b, from, to, v)
    ensures Copied(s, b, from, to, v + 1)
  {
    forall u | 0 <= u < v
      ensures CopiedAt(s, b, from, to, u)
    {
      assert CopiedAt(s, a, from, to, u);
      PageKept(a, b, to, v, v + 1, to, u);
    }
  }

  /** One round of the loop of uvmcopy; s is the state at the start. */
  method CopyNext(vm: Vm, from: int, to: int, i: int, ghost s: Ram) returns (ok: bool)
    requires vm.Valid() && Inv(s, {}) && IsRoot(s, from) && IsRoot(s, to) && from != to && 0 <= i < TRAPFRAME &&
             i % PGSIZE == 0
    requires Taken(s, vm.State(), to, 0, i / PGSIZE) && Copied(s, vm.State(), from, to, i / PGSIZE) &&
             Lookup(s.mem, to, i / PGSIZE) == 0
    modifies vm
    ensures vm.Valid()
    ensures ok ==> Taken(s, vm.State(), to, 0, i / PGSIZE + 1) && Copied(s, vm.State(), from, to, i / PGSIZE + 1)
    ensures !ok ==> Taken(s, vm.State(), to, 0, i / PGSIZE)
    ensures if ok then |vm.free| + 3 >= |old(vm.free)| else |old(vm.free)| <= 2
  {
    ghost var s1, v := vm.State(), i / PGSIZE;
    TakenRoot(s, s1, to, 0, v, from);
    TakenRoot(s, s1, to, 0, v, to);
    PageKept(s, s1, to, 0, v, from, v);
    PageKept(s, s1, to, 0, v, to, v);
    var pte := ReadPte(vm, from, i);
    if !V(pte) {
      PageSkipped(s, s1, from, to, v);
      return true;
    }
    assert PageOk(s1, Frame(pte));
    ValidFlags(pte);
    var pa := TakePage(vm, to, i, vm.mem[Frame(pte)], Flags(pte));
    if pa == 0 {
      ExtendedIsTaken(s1, vm.State(), to, v);
      TakenTrans(s, s1, vm.State(), to, 0, v, v);
      return false;
    }
    assert CopiedAt(s, vm.State(), from, to, v);
    PageCopied(s, s1, vm.State(), from, to, v);
    return true;
  }

  lemma PageSkipped(s: Ram, a: Ram, from: int, to: int, v: int)
    requires Inv(a, {}) && IsRoot(a, to) && 0 <= v < USERTOP && Taken(s, a, to, 0, v) && Copied(s, a, from, to, v) &&
             CopiedAt(s, a, from, to, v)
    ensures Taken(s, a, to, 0, v + 1) && Copied(s, a, from, to, v + 1)
  {
    forall b | b in s.role
      ensures TakenAt(s, a, to, 0, v + 1, b)
    {
      assert TakenAt(s, a, to, 0, v, b);
    }
  }

  lemma PageCopied(s: Ram, a: Ram, b: Ram, from: int, to: int, v: int)
    requires Inv(a, {}) && IsRoot(a, to) && 0 <= v < USERTOP && Taken(s, a, to, 0, v) && Copied(s, a, from, to, v)
    requires Taken(a, b, to, v, v + 1) && CopiedAt(s, b, from, to, v)
    ensures Taken(s, b, to, 0, v + 1) && Copied(s, b, from, to, v + 1)
  {
    CopiedMore(s, a, b, from, to, v);
    TakenTrans(s, a, b, to, 0, v, v + 1);
  }

  /** The word for va, 0 where walk finds none or it is not valid. */
  method ReadPte(vm: Vm, root: int, va: int) returns (pte: int)
    requires vm.Valid() && IsRoot(vm.State(), root) && 0 <= va < MAXVA
    modifies vm
    ensures vm.Valid() && vm.State() == old(vm.State()) && pte == Lookup(vm.mem, root, va / PGSIZE)
  {
    var b := vm.Walk(root, va, false);
    if b == 0 {
      return 0;
    }
    Digits(va / PGSIZE);
    IndexDigits(va);
    assert PageOk(vm.State(), b);
    pte := vm.mem[b][PX(0, va)];
    if !V(pte) {
      pte := 0;
    }
  }

  /** The failure path of uvmcopy. */
  method UndoCopy(vm: Vm, to: int, i: int, ghost s: Ram)
    requires vm.Valid() && Inv(s, {}) && IsRoot(s, to) && 0 <= i <= TRAPFRAME && i % PGSIZE == 0 &&
             Taken(s, vm.State(), to, 0, i / PGSIZE)
    requires forall u :: 0 <= u < i / PGSIZE ==> Lookup(s.mem, to, u) == 0
    modifies vm
    ensures vm.Valid() && Extended(s, vm.State(), to)
  {
    ghost var s2 := vm.State();
    TakenRoot(s, s2, to, 0, i / PGSIZE, to);
    vm.Uvmunmap(to, 0, i / PGSIZE, true);
    RolledBack(s, s2, vm.State(), to, 0, i / PGSIZE);
  }

  /** uvmcopy: the child gets its own copy of every page below sz, or nothing but page-table nodes. */
  method Uvmcopy(vm: Vm, from: int, to: int, sz: int) returns (ret: int)
    requires vm.Valid() && IsRoot(vm.State(), from) && IsRoot(vm.State(), to) && from != to && 0 <= sz <= TRAPFRAME
    requires forall u :: 0 <= u < Up(sz) ==> Lookup(vm.mem, to, u) == 0
    modifies vm
    ensures vm.Valid() && (ret == 0 || ret == -1)
    ensures ret == 0 ==>
            Taken(old(vm.State()), vm.State(), to, 0, Up(sz)) && Copied(old(vm.State()), vm.State(), from, to, Up(sz))
    ensures ret == -1 ==> Extended(old(vm.State()), vm.State(), to) && |old(vm.free)| < 3 * Up(sz)
  {
    ghost var s := vm.State();
    TakenRefl(s, to, 0);
    var i := 0;
    ghost var k := 0;
    PagesBetween(0, sz);
    while i < sz
      invariant vm.Valid() && i == k * PGSIZE && 0 <= k <= Up(sz)
      invariant Taken(s, vm.State(), to, 0, k) && Copied(s, vm.State(), from, to, k)
      invariant |vm.free| + 3 * k >= |s.free|
      decreases Up(sz) - k
    {
      WholePages(k, sz);
      var ok := CopyNext(vm, from, to, i, s);
      if !ok {
        UndoCopy(vm, to, i, s);
        return -1;
      }
      i, k := i + PGSIZE, k + 1;
    }
    WholePages(k, sz);
    return 0;
  }
}
