/**
 Page tables with the two fixed pages, and the size invariant of all processes together.
 */
module ProcessMemory {
  import opened PageTable
  import opened VirtualMemory
  import opened UserMemory
  import opened PageTableFree

  const PTE_X := 8

  // ---- page tables with their two fixed pages ----

  lemma GrewTrans(a: Ram, b: Ram, c: Ram, root: int)
    requires Grew(a, b, root) && Grew(b, c, root)
    ensures Grew(a, c, root)
  {
    forall x | x in a.role
      ensures GrewAt(a, c, root, x)
    {
      assert GrewAt(a, b, root, x) && GrewAt(b, c, root, x);
    }
  }

  lemma CreatedGrew(s: Ram, s': Ram, root: int)
    requires Created(s, s', root)
    ensures Grew(s, s', root)
  {
    forall x | x in s.role
      ensures GrewAt(s, s', root, x)
    {
    }
  }

  /** Mapping or unmapping TRAPFRAME and TRAMPOLINE changes no role. */
  lemma FixedMapped(s: Ram, s': Ram, root: int, v: int, k: int, pa: int, perm: int)
    requires MappedRange(s, s', root, v, k, pa, perm) && v >= USERTOP
    ensures Grew(s, s', root)
  {
    forall x | x in s.role
      ensures GrewAt(s, s', root, x)
    {
      assert MappedAt(s, s', root, v, k, pa, x);
    }
  }

  lemma FixedUnmapped(s: Ram, s': Ram, root: int, v: int, k: int)
    requires Inv(s, {}) && UnmappedRange(s, s', root, v, k, false) && v >= USERTOP
    ensures Grew(s, s', root) && OnlyNodes(s, s', root)
  {
    forall x | x in s.role
      ensures GrewAt(s, s', root, x) && s'.role[x] == s.role[x] &&
              ((Node(s.role[x]) && s.role[x].root == root) || s'.mem[x] == s.mem[x])
    {
      assert PageOk(s, x) && UnmappedAt(s, s', root, v, k, false, x);
    }
  }

  /** Only words in nodes of page table root differ. */
  ghost predicate OnlyNodes(s: Ram, s': Ram, root: int) {
    && SameKeys(s, s')
    && forall x :: x in s.role ==>
       s'.role[x] == s.role[x] && ((Node(s.role[x]) && s.role[x].root == root) || s'.mem[x] == s.mem[x])
  }

  /** The mappings of a new page table. */
  ghost predicate OnlyFixed(mem: Memory, root: int, trapframe: int, trampoline: int) {
    forall v {:trigger Lookup(mem, root, v)} :: 0 <= v < NPAGES ==>
      Lookup(mem, root, v) == if v == NPAGES - 1 then Pte(trampoline, PTE_R + PTE_X)
        else if v == NPAGES - 2 then Pte(trapframe, PTE_R + PTE_W) else 0
  }

  /** mappages on one of the fixed pages. */
  method MapFixed(vm: Vm, root: int, va: int, pa: int, perm: int) returns (ok: bool)
    requires vm.Valid() && IsRoot(vm.State(), root) && TRAPFRAME <= va < MAXVA && va % PGSIZE == 0 &&
             pa % PGSIZE == 0 && 0 <= perm < 1024
    requires Lookup(vm.mem, root, va / PGSIZE) == 0
    modifies vm
    ensures vm.Valid() && IsRoot(vm.State(), root) && Grew(old(vm.State()), vm.State(), root)
    ensures forall v {:trigger Lookup(vm.mem, root, v)} :: 0 <= v < NPAGES ==>
      Lookup(vm.mem, root, v) == if ok && v == va / PGSIZE then Pte(pa, perm) else Lookup(old(vm.mem), root, v)
    ensures if ok then |vm.free| + 2 >= |old(vm.free)| else |old(vm.free)| <= 1
  {
    ghost var s := vm.State();
    ghost var done;
    var ret;
    ret, done := vm.Mappages(root, va, PGSIZE, pa, perm);
    FixedMapped(s, vm.State(), root, va / PGSIZE, done, pa, perm);
    assert GrewAt(s, vm.State(), root, root);
    ok := ret == 0;
  }

  /** A page table created since s is given up. */
  method Abandon(vm: Vm, root: int, ghost s: Ram)
    requires vm.Valid() && Inv(s, {}) && root in s.role && s.role[root].Free? && IsRoot(vm.State(), root) &&
             Grew(s, vm.State(), root)
    requires forall v :: 0 <= v < NPAGES ==> Lookup(vm.mem, root, v) == 0
    modifies vm
    ensures vm.Valid() && Restored(s, vm.State())
  {
    ghost var s1 := vm.State();
    Uvmfree(vm, root, 0);
    CreationUndone(s, s1, vm.State(), root);
  }

  /** proc_pagetable: a new page table that maps the two fixed pages, or 0 and nothing lost. */
  method ProcPagetable(vm: Vm, trapframe: int, trampoline: int) returns (root: int)
    requires vm.Valid() && trapframe % PGSIZE == 0 && trampoline % PGSIZE == 0
    modifies vm
    ensures vm.Valid()
    ensures root == 0 ==> Restored(old(vm.State()), vm.State())
    ensures if root == 0 then |old(vm.free)| < 5 else |vm.free| + 5 >= |old(vm.free)|
    ensures root != 0 ==> root in old(vm.role) && old(vm.role)[root].Free? && IsRoot(vm.State(), root)
    ensures root != 0 ==> Grew(old(vm.State()), vm.State(), root) && OnlyFixed(vm.mem, root, trapframe, trampoline)
  {
    ghost var s := vm.State();
    root := Uvmcreate(vm);
    if root == 0 {
      return;
    }
    CreatedGrew(s, vm.State(), root);
    root := MapFirst(vm, root, trapframe, trampoline, s);
  }

  /** The rest of proc_pagetable, after the page table was created. */
  method MapFirst(vm: Vm, table: int, trapframe: int, trampoline: int, ghost s: Ram) returns (root: int)
    requires vm.Valid() && trapframe % PGSIZE == 0 && trampoline % PGSIZE == 0
    requires table != 0 && |vm.free| + 1 >= |s.free|
    requires Inv(s, {}) && table in s.role && s.role[table].Free? && IsRoot(vm.State(), table) &&
             Grew(s, vm.State(), table)
    requires forall v {:trigger Lookup(vm.mem, table, v)} :: 0 <= v < NPAGES ==> Lookup(vm.mem, table, v) == 0
    modifies vm
    ensures vm.Valid() && (root == 0 || root == table)
    ensures root == 0 ==> Restored(s, vm.State())
    ensures if root == 0 then |s.free| < 5 else |vm.free| + 5 >= |s.free|
    ensures root != 0 ==>
            IsRoot(vm.State(), root) && Grew(s, vm.State(), root) && OnlyFixed(vm.mem, root, trapframe, trampoline)
  {
    ghost var s1 := vm.State();
    var ok := MapFixed(vm, table, TRAMPOLINE, trampoline, PTE_R + PTE_X);
    ghost var s2 := vm.State();
    GrewTrans(s, s1, s2, table);
    if !ok {
      Abandon(vm, table, s);
      return 0;
    }
    ok := MapFixed(vm, table, TRAPFRAME, trapframe, PTE_R + PTE_W);
    GrewTrans(s, s2, vm.State(), table);
    if !ok {
      UnmapFirst(vm, table, s);
      return 0;
    }
    return table;
  }

  /** The second failure path of proc_pagetable. */
  method UnmapFirst(vm: Vm, root: int, ghost s: Ram)
    requires vm.Valid() && Inv(s, {}) && root in s.role && s.role[root].Free? && IsRoot(vm.State(), root) &&
             Grew(s, vm.State(), root)
    requires forall v {:trigger Lookup(vm.mem, root, v)} :: 0 <= v < NPAGES && v != TRAMPOLINE / PGSIZE ==>
             Lookup(vm.mem, root, v) == 0
    modifies vm
    ensures vm.Valid() && Restored(s, vm.State())
  {
    ghost var s1 := vm.State();
    vm.Uvmunmap(root, TRAMPOLINE, 1, false);
    FixedUnmapped(s1, vm.State(), root, TRAMPOLINE / PGSIZE, 1);
    GrewTrans(s, s1, vm.State(), root);
    Abandon(vm, root, s);
  }

  // ---- sizes ----

  /** The size invariant of one process: its pages lie below its size, rounded up, or are the two fixed ones. */
  ghost predicate SizeOk(s: Ram, root: int, sz: int) {
    && IsRoot(s, root) && 0 <= sz <= TRAPFRAME
    && forall v {:trigger Lookup(s.mem, root, v)} :: 0 <= v < NPAGES && V(Lookup(s.mem, root, v)) ==>
       v < Up(sz) || v >= USERTOP
  }

  /** proc_freepagetable. */
  method ProcFreepagetable(vm: Vm, root: int, sz: int)
    requires vm.Valid() && SizeOk(vm.State(), root, sz)
    modifies vm
    ensures vm.Valid() && Gone(old(vm.State()), vm.State(), root)
  {
    ghost var s := vm.State();
    vm.Uvmunmap(root, TRAMPOLINE, 1, false);
    ghost var s1 := vm.State();
    FixedUnmapped(s, s1, root, TRAMPOLINE / PGSIZE, 1);
    UnmappedRoot(s, s1, root, TRAMPOLINE / PGSIZE, 1, false, root);
    vm.Uvmunmap(root, TRAPFRAME, 1, false);
    ghost var s2 := vm.State();
    FixedUnmapped(s1, s2, root, TRAPFRAME / PGSIZE, 1);
    UnmappedRoot(s1, s2, root, TRAPFRAME / PGSIZE, 1, false, root);
    FixedGone(s, s1, s2, root);
    Uvmfree(vm, root, sz);
    GoneStill(s, s1, s2, vm.State(), root);
  }

  lemma FixedGone(a: Ram, b: Ram, c: Ram, root: int)
    requires IsRoot(a, root) && IsRoot(b, root)
    requires UnmappedRange(a, b, root, NPAGES - 1, 1, false) && UnmappedRange(b, c, root, NPAGES - 2, 1, false)
    ensures forall v {:trigger Lookup(c.mem, root, v)} :: 0 <= v < NPAGES ==>
            Lookup(c.mem, root, v) == if v >= USERTOP then 0 else Lookup(a.mem, root, v)
  {
    forall v | 0 <= v < NPAGES
      ensures Lookup(c.mem, root, v) == if v >= USERTOP then 0 else Lookup(a.mem, root, v)
    {
      assert Lookup(b.mem, root, v) == if v == NPAGES - 1 then 0 else Lookup(a.mem, root, v);
    }
  }

  lemma GoneStill(a: Ram, b: Ram, c: Ram, d: Ram, root: int)
    requires OnlyNodes(a, b, root) && OnlyNodes(b, c, root) && Gone(c, d, root)
    ensures Gone(a, d, root)
  {
    forall x | x in a.role
      ensures GoneAt(a, d, root, x)
    {
      assert GoneAt(c, d, root, x);
    }
  }

  // ---- all processes ----

  /** sz gives the size of the process of each page table; every page in a page table belongs to one of these. */
  ghost predicate TableOk(s: Ram, sz: map<int, int>) {
    && (forall r {:trigger SizeOk(s, r, sz[r])} :: r in sz ==> SizeOk(s, r, sz[r]))
    && (forall b {:trigger s.role[b]} :: b in s.role && s.role[b].Tree? ==> s.role[b].root in sz)
  }

  lemma TableTaken(s: Ram, s': Ram, sz: map<int, int>, root: int, lo: int, hi: int, n: int)
    requires TableOk(s, sz) && root in sz && Taken(s, s', root, lo, hi) && sz[root] <= n <= TRAPFRAME && hi <= Up(n)
    ensures TableOk(s', sz[root := n])
  {
    assert SizeOk(s, root, sz[root]);
    UpMono(sz[root], n);
    var sz' := sz[root := n];
    forall r | r in sz'
      ensures SizeOk(s', r, sz'[r])
    {
      assert SizeOk(s, r, sz[r]);
      TakenRoot(s, s', root, lo, hi, r);
    }
    forall b | b in s'.role && s'.role[b].Tree?
      ensures s'.role[b].root in sz'
    {
      assert TakenAt(s, s', root, lo, hi, b);
    }
  }

  lemma TableShrunk(s: Ram, s': Ram, sz: map<int, int>, root: int, n: int)
    requires TableOk(s, sz) && root in sz && 0 <= n <= sz[root] &&
             UnmappedRange(s, s', root, Up(n), Up(sz[root]) - Up(n), true)
    ensures TableOk(s', sz[root := n])
  {
    assert SizeOk(s, root, sz[root]);
    var sz' := sz[root := n];
    forall r | r in sz'
      ensures SizeOk(s', r, sz'[r])
    {
      assert SizeOk(s, r, sz[r]);
      UnmappedRoot(s, s', root, Up(n), Up(sz[root]) - Up(n), true, r);
    }
    forall b | b in s'.role && s'.role[b].Tree?
      ensures s'.role[b].root in sz'
    {
      assert UnmappedAt(s, s', root, Up(n), Up(sz[root]) - Up(n), true, b);
    }
  }

  /** Page tables other than root translate as before when only pages of root and free pages changed. */
  lemma OthersSame(s: Ram, s': Ram, root: int, r: int)
    requires Inv(s, {}) && Inv(s', {}) && SameKeys(s, s') && IsRoot(s, r) && r != root
    requires forall b :: b in s.role && s.role[b].Tree? && s.role[b].root != root ==>
             s'.role[b] == s.role[b] && s'.mem[b] == s.mem[b]
    ensures IsRoot(s', r) && SameLookups(s.mem, s'.mem, r)
  {
    forall b | b in s'.mem
      ensures b != 0
    {
      assert PageOk(s', b);
    }
    forall v | 0 <= v < NPAGES
      ensures Lookup(s'.mem, r, v) == Lookup(s.mem, r, v)
    {
      LookupFrame(s, s'.mem, r, v);
    }
  }

  lemma TableNew(s: Ram, s': Ram, sz: map<int, int>, root: int, trapframe: int, trampoline: int)
    requires Inv(s, {}) && Inv(s', {}) && TableOk(s, sz) && root in s.role && s.role[root].Free?
    requires Grew(s, s', root) && IsRoot(s', root) && OnlyFixed(s'.mem, root, trapframe, trampoline)
    ensures root !in sz && TableOk(s', sz[root := 0])
  {
    var sz' := sz[root := 0];
    assert root in sz ==> SizeOk(s, root, sz[root]);
    forall b | b in s.role
      ensures GrewAt(s, s', root, b)
    {
    }
    forall r | r in sz'
      ensures SizeOk(s', r, sz'[r])
    {
      if r != root {
        assert SizeOk(s, r, sz[r]);
        OthersSame(s, s', root, r);
      }
    }
    forall b | b in s'.role && s'.role[b].Tree?
      ensures s'.role[b].root in sz'
    {
      assert GrewAt(s, s', root, b);
    }
  }

  lemma TableGone(s: Ram, s': Ram, sz: map<int, int>, root: int)
    requires Inv(s, {}) && Inv(s', {}) && TableOk(s, sz) && Gone(s, s', root)
    ensures TableOk(s', sz - {root})
  {
    var sz' := sz - {root};
    forall b | b in s.role
      ensures GoneAt(s, s', root, b)
    {
    }
    forall r | r in sz'
      ensures SizeOk(s', r, sz'[r])
    {
      assert SizeOk(s, r, sz[r]);
      OthersSame(s, s', root, r);
    }
    forall b | b in s'.role && s'.role[b].Tree?
      ensures s'.role[b].root in sz'
    {
      assert GoneAt(s, s', root, b);
    }
  }

  lemma TableRestored(s: Ram, s': Ram, sz: map<int, int>)
    requires Inv(s, {}) && Inv(s', {}) && TableOk(s, sz) && Restored(s, s')
    ensures TableOk(s', sz)
  {
    forall r | r in sz
      ensures SizeOk(s', r, sz[r])
    {
      assert SizeOk(s, r, sz[r]) && PageOk(s, r);
      OthersSame(s, s', 0, r);
    }
  }
}
