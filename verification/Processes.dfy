/**
 The memory of all processes: their page tables, sizes and trapframes, over every sequence of process creation,
 fork, exit, eager and lazy growth, shrinking and page faults.
 */
module Processes {
  import Collections
  import opened PageTable
  import opened PageTableFree
  import opened Params
  import opened ProcessMemory
  import opened UserMemory
  import opened VirtualMemory

  // ---- trapframes ----

  /** The trapframe of the process of page table r is a page of its own, mapped at TRAPFRAME below the trampoline. */
  ghost predicate FrameOk(s: Ram, tf: map<int, int>, trampoline: int, holder: map<int, int>, r: int)
    requires r in tf
  {
    && HeldAt(s, tf[r]) && tf[r] in holder && holder[tf[r]] == r
    && Lookup(s.mem, r, NPAGES - 1) == Pte(trampoline, PTE_R + PTE_X) &&
       Lookup(s.mem, r, NPAGES - 2) == Pte(tf[r], PTE_R + PTE_W)
  }

  predicate IsFrame(tf: map<int, int>, holder: map<int, int>, b: int) {
    b in holder && holder[b] in tf && tf[holder[b]] == b
  }

  /** A page is held exactly if the kernel held it from the start or it is the trapframe of a process. */
  predicate HeldOk(s: Ram, tf: map<int, int>, holder: map<int, int>, kept: set<int>, b: int)
    requires b in s.role
  {
    && (s.role[b] == Held <==> b in kept || IsFrame(tf, holder, b))
    && !(b in kept && b in holder)
  }

  ghost predicate FramesOk(s: Ram, tf: map<int, int>, trampoline: int, holder: map<int, int>, kept: set<int>) {
    && (forall r {:trigger FrameOk(s, tf, trampoline, holder, r)} :: r in tf ==> FrameOk(s, tf, trampoline, holder, r))
    && (forall b {:trigger HeldOk(s, tf, holder, kept, b)} :: b in s.role ==> HeldOk(s, tf, holder, kept, b))
  }

  ghost predicate SameHeld(s: Ram, s': Ram) {
    SameKeys(s, s') && forall b {:trigger s'.role[b]} :: b in s.role ==> (s'.role[b] == Held <==> s.role[b] == Held)
  }

  ghost predicate SameFixed(s: Ram, s': Ram, r: int) {
    Lookup(s'.mem, r, NPAGES - 1) == Lookup(s.mem, r, NPAGES - 1) &&
      Lookup(s'.mem, r, NPAGES - 2) == Lookup(s.mem, r, NPAGES - 2)
  }

  lemma FramesKept(s: Ram, s': Ram, tf: map<int, int>, trampoline: int, holder: map<int, int>, kept: set<int>)
    requires FramesOk(s, tf, trampoline, holder, kept) && SameHeld(s, s') && forall r :: r in tf ==> SameFixed(s, s', r)
    ensures FramesOk(s', tf, trampoline, holder, kept)
  {
    forall r | r in tf
      ensures FrameOk(s', tf, trampoline, holder, r)
    {
      assert FrameOk(s, tf, trampoline, holder, r);
    }
    forall b | b in s'.role
      ensures HeldOk(s', tf, holder, kept, b)
    {
      assert HeldOk(s, tf, holder, kept, b);
    }
  }

  lemma FramesTaken(s: Ram, s': Ram, sz: map<int, int>, tf: map<int, int>, trampoline: int, holder: map<int, int>,
                    kept: set<int>, root: int, lo: int, hi: int)
    requires FramesOk(s, tf, trampoline, holder, kept) && TableOk(s, sz) && tf.Keys == sz.Keys &&
             Taken(s, s', root, lo, hi) && hi <= USERTOP
    ensures FramesOk(s', tf, trampoline, holder, kept)
  {
    forall b | b in s.role
      ensures s'.role[b] == Held <==> s.role[b] == Held
    {
      assert TakenAt(s, s', root, lo, hi, b);
    }
    forall r | r in tf
      ensures SameFixed(s, s', r)
    {
      assert r in sz.Keys && SizeOk(s, r, sz[r]);
    }
    FramesKept(s, s', tf, trampoline, holder, kept);
  }

  lemma FramesShrunk(s: Ram, s': Ram, sz: map<int, int>, tf: map<int, int>, trampoline: int, holder: map<int, int>,
                     kept: set<int>, root: int, v: int, k: int)
    requires FramesOk(s, tf, trampoline, holder, kept) && TableOk(s, sz) && tf.Keys == sz.Keys
    requires UnmappedRange(s, s', root, v, k, true) && v + k <= USERTOP
    ensures FramesOk(s', tf, trampoline, holder, kept)
  {
    forall b | b in s.role
      ensures s'.role[b] == Held <==> s.role[b] == Held
    {
      assert UnmappedAt(s, s', root, v, k, true, b);
    }
    forall r | r in tf
      ensures SameFixed(s, s', r)
    {
      assert r in sz.Keys && SizeOk(s, r, sz[r]);
    }
    FramesKept(s, s', tf, trampoline, holder, kept);
  }

  lemma FramesRestored(s: Ram, s': Ram, sz: map<int, int>, tf: map<int, int>, trampoline: int, holder: map<int, int>,
                       kept: set<int>)
    requires Inv(s, {}) && Inv(s', {}) && FramesOk(s, tf, trampoline, holder, kept) && TableOk(s, sz) &&
             tf.Keys == sz.Keys && Restored(s, s')
    ensures FramesOk(s', tf, trampoline, holder, kept)
  {
    forall r | r in tf
      ensures SameFixed(s, s', r)
    {
      assert r in sz.Keys && SizeOk(s, r, sz[r]) && PageOk(s, r);
      OthersSame(s, s', 0, r);
    }
    FramesKept(s, s', tf, trampoline, holder, kept);
  }

  /** Allocating the trapframe touches no page table. */
  lemma TablePrepared(s: Ram, s': Ram, sz: map<int, int>, t: int)
    requires Inv(s, {}) && TableOk(s, sz) && Prepared(s, s', t)
    ensures TableOk(s', sz)
  {
    forall r | r in sz
      ensures SizeOk(s', r, sz[r])
    {
      assert SizeOk(s, r, sz[r]);
      PreparedLookup(s, s', t, r, 0);
      forall v | 0 <= v < NPAGES
        ensures Lookup(s'.mem, r, v) == Lookup(s.mem, r, v)
      {
        PreparedLookup(s, s', t, r, v);
      }
    }
  }

  // ---- a process is born ----

  /** Free pages became the trapframe t, nodes of page table root or its user pages below n; nothing else changed. */
  ghost predicate Born(s: Ram, s': Ram, root: int, n: int, t: int) {
    && SameKeys(s, s') && t in s.role && s.role[t].Free? && s'.role[t] == Held && root in s.role &&
       s.role[root].Free? && IsRoot(s', root)
    && (forall b {:trigger TakenAt(s, s', root, 0, n, b)} :: b in s.role && b != t ==> TakenAt(s, s', root, 0, n, b))
    && (forall r, u {:trigger Lookup(s'.mem, r, u)} :: IsRoot(s, r) && 0 <= u < NPAGES ==>
       Lookup(s'.mem, r, u) == Lookup(s.mem, r, u))
  }

  /** After the trapframe was allocated and the page table made. */
  lemma BornEmpty(a: Ram, b: Ram, c: Ram, root: int, t: int)
    requires Inv(a, {}) && Inv(b, {}) && Inv(c, {}) && Prepared(a, b, t) && Grew(b, c, root)
    requires root in b.role && b.role[root].Free? && IsRoot(c, root)
    ensures Born(a, c, root, 0, t)
  {
    assert GrewAt(b, c, root, t);
    forall x | x in a.role && x != t
      ensures TakenAt(a, c, root, 0, 0, x)
    {
      assert GrewAt(b, c, root, x);
    }
    forall x | x in b.role
      ensures GrewAt(b, c, root, x)
    {
    }
    forall r, u | IsRoot(a, r) && 0 <= u < NPAGES
      ensures Lookup(c.mem, r, u) == Lookup(a.mem, r, u)
    {
      PreparedLookup(a, b, t, r, u);
      OthersSame(b, c, root, r);
    }
  }

  /** After the parent's pages were copied. */
  lemma BornFull(a: Ram, b: Ram, c: Ram, root: int, n: int, t: int)
    requires Inv(a, {}) && Born(a, b, root, 0, t) && Taken(b, c, root, 0, n) && 0 <= n
    ensures Born(a, c, root, n, t)
  {
    assert TakenAt(b, c, root, 0, n, t);
    TakenRoot(b, c, root, 0, n, root);
    forall x | x in a.role && x != t
      ensures TakenAt(a, c, root, 0, n, x)
    {
      assert TakenAt(a, b, root, 0, 0, x) && TakenAt(b, c, root, 0, n, x);
    }
    forall r, u | IsRoot(a, r) && 0 <= u < NPAGES
      ensures Lookup(c.mem, r, u) == Lookup(a.mem, r, u)
    {
      BornRoot(a, b, root, 0, t, r);
    }
  }

  lemma BornRoot(a: Ram, b: Ram, root: int, n: int, t: int, r: int)
    requires Born(a, b, root, n, t) && IsRoot(a, r)
    ensures IsRoot(b, r) && r != root && r != t
  {
    assert TakenAt(a, b, root, 0, n, r);
  }

  lemma FramesBorn(s: Ram, s': Ram, sz: map<int, int>, tf: map<int, int>, trampoline: int, holder: map<int, int>,
                   kept: set<int>, root: int, t: int)
    requires FramesOk(s, tf, trampoline, holder, kept) && TableOk(s, sz) && tf.Keys == sz.Keys &&
             Born(s, s', root, 0, t)
    requires OnlyFixed(s'.mem, root, t, trampoline)
    ensures root !in tf && FramesOk(s', tf[root := t], trampoline, holder[t := root], kept)
  {
    var tf', holder' := tf[root := t], holder[t := root];
    assert HeldOk(s, tf, holder, kept, t);
    assert root in tf ==> root in sz.Keys && SizeOk(s, root, sz[root]);
    forall r | r in tf'
      ensures FrameOk(s', tf', trampoline, holder', r)
    {
      if r != root {
        assert r in sz.Keys && SizeOk(s, r, sz[r]) && FrameOk(s, tf, trampoline, holder, r);
        assert TakenAt(s, s', root, 0, 0, tf[r]);
      }
    }
    forall b | b in s'.role
      ensures HeldOk(s', tf', holder', kept, b)
    {
      assert HeldOk(s, tf, holder, kept, b);
      if b != t {
        assert TakenAt(s, s', root, 0, 0, b);
      }
    }
  }

  lemma BirthKeeps(s: Ram, s1: Ram, s2: Ram, sz: map<int, int>, tf: map<int, int>, trampoline: int,
                   holder: map<int, int>, kept: set<int>, root: int, t: int)
    requires Inv(s1, {}) && Inv(s2, {}) && TableOk(s1, sz) && root in s1.role && s1.role[root].Free? &&
             Grew(s1, s2, root)
    requires IsRoot(s2, root) && OnlyFixed(s2.mem, root, t, trampoline) && Born(s, s2, root, 0, t)
    requires TableOk(s, sz) && tf.Keys == sz.Keys && FramesOk(s, tf, trampoline, holder, kept)
    ensures root !in sz && TableOk(s2, sz[root := 0]) &&
            FramesOk(s2, tf[root := t], trampoline, holder[t := root], kept)
    ensures tf[root := t].Keys == sz[root := 0].Keys && |sz[root := 0]| == |sz| + 1
  {
    TableNew(s1, s2, sz, root, t, trampoline);
    FramesBorn(s, s2, sz, tf, trampoline, holder, kept, root, t);
    assert sz[root := 0].Keys == sz.Keys + {root};
  }

  /** The child's pages are a copy of the parent's, as they were before the child was made. */
  lemma CopiedSince(a: Ram, b: Ram, c: Ram, from: int, to: int, n: int, t: int)
    requires Inv(a, {}) && IsRoot(a, from) && Born(a, b, to, 0, t) && n <= USERTOP && Copied(b, c, from, to, n)
    ensures Copied(a, c, from, to, n)
  {
    forall u | 0 <= u < n
      ensures CopiedAt(a, c, from, to, u)
    {
      assert CopiedAt(b, c, from, to, u) && Lookup(b.mem, from, u) == Lookup(a.mem, from, u);
      if V(Lookup(a.mem, from, u)) {
        MappedIsUserPage(a, from, u);
        assert TakenAt(a, b, to, 0, 0, Frame(Lookup(a.mem, from, u)));
      }
    }
  }

  // ---- a process ends ----

  /** The trapframe t and every page of page table root are free; every other page is as it was. */
  ghost predicate Died(s: Ram, s': Ram, root: int, t: int) {
    && SameKeys(s, s')
    && (forall b {:trigger s'.role[b]} :: b in s.role ==>
          if b == t || Of(s.role[b], root) then s'.role[b].Free? else s'.role[b] == s.role[b] && s'.mem[b] == s.mem[b])
  }

  lemma DiedAfter(a: Ram, b: Ram, c: Ram, root: int, t: int)
    requires Prepared(b, a, t) && Gone(b, c, root)
    ensures Died(a, c, root, t)
  {
    forall x | x in a.role
      ensures if x == t || Of(a.role[x], root) then c.role[x].Free? else c.role[x] == a.role[x] && c.mem[x] == a.mem[x]
    {
      assert GoneAt(b, c, root, x);
    }
  }

  /** Freeing the trapframe touches no page table. */
  lemma TableUnheld(s: Ram, s': Ram, sz: map<int, int>, t: int)
    requires Inv(s', {}) && TableOk(s, sz) && Prepared(s', s, t)
    ensures TableOk(s', sz)
  {
    forall r | r in sz
      ensures SizeOk(s', r, sz[r])
    {
      assert SizeOk(s, r, sz[r]);
      forall v | 0 <= v < NPAGES
        ensures Lookup(s'.mem, r, v) == Lookup(s.mem, r, v)
      {
        PreparedLookup(s', s, t, r, v);
      }
    }
  }

  lemma FramesDied(s: Ram, s': Ram, sz: map<int, int>, tf: map<int, int>, trampoline: int, holder: map<int, int>,
                   kept: set<int>, root: int)
    requires Inv(s, {}) && Inv(s', {}) && FramesOk(s, tf, trampoline, holder, kept) && TableOk(s, sz) &&
             tf.Keys == sz.Keys
    requires root in tf && Died(s, s', root, tf[root])
    ensures FramesOk(s', tf - {root}, trampoline, holder - {tf[root]}, kept)
  {
    var t := tf[root];
    var tf', holder' := tf - {root}, holder - {t};
    assert FrameOk(s, tf, trampoline, holder, root);
    forall r | r in tf'
      ensures FrameOk(s', tf', trampoline, holder', r)
    {
      assert r in sz.Keys && SizeOk(s, r, sz[r]) && FrameOk(s, tf, trampoline, holder, r);
      OthersSame(s, s', root, r);
    }
    forall b | b in s'.role
      ensures HeldOk(s', tf', holder', kept, b)
    {
      assert HeldOk(s, tf, holder, kept, b);
    }
  }

  lemma DeathKeeps(s: Ram, s1: Ram, s2: Ram, sz: map<int, int>, tf: map<int, int>, trampoline: int,
                   holder: map<int, int>, kept: set<int>, root: int)
    requires Inv(s, {}) && Inv(s1, {}) && Inv(s2, {}) && FramesOk(s, tf, trampoline, holder, kept) && TableOk(s, sz) &&
             TableOk(s1, sz)
    requires tf.Keys == sz.Keys && root in tf && Prepared(s1, s, tf[root]) && Gone(s1, s2, root)
    ensures Died(s, s2, root, tf[root]) && TableOk(s2, sz - {root})
    ensures FramesOk(s2, tf - {root}, trampoline, holder - {tf[root]}, kept)
    ensures (tf - {root}).Keys == (sz - {root}).Keys && |sz - {root}| <= |sz|
  {
    TableGone(s1, s2, sz, root);
    DiedAfter(s, s1, s2, root, tf[root]);
    FramesDied(s, s2, sz, tf, trampoline, holder, kept, root);
    Collections.SubsetSize((sz - {root}).Keys, sz.Keys);
  }

  /** Adding nodes keeps everything. */
  lemma ExtensionKeeps(s: Ram, s': Ram, sz: map<int, int>, tf: map<int, int>, trampoline: int, holder: map<int, int>,
                       kept: set<int>, root: int)
    requires FramesOk(s, tf, trampoline, holder, kept) && TableOk(s, sz) && tf.Keys == sz.Keys && root in sz &&
             Extended(s, s', root)
    ensures TableOk(s', sz) && FramesOk(s', tf, trampoline, holder, kept)
  {
    assert SizeOk(s, root, sz[root]);
    UpMono(0, sz[root]);
    ExtendedIsTaken(s, s', root, 0);
    TableTaken(s, s', sz, root, 0, 0, sz[root]);
    FramesTaken(s, s', sz, tf, trampoline, holder, kept, root, 0, 0);
    assert sz[root := sz[root]] == sz;
  }

  /** Taking user pages below the size n keeps everything. */
  lemma GrowthKeeps(s: Ram, s': Ram, sz: map<int, int>, tf: map<int, int>, trampoline: int, holder: map<int, int>,
                    kept: set<int>, root: int, lo: int, hi: int, n: int)
    requires FramesOk(s, tf, trampoline, holder, kept) && TableOk(s, sz) && tf.Keys == sz.Keys && root in sz &&
             Taken(s, s', root, lo, hi)
    requires sz[root] <= n <= TRAPFRAME && hi <= Up(n)
    ensures TableOk(s', sz[root := n]) && FramesOk(s', tf, trampoline, holder, kept) && sz[root := n].Keys == sz.Keys
    ensures n == sz[root] ==> sz[root := n] == sz
  {
    TableTaken(s, s', sz, root, lo, hi, n);
    UpMono(n, TRAPFRAME);
    FramesTaken(s, s', sz, tf, trampoline, holder, kept, root, lo, hi);
  }

  /** So does giving up those above it. */
  lemma ShrinkKeeps(s: Ram, s': Ram, sz: map<int, int>, tf: map<int, int>, trampoline: int, holder: map<int, int>,
                    kept: set<int>, root: int, n: int)
    requires FramesOk(s, tf, trampoline, holder, kept) && TableOk(s, sz) && tf.Keys == sz.Keys && root in sz &&
             0 <= n <= sz[root]
    requires UnmappedRange(s, s', root, Up(n), Up(sz[root]) - Up(n), true)
    ensures TableOk(s', sz[root := n]) && FramesOk(s', tf, trampoline, holder, kept) && sz[root := n].Keys == sz.Keys
  {
    assert SizeOk(s, root, sz[root]);
    TableShrunk(s, s', sz, root, n);
    UpMono(sz[root], TRAPFRAME);
    FramesShrunk(s, s', sz, tf, trampoline, holder, kept, root, Up(n), Up(sz[root]) - Up(n));
  }

  lemma PageBelow(va: int, sz: int)
    requires 0 <= va < sz
    ensures va / PGSIZE + 1 <= Up(sz)
  {
    UpMono(va, sz);
  }

  /** A child given up again leaves everything as it was. */
  lemma NeverBorn(a: Ram, b: Ram, c: Ram, d: Ram, root: int, t: int)
    requires Inv(a, {}) && Born(a, b, root, 0, t) && Extended(b, c, root) && Died(c, d, root, t)
    ensures Restored(a, d)
  {
    forall x | x in a.role
      ensures if a.role[x].Free? then d.role[x].Free? else d.role[x] == a.role[x] && d.mem[x] == a.mem[x]
    {
      NoneLeft(a, root, x);
      assert GrewAt(b, c, root, x);
      if x != t {
        assert TakenAt(a, b, root, 0, 0, x);
      }
    }
  }

  /**
   Growing by n can fail only because of TRAPFRAME or because fewer than three free pages are left for each new one.
   */
  predicate NoRoom(sz: int, n: int, free: int) {
    sz + n > TRAPFRAME || free < 3 * (Up(sz + n) - Up(sz))
  }

  ghost predicate Grown(s: Ram, s': Ram, sz: map<int, int>, sz': map<int, int>, root: int, n: int) {
    && root in sz && sz' == sz[root := sz[root] + n]
    && Taken(s, s', root, Up(sz[root]), Up(sz[root] + n)) &&
       Zeroed(s', root, Up(sz[root]), Up(sz[root] + n), PTE_R + PTE_U + PTE_W)
  }

  ghost predicate Shrunk(s: Ram, s': Ram, sz: map<int, int>, sz': map<int, int>, root: int, n: int) {
    && root in sz && sz' == sz[root := if sz[root] + n < 0 then sz[root] else sz[root] + n]
    && UnmappedRange(s, s', root, Up(sz'[root]), Up(sz[root]) - Up(sz'[root]), true)
  }

  datatype Op =
    | Start
    | Fork(parent: int)
    | Exit(root: int)
    | Sbrk(root: int, n: int, eager: bool)
    | Fault(root: int, va: int)

  /** The processes in use, by page table: size and trapframe of each. kept are the pages the kernel held before. */
  class Procs {
    const vm: Vm
    const trampoline: int
    var sz: map<int, int>
    var tf: map<int, int>
    ghost var holder: map<int, int>
    ghost const kept: set<int>
    ghost const pages: set<int>

    ghost predicate Valid()
      reads this, vm
    {
      && vm.Valid() && TableOk(vm.State(), sz) && trampoline % PGSIZE == 0 && vm.role.Keys == pages
      && tf.Keys == sz.Keys && |sz| <= NPROC && FramesOk(vm.State(), tf, trampoline, holder, kept)
    }

    constructor (vm: Vm, trampoline: int)
      requires vm.Valid() && trampoline % PGSIZE == 0 && forall b :: b in vm.role ==> !vm.role[b].Tree?
      ensures Valid() && this.vm == vm && this.trampoline == trampoline && sz == map[]
      ensures pages == vm.role.Keys && forall b :: b in kept <==> b in vm.role && vm.role[b] == Held
    {
      this.vm := vm;
      this.trampoline := trampoline;
      sz, tf, holder := map[], map[], map[];
      kept := set b | b in vm.role && vm.role[b] == Held;
      pages := vm.role.Keys;
      new;
      forall b | b in vm.role
        ensures HeldOk(vm.State(), tf, holder, kept, b)
      {
      }
    }

    /** growproc: the new size takes effect only with all its pages; a shrink below zero wraps and is ignored. */
    method Growproc(root: int, n: int) returns (ret: int)
      requires Valid() && root in sz && -0x8000_0000 <= n < 0x8000_0000
      modifies this`sz, vm
      ensures Valid() && (ret == 0 || ret == -1) && sz.Keys == old(sz).Keys
      ensures ret == -1 ==>
              n > 0 && sz == old(sz) && Extended(old(vm.State()), vm.State(), root) &&
              NoRoom(old(sz)[root], n, |old(vm.free)|)
      ensures ret == 0 && n > 0 ==> Grown(old(vm.State()), vm.State(), old(sz), sz, root, n)
      ensures ret == 0 && n <= 0 ==> Shrunk(old(vm.State()), vm.State(), old(sz), sz, root, n)
    {
      if n > 0 {
        ret := Grow(root, n);
      } else if n < 0 {
        Shrink(root, n);
        ret := 0;
      } else {
        NothingMapped(vm.State(), root, Up(sz[root]), 0, true);
        assert sz[root := sz[root]] == sz && SizeOk(vm.State(), root, sz[root]);
        ret := 0;
      }
    }

    method Grow(root: int, n: int) returns (ret: int)
      requires Valid() && root in sz && 0 < n
      modifies this`sz, vm
      ensures Valid() && (ret == 0 || ret == -1) && sz.Keys == old(sz).Keys
      ensures ret == -1 ==>
              sz == old(sz) && Extended(old(vm.State()), vm.State(), root) && NoRoom(old(sz)[root], n, |old(vm.free)|)
      ensures ret == 0 ==> Grown(old(vm.State()), vm.State(), old(sz), sz, root, n)
    {
      ghost var s := vm.State();
      assert SizeOk(s, root, sz[root]);
      if sz[root] + n > TRAPFRAME {
        ExtendedRefl(s, root);
        return -1;
      }
      UpMono(sz[root], sz[root] + n);
      UpMono(sz[root] + n, TRAPFRAME);
      var size := Uvmalloc(vm, root, sz[root], sz[root] + n, PTE_W);
      if size == 0 {
        ExtensionKeeps(s, vm.State(), sz, tf, trampoline, holder, kept, root);
        return -1;
      }
      GrowthKeeps(s, vm.State(), sz, tf, trampoline, holder, kept, root, Up(sz[root]), Up(size), size);
      sz := sz[root := size];
      return 0;
    }

    method Shrink(root: int, n: int)
      requires Valid() && root in sz && -0x8000_0000 <= n < 0
      modifies this`sz, vm
      ensures Valid() && sz.Keys == old(sz).Keys && Shrunk(old(vm.State()), vm.State(), old(sz), sz, root, n)
    {
      ghost var s := vm.State();
      assert SizeOk(s, root, sz[root]);
      var size := Uvmdealloc(vm, root, sz[root], (sz[root] + n) % 0x1_0000_0000_0000_0000);
      ShrinkKeeps(s, vm.State(), sz, tf, trampoline, holder, kept, root, size);
      sz := sz[root := size];
    }

    /** sys_sbrk: the old size, or -1. */
    method Sbrk(root: int, n: int, eager: bool) returns (addr: int)
      requires Valid() && root in sz && -0x8000_0000 <= n < 0x8000_0000
      modifies this`sz, vm
      ensures Valid() && sz.Keys == old(sz).Keys && (addr == -1 || addr == old(sz)[root])
      ensures addr == -1 ==> n > 0 && sz == old(sz) && Extended(old(vm.State()), vm.State(), root)
      ensures addr == -1 ==> if eager then NoRoom(old(sz)[root], n, |old(vm.free)|) else old(sz)[root] + n > TRAPFRAME
      ensures addr != -1 && n <= 0 && (eager || n < 0) ==> Shrunk(old(vm.State()), vm.State(), old(sz), sz, root, n)
      ensures addr != -1 && n >= 0 ==> sz == old(sz)[root := addr + n] && addr + n <= TRAPFRAME
      ensures addr != -1 && n > 0 && eager ==> Grown(old(vm.State()), vm.State(), old(sz), sz, root, n)
      ensures addr != -1 && n >= 0 && !eager ==> vm.State() == old(vm.State())
    {
      ghost var s := vm.State();
      assert SizeOk(s, root, sz[root]);
      addr := sz[root];
      if eager || n < 0 {
        var ret := Growproc(root, n);
        if ret < 0 {
          return -1;
        }
        assert SizeOk(vm.State(), root, sz[root]);
      } else {
        ExtendedRefl(s, root);
        if addr + n > TRAPFRAME {
          return -1;
        }
        TakenRefl(s, root, 0);
        UpMono(0, addr + n);
        TableTaken(s, s, sz, root, 0, 0, addr + n);
        sz := sz[root := addr + n];
      }
    }

    /** A page fault, or an access by the kernel to a page not yet there. */
    method Fault(root: int, va: int) returns (pa: int)
      requires Valid() && root in sz && 0 <= va
      modifies vm
      ensures Valid()
      ensures va >= sz[root] || va / PGSIZE in old(Pages(vm.mem, root)) ==> pa == 0 && vm.State() == old(vm.State())
      ensures pa == 0 ==> Extended(old(vm.State()), vm.State(), root)
      ensures pa == 0 ==> va >= sz[root] || va / PGSIZE in old(Pages(vm.mem, root)) || |old(vm.free)| <= 2
      ensures pa != 0 ==> va < sz[root] && Taken(old(vm.State()), vm.State(), root, va / PGSIZE, va / PGSIZE + 1)
      ensures pa != 0 ==>
              HasPage(vm.State(), root, va / PGSIZE, Filler(0), PTE_W + PTE_U + PTE_R) &&
              pa == Frame(Lookup(vm.mem, root, va / PGSIZE))
    {
      ghost var s := vm.State();
      assert SizeOk(s, root, sz[root]);
      pa := Vmfault(vm, root, root, sz[root], va);
      if pa == 0 {
        ExtensionKeeps(s, vm.State(), sz, tf, trampoline, holder, kept, root);
      } else {
        PageBelow(va, sz[root]);
        GrowthKeeps(s, vm.State(), sz, tf, trampoline, holder, kept, root, va / PGSIZE, va / PGSIZE + 1, sz[root]);
      }
      assert sz[root := sz[root]] == sz;
    }

    /** allocproc: a process of size 0 with its trapframe, or 0 and nothing lost. */
    method Allocproc() returns (root: int)
      requires Valid()
      modifies this`sz, this`tf, this`holder, vm
      ensures Valid()
      ensures root == 0 ==>
              sz == old(sz) && tf == old(tf) && holder == old(holder) && Restored(old(vm.State()), vm.State())
      ensures root == 0 ==> |old(sz)| >= NPROC || |old(vm.free)| < 6
      ensures root != 0 ==>
              root !in old(sz) && sz == old(sz)[root := 0] && root in tf && tf == old(tf)[root := tf[root]]
      ensures root != 0 ==> Born(old(vm.State()), vm.State(), root, 0, tf[root]) && |vm.free| + 6 >= |old(vm.free)|
    {
      ghost var s := vm.State();
      if |sz| >= NPROC {
        return 0;
      }
      var t := vm.Kalloc({});
      if t == 0 {
        return 0;
      }
      root := MakeTable(t, s);
    }

    /** The rest of allocproc, once the trapframe t is allocated; s is the state before that. */
    method MakeTable(t: int, ghost s: Ram) returns (root: int)
      requires vm.Valid() && trampoline % PGSIZE == 0 && Inv(s, {}) && Prepared(s, vm.State(), t) &&
               |vm.free| + 1 == |s.free|
      requires TableOk(s, sz) && tf.Keys == sz.Keys && |sz| < NPROC && FramesOk(s, tf, trampoline, holder, kept) &&
               s.role.Keys == pages
      modifies this`sz, this`tf, this`holder, vm
      ensures Valid()
      ensures root == 0 ==>
              sz == old(sz) && tf == old(tf) && holder == old(holder) && Restored(s, vm.State()) && |s.free| < 6
      ensures root != 0 ==>
              root !in old(sz) && sz == old(sz)[root := 0] && tf == old(tf)[root := t] && |vm.free| + 6 >= |s.free|
      ensures root != 0 ==> Born(s, vm.State(), root, 0, t)
    {
      ghost var s1 := vm.State();
      TablePrepared(s, s1, sz, t);
      assert PageOk(s1, t);
      root := ProcPagetable(vm, t, trampoline);
      if root == 0 {
        DropFrame(t, s, s1);
      } else {
        BornEmpty(s, s1, vm.State(), root, t);
        Enter(root, t, s, s1);
      }
    }

    /** The new process is entered in the table. */
    method Enter(root: int, t: int, ghost s: Ram, ghost s1: Ram)
      requires vm.Valid() && trampoline % PGSIZE == 0 && Inv(s1, {}) && TableOk(s1, sz) && root in s1.role &&
               s1.role[root].Free?
      requires Grew(s1, vm.State(), root) && IsRoot(vm.State(), root) && OnlyFixed(vm.mem, root, t, trampoline) &&
               Born(s, vm.State(), root, 0, t)
      requires TableOk(s, sz) && tf.Keys == sz.Keys && |sz| < NPROC && FramesOk(s, tf, trampoline, holder, kept) &&
               s.role.Keys == pages
      modifies this`sz, this`tf, this`holder
      ensures Valid() && root !in old(sz) && sz == old(sz)[root := 0] && tf == old(tf)[root := t]
    {
      BirthKeeps(s, s1, vm.State(), sz, tf, trampoline, holder, kept, root, t);
      sz, tf, holder := sz[root := 0], tf[root := t], holder[t := root];
    }

    /** The failure path of allocproc: the trapframe goes back. */
    method DropFrame(t: int, ghost s: Ram, ghost s1: Ram)
      requires vm.Valid() && trampoline % PGSIZE == 0 && Inv(s, {}) && Prepared(s, s1, t) && Restored(s1, vm.State())
      requires TableOk(s, sz) && tf.Keys == sz.Keys && |sz| < NPROC && FramesOk(s, tf, trampoline, holder, kept) &&
               s.role.Keys == pages
      modifies vm
      ensures Valid() && Restored(s, vm.State())
    {
      vm.Kfree(t, {});
      TableRestored(s, vm.State(), sz);
      FramesRestored(s, vm.State(), sz, tf, trampoline, holder, kept);
    }

    /** kfree of a trapframe, which is still mapped in its page table. */
    method FreeFrame(t: int)
      requires vm.Valid() && TableOk(vm.State(), sz) && HeldAt(vm.State(), t)
      modifies vm
      ensures vm.Valid() && TableOk(vm.State(), sz) && Prepared(vm.State(), old(vm.State()), t)
    {
      ghost var s := vm.State();
      vm.Kfree(t, {});
      TableUnheld(s, vm.State(), sz, t);
    }

    /** freeproc: the trapframe, the page table and all its pages go back to the free list. */
    method Freeproc(root: int)
      requires Valid() && root in sz
      modifies this`sz, this`tf, this`holder, vm
      ensures Valid() && sz == old(sz) - {root} && tf == old(tf) - {root} &&
              Died(old(vm.State()), vm.State(), root, old(tf)[root])
      ensures root in old(tf)
    {
      ghost var s := vm.State();
      assert root in tf.Keys;
      assert SizeOk(s, root, sz[root]) && FrameOk(s, tf, trampoline, holder, root);
      var t := tf[root];
      FreeFrame(t);
      ghost var s1 := vm.State();
      assert SizeOk(s1, root, sz[root]);
      ProcFreepagetable(vm, root, sz[root]);
      DeathKeeps(s, s1, vm.State(), sz, tf, trampoline, holder, kept, root);
      sz, tf, holder := sz - {root}, tf - {root}, holder - {t};
    }

    /** kfork: a child with its own copy of the parent's memory; 0, with nothing lost, when there is no room for it. */
    method Fork(parent: int) returns (child: int)
      requires Valid() && parent in sz
      modifies this`sz, this`tf, this`holder, vm
      ensures Valid()
      ensures child == 0 ==> sz == old(sz) && tf == old(tf) && Restored(old(vm.State()), vm.State())
      ensures child == 0 ==> |old(sz)| >= NPROC || |old(vm.free)| < 6 + 3 * Up(old(sz)[parent])
      ensures child != 0 ==>
              child !in old(sz) && sz == old(sz)[child := old(sz)[parent]] && child in tf &&
              tf == old(tf)[child := tf[child]]
      ensures child != 0 ==> Born(old(vm.State()), vm.State(), child, Up(old(sz)[parent]), tf[child])
      ensures child != 0 ==> Copied(old(vm.State()), vm.State(), parent, child, Up(old(sz)[parent]))
    {
      ghost var s := vm.State();
      assert SizeOk(s, parent, sz[parent]);
      UpMono(0, sz[parent]);
      child := Allocproc();
      if child != 0 {
        var ok := CopyMemory(parent, child, s, old(sz), old(tf));
        if !ok {
          child := 0;
        }
      }
    }

    /** The second half of kfork; s is the state before the child was made. */
    method CopyMemory(parent: int, child: int, ghost s: Ram, ghost sz0: map<int, int>, ghost tf0: map<int, int>)
      returns (ok: bool)
      requires Valid() && parent in sz0 && child !in sz0 && sz == sz0[child := 0] && child in tf &&
               tf == tf0[child := tf[child]] && child !in tf0
      requires Inv(s, {}) && SizeOk(s, parent, sz0[parent]) && Born(s, vm.State(), child, 0, tf[child])
      modifies this`sz, this`tf, this`holder, vm
      ensures Valid()
      ensures !ok ==> sz == sz0 && tf == tf0 && Restored(s, vm.State()) && |old(vm.free)| < 3 * Up(sz0[parent])
      ensures ok ==> sz == sz0[child := sz0[parent]] && tf == old(tf)
      ensures ok ==>
              Born(s, vm.State(), child, Up(sz0[parent]), tf[child]) &&
              Copied(s, vm.State(), parent, child, Up(sz0[parent]))
    {
      ghost var s2 := vm.State();
      var n := sz[parent];
      assert SizeOk(s2, child, sz[child]) && SizeOk(s2, parent, sz[parent]);
      UpMono(n, TRAPFRAME);
      UpMono(0, n);
      var ret := Uvmcopy(vm, parent, child, n);
      ok := ret == 0;
      if ok {
        GrowthKeeps(s2, vm.State(), sz, tf, trampoline, holder, kept, child, 0, Up(n), n);
        BornFull(s, s2, vm.State(), child, Up(n), tf[child]);
        CopiedSince(s, s2, vm.State(), parent, child, Up(n), tf[child]);
        sz := sz[child := n];
        assert sz.Keys == old(sz).Keys;
      } else {
        GiveUp(child, s, s2, sz0, tf0);
      }
    }

    /** The failure path of kfork: the child is freed. */
    method GiveUp(child: int, ghost s: Ram, ghost s2: Ram, ghost sz0: map<int, int>, ghost tf0: map<int, int>)
      requires vm.Valid() && TableOk(s2, sz) && trampoline % PGSIZE == 0 && tf.Keys == sz.Keys && |sz| <= NPROC &&
               s2.role.Keys == pages
      requires FramesOk(s2, tf, trampoline, holder, kept) && child !in sz0 && child !in tf0 && sz == sz0[child := 0] &&
               child in tf && tf == tf0[child := tf[child]]
      requires Inv(s, {}) && Born(s, s2, child, 0, tf[child]) && Extended(s2, vm.State(), child)
      modifies this`sz, this`tf, this`holder, vm
      ensures Valid() && sz == sz0 && tf == tf0 && Restored(s, vm.State())
    {
      ghost var s3, t := vm.State(), tf[child];
      ExtensionKeeps(s2, s3, sz, tf, trampoline, holder, kept, child);
      Freeproc(child);
      NeverBorn(s, s2, s3, vm.State(), child, t);
      assert sz == sz0 && tf == tf0;
    }

    /**
     The size invariant and the account of every page hold after every sequence of operations: a page is held
     only if it was held before or is the trapframe of a process.
     */
    method Run(ops: seq<Op>)
      requires Valid()
      modifies this`sz, this`tf, this`holder, vm
      ensures Valid()
      ensures forall b :: b in vm.role && vm.role[b] == Held ==> b in kept || IsFrame(tf, holder, b)
    {
      for i := 0 to |ops|
        invariant Valid()
      {
        match ops[i]
        case Start =>
          var _ := Allocproc();
        case Fork(p) =>
          if p in sz {
            var _ := Fork(p);
          }
        case Exit(r) =>
          if r in sz {
            Freeproc(r);
          }
        case Sbrk(r, n, eager) =>
          if r in sz && -0x8000_0000 <= n < 0x8000_0000 {
            var _ := Sbrk(r, n, eager);
          }
        case Fault(r, va) =>
          if r in sz && 0 <= va {
            var _ := Fault(r, va);
          }
      }
      forall b | b in vm.role && vm.role[b] == Held
        ensures b in kept || IsFrame(tf, holder, b)
      {
        assert HeldOk(vm.State(), tf, holder, kept, b);
      }
    }
  }

  /**
   From kinit on, whatever processes do: every page from end to PHYSTOP is on the free list, or in one place of the
   page table of one process, or the trapframe of one process.
   */
  method Boot(end: int, trampoline: int, ops: seq<Op>) returns (ps: Procs)
    requires 0 < end < PHYSTOP && trampoline % PGSIZE == 0
    ensures fresh(ps) && fresh(ps.vm) && ps.Valid()
    ensures forall b :: end <= b < PHYSTOP && b % PGSIZE == 0 ==>
            b in ps.vm.role && Accounted(ps.vm.role[b], ps.sz, ps.tf, ps.holder, b)
  {
    var vm := new Vm(end);
    ps := new Procs(vm, trampoline);
    ps.Run(ops);
    forall b | end <= b < PHYSTOP && b % PGSIZE == 0
      ensures b in ps.vm.role && Accounted(ps.vm.role[b], ps.sz, ps.tf, ps.holder, b)
    {
      assert b in ps.pages;
      assert HeldOk(ps.vm.State(), ps.tf, ps.holder, ps.kept, b);
    }
  }

  /** On the free list, or in one place of the page table of a process, or its trapframe. */
  predicate Accounted(r: Role, sz: map<int, int>, tf: map<int, int>, holder: map<int, int>, b: int) {
    match r
    case Free(_) => true
    case Tree(root, _, _, _) => root in sz
    case Held => IsFrame(tf, holder, b)
  }
}
