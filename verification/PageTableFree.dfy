/**
 freewalk and uvmfree: a page table without user pages is taken down, and every page of it goes back to the free list.
 */
module PageTableFree {
  import opened PageTable
  import opened VirtualMemory
  import opened UserMemory

  predicate Of(t: Role, root: int) {
    t.Tree? && t.root == root
  }

  /** Page b while the part of page table root below node pt is freed; nodes in loose are the ones above pt. */
  predicate TornAt(s: Ram, s': Ram, root: int, loose: set<int>, pt: int, b: int)
    requires b in s.role && b in s'.role && b in s.mem && b in s'.mem
  {
    var t := s.role[b];
    || (s'.role[b] == t && s'.mem[b] == s.mem[b])
    || (s'.role[b].Free? && Of(t, root) && b !in loose && (b == pt || t.parent !in loose))
  }

  /** As Torn, but nothing is said of pt itself. */
  ghost predicate Tearing(s: Ram, s': Ram, root: int, loose: set<int>, pt: int) {
    SameKeys(s, s') &&
      forall b {:trigger TornAt(s, s', root, loose, pt, b)} :: b in s.role && b != pt ==>
      TornAt(s, s', root, loose, pt, b)
  }

  ghost predicate Torn(s: Ram, s': Ram, root: int, loose: set<int>, pt: int) {
    Tearing(s, s', root, loose, pt) && pt in s'.role && s'.role[pt].Free?
  }

  /** c is b, where the part below child was freed, but for a word of pt. */
  lemma TearingOn(s: Ram, a: Ram, c: Ram, root: int, loose: set<int>, pt: int, child: int)
    requires Tearing(s, a, root, loose, pt) && SameKeys(a, c) && pt !in loose && child != pt && child in a.role
    requires Of(a.role[child], root) && a.role[child].parent == pt && child !in loose && c.role[child].Free?
    requires forall x :: x in a.role && x != pt && x != child ==> TornAt(a, c, root, loose + {pt}, child, x)
    ensures Tearing(s, c, root, loose, pt)
  {
    forall x | x in s.role && x != pt
      ensures TornAt(s, c, root, loose, pt, x)
    {
      assert TornAt(s, a, root, loose, pt, x);
      if x != child {
        assert TornAt(a, c, root, loose + {pt}, child, x);
      }
    }
  }

  /** No node of level 0 maps anything. */
  ghost predicate NoLeaves(s: Ram, root: int) {
    forall b, e {:trigger Entry(s.mem, b, e)} ::
      b in s.mem && b in s.role && Of(s.role[b], root) && s.role[b].level == 0 ==> !V(Entry(s.mem, b, e))
  }

  /** A node with no valid words whose parent is being taken down leaves the page table. */
  lemma RetiredOk(s: Ram, loose: set<int>, b: int)
    requires Inv(s, loose + {b}) && b in s.mem && Node(s.role[b]) && (s.role[b].level == 2 || s.role[b].parent in loose)
    requires forall e :: 0 <= e < NPTE ==> !V(Entry(s.mem, b, e))
    ensures Inv(Detached(s, b), loose)
  {
    var s' := Detached(s, b);
    forall x | x in s'.mem
      ensures PageOk(s', x)
    {
      assert PageOk(s, x);
    }
    forall k | 0 <= k < |s'.free|
      ensures FreeOk(s', k)
    {
      assert FreeOk(s, k);
    }
    forall x, e | x in s'.mem && x !in loose && Node(s'.role[x]) && 0 <= e < NPTE
      ensures PageOk(s', x) && EntryOk(s', x, e)
    {
      assert PageOk(s', x) && PageOk(s, x) && PageOk(s, b) && EntryOk(s, x, e);
    }
  }

  predicate Above(s: Ram, loose: set<int>, level: int) {
    forall x :: x in loose ==> x in s.role && s.role[x].Tree? && s.role[x].level > level
  }

  /** freewalk on pt, started in s, has dealt with the words below i. */
  ghost predicate Freeing(s: Ram, s': Ram, root: int, loose: set<int>, pt: int, i: int) {
    && Inv(s', loose + {pt}) && Tearing(s, s', root, loose, pt) && NoLeaves(s', root)
    && pt !in loose && pt in s.mem && s'.role[pt] == s.role[pt] && Of(s.role[pt], root) && s.role[pt].level >= 0 &&
       |s'.mem[pt]| == NPTE
    && (forall e :: 0 <= e < i ==> !V(Entry(s'.mem, pt, e)))
    && (forall e {:trigger EntryOk(s', pt, e)} :: 0 <= i <= e < NPTE ==> EntryOk(s', pt, e))
    && Above(s', loose, s.role[pt].level)
  }

  lemma FreeingStarts(s: Ram, root: int, loose: set<int>, pt: int)
    requires Inv(s, loose) && NoLeaves(s, root) && pt !in loose && pt in s.mem && Of(s.role[pt], root) &&
             s.role[pt].level >= 0 && Above(s, loose, s.role[pt].level)
    ensures Freeing(s, s, root, loose, pt, 0)
  {
    assert PageOk(s, pt);
    forall e | 0 <= e < NPTE
      ensures EntryOk(s, pt, e)
    {
      assert EntryOk(s, pt, e);
    }
  }

  /** The child in word i of pt, with all below it, has been freed: a -> b; the word can be cleared. */
  lemma ChildFreed(s: Ram, a: Ram, b: Ram, root: int, loose: set<int>, pt: int, i: int, child: int)
    requires Freeing(s, a, root, loose, pt, i) && 0 <= i < NPTE && s.role[pt].level > 0 &&
             Entry(a.mem, pt, i) == a.mem[pt][i]
    requires V(a.mem[pt][i]) && child == Frame(a.mem[pt][i]) && Inv(b, loose + {pt}) &&
             Torn(a, b, root, loose + {pt}, child) && NoLeaves(b, root)
    ensures pt in b.mem && |b.mem[pt]| == NPTE && Freeing(s, WithWord(b, pt, i, 0), root, loose, pt, i + 1)
  {
    assert EntryOk(a, pt, i);
    assert child != pt && TornAt(a, b, root, loose + {pt}, child, pt);
    ClearedOk(b, loose + {pt}, pt, i);
    var c := WithWord(b, pt, i, 0);
    forall x | x in a.role && x != pt && x != child
      ensures TornAt(a, c, root, loose + {pt}, child, x)
    {
      assert TornAt(a, b, root, loose + {pt}, child, x);
    }
    forall x | x in loose
      ensures c.role[x] == a.role[x]
    {
      assert TornAt(a, b, root, loose + {pt}, child, x);
    }
    forall x, e | x in c.mem && Of(c.role[x], root) && c.role[x].level == 0
      ensures !V(Entry(c.mem, x, e))
    {
      assert !V(Entry(b.mem, x, e));
    }
    forall e | 0 <= e <= i
      ensures !V(Entry(c.mem, pt, e))
    {
      assert e < i ==> !V(Entry(a.mem, pt, e));
    }
    forall e | i + 1 <= e < NPTE
      ensures EntryOk(c, pt, e)
    {
      assert EntryOk(a, pt, e);
      if V(a.mem[pt][e]) {
        assert TornAt(a, b, root, loose + {pt}, child, Frame(a.mem[pt][e]));
      }
    }
    TearingOn(s, a, c, root, loose, pt, child);
  }

  /** What freewalk finds in word i: nothing, or, with all permission bits off, a node one level down. */
  lemma WordRead(s: Ram, a: Ram, root: int, loose: set<int>, pt: int, i: int)
    requires Freeing(s, a, root, loose, pt, i) && 0 <= i < NPTE
    ensures Entry(a.mem, pt, i) == a.mem[pt][i]
    ensures if V(a.mem[pt][i]) then
              var c := Frame(a.mem[pt][i]);
              && a.mem[pt][i] / 2 % 8 == 0 && s.role[pt].level > 0 && c !in loose && c != pt
              && c in a.mem && Of(a.role[c], root) && a.role[c].level == s.role[pt].level - 1 && a.role[c].parent == pt
              && Above(a, loose + {pt}, s.role[pt].level - 1)
            else Freeing(s, a, root, loose, pt, i + 1)
  {
    assert EntryOk(a, pt, i) && Entry(a.mem, pt, i) == a.mem[pt][i];
    if V(a.mem[pt][i]) {
      ValidFlags(a.mem[pt][i]);
    }
  }

  /** freewalk on a node of page table root; the nodes above it are in loose. */
  method Freewalk(vm: Vm, pt: int, ghost root: int, ghost level: int, ghost loose: set<int>)
    requires vm.ValidBut(loose) && pt in vm.mem && Of(vm.role[pt], root) && vm.role[pt].level == level >= 0 &&
             pt !in loose
    requires (level == 2 || vm.role[pt].parent in loose) && NoLeaves(vm.State(), root) &&
             Above(vm.State(), loose, level)
    modifies vm
    ensures vm.ValidBut(loose) && Torn(old(vm.State()), vm.State(), root, loose, pt) && NoLeaves(vm.State(), root)
    decreases level, 1
  {
    ghost var s := vm.State();
    FreeingStarts(s, root, loose, pt);
    var i := 0;
    while i < NPTE
      invariant 0 <= i <= NPTE && vm.ValidBut(loose + {pt}) && Freeing(s, vm.State(), root, loose, pt, i)
    {
      FreeWord(vm, pt, i, root, level, loose, s);
      i := i + 1;
    }
    Retire(vm, pt, root, loose, s);
  }

  /** One round of the loop of freewalk. */
  method FreeWord(vm: Vm, pt: int, i: int, ghost root: int, ghost level: int, ghost loose: set<int>, ghost s: Ram)
    requires vm.ValidBut(loose + {pt}) && Freeing(s, vm.State(), root, loose, pt, i) && 0 <= i < NPTE &&
             s.role[pt].level == level
    modifies vm
    ensures vm.ValidBut(loose + {pt}) && Freeing(s, vm.State(), root, loose, pt, i + 1)
    decreases level, 0
  {
    ghost var a := vm.State();
    WordRead(s, a, root, loose, pt, i);
    var pte := vm.mem[pt][i];
    if V(pte) && pte / 2 % 8 == 0 {
      var child := Frame(pte);
      Freewalk(vm, child, root, level - 1, loose + {pt});
      ChildFreed(s, a, vm.State(), root, loose, pt, i, child);
      vm.mem := vm.mem[pt := vm.mem[pt][i := 0]];
    } else {
      assert !V(pte);  // no "freewalk: leaf" panic
    }
  }

  /** The last line of freewalk. */
  method Retire(vm: Vm, pt: int, ghost root: int, ghost loose: set<int>, ghost s: Ram)
    requires vm.ValidBut(loose + {pt}) && Freeing(s, vm.State(), root, loose, pt, NPTE) &&
             (s.role[pt].level == 2 || s.role[pt].parent in loose)
    modifies vm
    ensures vm.ValidBut(loose) && Torn(s, vm.State(), root, loose, pt) && NoLeaves(vm.State(), root)
  {
    ghost var a := vm.State();
    RetiredOk(a, loose, pt);
    vm.role := vm.role[pt := Held];
    vm.Kfree(pt, loose);
    forall x | x in s.role && x != pt
      ensures TornAt(s, vm.State(), root, loose, pt, x)
    {
      assert TornAt(s, a, root, loose, pt, x);
    }
    forall b, e | b in vm.mem && Of(vm.role[b], root) && vm.role[b].level == 0
      ensures !V(Entry(vm.mem, b, e))
    {
      assert !V(Entry(a.mem, b, e));
    }
  }

  // ---- whole page tables ----

  /** Every page of page table root is free; every other page is as it was. */
  predicate GoneAt(s: Ram, s': Ram, root: int, b: int)
    requires b in s.role && b in s'.role && b in s.mem && b in s'.mem
  {
    if Of(s.role[b], root) then s'.role[b].Free? else s'.role[b] == s.role[b] && s'.mem[b] == s.mem[b]
  }

  ghost predicate Gone(s: Ram, s': Ram, root: int) {
    SameKeys(s, s') && forall b {:trigger GoneAt(s, s', root, b)} :: b in s.role ==> GoneAt(s, s', root, b)
  }

  /** A page table without its root has no pages. */
  lemma NoneLeft(s: Ram, root: int, b: int)
    requires Inv(s, {}) && b in s.role && (root in s.role ==> !Of(s.role[root], root))
    ensures !Of(s.role[b], root)
  {
    if s.role[b].Tree? {
      RootStands(s, b);
    }
  }

  lemma RootStands(s: Ram, b: int)
    requires Inv(s, {}) && b in s.role && s.role[b].Tree?
    ensures s.role[b].root in s.role && Of(s.role[s.role[b].root], s.role[b].root)
  {
    var p := Climb(s, b);
    p := Climb(s, p);
    p := Climb(s, p);
    p := Climb(s, p);
  }

  /** One step towards the root. */
  lemma Climb(s: Ram, b: int) returns (p: int)
    requires Inv(s, {}) && b in s.role && s.role[b].Tree?
    ensures p in s.role && Of(s.role[p], s.role[b].root)
    ensures -1 <= s.role[b].level <= 2 &&
            if s.role[b].level == 2 then p == b == s.role[b].root else s.role[p].level == s.role[b].level + 1
  {
    assert PageOk(s, b);
    p := if s.role[b].level == 2 then b else s.role[b].parent;
    assert PageOk(s, p);
  }

  lemma AllGone(s: Ram, s': Ram, root: int)
    requires Inv(s', {}) && Torn(s, s', root, {}, root) && root in s.role && Of(s.role[root], root)
    ensures Gone(s, s', root)
  {
    forall b | b in s.role
      ensures GoneAt(s, s', root, b)
    {
      NoneLeft(s', root, b);
      if b != root {
        assert TornAt(s, s', root, {}, root, b);
      }
    }
  }

  /** Where nothing is looked up, no level-0 node has a valid word. */
  lemma NothingLookedUp(s: Ram, root: int)
    requires Inv(s, {}) && IsRoot(s, root) && forall v :: 0 <= v < NPAGES ==> !V(Lookup(s.mem, root, v))
    ensures NoLeaves(s, root)
  {
    forall b, e | b in s.mem && Of(s.role[b], root) && s.role[b].level == 0
      ensures !V(Entry(s.mem, b, e))
    {
      assert PageOk(s, b);
      if 0 <= e < NPTE {
        var v := s.role[b].prefix * NPTE + e;
        assert v / NPTE == s.role[b].prefix && v % NPTE == e;
        NodeReached(s, b, v);
        assert !V(Lookup(s.mem, root, v));
      }
    }
  }

  /** uvmfree: with no pages mapped at or above sz, the whole page table goes back to the free list. */
  method Uvmfree(vm: Vm, root: int, sz: int)
    requires vm.Valid() && IsRoot(vm.State(), root) && 0 <= sz <= TRAPFRAME
    requires forall v :: 0 <= v < NPAGES && V(Lookup(vm.mem, root, v)) ==> v < Up(sz)
    modifies vm
    ensures vm.Valid() && Gone(old(vm.State()), vm.State(), root)
  {
    ghost var s := vm.State();
    NothingMapped(s, root, 0, 0, true);
    UpMono(0, sz);
    UpMono(sz, TRAPFRAME);
    if sz > 0 {
      vm.Uvmunmap(root, 0, PgRoundUp(sz) / PGSIZE, true);
    }
    ghost var s1 := vm.State();
    UnmappedRoot(s, s1, root, 0, Up(sz), true, root);
    NothingLookedUp(s1, root);
    Freewalk(vm, root, root, 2, {});
    AllGone(s1, vm.State(), root);
    GoneAfterUnmap(s, s1, vm.State(), root, Up(sz));
  }

  lemma GoneAfterUnmap(a: Ram, b: Ram, c: Ram, root: int, n: int)
    requires UnmappedRange(a, b, root, 0, n, true) && Gone(b, c, root)
    ensures Gone(a, c, root)
  {
    forall x | x in a.role
      ensures GoneAt(a, c, root, x)
    {
      assert UnmappedAt(a, b, root, 0, n, true, x) && GoneAt(b, c, root, x);
    }
  }

  // ---- creation ----

  /** A held zero page becomes the root of an empty page table. */
  lemma RootedOk(s: Ram, b: int)
    requires Inv(s, {}) && b in s.mem && s.role[b] == Held && s.mem[b] == Filler(0)
    ensures Inv(s.(role := s.role[b := Tree(b, 2, 0, 0)]), {})
  {
    var s' := s.(role := s.role[b := Tree(b, 2, 0, 0)]);
    forall x | x in s'.mem
      ensures PageOk(s', x)
    {
      assert PageOk(s, x);
    }
    forall k | 0 <= k < |s'.free|
      ensures FreeOk(s', k)
    {
      assert FreeOk(s, k);
    }
    forall x, e | x in s'.mem && Node(s'.role[x]) && 0 <= e < NPTE
      ensures PageOk(s', x) && EntryOk(s', x, e)
    {
      assert PageOk(s', x);
      if x != b {
        assert EntryOk(s, x, e);
      }
    }
  }

  /** b is the only page of a page table that was not there in s, and that maps nothing. */
  ghost predicate Created(s: Ram, s': Ram, b: int) {
    && SameKeys(s, s') && b in s.role && s.role[b].Free? && IsRoot(s', b)
    && (forall x :: x in s.role && x != b ==> s'.role[x] == s.role[x] && s'.mem[x] == s.mem[x])
    && (forall v {:trigger Lookup(s'.mem, b, v)} :: 0 <= v < NPAGES ==> Lookup(s'.mem, b, v) == 0)
  }

  /** uvmcreate. */
  method Uvmcreate(vm: Vm) returns (root: int)
    requires vm.Valid()
    modifies vm
    ensures vm.Valid() &&
            if root == 0 then vm.State() == old(vm.State()) else Created(old(vm.State()), vm.State(), root)
    ensures (root == 0 <==> old(vm.free) == []) && |vm.free| + 1 >= |old(vm.free)|
  {
    root := vm.Kalloc({});
    if root == 0 {
      return;
    }
    vm.Memset(root, Filler(0));
    RootedOk(vm.State(), root);
    vm.role := vm.role[root := Tree(root, 2, 0, 0)];
    forall x | x in vm.mem
      ensures x != 0
    {
      assert PageOk(vm.State(), x);
    }
  }

  /** Every page not free is as it was, and free pages are free: a failed creation leaves nothing behind. */
  ghost predicate Restored(s: Ram, s': Ram) {
    && SameKeys(s, s')
    && forall b :: b in s.role ==>
       if s.role[b].Free? then s'.role[b].Free? else s'.role[b] == s.role[b] && s'.mem[b] == s.mem[b]
  }

  /** A page table created since a is gone again. */
  lemma CreationUndone(a: Ram, c: Ram, d: Ram, root: int)
    requires Inv(a, {}) && root in a.role && a.role[root].Free? && Grew(a, c, root) && Gone(c, d, root)
    ensures Restored(a, d)
  {
    forall x | x in a.role
      ensures if a.role[x].Free? then d.role[x].Free? else d.role[x] == a.role[x] && d.mem[x] == a.mem[x]
    {
      NoneLeft(a, root, x);
      assert GrewAt(a, c, root, x) && GoneAt(c, d, root, x);
    }
  }
}
