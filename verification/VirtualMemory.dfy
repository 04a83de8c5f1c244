/**
 The page allocator and the page-table operations of the kernel, as methods that change memory a word at a time.
 role and free are ghost: which part each page plays, and the free list as a sequence.
 */
module VirtualMemory {
  import opened PageTable

  const PHYSTOP := 0x8800_0000
  const PTE_R := 2
  const PTE_W := 4
  const PTE_U := 16

  function Filler(w: int): (r: seq<int>)
    ensures |r| == NPTE && forall i :: 0 <= i < NPTE ==> r[i] == w
  {
    seq(NPTE, i => w)
  }

  function Head(free: seq<int>): int {
    if free == [] then 0 else free[|free| - 1]
  }

  function PgRoundUp(a: int): int {
    (a + PGSIZE - 1) / PGSIZE * PGSIZE
  }

  /** The prefix of the node of a level on the way to page number v. */
  function Prefix(level: int, v: int): int {
    if level == 2 then v / NPTE / NPTE / NPTE else if level == 1 then v / NPTE / NPTE else v / NPTE
  }

  // ---- frames ----

  /** Page b while nodes are added to page table root: only free pages change role, and only nodes of root change. */
  predicate GrewAt(s: Ram, s': Ram, root: int, b: int)
    requires b in s.role && b in s'.role && b in s.mem && b in s'.mem
  {
    if s.role[b].Free? then s'.role[b].Free? || (Node(s'.role[b]) && s'.role[b].root == root)
    else s'.role[b] == s.role[b] && ((Node(s.role[b]) && s.role[b].root == root) || s'.mem[b] == s.mem[b])
  }

  ghost predicate SameKeys(s: Ram, s': Ram) {
    s.mem.Keys == s.role.Keys == s'.mem.Keys == s'.role.Keys
  }

  ghost predicate Grew(s: Ram, s': Ram, root: int) {
    SameKeys(s, s') && forall b {:trigger GrewAt(s, s', root, b)} :: b in s.role ==> GrewAt(s, s', root, b)
  }

  ghost predicate SameLookups(mem: Memory, mem': Memory, root: int) {
    forall v {:trigger Lookup(mem', root, v)} :: 0 <= v < NPAGES ==> Lookup(mem', root, v) == Lookup(mem, root, v)
  }

  /** Nodes were added to page table root, and no page table translates differently. */
  ghost predicate Extended(s: Ram, s': Ram, root: int) {
    Grew(s, s', root) && forall r :: IsRoot(s, r) ==> SameLookups(s.mem, s'.mem, r)
  }

  lemma ExtendedTrans(a: Ram, b: Ram, c: Ram, root: int)
    requires Extended(a, b, root) && Extended(b, c, root)
    ensures Extended(a, c, root)
  {
    forall x | x in a.role
      ensures GrewAt(a, c, root, x)
    {
      assert GrewAt(a, b, root, x) && GrewAt(b, c, root, x);
    }
    forall r | IsRoot(a, r)
      ensures SameLookups(a.mem, c.mem, r)
    {
      assert GrewAt(a, b, root, r) && IsRoot(b, r);
      forall v | 0 <= v < NPAGES
        ensures Lookup(c.mem, r, v) == Lookup(a.mem, r, v)
      {
        assert Lookup(b.mem, r, v) == Lookup(a.mem, r, v);
      }
    }
  }

  lemma ExtendedRefl(s: Ram, root: int)
    requires PagesOk(s)
    ensures Extended(s, s, root)
  {
  }

  /** Where the walk meets an invalid word there is no translation. */
  lemma NoTranslation(s: Ram, pt: int, root: int, level: int, v: int)
    requires Inv(s, {}) && 0 <= v < NPAGES && 1 <= level <= 2 && IsNode(s, pt, root, level, Prefix(level, v))
    requires !V(Entry(s.mem, pt, Prefix(level - 1, v) % NPTE))
    ensures Bottom(s.mem, root, v) == 0 && Lookup(s.mem, root, v) == 0
  {
    Digits(v);
    assert PageOk(s, pt);
    if level == 1 {
      assert PageOk(s, s.role[pt].parent);
    }
    forall b | b in s.mem
      ensures b != 0
    {
      assert PageOk(s, b);
    }
  }

  /** Page b while k pages from page number v on were mapped to frames from pa on. */
  predicate MappedAt(s: Ram, s': Ram, root: int, v: int, k: int, pa: int, b: int)
    requires b in s.role && b in s'.role && b in s.mem && b in s'.mem
  {
    if v < USERTOP && pa <= b < pa + k * PGSIZE && b % PGSIZE == 0 then
      s.mem[b] == s'.mem[b] && s'.role[b].Tree? &&
        s'.role[b] == Tree(root, -1, v + (b - pa) / PGSIZE, s'.role[b].parent)
    else GrewAt(s, s', root, b)
  }

  /** The word that page table r has for page number u after that mapping. */
  function MappedWord(mem: Memory, root: int, v: int, k: int, pa: int, perm: int, r: int, u: int): int {
    if r == root && v <= u < v + k then Pte(pa + (u - v) * PGSIZE, perm) else Lookup(mem, r, u)
  }

  ghost predicate MappedRange(s: Ram, s': Ram, root: int, v: int, k: int, pa: int, perm: int) {
    && SameKeys(s, s')
    && (forall b {:trigger MappedAt(s, s', root, v, k, pa, b)} :: b in s.role ==> MappedAt(s, s', root, v, k, pa, b))
    && (forall r, u {:trigger Lookup(s'.mem, r, u)} :: IsRoot(s, r) && 0 <= u < NPAGES ==>
          Lookup(s'.mem, r, u) == MappedWord(s.mem, root, v, k, pa, perm, r, u))
  }

  lemma ExtendedIsMapped(s: Ram, s': Ram, root: int, v: int, pa: int, perm: int)
    requires Extended(s, s', root)
    ensures MappedRange(s, s', root, v, 0, pa, perm)
  {
    forall b | b in s.role
      ensures MappedAt(s, s', root, v, 0, pa, b)
    {
      assert GrewAt(s, s', root, b);
    }
  }

  lemma RootKept(s: Ram, s': Ram, root: int, v: int, k: int, pa: int, perm: int, r: int)
    requires MappedRange(s, s', root, v, k, pa, perm) && IsRoot(s, r) && pa % PGSIZE == 0
    requires v < USERTOP ==> forall j :: 0 <= j < k ==> HeldAt(s, pa + j * PGSIZE)
    ensures IsRoot(s', r)
  {
    assert MappedAt(s, s', root, v, k, pa, r);
    assert v < USERTOP && pa <= r < pa + k * PGSIZE && r % PGSIZE == 0 ==> HeldAt(s, pa + (r - pa) / PGSIZE * PGSIZE);
  }

  /** Mapping j more pages. */
  lemma MappedTrans(a: Ram, b: Ram, c: Ram, root: int, v: int, k: int, j: int, pa: int, perm: int)
    requires 0 <= k && 0 <= j && (v < USERTOP ==> v + k + j <= USERTOP) && pa % PGSIZE == 0
    requires MappedRange(a, b, root, v, k, pa, perm) && MappedRange(b, c, root, v + k, j, pa + k * PGSIZE, perm)
    requires v < USERTOP ==> forall i :: 0 <= i < k + j ==> HeldAt(a, pa + i * PGSIZE)
    ensures MappedRange(a, c, root, v, k + j, pa, perm)
  {
    forall x | x in a.role
      ensures MappedAt(a, c, root, v, k + j, pa, x)
    {
      assert MappedAt(a, b, root, v, k, pa, x) && MappedAt(b, c, root, v + k, j, pa + k * PGSIZE, x);
      if v < USERTOP && pa <= x < pa + (k + j) * PGSIZE && x % PGSIZE == 0 {
        assert HeldAt(a, pa + (x - pa) / PGSIZE * PGSIZE);
      }
    }
    forall r, u | IsRoot(a, r) && 0 <= u < NPAGES
      ensures Lookup(c.mem, r, u) == MappedWord(a.mem, root, v, k + j, pa, perm, r, u)
    {
      RootKept(a, b, root, v, k, pa, perm, r);
      assert Lookup(c.mem, r, u) == MappedWord(b.mem, root, v + k, j, pa + k * PGSIZE, perm, r, u);
      assert Lookup(b.mem, r, u) == MappedWord(a.mem, root, v, k, pa, perm, r, u);
    }
  }

  /** Page b while k pages from page number v on were unmapped; drop says whether the frames are freed. */
  predicate UnmappedAt(s: Ram, s': Ram, root: int, v: int, k: int, drop: bool, b: int)
    requires b in s.role && b in s'.role && b in s.mem && b in s'.mem
  {
    var t := s.role[b];
    if t.Tree? && t.root == root && t.level == -1 && v <= t.prefix < v + k then
      if drop then s'.role[b].Free? else s'.role[b] == Held && s'.mem[b] == s.mem[b]
    else s'.role[b] == t && ((Node(t) && t.root == root) || s'.mem[b] == s.mem[b])
  }

  ghost predicate UnmappedRange(s: Ram, s': Ram, root: int, v: int, k: int, drop: bool) {
    && SameKeys(s, s')
    && (forall b {:trigger UnmappedAt(s, s', root, v, k, drop, b)} :: b in s.role ==>
       UnmappedAt(s, s', root, v, k, drop, b))
    && (forall r, u {:trigger Lookup(s'.mem, r, u)} :: IsRoot(s, r) && 0 <= u < NPAGES ==>
          Lookup(s'.mem, r, u) == if r == root && v <= u < v + k then 0 else Lookup(s.mem, r, u))
  }

  lemma UnmappedRoot(s: Ram, s': Ram, root: int, v: int, k: int, drop: bool, r: int)
    requires UnmappedRange(s, s', root, v, k, drop) && IsRoot(s, r)
    ensures IsRoot(s', r)
  {
    assert UnmappedAt(s, s', root, v, k, drop, r);
  }

  lemma UnmappedTrans(a: Ram, b: Ram, c: Ram, root: int, v: int, k: int, j: int, drop: bool)
    requires 0 <= k && 0 <= j && UnmappedRange(a, b, root, v, k, drop) && UnmappedRange(b, c, root, v + k, j, drop)
    ensures UnmappedRange(a, c, root, v, k + j, drop)
  {
    forall x | x in a.role
      ensures UnmappedAt(a, c, root, v, k + j, drop, x)
    {
      assert UnmappedAt(a, b, root, v, k, drop, x) && UnmappedAt(b, c, root, v + k, j, drop, x);
    }
    forall r, u | IsRoot(a, r) && 0 <= u < NPAGES
      ensures Lookup(c.mem, r, u) == if r == root && v <= u < v + k + j then 0 else Lookup(a.mem, r, u)
    {
      UnmappedRoot(a, b, root, v, k, drop, r);
      assert Lookup(b.mem, r, u) == if r == root && v <= u < v + k then 0 else Lookup(a.mem, r, u);
    }
  }

  /** Page number v has no translation: nothing to unmap. */
  lemma NothingMapped(s: Ram, root: int, v: int, k: int, drop: bool)
    requires Inv(s, {}) && 0 <= k <= 1 && (k == 1 ==> 0 <= v < NPAGES && Lookup(s.mem, root, v) == 0)
    ensures UnmappedRange(s, s, root, v, k, drop)
  {
    forall b | b in s.role
      ensures UnmappedAt(s, s, root, v, k, drop, b)
    {
      if s.role[b].Tree? && s.role[b].level == -1 {
        UserPageMapped(s, b);
      }
    }
  }

  /** The word for page number v was cleared, and its page c lost its role. */
  lemma WordCleared(s: Ram, s': Ram, root: int, b: int, v: int, c: int, drop: bool)
    requires Inv(s, {}) && Inv(s', {}) && IsNode(s, b, root, 0, v / NPTE) && 0 <= v < NPAGES && |s.mem[b]| == NPTE
    requires V(s.mem[b][v % NPTE]) && Frame(s.mem[b][v % NPTE]) == c && SameKeys(s, s')
    requires b in s'.mem && s'.mem[b] == s.mem[b][v % NPTE := 0]
    requires forall x :: x in s.mem && x != b && x != c ==> s'.mem[x] == s.mem[x] && s'.role[x] == s.role[x]
    requires s'.role[b] == s.role[b]
    requires if v < USERTOP then c in s'.role &&
             (if drop then s'.role[c].Free? else s'.role[c] == Held && s'.mem[c] == s.mem[c])
             else !drop && s'.role == s.role && (c in s.mem && c != b ==> s'.mem[c] == s.mem[c])
    ensures UnmappedRange(s, s', root, v, 1, drop)
  {
    Digits(v);
    NodeReached(s, b, v);
    assert EntryOk(s, b, v % NPTE);
    forall x | x in s.role
      ensures UnmappedAt(s, s', root, v, 1, drop, x) && x != 0
    {
      assert PageOk(s, x);
      if s.role[x].Tree? && s.role[x].level == -1 {
        UserPageMapped(s, x);
      }
    }
    forall r, u | IsRoot(s, r) && 0 <= u < NPAGES
      ensures Lookup(s'.mem, r, u) == if r == root && u == v then 0 else Lookup(s.mem, r, u)
    {
      WordLookup(s, s'.mem, b, v % NPTE, 0, r, u);
    }
  }

  predicate HeldAt(s: Ram, b: int) {
    b in s.mem && b in s.role && s.role[b] == Held
  }

  /** Pages below p are free, the others held. */
  predicate FreedTo(role: map<int, Role>, p: int) {
    forall b :: b in role ==> b % PGSIZE == 0 && if b < p then role[b].Free? else role[b] == Held
  }

  lemma FreedMore(role: map<int, Role>, role': map<int, Role>, p: int)
    requires FreedTo(role, p) && p in role && p in role' && role' == role[p := role'[p]] && role'[p].Free?
    ensures FreedTo(role', p + PGSIZE) && (p + PGSIZE) % PGSIZE == 0
  {
  }

  class Vm {
    const end: int
    var mem: Memory
    var freelist: int
    ghost var role: map<int, Role>
    ghost var free: seq<int>

    ghost function State(): Ram
      reads this
    {
      Ram(mem, role, free)
    }

    ghost predicate ValidBut(loose: set<int>)
      reads this
    {
      Inv(State(), loose) && freelist == Head(free) && forall b :: b in mem ==> end <= b < PHYSTOP
    }

    ghost predicate Valid()
      reads this
    {
      ValidBut({})
    }

    /** kinit: every whole page from end to PHYSTOP is on the free list. */
    constructor (end: int)
      requires 0 < end < PHYSTOP
      ensures Valid() && this.end == end && (forall b :: b in role ==> role[b].Free?)
      ensures forall b :: b in mem <==> end <= b < PHYSTOP && b % PGSIZE == 0
    {
      this.end := end;
      freelist, free := 0, [];
      mem := map b | end <= b < PHYSTOP && b % PGSIZE == 0 :: Filler(0);
      role := map b | end <= b < PHYSTOP && b % PGSIZE == 0 :: Held;
      new;
      assert mem.Keys == role.Keys;
      forall b | b in mem
        ensures PageOk(State(), b)
      {
      }
      Freerange(end);
    }

    /** freerange from end to PHYSTOP. */
    method Freerange(start: int)
      requires Valid() && start == end && FreedTo(role, end)
      requires forall b :: b in mem <==> end <= b < PHYSTOP && b % PGSIZE == 0
      modifies this
      ensures Valid() && mem.Keys == old(mem).Keys && (forall b :: b in role ==> role[b].Free?)
    {
      var p := PgRoundUp(start);
      while p + PGSIZE <= PHYSTOP
        invariant Valid() && p % PGSIZE == 0 && end <= p && mem.Keys == old(mem).Keys && FreedTo(role, p)
        decreases PHYSTOP - p
      {
        ghost var was := role;
        assert p in old(mem).Keys && role[p] == Held;
        Kfree(p, {});
        FreedMore(was, role, p);
        p := p + PGSIZE;
      }
      assert forall b :: b in role ==> b in old(mem).Keys;
    }

    method Kalloc(ghost loose: set<int>) returns (r: int)
      requires ValidBut(loose)
      modifies this
      ensures ValidBut(loose) && (r == 0 <==> old(free) == [])
      ensures r == 0 ==> State() == old(State())
      ensures r != 0 ==> r == Head(old(free)) && State() == Popped(old(State()), Filler(0x0505_0505_0505_0505))
      ensures r != 0 ==> r in old(mem) && r in old(role) && old(role)[r].Free? && mem.Keys == old(mem).Keys
    {
      r := freelist;
      if free != [] {
        assert FreeOk(State(), |free| - 1);
        assert PageOk(State(), r);
        PoppedOk(State(), loose, Filler(0x0505_0505_0505_0505));
      }
      if r != 0 {
        freelist := mem[r][0];
        mem := mem[r := Filler(0x0505_0505_0505_0505)];
        role, free := role[r := Held], free[..|free| - 1];
      }
    }

    method Kfree(pa: int, ghost loose: set<int>)
      requires ValidBut(loose) && pa in role && role[pa] == Held
      modifies this
      ensures ValidBut(loose) && mem.Keys == old(mem).Keys
      ensures State() == Pushed(old(State()), pa, Filler(0x0101_0101_0101_0101)[0 := old(freelist)])
    {
      assert PageOk(State(), pa);
      assert pa % PGSIZE == 0 && end <= pa < PHYSTOP;  // no "kfree" panic
      PushedOk(State(), loose, pa, Filler(0x0101_0101_0101_0101)[0 := freelist]);
      ghost var s := Pushed(State(), pa, Filler(0x0101_0101_0101_0101)[0 := freelist]);
      mem := mem[pa := Filler(0x0101_0101_0101_0101)];
      mem := mem[pa := mem[pa][0 := freelist]];
      freelist := pa;
      role, free := role[pa := Free(|free|)], free + [pa];
      assert mem == s.mem;
    }

    /** A held page is overwritten. */
    method Memset(pa: int, page: seq<int>)
      requires Valid() && pa in role && role[pa] == Held && |page| == NPTE
      modifies this`mem
      ensures Valid() && State() == Filled(old(State()), pa, page) && mem.Keys == old(mem).Keys
    {
      FilledOk(State(), {}, pa, page);
      mem := mem[pa := page];
    }

    /** walk: the node of level 0 that holds the word for va, in position PX(0, va); 0 if there is none. */
    method Walk(root: int, va: int, alloc: bool) returns (b: int)
      requires Valid() && IsRoot(State(), root) && 0 <= va < MAXVA
      modifies this
      ensures Valid() && Extended(old(State()), State(), root) && (!alloc ==> State() == old(State()))
      ensures b != 0 ==> IsNode(State(), b, root, 0, va / PGSIZE / NPTE) && b == Bottom(mem, root, va / PGSIZE)
      ensures b == 0 ==> Bottom(mem, root, va / PGSIZE) == 0 && Lookup(mem, root, va / PGSIZE) == 0
      ensures |free| + 2 >= |old(free)| && (b == 0 && alloc ==> |old(free)| <= 1)
    {
      ghost var v := va / PGSIZE;
      Digits(v);
      IndexDigits(va);
      ExtendedRefl(State(), root);
      b := root;
      var level := 2;
      while level > 0
        invariant 0 <= level <= 2 && Valid() && Extended(old(State()), State(), root) &&
                  (!alloc ==> State() == old(State()))
        invariant IsNode(State(), b, root, level, Prefix(level, v)) && |free| + 2 - level >= |old(free)|
      {
        ghost var s := State();
        var next := Descend(root, b, level, va, alloc);
        ExtendedTrans(old(State()), s, State(), root);
        if next == 0 {
          NoTranslation(State(), b, root, level, v);
          return 0;
        }
        b, level := next, level - 1;
      }
      NodeReached(State(), b, v);
      assert PageOk(State(), b);
    }

    /** walkaddr: the frame of a user page, 0 if va is not mapped for the user. */
    method Walkaddr(root: int, va: int) returns (pa: int)
      requires Valid() && IsRoot(State(), root) && 0 <= va
      modifies this
      ensures Valid() && State() == old(State())
      ensures var m, v := Pages(mem, root), va / PGSIZE;
              pa == if v in m && m[v] / PTE_U % 2 == 1 then Frame(m[v]) else 0
    {
      if va >= MAXVA {
        return 0;
      }
      var b := Walk(root, va, false);
      if b == 0 {
        return 0;
      }
      Digits(va / PGSIZE);
      IndexDigits(va);
      assert PageOk(State(), b);
      var pte := mem[b][PX(0, va)];
      if !V(pte) || pte / PTE_U % 2 == 0 {
        return 0;
      }
      return Frame(pte);
    }

    method Ismapped(root: int, va: int) returns (r: bool)
      requires Valid() && IsRoot(State(), root) && 0 <= va < MAXVA
      modifies this
      ensures Valid() && State() == old(State()) && r == (va / PGSIZE in Pages(mem, root))
    {
      var b := Walk(root, va, false);
      if b == 0 {
        return false;
      }
      Digits(va / PGSIZE);
      IndexDigits(va);
      assert PageOk(State(), b);
      return V(mem[b][PX(0, va)]);
    }

    /** mappages: done pages were mapped, all of them unless memory for nodes ran out. */
    method Mappages(root: int, va: int, size: int, pa: int, perm: int) returns (ret: int, ghost done: int)
      requires Valid() && IsRoot(State(), root) && va % PGSIZE == 0 && size % PGSIZE == 0 && size > 0 &&
               pa % PGSIZE == 0 && 0 <= perm < 1024
      requires 0 <= va && va + size <= MAXVA && (va < TRAPFRAME ==> va + size <= TRAPFRAME)
      requires forall v :: va / PGSIZE <= v < (va + size) / PGSIZE ==> Lookup(mem, root, v) == 0
      requires va < TRAPFRAME ==> forall i :: 0 <= i < size / PGSIZE ==> HeldAt(State(), pa + i * PGSIZE)
      modifies this
      ensures Valid() && 0 <= done <= size / PGSIZE &&
              MappedRange(old(State()), State(), root, va / PGSIZE, done, pa, perm)
      ensures if done == size / PGSIZE then ret == 0 && |free| + 2 * done >= |old(free)|
              else ret == -1 && |old(free)| <= 2 * done + 1
    {
      ghost var s, v, n := State(), va / PGSIZE, size / PGSIZE;
      var a, p, last := va, pa, va + size - PGSIZE;
      done := 0;
      ExtendedRefl(s, root);
      ExtendedIsMapped(s, s, root, v, pa, perm);
      while true
        invariant Valid() && 0 <= done < n && a == va + done * PGSIZE && p == pa + done * PGSIZE
        invariant MappedRange(s, State(), root, v, done, pa, perm) && |free| + 2 * done >= |old(free)|
        decreases n - done
      {
        var ok := MapNext(root, a, p, perm, s, v, done, pa, n);
        if !ok {
          return -1, done;
        }
        done := done + 1;
        if a == last {
          break;
        }
        a, p := a + PGSIZE, p + PGSIZE;
      }
      ret := 0;
    }

    /** uvmunmap: the mappings of npages pages are removed, missing ones passed over. */
    method Uvmunmap(root: int, va: int, npages: int, doFree: bool)
      requires Valid() && IsRoot(State(), root) && va % PGSIZE == 0 && 0 <= va && 0 <= npages &&
               va + npages * PGSIZE <= MAXVA
      requires doFree ==> va + npages * PGSIZE <= TRAPFRAME
      modifies this
      ensures Valid() && UnmappedRange(old(State()), State(), root, va / PGSIZE, npages, doFree)
    {
      ghost var s, v, k := State(), va / PGSIZE, 0;
      NothingMapped(s, root, v, 0, doFree);
      var a := va;
      while a < va + npages * PGSIZE
        invariant Valid() && 0 <= k <= npages && a == va + k * PGSIZE && UnmappedRange(s, State(), root, v, k, doFree)
        decreases npages - k
      {
        ghost var s1 := State();
        UnmappedRoot(s, s1, root, v, k, doFree, root);
        UnmapOne(root, a, doFree);
        UnmappedTrans(s, s1, State(), root, v, k, 1, doFree);
        a, k := a + PGSIZE, k + 1;
      }
    }

    /** One round of the loop of uvmunmap. */
    method UnmapOne(root: int, va: int, doFree: bool)
      requires Valid() && IsRoot(State(), root) && 0 <= va < MAXVA && (doFree ==> va < TRAPFRAME)
      modifies this
      ensures Valid() && UnmappedRange(old(State()), State(), root, va / PGSIZE, 1, doFree)
    {
      var v := va / PGSIZE;
      var b := Walk(root, va, false);
      Digits(v);
      IndexDigits(va);
      if b == 0 {
        NothingMapped(State(), root, v, 1, doFree);
        return;
      }
      assert PageOk(State(), b);
      if !V(mem[b][PX(0, va)]) {
        NothingMapped(State(), root, v, 1, doFree);
        return;
      }
      ClearLeaf(root, b, v, doFree);
    }

    /** The valid word of page number v, in the level-0 node b, is cleared; its frame is freed first. */
    method ClearLeaf(root: int, b: int, v: int, doFree: bool)
      requires Valid() && IsNode(State(), b, root, 0, v / NPTE) && 0 <= v < NPAGES && (doFree ==> v < USERTOP)
      requires |mem[b]| == NPTE && V(mem[b][v % NPTE])
      modifies this
      ensures Valid() && UnmappedRange(old(State()), State(), root, v, 1, doFree)
    {
      ghost var s := State();
      var e := v % NPTE;
      var c := Frame(mem[b][e]);
      Digits(v);
      if v < USERTOP {
        DetachedOk(s, b, e, c);
        role := role[c := Held];
        ghost var s1 := State();
        if doFree {
          Kfree(c, {b});
        }
        forall i | 0 <= i < NPTE && i != e
          ensures EntryOk(State(), b, i)
        {
          assert EntryOk(s1, b, i);
        }
        ClearedOk(State(), {b}, b, e);
        assert {b} - {b} == {};
      } else {
        FixedOk(s, b, e, 0);
      }
      mem := mem[b := mem[b][e := 0]];
      WordCleared(s, State(), root, b, v, c, doFree);
    }

    /** One round of the loop of mappages, after done rounds from state s. */
    method MapNext(root: int, a: int, p: int, perm: int, ghost s: Ram, ghost v: int, ghost done: int, ghost pa: int,
                   ghost n: int) returns (ok: bool)
      requires Valid() && IsRoot(s, root) && pa % PGSIZE == 0 && 0 <= perm < 1024 && 0 <= v && 0 <= done < n &&
               v + n <= NPAGES
      requires MappedRange(s, State(), root, v, done, pa, perm) && (v < USERTOP ==> v + n <= USERTOP)
      requires a == (v + done) * PGSIZE && p == pa + done * PGSIZE && Lookup(s.mem, root, v + done) == 0
      requires v < USERTOP ==> forall i :: 0 <= i < n ==> HeldAt(s, pa + i * PGSIZE)
      modifies this
      ensures Valid() && MappedRange(s, State(), root, v, if ok then done + 1 else done, pa, perm)
      ensures if ok then |free| + 2 >= |old(free)| else |old(free)| <= 1
    {
      ghost var s1 := State();
      RootKept(s, s1, root, v, done, pa, perm, root);
      assert v < USERTOP ==> HeldAt(s, pa + done * PGSIZE) && MappedAt(s, s1, root, v, done, pa, p);
      assert Lookup(s1.mem, root, v + done) == MappedWord(s.mem, root, v, done, pa, perm, root, v + done);
      ok := MapOne(root, a, p, perm);
      MappedTrans(s, s1, State(), root, v, done, if ok then 1 else 0, pa, perm);
    }

    /** The body of that round. */
    method MapOne(root: int, va: int, pa: int, perm: int) returns (ok: bool)
      requires Valid() && IsRoot(State(), root) && 0 <= va < MAXVA && Lookup(mem, root, va / PGSIZE) == 0
      requires pa % PGSIZE == 0 && 0 <= perm < 1024 && (va < TRAPFRAME ==> HeldAt(State(), pa))
      modifies this
      ensures Valid() && MappedRange(old(State()), State(), root, va / PGSIZE, if ok then 1 else 0, pa, perm)
      ensures if ok then |free| + 2 >= |old(free)| else |old(free)| <= 1
    {
      ghost var s := State();
      var v := va / PGSIZE;
      var b := Walk(root, va, true);
      ghost var s1 := State();
      ExtendedIsMapped(s, s1, root, v, pa, perm);
      if b == 0 {
        return false;
      }
      Digits(v);
      IndexDigits(va);
      assert PageOk(s1, b) && GrewAt(s, s1, root, root);
      assert va < TRAPFRAME ==> GrewAt(s, s1, root, pa);
      assert Lookup(mem, root, v) == 0;
      assert !V(mem[b][PX(0, va)]);  // no "mappages: remap" panic
      SetLeaf(root, b, v, pa, perm);
      MappedTrans(s, s1, State(), root, v, 0, 1, pa, perm);
      return true;
    }

    /** The word of page number v, in the level-0 node b, is set. */
    method SetLeaf(root: int, b: int, v: int, pa: int, perm: int)
      requires Valid() && IsNode(State(), b, root, 0, v / NPTE) && 0 <= v < NPAGES && |mem[b]| == NPTE &&
               !V(mem[b][v % NPTE])
      requires pa % PGSIZE == 0 && 0 <= perm < 1024 && (v < USERTOP ==> HeldAt(State(), pa))
      modifies this`mem, this`role
      ensures Valid() && MappedRange(old(State()), State(), root, v, 1, pa, perm)
    {
      ghost var s, w := State(), Pte(pa, perm);
      Digits(v);
      PteRoundTrip(pa, perm);
      if v < USERTOP {
        LinkedOk(s, b, v % NPTE, w, pa);
      } else {
        FixedOk(s, b, v % NPTE, w);
      }
      mem := mem[b := mem[b][v % NPTE := Pte(pa, perm)]];
      if v < USERTOP {
        role := role[pa := Tree(root, -1, v, b)];
      }
      WordSet(s, State(), root, b, v, pa, perm);
    }

    /** One level of walk: from the node of a level to the node below it, which is added if need be. */
    method Descend(root: int, pt: int, level: int, va: int, alloc: bool) returns (next: int)
      requires Valid() && 0 <= va < MAXVA && 1 <= level <= 2 &&
               IsNode(State(), pt, root, level, Prefix(level, va / PGSIZE))
      modifies this
      ensures Valid() && Extended(old(State()), State(), root) && (!alloc ==> State() == old(State()))
      ensures next != 0 ==> IsNode(State(), next, root, level - 1, Prefix(level - 1, va / PGSIZE))
      ensures next == 0 ==> State() == old(State()) && !V(Entry(mem, pt, PX(level, va))) && (alloc ==> free == [])
      ensures |free| + 1 >= |old(free)|
    {
      ghost var s, e := State(), PX(level, va);
      Digits(va / PGSIZE);
      IndexDigits(va);
      assert PageOk(s, pt) && EntryOk(s, pt, e);
      var pte := mem[pt][PX(level, va)];
      if V(pte) {
        next := Frame(pte);
        assert PageOk(s, next);
      } else if !alloc {
        next := 0;
      } else {
        next := Kalloc({});
        if next != 0 {
          AddNode(pt, PX(level, va), next, s);
        }
      }
    }

    /** A page just allocated is cleared and entered in word e of node b. */
    method AddNode(b: int, e: int, c: int, ghost s: Ram)
      requires Valid() && Inv(s, {}) && s.free != [] && c == Head(s.free) &&
               State() == Popped(s, Filler(0x0505_0505_0505_0505))
      requires b in s.mem && Node(s.role[b]) && s.role[b].level > 0 && 0 <= e < NPTE && |s.mem[b]| == NPTE &&
               !V(s.mem[b][e])
      requires c in s.mem && s.role[c].Free? && mem.Keys == s.mem.Keys &&
               s.role[b].prefix * NPTE + e < Limit(s.role[b].level - 1)
      modifies this`mem, this`role
      ensures Valid() && Extended(s, State(), s.role[b].root)
      ensures IsNode(State(), c, s.role[b].root, s.role[b].level - 1, s.role[b].prefix * NPTE + e)
    {
      Memset(c, Filler(0));
      LinkNode(b, e, c, s);
    }

    /** The page, now empty, is entered; s is the state before it was allocated. */
    method LinkNode(b: int, e: int, c: int, ghost s: Ram)
      requires Valid() && Inv(s, {}) && c in s.mem && s.role[c].Free? && mem == s.mem[c := Filler(0)] &&
               role == s.role[c := Held]
      requires b in s.mem && Node(s.role[b]) && s.role[b].level > 0 && 0 <= e < NPTE && |s.mem[b]| == NPTE &&
               !V(s.mem[b][e])
      requires s.role[b].prefix * NPTE + e < Limit(s.role[b].level - 1)
      modifies this`mem, this`role
      ensures Valid() && Extended(s, State(), s.role[b].root)
      ensures IsNode(State(), c, s.role[b].root, s.role[b].level - 1, s.role[b].prefix * NPTE + e)
    {
      ghost var s2, w := State(), Pte(c, 0);
      assert PageOk(s2, c);
      PteRoundTrip(c, 0);
      LinkedOk(s2, b, e, w, c);
      mem := mem[b := mem[b][e := Pte(c, 0)]];
      role := role[c := Tree(role[b].root, role[b].level - 1, role[b].prefix * NPTE + e, b)];
      NodeAdded(s, State(), b, e, w, c);
    }
  }

  /** Word e of the level-0 node b was set for page number v, and page pa given its role when v is below TRAPFRAME. */
  lemma WordSet(s: Ram, s': Ram, root: int, b: int, v: int, pa: int, perm: int)
    requires Inv(s, {}) && Inv(s', {}) && IsNode(s, b, root, 0, v / NPTE) && 0 <= v < NPAGES && |s.mem[b]| == NPTE
    requires pa % PGSIZE == 0 && 0 <= perm < 1024
    requires s'.mem == s.mem[b := s.mem[b][v % NPTE := Pte(pa, perm)]]
    requires if v < USERTOP then HeldAt(s, pa) && s'.role == s.role[pa := Tree(root, -1, v, b)] else s'.role == s.role
    ensures MappedRange(s, s', root, v, 1, pa, perm)
  {
    Digits(v);
    PteRoundTrip(pa, perm);
    forall x | x in s.role
      ensures MappedAt(s, s', root, v, 1, pa, x) && x != 0
    {
      assert PageOk(s, x);
    }
    forall r, u | IsRoot(s, r) && 0 <= u < NPAGES
      ensures Lookup(s'.mem, r, u) == MappedWord(s.mem, root, v, 1, pa, perm, r, u)
    {
      WordLookup(s, s'.mem, b, v % NPTE, Pte(pa, perm), r, u);
    }
  }

  /** s' is s with the free page c made an empty node below word e of node b. */
  lemma NodeAdded(s: Ram, s': Ram, b: int, e: int, w: int, c: int)
    requires Inv(s, {}) && Inv(s', {}) && b in s.mem && Node(s.role[b]) && s.role[b].level > 0 && 0 <= e < NPTE &&
             |s.mem[b]| == NPTE && !V(s.mem[b][e])
    requires c in s.mem && s.role[c].Free? && V(w) && Frame(w) == c
    requires s'.mem == s.mem[c := Filler(0)][b := s.mem[b][e := w]]
    requires s'.role == s.role[c := Tree(s.role[b].root, s.role[b].level - 1, s.role[b].prefix * NPTE + e, b)]
    ensures Extended(s, s', s.role[b].root)
  {
    forall x | x in s.role
      ensures GrewAt(s, s', s.role[b].root, x) && x != 0
    {
      assert PageOk(s, x);
    }
    forall r, v | IsRoot(s, r) && 0 <= v < NPAGES
      ensures Lookup(s'.mem, r, v) == Lookup(s.mem, r, v)
    {
      LinkLookup(s, s'.mem, b, e, w, r, v);
    }
  }
}
