/**
 Physical pages and Sv39 page tables as values. Every page handed out by kalloc has one role: on the free list,
 held by the kernel, or part of one page table, where it is a node (levels 2, 1 and 0) or a user page (level -1).
 The lemmas say what each single change of a page-table word does to the roles and to the lookups.
 */
module PageTable {
  const PGSIZE := 4096
  const NPTE := 512
  const NPAGES := 0x400_0000            // page numbers below MAXVA
  const MAXVA := NPAGES * PGSIZE
  const TRAMPOLINE := MAXVA - PGSIZE
  const TRAPFRAME := TRAMPOLINE - PGSIZE
  const USERTOP := NPAGES - 2           // page number of TRAPFRAME

  type Memory = map<int, seq<int>>

  /** root: the page-table page of level 2; prefix: the index digits from the root down to this page, which is
      prefix's last digit in page parent. A user page has level -1, and its prefix is its virtual page number. */
  datatype Role = Free(at: int) | Held | Tree(root: int, level: int, prefix: int, parent: int)

  /** Memory, the role of every page, and the free list, whose last element is the head. */
  datatype Ram = Ram(mem: Memory, role: map<int, Role>, free: seq<int>)

  // ---- page-table words (riscv.h) ----

  function Pte(pa: int, perm: int): int {
    pa / PGSIZE * 1024 + perm / 2 * 2 + 1
  }

  function Frame(w: int): int {
    w / 1024 * PGSIZE
  }

  function Flags(w: int): int {
    w % 1024
  }

  predicate V(w: int) {
    w % 2 == 1
  }

  function PX(level: int, va: int): int {
    va / (if level == 0 then 0x1000 else if level == 1 then 0x20_0000 else 0x4000_0000) % NPTE
  }

  /** PA2PTE and PTE2PA are inverse on page addresses, and the permission bits do not disturb the frame. */
  lemma PteRoundTrip(pa: int, perm: int)
    requires pa % PGSIZE == 0 && 0 <= perm < 1024
    ensures V(Pte(pa, perm)) && Frame(Pte(pa, perm)) == pa && Flags(Pte(pa, perm)) == perm / 2 * 2 + 1
  {
    WordParts(pa / PGSIZE, perm / 2 * 2 + 1);
  }

  lemma WordParts(k: int, q: int)
    requires 0 <= q < 1024
    ensures (k * 1024 + q) / 1024 == k && (k * 1024 + q) % 1024 == q && (k * 1024 + q) % 2 == q % 2
  {
    var w, n, r := k * 1024 + q, q / 2, q % 2;
    assert w / 1024 == k;
    assert w == 2 * (512 * k + n) + r;
    Halves(512 * k + n, r);
  }

  lemma Halves(n: int, r: int)
    requires 0 <= r < 2
    ensures (2 * n + r) / 2 == n && (2 * n + r) % 2 == r
  {
  }

  /** A valid word keeps its flags when they are used as permissions; V alone means no permission. */
  lemma ValidFlags(w: int)
    requires V(w)
    ensures 0 <= Flags(w) < 1024 && Flags(w) / 2 * 2 + 1 == Flags(w) && (Flags(w) == 1 ==> w / 2 % 8 == 0)
  {
    var k, q := w / 1024, w % 1024;
    assert w == k * 1024 + q;
    WordParts(k, q);
    assert Flags(w) == 1 ==> w / 2 == (k * 64) * 8;
  }

  /** The three indices determine the page number, and so the split is injective below MAXVA. */
  lemma IndexSplit(va: int)
    requires 0 <= va < MAXVA
    ensures va / PGSIZE == (PX(2, va) * NPTE + PX(1, va)) * NPTE + PX(0, va)
  {
    Digits(va / PGSIZE);
    IndexDigits(va);
  }

  lemma IndexDigits(va: int)
    requires 0 <= va < MAXVA
    ensures PX(0, va) == va / PGSIZE % NPTE && PX(1, va) == va / PGSIZE / NPTE % NPTE
    ensures PX(2, va) == va / PGSIZE / NPTE / NPTE
  {
    assert va / PGSIZE / NPTE == va / 0x20_0000;
    assert va / PGSIZE / NPTE / NPTE == va / 0x4000_0000;
  }

  lemma Digits(v: int)
    requires 0 <= v < NPAGES
    ensures 0 <= v / NPTE / NPTE < NPTE && v / NPTE == v / NPTE / NPTE * NPTE + v / NPTE % NPTE
    ensures v == v / NPTE * NPTE + v % NPTE && v / NPTE / NPTE / NPTE == 0
  {
  }

  // ---- lookup ----

  function Entry(mem: Memory, b: int, e: int): int {
    if b in mem && 0 <= e < |mem[b]| then mem[b][e] else 0
  }

  function Child(mem: Memory, b: int, e: int): int {
    if V(Entry(mem, b, e)) then Frame(Entry(mem, b, e)) else 0
  }

  /** The node of level 0 that covers page number v, 0 if there is none. */
  function Bottom(mem: Memory, root: int, v: int): int {
    Child(mem, Child(mem, root, v / NPTE / NPTE), v / NPTE % NPTE)
  }

  /** The word that translates page number v, 0 if it is not valid. */
  function Lookup(mem: Memory, root: int, v: int): int {
    var w := Entry(mem, Bottom(mem, root, v), v % NPTE);
    if V(w) then w else 0
  }

  /** The page table as a partial map from page numbers to page-table words. */
  ghost function Pages(mem: Memory, root: int): (m: map<int, int>)
    ensures forall v :: v in m <==> 0 <= v < NPAGES && V(Lookup(mem, root, v))
    ensures forall v :: v in m ==> m[v] == Lookup(mem, root, v)
  {
    map v | 0 <= v < NPAGES && V(Lookup(mem, root, v)) :: Lookup(mem, root, v)
  }

  // ---- the invariant ----

  predicate IsNode(s: Ram, b: int, root: int, level: int, prefix: int) {
    b in s.mem && b in s.role && s.role[b].Tree? && s.role[b].root == root && s.role[b].level == level &&
      s.role[b].prefix == prefix
  }

  predicate IsRoot(s: Ram, b: int) {
    IsNode(s, b, b, 2, 0)
  }

  predicate Node(r: Role) {
    r.Tree? && r.level >= 0
  }

  /** Prefixes of a level run from 0 up to this. */
  function Limit(level: int): int {
    if level == 2 then 1 else if level == 1 then 256 else if level == 0 then NPAGES / NPTE else USERTOP
  }

  predicate PageOk(s: Ram, b: int)
    requires b in s.mem && b in s.role
  {
    && 0 < b && b % PGSIZE == 0 && |s.mem[b]| == NPTE
    && match s.role[b]
       case Free(k) => 0 <= k < |s.free| && s.free[k] == b
       case Held => true
       case Tree(r, l, p, q) =>
         && -1 <= l <= 2 && 0 <= p < Limit(l)
         && if l == 2 then b == r else IsNode(s, q, r, l + 1, p / NPTE) && Child(s.mem, q, p % NPTE) == b
  }

  /**
   A valid word in a node leads to a page that knows it; words at TRAPFRAME and above lead to pages kept elsewhere.
   */
  predicate EntryOk(s: Ram, b: int, e: int)
    requires b in s.mem && |s.mem[b]| == NPTE && b in s.role && s.role[b].Tree? && 0 <= e < NPTE
  {
    var t, w := s.role[b], s.mem[b][e];
    var p := t.prefix * NPTE + e;
    V(w) ==>
      && (t.level > 0 ==> Flags(w) == 1)
      && (t.level > 0 || p < USERTOP ==> Frame(w) in s.role && s.role[Frame(w)] == Tree(t.root, t.level - 1, p, b))
  }

  predicate FreeOk(s: Ram, k: int)
    requires 0 <= k < |s.free|
  {
    var b := s.free[k];
    b in s.mem && b in s.role && s.role[b] == Free(k) && |s.mem[b]| == NPTE &&
      s.mem[b][0] == if k == 0 then 0 else s.free[k - 1]
  }

  ghost predicate PagesOk(s: Ram) {
    s.mem.Keys == s.role.Keys && forall b {:trigger PageOk(s, b)} :: b in s.mem ==> PageOk(s, b)
  }

  ghost predicate ListOk(s: Ram) {
    forall k {:trigger FreeOk(s, k)} :: 0 <= k < |s.free| ==> FreeOk(s, k)
  }

  /** loose: nodes whose words are being taken down. */
  ghost predicate EntriesOk(s: Ram, loose: set<int>)
    requires PagesOk(s)
  {
    forall b, e {:trigger EntryOk(s, b, e)} :: b in s.mem && b !in loose && Node(s.role[b]) && 0 <= e < NPTE ==>
      PageOk(s, b) && EntryOk(s, b, e)
  }

  ghost predicate Inv(s: Ram, loose: set<int>) {
    PagesOk(s) && ListOk(s) && EntriesOk(s, loose)
  }

  // ---- what the invariant says about lookups ----

  /** Below MAXVA the walk stays in nodes of its own page table. */
  lemma WalkStays(s: Ram, loose: set<int>, root: int, v: int)
    requires Inv(s, loose) && IsRoot(s, root) && 0 <= v < NPAGES
    requires forall b :: b in loose && b in s.role && s.role[b].Tree? ==> s.role[b].root != root
    ensures var a := Child(s.mem, root, v / NPTE / NPTE);
            a != 0 ==> IsNode(s, a, root, 1, v / NPTE / NPTE)
    ensures var b := Bottom(s.mem, root, v);
            b != 0 ==> IsNode(s, b, root, 0, v / NPTE)
    ensures 0 !in s.mem
  {
    Digits(v);
    assert PageOk(s, root);
    assert EntryOk(s, root, v / NPTE / NPTE);
    var a := Child(s.mem, root, v / NPTE / NPTE);
    forall b | b in s.mem
      ensures b != 0
    {
      assert PageOk(s, b);
    }
    if a != 0 {
      assert PageOk(s, a);
      assert EntryOk(s, a, v / NPTE % NPTE);
    }
  }

  /** Nodes of page table root hold the same words in both memories. */
  ghost predicate SameNodes(s: Ram, mem: Memory, root: int) {
    forall b :: b in s.role && b in s.mem && Node(s.role[b]) && s.role[b].root == root ==>
      b in mem && mem[b] == s.mem[b]
  }

  /** Lookups depend on the nodes of their own page table only. */
  lemma LookupFrame(s: Ram, mem: Memory, root: int, v: int)
    requires Inv(s, {}) && IsRoot(s, root) && 0 <= v < NPAGES && SameNodes(s, mem, root) && 0 !in mem
    ensures Lookup(mem, root, v) == Lookup(s.mem, root, v)
  {
    WalkStays(s, {}, root, v);
  }

  /** A page with a user role is what its page table maps at that page number: no page is lost. */
  lemma UserPageMapped(s: Ram, b: int)
    requires Inv(s, {}) && b in s.mem && s.role[b].Tree? && s.role[b].level == -1
    ensures var t := s.role[b];
            && IsRoot(s, t.root) && 0 <= t.prefix < USERTOP && t.prefix in Pages(s.mem, t.root)
            && Frame(Pages(s.mem, t.root)[t.prefix]) == b && t.parent == Bottom(s.mem, t.root, t.prefix)
  {
    var t := s.role[b];
    assert PageOk(s, b);
    assert PageOk(s, t.parent);
    var u := s.role[t.parent].parent;
    assert PageOk(s, u);
    assert PageOk(s, s.role[u].parent);
    Digits(t.prefix);
  }

  /** And what a page table maps below TRAPFRAME is a page with that role: no page is mapped twice. */
  lemma MappedIsUserPage(s: Ram, root: int, v: int)
    requires Inv(s, {}) && IsRoot(s, root) && 0 <= v < USERTOP && v in Pages(s.mem, root)
    ensures var b := Frame(Pages(s.mem, root)[v]);
            b in s.mem && s.role[b] == Tree(root, -1, v, Bottom(s.mem, root, v))
  {
    WalkStays(s, {}, root, v);
    Digits(v);
    var a := Bottom(s.mem, root, v);
    assert PageOk(s, a);
    assert EntryOk(s, a, v % NPTE);
  }

  // ---- single changes ----

  /** kalloc: the head of the free list becomes held. */
  function Popped(s: Ram, junk: seq<int>): Ram
    requires |s.free| > 0
  {
    var b := s.free[|s.free| - 1];
    Ram(s.mem[b := junk], s.role[b := Held], s.free[..|s.free| - 1])
  }

  lemma PoppedOk(s: Ram, loose: set<int>, junk: seq<int>)
    requires Inv(s, loose) && |s.free| > 0 && |junk| == NPTE
    ensures Inv(Popped(s, junk), loose)
  {
    var s', n := Popped(s, junk), |s.free| - 1;
    assert FreeOk(s, n);
    forall b | b in s'.mem
      ensures PageOk(s', b)
    {
      assert PageOk(s, b);
    }
    forall k | 0 <= k < |s'.free|
      ensures FreeOk(s', k)
    {
      assert FreeOk(s, k);
    }
    forall b, e | b in s'.mem && b !in loose && Node(s'.role[b]) && 0 <= e < NPTE
      ensures PageOk(s', b) && EntryOk(s', b, e)
    {
      assert PageOk(s', b) && EntryOk(s, b, e);
    }
  }

  /** kfree: a held page becomes the head of the free list, which its first word links to the old head. */
  function Pushed(s: Ram, b: int, page: seq<int>): Ram {
    Ram(s.mem[b := page], s.role[b := Free(|s.free|)], s.free + [b])
  }

  lemma PushedOk(s: Ram, loose: set<int>, b: int, page: seq<int>)
    requires Inv(s, loose) && b in s.role && s.role[b] == Held && |page| == NPTE
    requires page[0] == if s.free == [] then 0 else s.free[|s.free| - 1]
    ensures Inv(Pushed(s, b, page), loose)
  {
    var s' := Pushed(s, b, page);
    forall c | c in s'.mem
      ensures PageOk(s', c)
    {
      assert PageOk(s, c);
    }
    forall k | 0 <= k < |s'.free|
      ensures FreeOk(s', k)
    {
      if k < |s.free| {
        assert FreeOk(s, k);
      }
    }
    forall c, e | c in s'.mem && c !in loose && Node(s'.role[c]) && 0 <= e < NPTE
      ensures PageOk(s', c) && EntryOk(s', c, e)
    {
      assert PageOk(s', c) && EntryOk(s, c, e);
    }
  }

  /** Writing to a page that is neither free nor a node. */
  function Filled(s: Ram, b: int, page: seq<int>): Ram {
    s.(mem := s.mem[b := page])
  }

  lemma FilledOk(s: Ram, loose: set<int>, b: int, page: seq<int>)
    requires Inv(s, loose) && b in s.role && !s.role[b].Free? && !Node(s.role[b]) && |page| == NPTE
    ensures Inv(Filled(s, b, page), loose)
  {
    var s' := Filled(s, b, page);
    forall c | c in s'.mem
      ensures PageOk(s', c)
    {
      assert PageOk(s, c);
      if s.role[c].Tree? && s.role[c].level < 2 {
        assert PageOk(s, s.role[c].parent);
      }
    }
    forall k | 0 <= k < |s'.free|
      ensures FreeOk(s', k)
    {
      assert FreeOk(s, k);
    }
    forall c, e | c in s'.mem && c !in loose && Node(s'.role[c]) && 0 <= e < NPTE
      ensures PageOk(s', c) && EntryOk(s', c, e)
    {
      assert PageOk(s', c) && EntryOk(s, c, e);
    }
  }

  /** Word e of node b set to w, which leads to the held page c; c gets its place in the page table. */
  function Linked(s: Ram, b: int, e: int, w: int, c: int): Ram
    requires b in s.mem && 0 <= e < |s.mem[b]| && b in s.role && s.role[b].Tree?
  {
    var t := s.role[b];
    Ram(s.mem[b := s.mem[b][e := w]], s.role[c := Tree(t.root, t.level - 1, t.prefix * NPTE + e, b)], s.free)
  }

  ghost predicate CanLink(s: Ram, b: int, e: int, w: int, c: int) {
    && Inv(s, {}) && b in s.mem && Node(s.role[b]) && 0 <= e < NPTE && |s.mem[b]| == NPTE && !V(s.mem[b][e])
    && c in s.mem && s.role[c] == Held && V(w) && Frame(w) == c &&
       s.role[b].prefix * NPTE + e < Limit(s.role[b].level - 1)
    && (s.role[b].level > 0 ==> Flags(w) == 1 && |s.mem[c]| == NPTE && forall i :: 0 <= i < NPTE ==> s.mem[c][i] == 0)
  }

  lemma LinkedPages(s: Ram, b: int, e: int, w: int, c: int)
    requires CanLink(s, b, e, w, c)
    ensures PagesOk(Linked(s, b, e, w, c))
  {
    var s' := Linked(s, b, e, w, c);
    assert PageOk(s, b) && PageOk(s, c);
    assert (s.role[b].prefix * NPTE + e) / NPTE == s.role[b].prefix;
    forall x | x in s'.mem
      ensures PageOk(s', x)
    {
      assert PageOk(s, x);
    }
  }

  lemma LinkedEntry(s: Ram, b: int, e: int, w: int, c: int, x: int, i: int)
    requires CanLink(s, b, e, w, c) && PagesOk(Linked(s, b, e, w, c))
    requires x in s.mem && Node(Linked(s, b, e, w, c).role[x]) && 0 <= i < NPTE
    ensures var s' := Linked(s, b, e, w, c);
            PageOk(s', x) && EntryOk(s', x, i)
  {
    var s' := Linked(s, b, e, w, c);
    assert PageOk(s', x);
    if x != c {
      assert EntryOk(s, x, i);
    }
  }

  lemma LinkedOk(s: Ram, b: int, e: int, w: int, c: int)
    requires CanLink(s, b, e, w, c)
    ensures Inv(Linked(s, b, e, w, c), {})
  {
    var s' := Linked(s, b, e, w, c);
    LinkedPages(s, b, e, w, c);
    forall k | 0 <= k < |s'.free|
      ensures FreeOk(s', k)
    {
      assert FreeOk(s, k);
    }
    forall x, i | x in s'.mem && Node(s'.role[x]) && 0 <= i < NPTE
      ensures PageOk(s', x) && EntryOk(s', x, i)
    {
      LinkedEntry(s, b, e, w, c, x, i);
    }
  }

  /** A word of a level-0 node that stands for TRAPFRAME or TRAMPOLINE. */
  predicate IsFixed(s: Ram, b: int, e: int) {
    b in s.mem && b in s.role && s.role[b].Tree? && s.role[b].level == 0 && 0 <= e < NPTE &&
      s.role[b].prefix * NPTE + e >= USERTOP
  }

  function WithWord(s: Ram, b: int, e: int, w: int): Ram
    requires b in s.mem && 0 <= e < |s.mem[b]|
  {
    s.(mem := s.mem[b := s.mem[b][e := w]])
  }

  lemma FixedOk(s: Ram, b: int, e: int, w: int)
    requires Inv(s, {}) && IsFixed(s, b, e) && |s.mem[b]| == NPTE
    ensures Inv(WithWord(s, b, e, w), {})
  {
    var s' := WithWord(s, b, e, w);
    forall x | x in s'.mem
      ensures PageOk(s', x)
    {
      assert PageOk(s, x);
    }
    forall k | 0 <= k < |s'.free|
      ensures FreeOk(s', k)
    {
      assert FreeOk(s, k);
    }
    forall x, i | x in s'.mem && Node(s'.role[x]) && 0 <= i < NPTE
      ensures PageOk(s', x) && EntryOk(s', x, i)
    {
      assert PageOk(s', x) && EntryOk(s, x, i);
    }
  }

  /** Page c, which word e of node b leads to, is taken out of the page table before the word is cleared. */
  function Detached(s: Ram, c: int): Ram {
    s.(role := s.role[c := Held])
  }

  predicate OtherWordsOk(s: Ram, b: int, e: int)
    requires b in s.mem && |s.mem[b]| == NPTE && b in s.role && s.role[b].Tree?
  {
    forall i {:trigger EntryOk(s, b, i)} :: 0 <= i < NPTE && i != e ==> EntryOk(s, b, i)
  }

  lemma DetachedOk(s: Ram, b: int, e: int, c: int)
    requires Inv(s, {}) && b in s.mem && |s.mem[b]| == NPTE && 0 <= e < NPTE && Node(s.role[b]) && s.role[b].level == 0
    requires V(s.mem[b][e]) && Frame(s.mem[b][e]) == c && s.role[b].prefix * NPTE + e < USERTOP
    ensures c in s.mem && s.role[c] == Tree(s.role[b].root, -1, s.role[b].prefix * NPTE + e, b)
    ensures Inv(Detached(s, c), {b}) && OtherWordsOk(Detached(s, c), b, e)
  {
    var s' := Detached(s, c);
    assert EntryOk(s, b, e);
    forall x | x in s'.mem
      ensures PageOk(s', x)
    {
      assert PageOk(s, x);
    }
    forall k | 0 <= k < |s'.free|
      ensures FreeOk(s', k)
    {
      assert FreeOk(s, k);
    }
    forall x, i | x in s'.mem && Node(s'.role[x]) && 0 <= i < NPTE && (x != b || i != e)
      ensures PageOk(s', x) && EntryOk(s', x, i)
    {
      assert PageOk(s', x) && EntryOk(s, x, i);
    }
  }

  /** Clearing a word that no page depends on. */
  lemma ClearedOk(s: Ram, loose: set<int>, b: int, e: int)
    requires Inv(s, loose) && b in s.mem && b in loose && |s.mem[b]| == NPTE && Node(s.role[b]) && 0 <= e < NPTE
    requires V(s.mem[b][e]) ==> Frame(s.mem[b][e]) in s.role && !s.role[Frame(s.mem[b][e])].Tree?
    ensures Inv(WithWord(s, b, e, 0), loose)
    ensures OtherWordsOk(s, b, e) ==> Inv(WithWord(s, b, e, 0), loose - {b})
  {
    var s' := WithWord(s, b, e, 0);
    forall x | x in s'.mem
      ensures PageOk(s', x)
    {
      assert PageOk(s, x);
    }
    forall k | 0 <= k < |s'.free|
      ensures FreeOk(s', k)
    {
      assert FreeOk(s, k);
    }
    forall x, i | x in s'.mem && Node(s'.role[x]) && 0 <= i < NPTE && (x !in loose || (x == b && OtherWordsOk(s, b, e)))
      ensures PageOk(s', x) && EntryOk(s', x, i)
    {
      assert PageOk(s', x);
      if x != b || i != e {
        assert EntryOk(s, x, i);
      }
    }
  }

  // ---- lookups after a change ----

  /** A node of level 0 is where the walk for its page numbers ends. */
  lemma NodeReached(s: Ram, b: int, v: int)
    requires Inv(s, {}) && b in s.mem && Node(s.role[b]) && s.role[b].level == 0 && v / NPTE == s.role[b].prefix
    ensures IsRoot(s, s.role[b].root) && Bottom(s.mem, s.role[b].root, v) == b
  {
    assert PageOk(s, b);
    var u := s.role[b].parent;
    assert PageOk(s, u);
    assert PageOk(s, s.role[u].parent);
  }

  /** mem has the nodes of s, but for word e of node b. */
  ghost predicate OneWord(s: Ram, mem: Memory, b: int, e: int, w: int) {
    && 0 !in mem && b in s.mem && 0 <= e < |s.mem[b]| && b in mem && mem[b] == s.mem[b][e := w]
    && forall x :: x in s.role && x in s.mem && Node(s.role[x]) && x != b ==> x in mem && mem[x] == s.mem[x]
  }

  /** Changing a word of a level-0 node changes the lookup of one page number in one page table. */
  lemma WordLookup(s: Ram, mem: Memory, b: int, e: int, w: int, root: int, v: int)
    requires Inv(s, {}) && IsRoot(s, root) && 0 <= v < NPAGES && OneWord(s, mem, b, e, w)
    requires Node(s.role[b]) && s.role[b].level == 0
    ensures Lookup(mem, root, v) ==
            if root == s.role[b].root && v == s.role[b].prefix * NPTE + e then (if V(w) then w else 0)
            else Lookup(s.mem, root, v)
  {
    WalkStays(s, {}, root, v);
    Digits(v);
    assert PageOk(s, b);
    if root == s.role[b].root && v / NPTE == s.role[b].prefix {
      NodeReached(s, b, v);
    }
  }

  /** A new, empty node changes no lookup. */
  lemma LinkLookup(s: Ram, mem: Memory, b: int, e: int, w: int, root: int, v: int)
    requires Inv(s, {}) && IsRoot(s, root) && 0 <= v < NPAGES && OneWord(s, mem, b, e, w)
    requires Node(s.role[b]) && s.role[b].level > 0 && !V(s.mem[b][e]) && V(w)
    requires forall i :: Entry(mem, Frame(w), i) == 0
    ensures Lookup(mem, root, v) == Lookup(s.mem, root, v)
  {
    WalkStays(s, {}, root, v);
  }
}
