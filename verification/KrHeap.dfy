/**
 The user-level heap allocator: malloc, free and morecore over a circular free list that is kept in
 address order and coalesced. Addresses are in bytes; a header takes HEADER bytes and block sizes
 count headers.
 */
module KrHeap {
  import opened Collections
  import opened Params

  const HEADER := 16

  /** The units of each block, header included, by block address. */
  type Blocks = map<int, int>

  function End(m: Blocks, a: int): int
    requires a in m
  {
    a + HEADER * m[a]
  }

  /** Block a of m ends below block b of n, or the other way round. */
  predicate Apart(m: Blocks, a: int, n: Blocks, b: int)
    requires a in m && b in n
  {
    End(m, a) <= b || End(n, b) <= a
  }

  /** If a is below b, then it also ends below b. */
  predicate Untouching(m: Blocks, a: int, b: int)
    requires a in m
  {
    a < b ==> End(m, a) < b
  }

  /** The static header has no units of its own; every other free block lies above it, and no two touch. */
  ghost predicate Coalesced(free: Blocks, base: int) {
    && base in free && free[base] == 0
    && (forall a :: a in free && a != base ==> base + HEADER <= a && free[a] > 0)
    && (forall a, b {:trigger Untouching(free, a, b)} :: a in free && b in free ==> Untouching(free, a, b))
  }

  /** Live blocks overlap neither each other nor any free block nor the static header. */
  ghost predicate LiveOk(free: Blocks, live: Blocks, base: int) {
    && (forall a :: a in live ==> base + HEADER <= a && live[a] > 0)
    && (forall a, b {:trigger Apart(live, a, free, b)} :: a in live && b in free ==> Apart(live, a, free, b))
    && (forall a, b {:trigger Apart(live, a, live, b)} :: a in live && b in live && a != b ==> Apart(live, a, live, b))
  }

  ghost predicate Below(m: Blocks, top: int) {
    forall a :: a in m ==> End(m, a) <= top
  }

  /** n comes after a in the circle: the next higher block, or the static header after the highest. */
  ghost predicate IsNext(keys: set<int>, base: int, a: int, n: int) {
    && n in keys
    && (n <= a ==> n == base)
    && forall c :: c in keys ==> c <= a || (a < n && n <= c)
  }

  /** The links of the given blocks form a circle in address order. */
  ghost predicate Circle(ptr: map<int, int>, keys: set<int>, base: int) {
    forall a {:trigger CircleAt(ptr, keys, base, a)} :: a in keys ==> CircleAt(ptr, keys, base, a)
  }

  ghost predicate CircleAt(ptr: map<int, int>, keys: set<int>, base: int, a: int) {
    a in ptr && IsNext(keys, base, a, ptr[a])
  }

  /** The headers of the given blocks hold their sizes. */
  ghost predicate Sized(size: map<int, int>, m: Blocks) {
    forall a :: a in m ==> a in size && size[a] == m[a]
  }

  lemma CircleInsert(ptr: map<int, int>, keys: set<int>, base: int, p: int, b: int)
    requires Circle(ptr, keys, base) && p in keys && b !in keys && base < b
    requires CircleAt(ptr, keys, base, p)
    requires p < b && forall c :: c in keys ==> c <= p || b < c
    ensures Circle(ptr[b := ptr[p]][p := b], keys + {b}, base)
  {
    var ptr', keys' := ptr[b := ptr[p]][p := b], keys + {b};
    forall a | a in keys'
      ensures CircleAt(ptr', keys', base, a)
    {
      assert a in keys ==> CircleAt(ptr, keys, base, a);
    }
  }

  lemma CircleRemove(ptr: map<int, int>, keys: set<int>, base: int, p: int, b: int)
    requires Circle(ptr, keys, base) && p in keys && b in keys && b != base
    requires CircleAt(ptr, keys, base, p) && ptr[p] == b && CircleAt(ptr, keys, base, b)
    ensures Circle(ptr[p := ptr[b]], keys - {b}, base)
  {
    var ptr', keys' := ptr[p := ptr[b]], keys - {b};
    forall a | a in keys'
      ensures CircleAt(ptr', keys', base, a)
    {
      assert CircleAt(ptr, keys, base, a);
    }
  }

  // ---- units ----

  /** The units of all blocks that start below n. */
  ghost function Units(m: Blocks, n: int): int
    decreases n
  {
    if n <= 0 then 0 else Units(m, n - 1) + (if n - 1 in m then m[n - 1] else 0)
  }

  lemma {:induction false} UnitsWithout(m: Blocks, a: int, n: int)
    requires a in m
    ensures Units(m - {a}, n) == Units(m, n) - (if 0 <= a < n then m[a] else 0)
    decreases n
  {
    if n > 0 {
      UnitsWithout(m, a, n - 1);
    }
  }

  lemma {:induction false} UnitsWith(m: Blocks, a: int, v: int, n: int)
    ensures Units(m[a := v], n) == Units(m, n) + (if 0 <= a < n then v - (if a in m then m[a] else 0) else 0)
    decreases n
  {
    if n > 0 {
      UnitsWith(m, a, v, n - 1);
    }
  }

  lemma {:induction false} UnitsAbove(m: Blocks, n: int, n': int)
    requires 0 <= n <= n' && forall a :: a in m ==> a < n
    ensures Units(m, n') == Units(m, n)
    decreases n'
  {
    if n < n' {
      UnitsAbove(m, n, n' - 1);
    }
  }

  // ---- giving a block back ----

  /** p is the last free block below the address. */
  ghost predicate IsGap(free: Blocks, bp: int, p: int) {
    p in free && p < bp && forall c :: c in free ==> c <= p || bp < c
  }

  /** The free blocks after block bp of n units was put back between p and next, merged where they touch. */
  function Freed(free: Blocks, p: int, next: int, bp: int, n: int): Blocks
    requires p in free && next in free
  {
    var up := bp + HEADER * n == next;
    var n1 := if up then n + free[next] else n;
    var rest := if up then free - {next} else free;
    if End(free, p) == bp then rest[p := free[p] + n1] else rest[bp := n1]
  }

  lemma FreedCoalesced(free: Blocks, live: Blocks, base: int, p: int, next: int, bp: int)
    requires Coalesced(free, base) && LiveOk(free, live, base) && bp in live
    requires IsGap(free, bp, p) && IsNext(free.Keys, base, p, next)
    ensures Coalesced(Freed(free, p, next, bp, live[bp]), base)
  {
    var f := Freed(free, p, next, bp, live[bp]);
    assert Apart(live, bp, free, p) && Apart(live, bp, free, next);
    forall a, b | a in f && b in f && a < b
      ensures Untouching(f, a, b)
    {
      assert a != bp && b != bp ==> Untouching(free, a, b);
      assert b != bp ==> Untouching(free, p, b) && Untouching(free, next, b);
      assert a != bp ==> Untouching(free, a, p);
    }
  }

  lemma FreedLiveOk(free: Blocks, live: Blocks, base: int, p: int, next: int, bp: int)
    requires Coalesced(free, base) && LiveOk(free, live, base) && bp in live
    requires IsGap(free, bp, p) && IsNext(free.Keys, base, p, next)
    ensures LiveOk(Freed(free, p, next, bp, live[bp]), live - {bp}, base)
  {
    var f, l := Freed(free, p, next, bp, live[bp]), live - {bp};
    forall a, b | a in l && b in f
      ensures Apart(l, a, f, b)
    {
      assert Apart(live, a, free, p) && Apart(live, a, free, next) && Apart(live, a, live, bp);
      assert b != bp ==> Apart(live, a, free, b);
    }
    forall a, b | a in l && b in l && a != b
      ensures Apart(l, a, l, b)
    {
      assert Apart(live, a, live, b);
    }
  }

  lemma FreedBelow(free: Blocks, live: Blocks, p: int, next: int, bp: int, top: int)
    requires p in free && next in free && bp in live
    requires Below(free, top) && Below(live, top)
    ensures Below(Freed(free, p, next, bp, live[bp]), top) && Below(live - {bp}, top)
  {
  }

  lemma FreedUnits(free: Blocks, p: int, next: int, bp: int, n: int, top: int)
    requires p in free && next in free && bp !in free && (next != p || bp + HEADER * n != next)
    requires 0 <= p < top && 0 <= next < top && 0 <= bp < top
    ensures Units(Freed(free, p, next, bp, n), top) == Units(free, top) + n
  {
    var up := bp + HEADER * n == next;
    var rest := if up then free - {next} else free;
    var n1 := if up then n + free[next] else n;
    if up {
      UnitsWithout(free, next, top);
    }
    if End(free, p) == bp {
      UnitsWith(rest, p, free[p] + n1, top);
    } else {
      UnitsWith(rest, bp, n1, top);
    }
  }

  /** The links that free leaves in memory: first the upper neighbour is dealt with, then the lower one. */
  function Relinked(ptr: map<int, int>, p: int, bp: int, up: bool, down: bool): map<int, int>
    requires p in ptr && ptr[p] in ptr
  {
    var q := if up then ptr[ptr[p]] else ptr[p];
    if down then ptr[bp := q][p := q] else ptr[bp := q][p := bp]
  }

  /** The sizes that free leaves in memory. */
  function Resized(size: map<int, int>, p: int, next: int, bp: int, up: bool, down: bool): map<int, int>
    requires p in size && next in size && bp in size
  {
    var n1 := if up then size[bp] + size[next] else size[bp];
    if down then size[bp := n1][p := size[p] + n1] else size[bp := n1]
  }

  /** The same as free computes them, in 32 bits. */
  function Wrapped(size: map<int, int>, p: int, next: int, bp: int, up: bool, down: bool): map<int, int>
    requires p in size && next in size && bp in size
  {
    var n1 := if up then (size[bp] + size[next]) % UINT32 else size[bp];
    if down then size[bp := n1][p := (size[p] + n1) % UINT32] else size[bp := n1]
  }

  /** The header fields that free reads are 32 bits wide. */
  predicate Fields(size: map<int, int>, p: int, next: int, bp: int)
    requires p in size && next in size && bp in size
  {
    0 <= size[p] < UINT32 && 0 <= size[next] < UINT32 && 0 <= size[bp] < UINT32
  }

  /** The additions that free makes to 32-bit sizes stay below 2^32. */
  predicate NoWrap(size: map<int, int>, p: int, next: int, bp: int)
    requires p in size && next in size && bp in size
  {
    var up := bp + HEADER * size[bp] == next;
    && (up ==> size[bp] + size[next] < UINT32)
    && (p + HEADER * size[p] == bp ==> size[p] + (if up then size[bp] + size[next] else size[bp]) < UINT32)
  }

  /** free leaves the sizes of the merged blocks if and only if none of its additions, as the headers have it, wraps. */
  lemma WrappedExactIff(size: map<int, int>, p: int, next: int, bp: int)
    requires p in size && next in size && bp in size && p != bp && Fields(size, p, next, bp)
    ensures var up, down := bp + HEADER * size[bp] == next, p + HEADER * size[p] == bp;
            Wrapped(size, p, next, bp, up, down) == Resized(size, p, next, bp, up, down) <==> NoWrap(size, p, next, bp)
  {
    var up, down := bp + HEADER * size[bp] == next, p + HEADER * size[p] == bp;
    var w, r := Wrapped(size, p, next, bp, up, down), Resized(size, p, next, bp, up, down);
    assert w == r ==> w[bp] == r[bp] && w[p] == r[p];
  }

  lemma {:induction false} UnitsNonNegative(m: Blocks, n: int)
    requires forall a :: a in m ==> m[a] >= 0
    ensures Units(m, n) >= 0
    decreases n
  {
    if n > 0 {
      UnitsNonNegative(m, n - 1);
    }
  }

  /** The three blocks that free can merge have no more units than were ever obtained. */
  lemma MergedUnits(free: Blocks, live: Blocks, p: int, next: int, bp: int, top: int)
    requires p in free && next in free && bp in live && 0 <= p < top && 0 <= next < top && 0 <= bp < top
    requires (forall a :: a in free ==> free[a] >= 0) && (forall a :: a in live ==> live[a] >= 0)
    ensures free[p] + live[bp] + (if p != next then free[next] else 0) <= Units(free, top) + Units(live, top)
  {
    UnitsWithout(live, bp, top);
    UnitsNonNegative(live - {bp}, top);
    UnitsWithout(free, p, top);
    UnitsNonNegative(free - {p}, top);
    if p != next {
      UnitsWithout(free - {p}, next, top);
      UnitsNonNegative(free - {p} - {next}, top);
    }
  }

  /** With fewer than 2^32 units obtained in all, none of the sizes that free adds up wraps. */
  lemma FreedNoWrap(size: map<int, int>, free: Blocks, live: Blocks, p: int, next: int, bp: int, top: int)
    requires Sized(size, free) && Sized(size, live) && p in free && next in free && bp in live && 0 <= p < bp < top &&
             0 <= next < top
    requires (forall a :: a in free ==> free[a] >= 0) && (forall a :: a in live ==> live[a] > 0)
    requires Units(free, top) + Units(live, top) < UINT32
    ensures Fields(size, p, next, bp) && NoWrap(size, p, next, bp)
  {
    MergedUnits(free, live, p, next, bp, top);
  }

  lemma FreedSized(size: map<int, int>, free: Blocks, live: Blocks, p: int, next: int, bp: int, up: bool, down: bool)
    requires Sized(size, free) && Sized(size, live) && p in free && next in free && bp in live && bp !in free
    requires up == (bp + HEADER * live[bp] == next) && down == (End(free, p) == bp)
    ensures Sized(Resized(size, p, next, bp, up, down), Freed(free, p, next, bp, live[bp]))
  {
  }

  lemma FreedCircle(ptr: map<int, int>, keys: set<int>, base: int, p: int, next: int, bp: int, up: bool, down: bool)
    requires Circle(ptr, keys, base) && p in keys && bp !in keys && base < bp
    requires CircleAt(ptr, keys, base, p) && ptr[p] == next && CircleAt(ptr, keys, base, next)
    requires p < bp && (forall c :: c in keys ==> c <= p || bp < c) && (up ==> next > bp)
    ensures var rest := if up then keys - {next} else keys;
            Circle(Relinked(ptr, p, bp, up, down), if down then rest else rest + {bp}, base)
  {
    CircleInsert(ptr, keys, base, p, bp);
    var ptr1, keys1 := ptr[bp := next][p := bp], keys + {bp};
    if up {
      assert CircleAt(ptr1, keys1, base, bp) && CircleAt(ptr1, keys1, base, next);
      CircleRemove(ptr1, keys1, base, bp, next);
      ptr1, keys1 := ptr1[bp := ptr1[next]], keys1 - {next};
    }
    assert keys1 == (if up then keys - {next} else keys) + {bp};
    if down {
      assert CircleAt(ptr1, keys1, base, p) && CircleAt(ptr1, keys1, base, bp);
      CircleRemove(ptr1, keys1, base, p, bp);
      ptr1, keys1 := ptr1[p := ptr1[bp]], keys1 - {bp};
    }
    assert ptr1 == Relinked(ptr, p, bp, up, down);
    assert down ==> keys1 == if up then keys - {next} else keys;
  }

  // ---- taking a block ----

  /** malloc hands out the tail of free block p. */
  function TakenAt(free: Blocks, p: int, nunits: int): int
    requires p in free && nunits <= free[p]
  {
    p + HEADER * (free[p] - nunits)
  }

  function Carved(free: Blocks, p: int, nunits: int): Blocks
    requires p in free && nunits <= free[p]
  {
    if free[p] == nunits then free - {p} else free[p := free[p] - nunits]
  }

  lemma CarvedOk(free: Blocks, live: Blocks, base: int, p: int, nunits: int, top: int)
    requires Coalesced(free, base) && LiveOk(free, live, base) && Below(free, top) && Below(live, top)
    requires p in free && 0 < nunits <= free[p]
    ensures var f, l := Carved(free, p, nunits), live[TakenAt(free, p, nunits) := nunits];
            && TakenAt(free, p, nunits) !in live && TakenAt(free, p, nunits) !in f
            && Coalesced(f, base) && LiveOk(f, l, base) && Below(f, top) && Below(l, top)
  {
    var t := TakenAt(free, p, nunits);
    var f, l := Carved(free, p, nunits), live[t := nunits];
    forall a | a in live
      ensures t != a && (End(live, a) <= t || t + HEADER * nunits <= a)
    {
      assert Apart(live, a, free, p);
    }
    forall a | a in f
      ensures a != t && (End(f, a) <= t || t + HEADER * nunits <= a)
    {
      assert Untouching(free, a, p) && Untouching(free, p, a);
    }
    forall a, b | a in f && b in f
      ensures Untouching(f, a, b)
    {
      assert Untouching(free, a, b);
    }
    forall a, b | a in l && b in f
      ensures Apart(l, a, f, b)
    {
      assert a != t ==> Apart(live, a, free, b);
    }
    forall a, b | a in l && b in l && a != b
      ensures Apart(l, a, l, b)
    {
      assert a != t && b != t ==> Apart(live, a, live, b);
    }
  }

  lemma CarvedUnits(free: Blocks, live: Blocks, p: int, nunits: int, t: int, top: int)
    requires p in free && nunits <= free[p] && t !in live && 0 <= p < top && 0 <= t < top
    ensures Units(Carved(free, p, nunits), top) + Units(live[t := nunits], top) == Units(free, top) + Units(live, top)
  {
    UnitsWith(live, t, nunits, top);
    if free[p] == nunits {
      UnitsWithout(free, p, top);
    } else {
      UnitsWith(free, p, free[p] - nunits, top);
    }
  }

  // ---- sizes ----

  /** The units malloc asks for: enough headers for nbytes, plus one. The C code computes this in 64 bits. */
  function NUnits(nbytes: nat): (r: nat)
    ensures r > 0 && HEADER * (r - 1) >= nbytes && (nbytes > 0 ==> HEADER * (r - 2) < nbytes)
  {
    (nbytes + HEADER - 1) / HEADER + 1
  }

  function CoreUnits(nunits: int): int {
    if nunits < 4096 then 4096 else nunits
  }

  /** The byte count that reaches sbrk, whose parameter is a 32-bit int. */
  function SbrkArg(units: int): int {
    var low := units * HEADER % UINT32;
    if low < INT32 then low else low - UINT32
  }

  /** sbrk is asked for what morecore records exactly when the byte count fits an int. */
  lemma SbrkArgExactIff(units: nat)
    ensures SbrkArg(units) == units * HEADER <==> units * HEADER < INT32
  {
  }

  /** A request of 4 GiB - 1 makes morecore ask for 16 bytes and record 2^28 + 1 units. */
  lemma SbrkArgTruncates()
    ensures NUnits(0xFFFF_FFFF) == 0x1000_0001 && SbrkArg(CoreUnits(NUnits(0xFFFF_FFFF))) == HEADER
  {
  }

  // ---- search ----

  /** The blocks that free's search still has to pass, walking up from p to the gap for bp. */
  ghost function Ahead(keys: set<int>, p: int, bp: int): int {
    if p < bp then |Between(keys, p, bp)| else |keys| + |AllAbove(keys, p)|
  }

  ghost function Between(keys: set<int>, lo: int, hi: int): set<int> {
    set c | c in keys && lo < c < hi
  }

  ghost function AllAbove(keys: set<int>, lo: int): set<int> {
    set c | c in keys && lo < c
  }

  lemma AheadShrinks(keys: set<int>, base: int, p: int, n: int, bp: int)
    requires base in keys && base < bp && p in keys && bp !in keys && IsNext(keys, base, p, n)
    requires !(p < bp && (bp < n || n <= p))
    ensures Ahead(keys, n, bp) < Ahead(keys, p, bp)
  {
    if p < bp {
      SmallerSet(Between(keys, n, bp), Between(keys, p, bp), n);
    } else if p < n {
      SmallerSet(AllAbove(keys, n), AllAbove(keys, p), n);
    } else {
      SmallerSet(Between(keys, n, bp), keys, n);
    }
  }

  lemma SmallerSet<T>(a: set<T>, b: set<T>, x: T)
    requires a <= b && x in b && x !in a
    ensures |a| < |b|
  {
    SubsetSize(a, b - {x});
  }

  /** Walking from f's successor round the circle to p passes c. */
  predicate Passed(f: int, p: int, c: int) {
    if f < p then f < c < p else f < c || c < p
  }

  ghost function ToPass(keys: set<int>, f: int, p: int): set<int> {
    set c | c in keys && !Passed(f, p, c)
  }

  /** One step of malloc's walk: p itself joins the blocks passed, nothing else does. */
  lemma PassedStep(keys: set<int>, base: int, f: int, p: int, n: int)
    requires base in keys && f in keys && p in keys && p != f && IsNext(keys, base, p, n)
    requires forall c :: c in keys ==> base <= c
    ensures forall c :: c in keys ==> (Passed(f, n, c) <==> Passed(f, p, c) || c == p)
    ensures |ToPass(keys, f, n)| < |ToPass(keys, f, p)|
  {
    SmallerSet(ToPass(keys, f, n), ToPass(keys, f, p), p);
  }

  lemma LiveNotFree(free: Blocks, live: Blocks, base: int, bp: int)
    requires Coalesced(free, base) && LiveOk(free, live, base) && bp in live
    ensures bp !in free
  {
    assert bp in free ==> Apart(live, bp, free, bp);
  }

  /** What malloc, free and morecore keep, once malloc has set up the static header. */
  ghost predicate ListOk(base: int, freep: int, ptr: map<int, int>, size: map<int, int>,
                         free: Blocks, live: Blocks, obtained: int, top: int) {
    && Coalesced(free, base) && LiveOk(free, live, base)
    && freep in free && Circle(ptr, free.Keys, base) && Sized(size, free) && Sized(size, live)
    && Below(free, top) && Below(live, top)
    && 0 < base < top && Units(free, top) + Units(live, top) == obtained
  }

  lemma FreedListOk(base: int, freep: int, ptr: map<int, int>, size: map<int, int>, free: Blocks, live: Blocks,
                    obtained: int, top: int, p: int, bp: int)
    requires ListOk(base, freep, ptr, size, free, live, obtained, top)
    requires bp in live && IsGap(free, bp, p) && bp !in free
    requires CircleAt(ptr, free.Keys, base, p) && CircleAt(ptr, free.Keys, base, ptr[p])
    ensures var up, down := bp + HEADER * live[bp] == ptr[p], End(free, p) == bp;
            ListOk(base, p, Relinked(ptr, p, bp, up, down), Resized(size, p, ptr[p], bp, up, down),
              Freed(free, p, ptr[p], bp, live[bp]), live - {bp}, obtained, top)
  {
    var next := ptr[p];
    var up, down := bp + HEADER * live[bp] == next, End(free, p) == bp;
    FreedCoalesced(free, live, base, p, next, bp);
    FreedLiveOk(free, live, base, p, next, bp);
    FreedBelow(free, live, p, next, bp, top);
    FreedSized(size, free, live, p, next, bp, up, down);
    FreedUnits(free, p, next, bp, live[bp], top);
    UnitsWithout(live, bp, top);
    FreedCircle(ptr, free.Keys, base, p, next, bp, up, down);
    var rest := if up then free.Keys - {next} else free.Keys;
    assert Freed(free, p, next, bp, live[bp]).Keys == if down then rest else rest + {bp};
    assert forall a :: a in live && a != bp ==> a != p by {
      forall a | a in live && a != bp ensures a != p { assert Apart(live, a, free, p); }
    }
  }

  /** A fresh region above everything else, recorded as one block. */
  lemma ObtainedOk(base: int, freep: int, ptr: map<int, int>, size: map<int, int>, free: Blocks, live: Blocks,
                   obtained: int, top: int, hp: int, nu: int)
    requires ListOk(base, freep, ptr, size, free, live, obtained, top)
    requires base + HEADER <= top <= hp && nu > 0
    ensures hp !in live && hp !in free
    ensures ListOk(base, freep, ptr, size[hp := nu], free, live[hp := nu], obtained + nu, hp + HEADER * nu)
  {
    UnitsAbove(free, top, hp + HEADER * nu);
    UnitsAbove(live, top, hp + HEADER * nu);
    UnitsWith(live, hp, nu, hp + HEADER * nu);
    var l := live[hp := nu];
    forall a, b | a in l && b in free
      ensures Apart(l, a, free, b)
    {
      assert a != hp ==> Apart(live, a, free, b);
      assert End(free, b) <= top;
    }
    forall a, b | a in l && b in l && a != b
      ensures Apart(l, a, l, b)
    {
      assert a != hp && b != hp ==> Apart(live, a, live, b);
      assert (a != hp ==> End(live, a) <= top) && (b != hp ==> End(live, b) <= top);
    }
  }

  ghost predicate HasRoom(free: Blocks, nunits: int) {
    exists a :: a in free && free[a] >= nunits
  }

  lemma FreedHasRoom(free: Blocks, p: int, next: int, bp: int, n: int)
    requires p in free && next in free && free[p] >= 0 && free[next] >= 0
    ensures HasRoom(Freed(free, p, next, bp, n), n)
  {
    var f := Freed(free, p, next, bp, n);
    assert if End(free, p) == bp then p in f && f[p] >= n else bp in f && f[bp] >= n;
  }

  /** Taking a whole block off the list. */
  lemma UsedUpListOk(base: int, ptr: map<int, int>, size: map<int, int>, free: Blocks, live: Blocks,
                     obtained: int, top: int, prevp: int, p: int)
    requires ListOk(base, prevp, ptr, size, free, live, obtained, top)
    requires p in free && 0 < free[p]
    requires CircleAt(ptr, free.Keys, base, prevp) && ptr[prevp] == p && CircleAt(ptr, free.Keys, base, p)
    ensures p !in live && ListOk(base, prevp, ptr[prevp := ptr[p]], size, free - {p}, live[p := free[p]], obtained, top)
  {
    CarvedOk(free, live, base, p, free[p], top);
    CarvedUnits(free, live, p, free[p], p, top);
    CircleRemove(ptr, free.Keys, base, prevp, p);
    assert (free - {p}).Keys == free.Keys - {p};
  }

  /** Taking the tail of a block. */
  lemma ShrunkListOk(base: int, freep: int, prevp: int, ptr: map<int, int>, size: map<int, int>, free: Blocks,
                     live: Blocks, obtained: int, top: int, p: int, nunits: int, t: int)
    requires ListOk(base, freep, ptr, size, free, live, obtained, top)
    requires p in free && prevp in free && 0 < nunits < free[p] && t == TakenAt(free, p, nunits)
    ensures t !in live && t != p
    ensures ListOk(base, prevp, ptr, size[p := free[p] - nunits][t := nunits], free[p := free[p] - nunits],
            live[t := nunits], obtained, top)
  {
    CarvedOk(free, live, base, p, nunits, top);
    CarvedUnits(free, live, p, nunits, t, top);
    assert free[p := free[p] - nunits].Keys == free.Keys;
    assert p in live ==> Apart(live, p, free, p);
  }

  lemma ShiftFreep(base: int, freep: int, freep': int, ptr: map<int, int>, size: map<int, int>, free: Blocks,
                   live: Blocks, obtained: int, top: int)
    requires ListOk(base, freep, ptr, size, free, live, obtained, top) && freep' in free
    ensures ListOk(base, freep', ptr, size, free, live, obtained, top)
  {
  }

  lemma NoRoom(free: Blocks, f: int, nunits: int)
    requires f in free && free[f] < nunits
    requires forall c :: c in free && Passed(f, f, c) ==> free[c] < nunits
    ensures !HasRoom(free, nunits)
  {
  }

  lemma RoomForLess(free: Blocks, nu: int, nunits: int)
    requires HasRoom(free, nu) && nunits <= nu
    ensures HasRoom(free, nunits)
  {
    var a :| a in free && free[a] >= nu;
    assert free[a] >= nunits;
  }

  class Heap {
    const base: int
    var freep: int           // 0 before the first call of malloc
    var ptr: map<int, int>   // the header fields in memory
    var size: map<int, int>
    ghost var free: Blocks
    ghost var live: Blocks   // the blocks handed out and not yet given back
    ghost var obtained: int  // units obtained by morecore
    ghost var top: int       // all of them lie below this address

    ghost predicate Valid()
      reads this
    {
      && base > 0 && base + HEADER <= top && obtained < UINT32
      && (freep == 0 ==> free == map[] && live == map[] && obtained == 0)
      && (freep != 0 ==> ListOk(base, freep, ptr, size, free, live, obtained, top))
    }

    constructor (base: int)
      requires base > 0
      ensures Valid() && this.base == base && freep == 0 && free == map[] && live == map[] && obtained == 0
    {
      this.base := base;
      freep, ptr, size := 0, map[], map[];
      free, live, obtained, top := map[], map[], 0, base + HEADER;
    }

    /** free's search: it stops at the last free block below bp. */
    method FindGap(bp: int) returns (p: int)
      requires Valid() && freep != 0 && base < bp && bp !in free
      ensures IsGap(free, bp, p)
    {
      p := freep;
      assert CircleAt(ptr, free.Keys, base, p);
      while !(bp > p && bp < ptr[p])
        invariant p in free && CircleAt(ptr, free.Keys, base, p)
        decreases Ahead(free.Keys, p, bp)
      {
        if p >= ptr[p] && (bp > p || bp < ptr[p]) {
          break;
        }
        AheadShrinks(free.Keys, base, p, ptr[p], bp);
        p := ptr[p];
        assert CircleAt(ptr, free.Keys, base, p);
      }
    }

    /** free on the block whose payload starts at ap. */
    method Free(ap: int) returns (ghost p: int)
      requires Valid() && ap >= HEADER && ap - HEADER in live
      modifies this
      ensures Valid() && freep != 0 && obtained == old(obtained) && top == old(top)
      ensures live == old(live) - {ap - HEADER}
      ensures IsGap(old(free), ap - HEADER, p) && p in old(ptr) && old(ptr)[p] in old(free)
      ensures free == Freed(old(free), p, old(ptr)[p], ap - HEADER, old(live)[ap - HEADER])
    {
      var bp: int := ap - HEADER;
      LiveNotFree(free, live, base, bp);
      var q := FindGap(bp);
      p := q;
      GiveBack(q, bp);
    }

    method GiveBack(p: int, bp: int)
      requires Valid() && freep != 0 && bp in live && bp !in free && IsGap(free, bp, p)
      modifies this
      ensures Valid() && freep != 0 && obtained == old(obtained) && top == old(top)
      ensures live == old(live) - {bp}
      ensures p in old(ptr) && old(ptr)[p] in old(free) && free == Freed(old(free), p, old(ptr)[p], bp, old(live)[bp])
    {
      assert CircleAt(ptr, free.Keys, base, p);
      assert CircleAt(ptr, free.Keys, base, ptr[p]);
      FreedListOk(base, freep, ptr, size, free, live, obtained, top, p, bp);
      FreedNoWrap(size, free, live, p, ptr[p], bp, top);
      ghost var f := Freed(free, p, ptr[p], bp, live[bp]);
      Relink(p, bp);
      freep := p;
      free := f;
      live := live - {bp};
    }

    /** free's updates of the header fields. The sizes are those of the merged blocks unless an addition wraps. */
    method Relink(p: int, bp: int)
      requires p in ptr && p in size && bp in size && ptr[p] in ptr && ptr[p] in size && p != bp && bp != ptr[p]
      requires Fields(size, p, ptr[p], bp)
      modifies this`ptr, this`size
      ensures var up, down := bp + HEADER * old(size)[bp] == old(ptr)[p], p + HEADER * old(size)[p] == bp;
              && ptr == Relinked(old(ptr), p, bp, up, down)
              && size == Wrapped(old(size), p, old(ptr)[p], bp, up, down)
              && (size == Resized(old(size), p, old(ptr)[p], bp, up, down) <==> NoWrap(old(size), p, old(ptr)[p], bp))
    {
      WrappedExactIff(size, p, ptr[p], bp);
      if bp + HEADER * size[bp] == ptr[p] {
        size := size[bp := (size[bp] + size[ptr[p]]) % UINT32];
        ptr := ptr[bp := ptr[ptr[p]]];
      } else {
        ptr := ptr[bp := ptr[p]];
      }
      if p + HEADER * size[p] == bp {
        size := size[p := (size[p] + size[bp]) % UINT32];
        ptr := ptr[p := ptr[bp]];
      } else {
        ptr := ptr[p := bp];
      }
    }

    /**
     morecore: core is what sbrk answers. A fresh region lies above everything obtained before; it is
     given to free as one block, so afterwards some free block is large enough.
     */
    method Morecore(nunits: int, core: Option<int>)
      requires Valid() && freep != 0
      requires core.Some? ==>
               CoreUnits(nunits) * HEADER < INT32 && top <= core.value && obtained + CoreUnits(nunits) < UINT32
      modifies this
      ensures Valid() && freep != 0 && live == old(live)
      ensures core.None? ==>
              free == old(free) && ptr == old(ptr) && freep == old(freep) && obtained == old(obtained) &&
              top == old(top)
      ensures core.Some? ==> obtained == old(obtained) + CoreUnits(nunits) && HasRoom(free, nunits)
      ensures core.Some? ==> top == core.value + HEADER * CoreUnits(nunits)
    {
      var nu := if nunits < 4096 then 4096 else nunits;
      SbrkArgExactIff(nu);
      if core.None? {
        return;
      }
      var hp := core.value;
      ObtainedOk(base, freep, ptr, size, free, live, obtained, top, hp, nu);
      size := size[hp := nu];
      live := live[hp := nu];
      obtained := obtained + nu;
      top := hp + HEADER * nu;
      ghost var f, links := free, ptr;
      ghost var p := Free(hp + HEADER);
      assert live == old(live);
      FreedHasRoom(f, p, links[p], hp, nu);
      RoomForLess(free, nu, nunits);
    }

    /** malloc's removal of block p, which has just the size wanted, behind its predecessor. */
    method TakeWhole(prevp: int, p: int)
      requires Valid() && freep != 0 && prevp in free && p in free && 0 < free[p]
      requires CircleAt(ptr, free.Keys, base, prevp) && ptr[prevp] == p
      modifies this
      ensures Valid() && freep != 0 && obtained == old(obtained) && top == old(top)
      ensures free == old(free) - {p} && p !in old(live) && live == old(live)[p := old(free)[p]]
    {
      assert CircleAt(ptr, free.Keys, base, p);
      ShiftFreep(base, freep, prevp, ptr, size, free, live, obtained, top);
      UsedUpListOk(base, ptr, size, free, live, obtained, top, prevp, p);
      ptr := ptr[prevp := ptr[p]];
      freep := prevp;
      live := live[p := free[p]];
      free := free - {p};
    }

    /** malloc's removal of the tail of a larger block p. */
    method TakeTail(prevp: int, p: int, nunits: int) returns (taken: int)
      requires Valid() && freep != 0 && prevp in free && p in free && 0 < nunits < free[p]
      modifies this
      ensures Valid() && freep != 0 && obtained == old(obtained) && top == old(top)
      ensures taken == TakenAt(old(free), p, nunits) && free == old(free)[p := old(free)[p] - nunits]
      ensures taken !in old(live) && live == old(live)[taken := nunits]
    {
      ghost var t := TakenAt(free, p, nunits);
      ShrunkListOk(base, freep, prevp, ptr, size, free, live, obtained, top, p, nunits, t);
      size := size[p := size[p] - nunits];
      taken := p + HEADER * size[p];
      assert taken == t;
      size := size[taken := nunits];
      freep := prevp;
      live := live[taken := nunits];
      free := free[p := free[p] - nunits];
    }

    method Take(prevp: int, p: int, nunits: int) returns (taken: int)
      requires Valid() && freep != 0 && prevp in free && p in free && 0 < nunits <= free[p]
      requires CircleAt(ptr, free.Keys, base, prevp) && ptr[prevp] == p
      modifies this
      ensures Valid() && freep != 0 && obtained == old(obtained)
      ensures taken !in old(live) && live == old(live)[taken := nunits]
    {
      taken := p;
      if size[p] == nunits {
        TakeWhole(prevp, p);
      } else {
        taken := TakeTail(prevp, p, nunits);
      }
    }

    /** One trip of malloc's search round the list, from freep's successor to freep itself. */
    method FindFit(nunits: int) returns (found: bool, prevp: int, p: int)
      requires Valid() && freep != 0
      ensures found <==> HasRoom(free, nunits)
      ensures found ==>
              prevp in free && p in free && free[p] >= nunits && CircleAt(ptr, free.Keys, base, prevp) &&
              ptr[prevp] == p
    {
      prevp := freep;
      assert CircleAt(ptr, free.Keys, base, prevp);
      p := ptr[prevp];
      while true
        invariant p in free && prevp in free && CircleAt(ptr, free.Keys, base, prevp) && ptr[prevp] == p
        invariant forall c :: c in free && Passed(freep, p, c) ==> free[c] < nunits
        decreases |ToPass(free.Keys, freep, p)|
      {
        if size[p] >= nunits {
          return true, prevp, p;
        }
        if p == freep {
          NoRoom(free, freep, nunits);
          return false, prevp, p;
        }
        assert CircleAt(ptr, free.Keys, base, p);
        PassedStep(free.Keys, base, freep, p, ptr[p]);
        prevp := p;
        p := ptr[p];
      }
    }

    /** malloc's search, with a second trip after morecore, which succeeds. */
    method FindOrGrow(nunits: int, core: Option<int>) returns (found: bool, prevp: int, p: int)
      requires Valid() && freep != 0
      requires core.Some? && !HasRoom(free, nunits) ==>
                 CoreUnits(nunits) * HEADER < INT32 && top <= core.value && obtained + CoreUnits(nunits) < UINT32
      modifies this
      ensures Valid() && freep != 0 && live == old(live)
      ensures found <==> HasRoom(old(free), nunits) || core.Some?
      ensures found ==>
              prevp in free && p in free && free[p] >= nunits && CircleAt(ptr, free.Keys, base, prevp) &&
              ptr[prevp] == p
      ensures obtained == if HasRoom(old(free), nunits) || core.None? then old(obtained)
              else old(obtained) + CoreUnits(nunits)
    {
      found, prevp, p := FindFit(nunits);
      if !found {
        Morecore(nunits, core);
        if core.Some? {
          found, prevp, p := FindFit(nunits);
        }
      }
    }

    /**
     malloc. It fails only when no free block is large enough and sbrk refuses; otherwise the payload
     lies in one new live block that holds nbytes. After morecore the search starts again from freep
     and succeeds on this second trip.
     */
    method Malloc(nbytes: nat, core: Option<int>) returns (ap: Option<int>)
      requires Valid() && nbytes < UINT32
      requires core.Some? && !HasRoom(free, NUnits(nbytes)) ==>
                 && CoreUnits(NUnits(nbytes)) * HEADER < INT32 && top <= core.value
                 && obtained + CoreUnits(NUnits(nbytes)) < UINT32
      modifies this
      ensures Valid() && freep != 0
      ensures ap.None? <==> !HasRoom(old(free), NUnits(nbytes)) && core.None?
      ensures ap.None? ==> live == old(live)
      ensures ap.Some? ==>
                && ap.value - HEADER !in old(live)
                && live == old(live)[ap.value - HEADER := NUnits(nbytes)]
                && HEADER * (NUnits(nbytes) - 1) >= nbytes
      ensures obtained == if HasRoom(old(free), NUnits(nbytes)) || core.None? then old(obtained)
                          else old(obtained) + CoreUnits(NUnits(nbytes))
    {
      var nunits := (nbytes + HEADER - 1) / HEADER + 1;
      if freep == 0 {
        Start(nunits);
      }
      var found, prevp, p := FindOrGrow(nunits, core);
      if !found {
        return None;
      }
      p := Take(prevp, p, nunits);
      ap := Some(p + HEADER);
    }

    /** The set-up of the static header by the first call of malloc. */
    method Start(ghost nunits: int)
      requires Valid() && freep == 0 && nunits > 0
      modifies this
      ensures Valid() && freep != 0 && !HasRoom(free, nunits) && live == old(live) && obtained == old(obtained) &&
              top == old(top)
    {
      freep := base;
      ptr := ptr[base := base];
      size := size[base := 0];
      free := map[base := 0];
      UnitsAbove(map[], 0, top);
      UnitsWith(map[], base, 0, top);
      assert map[][base := 0] == free;
      assert CircleAt(ptr, free.Keys, base, base);
    }
  }
}
