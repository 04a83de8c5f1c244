/**
 The block allocator, the inode address tree and file contents: balloc, bfree, bmap, itrunc, readi
 and writei.
 */
module FileSystem {
  import opened BlockFormat
  import opened Params

  const BPB := 8192    // bitmap bits in a block
  const IPB := 16      // inodes in a block
  const NDIRECT := 12
  const MAXFILE := 268
  const SLOTS := 269   // direct addresses, the indirect address, and the addresses in the indirect block

  /** An inode: NDIRECT direct addresses, the indirect address, and the size in bytes. */
  datatype Inode = Inode(addrs: seq<int>, size: int)

  /** The free bitmap, the contents of all blocks, the inodes in memory, and the inodes on disk. */
  datatype Disk = Disk(bits: seq<bool>, blocks: seq<Block>, inodes: seq<Inode>, dinodes: seq<Inode>)

  /** Where the log, the inodes, the bitmap and the data blocks begin. */
  datatype Layout = Layout(logstart: int, inodestart: int, bmapstart: int, nmeta: int)

  /** The bitmap block that holds the bit of block b. */
  function BBlock(lay: Layout, b: int): int {
    b / BPB + lay.bmapstart
  }

  /** The block that holds inode i. */
  function IBlock(lay: Layout, i: int): int {
    i / IPB + lay.inodestart
  }

  /** The areas follow each other, each large enough. */
  predicate LayoutOk(lay: Layout, nblocks: int, ninodes: int) {
    && 0 <= lay.logstart && lay.logstart + LOGBLOCKS < lay.inodestart
    && lay.inodestart + ninodes / IPB < lay.bmapstart && lay.bmapstart + nblocks / BPB < lay.nmeta <= nblocks
  }

  /** Where a block is used: address slot `slot` of an inode. */
  datatype Owner = Owner(inode: int, slot: int)

  ghost predicate Shape(d: Disk) {
    && |d.bits| == |d.blocks|
    && (forall b :: 0 <= b < |d.blocks| ==> |d.blocks[b]| == BSIZE)
    && (forall i :: 0 <= i < |d.inodes| ==>
       |d.inodes[i].addrs| == NDIRECT + 1 && 0 <= d.inodes[i].addrs[NDIRECT] < |d.blocks|)
    && |d.dinodes| == |d.inodes| && (forall i :: 0 <= i < |d.dinodes| ==> |d.dinodes[i].addrs| == NDIRECT + 1)
  }

  /** The block number in one address slot of an inode, 0 for none. */
  ghost function Slot(d: Disk, i: int, s: int): int
    requires Shape(d) && 0 <= i < |d.inodes| && 0 <= s < SLOTS
  {
    var addrs := d.inodes[i].addrs;
    if s <= NDIRECT then addrs[s]
    else if addrs[NDIRECT] == 0 then 0
    else Word(d.blocks[addrs[NDIRECT]], s - NDIRECT - 1)
  }

  /** The slot that holds file block bn. */
  function FileSlot(bn: int): int {
    if bn < NDIRECT then bn else bn + 1
  }

  ghost predicate SlotOk(d: Disk, own: map<int, Owner>, i: int, s: int)
    requires Shape(d) && 0 <= i < |d.inodes| && 0 <= s < SLOTS
  {
    var a := Slot(d, i, s);
    a == 0 || (0 < a < |d.blocks| && a in own && own[a] == Owner(i, s))
  }

  ghost predicate OwnerOk(d: Disk, own: map<int, Owner>, b: int)
    requires Shape(d) && b in own
  {
    var o := own[b];
    0 < b < |d.blocks| && d.bits[b] && 0 <= o.inode < |d.inodes| && 0 <= o.slot < SLOTS && Slot(d, o.inode, o.slot) == b
  }

  /** own lists exactly the blocks in use by inodes, each with the one slot that refers to it; all are marked. */
  ghost predicate Owned(d: Disk, own: map<int, Owner>) {
    && Shape(d) && |d.blocks| > 0 && d.bits[0]
    && (forall i, s {:trigger SlotOk(d, own, i, s)} :: 0 <= i < |d.inodes| && 0 <= s < SLOTS ==> SlotOk(d, own, i, s))
    && (forall b {:trigger OwnerOk(d, own, b)} :: b in own ==> OwnerOk(d, own, b))
  }

  /** Every file block below the size has a disk block. */
  ghost predicate Mapped(d: Disk, i: int, bn: int)
    requires Shape(d) && 0 <= i < |d.inodes|
  {
    0 <= bn < MAXFILE && bn * BSIZE < d.inodes[i].size ==> Slot(d, i, FileSlot(bn)) != 0
  }

  ghost predicate FileOk(d: Disk, i: int)
    requires Shape(d) && 0 <= i < |d.inodes|
  {
    0 <= d.inodes[i].size <= MAXFILE * BSIZE && forall bn {:trigger Mapped(d, i, bn)} :: Mapped(d, i, bn)
  }

  ghost predicate FilesOk(d: Disk)
    requires Shape(d)
  {
    forall i {:trigger FileOk(d, i)} :: 0 <= i < |d.inodes| ==> FileOk(d, i)
  }

  ghost predicate MetaAt(lay: Layout, d: Disk, b: int)
    requires 0 <= b < |d.bits| == |d.blocks|
  {
    b < lay.nmeta ==> d.bits[b] && d.blocks[b] == Zero()
  }

  /**
   The blocks before the data area are marked and belong to no file. What they hold is in bits and dinodes, or not
   modelled, so their contents do not count.
   */
  ghost predicate Apart(lay: Layout, d: Disk, own: map<int, Owner>)
    requires |d.bits| == |d.blocks|
  {
    && (forall b {:trigger MetaAt(lay, d, b)} :: 0 <= b < |d.blocks| ==> MetaAt(lay, d, b))
    && (forall b {:trigger b in own} :: b in own ==> lay.nmeta <= b)
  }

  /** All that holds between operations. */
  ghost predicate Sound(lay: Layout, d: Disk, own: map<int, Owner>) {
    Owned(d, own) && FilesOk(d) && LayoutOk(lay, |d.blocks|, |d.inodes|) && Apart(lay, d, own)
  }

  // ---- what ownership means ----

  /** Each non-zero block number occurs in one slot of one inode and is marked in the bitmap. */
  lemma OwnedOnce(d: Disk, own: map<int, Owner>, i: int, s: int, j: int, t: int)
    requires Owned(d, own) && 0 <= i < |d.inodes| && 0 <= s < SLOTS && 0 <= j < |d.inodes| && 0 <= t < SLOTS
    requires Slot(d, i, s) != 0
    ensures 0 < Slot(d, i, s) < |d.blocks| && d.bits[Slot(d, i, s)]
    ensures Slot(d, i, s) == Slot(d, j, t) ==> i == j && s == t
  {
    assert SlotOk(d, own, i, s) && SlotOk(d, own, j, t) && OwnerOk(d, own, Slot(d, i, s));
  }

  /** A block that is not marked belongs to nobody. */
  lemma FreeNotOwned(d: Disk, own: map<int, Owner>, b: int)
    requires Owned(d, own) && 0 <= b < |d.blocks| && !d.bits[b]
    ensures b != 0 && b !in own && forall i :: 0 <= i < |d.inodes| ==> d.inodes[i].addrs[NDIRECT] != b
  {
    assert b in own ==> OwnerOk(d, own, b);
    forall i | 0 <= i < |d.inodes|
      ensures d.inodes[i].addrs[NDIRECT] != b
    {
      assert SlotOk(d, own, i, NDIRECT);
      assert Slot(d, i, NDIRECT) == d.inodes[i].addrs[NDIRECT];
    }
  }

  // ---- steps on the disk ----

  /** balloc's effect: mark a block and zero it. */
  function Allocated(d: Disk, b: int): Disk
    requires 0 <= b < |d.bits| == |d.blocks|
  {
    d.(bits := d.bits[b := true], blocks := d.blocks[b := Zero()])
  }

  lemma AllocatedSlots(d: Disk, own: map<int, Owner>, b: int, i: int, s: int)
    requires Owned(d, own) && 0 <= b < |d.blocks| && !d.bits[b] && 0 <= i < |d.inodes| && 0 <= s < SLOTS
    ensures Shape(Allocated(d, b)) && Slot(Allocated(d, b), i, s) == Slot(d, i, s)
  {
    FreeNotOwned(d, own, b);
  }

  lemma AllocatedOwned(d: Disk, own: map<int, Owner>, b: int)
    requires Owned(d, own) && 0 <= b < |d.blocks| && !d.bits[b]
    ensures Owned(Allocated(d, b), own)
  {
    var d' := Allocated(d, b);
    FreeNotOwned(d, own, b);
    forall i, s | 0 <= i < |d'.inodes| && 0 <= s < SLOTS
      ensures SlotOk(d', own, i, s)
    {
      assert SlotOk(d, own, i, s);
      AllocatedSlots(d, own, b, i, s);
    }
    forall c | c in own
      ensures OwnerOk(d', own, c)
    {
      assert OwnerOk(d, own, c);
      AllocatedSlots(d, own, b, own[c].inode, own[c].slot);
    }
  }

  /** bmap's effect: enter block b in an empty slot. */
  ghost function Entered(d: Disk, i: int, s: int, b: int): Disk
    requires Shape(d) && 0 <= i < |d.inodes| && 0 <= s < SLOTS
  {
    var ip := d.inodes[i];
    if s <= NDIRECT then d.(inodes := d.inodes[i := ip.(addrs := ip.addrs[s := b])])
    else
      var ib := ip.addrs[NDIRECT];
      d.(blocks := d.blocks[ib := PutWord(d.blocks[ib], s - NDIRECT - 1, b)])
  }

  /** The slot is empty and reachable, and b is a marked block that nobody uses; a new indirect block is zero. */
  ghost predicate CanEnter(d: Disk, own: map<int, Owner>, i: int, s: int, b: int) {
    && Owned(d, own) && 0 <= i < |d.inodes| && 0 <= s < SLOTS && Slot(d, i, s) == 0
    && 0 < b < |d.blocks| && d.bits[b] && b !in own
    && (s == NDIRECT ==> d.blocks[b] == Zero())
    && (s > NDIRECT ==> d.inodes[i].addrs[NDIRECT] != 0)
  }

  lemma EnteredSlots(d: Disk, own: map<int, Owner>, i: int, s: int, b: int, j: int, t: int)
    requires CanEnter(d, own, i, s, b) && 0 <= j < |d.inodes| && 0 <= t < SLOTS
    ensures Shape(Entered(d, i, s, b))
    ensures Slot(Entered(d, i, s, b), j, t) == if i == j && s == t then b else Slot(d, j, t)
  {
    assert SlotOk(d, own, i, NDIRECT) && SlotOk(d, own, j, NDIRECT);
    assert Slot(d, i, NDIRECT) == d.inodes[i].addrs[NDIRECT] && Slot(d, j, NDIRECT) == d.inodes[j].addrs[NDIRECT];
    if s > NDIRECT && t > NDIRECT {
      WordPut(d.blocks[d.inodes[i].addrs[NDIRECT]], s - NDIRECT - 1, b, t - NDIRECT - 1);
    }
  }

  lemma EnteredOwned(d: Disk, own: map<int, Owner>, i: int, s: int, b: int)
    requires CanEnter(d, own, i, s, b)
    ensures Owned(Entered(d, i, s, b), own[b := Owner(i, s)])
  {
    var d', own' := Entered(d, i, s, b), own[b := Owner(i, s)];
    EnteredSlots(d, own, i, s, b, i, s);
    forall j, t | 0 <= j < |d'.inodes| && 0 <= t < SLOTS
      ensures SlotOk(d', own', j, t)
    {
      assert SlotOk(d, own, j, t);
      EnteredSlots(d, own, i, s, b, j, t);
    }
    forall c | c in own'
      ensures OwnerOk(d', own', c)
    {
      if c != b {
        assert OwnerOk(d, own, c);
        EnteredSlots(d, own, i, s, b, own[c].inode, own[c].slot);
      }
    }
  }

  // ---- what is logged ----

  ghost predicate BlockLogged(blocks: seq<Block>, blocks': seq<Block>, logged: set<int>, b: int)
    requires 0 <= b < |blocks| == |blocks'|
  {
    blocks'[b] == blocks[b] || b in logged
  }

  ghost predicate BitLogged(lay: Layout, bits: seq<bool>, bits': seq<bool>, logged: set<int>, b: int)
    requires 0 <= b < |bits| == |bits'|
  {
    bits'[b] == bits[b] || BBlock(lay, b) in logged
  }

  ghost predicate InodeLogged(lay: Layout, dinodes: seq<Inode>, dinodes': seq<Inode>, logged: set<int>, i: int)
    requires 0 <= i < |dinodes| == |dinodes'|
  {
    dinodes'[i] == dinodes[i] || IBlock(lay, i) in logged
  }

  /** Every block of the disk that differs between d and d' is in logged. */
  ghost predicate Recorded(lay: Layout, d: Disk, d': Disk, logged: set<int>) {
    && |d'.blocks| == |d.blocks| && |d'.bits| == |d.bits| && |d'.dinodes| == |d.dinodes|
    && (forall b {:trigger BlockLogged(d.blocks, d'.blocks, logged, b)} ::
          0 <= b < |d.blocks| ==> BlockLogged(d.blocks, d'.blocks, logged, b))
    && (forall b {:trigger BitLogged(lay, d.bits, d'.bits, logged, b)} ::
          0 <= b < |d.bits| ==> BitLogged(lay, d.bits, d'.bits, logged, b))
    && (forall i {:trigger InodeLogged(lay, d.dinodes, d'.dinodes, logged, i)} ::
          0 <= i < |d.dinodes| ==> InodeLogged(lay, d.dinodes, d'.dinodes, logged, i))
  }

  lemma RecordedRefl(lay: Layout, d: Disk, logged: set<int>)
    ensures Recorded(lay, d, d, logged)
  {
  }

  lemma RecordedTrans(lay: Layout, a: Disk, b: Disk, c: Disk, logged: set<int>, logged': set<int>)
    requires Recorded(lay, a, b, logged) && Recorded(lay, b, c, logged') && logged <= logged'
    ensures Recorded(lay, a, c, logged')
  {
    forall x | 0 <= x < |a.blocks|
      ensures BlockLogged(a.blocks, c.blocks, logged', x)
    {
      assert BlockLogged(a.blocks, b.blocks, logged, x) && BlockLogged(b.blocks, c.blocks, logged', x);
    }
    forall x | 0 <= x < |a.bits|
      ensures BitLogged(lay, a.bits, c.bits, logged', x)
    {
      assert BitLogged(lay, a.bits, b.bits, logged, x) && BitLogged(lay, b.bits, c.bits, logged', x);
    }
    forall i | 0 <= i < |a.dinodes|
      ensures InodeLogged(lay, a.dinodes, c.dinodes, logged', i)
    {
      assert InodeLogged(lay, a.dinodes, b.dinodes, logged, i) && InodeLogged(lay, b.dinodes, c.dinodes, logged', i);
    }
  }

  /** All but perhaps the block of byte p of file i. */
  ghost predicate RecordedBut(lay: Layout, d: Disk, d': Disk, logged: set<int>, i: int, p: int) {
    && Shape(d') && 0 <= i < |d'.inodes| && 0 <= p < MAXFILE * BSIZE && Slot(d', i, FileSlot(p / BSIZE)) != 0
    && Recorded(lay, d, d', logged + {Slot(d', i, FileSlot(p / BSIZE))})
  }

  /** What writei logs when r bytes were written and more were stored: all it changed, or all but one block. */
  ghost predicate WriteRecorded(lay: Layout, d: Disk, d': Disk, logged: set<int>, i: int, off: int, r: int,
                                stored: int) {
    if r == stored then Recorded(lay, d, d', logged) else RecordedBut(lay, d, d', logged, i, off + r)
  }

  /** In the second case every change is logged exactly if that block is logged after all, or has not changed. */
  lemma StrayBlock(lay: Layout, d: Disk, d': Disk, own: map<int, Owner>, logged: set<int>, i: int, p: int)
    requires RecordedBut(lay, d, d', logged, i, p) && Sound(lay, d', own) && |d.bits| == |d.blocks|
    ensures var a := Slot(d', i, FileSlot(p / BSIZE));
            && 0 <= a < |d'.blocks| == |d.blocks|
            && (Recorded(lay, d, d', logged) <==> a in logged || d'.blocks[a] == d.blocks[a])
  {
    var a := Slot(d', i, FileSlot(p / BSIZE));
    assert SlotOk(d', own, i, FileSlot(p / BSIZE));
    if Recorded(lay, d, d', logged) {
      assert BlockLogged(d.blocks, d'.blocks, logged, a);
    } else if a in logged || d'.blocks[a] == d.blocks[a] {
      forall b | 0 <= b < |d.blocks|
        ensures BlockLogged(d.blocks, d'.blocks, logged, b)
      {
        assert BlockLogged(d.blocks, d'.blocks, logged + {a}, b);
      }
      forall b | 0 <= b < |d.bits|
        ensures BitLogged(lay, d.bits, d'.bits, logged, b)
      {
        assert BitLogged(lay, d.bits, d'.bits, logged + {a}, b) && BBlock(lay, b) < lay.nmeta;
      }
      forall j | 0 <= j < |d.dinodes|
        ensures InodeLogged(lay, d.dinodes, d'.dinodes, logged, j)
      {
        assert InodeLogged(lay, d.dinodes, d'.dinodes, logged + {a}, j) && IBlock(lay, j) < lay.nmeta;
      }
    }
  }

  /** A round after rounds that logged all they changed. */
  lemma RoundRecorded(lay: Layout, a: Disk, b: Disk, c: Disk, logged: set<int>, logged': set<int>, i: int, p: int)
    requires Recorded(lay, a, b, logged) && logged <= logged'
    ensures Recorded(lay, b, c, logged') ==> Recorded(lay, a, c, logged')
    ensures RecordedBut(lay, b, c, logged', i, p) ==> RecordedBut(lay, a, c, logged', i, p)
  {
    if Recorded(lay, b, c, logged') {
      RecordedTrans(lay, a, b, c, logged, logged');
    }
    if RecordedBut(lay, b, c, logged', i, p) {
      RecordedTrans(lay, a, b, c, logged, logged' + {Slot(c, i, FileSlot(p / BSIZE))});
    }
  }

  /** A block that may be logged: a bitmap, inode or data block, and so none of the log's own. */
  predicate LoggableAt(lay: Layout, nblocks: int, ninodes: int, x: int) {
    || lay.bmapstart <= x <= lay.bmapstart + nblocks / BPB
    || lay.inodestart <= x <= lay.inodestart + ninodes / IPB
    || lay.nmeta <= x < nblocks
  }

  ghost predicate AllLoggable(lay: Layout, nblocks: int, ninodes: int, logged: set<int>) {
    forall x {:trigger LoggableAt(lay, nblocks, ninodes, x)} :: x in logged ==> LoggableAt(lay, nblocks, ninodes, x)
  }

  lemma AreasLoggable(lay: Layout, nblocks: int, ninodes: int, b: int, i: int)
    requires 0 <= b < nblocks && 0 <= i < ninodes
    ensures LoggableAt(lay, nblocks, ninodes, BBlock(lay, b)) && LoggableAt(lay, nblocks, ninodes, IBlock(lay, i))
  {
  }

  /** Only inode i changes in memory, and no inode on disk. */
  ghost predicate Touches(d: Disk, d': Disk, i: int) {
    0 <= i < |d.inodes| == |d'.inodes| && d'.inodes == d.inodes[i := d'.inodes[i]] && d'.dinodes == d.dinodes
  }

  lemma TouchesTrans(a: Disk, b: Disk, c: Disk, i: int)
    requires Touches(a, b, i) && Touches(b, c, i)
    ensures Touches(a, c, i)
  {
    assert a.inodes[i := b.inodes[i]][i := c.inodes[i]] == a.inodes[i := c.inodes[i]];
  }

  /** Only inode i changes, and on disk it is as in memory. */
  ghost predicate Updates(d: Disk, d': Disk, i: int) {
    && 0 <= i < |d.inodes| == |d'.inodes| == |d.dinodes|
    && d'.inodes == d.inodes[i := d'.inodes[i]] && d'.dinodes == d.dinodes[i := d'.inodes[i]]
  }

  /** The bits that differ are in bitmap blocks logged since then, and nothing else is. */
  ghost predicate BitsLogged(lay: Layout, bits: seq<bool>, bits': seq<bool>, before: set<int>, logged: set<int>) {
    && |bits'| == |bits| && before <= logged
    && (forall b {:trigger BitLogged(lay, bits, bits', logged, b)} ::
          0 <= b < |bits| ==> BitLogged(lay, bits, bits', logged, b))
    && (forall x {:trigger x in logged} ::
          x in logged && x !in before ==> lay.bmapstart <= x <= lay.bmapstart + (|bits| - 1) / BPB)
  }

  lemma BitsLoggedMore(lay: Layout, bits: seq<bool>, bits': seq<bool>, before: set<int>, logged: set<int>, b: int)
    requires BitsLogged(lay, bits, bits', before, logged) && 0 <= b < |bits|
    ensures BitsLogged(lay, bits, bits'[b := false], before, logged + {BBlock(lay, b)})
  {
    var bits'', logged' := bits'[b := false], logged + {BBlock(lay, b)};
    forall c | 0 <= c < |bits|
      ensures BitLogged(lay, bits, bits'', logged', c)
    {
      assert BitLogged(lay, bits, bits', logged, c);
    }
  }

  lemma BitsLoggedTrans(lay: Layout, a: seq<bool>, b: seq<bool>, c: seq<bool>, la: set<int>, lb: set<int>, lc: set<int>)
    requires BitsLogged(lay, a, b, la, lb) && BitsLogged(lay, b, c, lb, lc)
    ensures BitsLogged(lay, a, c, la, lc)
  {
    forall x | 0 <= x < |a|
      ensures BitLogged(lay, a, c, lc, x)
    {
      assert BitLogged(lay, a, b, lb, x) && BitLogged(lay, b, c, lc, x);
    }
  }

  /** balloc's and bmap's steps together. */
  lemma FilledOk(lay: Layout, d: Disk, own: map<int, Owner>, i: int, s: int, r: int, logged: set<int>)
    requires Sound(lay, d, own) && 0 <= i < |d.inodes| && 0 <= s < SLOTS && Slot(d, i, s) == 0
    requires s > NDIRECT ==> d.inodes[i].addrs[NDIRECT] != 0
    requires 0 < r < |d.blocks| && !d.bits[r] && r in logged && BBlock(lay, r) in logged
    requires s > NDIRECT ==> d.inodes[i].addrs[NDIRECT] in logged
    ensures Owned(Allocated(d, r), own) && Shape(Entered(Allocated(d, r), i, s, r)) && r !in own && lay.nmeta <= r
    ensures var d' := Entered(Allocated(d, r), i, s, r);
            && Sound(lay, d', own[r := Owner(i, s)]) && Keeps(d, d') && Touches(d, d', i)
            && Recorded(lay, d, d', logged)
            && (forall t :: 0 <= t < SLOTS ==> Slot(d', i, t) == if t == s then r else Slot(d, i, t))
  {
    var d1 := Allocated(d, r);
    FreeNotOwned(d, own, r);
    AllocatedOwned(d, own, r);
    AllocatedKeeps(d, own, r);
    forall t | 0 <= t < SLOTS
      ensures Slot(d1, i, t) == Slot(d, i, t)
    {
      AllocatedSlots(d, own, r, i, t);
    }
    assert CanEnter(d1, own, i, s, r);
    EnteredOwned(d1, own, i, s, r);
    EnteredKeeps(d1, own, i, s, r);
    var d' := Entered(d1, i, s, r);
    forall t | 0 <= t < SLOTS
      ensures Slot(d', i, t) == if t == s then r else Slot(d, i, t)
    {
      EnteredSlots(d1, own, i, s, r, i, t);
    }
    KeepsTrans(d, d1, d');
    KeepsAllFiles(d, d');
    FilledApart(lay, d, own, i, s, r);
    FilledRecorded(lay, d, i, s, r, logged);
  }

  lemma FilledApart(lay: Layout, d: Disk, own: map<int, Owner>, i: int, s: int, r: int)
    requires Sound(lay, d, own) && 0 <= i < |d.inodes| && 0 <= s < SLOTS && 0 < r < |d.blocks| && !d.bits[r]
    requires s > NDIRECT ==> d.inodes[i].addrs[NDIRECT] != 0
    requires Shape(Allocated(d, r))
    ensures lay.nmeta <= r && Apart(lay, Entered(Allocated(d, r), i, s, r), own[r := Owner(i, s)])
  {
    var d' := Entered(Allocated(d, r), i, s, r);
    assert MetaAt(lay, d, r);
    assert SlotOk(d, own, i, NDIRECT) && Slot(d, i, NDIRECT) == d.inodes[i].addrs[NDIRECT];
    forall b | 0 <= b < |d'.blocks|
      ensures MetaAt(lay, d', b)
    {
      assert MetaAt(lay, d, b);
    }
  }

  lemma FilledRecorded(lay: Layout, d: Disk, i: int, s: int, r: int, logged: set<int>)
    requires Shape(d) && 0 <= i < |d.inodes| && 0 <= s < SLOTS && 0 < r < |d.blocks| && Shape(Allocated(d, r))
    requires r in logged && BBlock(lay, r) in logged && (s > NDIRECT ==> d.inodes[i].addrs[NDIRECT] in logged)
    ensures Recorded(lay, d, Entered(Allocated(d, r), i, s, r), logged)
  {
    var d' := Entered(Allocated(d, r), i, s, r);
    assert forall b :: 0 <= b < |d.blocks| ==> BlockLogged(d.blocks, d'.blocks, logged, b);
    assert forall b :: 0 <= b < |d.bits| ==> BitLogged(lay, d.bits, d'.bits, logged, b);
    assert forall j :: 0 <= j < |d.dinodes| ==> InodeLogged(lay, d.dinodes, d'.dinodes, logged, j);
  }

  // ---- file contents ----

  ghost function ByteAt(d: Disk, i: int, k: int): int
    requires Shape(d) && 0 <= i < |d.inodes| && 0 <= k < MAXFILE * BSIZE
  {
    var a := Slot(d, i, FileSlot(k / BSIZE));
    if 0 <= a < |d.blocks| then d.blocks[a][k % BSIZE] else 0
  }

  /** The file as a plain sequence of bytes. */
  ghost function Contents(d: Disk, i: int): (r: seq<int>)
    requires Shape(d) && 0 <= i < |d.inodes| && 0 <= d.inodes[i].size <= MAXFILE * BSIZE
    ensures |r| == d.inodes[i].size
  {
    seq(d.inodes[i].size, k requires 0 <= k < d.inodes[i].size => ByteAt(d, i, k))
  }

  /** c is the file, said byte by byte. */
  ghost predicate HasBytes(d: Disk, i: int, c: seq<int>)
    requires Shape(d) && 0 <= i < |d.inodes|
  {
    |c| == d.inodes[i].size <= MAXFILE * BSIZE &&
      forall k {:trigger HasByte(d, i, c, k)} :: 0 <= k < |c| ==> HasByte(d, i, c, k)
  }

  ghost predicate HasByte(d: Disk, i: int, c: seq<int>, k: int)
    requires Shape(d) && 0 <= i < |d.inodes| && 0 <= k < |c| <= MAXFILE * BSIZE
  {
    c[k] == ByteAt(d, i, k)
  }

  /** A file block that had a disk block still has it, with the same contents. */
  ghost predicate KeepsAt(d: Disk, d': Disk, i: int, bn: int)
    requires Shape(d) && Shape(d') && |d'.inodes| == |d.inodes| && 0 <= i < |d.inodes| && 0 <= bn < MAXFILE
  {
    var a := Slot(d, i, FileSlot(bn));
    a != 0 ==> Slot(d', i, FileSlot(bn)) == a && 0 <= a < |d.blocks| == |d'.blocks| && d'.blocks[a] == d.blocks[a]
  }

  ghost predicate KeepsFile(d: Disk, d': Disk, i: int)
    requires Shape(d) && Shape(d') && |d'.inodes| == |d.inodes| && 0 <= i < |d.inodes|
  {
    d'.inodes[i].size == d.inodes[i].size &&
      forall bn {:trigger KeepsAt(d, d', i, bn)} :: 0 <= bn < MAXFILE ==> KeepsAt(d, d', i, bn)
  }

  /** No file changes. */
  ghost predicate Keeps(d: Disk, d': Disk) {
    && Shape(d) && Shape(d') && |d'.inodes| == |d.inodes| && |d'.blocks| == |d.blocks|
    && forall i {:trigger KeepsFile(d, d', i)} :: 0 <= i < |d.inodes| ==> KeepsFile(d, d', i)
  }

  lemma KeepsFileContents(d: Disk, d': Disk, i: int)
    requires Shape(d) && Shape(d') && |d'.inodes| == |d.inodes| && 0 <= i < |d.inodes| && FileOk(d, i) &&
             KeepsFile(d, d', i)
    ensures FileOk(d', i) && Contents(d', i) == Contents(d, i)
  {
    forall bn
      ensures Mapped(d', i, bn)
    {
      assert Mapped(d, i, bn);
      assert 0 <= bn < MAXFILE ==> KeepsAt(d, d', i, bn);
    }
    forall k | 0 <= k < d.inodes[i].size
      ensures ByteAt(d', i, k) == ByteAt(d, i, k)
    {
      assert Mapped(d, i, k / BSIZE) && KeepsAt(d, d', i, k / BSIZE);
    }
  }

  lemma AllocatedKeeps(d: Disk, own: map<int, Owner>, b: int)
    requires Owned(d, own) && 0 <= b < |d.blocks| && !d.bits[b]
    ensures Keeps(d, Allocated(d, b))
  {
    var d' := Allocated(d, b);
    FreeNotOwned(d, own, b);
    forall i | 0 <= i < |d.inodes|
      ensures KeepsFile(d, d', i)
    {
      forall bn | 0 <= bn < MAXFILE
        ensures KeepsAt(d, d', i, bn)
      {
        AllocatedSlots(d, own, b, i, FileSlot(bn));
        assert SlotOk(d, own, i, FileSlot(bn));
      }
    }
  }

  lemma EnteredKeeps(d: Disk, own: map<int, Owner>, i: int, s: int, b: int)
    requires CanEnter(d, own, i, s, b)
    ensures Keeps(d, Entered(d, i, s, b))
  {
    var d' := Entered(d, i, s, b);
    EnteredSlots(d, own, i, s, b, i, s);
    assert SlotOk(d, own, i, NDIRECT) && Slot(d, i, NDIRECT) == d.inodes[i].addrs[NDIRECT];
    forall j | 0 <= j < |d.inodes|
      ensures KeepsFile(d, d', j)
    {
      forall bn | 0 <= bn < MAXFILE
        ensures KeepsAt(d, d', j, bn)
      {
        EnteredSlots(d, own, i, s, b, j, FileSlot(bn));
        assert SlotOk(d, own, j, FileSlot(bn));
      }
    }
  }

  lemma KeepsRefl(d: Disk, own: map<int, Owner>)
    requires Owned(d, own)
    ensures Keeps(d, d)
  {
    forall i, bn | 0 <= i < |d.inodes| && 0 <= bn < MAXFILE
      ensures KeepsAt(d, d, i, bn)
    {
      assert SlotOk(d, own, i, FileSlot(bn));
    }
    forall i | 0 <= i < |d.inodes|
      ensures KeepsFile(d, d, i)
    {
    }
  }

  lemma KeepsTrans(a: Disk, b: Disk, c: Disk)
    requires Keeps(a, b) && Keeps(b, c)
    ensures Keeps(a, c)
  {
    forall i | 0 <= i < |a.inodes|
      ensures KeepsFile(a, c, i)
    {
      assert KeepsFile(a, b, i) && KeepsFile(b, c, i);
      forall bn | 0 <= bn < MAXFILE
        ensures KeepsAt(a, c, i, bn)
      {
        assert KeepsAt(a, b, i, bn) && KeepsAt(b, c, i, bn);
      }
    }
  }

  lemma KeepsAllFiles(d: Disk, d': Disk)
    requires Keeps(d, d') && FilesOk(d)
    ensures FilesOk(d') &&
            forall i :: 0 <= i < |d.inodes| ==> FileOk(d, i) && FileOk(d', i) && Contents(d', i) == Contents(d, i)
  {
    forall i | 0 <= i < |d.inodes|
      ensures FileOk(d, i) && FileOk(d', i) && Contents(d', i) == Contents(d, i)
    {
      assert FileOk(d, i) && KeepsFile(d, d', i);
      KeepsFileContents(d, d', i);
    }
  }

  /** The inode's addresses in use stay as they are. */
  ghost predicate SlotsKept(d: Disk, d': Disk, i: int)
    requires Shape(d) && Shape(d') && 0 <= i < |d.inodes| == |d'.inodes|
  {
    forall t {:trigger Slot(d', i, t)} :: 0 <= t < SLOTS && Slot(d, i, t) != 0 ==> Slot(d', i, t) == Slot(d, i, t)
  }

  /** A block that a write of file blocks lo to hi may log: bitmap, inode, indirect or data block. */
  ghost predicate MayLog(d: Disk, bitmap: int, iblock: int, i: int, lo: int, hi: int, x: int)
    requires Shape(d) && 0 <= i < |d.inodes|
  {
    || x == bitmap || x == iblock || (x != 0 && x == Slot(d, i, NDIRECT))
    || exists bn :: lo <= bn <= hi && 0 <= bn < MAXFILE && IsData(d, i, bn, x)
  }

  ghost predicate IsData(d: Disk, i: int, bn: int, x: int)
    requires Shape(d) && 0 <= i < |d.inodes| && 0 <= bn < MAXFILE
  {
    x != 0 && x == Slot(d, i, FileSlot(bn))
  }

  lemma MayLogKept(d: Disk, d': Disk, bitmap: int, iblock: int, i: int, lo: int, hi: int, x: int)
    requires Shape(d) && Shape(d') && 0 <= i < |d.inodes| == |d'.inodes| && SlotsKept(d, d', i)
    requires MayLog(d, bitmap, iblock, i, lo, hi, x)
    ensures MayLog(d', bitmap, iblock, i, lo, hi, x)
  {
    assert Slot(d', i, NDIRECT) == Slot(d', i, NDIRECT);
    if bn :| lo <= bn <= hi && 0 <= bn < MAXFILE && IsData(d, i, bn, x) {
      assert Slot(d', i, FileSlot(bn)) == x;
      assert IsData(d', i, bn, x);
    }
  }

  // ---- writing into a data block ----

  function Splice(blk: Block, o: int, bytes: seq<int>): (r: Block)
    requires 0 <= o && o + |bytes| <= |blk|
    ensures |r| == |blk|
    ensures forall k :: 0 <= k < |blk| ==> r[k] == if o <= k < o + |bytes| then bytes[k - o] else blk[k]
  {
    blk[..o] + bytes + blk[o + |bytes|..]
  }

  function Wrote(d: Disk, a: int, o: int, bytes: seq<int>): Disk
    requires 0 <= a < |d.blocks| && 0 <= o && o + |bytes| <= |d.blocks[a]|
  {
    d.(blocks := d.blocks[a := Splice(d.blocks[a], o, bytes)])
  }

  /** Bytes go into the disk block of file block bn of inode i. */
  ghost predicate CanWrite(d: Disk, own: map<int, Owner>, i: int, bn: int, o: int, bytes: seq<int>) {
    && Owned(d, own) && 0 <= i < |d.inodes| && 0 <= bn < MAXFILE && Slot(d, i, FileSlot(bn)) != 0
    && 0 <= o && o + |bytes| <= BSIZE
  }

  lemma WroteSlots(d: Disk, own: map<int, Owner>, i: int, bn: int, o: int, bytes: seq<int>, j: int, t: int)
    requires CanWrite(d, own, i, bn, o, bytes) && 0 <= j < |d.inodes| && 0 <= t < SLOTS
    ensures 0 < Slot(d, i, FileSlot(bn)) < |d.blocks|
    ensures Shape(Wrote(d, Slot(d, i, FileSlot(bn)), o, bytes))
    ensures Slot(Wrote(d, Slot(d, i, FileSlot(bn)), o, bytes), j, t) == Slot(d, j, t)
  {
    OwnedOnce(d, own, i, FileSlot(bn), j, NDIRECT);
    assert Slot(d, j, NDIRECT) == d.inodes[j].addrs[NDIRECT];
  }

  lemma WroteOwned(d: Disk, own: map<int, Owner>, i: int, bn: int, o: int, bytes: seq<int>)
    requires CanWrite(d, own, i, bn, o, bytes)
    ensures 0 < Slot(d, i, FileSlot(bn)) < |d.blocks| && Owned(Wrote(d, Slot(d, i, FileSlot(bn)), o, bytes), own)
  {
    WroteSlots(d, own, i, bn, o, bytes, i, 0);
    var d' := Wrote(d, Slot(d, i, FileSlot(bn)), o, bytes);
    forall j, t | 0 <= j < |d'.inodes| && 0 <= t < SLOTS
      ensures SlotOk(d', own, j, t)
    {
      assert SlotOk(d, own, j, t);
      WroteSlots(d, own, i, bn, o, bytes, j, t);
    }
    forall c | c in own
      ensures OwnerOk(d', own, c)
    {
      assert OwnerOk(d, own, c);
      WroteSlots(d, own, i, bn, o, bytes, own[c].inode, own[c].slot);
    }
  }

  lemma WroteSound(lay: Layout, d: Disk, own: map<int, Owner>, i: int, bn: int, o: int, bytes: seq<int>,
                   logged: set<int>)
    requires Sound(lay, d, own) && CanWrite(d, own, i, bn, o, bytes) && Slot(d, i, FileSlot(bn)) in logged
    ensures lay.nmeta <= Slot(d, i, FileSlot(bn)) < |d.blocks|
    ensures var d' := Wrote(d, Slot(d, i, FileSlot(bn)), o, bytes);
            Owned(d', own) && Apart(lay, d', own) && Recorded(lay, d, d', logged)
  {
    WroteOwned(d, own, i, bn, o, bytes);
    assert SlotOk(d, own, i, FileSlot(bn));
    var d' := Wrote(d, Slot(d, i, FileSlot(bn)), o, bytes);
    forall b | 0 <= b < |d'.blocks|
      ensures MetaAt(lay, d', b)
    {
      assert MetaAt(lay, d, b);
    }
    assert forall b :: 0 <= b < |d.blocks| ==> BlockLogged(d.blocks, d'.blocks, logged, b);
    assert forall b :: 0 <= b < |d.bits| ==> BitLogged(lay, d.bits, d'.bits, logged, b);
    assert forall j :: 0 <= j < |d.dinodes| ==> InodeLogged(lay, d.dinodes, d'.dinodes, logged, j);
  }

  /** Other files do not change. */
  lemma WroteOthers(d: Disk, own: map<int, Owner>, i: int, bn: int, o: int, bytes: seq<int>, j: int)
    requires CanWrite(d, own, i, bn, o, bytes) && 0 <= j < |d.inodes| && j != i
    ensures 0 < Slot(d, i, FileSlot(bn)) < |d.blocks| && Shape(Wrote(d, Slot(d, i, FileSlot(bn)), o, bytes))
    ensures KeepsFile(d, Wrote(d, Slot(d, i, FileSlot(bn)), o, bytes), j)
  {
    WroteSlots(d, own, i, bn, o, bytes, i, 0);
    var d' := Wrote(d, Slot(d, i, FileSlot(bn)), o, bytes);
    forall c | 0 <= c < MAXFILE
      ensures KeepsAt(d, d', j, c)
    {
      WroteSlots(d, own, i, bn, o, bytes, j, FileSlot(c));
      OwnedOnce(d, own, i, FileSlot(bn), j, FileSlot(c));
      assert SlotOk(d, own, j, FileSlot(c));
    }
  }

  /** Of the file itself exactly the written bytes change. */
  lemma WroteByte(d: Disk, own: map<int, Owner>, i: int, bn: int, o: int, bytes: seq<int>, k: int)
    requires CanWrite(d, own, i, bn, o, bytes) && 0 <= k < MAXFILE * BSIZE
    ensures 0 < Slot(d, i, FileSlot(bn)) < |d.blocks| && Shape(Wrote(d, Slot(d, i, FileSlot(bn)), o, bytes))
    ensures var p := bn * BSIZE + o;
            ByteAt(Wrote(d, Slot(d, i, FileSlot(bn)), o, bytes), i, k) == if p <= k < p + |bytes| then bytes[k - p]
              else ByteAt(d, i, k)
  {
    WroteSlots(d, own, i, bn, o, bytes, i, FileSlot(k / BSIZE));
    OwnedOnce(d, own, i, FileSlot(bn), i, FileSlot(k / BSIZE));
    assert k == BSIZE * (k / BSIZE) + k % BSIZE;
  }

  // ---- a write in progress ----

  /** Every file block that reaches below n has a disk block. */
  ghost predicate MappedTo(d: Disk, i: int, n: int)
    requires Shape(d) && 0 <= i < |d.inodes|
  {
    forall bn {:trigger Slot(d, i, FileSlot(bn))} :: 0 <= bn < MAXFILE && bn * BSIZE < n ==>
      Slot(d, i, FileSlot(bn)) != 0
  }

  /** Byte k of the file once the first tot bytes of src are written at off. */
  ghost predicate ByteDone(d0: Disk, d: Disk, i: int, off: int, src: seq<int>, tot: int, k: int)
    requires Shape(d0) && Shape(d) && 0 <= i < |d0.inodes| == |d.inodes| && 0 <= k < MAXFILE * BSIZE &&
             0 <= tot <= |src|
  {
    ByteAt(d, i, k) == if off <= k < off + tot then src[k - off] else ByteAt(d0, i, k)
  }

  /** The state of writei's loop: tot bytes of src are in the file, nothing else has changed. */
  ghost predicate Progress(d0: Disk, d: Disk, i: int, off: int, src: seq<int>, tot: int) {
    && Shape(d0) && Shape(d) && 0 <= i < |d0.inodes| == |d.inodes| && |d.blocks| == |d0.blocks| && 0 <= tot <= |src|
    && d.inodes[i].size == d0.inodes[i].size && SlotsKept(d0, d, i)
    && MappedTo(d, i, d0.inodes[i].size) && MappedTo(d, i, off + tot)
    && (forall j {:trigger KeepsFile(d0, d, j)} :: 0 <= j < |d0.inodes| && j != i ==> KeepsFile(d0, d, j))
    && (forall k {:trigger ByteDone(d0, d, i, off, src, tot, k)} ::
          0 <= k < MAXFILE * BSIZE && (k < d0.inodes[i].size || k < off + tot) ==> ByteDone(d0, d, i, off, src, tot, k))
  }

  lemma KeepsFileTrans(a: Disk, b: Disk, c: Disk, j: int)
    requires Shape(a) && Shape(b) && Shape(c) && 0 <= j < |a.inodes| == |b.inodes| == |c.inodes|
    requires KeepsFile(a, b, j) && KeepsFile(b, c, j)
    ensures KeepsFile(a, c, j)
  {
    forall bn | 0 <= bn < MAXFILE
      ensures KeepsAt(a, c, j, bn)
    {
      assert KeepsAt(a, b, j, bn) && KeepsAt(b, c, j, bn);
    }
  }

  /** bmap leaves a write in progress as it is. */
  lemma ProgressKept(d0: Disk, d: Disk, d': Disk, i: int, off: int, src: seq<int>, tot: int)
    requires Progress(d0, d, i, off, src, tot) && Keeps(d, d') && SlotsKept(d, d', i) && 0 <= off <= d0.inodes[i].size
    ensures Progress(d0, d', i, off, src, tot)
  {
    assert KeepsFile(d, d', i);
    forall t | 0 <= t < SLOTS && Slot(d0, i, t) != 0
      ensures Slot(d', i, t) == Slot(d0, i, t)
    {
      assert Slot(d, i, t) == Slot(d0, i, t);
    }
    forall bn | 0 <= bn < MAXFILE && (bn * BSIZE < d0.inodes[i].size || bn * BSIZE < off + tot)
      ensures Slot(d', i, FileSlot(bn)) != 0
    {
      assert Slot(d, i, FileSlot(bn)) != 0;
    }
    forall j | 0 <= j < |d0.inodes| && j != i
      ensures KeepsFile(d0, d', j)
    {
      assert KeepsFile(d0, d, j) && KeepsFile(d, d', j);
      KeepsFileTrans(d0, d, d', j);
    }
    forall k | 0 <= k < MAXFILE * BSIZE && (k < d0.inodes[i].size || k < off + tot)
      ensures ByteDone(d0, d', i, off, src, tot, k)
    {
      assert ByteDone(d0, d, i, off, src, tot, k) && KeepsAt(d, d', i, k / BSIZE);
      assert Slot(d, i, FileSlot(k / BSIZE)) != 0;
    }
  }

  /** Writing the next chunk, which lies in one block. */
  lemma ProgressMade(d0: Disk, d: Disk, own: map<int, Owner>, i: int, off: int, src: seq<int>, tot: int, m: int)
    requires Progress(d0, d, i, off, src, tot) && 0 <= off <= d0.inodes[i].size && 0 < m && tot + m <= |src| &&
             off + tot + m <= MAXFILE * BSIZE
    requires (off + tot) % BSIZE + m <= BSIZE
    requires CanWrite(d, own, i, (off + tot) / BSIZE, (off + tot) % BSIZE, src[tot..tot + m])
    ensures var a := Slot(d, i, FileSlot((off + tot) / BSIZE));
            0 < a < |d.blocks| &&
              Progress(d0, Wrote(d, a, (off + tot) % BSIZE, src[tot..tot + m]), i, off, src, tot + m)
  {
    var bn, o, bytes := (off + tot) / BSIZE, (off + tot) % BSIZE, src[tot..tot + m];
    WroteSlots(d, own, i, bn, o, bytes, i, 0);
    var d' := Wrote(d, Slot(d, i, FileSlot(bn)), o, bytes);
    forall t | 0 <= t < SLOTS
      ensures Slot(d', i, t) == Slot(d, i, t)
    {
      WroteSlots(d, own, i, bn, o, bytes, i, t);
    }
    forall t | 0 <= t < SLOTS && Slot(d0, i, t) != 0
      ensures Slot(d', i, t) == Slot(d0, i, t)
    {
      assert Slot(d, i, t) == Slot(d0, i, t);
    }
    forall c | 0 <= c < MAXFILE && (c * BSIZE < d0.inodes[i].size || c * BSIZE < off + tot + m)
      ensures Slot(d', i, FileSlot(c)) != 0
    {
      assert c * BSIZE < d0.inodes[i].size || c * BSIZE < off + tot || c == bn;
      assert Slot(d, i, FileSlot(c)) != 0;
    }
    forall j | 0 <= j < |d0.inodes| && j != i
      ensures KeepsFile(d0, d', j)
    {
      assert KeepsFile(d0, d, j);
      WroteOthers(d, own, i, bn, o, bytes, j);
      KeepsFileTrans(d0, d, d', j);
    }
    var tot' := tot + m;
    forall k | 0 <= k < MAXFILE * BSIZE && (k < d0.inodes[i].size || k < off + tot')
      ensures ByteDone(d0, d', i, off, src, tot', k)
    {
      WroteByte(d, own, i, bn, o, bytes, k);
      assert k < d0.inodes[i].size || k < off + tot ==> ByteDone(d0, d, i, off, src, tot, k);
    }
  }

  /** A write in progress does not disturb the size and mapping of any file. */
  lemma ProgressFilesOk(d0: Disk, d: Disk, i: int, off: int, src: seq<int>, tot: int)
    requires Progress(d0, d, i, off, src, tot) && FilesOk(d0)
    ensures FilesOk(d)
  {
    forall j | 0 <= j < |d.inodes|
      ensures FileOk(d, j)
    {
      assert FileOk(d0, j);
      if j != i {
        assert KeepsFile(d0, d, j);
        KeepsFileContents(d0, d, j);
      } else {
        forall bn
          ensures Mapped(d, i, bn)
        {
          assert 0 <= bn < MAXFILE && bn * BSIZE < d.inodes[i].size ==> Slot(d, i, FileSlot(bn)) != 0;
        }
      }
    }
  }

  lemma ProgressStarts(d: Disk, own: map<int, Owner>, i: int, off: int, src: seq<int>)
    requires Owned(d, own) && FilesOk(d) && 0 <= i < |d.inodes| && 0 <= off <= d.inodes[i].size
    ensures Progress(d, d, i, off, src, 0)
  {
    KeepsRefl(d, own);
    assert FileOk(d, i);
    forall bn | 0 <= bn < MAXFILE && bn * BSIZE < d.inodes[i].size
      ensures Slot(d, i, FileSlot(bn)) != 0
    {
      assert Mapped(d, i, bn);
    }
  }

  function Max(a: int, b: int): int {
    if a < b then b else a
  }

  /** The size that writei records, and iupdate. */
  function Resized(d: Disk, i: int, size: int): Disk
    requires 0 <= i < |d.inodes| == |d.dinodes|
  {
    var ip := d.inodes[i].(size := size);
    d.(inodes := d.inodes[i := ip], dinodes := d.dinodes[i := ip])
  }

  lemma ResizedSlots(d: Disk, i: int, size: int, j: int, t: int)
    requires Shape(d) && 0 <= i < |d.inodes| && 0 <= j < |d.inodes| && 0 <= t < SLOTS
    ensures Shape(Resized(d, i, size)) && Slot(Resized(d, i, size), j, t) == Slot(d, j, t)
  {
  }

  lemma ResizedOwned(d: Disk, own: map<int, Owner>, i: int, size: int)
    requires Owned(d, own) && 0 <= i < |d.inodes|
    ensures Owned(Resized(d, i, size), own)
  {
    var d' := Resized(d, i, size);
    forall j, t | 0 <= j < |d'.inodes| && 0 <= t < SLOTS
      ensures SlotOk(d', own, j, t)
    {
      assert SlotOk(d, own, j, t);
      ResizedSlots(d, i, size, j, t);
    }
    forall c | c in own
      ensures OwnerOk(d', own, c)
    {
      assert OwnerOk(d, own, c);
      ResizedSlots(d, i, size, own[c].inode, own[c].slot);
    }
  }

  lemma ResizedSound(lay: Layout, d0: Disk, d: Disk, own: map<int, Owner>, i: int, size: int, logged: set<int>,
                     off: int, r: int, stored: int)
    requires Sound(lay, d, own) && 0 <= i < |d.inodes| && Touches(d0, d, i) && |d0.dinodes| == |d0.inodes|
    requires WriteRecorded(lay, d0, d, logged, i, off, r, stored)
    ensures var d' := Resized(d, i, size);
            && Owned(d', own) && Apart(lay, d', own) && Updates(d0, d', i)
            && WriteRecorded(lay, d0, d', logged + {IBlock(lay, i)}, i, off, r, stored)
  {
    var d', logged' := Resized(d, i, size), logged + {IBlock(lay, i)};
    ResizedOwned(d, own, i, size);
    forall b | 0 <= b < |d'.blocks|
      ensures MetaAt(lay, d', b)
    {
      assert MetaAt(lay, d, b);
    }
    assert d0.inodes[i := d.inodes[i]][i := d'.inodes[i]] == d0.inodes[i := d'.inodes[i]];
    if r == stored {
      ResizedRecorded(lay, d, i, size, logged');
      RecordedTrans(lay, d0, d, d', logged, logged');
    } else {
      var s := FileSlot((off + r) / BSIZE);
      var a := Slot(d, i, s);
      ResizedSlots(d, i, size, i, s);
      ResizedRecorded(lay, d, i, size, logged' + {a});
      RecordedTrans(lay, d0, d, d', logged + {a}, logged' + {a});
    }
  }

  lemma ResizedRecorded(lay: Layout, d: Disk, i: int, size: int, logged: set<int>)
    requires 0 <= i < |d.inodes| == |d.dinodes| && IBlock(lay, i) in logged
    ensures Recorded(lay, d, Resized(d, i, size), logged)
  {
    var d' := Resized(d, i, size);
    assert forall b :: 0 <= b < |d.blocks| ==> BlockLogged(d.blocks, d'.blocks, logged, b);
    assert forall b :: 0 <= b < |d.bits| ==> BitLogged(lay, d.bits, d'.bits, logged, b);
    assert forall j :: 0 <= j < |d.dinodes| ==> InodeLogged(lay, d.dinodes, d'.dinodes, logged, j);
  }

  /** A plain byte sequence with the given bytes written at off, which is at most its length. */
  function Overwritten(old_: seq<int>, off: int, bytes: seq<int>): seq<int>
    requires 0 <= off <= |old_|
  {
    old_[..off] + bytes + (if off + |bytes| < |old_| then old_[off + |bytes|..] else [])
  }

  ghost predicate SameFile(d0: Disk, d: Disk, j: int)
    requires Shape(d0) && Shape(d) && 0 <= j < |d0.inodes| == |d.inodes|
  {
    FileOk(d0, j) && FileOk(d, j) && Contents(d, j) == Contents(d0, j)
  }

  /** Every file but i has the same bytes. */
  ghost predicate OthersSame(d0: Disk, d: Disk, i: int)
    requires Shape(d0) && Shape(d) && |d0.inodes| == |d.inodes|
  {
    forall j {:trigger SameFile(d0, d, j)} :: 0 <= j < |d.inodes| && j != i ==> SameFile(d0, d, j)
  }

  /** The byte sequence of file i is overwritten and cut off at size, every other file is as it was. */
  ghost predicate WriteCut(d0: Disk, d: Disk, i: int, off: int, bytes: seq<int>, size: int) {
    && Shape(d0) && Shape(d) && FilesOk(d0) && FilesOk(d) && 0 <= i < |d0.inodes| == |d.inodes|
    && FileOk(d0, i) && FileOk(d, i) && 0 <= off <= d0.inodes[i].size <= size <= Max(d0.inodes[i].size, off + |bytes|)
    && Contents(d, i) == Overwritten(Contents(d0, i), off, bytes)[..size]
    && OthersSame(d0, d, i)
  }

  /** What writei leaves behind: the byte sequence of file i overwritten, every other file as it was. */
  ghost predicate WriteDone(d0: Disk, d: Disk, i: int, off: int, bytes: seq<int>) {
    && Shape(d0) && Shape(d) && FilesOk(d0) && FilesOk(d) && 0 <= i < |d0.inodes| == |d.inodes|
    && FileOk(d0, i) && FileOk(d, i) && 0 <= off <= d0.inodes[i].size
    && Contents(d, i) == Overwritten(Contents(d0, i), off, bytes)
    && OthersSame(d0, d, i)
  }

  lemma CutNothing(d0: Disk, d: Disk, i: int, off: int, bytes: seq<int>, size: int)
    requires WriteCut(d0, d, i, off, bytes, size) && size == Max(d0.inodes[i].size, off + |bytes|)
    ensures WriteDone(d0, d, i, off, bytes)
  {
    var c := Overwritten(Contents(d0, i), off, bytes);
    assert c[..|c|] == c;
  }

  /** A size that the bytes stored reach leaves no hole in the file */
  lemma ProgressMapped(d0: Disk, d: Disk, i: int, off: int, src: seq<int>, tot: int, size: int)
    requires Progress(d0, d, i, off, src, tot) && 0 <= size <= Max(d0.inodes[i].size, off + tot)
    requires size <= MAXFILE * BSIZE
    ensures Shape(Resized(d, i, size)) && FileOk(Resized(d, i, size), i)
  {
    var d' := Resized(d, i, size);
    ResizedSlots(d, i, size, i, 0);
    forall bn
      ensures Mapped(d', i, bn)
    {
      if 0 <= bn < MAXFILE {
        ResizedSlots(d, i, size, i, FileSlot(bn));
        assert bn * BSIZE < size ==> Slot(d, i, FileSlot(bn)) != 0;
      }
    }
  }

  /** and makes its contents the old ones with the new bytes in them. */
  lemma ProgressContents(d0: Disk, d: Disk, i: int, off: int, src: seq<int>, tot: int, size: int)
    requires Progress(d0, d, i, off, src, tot) && d0.inodes[i].size <= size <= Max(d0.inodes[i].size, off + tot)
    requires size <= MAXFILE * BSIZE && 0 <= off <= d0.inodes[i].size && Shape(Resized(d, i, size))
    ensures Contents(Resized(d, i, size), i) == Overwritten(Contents(d0, i), off, src[..tot])[..size]
  {
    var d' := Resized(d, i, size);
    forall k | 0 <= k < size
      ensures ByteAt(d', i, k) == if off <= k < off + tot then src[k - off] else ByteAt(d0, i, k)
    {
      ResizedSlots(d, i, size, i, FileSlot(k / BSIZE));
      assert ByteDone(d0, d, i, off, src, tot, k);
    }
  }

  lemma ProgressEnds(d0: Disk, d: Disk, own: map<int, Owner>, i: int, off: int, src: seq<int>, tot: int, size: int)
    requires Owned(d, own) && Progress(d0, d, i, off, src, tot) && FilesOk(d0)
    requires 0 <= off <= d0.inodes[i].size <= size <= Max(d0.inodes[i].size, off + tot) && size <= MAXFILE * BSIZE
    ensures WriteCut(d0, Resized(d, i, size), i, off, src[..tot], size)
  {
    assert FileOk(d0, i);
    ProgressMapped(d0, d, i, off, src, tot, size);
    ProgressContents(d0, d, i, off, src, tot, size);
    ProgressOthers(d0, d, own, i, off, src, tot, size);
    var d' := Resized(d, i, size);
    forall j | 0 <= j < |d'.inodes|
      ensures FileOk(d', j)
    {
      assert j != i ==> SameFile(d0, d', j);
    }
  }

  lemma ProgressOthers(d0: Disk, d: Disk, own: map<int, Owner>, i: int, off: int, src: seq<int>, tot: int, size: int)
    requires Owned(d, own) && Progress(d0, d, i, off, src, tot) && FilesOk(d0)
    ensures Shape(Resized(d, i, size)) && OthersSame(d0, Resized(d, i, size), i)
  {
    var d' := Resized(d, i, size);
    ResizedSlots(d, i, size, i, 0);
    forall j | 0 <= j < |d.inodes| && j != i
      ensures SameFile(d0, d', j)
    {
      assert FileOk(d0, j) && KeepsFile(d0, d, j);
      ResizedKeeps(d, own, i, size, j);
      KeepsFileTrans(d0, d, d', j);
      KeepsFileContents(d0, d', j);
    }
  }

  lemma ResizedKeeps(d: Disk, own: map<int, Owner>, i: int, size: int, j: int)
    requires Owned(d, own) && 0 <= i < |d.inodes| && 0 <= j < |d.inodes| && j != i
    ensures Shape(Resized(d, i, size)) && KeepsFile(d, Resized(d, i, size), j)
  {
    forall bn | 0 <= bn < MAXFILE
      ensures KeepsAt(d, Resized(d, i, size), j, bn)
    {
      ResizedSlots(d, i, size, j, FileSlot(bn));
      assert SlotOk(d, own, j, FileSlot(bn));
    }
  }

  /** Byte p of file i lies in a block that the file did not have, and there is none left. */
  ghost predicate NoSpace(d0: Disk, d: Disk, i: int, p: int) {
    0 <= i < |d0.inodes| && p / BSIZE * BSIZE >= d0.inodes[i].size && forall c :: 0 <= c < |d.bits| ==> d.bits[c]
  }

  /**
   The stray block. A write to byte p of a file whose source ends after that byte leaves this state: the byte has
   changed, and only the inode is logged. So it can be with any byte of any file.
   */
  lemma StrayWrite(lay: Layout, d: Disk, own: map<int, Owner>, i: int, p: int, b: int)
    requires Sound(lay, d, own) && 0 <= i < |d.inodes| && 0 <= p < d.inodes[i].size <= MAXFILE * BSIZE
    requires ByteAt(d, i, p) != b
    ensures var a := Slot(d, i, FileSlot(p / BSIZE));
            && 0 < a < |d.blocks| && Shape(Wrote(d, a, p % BSIZE, [b]))
            && !Recorded(lay, d, Resized(Wrote(d, a, p % BSIZE, [b]), i, d.inodes[i].size), {IBlock(lay, i)})
  {
    var bn := p / BSIZE;
    assert FileOk(d, i) && Mapped(d, i, bn) && SlotOk(d, own, i, FileSlot(bn));
    WroteSlots(d, own, i, bn, p % BSIZE, [b], i, 0);
    var a := Slot(d, i, FileSlot(bn));
    var d' := Resized(Wrote(d, a, p % BSIZE, [b]), i, d.inodes[i].size);
    assert d'.blocks[a][p % BSIZE] == b && d.blocks[a][p % BSIZE] == ByteAt(d, i, p);
    assert IBlock(lay, i) < lay.nmeta;
    assert !BlockLogged(d.blocks, d'.blocks, {IBlock(lay, i)}, a);
  }

  /** How far writei got: r is the end of the last whole round, stored counts the bytes that are in the blocks. */
  ghost predicate Counts(d0: Disk, d: Disk, i: int, off: int, n: int, limit: int, r: int, stored: int) {
    && 0 <= r <= stored <= Min(limit, n) && (r < stored ==> stored == limit < n)
    && (r < n ==> (r == 0 || (off + r) % BSIZE == 0) && (stored == limit || NoSpace(d0, d, i, off + r)))
  }

  /** The state between two rounds of writei's loop. */
  ghost predicate Rounds(lay: Layout, d0: Disk, d: Disk, logged: set<int>, i: int, off: int, src: seq<int>, limit: int,
                         tot: int) {
    && Progress(d0, d, i, off, src, tot) && Touches(d0, d, i) && Recorded(lay, d0, d, logged)
    && 0 <= tot <= limit && (tot == 0 || tot == |src| || (off + tot) % BSIZE == 0)
  }

  /** What one round does: to the end, to the limit, or nothing as the disk is full. */
  ghost predicate RoundDone(lay: Layout, d0: Disk, d1: Disk, d: Disk, logged: set<int>, i: int, off: int,
                            src: seq<int>, tot: int, m: int, limit: int, ok: bool, stored: int) {
    && 0 <= tot <= stored <= |src| && Progress(d0, d, i, off, src, stored) && Touches(d1, d, i)
    && (if ok || stored == tot then Recorded(lay, d1, d, logged) else RecordedBut(lay, d1, d, logged, i, off + tot))
    && (ok ==> stored == tot + m <= limit)
    && (!ok ==> (stored == tot && NoSpace(d0, d, i, off + tot)) || stored == limit < tot + m)
  }

  lemma RoundsGoOn(lay: Layout, d0: Disk, d1: Disk, d: Disk, logged: set<int>, logged': set<int>, i: int, off: int,
                   src: seq<int>, tot: int, m: int, limit: int, ok: bool, stored: int)
    requires Rounds(lay, d0, d1, logged, i, off, src, limit, tot) && logged <= logged' && tot < |src|
    requires m == Min(|src| - tot, BSIZE - (off + tot) % BSIZE)
    requires RoundDone(lay, d0, d1, d, logged', i, off, src, tot, m, limit, ok, stored)
    ensures ok ==> Rounds(lay, d0, d, logged', i, off, src, limit, tot + m)
    ensures !ok ==> Stopped(lay, d0, d, logged', i, off, src, limit, tot, stored)
  {
    TouchesTrans(d0, d1, d, i);
    RoundRecorded(lay, d0, d1, d, logged, logged', i, off + tot);
    BlockEnd(off + tot);
  }

  /** The state in which writei's loop ends. */
  ghost predicate Stopped(lay: Layout, d0: Disk, d: Disk, logged: set<int>, i: int, off: int, src: seq<int>, limit: int,
                          r: int, stored: int) {
    && Progress(d0, d, i, off, src, stored) && Touches(d0, d, i) && Counts(d0, d, i, off, |src|, limit, r, stored)
    && WriteRecorded(lay, d0, d, logged, i, off, r, stored)
  }

  /**
   What writei leaves behind: the bytes stored are in the file as far as it reaches, just the bytes written if these are
   the same; all or all but one of the blocks that differ are logged; the inode on disk is the one in memory.
   */
  ghost predicate Written(lay: Layout, d0: Disk, d: Disk, logged: set<int>, i: int, off: int, src: seq<int>, limit: int,
                          r: int, stored: int) {
    && Counts(d0, d, i, off, |src|, limit, r, stored) && 0 <= i < |d0.inodes|
    && WriteCut(d0, d, i, off, src[..stored], Max(d0.inodes[i].size, off + r))
    && (r == stored ==> WriteDone(d0, d, i, off, src[..r]))
    && Updates(d0, d, i) && WriteRecorded(lay, d0, d, logged, i, off, r, stored)
  }

  lemma WriteEnds(lay: Layout, d0: Disk, d: Disk, own: map<int, Owner>, logged: set<int>, i: int, off: int,
                  src: seq<int>, limit: int, r: int, stored: int)
    requires Sound(lay, d, own) && Stopped(lay, d0, d, logged, i, off, src, limit, r, stored) && FilesOk(d0)
    requires 0 <= off <= d0.inodes[i].size && off + |src| <= MAXFILE * BSIZE
    ensures var d' := Resized(d, i, Max(d0.inodes[i].size, off + r));
            && Sound(lay, d', own)
            && Written(lay, d0, d', logged + {IBlock(lay, i)}, i, off, src, limit, r, stored)
  {
    var size := Max(d0.inodes[i].size, off + r);
    assert FileOk(d0, i);
    ProgressEnds(d0, d, own, i, off, src, stored, size);
    ResizedSound(lay, d0, d, own, i, size, logged, off, r, stored);
    if r == stored {
      CutNothing(d0, Resized(d, i, size), i, off, src[..r], size);
    }
  }

  // ---- truncation ----

  /**
   How far itrunc has got: direct slots below `direct`, slots of the indirect block below `listed`, and the indirect
   block.
   */
  datatype Done = Done(direct: int, listed: int, all: bool)

  predicate Covers(n: Done, s: int) {
    n.all || 0 <= s < n.direct || NDIRECT < s <= NDIRECT + n.listed
  }

  /** Block b belongs to inode i, in one of the slots done. */
  predicate In(own: map<int, Owner>, i: int, n: Done, b: int) {
    b in own && own[b].inode == i && Covers(n, own[b].slot)
  }

  const ALL := Done(0, 0, true)

  /** The bitmap after the blocks in the slots done of inode i were freed. */
  predicate FreedBits(d0: Disk, own: map<int, Owner>, i: int, n: Done, bits: seq<bool>) {
    |bits| == |d0.bits| && forall b :: 0 <= b < |bits| ==> bits[b] == (d0.bits[b] && !In(own, i, n, b))
  }

  /** Freeing the block of one more slot: it is still marked, so bfree does not panic. */
  lemma FreeOneMore(d0: Disk, own: map<int, Owner>, i: int, n: Done, n': Done, bits: seq<bool>, s: int)
    requires Owned(d0, own) && 0 <= i < |d0.inodes| && 0 <= s < SLOTS && !Covers(n, s) && FreedBits(d0, own, i, n, bits)
    requires forall t :: 0 <= t < SLOTS ==> (Covers(n', t) <==> Covers(n, t) || t == s)
    ensures var a := Slot(d0, i, s);
            && 0 <= a < |bits|
            && (a == 0 ==> FreedBits(d0, own, i, n', bits))
            && (a != 0 ==> bits[a] && FreedBits(d0, own, i, n', bits[a := false]))
  {
    var a := Slot(d0, i, s);
    assert SlotOk(d0, own, i, s);
    if a != 0 {
      assert OwnerOk(d0, own, a);
    }
    forall b | 0 <= b < |bits|
      ensures In(own, i, n', b) <==> In(own, i, n, b) || (a != 0 && b == a)
    {
      if b in own {
        assert OwnerOk(d0, own, b);
      }
    }
  }

  /** Without an indirect block the direct addresses are all there is. */
  lemma NoIndirect(d0: Disk, own: map<int, Owner>, i: int, bits: seq<bool>)
    requires Owned(d0, own) && 0 <= i < |d0.inodes| && d0.inodes[i].addrs[NDIRECT] == 0
    requires FreedBits(d0, own, i, Done(NDIRECT, 0, false), bits)
    ensures FreedBits(d0, own, i, ALL, bits)
  {
    forall b | 0 <= b < |bits|
      ensures In(own, i, ALL, b) <==> In(own, i, Done(NDIRECT, 0, false), b)
    {
      if b in own {
        assert OwnerOk(d0, own, b);
      }
    }
  }

  ghost function Dropped(own: map<int, Owner>, i: int): map<int, Owner> {
    map b | b in own && own[b].inode != i :: own[b]
  }

  /** itrunc's effect: the inode is empty, exactly its blocks are unmarked. */
  ghost predicate Truncated(d0: Disk, d: Disk, own: map<int, Owner>, i: int) {
    && 0 <= i < |d0.inodes| && d.blocks == d0.blocks
    && |d.inodes| == |d0.inodes| == |d0.dinodes| && d.inodes == d0.inodes[i := d.inodes[i]]
    && d.dinodes == d0.dinodes[i := d.inodes[i]]
    && |d.inodes[i].addrs| == NDIRECT + 1 && (forall s :: 0 <= s <= NDIRECT ==> d.inodes[i].addrs[s] == 0) &&
       d.inodes[i].size == 0
    && FreedBits(d0, own, i, ALL, d.bits)
  }

  lemma TruncatedSlots(d0: Disk, d: Disk, own: map<int, Owner>, i: int, j: int, t: int)
    requires Owned(d0, own) && Truncated(d0, d, own, i) && 0 <= j < |d0.inodes| && 0 <= t < SLOTS
    ensures Shape(d) && Slot(d, j, t) == if i == j then 0 else Slot(d0, j, t)
  {
  }

  lemma ZeroNotOwned(d: Disk, own: map<int, Owner>)
    requires Owned(d, own)
    ensures 0 !in own
  {
    forall b | b in own
      ensures 0 < b
    {
      assert OwnerOk(d, own, b);
    }
  }

  lemma TruncatedOwned(d0: Disk, d: Disk, own: map<int, Owner>, i: int)
    requires Owned(d0, own) && Truncated(d0, d, own, i)
    ensures Owned(d, Dropped(own, i))
  {
    TruncatedSlots(d0, d, own, i, i, 0);
    var own' := Dropped(own, i);
    forall j, t | 0 <= j < |d.inodes| && 0 <= t < SLOTS
      ensures SlotOk(d, own', j, t)
    {
      assert SlotOk(d0, own, j, t);
      TruncatedSlots(d0, d, own, i, j, t);
    }
    forall b | b in own'
      ensures OwnerOk(d, own', b)
    {
      assert OwnerOk(d0, own, b);
      TruncatedSlots(d0, d, own, i, own[b].inode, own[b].slot);
    }
    ZeroNotOwned(d0, own);
  }

  lemma TruncatedFiles(d0: Disk, d: Disk, own: map<int, Owner>, i: int)
    requires Owned(d0, own) && FilesOk(d0) && Truncated(d0, d, own, i)
    ensures Shape(d) && FilesOk(d) && OthersSame(d0, d, i)
  {
    TruncatedSlots(d0, d, own, i, i, 0);
    forall j | 0 <= j < |d.inodes|
      ensures FileOk(d, j) && (j != i ==> SameFile(d0, d, j))
    {
      assert FileOk(d0, j);
      if j != i {
        forall bn | 0 <= bn < MAXFILE
          ensures KeepsAt(d0, d, j, bn)
        {
          TruncatedSlots(d0, d, own, i, j, FileSlot(bn));
          assert SlotOk(d0, own, j, FileSlot(bn));
        }
        assert KeepsFile(d0, d, j);
        KeepsFileContents(d0, d, j);
      } else {
        assert forall bn :: Mapped(d, i, bn);
      }
    }
  }

  lemma TruncatedSound(lay: Layout, d0: Disk, d: Disk, own: map<int, Owner>, i: int, before: set<int>,
                       logged: set<int>)
    requires Sound(lay, d0, own) && Truncated(d0, d, own, i) && BitsLogged(lay, d0.bits, d.bits, before, logged)
    requires AllLoggable(lay, |d0.blocks|, |d0.inodes|, before)
    ensures |d.bits| == |d.blocks| && Apart(lay, d, Dropped(own, i)) && Updates(d0, d, i)
    ensures Recorded(lay, d0, d, logged + {IBlock(lay, i)})
    ensures AllLoggable(lay, |d.blocks|, |d.inodes|, logged + {IBlock(lay, i)})
    ensures |d.blocks| <= BPB ==> logged <= before + {lay.bmapstart}
  {
    var logged' := logged + {IBlock(lay, i)};
    forall b | 0 <= b < |d.blocks|
      ensures MetaAt(lay, d, b)
    {
      assert MetaAt(lay, d0, b);
    }
    forall b | 0 <= b < |d.bits|
      ensures BitLogged(lay, d0.bits, d.bits, logged', b)
    {
      assert BitLogged(lay, d0.bits, d.bits, logged, b);
    }
    AreasLoggable(lay, |d.blocks|, |d.inodes|, 0, i);
    forall x | x in logged && |d.blocks| <= BPB
      ensures x in before + {lay.bmapstart}
    {
      assert (|d.bits| - 1) / BPB == 0;
    }
    assert forall b :: 0 <= b < |d.blocks| ==> BlockLogged(d0.blocks, d.blocks, logged', b);
    assert forall j :: 0 <= j < |d.dinodes| ==> InodeLogged(lay, d0.dinodes, d.dinodes, logged', j);
  }

  // ---- a new disk ----

  /** What mkfs lays out before it adds files: zeroed blocks, the first nmeta of them marked, and empty inodes. */
  function Formatted(size: nat, ninodes: nat, nmeta: int): Disk {
    var inodes := seq(ninodes, _ => Inode(seq(NDIRECT + 1, _ => 0), 0));
    Disk(seq(size, b => b < nmeta), seq(size, _ => Zero()), inodes, inodes)
  }

  /** No block belongs to a file, and every file is empty. */
  lemma FormattedOk(size: nat, ninodes: nat, lay: Layout)
    requires LayoutOk(lay, size, ninodes)
    ensures var d := Formatted(size, ninodes, lay.nmeta);
            Sound(lay, d, map[]) && forall i :: 0 <= i < ninodes ==> Contents(d, i) == []
  {
    var d := Formatted(size, ninodes, lay.nmeta);
    assert forall i, s :: 0 <= i < ninodes && 0 <= s < SLOTS ==> SlotOk(d, map[], i, s);
    assert forall i :: 0 <= i < ninodes ==> FileOk(d, i);
    assert forall b :: 0 <= b < size ==> MetaAt(lay, d, b);
  }

  // ---- the code ----

  class FileSys {
    var d: Disk
    const lay: Layout
    ghost var own: map<int, Owner>
    ghost var logged: set<int>        // the blocks handed to log_write

    ghost predicate Valid()
      reads this
    {
      Sound(lay, d, own) && AllLoggable(lay, |d.blocks|, |d.inodes|, logged)
    }

    constructor (size: nat, ninodes: nat, lay: Layout)
      requires LayoutOk(lay, size, ninodes)
      ensures Valid() && d == Formatted(size, ninodes, lay.nmeta) && own == map[] && logged == {} && this.lay == lay
    {
      d := Formatted(size, ninodes, lay.nmeta);
      this.lay, own, logged := lay, map[], {};
      FormattedOk(size, ninodes, lay);
    }

    /** balloc: the first free block, marked and zeroed, or 0 when every block is in use. */
    method Balloc() returns (r: int)
      requires Valid()
      modifies this`d, this`logged
      ensures r == 0 ==> d == old(d) && logged == old(logged) && forall c :: 0 <= c < |d.bits| ==> d.bits[c]
      ensures r != 0 ==>
                && 0 < r < |old(d).blocks| && !old(d).bits[r] && (forall c :: 0 <= c < r ==> old(d).bits[c])
                && d == Allocated(old(d), r) && logged == old(logged) + {BBlock(lay, r), r}
    {
      var size := |d.blocks|;
      var b := 0;
      while b < size
        invariant 0 <= b && forall c :: 0 <= c < b && c < size ==> d.bits[c]
        invariant d == old(d) && logged == old(logged)
        decreases size - b
      {
        var bi := 0;
        while bi < BPB && b + bi < size
          invariant 0 <= bi <= BPB && forall c :: 0 <= c < b + bi && c < size ==> d.bits[c]
          invariant d == old(d) && logged == old(logged)
        {
          if !d.bits[b + bi] {
            d := d.(bits := d.bits[b + bi := true]);
            logged := logged + {BBlock(lay, b + bi)};
            d := d.(blocks := d.blocks[b + bi := Zero()]);
            logged := logged + {b + bi};
            return b + bi;
          }
          bi := bi + 1;
        }
        b := b + BPB;
      }
      return 0;
    }

    /**
     bmap's allocation of a block for an empty slot. All it changes on disk is logged; a new direct or indirect address
     changes the inode in memory only.
     */
    method FillSlot(i: int, s: int) returns (r: int)
      requires Valid() && 0 <= i < |d.inodes| && 0 <= s < SLOTS && Slot(d, i, s) == 0
      requires s > NDIRECT ==> d.inodes[i].addrs[NDIRECT] != 0
      modifies this`d, this`own, this`logged
      ensures Valid() && Keeps(old(d), d) && Touches(old(d), d, i)
      ensures old(logged) <= logged && Recorded(lay, old(d), d, logged)
      ensures r == 0 ==>
              d == old(d) && logged == old(logged) && own == old(own) && forall c :: 0 <= c < |d.bits| ==> d.bits[c]
      ensures r != 0 ==> 0 < r < |d.blocks| && Slot(d, i, s) == r && own == old(own)[r := Owner(i, s)] && r !in old(own)
      ensures forall t :: 0 <= t < SLOTS && t != s ==> Slot(d, i, t) == Slot(old(d), i, t)
      ensures s <= NDIRECT ==> logged <= old(logged) + {BBlock(lay, r), r}
      ensures s > NDIRECT ==> logged <= old(logged) + {BBlock(lay, r), r, Slot(d, i, NDIRECT)}
    {
      RecordedRefl(lay, d, logged);
      r := Balloc();
      if r == 0 {
        KeepsRefl(d, own);
        return;
      }
      ghost var d0, ib0 := old(d), old(d).inodes[i].addrs[NDIRECT];
      assert SlotOk(d0, own, i, NDIRECT) && Slot(d0, i, NDIRECT) == ib0;
      if s <= NDIRECT {
        d := d.(inodes := d.inodes[i := d.inodes[i].(addrs := d.inodes[i].addrs[s := r])]);
      } else {
        var ib := d.inodes[i].addrs[NDIRECT];
        d := d.(blocks := d.blocks[ib := PutWord(d.blocks[ib], s - NDIRECT - 1, r)]);
        logged := logged + {ib};
      }
      FilledOk(lay, d0, own, i, s, r, logged);
      assert d == Entered(Allocated(d0, r), i, s, r);
      AreasLoggable(lay, |d.blocks|, |d.inodes|, r, i);
      own := own[r := Owner(i, s)];
    }

    /** bmap: the disk block of file block bn, allocated if need be; 0 when the disk is full. */
    method Bmap(i: int, bn: int) returns (addr: int)
      requires Valid() && 0 <= i < |d.inodes| && 0 <= bn < MAXFILE
      modifies this`d, this`own, this`logged
      ensures Valid() && Keeps(old(d), d) && SlotsKept(old(d), d, i) && Touches(old(d), d, i)
      ensures old(logged) <= logged && Recorded(lay, old(d), d, logged)
      ensures addr == Slot(d, i, FileSlot(bn)) && 0 <= addr < |d.blocks|
      ensures addr == 0 ==> forall c :: 0 <= c < |d.bits| ==> d.bits[c]
      ensures Slot(old(d), i, FileSlot(bn)) != 0 ==> d == old(d) && own == old(own) && logged == old(logged)
      ensures |d.blocks| <= BPB ==>
              forall x :: x in logged - old(logged) ==> MayLog(d, lay.bmapstart, lay.bmapstart, i, bn, bn, x)
    {
      KeepsRefl(d, own);
      RecordedRefl(lay, d, logged);
      assert SlotOk(d, own, i, FileSlot(bn));
      if bn < NDIRECT {
        addr := d.inodes[i].addrs[bn];
        if addr == 0 {
          addr := FillSlot(i, bn);
          assert |d.blocks| <= BPB && addr != 0 ==> BBlock(lay, addr) == lay.bmapstart && IsData(d, i, bn, addr);
        }
        return;
      }
      addr := BmapIndirect(i, bn);
    }

    /** The part of bmap that goes through the indirect block. */
    method BmapIndirect(i: int, bn: int) returns (addr: int)
      requires Valid() && 0 <= i < |d.inodes| && NDIRECT <= bn < MAXFILE
      modifies this`d, this`own, this`logged
      ensures Valid() && Keeps(old(d), d) && SlotsKept(old(d), d, i) && Touches(old(d), d, i)
      ensures old(logged) <= logged && Recorded(lay, old(d), d, logged)
      ensures addr == Slot(d, i, FileSlot(bn)) && 0 <= addr < |d.blocks|
      ensures addr == 0 ==> forall c :: 0 <= c < |d.bits| ==> d.bits[c]
      ensures Slot(old(d), i, FileSlot(bn)) != 0 ==> d == old(d) && own == old(own) && logged == old(logged)
      ensures |d.blocks| <= BPB ==>
              forall x :: x in logged - old(logged) ==> MayLog(d, lay.bmapstart, lay.bmapstart, i, bn, bn, x)
    {
      ghost var d0 := d;
      var ib := LoadIndirect(i);
      if ib == 0 {
        assert Slot(d, i, FileSlot(bn)) == 0;
        return 0;
      }
      ghost var d1, logged1 := d, logged;
      assert SlotOk(d, own, i, FileSlot(bn));
      addr := Word(d.blocks[ib], bn - NDIRECT);
      if addr == 0 {
        addr := FillSlot(i, bn + 1);
        KeepsTrans(d0, d1, d);
        TouchesTrans(d0, d1, d, i);
        RecordedTrans(lay, d0, d1, d, logged1, logged);
        assert |d.blocks| <= BPB && addr != 0 ==> BBlock(lay, addr) == lay.bmapstart && IsData(d, i, bn, addr);
      }
    }

    /** The indirect block, allocated if there is none; 0 when the disk is full. */
    method LoadIndirect(i: int) returns (ib: int)
      requires Valid() && 0 <= i < |d.inodes|
      modifies this`d, this`own, this`logged
      ensures Valid() && Keeps(old(d), d) && Touches(old(d), d, i)
      ensures forall t :: 0 <= t < SLOTS && t != NDIRECT ==> Slot(d, i, t) == Slot(old(d), i, t)
      ensures Slot(old(d), i, NDIRECT) != 0 ==> d == old(d) && own == old(own) && logged == old(logged)
      ensures old(logged) <= logged && Recorded(lay, old(d), d, logged)
      ensures ib == Slot(d, i, NDIRECT) == d.inodes[i].addrs[NDIRECT]
      ensures ib == 0 ==> d == old(d) && logged == old(logged) && forall c :: 0 <= c < |d.bits| ==> d.bits[c]
      ensures |d.blocks| <= BPB ==> logged <= old(logged) + {lay.bmapstart, ib}
    {
      KeepsRefl(d, own);
      RecordedRefl(lay, d, logged);
      assert Slot(d, i, NDIRECT) == d.inodes[i].addrs[NDIRECT];
      ib := d.inodes[i].addrs[NDIRECT];
      if ib == 0 {
        ib := FillSlot(i, NDIRECT);
        assert Slot(d, i, NDIRECT) == d.inodes[i].addrs[NDIRECT];
        assert |d.blocks| <= BPB && ib != 0 ==> BBlock(lay, ib) == lay.bmapstart;
      }
    }

    ghost predicate LogsOnly(before: set<int>, i: int, lo: int, hi: int)
      requires Shape(d) && 0 <= i < |d.inodes|
      reads this
    {
      forall x {:trigger x in logged} ::
        x in logged && x !in before ==> MayLog(d, lay.bmapstart, IBlock(lay, i), i, lo, hi, x)
    }

    /**
     One round of writei's loop: find the block, copy, log it. False when the disk is full, or when the source cannot be
     read from limit on; the bytes before that are then in the block, which is not logged.
     */
    method WriteChunk(i: int, off: int, src: seq<int>, tot: int, m: int, limit: int, ghost d0: Disk,
                      ghost before: set<int>, ghost hi: int) returns (ok: bool, ghost stored: int)
      requires Valid() && Progress(d0, d, i, off, src, tot) && FilesOk(d0) && 0 <= off <= d0.inodes[i].size
      requires tot < |src| && off + |src| <= MAXFILE * BSIZE && (off + tot) / BSIZE <= hi && tot <= limit
      requires m == Min(|src| - tot, BSIZE - (off + tot) % BSIZE)
      requires |d.blocks| <= BPB ==> LogsOnly(before, i, off / BSIZE, hi)
      modifies this`d, this`own, this`logged
      ensures Valid() && |d.blocks| == |d0.blocks| && old(logged) <= logged
      ensures RoundDone(lay, d0, old(d), d, logged, i, off, src, tot, m, limit, ok, stored)
      ensures |d.blocks| <= BPB ==> LogsOnly(before, i, off / BSIZE, hi)
    {
      var bn := (off + tot) / BSIZE;
      var addr := FindBlock(i, off, src, tot, bn, d0, before, hi);
      stored := tot;
      if addr == 0 {
        return false, stored;
      }
      ghost var d1, logged1 := d, logged;
      var copied := Min(m, limit - tot);
      if copied > 0 {
        CopyIn(i, off, src, tot, copied, addr, d0, before, hi);
        RecordedTrans(lay, old(d), d1, d, logged, logged + {addr});
        stored := tot + copied;
      }
      if copied < m {
        return false, stored;
      }
      logged := logged + {addr};
      assert IsData(d, i, bn, addr);
      return true, stored;
    }

    /** The block of a round, found or allocated. */
    method FindBlock(i: int, off: int, src: seq<int>, tot: int, bn: int, ghost d0: Disk, ghost before: set<int>,
                     ghost hi: int) returns (addr: int)
      requires Valid() && Progress(d0, d, i, off, src, tot) && 0 <= off <= d0.inodes[i].size
      requires off / BSIZE <= bn <= hi && 0 <= bn < MAXFILE
      requires |d.blocks| <= BPB ==> LogsOnly(before, i, off / BSIZE, hi)
      modifies this`d, this`own, this`logged
      ensures Valid() && |d.blocks| == |d0.blocks| && Touches(old(d), d, i)
      ensures old(logged) <= logged && Recorded(lay, old(d), d, logged)
      ensures Progress(d0, d, i, off, src, tot)
      ensures addr == Slot(d, i, FileSlot(bn)) && (addr != 0 ==> lay.nmeta <= addr < |d.blocks|)
      ensures addr == 0 ==> bn * BSIZE >= d0.inodes[i].size && forall c :: 0 <= c < |d.bits| ==> d.bits[c]
      ensures |d.blocks| <= BPB ==> LogsOnly(before, i, off / BSIZE, hi)
    {
      ghost var d1 := d;
      addr := Bmap(i, bn);
      ProgressKept(d0, d1, d, i, off, src, tot);
      assert SlotOk(d, own, i, FileSlot(bn));
      forall x | x in logged && x !in before && |d.blocks| <= BPB
        ensures MayLog(d, lay.bmapstart, IBlock(lay, i), i, off / BSIZE, hi, x)
      {
        if x in old(logged) {
          MayLogKept(d1, d, lay.bmapstart, IBlock(lay, i), i, off / BSIZE, hi, x);
        } else {
          MayLogMore(d, lay.bmapstart, IBlock(lay, i), i, bn, off / BSIZE, hi, x);
        }
      }
    }

    /** The copy into the block that bmap found, before log_write. */
    method CopyIn(i: int, off: int, src: seq<int>, tot: int, m: int, addr: int, ghost d0: Disk, ghost before: set<int>,
                  ghost hi: int)
      requires Valid() && Progress(d0, d, i, off, src, tot) && FilesOk(d0) && 0 <= off <= d0.inodes[i].size
      requires 0 < m && tot + m <= |src| && off + |src| <= MAXFILE * BSIZE && (off + tot) % BSIZE + m <= BSIZE
      requires addr == Slot(d, i, FileSlot((off + tot) / BSIZE)) != 0
      requires |d.blocks| <= BPB ==> LogsOnly(before, i, off / BSIZE, hi)
      modifies this`d
      ensures Valid() && |d.blocks| == |d0.blocks| && d.inodes == old(d).inodes && d.dinodes == old(d).dinodes
      ensures addr == Slot(d, i, FileSlot((off + tot) / BSIZE))
      ensures Recorded(lay, old(d), d, logged + {addr})
      ensures Progress(d0, d, i, off, src, tot + m)
      ensures |d.blocks| <= BPB ==> LogsOnly(before, i, off / BSIZE, hi)
    {
      var bn, o := (off + tot) / BSIZE, (off + tot) % BSIZE;
      ghost var d2 := d;
      ProgressMade(d0, d, own, i, off, src, tot, m);
      WroteSound(lay, d, own, i, bn, o, src[tot..tot + m], logged + {addr});
      d := d.(blocks := d.blocks[addr := Splice(d.blocks[addr], o, src[tot..tot + m])]);
      ProgressFilesOk(d0, d, i, off, src, tot + m);
      forall t | 0 <= t < SLOTS
        ensures Slot(d, i, t) == Slot(d2, i, t)
      {
        WroteSlots(d2, own, i, bn, o, src[tot..tot + m], i, t);
      }
      forall x | x in logged && x !in before && |d.blocks| <= BPB
        ensures MayLog(d, lay.bmapstart, IBlock(lay, i), i, off / BSIZE, hi, x)
      {
        MayLogKept(d2, d, lay.bmapstart, IBlock(lay, i), i, off / BSIZE, hi, x);
      }
    }

    /**
     writei; the source can be read up to limit. It refuses an offset beyond the end of the file and a write beyond the
     largest file. Otherwise it writes r bytes, all of them unless the disk is full or the source runs out; the file is
     then the old byte sequence overwritten with them, and every block that differs on disk is logged. But when the
     source runs out inside a block, the bytes stored there before that stay, in a block that is not logged on their
     account. The inode on disk is the one in memory.
     */
    method Writei(i: int, off: int, src: seq<int>, limit: nat) returns (r: int, ghost stored: int)
      requires Valid() && 0 <= i < |d.inodes| && 0 <= off < UINT32 && |src| < UINT32
      modifies this`d, this`own, this`logged
      ensures Valid() && |d.blocks| == |old(d).blocks|
      ensures r == -1 <==> off > old(d).inodes[i].size || off + |src| > MAXFILE * BSIZE
      ensures r == -1 ==> d == old(d) && own == old(own) && logged == old(logged)
      ensures r != -1 ==> Written(lay, old(d), d, logged, i, off, src, limit, r, stored) && old(logged) <= logged
      ensures |d.blocks| <= BPB ==> LogsOnly(old(logged), i, off / BSIZE, (off + |src| - 1) / BSIZE)
    {
      var n := |src|;
      assert FileOk(d, i);
      RecordedRefl(lay, d, logged);
      stored := 0;
      if off > d.inodes[i].size || (off + n) % UINT32 < off {
        return -1, stored;
      }
      if (off + n) % UINT32 > MAXFILE * BSIZE {
        return -1, stored;
      }
      ghost var d0, hi := d, (off + n - 1) / BSIZE;
      var tot;
      tot, stored := WriteLoop(i, off, src, limit, hi);
      RecordSize(i, off, src, limit, tot, stored, d0, old(logged), hi);
      r := tot;
    }

    /** writei's loop. */
    method WriteLoop(i: int, off: int, src: seq<int>, limit: nat, ghost hi: int) returns (tot: int, ghost stored: int)
      requires Valid() && 0 <= i < |d.inodes| && 0 <= off <= d.inodes[i].size && off + |src| <= MAXFILE * BSIZE
      requires hi == (off + |src| - 1) / BSIZE
      modifies this`d, this`own, this`logged
      ensures Valid() && Stopped(lay, old(d), d, logged, i, off, src, limit, tot, stored) && old(logged) <= logged
      ensures |d.blocks| <= BPB ==> LogsOnly(old(logged), i, off / BSIZE, hi)
    {
      ghost var d0, logged0 := d, logged;
      RecordedRefl(lay, d, logged);
      ProgressStarts(d, own, i, off, src);
      tot, stored := 0, 0;
      while tot < |src|
        invariant Valid() && Rounds(lay, d0, d, logged, i, off, src, limit, tot) && stored == tot && logged0 <= logged
        invariant |d.blocks| <= BPB ==> LogsOnly(logged0, i, off / BSIZE, hi)
      {
        ghost var d1, logged1 := d, logged;
        var m := Min(|src| - tot, BSIZE - (off + tot) % BSIZE);
        var ok;
        ok, stored := WriteChunk(i, off, src, tot, m, limit, d0, logged0, hi);
        RoundsGoOn(lay, d0, d1, d, logged1, logged, i, off, src, tot, m, limit, ok, stored);
        if !ok {
          return;
        }
        tot := tot + m;
      }
    }

    /** The end of writei: the new size and iupdate. */
    method RecordSize(i: int, off: int, src: seq<int>, ghost limit: int, tot: int, ghost stored: int, ghost d0: Disk,
                      ghost before: set<int>, ghost hi: int)
      requires Valid() && Stopped(lay, d0, d, logged, i, off, src, limit, tot, stored) && FilesOk(d0)
      requires 0 <= off <= d0.inodes[i].size && off + |src| <= MAXFILE * BSIZE
      requires |d.blocks| <= BPB ==> LogsOnly(before, i, off / BSIZE, hi)
      modifies this`d, this`logged
      ensures Valid() && |d.blocks| == |d0.blocks| && old(logged) <= logged
      ensures Written(lay, d0, d, logged, i, off, src, limit, tot, stored)
      ensures |d.blocks| <= BPB ==> LogsOnly(before, i, off / BSIZE, hi)
    {
      ghost var d1 := d;
      WriteEnds(lay, d0, d, own, logged, i, off, src, limit, tot, stored);
      if off + tot > d.inodes[i].size {
        d := d.(inodes := d.inodes[i := d.inodes[i].(size := off + tot)]);
      }
      Iupdate(i);
      assert d == Resized(d1, i, Max(d0.inodes[i].size, off + tot));
      AreasLoggable(lay, |d.blocks|, |d.inodes|, 0, i);
      forall x | x in logged && x !in before && |d.blocks| <= BPB
        ensures MayLog(d, lay.bmapstart, IBlock(lay, i), i, off / BSIZE, hi, x)
      {
        if x != IBlock(lay, i) {
          MayLogKept(d1, d, lay.bmapstart, IBlock(lay, i), i, off / BSIZE, hi, x);
        }
      }
    }

    /** iupdate: the inode in memory is copied to its block, which is logged. */
    method Iupdate(i: int)
      requires 0 <= i < |d.inodes| == |d.dinodes|
      modifies this`d, this`logged
      ensures d == old(d).(dinodes := old(d).dinodes[i := old(d).inodes[i]]) && logged == old(logged) + {IBlock(lay, i)}
    {
      d := d.(dinodes := d.dinodes[i := d.inodes[i]]);
      logged := logged + {IBlock(lay, i)};
    }

    /**
     readi; the destination can be written up to limit. It delivers the slice of the byte sequence, clipped to the size,
     or -1 and as much of it as the destination takes. Nothing changes.
     */
    method Readi(i: int, off: int, n: int, limit: nat) returns (ret: int, out: seq<int>)
      requires Valid() && 0 <= i < |d.inodes| && 0 <= off < UINT32 && 0 <= n < UINT32
      modifies this`d, this`own, this`logged
      ensures d == old(d) && own == old(own) && logged == old(logged)
      ensures FileOk(d, i)
      ensures var part := Part(d, i, off, n);
              ret == (if limit < |part| then -1 else |part|) && out == part[..Min(limit, |part|)]
    {
      assert FileOk(d, i);
      ret, out := 0, [];
      if off > d.inodes[i].size || (off + n) % UINT32 < off {
        return;
      }
      var left := n;
      if (off + n) % UINT32 > d.inodes[i].size {
        left := d.inodes[i].size - off;
      }
      PartIs(d, i, off, n, left, limit);
      ret, out := ReadLoop(i, off, left, limit, Contents(d, i));
    }

    /** readi's loop, once the length is clipped to the size; c is the file. */
    method ReadLoop(i: int, off: int, left: int, limit: nat, ghost c: seq<int>) returns (ret: int, out: seq<int>)
      requires Valid() && 0 <= i < |d.inodes| && HasBytes(d, i, c) && 0 <= off && 0 <= left && off + left <= |c|
      modifies this`d, this`own, this`logged
      ensures Valid() && d == old(d) && own == old(own) && logged == old(logged)
      ensures ret == (if limit < left then -1 else left) && out == c[off..off + Min(limit, left)]
    {
      ghost var d0, own0, logged0 := d, own, logged;
      out := [];
      var tot := 0;
      while tot < left
        invariant 0 <= tot <= left && tot <= limit && Valid() && d == d0 && own == own0 && logged == logged0
        invariant out == c[off..off + tot]
      {
        var bytes := ReadBlock(i, off + tot, left - tot, c);
        var copied := Min(|bytes|, limit - tot);
        Adjacent(c, off, off + tot, off + tot + copied);
        assert bytes[..copied] == c[off + tot..off + tot + copied];
        out := out + bytes[..copied];
        if copied < |bytes| {
          return -1, out;
        }
        tot := tot + |bytes|;
      }
      ret := tot;
    }

    /**
     One round of readi's loop: the bytes from p on, up to the end of its block. bmap finds the block and allocates
     nothing.
     */
    method ReadBlock(i: int, p: int, left: int, ghost c: seq<int>) returns (bytes: seq<int>)
      requires Valid() && 0 <= i < |d.inodes| && HasBytes(d, i, c) && 0 <= p && 0 < left && p + left <= |c|
      modifies this`d, this`own, this`logged
      ensures Valid() && d == old(d) && own == old(own) && logged == old(logged)
      ensures 0 < |bytes| <= left && bytes == c[p..p + |bytes|]
    {
      assert FileOk(d, i);
      var m := Min(left, BSIZE - p % BSIZE);
      var bn, o := p / BSIZE, p % BSIZE;
      assert Mapped(d, i, bn);
      var addr := Bmap(i, bn);
      assert addr != 0;  // so the loop's exit for a missing block is never taken
      ReadChunk(d, i, p, m, c);
      bytes := d.blocks[addr][o..o + m];
    }

    /** bfree, which panics on a block that is not marked. */
    method Bfree(b: int)
      requires 0 <= b < |d.bits| && d.bits[b]
      modifies this`d, this`logged
      ensures d == old(d).(bits := old(d).bits[b := false]) && logged == old(logged) + {BBlock(lay, b)}
    {
      d := d.(bits := d.bits[b := false]);
      logged := logged + {BBlock(lay, b)};
    }

    /**
     itrunc: exactly the blocks of inode i are freed, and no other file changes. Every block that differs on disk is
     logged, and the inode on disk is the one in memory.
     */
    method Itrunc(i: int)
      requires Valid() && 0 <= i < |d.inodes|
      modifies this`d, this`own, this`logged
      ensures Valid() && Truncated(old(d), d, old(own), i) && own == Dropped(old(own), i)
      ensures OthersSame(old(d), d, i) && Updates(old(d), d, i)
      ensures old(logged) <= logged && Recorded(lay, old(d), d, logged)
      ensures |d.blocks| <= BPB ==> logged <= old(logged) + {lay.bmapstart, IBlock(lay, i)}
    {
      ghost var d0, logged0 := d, logged;
      FreeAll(i);
      d := d.(inodes := d.inodes[i := d.inodes[i].(size := 0)]);
      ghost var logged1 := logged;
      Iupdate(i);
      assert Truncated(d0, d, own, i);
      TruncatedOwned(d0, d, own, i);
      TruncatedFiles(d0, d, own, i);
      TruncatedSound(lay, d0, d, own, i, logged0, logged1);
      own := Dropped(own, i);
    }

    /** itrunc up to the new size. */
    method FreeAll(i: int)
      requires Valid() && 0 <= i < |d.inodes|
      modifies this`d, this`logged
      ensures d.blocks == old(d).blocks && |d.inodes| == |old(d).inodes| && d.inodes == old(d).inodes[i := d.inodes[i]]
      ensures d.dinodes == old(d).dinodes
      ensures |d.inodes[i].addrs| == NDIRECT + 1 && forall s :: 0 <= s <= NDIRECT ==> d.inodes[i].addrs[s] == 0
      ensures FreedBits(old(d), own, i, ALL, d.bits)
      ensures BitsLogged(lay, old(d).bits, d.bits, old(logged), logged)
    {
      ghost var d0, logged0 := d, logged;
      FreeDirect(i);
      ghost var d1, logged1 := d, logged;
      assert Slot(d0, i, NDIRECT) == d0.inodes[i].addrs[NDIRECT];
      if d.inodes[i].addrs[NDIRECT] != 0 {
        FreeIndirect(i, d0);
        BitsLoggedTrans(lay, d0.bits, d1.bits, d.bits, logged0, logged1, logged);
      } else {
        NoIndirect(d0, own, i, d.bits);
      }
    }

    /** The loop of itrunc over the direct addresses. */
    method FreeDirect(i: int)
      requires Valid() && 0 <= i < |d.inodes|
      modifies this`d, this`logged
      ensures d.blocks == old(d).blocks && |d.inodes| == |old(d).inodes| && d.inodes == old(d).inodes[i := d.inodes[i]]
      ensures d.dinodes == old(d).dinodes
      ensures |d.inodes[i].addrs| == NDIRECT + 1 && d.inodes[i].addrs[NDIRECT] == old(d).inodes[i].addrs[NDIRECT]
      ensures forall s :: 0 <= s < NDIRECT ==> d.inodes[i].addrs[s] == 0
      ensures FreedBits(old(d), own, i, Done(NDIRECT, 0, false), d.bits)
      ensures BitsLogged(lay, old(d).bits, d.bits, old(logged), logged)
    {
      ghost var d0, logged0 := d, logged;
      assert forall b :: !In(own, i, Done(0, 0, false), b);
      for s := 0 to NDIRECT
        invariant d.blocks == d0.blocks && |d.inodes| == |d0.inodes| && d.inodes == d0.inodes[i := d.inodes[i]]
        invariant |d.inodes[i].addrs| == NDIRECT + 1 && d.dinodes == d0.dinodes
        invariant forall t :: s <= t <= NDIRECT ==> d.inodes[i].addrs[t] == d0.inodes[i].addrs[t]
        invariant forall t :: 0 <= t < s ==> d.inodes[i].addrs[t] == 0
        invariant FreedBits(d0, own, i, Done(s, 0, false), d.bits)
        invariant BitsLogged(lay, d0.bits, d.bits, logged0, logged)
      {
        FreeOneMore(d0, own, i, Done(s, 0, false), Done(s + 1, 0, false), d.bits, s);
        assert d.inodes[i].addrs[s] == d0.inodes[i].addrs[s] == Slot(d0, i, s);
        if d.inodes[i].addrs[s] != 0 {
          BitsLoggedMore(lay, d0.bits, d.bits, logged0, logged, d.inodes[i].addrs[s]);
          Bfree(d.inodes[i].addrs[s]);
          d := d.(inodes := d.inodes[i := d.inodes[i].(addrs := d.inodes[i].addrs[s := 0])]);
        }
      }
    }

    /** The part of itrunc that frees the blocks listed in the indirect block, and then that block. */
    method FreeIndirect(i: int, ghost d0: Disk)
      requires Owned(d0, own) && 0 <= i < |d0.inodes| && d.blocks == d0.blocks && |d.inodes| == |d0.inodes| &&
               d.inodes == d0.inodes[i := d.inodes[i]]
      requires |d.inodes[i].addrs| == NDIRECT + 1 && d.inodes[i].addrs[NDIRECT] == d0.inodes[i].addrs[NDIRECT] != 0
      requires FreedBits(d0, own, i, Done(NDIRECT, 0, false), d.bits)
      modifies this`d, this`logged
      ensures d.blocks == d0.blocks && |d.inodes| == |d0.inodes| && d.inodes == d0.inodes[i := d.inodes[i]]
      ensures d.inodes[i] == old(d).inodes[i].(addrs := old(d).inodes[i].addrs[NDIRECT := 0])
      ensures d.dinodes == old(d).dinodes
      ensures FreedBits(d0, own, i, ALL, d.bits)
      ensures BitsLogged(lay, old(d).bits, d.bits, old(logged), logged)
    {
      ghost var d1, logged1 := d, logged;
      var ib := d.inodes[i].addrs[NDIRECT];
      for j := 0 to NINDIRECT
        invariant d.blocks == d0.blocks && d.inodes == old(d).inodes && d.dinodes == old(d).dinodes
        invariant FreedBits(d0, own, i, Done(NDIRECT, j, false), d.bits)
        invariant BitsLogged(lay, d1.bits, d.bits, logged1, logged)
      {
        FreeOneMore(d0, own, i, Done(NDIRECT, j, false), Done(NDIRECT, j + 1, false), d.bits, NDIRECT + 1 + j);
        if Word(d.blocks[ib], j) != 0 {
          BitsLoggedMore(lay, d1.bits, d.bits, logged1, logged, Word(d.blocks[ib], j));
          Bfree(Word(d.blocks[ib], j));
        }
      }
      FreeOneMore(d0, own, i, Done(NDIRECT, NINDIRECT, false), ALL, d.bits, NDIRECT);
      BitsLoggedMore(lay, d1.bits, d.bits, logged1, logged, ib);
      Bfree(ib);
      d := d.(inodes := d.inodes[i := d.inodes[i].(addrs := d.inodes[i].addrs[NDIRECT := 0])]);
    }
  }

  function Min(a: int, b: int): int {
    if a < b then a else b
  }

  lemma MayLogMore(d: Disk, bitmap: int, iblock: int, i: int, bn: int, lo: int, hi: int, x: int)
    requires Shape(d) && 0 <= i < |d.inodes| && lo <= bn <= hi && MayLog(d, bitmap, bitmap, i, bn, bn, x)
    ensures MayLog(d, bitmap, iblock, i, lo, hi, x)
  {
  }

  lemma Adjacent(c: seq<int>, lo: int, mid: int, hi: int)
    requires 0 <= lo <= mid <= hi <= |c|
    ensures c[lo..mid] + c[mid..hi] == c[lo..hi]
  {
  }

  /** Bytes of one block of a file, read at once. */
  lemma ReadChunk(d: Disk, i: int, p: int, m: int, c: seq<int>)
    requires Shape(d) && 0 <= i < |d.inodes| && HasBytes(d, i, c)
    requires 0 <= p && 0 <= m && p + m <= |c| && p % BSIZE + m <= BSIZE && p < MAXFILE * BSIZE
    requires 0 <= Slot(d, i, FileSlot(p / BSIZE)) < |d.blocks|
    ensures d.blocks[Slot(d, i, FileSlot(p / BSIZE))][p % BSIZE..p % BSIZE + m] == c[p..p + m]
  {
    var part := d.blocks[Slot(d, i, FileSlot(p / BSIZE))][p % BSIZE..p % BSIZE + m];
    forall j | 0 <= j < m
      ensures part[j] == c[p + j]
    {
      SameBlock(p, j);
      assert HasByte(d, i, c, p + j);
    }
  }

  /** What readi is to deliver: nothing for an offset out of range, else the bytes up to the size. */
  ghost function Part(d: Disk, i: int, off: int, n: int): seq<int>
    requires Shape(d) && 0 <= i < |d.inodes| && FileOk(d, i) && 0 <= off && 0 <= n
  {
    if off > d.inodes[i].size || off + n >= UINT32 then [] else Contents(d, i)[off..Min(off + n, d.inodes[i].size)]
  }

  lemma PartIs(d: Disk, i: int, off: int, n: int, left: int, limit: nat)
    requires Shape(d) && 0 <= i < |d.inodes| && FileOk(d, i) && 0 <= off <= d.inodes[i].size && 0 <= n
    requires off + n < UINT32 && left == Min(n, d.inodes[i].size - off)
    ensures HasBytes(d, i, Contents(d, i)) && |Part(d, i, off, n)| == left
    ensures Part(d, i, off, n)[..Min(limit, left)] == Contents(d, i)[off..off + Min(limit, left)]
  {
    SlicePrefix(Contents(d, i), off, off + left, Min(limit, left));
  }

  lemma SlicePrefix(c: seq<int>, lo: int, hi: int, n: int)
    requires 0 <= lo <= hi <= |c| && 0 <= n <= hi - lo
    ensures c[lo..hi][..n] == c[lo..lo + n]
  {
  }

  lemma BlockEnd(p: int)
    ensures (p + (BSIZE - p % BSIZE)) % BSIZE == 0
  {
  }

  lemma SameBlock(p: int, j: int)
    requires 0 <= j && p % BSIZE + j < BSIZE
    ensures (p + j) / BSIZE == p / BSIZE && (p + j) % BSIZE == p % BSIZE + j
  {
  }
}
