/**
 The file system as blocks on a disk: bitmap blocks, inode blocks and data blocks, and how they are read back.
 */
module DiskImage {
  import opened BlockFormat
  import opened FileSystem

  type Image = seq<Block>

  // ---- bitmap blocks ----

  /** n bits from position k on as a number, the first one least significant; bits beyond the end are 0. */
  function Packed(bits: seq<bool>, k: int, n: nat): int
    decreases |bits|, n
  {
    if n == 0 then 0 else (if 0 <= k < |bits| && bits[k] then 1 else 0) + 2 * Packed(bits, k + 1, n - 1)
  }

  function BitOf(x: int, j: nat): bool
    decreases j
  {
    if j == 0 then x % 2 == 1 else BitOf(x / 2, j - 1)
  }

  lemma {:induction false} BitReadBack(bits: seq<bool>, k: int, n: nat, j: nat)
    requires 0 <= k && j < n && k + j < |bits|
    ensures BitOf(Packed(bits, k, n), j) == bits[k + j]
    decreases j
  {
    var rest := Packed(bits, k + 1, n - 1);
    assert Packed(bits, k, n) % 2 == (if bits[k] then 1 else 0) && Packed(bits, k, n) / 2 == rest;
    if j > 0 {
      BitReadBack(bits, k + 1, n - 1, j - 1);
    }
  }

  lemma {:induction false} PackedSame(bits: seq<bool>, bits': seq<bool>, k: int, n: nat)
    requires |bits'| == |bits| && forall b :: k <= b < k + n && 0 <= b < |bits| ==> bits'[b] == bits[b]
    ensures Packed(bits', k, n) == Packed(bits, k, n)
    decreases n
  {
    if n > 0 {
      PackedSame(bits, bits', k + 1, n - 1);
    }
  }

  /** The bits from position first on, eight to a byte. */
  function BitmapBlock(bits: seq<bool>, first: int, width: nat): (r: Block)
    ensures |r| == BSIZE
  {
    seq(BSIZE, p => Packed(bits, first + width * p, width))
  }

  // ---- inode blocks ----

  /** Byte c of a 32-bit word. */
  function WordByte(v: int, c: int): int {
    if c == 0 then v % 0x100
    else if c == 1 then v / 0x100 % 0x100
    else if c == 2 then v / 0x100 / 0x100 % 0x100
    else v / 0x100 / 0x100 / 0x100
  }

  /** Word w of an on-disk inode: the size after two words of type and link count, then the addresses. */
  function InodeWord(ip: Inode, w: int): int
    requires |ip.addrs| == NDIRECT + 1 && 2 <= w < 16
  {
    if w == 2 then ip.size else ip.addrs[w - 3]
  }

  predicate InodesOk(dinodes: seq<Inode>) {
    forall i :: 0 <= i < |dinodes| ==> |dinodes[i].addrs| == NDIRECT + 1
  }

  /** Byte p of the block whose first inode is number first; what is not modelled stays as it is in blk. */
  function InodeByte(blk: Block, dinodes: seq<Inode>, first: int, p: int): int
    requires InodesOk(dinodes) && 0 <= p
  {
    var i, w := first + p / 64, p % 64 / 4;
    if 0 <= i < |dinodes| && w >= 2 then WordByte(InodeWord(dinodes[i], w), p % 4)
    else if p < |blk| then blk[p] else 0
  }

  function InodeBlock(blk: Block, dinodes: seq<Inode>, first: int): (r: Block)
    requires InodesOk(dinodes)
    ensures |r| == BSIZE
  {
    seq(BSIZE, p requires 0 <= p => InodeByte(blk, dinodes, first, p))
  }

  /** The j-th inode of a block. */
  function InodeAt(blk: Block, j: int): Inode
    requires |blk| == BSIZE && 0 <= j < IPB
  {
    Inode(seq(NDIRECT + 1, k requires 0 <= k < NDIRECT + 1 => Word(blk, 16 * j + 3 + k)), Word(blk, 16 * j + 2))
  }

  predicate HasWord(blk: Block, j: int, ip: Inode, w: int)
    requires |blk| == BSIZE && 0 <= j < IPB && |ip.addrs| == NDIRECT + 1 && 2 <= w < 16
  {
    Word(blk, 16 * j + w) == InodeWord(ip, w)
  }

  lemma InodeFromWords(blk: Block, j: int, ip: Inode)
    requires |blk| == BSIZE && 0 <= j < IPB && |ip.addrs| == NDIRECT + 1
    requires forall w {:trigger HasWord(blk, j, ip, w)} :: 2 <= w < 16 ==> HasWord(blk, j, ip, w)
    ensures InodeAt(blk, j) == ip
  {
    forall k | 0 <= k < NDIRECT + 1
      ensures InodeAt(blk, j).addrs[k] == ip.addrs[k]
    {
      assert HasWord(blk, j, ip, 3 + k);
    }
    assert HasWord(blk, j, ip, 2);
  }

  lemma WordReadBack(blk: Block, dinodes: seq<Inode>, first: int, j: int, w: int)
    requires InodesOk(dinodes) && 0 <= j < IPB && 0 <= first + j < |dinodes| && 2 <= w < 16
    ensures Word(InodeBlock(blk, dinodes, first), 16 * j + w) == InodeWord(dinodes[first + j], w)
  {
    var r, v, p := InodeBlock(blk, dinodes, first), InodeWord(dinodes[first + j], w), 4 * (16 * j + w);
    forall c | 0 <= c < 4
      ensures r[p + c] == WordByte(v, c)
    {
      BytePlace(j, w, c);
    }
    BytesMakeWord(v);
  }

  lemma BytePlace(j: int, w: int, c: int)
    requires 0 <= j && 0 <= w < 16 && 0 <= c < 4
    ensures var p := 4 * (16 * j + w) + c;
            p / 64 == j && p % 64 / 4 == w && p % 4 == c
  {
  }

  lemma BytesMakeWord(v: int)
    ensures WordByte(v, 0) + 0x100 * WordByte(v, 1) + 0x1_0000 * WordByte(v, 2) + 0x100_0000 * WordByte(v, 3) == v
  {
    var a := v / 0x100;
    var b := a / 0x100;
    assert v == 0x100 * a + v % 0x100 && a == 0x100 * b + a % 0x100;
  }

  lemma InodeReadBack(blk: Block, dinodes: seq<Inode>, first: int, j: int)
    requires InodesOk(dinodes) && 0 <= j < IPB && 0 <= first + j < |dinodes|
    ensures InodeAt(InodeBlock(blk, dinodes, first), j) == dinodes[first + j]
  {
    var r, ip := InodeBlock(blk, dinodes, first), dinodes[first + j];
    forall w | 2 <= w < 16
      ensures HasWord(r, j, ip, w)
    {
      WordReadBack(blk, dinodes, first, j, w);
    }
    InodeFromWords(r, j, ip);
  }

  // ---- the whole disk ----

  predicate InBitmap(lay: Layout, nblocks: int, x: int) {
    lay.bmapstart <= x <= lay.bmapstart + nblocks / BPB
  }

  predicate InInodes(lay: Layout, ninodes: int, x: int) {
    lay.inodestart <= x <= lay.inodestart + ninodes / IPB
  }

  /** Block x of the disk. Blocks in neither area and before the data blocks are as in base. */
  function BlockAt(lay: Layout, base: Image, d: Disk, x: int): Block
    requires InodesOk(d.dinodes) && 0 <= x < |base| == |d.blocks|
  {
    if InBitmap(lay, |d.blocks|, x) then BitmapBlock(d.bits, (x - lay.bmapstart) * BPB, 8)
    else if InInodes(lay, |d.dinodes|, x) then InodeBlock(base[x], d.dinodes, (x - lay.inodestart) * IPB)
    else if x < lay.nmeta then base[x]
    else d.blocks[x]
  }

  /** The disk in blocks. */
  function Imaged(lay: Layout, base: Image, d: Disk): (r: Image)
    requires InodesOk(d.dinodes) && |base| == |d.blocks|
    ensures |r| == |base|
  {
    seq(|base|, x requires 0 <= x < |base| => BlockAt(lay, base, d, x))
  }

  predicate Readable(lay: Layout, ninodes: int, r: Image) {
    && LayoutOk(lay, |r|, ninodes) && 0 <= ninodes
    && forall x :: 0 <= x < |r| && (InBitmap(lay, |r|, x) || InInodes(lay, ninodes, x)) ==> |r[x]| == BSIZE
  }

  function LoadedBit(lay: Layout, ninodes: int, r: Image, b: int): bool
    requires Readable(lay, ninodes, r) && 0 <= b < |r|
  {
    BitOf(r[BBlock(lay, b)][b % BPB / 8], b % 8)
  }

  function LoadedInode(lay: Layout, ninodes: int, r: Image, i: int): Inode
    requires Readable(lay, ninodes, r) && 0 <= i < ninodes
  {
    InodeAt(r[IBlock(lay, i)], i % IPB)
  }

  /** What the kernel finds on a disk after a boot, when inodes are read into memory from their blocks. */
  function Loaded(lay: Layout, ninodes: int, r: Image): Disk
    requires Readable(lay, ninodes, r)
  {
    var dinodes := seq(ninodes, i requires 0 <= i < ninodes => LoadedInode(lay, ninodes, r, i));
    Disk(seq(|r|, b requires 0 <= b < |r| => LoadedBit(lay, ninodes, r, b)),
         seq(|r|, b requires 0 <= b < |r| => if b < lay.nmeta then Zero() else r[b]),
         dinodes, dinodes)
  }

  lemma ImageReadable(lay: Layout, base: Image, d: Disk)
    requires InodesOk(d.dinodes) && |base| == |d.blocks| && LayoutOk(lay, |d.blocks|, |d.dinodes|)
    ensures Readable(lay, |d.dinodes|, Imaged(lay, base, d))
  {
  }

  lemma BitBack(lay: Layout, base: Image, d: Disk, b: int)
    requires InodesOk(d.dinodes) && |base| == |d.blocks| == |d.bits| && LayoutOk(lay, |d.blocks|, |d.dinodes|)
    requires 0 <= b < |d.blocks|
    ensures Readable(lay, |d.dinodes|, Imaged(lay, base, d))
    ensures LoadedBit(lay, |d.dinodes|, Imaged(lay, base, d), b) == d.bits[b]
  {
    ImageReadable(lay, base, d);
    BitPlace(b);
    BitReadBack(d.bits, b / BPB * BPB + 8 * (b % BPB / 8), 8, b % 8);
  }

  lemma BitPlace(b: int)
    requires 0 <= b
    ensures 0 <= b % BPB / 8 < BSIZE && b / BPB * BPB + 8 * (b % BPB / 8) + b % 8 == b
  {
    var m, q := b / BPB, b % BPB;
    var p, t := q / 8, q % 8;
    assert b == m * BPB + 8 * p + t;
    EighthRest(BPB / 8 * m + p, t);
  }

  lemma EighthRest(x: int, t: int)
    requires 0 <= t < 8
    ensures (8 * x + t) % 8 == t
  {
  }

  lemma InodeBack(lay: Layout, base: Image, d: Disk, i: int)
    requires InodesOk(d.dinodes) && |base| == |d.blocks| && LayoutOk(lay, |d.blocks|, |d.dinodes|)
    requires 0 <= i < |d.dinodes|
    ensures Readable(lay, |d.dinodes|, Imaged(lay, base, d))
    ensures LoadedInode(lay, |d.dinodes|, Imaged(lay, base, d), i) == d.dinodes[i]
  {
    ImageReadable(lay, base, d);
    var x, j := IBlock(lay, i), i % IPB;
    var first := (x - lay.inodestart) * IPB;
    assert first + j == i;
    InodeReadBack(base[x], d.dinodes, first, j);
  }

  /** Reading back what was laid out gives the same file system, with the inodes in memory as they are on disk. */
  lemma LoadedImage(lay: Layout, base: Image, d: Disk, own: map<int, Owner>)
    requires Sound(lay, d, own) && |base| == |d.blocks|
    ensures InodesOk(d.dinodes) && Readable(lay, |d.dinodes|, Imaged(lay, base, d))
    ensures Loaded(lay, |d.dinodes|, Imaged(lay, base, d)) == d.(inodes := d.dinodes)
  {
    var r := Imaged(lay, base, d);
    ImageReadable(lay, base, d);
    var l := Loaded(lay, |d.dinodes|, r);
    forall b | 0 <= b < |d.bits|
      ensures l.bits[b] == d.bits[b]
    {
      BitBack(lay, base, d, b);
    }
    forall b | 0 <= b < |d.blocks|
      ensures l.blocks[b] == d.blocks[b]
    {
      assert MetaAt(lay, d, b);
    }
    forall i | 0 <= i < |d.dinodes|
      ensures l.dinodes[i] == d.dinodes[i]
    {
      InodeBack(lay, base, d, i);
    }
  }

  /** Only the blocks from the inodes on are read. */
  lemma LoadedSame(lay: Layout, ninodes: int, r: Image, r': Image)
    requires Readable(lay, ninodes, r) && |r'| == |r| && forall x :: lay.inodestart <= x < |r| ==> r'[x] == r[x]
    ensures Readable(lay, ninodes, r') && Loaded(lay, ninodes, r') == Loaded(lay, ninodes, r)
  {
    assert Readable(lay, ninodes, r');
    var l, l' := Loaded(lay, ninodes, r), Loaded(lay, ninodes, r');
    assert forall b :: 0 <= b < |r| ==> LoadedBit(lay, ninodes, r', b) == LoadedBit(lay, ninodes, r, b);
    assert forall i :: 0 <= i < ninodes ==> LoadedInode(lay, ninodes, r', i) == LoadedInode(lay, ninodes, r, i);
    assert l'.bits == l.bits && l'.blocks == l.blocks && l'.dinodes == l.dinodes;
  }

  lemma InBitmapBlock(q: int, b: int)
    requires q * BPB <= b < q * BPB + BPB
    ensures b / BPB == q
  {
  }

  lemma InInodeBlock(q: int, i: int)
    requires q * IPB <= i < q * IPB + IPB
    ensures i / IPB == q
  {
  }

  /** A block that is not logged is the same before and after. */
  lemma UnloggedSame(lay: Layout, base: Image, d: Disk, d': Disk, logged: set<int>, x: int)
    requires InodesOk(d.dinodes) && InodesOk(d'.dinodes) && |base| == |d.blocks| == |d.bits|
    requires Recorded(lay, d, d', logged) && 0 <= x < |base| && x !in logged
    ensures BlockAt(lay, base, d', x) == BlockAt(lay, base, d, x)
  {
    if InBitmap(lay, |d.blocks|, x) {
      BitmapSame(lay, d, d', logged, x);
    } else if InInodes(lay, |d.dinodes|, x) {
      InodesSame(lay, base[x], d, d', logged, x);
    } else {
      assert BlockLogged(d.blocks, d'.blocks, logged, x);
    }
  }

  lemma BitmapSame(lay: Layout, d: Disk, d': Disk, logged: set<int>, x: int)
    requires Recorded(lay, d, d', logged) && x !in logged && lay.bmapstart <= x
    ensures BitmapBlock(d'.bits, (x - lay.bmapstart) * BPB, 8) == BitmapBlock(d.bits, (x - lay.bmapstart) * BPB, 8)
  {
    var first, width := (x - lay.bmapstart) * BPB, 8;
    forall p | 0 <= p < BSIZE
      ensures Packed(d'.bits, first + width * p, width) == Packed(d.bits, first + width * p, width)
    {
      forall b | first + width * p <= b < first + width * p + width && 0 <= b < |d.bits|
        ensures d'.bits[b] == d.bits[b]
      {
        InBitmapBlock(x - lay.bmapstart, b);
        assert BitLogged(lay, d.bits, d'.bits, logged, b);
      }
      PackedSame(d.bits, d'.bits, first + width * p, width);
    }
  }

  lemma InodesSame(lay: Layout, blk: Block, d: Disk, d': Disk, logged: set<int>, x: int)
    requires Recorded(lay, d, d', logged) && x !in logged && lay.inodestart <= x
    requires InodesOk(d.dinodes) && InodesOk(d'.dinodes)
    ensures var first := (x - lay.inodestart) * IPB;
            InodeBlock(blk, d'.dinodes, first) == InodeBlock(blk, d.dinodes, first)
  {
    var first := (x - lay.inodestart) * IPB;
    forall p | 0 <= p < BSIZE
      ensures InodeByte(blk, d'.dinodes, first, p) == InodeByte(blk, d.dinodes, first, p)
    {
      var i := first + p / 64;
      if 0 <= i < |d.dinodes| {
        InInodeBlock(x - lay.inodestart, i);
        assert InodeLogged(lay, d.dinodes, d'.dinodes, logged, i);
      }
    }
  }
}
