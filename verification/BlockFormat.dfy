/**
 Bits and words inside disk blocks: the free bitmap that balloc and bfree work on, and the 32-bit
 block numbers of an indirect block.
 */
module BlockFormat {

  const BSIZE := 1024
  const NINDIRECT := 256

  type Block = seq<int>  // BSIZE bytes

  // ---- bits of a bitmap byte ----

  /** 1 << k for the eight bits of a byte. */
  function Mask(k: int): bv8 {
    if k == 0 then 1 else if k == 1 then 2 else if k == 2 then 4 else if k == 3 then 8
    else if k == 4 then 16 else if k == 5 then 32 else if k == 6 then 64 else 128
  }

  /** Marking or clearing bit j of a bitmap byte changes that bit and no other, so a bitmap is a sequence of bits. */
  lemma MaskBits(x: bv8, j: int, k: int)
    requires 0 <= j < 8 && 0 <= k < 8
    ensures ((x | Mask(j)) & Mask(k)) != 0 <==> j == k || (x & Mask(k)) != 0
    ensures ((x & !Mask(j)) & Mask(k)) != 0 <==> j != k && (x & Mask(k)) != 0
  {
  }

  // ---- 32-bit words of a block ----

  function Word(blk: Block, j: int): int
    requires |blk| == BSIZE && 0 <= j < NINDIRECT
  {
    blk[4 * j] + 0x100 * blk[4 * j + 1] + 0x1_0000 * blk[4 * j + 2] + 0x100_0000 * blk[4 * j + 3]
  }

  /** The word v, least significant byte first. */
  function PutWord(blk: Block, j: int, v: int): (r: Block)
    requires |blk| == BSIZE && 0 <= j < NINDIRECT
    ensures |r| == BSIZE
  {
    blk[4 * j := v % 0x100][4 * j + 1 := v / 0x100 % 0x100]
       [4 * j + 2 := v / 0x100 / 0x100 % 0x100][4 * j + 3 := v / 0x100 / 0x100 / 0x100]
  }

  lemma WordPut(blk: Block, j: int, v: int, k: int)
    requires |blk| == BSIZE && 0 <= j < NINDIRECT && 0 <= k < NINDIRECT
    ensures Word(PutWord(blk, j, v), k) == if j == k then v else Word(blk, k)
  {
    if j == k {
      var a := v / 0x100;
      var b := a / 0x100;
      assert v == 0x100 * a + v % 0x100 && a == 0x100 * b + a % 0x100 && b == 0x100 * (b / 0x100) + b % 0x100;
    } else {
      var r := PutWord(blk, j, v);
      assert r[4 * k] == blk[4 * k] && r[4 * k + 1] == blk[4 * k + 1] && r[4 * k + 2] == blk[4 * k + 2] &&
             r[4 * k + 3] == blk[4 * k + 3];
    }
  }

  function Zero(): (r: Block)
    ensures |r| == BSIZE
    ensures forall j :: 0 <= j < NINDIRECT ==> Word(r, j) == 0
  {
    seq(BSIZE, _ => 0)
  }
}
