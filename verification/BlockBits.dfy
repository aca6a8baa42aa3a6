/** The free-block bitmap of fs.c: one bit per disk block, eight to a byte, and
    little-endian block numbers inside an indirect block. */
module BlockBits {
  const BSIZE: nat := 1024
  const BPB: nat := 8192     // bitmap bits per block
  const NINDIRECT: nat := 256

  // ---- bits ----

  /** 1 << k. */
  function Mask(k: int): (m: bv8) {
    if k == 0 then 1 else if k == 1 then 2 else if k == 2 then 4 else if k == 3 then 8
    else if k == 4 then 16 else if k == 5 then 32 else if k == 6 then 64 else 128
  }

  lemma MaskBits(x: bv8, k: int, j: int)
    requires 0 <= k < 8 && 0 <= j < 8
    ensures Mask(k) & Mask(k) != 0
    ensures (x | Mask(k)) & Mask(k) != 0 && (x & !Mask(k)) & Mask(k) == 0
    ensures j != k ==> (x | Mask(k)) & Mask(j) == x & Mask(j)
    ensures j != k ==> (x & !Mask(k)) & Mask(j) == x & Mask(j)
  {
  }

  /** The bit of block b; the bitmap blocks are taken end to end. */
  predicate Bit(bitmap: seq<bv8>, b: int)
    requires 0 <= b < 8 * |bitmap|
  {
    bitmap[b / 8] & Mask(b % 8) != 0
  }

  function SetBit(bitmap: seq<bv8>, b: int): (r: seq<bv8>)
    requires 0 <= b < 8 * |bitmap|
    ensures |r| == |bitmap|
  {
    bitmap[b / 8 := bitmap[b / 8] | Mask(b % 8)]
  }

  function ClearBit(bitmap: seq<bv8>, b: int): (r: seq<bv8>)
    requires 0 <= b < 8 * |bitmap|
    ensures |r| == |bitmap|
  {
    bitmap[b / 8 := bitmap[b / 8] & !Mask(b % 8)]
  }

  /** Marking a block changes the bit of that block and no other. */
  lemma BitsAfter(bitmap: seq<bv8>, b: int, c: int)
    requires 0 <= b < 8 * |bitmap| && 0 <= c < 8 * |bitmap|
    ensures Bit(SetBit(bitmap, b), c) == (c == b || Bit(bitmap, c))
    ensures Bit(ClearBit(bitmap, b), c) == (c != b && Bit(bitmap, c))
  {
    if b / 8 == c / 8 { MaskBits(bitmap[b / 8], b % 8, c % 8); }
  }

  /** Bit bi of the bitmap block for blocks b .. b + BPB - 1 is bit b + bi of the
      bitmap blocks taken end to end. */
  lemma BitAddress(b: nat, bi: nat)
    requires b % BPB == 0 && bi < BPB
    ensures b / BPB * BSIZE + bi / 8 == (b + bi) / 8 && bi % 8 == (b + bi) % 8
    ensures (b + bi) / BPB == b / BPB
  {
  }

  // ---- words of an indirect block ----

  ghost predicate IsByte(x: int) { 0 <= x < 256 }

  ghost predicate IsBlock(blk: seq<int>) {
    |blk| == BSIZE && forall o :: 0 <= o < BSIZE ==> IsByte(blk[o])
  }

  /** a[i] of a block read as an array of uint. */
  function Word(blk: seq<int>, i: nat): (w: int)
    requires 4 * i + 3 < |blk|
  {
    blk[4 * i] + 0x100 * blk[4 * i + 1] + 0x1_0000 * blk[4 * i + 2] + 0x100_0000 * blk[4 * i + 3]
  }

  function PutWord(blk: seq<int>, i: nat, w: int): (r: seq<int>)
    requires 4 * i + 3 < |blk|
    ensures |r| == |blk|
  {
    blk[4 * i := w % 0x100][4 * i + 1 := w / 0x100 % 0x100]
       [4 * i + 2 := w / 0x1_0000 % 0x100][4 * i + 3 := w / 0x100_0000 % 0x100]
  }

  lemma WordAfter(blk: seq<int>, i: nat, w: int, j: nat)
    requires 4 * i + 3 < |blk| && 4 * j + 3 < |blk| && 0 <= w < 0x1_0000_0000
    ensures Word(PutWord(blk, i, w), j) == if j == i then w else Word(blk, j)
  {
    if i == j {
      var a, b, c := w / 0x100, w / 0x1_0000, w / 0x100_0000;
      assert b == a / 0x100 && c == b / 0x100;
      assert w == w % 0x100 + 0x100 * a;
      assert a == a % 0x100 + 0x100 * b;
      assert b == b % 0x100 + 0x100 * c;
      assert c % 0x100 == c;
    }
  }

  /** bzero. */
  function Zeroed(): (blk: seq<int>)
    ensures |blk| == BSIZE && forall o :: 0 <= o < BSIZE ==> blk[o] == 0
  {
    seq(BSIZE, o => 0)
  }

  lemma ZeroWords(i: nat)
    requires i < NINDIRECT
    ensures IsBlock(Zeroed()) && Word(Zeroed(), i) == 0
  {
  }
}
