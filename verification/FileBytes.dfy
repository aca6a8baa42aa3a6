/** Files as byte sequences: what the blocks of an inode hold, and how block
    writes show in it. */
module FileBytes {
  import opened BlockBits
  import opened BlockOwners

  /** The slot that holds file block bn. */
  function SlotOf(inum: nat, bn: nat): (s: Slot) {
    if bn < NDIRECT then Direct(inum, bn) else Entry(inum, bn - NDIRECT)
  }

  function BlockByte(disk: Disk, a: int, o: nat): (x: int) {
    if a != 0 && 0 <= a < |disk| && o < |disk[a].bytes| then disk[a].bytes[o] else 0
  }

  /** The byte at offset `off`; a hole reads as zero. */
  function ByteAt(inodes: Inodes, disk: Disk, inum: nat, off: nat): (x: int) {
    BlockByte(disk, Addr(inodes, disk, SlotOf(inum, off / BSIZE)), off % BSIZE)
  }

  /** The bytes of file inum. */
  ghost function Content(inodes: Inodes, disk: Disk, inum: nat): (c: seq<int>)
    ensures inum in inodes ==> |c| == inodes[inum].size
    ensures forall off :: 0 <= off < |c| ==> c[off] == ByteAt(inodes, disk, inum, off)
  {
    if inum in inodes then seq(inodes[inum].size, off requires 0 <= off => ByteAt(inodes, disk, inum, off)) else []
  }

  /** No byte of any file differs. */
  ghost predicate BytesKept(inodes: Inodes, disk: Disk, inodes1: Inodes, disk1: Disk) {
    forall inum: nat, off: nat :: ByteAt(inodes1, disk1, inum, off) == ByteAt(inodes, disk, inum, off)
  }

  /** A slot that holds file data rather than addresses. */
  ghost predicate IsData(s: Slot) {
    !s.Indirect?
  }

  /** Every byte of every file but those at off0 .. off0 + tot - 1 of inum, which
      are the first tot bytes of src. */
  ghost predicate Wrote(
    inodes: Inodes, disk: Disk, inodes1: Inodes, disk1: Disk, inum: nat, off0: nat, src: seq<int>, tot: nat)
  {
    tot <= |src| && forall n: nat, off: nat ::
      ByteAt(inodes1, disk1, n, off) ==
        if n == inum && off0 <= off < off0 + tot then src[off - off0] else ByteAt(inodes, disk, n, off)
  }

  lemma WroteThenKept(
    inodes: Inodes, disk: Disk, inodes1: Inodes, disk1: Disk, inodes2: Inodes, disk2: Disk,
    inum: nat, off0: nat, src: seq<int>, tot: nat)
    requires Wrote(inodes, disk, inodes1, disk1, inum, off0, src, tot) && BytesKept(inodes1, disk1, inodes2, disk2)
    ensures Wrote(inodes, disk, inodes2, disk2, inum, off0, src, tot)
  {
  }

  /** The block after m bytes of src, from position tot, are copied to offset o. */
  function Patched(blk: seq<int>, o: nat, src: seq<int>, tot: nat, m: nat): (r: seq<int>)
    requires o + m <= |blk| && tot + m <= |src|
    ensures |r| == |blk|
  {
    blk[..o] + src[tot..tot + m] + blk[o + m..]
  }

  /** disk1 is disk with m bytes of src, from position tot, copied to the block of
      inum that holds offset off, at that offset; no slot changes. */
  ghost predicate PatchStep(
    inodes: Inodes, disk: Disk, disk1: Disk, inum: nat, off: nat, src: seq<int>, tot: nat, m: nat)
  {
    var a := Addr(inodes, disk, SlotOf(inum, off / BSIZE));
    && 0 < a < |disk| && |disk[a].bytes| == BSIZE && off % BSIZE + m <= BSIZE && tot + m <= |src|
    && disk1 == disk[a := Data(Patched(disk[a].bytes, off % BSIZE, src, tot, m))]
    && forall s :: Addr(inodes, disk1, s) == Addr(inodes, disk, s)
  }

  /** Writing into the block of one data slot changes that part of that file. */
  lemma PatchBytes(
    inodes: Inodes, disk: Disk, disk1: Disk, inum: nat, off: nat, src: seq<int>, tot: nat, m: nat, n: nat, x: nat)
    requires Unique(inodes, disk, {}) && PatchStep(inodes, disk, disk1, inum, off, src, tot, m)
    ensures ByteAt(inodes, disk1, n, x) ==
      if n == inum && off <= x < off + m then src[tot + (x - off)] else ByteAt(inodes, disk, n, x)
  {
    var s0, s := SlotOf(inum, off / BSIZE), SlotOf(n, x / BSIZE);
    if s == s0 {
      assert n == inum && x / BSIZE == off / BSIZE;
      assert x - off == x % BSIZE - off % BSIZE;
    } else {
      assert Addr(inodes, disk, s) != Addr(inodes, disk, s0);
    }
  }

  lemma WroteMore(
    inodes: Inodes, disk: Disk, inodes1: Inodes, disk1: Disk, disk2: Disk,
    inum: nat, off0: nat, src: seq<int>, tot: nat, m: nat)
    requires Wrote(inodes, disk, inodes1, disk1, inum, off0, src, tot) && Unique(inodes1, disk1, {})
    requires PatchStep(inodes1, disk1, disk2, inum, off0 + tot, src, tot, m)
    ensures Wrote(inodes, disk, inodes1, disk2, inum, off0, src, tot + m)
  {
    forall n: nat, x: nat
      ensures ByteAt(inodes1, disk2, n, x) ==
        if n == inum && off0 <= x < off0 + (tot + m) then src[x - off0] else ByteAt(inodes, disk, n, x)
    {
      PatchBytes(inodes1, disk1, disk2, inum, off0 + tot, src, tot, m, n, x);
    }
  }

  /** One slice update, growing the file when it reaches past the end. */
  ghost function Overwritten(c: seq<int>, off: nat, data: seq<int>): (r: seq<int>)
    requires off <= |c|
  {
    c[..off] + data + (if off + |data| <= |c| then c[off + |data|..] else [])
  }

  /** A finished write is one slice update of the file, and no change of others. */
  lemma WroteContent(
    inodes: Inodes, disk: Disk, inodes1: Inodes, disk1: Disk, inum: nat, off0: nat, src: seq<int>, tot: nat, n: nat)
    requires Wrote(inodes, disk, inodes1, disk1, inum, off0, src, tot)
    requires inum in inodes && n in inodes && n in inodes1 && off0 <= inodes[inum].size
    requires inodes1[n].size ==
      if n == inum && off0 + tot > inodes[inum].size then off0 + tot else inodes[n].size
    ensures Content(inodes1, disk1, n) ==
      if n == inum then Overwritten(Content(inodes, disk, inum), off0, src[..tot]) else Content(inodes, disk, n)
  {
    hide ByteAt;
    var was, now := Content(inodes, disk, n), Content(inodes1, disk1, n);
    var want := if n == inum then Overwritten(was, off0, src[..tot]) else was;
    assert |now| == |want|;
    forall x: nat | x < |now| ensures now[x] == want[x] {
      assert now[x] == ByteAt(inodes1, disk1, n, x);
      assert x < |was| ==> was[x] == ByteAt(inodes, disk, n, x);
    }
  }
}
