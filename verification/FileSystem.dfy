/** fs.c: the block allocator, bmap, itrunc, readi and writei, and file.c's
    filewrite loop over them. */
module FileSystem {
  import opened BlockBits
  import opened BlockOwners
  import opened FileBytes
  import opened Params

  /** What log_write is called on, within one operation. */
  datatype Logged = InodeBlock(i: int) | MapBlock(i: int) | DataBlock(b: int)

  const IPB: nat := 16

  ghost predicate SizesOk(inodes: Inodes) {
    forall n :: n in inodes ==> inodes[n].size <= MAXFILE * BSIZE
  }

  /** Every block below a file's size is there. */
  ghost predicate NoHoles(inodes: Inodes, disk: Disk) {
    forall n: nat, bn: nat :: n in inodes && bn * BSIZE < inodes[n].size ==> Addr(inodes, disk, SlotOf(n, bn)) != 0
  }

  lemma NoHolesKept(inodes: Inodes, disk: Disk, inodes1: Inodes, disk1: Disk)
    requires NoHoles(inodes, disk) && AddrsKept(inodes, disk, inodes1, disk1) && SizesKept(inodes, inodes1)
    ensures NoHoles(inodes1, disk1)
  {
    hide Addr;
  }

  /** No block is free. */
  ghost predicate Full(bitmap: seq<bv8>, n: nat) {
    n <= 8 * |bitmap| && forall b :: 0 <= b < n ==> Bit(bitmap, b)
  }

  /** Same inodes, same sizes. */
  ghost predicate SizesKept(inodes: Inodes, inodes1: Inodes) {
    inodes.Keys == inodes1.Keys && forall n :: n in inodes ==> inodes1[n].size == inodes[n].size
  }

  /** Zeroing a block nobody holds shows in no file. */
  lemma ZeroUnownedBytes(inodes: Inodes, disk: Disk, b: int)
    requires 0 < b < |disk| && Unowned(inodes, disk, b)
    requires forall s :: Addr(inodes, disk[b := Data(Zeroed())], s) == Addr(inodes, disk, s)
    ensures BytesKept(inodes, disk, inodes, disk[b := Data(Zeroed())])
  {
    forall n: nat, off: nat
      ensures ByteAt(inodes, disk[b := Data(Zeroed())], n, off) == ByteAt(inodes, disk, n, off)
    {
      assert Addr(inodes, disk, SlotOf(n, off / BSIZE)) != b;
    }
  }

  /** A zeroed block put where there was a hole shows in no file. */
  lemma GainBytes(inodes: Inodes, disk: Disk, inodes1: Inodes, disk1: Disk, s0: Slot, b: int)
    requires Changed(inodes, disk, inodes1, disk1, s0, b) && Addr(inodes, disk, s0) == 0 && |disk1| == |disk|
    requires 0 < b < |disk| && disk1[b] == Data(Zeroed())
    requires forall s :: IsData(s) && 0 < Addr(inodes, disk, s) < |disk| ==>
      disk1[Addr(inodes, disk, s)] == disk[Addr(inodes, disk, s)]
    ensures BytesKept(inodes, disk, inodes1, disk1)
  {
    forall n: nat, off: nat ensures ByteAt(inodes1, disk1, n, off) == ByteAt(inodes, disk, n, off) {
      assert IsData(SlotOf(n, off / BSIZE));
    }
  }

  lemma KeptTwice(inodes: Inodes, disk: Disk, inodes1: Inodes, disk1: Disk, inodes2: Inodes, disk2: Disk)
    requires BytesKept(inodes, disk, inodes1, disk1) && BytesKept(inodes1, disk1, inodes2, disk2)
    ensures BytesKept(inodes, disk, inodes2, disk2)
  {
  }

  lemma InData(inodes: Inodes, disk: Disk, bitmap: seq<bv8>, meta: nat, s: Slot)
    requires Owned(inodes, disk, bitmap, meta, {}) && Addr(inodes, disk, s) != 0
    ensures meta <= Addr(inodes, disk, s) < |disk|
  {
  }

  /** What allocating block a, or none, passes to log_write. */
  ghost function BlockLog(a: int): (r: set<Logged>) {
    if a == 0 then {} else {DataBlock(a), MapBlock(a / BPB)}
  }

  /** What listing block a in indirect block i passes to log_write. */
  ghost function EntryLog(a: int, i: int): (r: set<Logged>) {
    if a == 0 then {} else {DataBlock(a), MapBlock(a / BPB), DataBlock(i)}
  }

  /** Slots that hold a block go on holding it. */
  ghost predicate AddrsKept(inodes: Inodes, disk: Disk, inodes1: Inodes, disk1: Disk) {
    forall s :: Addr(inodes, disk, s) != 0 ==> Addr(inodes1, disk1, s) == Addr(inodes, disk, s)
  }

  lemma AddrsKeptTwice(inodes: Inodes, disk: Disk, inodes1: Inodes, disk1: Disk, inodes2: Inodes, disk2: Disk)
    requires AddrsKept(inodes, disk, inodes1, disk1) && AddrsKept(inodes1, disk1, inodes2, disk2)
    ensures AddrsKept(inodes, disk, inodes2, disk2)
  {
    forall s | Addr(inodes, disk, s) != 0 ensures Addr(inodes2, disk2, s) == Addr(inodes, disk, s) {
      assert Addr(inodes1, disk1, s) == Addr(inodes, disk, s);
    }
  }

  lemma SameIndirect(inodes: Inodes, disk: Disk, inodes1: Inodes, disk1: Disk, inum: nat)
    requires AddrsKept(inodes, disk, inodes1, disk1) && Addr(inodes, disk, Indirect(inum)) != 0
    ensures Addr(inodes1, disk1, Indirect(inum)) == Addr(inodes, disk, Indirect(inum))
  {
  }

  /** The file system at one moment. */
  datatype Snapshot = Snapshot(inodes: Inodes, disk: Disk, bitmap: seq<bv8>)

  /** Between a and b only inode inum and blocks in `logged` changed. */
  ghost predicate Logs(a: Snapshot, b: Snapshot, inum: nat, logged: set<Logged>) {
    && |b.disk| == |a.disk| && |b.bitmap| == |a.bitmap| && b.inodes.Keys == a.inodes.Keys
    && (forall x :: 0 <= x < |a.disk| && b.disk[x] != a.disk[x] ==> DataBlock(x) in logged)
    && (forall i :: 0 <= i < |a.bitmap| && b.bitmap[i] != a.bitmap[i] ==> MapBlock(i / BSIZE) in logged)
    && (forall n :: n in a.inodes && n != inum ==> b.inodes[n] == a.inodes[n])
  }

  lemma LogsTwice(a: Snapshot, b: Snapshot, c: Snapshot, inum: nat, logged: set<Logged>, logged1: set<Logged>)
    requires Logs(a, b, inum, logged) && Logs(b, c, inum, logged1) && logged <= logged1
    ensures Logs(a, c, inum, logged1)
  {
  }

  lemma LogsNothing(a: Snapshot, inum: nat, logged: set<Logged>)
    ensures Logs(a, a, inum, logged)
  {
  }

  /** balloc logs the bitmap block and the block it marks and zeroes. */
  lemma LogsAlloc(a: Snapshot, b: Snapshot, r: int, inum: nat, logged: set<Logged>)
    requires 0 <= r < |a.disk| && r < 8 * |a.bitmap| && MapBlock(r / BPB) in logged && DataBlock(r) in logged
    requires b == Snapshot(a.inodes, a.disk[r := Data(Zeroed())], SetBit(a.bitmap, r))
    ensures Logs(a, b, inum, logged)
  {
    assert r / 8 / BSIZE == r / BPB;
  }

  /** The inode is not logged by bmap but by writei's iupdate. */
  lemma LogsInode(a: Snapshot, b: Snapshot, inode: Inode, inum: nat, logged: set<Logged>)
    requires Logs(a, b, inum, logged) && inum in b.inodes
    ensures Logs(a, b.(inodes := b.inodes[inum := inode]), inum, logged)
  {
  }

  lemma LogsBlock(a: Snapshot, x: int, d: Data, inum: nat, logged: set<Logged>)
    requires 0 <= x < |a.disk| && DataBlock(x) in logged
    ensures Logs(a, a.(disk := a.disk[x := d]), inum, logged)
  {
  }

  lemma LogsMore(a: Snapshot, b: Snapshot, inum: nat, logged: set<Logged>, logged1: set<Logged>)
    requires Logs(a, b, inum, logged) && logged <= logged1
    ensures Logs(a, b, inum, logged1)
  {
  }

  class Fs {
    const meta: nat          // the first data block
    var bitmap: seq<bv8>
    var disk: Disk
    var inodes: Inodes
    ghost var logged: set<Logged>

    ghost predicate Sound()
      reads this
    {
      Owned(inodes, disk, bitmap, meta, {}) && |disk| < 0x1_0000_0000 && SizesOk(inodes)
    }

    ghost predicate Valid()
      reads this
    {
      Sound() && NoHoles(inodes, disk)
    }

    ghost function Now(): (s: Snapshot)
      reads this
    {
      Snapshot(inodes, disk, bitmap)
    }

    /** A mounted image in which the bitmap marks everything in use and every file
        has all its blocks. */
    constructor (meta: nat, bitmap: seq<bv8>, disk: Disk, inodes: Inodes)
      requires Owned(inodes, disk, bitmap, meta, {}) && |disk| < 0x1_0000_0000
      requires SizesOk(inodes) && NoHoles(inodes, disk)
      ensures Valid() && this.meta == meta && this.bitmap == bitmap && this.disk == disk && this.inodes == inodes
    {
      this.meta, this.bitmap, this.disk, this.inodes := meta, bitmap, disk, inodes;
      logged := {};
    }

    /** balloc's search, bitmap block by bitmap block: the first clear bit. */
    method FindFree() returns (r: int)
      requires |disk| <= 8 * |bitmap|
      ensures r == -1 ==> Full(bitmap, |disk|)
      ensures r != -1 ==> 0 <= r < |disk| && !Bit(bitmap, r) && Full(bitmap, r)
    {
      hide Mask;
      var b := 0;
      while b < |disk|
        invariant 0 <= b && b % BPB == 0
        invariant Full(bitmap, if b <= |disk| then b else |disk|)
      {
        var bi := 0;
        while bi < BPB && b + bi < |disk|
          invariant 0 <= bi <= BPB && b + bi <= |disk| && Full(bitmap, b + bi)
        {
          BitAddress(b, bi);
          if bitmap[b / BPB * BSIZE + bi / 8] & Mask(bi % 8) == 0 { return b + bi; }
          bi := bi + 1;
        }
        b := b + BPB;
      }
      return -1;
    }

    /** balloc: the first free block, marked and zeroed, or 0. */
    method Balloc() returns (r: int)
      requires Valid()
      modifies this`bitmap, this`disk, this`logged
      ensures Valid() && |disk| == |old(disk)| && |bitmap| == |old(bitmap)|
      ensures r == 0 ==>
        bitmap == old(bitmap) && disk == old(disk) && logged == old(logged) && Full(bitmap, |disk|)
      ensures r != 0 ==>
        && meta <= r < |disk| && !Bit(old(bitmap), r) && bitmap == SetBit(old(bitmap), r)
        && Full(old(bitmap), r)
        && disk == old(disk)[r := Data(Zeroed())] && Unowned(inodes, disk, r)
        && logged == old(logged) + {MapBlock(r / BPB), DataBlock(r)}
        && (forall s :: Addr(inodes, disk, s) == Addr(inodes, old(disk), s))
        && BytesKept(inodes, old(disk), inodes, disk)
    {
      r := FindFree();
      if r == -1 { return 0; }
      assert r > 0 by { assert Bit(bitmap, 0); }
      hide Used, Unique, Shaped, MetaMarked, Full, Bit, SetBit;
      TakeBlock(inodes, disk, bitmap, meta, r);
      FreeAnywhere(inodes, disk, bitmap, meta, r);
      ZeroUnownedBytes(inodes, disk, r);
      bitmap := SetBit(bitmap, r);
      disk := disk[r := Data(Zeroed())];
      logged := logged + {MapBlock(r / BPB), DataBlock(r)};
    }

    /** bfree; its panic is the precondition that the bit is set. */
    method Bfree(b: int)
      requires 0 <= b < 8 * |bitmap| && Bit(bitmap, b)
      modifies this`bitmap, this`logged
      ensures bitmap == ClearBit(old(bitmap), b) && logged == old(logged) + {MapBlock(b / BPB)}
    {
      bitmap := ClearBit(bitmap, b);
      logged := logged + {MapBlock(b / BPB)};
    }

    /** bmap for a direct block. */
    method BmapDirect(inum: nat, bn: nat) returns (addr: int)
      requires Valid() && inum in inodes && bn < NDIRECT
      modifies this`bitmap, this`disk, this`logged, this`inodes
      ensures Valid() && |disk| == |old(disk)| && SizesKept(old(inodes), inodes)
      ensures BytesKept(old(inodes), old(disk), inodes, disk)
      ensures addr == Addr(inodes, disk, Direct(inum, bn)) && (addr == 0 ==> Full(bitmap, |disk|))
      ensures Addr(old(inodes), old(disk), Direct(inum, bn)) != 0 ==>
        inodes == old(inodes) && disk == old(disk) && bitmap == old(bitmap) && logged == old(logged)
      ensures AddrsKept(old(inodes), old(disk), inodes, disk) && logged <= old(logged) + BlockLog(addr)
      ensures old(logged) <= logged && Logs(old(Now()), Now(), inum, logged)
    {
      addr := inodes[inum].addrs[bn];
      LogsNothing(Now(), inum, logged);
      if addr == 0 {
        addr := Balloc();
        if addr != 0 {
          LogsAlloc(old(Now()), Now(), addr, inum, logged);
          AttachDirect(inodes, disk, bitmap, meta, inum, bn, addr);
          NoHolesKept(inodes, disk, PutField(inodes, inum, bn, addr), disk);
          LogsInode(old(Now()), Now(), PutField(inodes, inum, bn, addr)[inum], inum, logged);
          inodes := PutField(inodes, inum, bn, addr);
        }
      }
    }

    /** bmap's first step past the direct blocks: the indirect block. */
    method EnsureIndirect(inum: nat) returns (a: int)
      requires Valid() && inum in inodes
      modifies this`bitmap, this`disk, this`logged, this`inodes
      ensures Valid() && |disk| == |old(disk)| && SizesKept(old(inodes), inodes)
      ensures BytesKept(old(inodes), old(disk), inodes, disk)
      ensures a == Addr(inodes, disk, Indirect(inum)) && (a == 0 ==> Full(bitmap, |disk|))
      ensures Addr(old(inodes), old(disk), Indirect(inum)) != 0 ==>
        inodes == old(inodes) && disk == old(disk) && bitmap == old(bitmap) && logged == old(logged)
      ensures AddrsKept(old(inodes), old(disk), inodes, disk) && logged <= old(logged) + BlockLog(a)
      ensures old(logged) <= logged && Logs(old(Now()), Now(), inum, logged)
    {
      a := inodes[inum].addrs[NDIRECT];
      LogsNothing(Now(), inum, logged);
      if a == 0 {
        a := Balloc();
        if a != 0 {
          LogsAlloc(old(Now()), Now(), a, inum, logged);
          AttachIndirect(inodes, disk, bitmap, meta, inum, a);
          NoHolesKept(inodes, disk, PutField(inodes, inum, NDIRECT, a), disk);
          LogsInode(old(Now()), Now(), PutField(inodes, inum, NDIRECT, a)[inum], inum, logged);
          inodes := PutField(inodes, inum, NDIRECT, a);
        }
      }
    }

    /** ... and its second: the listed block. */
    method EnsureEntry(inum: nat, j: nat) returns (addr: int)
      requires Valid() && inum in inodes && j < NINDIRECT && Addr(inodes, disk, Indirect(inum)) != 0
      modifies this`bitmap, this`disk, this`logged
      ensures Valid() && |disk| == |old(disk)|
      ensures BytesKept(inodes, old(disk), inodes, disk)
      ensures addr == Addr(inodes, disk, Entry(inum, j)) && (addr == 0 ==> Full(bitmap, |disk|))
      ensures Addr(inodes, old(disk), Entry(inum, j)) != 0 ==>
        disk == old(disk) && bitmap == old(bitmap) && logged == old(logged)
      ensures AddrsKept(inodes, old(disk), inodes, disk)
      ensures logged <= old(logged) + EntryLog(addr, Addr(inodes, disk, Indirect(inum)))
      ensures old(logged) <= logged && Logs(old(Now()), Now(), inum, logged)
    {
      LogsNothing(Now(), inum, logged);
      var a := inodes[inum].addrs[NDIRECT];
      assert Addr(inodes, disk, Indirect(inum)) == a;
      addr := Word(disk[a].bytes, j);
      if addr == 0 {
        addr := Balloc();
        if addr != 0 {
          ghost var disk1, now1, logged1 := disk, Now(), logged;
          LogsAlloc(old(Now()), now1, addr, inum, logged);
          AttachEntry(inodes, disk, bitmap, meta, inum, j, addr);
          disk := disk[a := Data(PutWord(disk[a].bytes, j, addr))];
          logged := logged + {DataBlock(a)};
          LogsBlock(now1, a, disk[a], inum, logged);
          LogsTwice(old(Now()), now1, Now(), inum, logged1, logged);
          NoHolesKept(inodes, disk1, inodes, disk);
          KeptTwice(inodes, old(disk), inodes, disk1, inodes, disk);
        }
      }
    }

    /** bmap: the block that holds file block bn, allocated if there was none.
        0 means the disk is full.  No byte of any file changes. */
    method Bmap(inum: nat, bn: nat) returns (addr: int)
      requires Valid() && inum in inodes && bn < MAXFILE
      modifies this`bitmap, this`disk, this`logged, this`inodes
      ensures Valid() && |disk| == |old(disk)| && SizesKept(old(inodes), inodes)
      ensures BytesKept(old(inodes), old(disk), inodes, disk)
      ensures addr == Addr(inodes, disk, SlotOf(inum, bn))
      ensures if addr == 0 then Full(bitmap, |disk|) else meta <= addr < |disk|
      ensures Addr(old(inodes), old(disk), SlotOf(inum, bn)) != 0 ==>
        inodes == old(inodes) && disk == old(disk) && bitmap == old(bitmap) && logged == old(logged)
      ensures AddrsKept(old(inodes), old(disk), inodes, disk)
      ensures logged <= old(logged) + BlockLog(addr) + BlockLog(Addr(inodes, disk, Indirect(inum)))
      ensures old(logged) <= logged && Logs(old(Now()), Now(), inum, logged)
    {
      hide Owned, BytesKept, Full, Bit, AddrsKept, NoHoles, SizesOk, Logs;
      if bn < NDIRECT {
        addr := BmapDirect(inum, bn);
      } else {
        addr := EnsureIndirect(inum);
        if addr == 0 { return; }
        ghost var inodes1, disk1, now1, logged1 := inodes, disk, Now(), logged;
        addr := EnsureEntry(inum, bn - NDIRECT);
        LogsTwice(old(Now()), now1, Now(), inum, logged1, logged);
        KeptTwice(old(inodes), old(disk), inodes1, disk1, inodes, disk);
        AddrsKeptTwice(old(inodes), old(disk), inodes1, disk1, inodes, disk);
        SameIndirect(inodes1, disk1, inodes, disk, inum);
      }
      if addr != 0 { InData(inodes, disk, bitmap, meta, SlotOf(inum, bn)); }
    }

    /** The body of writei's loop once bmap found the block: copy m bytes. */
    method PatchBlock(inum: nat, off: nat, src: seq<int>, tot: nat, m: nat, addr: int)
      requires Valid() && inum in inodes && off % BSIZE + m <= BSIZE && tot + m <= |src|
      requires addr != 0 && addr == Addr(inodes, disk, SlotOf(inum, off / BSIZE)) && meta <= addr < |disk|
      modifies this`disk, this`logged
      ensures Valid() && |disk| == |old(disk)| && AddrsKept(inodes, old(disk), inodes, disk)
      ensures PatchStep(inodes, old(disk), disk, inum, off, src, tot, m)
      ensures logged == old(logged) + {DataBlock(addr)} && Logs(old(Now()), Now(), inum, logged)
    {
      ghost var disk1 := disk;
      PatchOk(inodes, disk, bitmap, meta, inum, off, src, tot, m);
      disk := disk[addr := Data(Patched(disk[addr].bytes, off % BSIZE, src, tot, m))];
      logged := logged + {DataBlock(addr)};
      LogsBlock(old(Now()), addr, disk[addr], inum, logged);
      NoHolesKept(inodes, disk1, inodes, disk);
    }

    /** One iteration of writei: map the block, copy up to its end. */
    method WriteSome(
      inum: nat, off0: nat, src: seq<int>, tot: nat, ghost inodes0: Inodes, ghost disk0: Disk,
      ghost logged0: set<Logged>, ghost datas: set<Logged>) returns (m: nat, ghost datas1: set<Logged>)
      requires Valid() && inum in inodes && tot < |src| && off0 + |src| <= MAXFILE * BSIZE
      requires Wrote(inodes0, disk0, inodes, disk, inum, off0, src, tot)
      requires |disk| <= BPB ==> LogBound(logged0, logged, Addr(inodes, disk, Indirect(inum)), datas)
      modifies this`bitmap, this`disk, this`logged, this`inodes
      ensures Valid() && |disk| == |old(disk)| && SizesKept(old(inodes), inodes)
      ensures tot + m <= |src| && Wrote(inodes0, disk0, inodes, disk, inum, off0, src, tot + m)
      ensures m == Chunk(off0 + tot, |src| - tot) ||
        (m == 0 && Full(bitmap, |disk|) && off0 + tot >= inodes[inum].size)
      ensures |disk| <= BPB ==> LogBound(logged0, logged, Addr(inodes, disk, Indirect(inum)), datas1)
      ensures |datas1| <= |datas| + if m == 0 then 0 else 1
      ensures Mapped(old(inodes), old(disk), inum, off0, tot) ==> Mapped(inodes, disk, inum, off0, tot + m)
      ensures old(logged) <= logged && Logs(old(Now()), Now(), inum, logged)
    {
      var off := off0 + tot;
      hide Owned, BytesKept, Full, AddrsKept, Wrote, PatchStep, LogBound, SizesOk, NoHoles, Mapped, Logs;
      ghost var inodes1, disk1, logged1 := inodes, disk, logged;
      var addr := Bmap(inum, off / BSIZE);
      WroteThenKept(inodes0, disk0, inodes1, disk1, inodes, disk, inum, off0, src, tot);
      if |disk| <= BPB {
        LogBoundStep(inodes1, disk1, inodes, disk, bitmap, meta, inum, logged0, logged1, logged, datas, addr);
      }
      MappedMore(inodes1, disk1, inodes, disk, inum, off0, tot, addr, Chunk(off, |src| - tot));
      if addr == 0 {
        Absent(inodes, disk, inum, off);
        return 0, datas;
      }
      m, datas1 := Chunk(off, |src| - tot), datas + {DataBlock(addr)};
      ghost var disk2, logged2, now2 := disk, logged, Now();
      UniqueNow(inodes, disk, bitmap, meta);
      PatchBlock(inum, off, src, tot, m, addr);
      WroteMore(inodes0, disk0, inodes, disk2, disk, inum, off0, src, tot, m);
      KeptPatch(inodes, disk2, disk, inum, off, src, tot, m);
      MappedSame(inodes, disk2, disk, inum, off0, tot + m);
      LogBoundAgain(logged0, logged2, logged, Addr(inodes, disk, Indirect(inum)), datas1, addr);
      LogsTwice(old(Now()), now2, Now(), inum, logged2, logged);
    }

    /** writei's loop. */
    method WriteLoop(inum: nat, off0: nat, src: seq<int>)
      returns (tot: nat, ghost ind: int, ghost datas: set<Logged>)
      requires Valid() && inum in inodes && off0 + |src| <= MAXFILE * BSIZE
      modifies this`bitmap, this`disk, this`logged, this`inodes
      ensures Valid() && |disk| == |old(disk)| && SizesKept(old(inodes), inodes) && tot <= |src|
      ensures Wrote(old(inodes), old(disk), inodes, disk, inum, off0, src, tot)
      ensures tot < |src| ==> Full(bitmap, |disk|) && off0 + tot >= old(inodes)[inum].size
      ensures Aligned(off0, tot, |src|)
      ensures Mapped(inodes, disk, inum, off0, tot)
      ensures |datas| <= Touched(off0, tot) && (|disk| <= BPB ==> LogBound(old(logged), logged, ind, datas))
      ensures old(logged) <= logged && Logs(old(Now()), Now(), inum, logged)
    {
      hide Owned, Full, SizesOk, NoHoles, Progress, Addr, Wrote, LogBound, Mapped, Logs, Aligned, SizesKept, Touched;
      tot, datas := 0, {};
      NoProgress(Now(), logged, inum, off0, src);
      while tot < |src|
        invariant Valid() && tot <= |src| && inum in inodes
        invariant Progress(old(Now()), Now(), old(logged), logged, inum, off0, src, tot, datas)
        decreases |src| - tot
      {
        var m;
        ghost var now1, logged1, datas1 := Now(), logged, datas;
        ProgressFacts(old(Now()), now1, old(logged), logged, inum, off0, src, tot, datas);
        m, datas := WriteSome(inum, off0, src, tot, old(inodes), old(disk), old(logged), datas);
        MoreProgress(old(Now()), now1, Now(), old(logged), logged1, logged, inum, off0, src, tot, m, datas1, datas);
        SizeNow(old(Now()), Now(), old(logged), logged, inum, off0, src, tot + m, datas);
        if m == 0 { break; }
        tot := tot + m;
      }
      ind := Addr(inodes, disk, Indirect(inum));
      ProgressFacts(old(Now()), Now(), old(logged), logged, inum, off0, src, tot, datas);
    }

    /** writei: one slice update of the file, cut short only by a full disk; no
        other file changes.  On a disk with one bitmap block it logs at most the
        blocks touched plus the bitmap, the indirect and the inode block. */
    method Writei(inum: nat, off0: nat, src: seq<int>) returns (r: int)
      requires Valid() && inum in inodes
      modifies this`bitmap, this`disk, this`logged, this`inodes
      ensures Valid() && |disk| == |old(disk)| && inodes.Keys == old(inodes).Keys
      ensures r == -1 <==> off0 > old(inodes)[inum].size || off0 + |src| > MAXFILE * BSIZE
      ensures r == -1 ==> inodes == old(inodes) && disk == old(disk) && bitmap == old(bitmap) && logged == old(logged)
      ensures r != -1 ==> 0 <= r <= |src| && Aligned(off0, r, |src|)
      ensures r != -1 && r < |src| ==> Full(bitmap, |disk|) && off0 + r >= old(inodes)[inum].size
      ensures r != -1 ==>
        Content(inodes, disk, inum) == Overwritten(Content(old(inodes), old(disk), inum), off0, src[..r])
      ensures forall n :: n in inodes && n != inum ==>
        Content(inodes, disk, n) == Content(old(inodes), old(disk), n)
      ensures r != -1 && |disk| <= BPB ==> |logged - old(logged)| <= 3 + Touched(off0, r)
      ensures old(logged) <= logged && Logs(old(Now()), Now(), inum, logged)
      ensures inodes != old(inodes) ==> InodeBlock(inum / IPB) in logged
    {
      LogsNothing(Now(), inum, logged);
      var size := inodes[inum].size;
      if off0 > size { return -1; }
      if off0 + |src| > MAXFILE * BSIZE { return -1; }
      hide Owned, Full, Wrote, NoHoles, Mapped, Aligned, Logs;
      var tot;
      ghost var ind, datas;
      tot, ind, datas := WriteLoop(inum, off0, src);
      ghost var inodes1, logged1 := inodes, logged;
      LogsMore(old(Now()), Now(), inum, logged, logged + {InodeBlock(inum / IPB)});
      LogsInode(old(Now()), Now(), inodes[inum].(size := off0 + tot), inum, logged + {InodeBlock(inum / IPB)});
      if off0 + tot > size { inodes := inodes[inum := inodes[inum].(size := off0 + tot)]; }
      logged := logged + {InodeBlock(inum / IPB)};
      NoHolesGrow(inodes1, disk, inum, off0, tot, inodes[inum].size);
      ResizeKeeps(inodes1, disk, bitmap, meta, inum, inodes[inum].size, old(inodes), old(disk), off0, src, tot);
      forall n | n in inodes
        ensures Content(inodes, disk, n) ==
          if n == inum then Overwritten(Content(old(inodes), old(disk), inum), off0, src[..tot])
          else Content(old(inodes), old(disk), n)
      {
        WroteContent(old(inodes), old(disk), inodes, disk, inum, off0, src, tot, n);
      }
      if |disk| <= BPB {
        LogCount(old(logged), logged1, ind, datas, InodeBlock(inum / IPB));
      }
      return tot;
    }

    /** One iteration of readi. */
    method ReadSome(inum: nat, off: nat, left: nat) returns (bytes: seq<int>)
      requires Valid() && inum in inodes && 0 < left && off + left <= inodes[inum].size
      modifies this`bitmap, this`disk, this`logged, this`inodes
      ensures inodes == old(inodes) && disk == old(disk) && bitmap == old(bitmap) && logged == old(logged)
      ensures 0 < |bytes| <= left && ReadFrom(inodes, disk, inum, off, bytes)
    {
      hide Owned, SizesOk, ReadFrom, Full, AddrsKept, BytesKept, NoHoles;
      SizeOk(inodes, inum);
      Present(inodes, disk, inum, off);
      var addr := Bmap(inum, off / BSIZE);
      BlockWhole(inodes, disk, bitmap, meta, addr);
      var m, o := Chunk(off, left), off % BSIZE;
      bytes := disk[addr].bytes[o..o + m];
      BlockRead(inodes, disk, inum, off, addr, m);
    }

    /** readi: the clamped slice of the file.  There being no holes, bmap
        allocates nothing and nothing changes. */
    method Readi(inum: nat, off0: nat, n: nat) returns (data: seq<int>)
      requires Valid() && inum in inodes
      modifies this`bitmap, this`disk, this`logged, this`inodes
      ensures inodes == old(inodes) && disk == old(disk) && bitmap == old(bitmap) && logged == old(logged)
      ensures data == Clamped(Content(inodes, disk, inum), off0, n)
    {
      data := [];
      var size := inodes[inum].size;
      if off0 > size || off0 + n >= 0x1_0000_0000 { return; }
      var len := if off0 + n > size then size - off0 else n;
      hide Owned, SizesOk, ReadFrom, Content, NoHoles;
      ReadNothing(inodes, disk, inum, off0);
      while |data| < len
        invariant inodes == old(inodes) && disk == old(disk) && bitmap == old(bitmap) && logged == old(logged)
        invariant |data| <= len && ReadFrom(inodes, disk, inum, off0, data)
        decreases len - |data|
      {
        var bytes := ReadSome(inum, off0 + |data|, len - |data|);
        ReadMore(inodes, disk, inum, off0, data, bytes);
        data := data + bytes;
      }
      ReadAll(inodes, disk, inum, off0, n, data);
    }

    /** One direct block of itrunc. */
    method FreeDirect(inum: nat, i: nat)
      requires Sound() && inum in inodes && i < NDIRECT
      modifies this`bitmap, this`inodes, this`logged
      ensures Sound() && SizesKept(old(inodes), inodes)
      ensures Changed(old(inodes), disk, inodes, disk, Direct(inum, i), 0)
      ensures Cleared(old(bitmap), bitmap, Addr(old(inodes), disk, Direct(inum, i)))
    {
      var a := inodes[inum].addrs[i];
      ghost var s := Direct(inum, i);
      if a == 0 { return; }
      SetDirect(inodes, disk, inum, i, 0);
      InData(inodes, disk, bitmap, meta, s);
      LoseBlock(inodes, disk, bitmap, meta, {}, s);
      ClearedBits(bitmap, a);
      hide Used, Unique, MetaMarked, Bit, ClearBit, Changed, Cleared;
      ghost var inodes1 := PutField(inodes, inum, i, 0);
      EmptySlot(inodes, disk, ClearBit(bitmap, a), inodes1, meta, {} + {s}, s);
      assert {} + {s} - {s} == {};
      assert Bit(bitmap, a) by { MarkedNow(inodes, disk, bitmap, meta, {}, s); }
      Bfree(a);
      inodes := inodes[inum := inodes[inum].(addrs := inodes[inum].addrs[i := 0])];
    }

    /** One listed block of itrunc; the entry itself stays on disk. */
    method FreeEntry(inum: nat, j: nat, ghost gone: set<Slot>)
      requires Owned(inodes, disk, bitmap, meta, gone) && inum in inodes && j < NINDIRECT && Entry(inum, j) !in gone
      requires 0 < Addr(inodes, disk, Indirect(inum)) < |disk|
      modifies this`bitmap, this`logged
      ensures Owned(inodes, disk, bitmap, meta, gone + {Entry(inum, j)})
      ensures Cleared(old(bitmap), bitmap, Addr(inodes, disk, Entry(inum, j)))
    {
      var a := Word(disk[inodes[inum].addrs[NDIRECT]].bytes, j);
      ghost var s := Entry(inum, j);
      assert Addr(inodes, disk, s) == a;
      if a == 0 { return; }
      MarkedNow(inodes, disk, bitmap, meta, gone, s);
      LoseBlock(inodes, disk, bitmap, meta, gone, s);
      ClearedBits(bitmap, a);
      Bfree(a);
    }

    /** itrunc's second half: the indirect block and the blocks it lists. */
    method FreeIndirect(inum: nat, ghost inodes0: Inodes, ghost bitmap0: seq<bv8>, ghost done0: set<Slot>)
      returns (ghost done: set<Slot>)
      requires Sound() && inum in inodes && Emptied(inodes0, inodes, disk, done0)
      requires Released(inodes0, disk, bitmap0, bitmap, done0)
      requires forall s :: s in done0 <==> s.Direct? && s.inum == inum && s.i < NDIRECT
      modifies this`bitmap, this`inodes, this`logged
      ensures Sound() && SizesKept(old(inodes), inodes) && Released(inodes0, disk, bitmap0, bitmap, done)
      ensures forall s :: Addr(inodes, disk, s) == if s.inum == inum then 0 else Addr(inodes0, disk, s)
      ensures forall s :: s in done ==> s.inum == inum
      ensures forall s: Slot :: s.inum == inum && Addr(inodes0, disk, s) != 0 ==> s in done
    {
      done := done0;
      var a := inodes[inum].addrs[NDIRECT];
      if a == 0 { return; }
      hide Used, Unique, MetaMarked, Bit, Released, Cleared, SizesOk;
      InData(inodes, disk, bitmap, meta, Indirect(inum));
      ghost var gone: set<Slot> := {};
      for j := 0 to NINDIRECT
        invariant Owned(inodes, disk, bitmap, meta, gone) && inodes == old(inodes)
        invariant Released(inodes0, disk, bitmap0, bitmap, done) && done == done0 + gone
        invariant forall s :: s in gone <==> s.Entry? && s.inum == inum && s.j < j
      {
        ghost var bitmap1 := bitmap;
        FreeEntry(inum, j, gone);
        ReleaseMore(inodes0, disk, bitmap0, bitmap1, bitmap, done, Entry(inum, j));
        gone, done := gone + {Entry(inum, j)}, done + {Entry(inum, j)};
      }
      MarkedNow(inodes, disk, bitmap, meta, gone, Indirect(inum));
      LoseBlock(inodes, disk, bitmap, meta, gone, Indirect(inum));
      ClearedBits(bitmap, a);
      ReleaseMore(inodes0, disk, bitmap0, bitmap, ClearBit(bitmap, a), done, Indirect(inum));
      Bfree(a);
      DropIndirect(inodes, disk, bitmap, meta, gone + {Indirect(inum)}, inum);
      done := done + {Indirect(inum)};
      inodes := PutField(inodes, inum, NDIRECT, 0);
    }

    /** itrunc: exactly the blocks of inum are freed, each of them marked until
        then, and no other inode loses a block or a byte. */
    method Itrunc(inum: nat)
      requires Valid() && inum in inodes
      modifies this`bitmap, this`inodes, this`logged
      ensures Valid() && inodes.Keys == old(inodes).Keys && |bitmap| == |old(bitmap)|
      ensures forall s :: Addr(inodes, disk, s) == if s.inum == inum then 0 else Addr(old(inodes), disk, s)
      ensures forall b :: 0 < b < 8 * |bitmap| ==>
        (Bit(bitmap, b) <==> Bit(old(bitmap), b) && !Holds(old(inodes), disk, inum, b))
      ensures Content(inodes, disk, inum) == []
      ensures forall n :: n in inodes && n != inum ==> Content(inodes, disk, n) == Content(old(inodes), disk, n)
    {
      ghost var done: set<Slot> := {};
      hide Used, Unique, MetaMarked, Bit, Released, Cleared, SizesOk, Owned, Content, NoHoles;
      ReleasedNone(inodes, disk, bitmap);
      for i := 0 to NDIRECT
        invariant Sound() && SizesKept(old(inodes), inodes) && Emptied(old(inodes), inodes, disk, done)
        invariant Released(old(inodes), disk, old(bitmap), bitmap, done)
        invariant forall s :: s in done <==> s.Direct? && s.inum == inum && s.i < i
      {
        ghost var bitmap1 := bitmap;
        FreeDirect(inum, i);
        ReleaseMore(old(inodes), disk, old(bitmap), bitmap1, bitmap, done, Direct(inum, i));
        done := done + {Direct(inum, i)};
      }
      done := FreeIndirect(inum, old(inodes), old(bitmap), done);
      ReleasedAll(old(inodes), disk, old(bitmap), bitmap, done, inum);
      ResizeOwned(inodes, disk, bitmap, meta, inum, 0);
      NoHolesLeft(old(inodes), inodes, disk, inum);
      inodes := inodes[inum := inodes[inum].(size := 0)];
      logged := logged + {InodeBlock(inum / IPB)};
      forall n | n in inodes && n != inum ensures Content(inodes, disk, n) == Content(old(inodes), disk, n) {
        SameContent(old(inodes), inodes, disk, n);
      }
    }
  }

  /** struct file: an inode and the offset the next write goes to. */
  class File {
    const inum: nat
    var off: nat

    constructor (inum: nat, off: nat)
      ensures this.inum == inum && this.off == off
    {
      this.inum := inum;
      this.off := off;
    }

    /** One chunk of filewrite, between its begin_op and end_op; `log` is what it
        passes to log_write. */
    method WriteChunk(
      fs: Fs, src: seq<int>, i: nat, n1: nat, ghost off0: nat, ghost inodes0: Inodes, ghost disk0: Disk)
      returns (r: int, ghost log: set<Logged>)
      requires fs.Valid() && inum in fs.inodes && inum in inodes0 && i + n1 <= |src| && 0 < n1 <= 3 * BSIZE
      requires off == off0 + i && FilesAfter(inodes0, disk0, fs.inodes, fs.disk, inum, off0, src, i)
      modifies fs`bitmap, fs`disk, fs`logged, fs`inodes, this`off
      ensures fs.Valid() && |fs.disk| == |old(fs.disk)| && inum in fs.inodes
      ensures r <= n1 && off == old(off) + (if r > 0 then r else 0)
      ensures FilesAfter(inodes0, disk0, fs.inodes, fs.disk, inum, off0, src, i + (if r > 0 then r else 0))
      ensures r < n1 ==>
        Full(fs.bitmap, |fs.disk|) || off0 > inodes0[inum].size || off0 + |src| > MAXFILE * BSIZE
      ensures AllLogged(old(fs.Now()), fs.Now(), inum, log)
    {
      hide Owned, SizesOk, Full, Content, Touched, Overwritten, Logs;
      fs.logged := {};
      r := fs.Writei(inum, off, src[i..i + n1]);
      log := fs.logged;
      ghost var w := if r > 0 then r else 0;
      FewTouched(off, w);
      assert src[i..i + n1][..w] == src[i..i + w];
      assert fs.logged - {} == fs.logged;
      FileAfterMore(Content(inodes0, disk0, inum), off0, src, i, w);
      if r > 0 { off := off + r; }
    }

    /** filewrite: chunks of at most three blocks, each its own log operation.
        Whatever the number of chunks the file changes by one slice update, the
        offset moves by the bytes written, and the result is n exactly when all of
        them were.  `h` tells how the file system went from chunk to chunk. */
    method Write(fs: Fs, src: seq<int>) returns (ret: int, ghost h: History)
      requires fs.Valid() && inum in fs.inodes
      modifies fs`bitmap, fs`disk, fs`logged, fs`inodes, this`off
      ensures fs.Valid() && |fs.disk| == |old(fs.disk)|
      ensures old(off) <= off <= old(off) + |src|
      ensures ret == if off == old(off) + |src| then |src| else -1
      ensures ret == -1 ==>
        Full(fs.bitmap, |fs.disk|) || old(off) > old(fs.inodes)[inum].size || old(off) + |src| > MAXFILE * BSIZE
      ensures FilesAfter(old(fs.inodes), old(fs.disk), fs.inodes, fs.disk, inum, old(off), src, off - old(off))
      ensures Chunked(h, inum, old(off), src, fs.meta)
      ensures h.snaps[0] == old(fs.Now()) && h.snaps[|h.logs|] == fs.Now()
    {
      hide Owned, SizesOk, Full, FilesAfter, AllLogged, Chunked;
      var max := (MAXOPBLOCKS - 1 - 1 - 2) / 2 * BSIZE;
      var i := 0;
      h := History([fs.Now()], [], [0]);
      NoFileAfter(fs.inodes, fs.disk, inum, off, src);
      ChunkedStart(fs.Now(), inum, off, src, fs.meta);
      while i < |src|
        invariant 0 <= i <= |src| && off == old(off) + i && inum in fs.inodes
        invariant fs.Valid() && |fs.disk| == |old(fs.disk)|
        invariant FilesAfter(old(fs.inodes), old(fs.disk), fs.inodes, fs.disk, inum, old(off), src, i)
        invariant Chunked(h, inum, old(off), src, fs.meta) && Ends(h, old(fs.Now()), fs.Now(), i)
      {
        var n1 := if |src| - i > max then max else |src| - i;
        var r;
        ghost var log;
        r, log := WriteChunk(fs, src, i, n1, old(off), old(fs.inodes), old(fs.disk));
        ChunkedMore(h, inum, old(off), src, fs.meta, fs.Now(), log, off - old(off));
        h := History(h.snaps + [fs.Now()], h.logs + [log], h.done + [off - old(off)]);
        if r != n1 { break; }
        i := i + r;
      }
      ret := if i == |src| then |src| else -1;
    }
  }

  /** One operation: every block it changed, its inode block included, is in `log`, and
      with one bitmap block those are at most seven. */
  ghost predicate AllLogged(a: Snapshot, b: Snapshot, inum: nat, log: set<Logged>) {
    && Logs(a, b, inum, log) && (b.inodes != a.inodes ==> InodeBlock(inum / IPB) in log)
    && (|a.disk| <= BPB ==> |log| <= 7)
  }

  /** A filewrite: the file system before and after each chunk, what each chunk logs,
      and how many bytes have been written by then. */
  datatype History = History(snaps: seq<Snapshot>, logs: seq<set<Logged>>, done: seq<nat>)

  ghost predicate Chunked(h: History, inum: nat, off0: nat, src: seq<int>, meta: nat) {
    && |h.snaps| == |h.done| == |h.logs| + 1 && h.done[0] == 0
    && (forall k :: 0 <= k < |h.snaps| ==>
         && Owned(h.snaps[k].inodes, h.snaps[k].disk, h.snaps[k].bitmap, meta, {})
         && FilesAfter(h.snaps[0].inodes, h.snaps[0].disk, h.snaps[k].inodes, h.snaps[k].disk, inum, off0, src, h.done[k]))
    && (forall k :: 0 <= k < |h.logs| ==>
         AllLogged(h.snaps[k], h.snaps[k + 1], inum, h.logs[k]) && h.done[k] <= h.done[k + 1] <= h.done[k] + 3 * BSIZE)
  }

  ghost predicate Ends(h: History, first: Snapshot, last: Snapshot, i: nat) {
    |h.snaps| == |h.done| == |h.logs| + 1 && h.snaps[0] == first && h.snaps[|h.logs|] == last && h.done[|h.logs|] == i
  }

  lemma ChunkedStart(s: Snapshot, inum: nat, off0: nat, src: seq<int>, meta: nat)
    requires Owned(s.inodes, s.disk, s.bitmap, meta, {})
    requires FilesAfter(s.inodes, s.disk, s.inodes, s.disk, inum, off0, src, 0)
    ensures Chunked(History([s], [], [0]), inum, off0, src, meta)
  {
    hide Owned, FilesAfter;
  }

  lemma ChunkedMore(
    h: History, inum: nat, off0: nat, src: seq<int>, meta: nat, s: Snapshot, log: set<Logged>, i: nat)
    requires Chunked(h, inum, off0, src, meta) && Owned(s.inodes, s.disk, s.bitmap, meta, {})
    requires FilesAfter(h.snaps[0].inodes, h.snaps[0].disk, s.inodes, s.disk, inum, off0, src, i)
    requires AllLogged(h.snaps[|h.logs|], s, inum, log) && h.done[|h.logs|] <= i <= h.done[|h.logs|] + 3 * BSIZE
    ensures Chunked(History(h.snaps + [s], h.logs + [log], h.done + [i]), inum, off0, src, meta)
  {
    hide Owned, FilesAfter, AllLogged;
  }

  /** i bytes of src went to file inum at off0; no other file changed. */
  ghost predicate FilesAfter(
    inodes0: Inodes, disk0: Disk, inodes: Inodes, disk: Disk, inum: nat, off0: nat, src: seq<int>, i: nat)
  {
    && i <= |src| && inodes.Keys == inodes0.Keys && inum in inodes0 && (i > 0 ==> off0 <= inodes0[inum].size)
    && Content(inodes, disk, inum) == FileAfter(Content(inodes0, disk0, inum), off0, src[..i])
    && forall n :: n in inodes && n != inum ==> Content(inodes, disk, n) == Content(inodes0, disk0, n)
  }

  lemma NoFileAfter(inodes: Inodes, disk: Disk, inum: nat, off0: nat, src: seq<int>)
    requires inum in inodes
    ensures FilesAfter(inodes, disk, inodes, disk, inum, off0, src, 0)
  {
    var c := Content(inodes, disk, inum);
    assert FileAfter(c, off0, src[..0]) == c;
  }

  /** A chunk of at most 3072 bytes touches at most four blocks. */
  lemma FewTouched(off: nat, n: nat)
    ensures n <= 3 * BSIZE ==> Touched(off, n) <= 4
  {
  }

  /** One slice update; a write past the end writes nothing. */
  ghost function FileAfter(c: seq<int>, off: nat, data: seq<int>): (r: seq<int>) {
    if off <= |c| then Overwritten(c, off, data) else c
  }

  /** Two adjacent slice updates are one. */
  lemma FileAfterMore(c: seq<int>, off: nat, src: seq<int>, i: nat, r: nat)
    requires i + r <= |src|
    ensures off <= |c| ==> off + i <= |FileAfter(c, off, src[..i])|
    ensures FileAfter(c, off, src[..i + r]) ==
      if off <= |c| then Overwritten(FileAfter(c, off, src[..i]), off + i, src[i..i + r]) else c
  {
    if off <= |c| {
      var mid := Overwritten(c, off, src[..i]);
      var now, want := Overwritten(mid, off + i, src[i..i + r]), Overwritten(c, off, src[..i + r]);
      assert |now| == |want|;
      assert forall x :: 0 <= x < |now| ==> now[x] == want[x];
    }
  }

  /** Some slot of inum holds block b. */
  ghost predicate Holds(inodes: Inodes, disk: Disk, inum: nat, b: int) {
    exists s: Slot :: s.inum == inum && Addr(inodes, disk, s) == b
  }

  /** The slots in `done` are empty, the others as they were. */
  ghost predicate Emptied(inodes0: Inodes, inodes: Inodes, disk: Disk, done: set<Slot>) {
    forall s :: Addr(inodes, disk, s) == if s in done then 0 else Addr(inodes0, disk, s)
  }

  ghost predicate HeldBy(inodes: Inodes, disk: Disk, done: set<Slot>, b: int) {
    b != 0 && exists s :: s in done && Addr(inodes, disk, s) == b
  }

  /** The blocks of the slots in `done` are free now, and no others changed. */
  ghost predicate Released(inodes0: Inodes, disk: Disk, bitmap0: seq<bv8>, bitmap: seq<bv8>, done: set<Slot>) {
    |bitmap| == |bitmap0| && forall b :: 0 <= b < 8 * |bitmap| ==>
      Bit(bitmap, b) == (Bit(bitmap0, b) && !HeldBy(inodes0, disk, done, b))
  }

  lemma ReleasedNone(inodes: Inodes, disk: Disk, bitmap: seq<bv8>)
    ensures Released(inodes, disk, bitmap, bitmap, {})
  {
  }

  lemma ReleaseMore(
    inodes0: Inodes, disk: Disk, bitmap0: seq<bv8>, bitmap: seq<bv8>, bitmap1: seq<bv8>, done: set<Slot>, s: Slot)
    requires Released(inodes0, disk, bitmap0, bitmap, done) && Cleared(bitmap, bitmap1, Addr(inodes0, disk, s))
    ensures Released(inodes0, disk, bitmap0, bitmap1, done + {s})
  {
    hide Bit;
    forall b | 0 <= b < 8 * |bitmap|
      ensures HeldBy(inodes0, disk, done + {s}, b)
        <==> HeldBy(inodes0, disk, done, b) || (b != 0 && b == Addr(inodes0, disk, s))
    {
    }
  }

  lemma ReleasedAll(
    inodes0: Inodes, disk: Disk, bitmap0: seq<bv8>, bitmap: seq<bv8>, done: set<Slot>, inum: nat)
    requires Released(inodes0, disk, bitmap0, bitmap, done)
    requires forall s :: s in done ==> s.inum == inum
    requires forall s: Slot :: s.inum == inum && Addr(inodes0, disk, s) != 0 ==> s in done
    ensures |bitmap| == |bitmap0| && forall b :: 0 < b < 8 * |bitmap| ==>
      (Bit(bitmap, b) <==> Bit(bitmap0, b) && !Holds(inodes0, disk, inum, b))
  {
    hide Bit;
    forall b | 0 < b < 8 * |bitmap| ensures HeldBy(inodes0, disk, done, b) <==> Holds(inodes0, disk, inum, b) {
    }
  }

  lemma MarkedNow(inodes: Inodes, disk: Disk, bitmap: seq<bv8>, meta: nat, gone: set<Slot>, s: Slot)
    requires Owned(inodes, disk, bitmap, meta, gone) && s !in gone && Addr(inodes, disk, s) != 0
    ensures 0 < Addr(inodes, disk, s) < 8 * |bitmap| && Bit(bitmap, Addr(inodes, disk, s))
  {
  }

  /** Truncating one file to nothing leaves no hole anywhere. */
  lemma NoHolesLeft(inodes0: Inodes, inodes: Inodes, disk: Disk, inum: nat)
    requires NoHoles(inodes0, disk) && inum in inodes && SizesKept(inodes0, inodes)
    requires forall s: Slot :: s.inum != inum ==> Addr(inodes, disk, s) == Addr(inodes0, disk, s)
    ensures NoHoles(inodes[inum := inodes[inum].(size := 0)], disk)
  {
    var inodes1 := inodes[inum := inodes[inum].(size := 0)];
    forall n: nat, bn: nat | n in inodes1 && bn * BSIZE < inodes1[n].size
      ensures Addr(inodes1, disk, SlotOf(n, bn)) != 0
    {
      assert Addr(inodes, disk, SlotOf(n, bn)) == Addr(inodes0, disk, SlotOf(n, bn)) != 0;
    }
  }

  lemma ResizeOwned(inodes: Inodes, disk: Disk, bitmap: seq<bv8>, meta: nat, inum: nat, n: nat)
    requires Owned(inodes, disk, bitmap, meta, {}) && inum in inodes && SizesOk(inodes) && n <= MAXFILE * BSIZE
    ensures var inodes1 := inodes[inum := inodes[inum].(size := n)];
      && Owned(inodes1, disk, bitmap, meta, {}) && SizesOk(inodes1)
      && forall s :: Addr(inodes1, disk, s) == Addr(inodes, disk, s)
  {
    var inodes1 := inodes[inum := inodes[inum].(size := n)];
    forall s ensures Addr(inodes1, disk, s) == Addr(inodes, disk, s) {}
  }

  lemma SameContent(inodes0: Inodes, inodes: Inodes, disk: Disk, n: nat)
    requires n in inodes0 && n in inodes && inodes[n].size == inodes0[n].size
    requires forall s: Slot :: s.inum == n ==> Addr(inodes, disk, s) == Addr(inodes0, disk, s)
    ensures Content(inodes, disk, n) == Content(inodes0, disk, n)
  {
    forall x: nat ensures ByteAt(inodes, disk, n, x) == ByteAt(inodes0, disk, n, x) {
      assert SlotOf(n, x / BSIZE).inum == n;
    }
  }

  /** The bytes readi promises: at most n, from off on, within the file. */
  ghost function Clamped(c: seq<int>, off: nat, n: nat): (r: seq<int>) {
    if off > |c| || off + n >= 0x1_0000_0000 then []
    else if off + n > |c| then c[off..] else c[off..off + n]
  }

  /** Reading back what a write put: the write itself, then the old tail. */
  lemma ReadBack(c: seq<int>, off: nat, data: seq<int>, n: nat)
    requires off <= |c| && off + |data| + n < 0x1_0000_0000
    ensures Clamped(Overwritten(c, off, data), off, |data|) == data
    ensures Clamped(Overwritten(c, off, data), off + |data|, n) ==
      if off + |data| <= |c| then Clamped(c, off + |data|, n) else []
    ensures Overwritten(c, off, data)[..off] == c[..off]
  {
    var now := Overwritten(c, off, data);
    assert now[off..off + |data|] == data;
    assert now[off + |data|..] == if off + |data| <= |c| then c[off + |data|..] else [];
    if off + |data| + n <= |now| {
      assert now[off + |data|..off + |data| + n] == now[off + |data|..][..n];
    }
  }

  ghost predicate ReadFrom(inodes: Inodes, disk: Disk, inum: nat, off0: nat, data: seq<int>) {
    forall i :: 0 <= i < |data| ==> data[i] == ByteAt(inodes, disk, inum, off0 + i)
  }

  lemma ReadNothing(inodes: Inodes, disk: Disk, inum: nat, off0: nat)
    ensures ReadFrom(inodes, disk, inum, off0, [])
  {
  }

  lemma ReadAll(inodes: Inodes, disk: Disk, inum: nat, off0: nat, n: nat, data: seq<int>)
    requires ReadFrom(inodes, disk, inum, off0, data) && inum in inodes
    requires |data| == |Clamped(Content(inodes, disk, inum), off0, n)|
    ensures data == Clamped(Content(inodes, disk, inum), off0, n)
  {
    hide ByteAt;
    var want := Clamped(Content(inodes, disk, inum), off0, n);
    forall i | 0 <= i < |data| ensures data[i] == want[i] {
      assert want[i] == Content(inodes, disk, inum)[off0 + i];
    }
  }

  lemma ReadMore(inodes: Inodes, disk: Disk, inum: nat, off0: nat, data: seq<int>, more: seq<int>)
    requires ReadFrom(inodes, disk, inum, off0, data) && ReadFrom(inodes, disk, inum, off0 + |data|, more)
    ensures ReadFrom(inodes, disk, inum, off0, data + more)
  {
    hide ByteAt;
    var all := data + more;
    forall i | 0 <= i < |all| ensures all[i] == ByteAt(inodes, disk, inum, off0 + i) {
      if i >= |data| {
        assert more[i - |data|] == ByteAt(inodes, disk, inum, off0 + |data| + (i - |data|));
        assert off0 + |data| + (i - |data|) == off0 + i;
      }
    }
  }

  lemma BlockRead(inodes: Inodes, disk: Disk, inum: nat, off: nat, a: int, m: nat)
    requires off % BSIZE + m <= BSIZE
    requires a == Addr(inodes, disk, SlotOf(inum, off / BSIZE)) && 0 < a < |disk| && |disk[a].bytes| == BSIZE
    ensures ReadFrom(inodes, disk, inum, off, disk[a].bytes[off % BSIZE..off % BSIZE + m])
  {
    var blk := disk[a].bytes[off % BSIZE..off % BSIZE + m];
    forall i | 0 <= i < |blk| ensures blk[i] == ByteAt(inodes, disk, inum, off + i) {
      assert (off + i) / BSIZE == off / BSIZE && (off + i) % BSIZE == off % BSIZE + i;
    }
  }

  lemma Present(inodes: Inodes, disk: Disk, inum: nat, off: nat)
    requires NoHoles(inodes, disk) && inum in inodes && off < inodes[inum].size
    ensures Addr(inodes, disk, SlotOf(inum, off / BSIZE)) != 0
  {
    assert off / BSIZE * BSIZE <= off;
  }

  lemma Absent(inodes: Inodes, disk: Disk, inum: nat, off: nat)
    requires NoHoles(inodes, disk) && inum in inodes && Addr(inodes, disk, SlotOf(inum, off / BSIZE)) == 0
    ensures off >= inodes[inum].size
  {
    if off < inodes[inum].size { Present(inodes, disk, inum, off); }
  }

  lemma SizeOk(inodes: Inodes, inum: nat)
    requires SizesOk(inodes) && inum in inodes
    ensures inodes[inum].size <= MAXFILE * BSIZE
  {
  }

  lemma BlockWhole(inodes: Inodes, disk: Disk, bitmap: seq<bv8>, meta: nat, a: int)
    requires Owned(inodes, disk, bitmap, meta, {}) && 0 <= a < |disk|
    ensures |disk[a].bytes| == BSIZE && meta > 0
  {
  }

  /** The bitmaps differ at block a at most, which is now free (0 is no block). */
  ghost predicate Cleared(bitmap: seq<bv8>, bitmap1: seq<bv8>, a: int) {
    |bitmap1| == |bitmap| && forall b :: 0 <= b < 8 * |bitmap| ==>
      Bit(bitmap1, b) == (Bit(bitmap, b) && !(a != 0 && b == a))
  }

  lemma ClearedBits(bitmap: seq<bv8>, a: int)
    requires 0 < a < 8 * |bitmap|
    ensures Cleared(bitmap, ClearBit(bitmap, a), a)
  {
    var bitmap1 := ClearBit(bitmap, a);
    forall b | 0 <= b < 8 * |bitmap| ensures Bit(bitmap1, b) == (Bit(bitmap, b) && b != a) { BitsAfter(bitmap, a, b); }
  }

  /** writei's loop after tot bytes, seen from its start. */
  ghost predicate Progress(
    a: Snapshot, b: Snapshot, logged0: set<Logged>, logged: set<Logged>, inum: nat, off0: nat, src: seq<int>, tot: nat,
    datas: set<Logged>)
  {
    && |b.disk| == |a.disk| && SizesKept(a.inodes, b.inodes)
    && Wrote(a.inodes, a.disk, b.inodes, b.disk, inum, off0, src, tot)
    && Aligned(off0, tot, |src|) && Mapped(b.inodes, b.disk, inum, off0, tot) && |datas| <= Touched(off0, tot)
    && (|b.disk| <= BPB ==> LogBound(logged0, logged, Addr(b.inodes, b.disk, Indirect(inum)), datas))
    && logged0 <= logged && Logs(a, b, inum, logged)
  }

  lemma NoProgress(a: Snapshot, logged: set<Logged>, inum: nat, off0: nat, src: seq<int>)
    ensures Progress(a, a, logged, logged, inum, off0, src, 0, {})
  {
    hide Wrote, LogBound, Touched, Addr, Aligned, SizesKept, Mapped, Logs;
    LogsNothing(a, inum, logged);
    SizesSame(a.inodes);
    MappedNothing(a.inodes, a.disk, inum, off0);
    WroteNothing(a.inodes, a.disk, inum, off0, src);
    LoggedNothing(logged, Addr(a.inodes, a.disk, Indirect(inum)), off0, |src|);
  }

  lemma ProgressFacts(
    a: Snapshot, b: Snapshot, logged0: set<Logged>, logged: set<Logged>, inum: nat, off0: nat, src: seq<int>, tot: nat,
    datas: set<Logged>)
    requires Progress(a, b, logged0, logged, inum, off0, src, tot, datas)
    ensures |b.disk| == |a.disk| && SizesKept(a.inodes, b.inodes)
    ensures Wrote(a.inodes, a.disk, b.inodes, b.disk, inum, off0, src, tot)
    ensures Aligned(off0, tot, |src|) && Mapped(b.inodes, b.disk, inum, off0, tot) && |datas| <= Touched(off0, tot)
    ensures |b.disk| <= BPB ==> LogBound(logged0, logged, Addr(b.inodes, b.disk, Indirect(inum)), datas)
    ensures logged0 <= logged && Logs(a, b, inum, logged)
  {
    hide Wrote, LogBound, Touched, Addr, Aligned, SizesKept, Mapped, Logs;
  }

  lemma SizeNow(
    a: Snapshot, b: Snapshot, logged0: set<Logged>, logged: set<Logged>, inum: nat, off0: nat, src: seq<int>, tot: nat,
    datas: set<Logged>)
    requires Progress(a, b, logged0, logged, inum, off0, src, tot, datas) && inum in a.inodes
    ensures inum in b.inodes && b.inodes[inum].size == a.inodes[inum].size
  {
    hide Wrote, LogBound, Touched, Addr, Aligned, Mapped, Logs;
    SameSize(a.inodes, b.inodes, inum);
  }

  /** One iteration more, or none when the disk is full. */
  lemma MoreProgress(
    a: Snapshot, b: Snapshot, c: Snapshot, logged0: set<Logged>, logged1: set<Logged>, logged: set<Logged>, inum: nat,
    off0: nat, src: seq<int>, tot: nat, m: nat, datas: set<Logged>, datas1: set<Logged>)
    requires Progress(a, b, logged0, logged1, inum, off0, src, tot, datas) && tot < |src|
    requires |c.disk| == |b.disk| && SizesKept(b.inodes, c.inodes)
    requires Wrote(a.inodes, a.disk, c.inodes, c.disk, inum, off0, src, tot + m)
    requires m == 0 || m == Chunk(off0 + tot, |src| - tot)
    requires |c.disk| <= BPB ==> LogBound(logged0, logged, Addr(c.inodes, c.disk, Indirect(inum)), datas1)
    requires |datas1| <= |datas| + if m == 0 then 0 else 1
    requires Mapped(b.inodes, b.disk, inum, off0, tot) ==> Mapped(c.inodes, c.disk, inum, off0, tot + m)
    requires logged1 <= logged && Logs(b, c, inum, logged)
    ensures Progress(a, c, logged0, logged, inum, off0, src, tot + m, datas1)
  {
    hide Wrote, LogBound, Touched, Addr, Aligned, SizesKept, Mapped, Logs, Chunk;
    LogsTwice(a, b, c, inum, logged1, logged);
    SizesKeptTwice(a.inodes, b.inodes, c.inodes);
    if m != 0 { TouchedStep(off0, tot, m, |src|); }
  }

  lemma WroteNothing(inodes: Inodes, disk: Disk, inum: nat, off0: nat, src: seq<int>)
    ensures Wrote(inodes, disk, inodes, disk, inum, off0, src, 0)
  {
  }

  /** How many file blocks a write of tot bytes at off0 touches. */
  function Touched(off0: nat, tot: nat): (k: nat) {
    if tot == 0 then 0 else (off0 + tot - 1) / BSIZE - off0 / BSIZE + 1
  }

  /** Between writei's iterations the offset is at a block's start. */
  ghost predicate Aligned(off0: nat, tot: nat, n: nat) {
    tot == 0 || tot == n || (off0 + tot) % BSIZE == 0
  }

  /** The blocks of inum that bytes off0 .. off0 + tot - 1 lie in are there. */
  ghost predicate Mapped(inodes: Inodes, disk: Disk, inum: nat, off0: nat, tot: nat) {
    forall bn: nat :: off0 / BSIZE <= bn && bn * BSIZE < off0 + tot && tot > 0 ==>
      Addr(inodes, disk, SlotOf(inum, bn)) != 0
  }

  lemma MappedNothing(inodes: Inodes, disk: Disk, inum: nat, off0: nat)
    ensures Mapped(inodes, disk, inum, off0, 0)
  {
  }

  lemma MappedSame(inodes: Inodes, disk: Disk, disk1: Disk, inum: nat, off0: nat, tot: nat)
    requires forall s :: Addr(inodes, disk1, s) == Addr(inodes, disk, s)
    ensures Mapped(inodes, disk, inum, off0, tot) ==> Mapped(inodes, disk1, inum, off0, tot)
  {
    hide Addr;
  }

  lemma MappedMore(
    inodes: Inodes, disk: Disk, inodes1: Inodes, disk1: Disk, inum: nat, off0: nat, tot: nat, addr: int, m: nat)
    requires AddrsKept(inodes, disk, inodes1, disk1) && (off0 + tot) % BSIZE + m <= BSIZE
    requires addr == Addr(inodes1, disk1, SlotOf(inum, (off0 + tot) / BSIZE))
    ensures Mapped(inodes, disk, inum, off0, tot) ==>
      Mapped(inodes1, disk1, inum, off0, if addr == 0 then tot else tot + m)
  {
    hide Addr;
    if Mapped(inodes, disk, inum, off0, tot) && addr != 0 {
      forall bn: nat | off0 / BSIZE <= bn && bn * BSIZE < off0 + tot + m
        ensures Addr(inodes1, disk1, SlotOf(inum, bn)) != 0
      {
        if bn * BSIZE < off0 + tot && tot > 0 {
          assert Addr(inodes, disk, SlotOf(inum, bn)) != 0;
        } else {
          assert bn == (off0 + tot) / BSIZE;
        }
      }
    }
  }

  /** Growing a file over blocks just mapped leaves no hole. */
  lemma NoHolesGrow(inodes: Inodes, disk: Disk, inum: nat, off0: nat, tot: nat, n: nat)
    requires NoHoles(inodes, disk) && inum in inodes && Mapped(inodes, disk, inum, off0, tot)
    requires off0 <= inodes[inum].size && n <= (if off0 + tot > inodes[inum].size then off0 + tot else inodes[inum].size)
    ensures NoHoles(inodes[inum := inodes[inum].(size := n)], disk)
  {
    var inodes1 := inodes[inum := inodes[inum].(size := n)];
    forall k: nat, bn: nat | k in inodes1 && bn * BSIZE < inodes1[k].size
      ensures Addr(inodes1, disk, SlotOf(k, bn)) != 0
    {
      assert Addr(inodes1, disk, SlotOf(k, bn)) == Addr(inodes, disk, SlotOf(k, bn));
    }
  }

  lemma SizesSame(inodes: Inodes)
    ensures SizesKept(inodes, inodes)
  {
  }

  lemma SameSize(inodes: Inodes, inodes1: Inodes, inum: nat)
    requires SizesKept(inodes, inodes1) && inum in inodes
    ensures inum in inodes1 && inodes1[inum].size == inodes[inum].size
  {
  }

  lemma SizesKeptTwice(inodes: Inodes, inodes1: Inodes, inodes2: Inodes)
    requires SizesKept(inodes, inodes1) && SizesKept(inodes1, inodes2)
    ensures SizesKept(inodes, inodes2)
    ensures inodes.Keys == inodes2.Keys
  {
  }

  lemma TouchedStep(off0: nat, tot: nat, m: nat, n: nat)
    requires tot < n && m == Chunk(off0 + tot, n - tot) && Aligned(off0, tot, n)
    ensures Touched(off0, tot + m) == Touched(off0, tot) + 1 && Aligned(off0, tot + m, n)
  {
  }

  /** With one bitmap block: what has been logged is that block, the indirect
      block if there is one, and `datas`. */
  ghost predicate LogBound(logged: set<Logged>, logged1: set<Logged>, ind: int, datas: set<Logged>) {
    logged1 <= logged + {MapBlock(0)} + (if ind == 0 then {} else {DataBlock(ind)}) + datas
  }

  lemma LoggedNothing(logged: set<Logged>, ind: int, off0: nat, n: nat)
    ensures LogBound(logged, logged, ind, {}) && Touched(off0, 0) == 0 && Aligned(off0, 0, n)
  {
  }

  lemma LogBoundAgain(
    logged0: set<Logged>, logged: set<Logged>, logged1: set<Logged>, ind: int, datas: set<Logged>, a: int)
    requires DataBlock(a) in datas && logged1 <= logged + {DataBlock(a)}
    ensures LogBound(logged0, logged, ind, datas) ==> LogBound(logged0, logged1, ind, datas)
  {
  }

  lemma LogBoundStep(
    inodes: Inodes, disk: Disk, inodes1: Inodes, disk1: Disk, bitmap: seq<bv8>, meta: nat, inum: nat,
    logged0: set<Logged>, logged: set<Logged>, logged1: set<Logged>, datas: set<Logged>, a: int)
    requires AddrsKept(inodes, disk, inodes1, disk1) && Owned(inodes1, disk1, bitmap, meta, {}) && |disk1| <= BPB
    requires LogBound(logged0, logged, Addr(inodes, disk, Indirect(inum)), datas) && (a == 0 || 0 < a < |disk1|)
    requires logged1 <= logged + BlockLog(Addr(inodes1, disk1, Indirect(inum))) + BlockLog(a)
    ensures LogBound(logged0, logged1, Addr(inodes1, disk1, Indirect(inum)),
                     if a == 0 then datas else datas + {DataBlock(a)})
  {
    var i, i1 := Addr(inodes, disk, Indirect(inum)), Addr(inodes1, disk1, Indirect(inum));
    assert i != 0 ==> i1 == i;
    assert i1 / BPB == 0 && a / BPB == 0 by {
      if i1 != 0 { InData(inodes1, disk1, bitmap, meta, Indirect(inum)); }
    }
  }

  lemma LogCount(logged: set<Logged>, logged1: set<Logged>, ind: int, datas: set<Logged>, inode: Logged)
    requires LogBound(logged, logged1, ind, datas)
    ensures |(logged1 + {inode}) - logged| <= 3 + |datas|
  {
    var all := {MapBlock(0), DataBlock(ind), inode} + datas;
    Subset((logged1 + {inode}) - logged, all);
    assert |all| <= |{MapBlock(0), DataBlock(ind), inode}| + |datas|;
    assert |{MapBlock(0), DataBlock(ind), inode}| <= 3;
  }

  lemma {:induction false} Subset(a: set<Logged>, b: set<Logged>)
    requires a <= b
    ensures |a| <= |b|
  {
    assert b == a + (b - a);
  }

  /** ip->size = n moves no block and changes no byte. */
  lemma ResizeKeeps(
    inodes: Inodes, disk: Disk, bitmap: seq<bv8>, meta: nat, inum: nat, n: nat,
    inodes0: Inodes, disk0: Disk, off0: nat, src: seq<int>, tot: nat)
    requires Owned(inodes, disk, bitmap, meta, {}) && inum in inodes
    requires Wrote(inodes0, disk0, inodes, disk, inum, off0, src, tot)
    ensures var inodes1 := inodes[inum := inodes[inum].(size := n)];
      Owned(inodes1, disk, bitmap, meta, {}) && Wrote(inodes0, disk0, inodes1, disk, inum, off0, src, tot)
  {
    var inodes1 := inodes[inum := inodes[inum].(size := n)];
    forall s ensures Addr(inodes1, disk, s) == Addr(inodes, disk, s) {}
    forall k: nat, x: nat ensures ByteAt(inodes1, disk, k, x) == ByteAt(inodes, disk, k, x) {}
  }

  /** As much of n bytes as fits in the block that holds offset off. */
  function Chunk(off: nat, n: nat): (m: nat)
    ensures off % BSIZE + m <= BSIZE && m <= n && (n > 0 ==> m > 0)
    ensures m < n ==> (off + m) % BSIZE == 0
  {
    if n < BSIZE - off % BSIZE then n else BSIZE - off % BSIZE
  }

  lemma UniqueNow(inodes: Inodes, disk: Disk, bitmap: seq<bv8>, meta: nat)
    requires Owned(inodes, disk, bitmap, meta, {})
    ensures Unique(inodes, disk, {})
  {
  }

  /** A patch moves no block. */
  lemma KeptPatch(inodes: Inodes, disk: Disk, disk1: Disk, inum: nat, off: nat, src: seq<int>, tot: nat, m: nat)
    requires PatchStep(inodes, disk, disk1, inum, off, src, tot, m)
    ensures forall s :: Addr(inodes, disk1, s) == Addr(inodes, disk, s)
  {
  }

  /** Copying into a data block leaves every slot alone. */
  lemma PatchOk(
    inodes: Inodes, disk: Disk, bitmap: seq<bv8>, meta: nat,
    inum: nat, off: nat, src: seq<int>, tot: nat, m: nat)
    requires Owned(inodes, disk, bitmap, meta, {}) && off % BSIZE + m <= BSIZE && tot + m <= |src|
    requires Addr(inodes, disk, SlotOf(inum, off / BSIZE)) != 0
    ensures var a := Addr(inodes, disk, SlotOf(inum, off / BSIZE));
      && 0 < a < |disk| && |disk[a].bytes| == BSIZE
      && var disk1 := disk[a := Data(Patched(disk[a].bytes, off % BSIZE, src, tot, m))];
         PatchStep(inodes, disk, disk1, inum, off, src, tot, m) && Owned(inodes, disk1, bitmap, meta, {})
  {
    var s0 := SlotOf(inum, off / BSIZE);
    var a := Addr(inodes, disk, s0);
    var d := Data(Patched(disk[a].bytes, off % BSIZE, src, tot, m));
    forall n: nat | Addr(inodes, disk, Indirect(n)) != 0 ensures Addr(inodes, disk, Indirect(n)) != a {
      assert Indirect(n) != s0;
    }
    forall s ensures Addr(inodes, disk[a := d], s) == Addr(inodes, disk, s) { DataWrite(inodes, disk, a, d, s); }
    SameSlots(inodes, disk, disk[a := d], bitmap, meta);
  }

  /** The fresh block `a` becomes the indirect block of inum. */
  lemma AttachIndirect(inodes: Inodes, disk: Disk, bitmap: seq<bv8>, meta: nat, inum: nat, a: int)
    requires Owned(inodes, disk, bitmap, meta, {}) && inum in inodes
    requires Addr(inodes, disk, Indirect(inum)) == 0 && meta <= a < |disk| && Bit(bitmap, a)
    requires disk[a] == Data(Zeroed()) && Unowned(inodes, disk, a)
    ensures Owned(PutField(inodes, inum, NDIRECT, a), disk, bitmap, meta, {})
    ensures BytesKept(inodes, disk, PutField(inodes, inum, NDIRECT, a), disk)
    ensures AddrsKept(inodes, disk, PutField(inodes, inum, NDIRECT, a), disk)
  {
    SetIndirect(inodes, disk, inum, a);
    GainBlock(inodes, disk, bitmap, PutField(inodes, inum, NDIRECT, a), disk, meta, Indirect(inum), a);
    GainBytes(inodes, disk, PutField(inodes, inum, NDIRECT, a), disk, Indirect(inum), a);
  }

  /** The fresh block `b` is listed in the indirect block of inum. */
  lemma AttachEntry(inodes: Inodes, disk: Disk, bitmap: seq<bv8>, meta: nat, inum: nat, j: nat, b: int)
    requires Owned(inodes, disk, bitmap, meta, {}) && inum in inodes && j < NINDIRECT && b < 0x1_0000_0000
    requires Addr(inodes, disk, Indirect(inum)) != 0 && Addr(inodes, disk, Entry(inum, j)) == 0
    requires meta <= b < |disk| && Bit(bitmap, b) && disk[b] == Data(Zeroed()) && Unowned(inodes, disk, b)
    ensures var a := Addr(inodes, disk, Indirect(inum));
      && 0 < a < |disk| && |disk[a].bytes| == BSIZE
      && var disk1 := disk[a := Data(PutWord(disk[a].bytes, j, b))];
         && Owned(inodes, disk1, bitmap, meta, {}) && BytesKept(inodes, disk, inodes, disk1)
         && Addr(inodes, disk1, Entry(inum, j)) == b && AddrsKept(inodes, disk, inodes, disk1)
  {
    var a := Addr(inodes, disk, Indirect(inum));
    var disk1 := disk[a := Data(PutWord(disk[a].bytes, j, b))];
    SetEntry(inodes, disk, inum, j, b);
    GainBlock(inodes, disk, bitmap, inodes, disk1, meta, Entry(inum, j), b);
    forall s | IsData(s) && 0 < Addr(inodes, disk, s) < |disk|
      ensures disk1[Addr(inodes, disk, s)] == disk[Addr(inodes, disk, s)]
    {
      assert s != Indirect(inum);
    }
    GainBytes(inodes, disk, inodes, disk1, Entry(inum, j), b);
  }

  /** The fresh block `a` becomes a direct block of inum. */
  lemma AttachDirect(inodes: Inodes, disk: Disk, bitmap: seq<bv8>, meta: nat, inum: nat, i: nat, a: int)
    requires Owned(inodes, disk, bitmap, meta, {}) && inum in inodes && i < NDIRECT
    requires Addr(inodes, disk, Direct(inum, i)) == 0 && meta <= a < |disk| && Bit(bitmap, a)
    requires disk[a] == Data(Zeroed()) && Unowned(inodes, disk, a)
    ensures Owned(PutField(inodes, inum, i, a), disk, bitmap, meta, {})
    ensures BytesKept(inodes, disk, PutField(inodes, inum, i, a), disk)
    ensures AddrsKept(inodes, disk, PutField(inodes, inum, i, a), disk)
  {
    SetDirect(inodes, disk, inum, i, a);
    GainBlock(inodes, disk, bitmap, PutField(inodes, inum, i, a), disk, meta, Direct(inum, i), a);
    GainBytes(inodes, disk, PutField(inodes, inum, i, a), disk, Direct(inum, i), a);
  }

  lemma FreeAnywhere(inodes: Inodes, disk: Disk, bitmap: seq<bv8>, meta: nat, b: int)
    requires Owned(inodes, disk, bitmap, meta, {}) && 0 < b < |disk| && !Bit(bitmap, b)
    ensures Unowned(inodes, disk, b)
  {
    forall s ensures Addr(inodes, disk, s) != b { FreeUnowned(inodes, disk, bitmap, meta, {}, b, s); }
  }
}
