/** Who owns which disk block (fs.c): the direct, indirect and listed block
    addresses of the inodes, and what every allocation and release keeps. */
module BlockOwners {
  import opened BlockBits

  const NDIRECT: nat := 12
  const MAXFILE: nat := NDIRECT + NINDIRECT

  datatype Data = Data(bytes: seq<int>)
  type Disk = seq<Data>

  /** Size in bytes and the thirteen block addresses; 0 is no block. */
  datatype Inode = Inode(size: nat, addrs: seq<int>)
  type Inodes = map<nat, Inode>

  /** A place an inode keeps a block address in. */
  datatype Slot =
    | Direct(inum: nat, i: nat)
    | Indirect(inum: nat)
    | Entry(inum: nat, j: nat)

  function Listed(disk: Disk, a: int, j: nat): (w: int) {
    if a != 0 && 0 <= a < |disk| && j < NINDIRECT && |disk[a].bytes| == BSIZE then Word(disk[a].bytes, j) else 0
  }

  function Field(inodes: Inodes, inum: nat, i: nat): (a: int) {
    if inum in inodes && i < |inodes[inum].addrs| then inodes[inum].addrs[i] else 0
  }

  /** The block address in a slot. */
  function Addr(inodes: Inodes, disk: Disk, s: Slot): (a: int) {
    match s
    case Direct(n, i) => if i < NDIRECT then Field(inodes, n, i) else 0
    case Indirect(n) => Field(inodes, n, NDIRECT)
    case Entry(n, j) => Listed(disk, Field(inodes, n, NDIRECT), j)
  }

  ghost predicate Shaped(inodes: Inodes, disk: Disk) {
    && (forall n :: n in inodes ==> |inodes[n].addrs| == NDIRECT + 1)
    && (forall b :: 0 <= b < |disk| ==> |disk[b].bytes| == BSIZE)
  }

  /** Every address outside `gone` is a data block marked in use. */
  ghost predicate Used(inodes: Inodes, disk: Disk, bitmap: seq<bv8>, meta: nat, gone: set<Slot>) {
    forall s :: s !in gone && Addr(inodes, disk, s) != 0 ==>
      meta <= Addr(inodes, disk, s) < |disk| && Addr(inodes, disk, s) < 8 * |bitmap|
      && Bit(bitmap, Addr(inodes, disk, s))
  }

  /** No block has two owners. */
  ghost predicate Unique(inodes: Inodes, disk: Disk, gone: set<Slot>) {
    forall s, t :: s !in gone && t !in gone && s != t && Addr(inodes, disk, s) != 0 ==>
      Addr(inodes, disk, s) != Addr(inodes, disk, t)
  }

  /** Boot block, superblock, log, inodes and bitmap are always marked. */
  ghost predicate MetaMarked(bitmap: seq<bv8>, meta: nat) {
    meta <= 8 * |bitmap| && forall b :: 0 <= b < meta ==> Bit(bitmap, b)
  }

  ghost predicate Owned(inodes: Inodes, disk: Disk, bitmap: seq<bv8>, meta: nat, gone: set<Slot>) {
    && 0 < meta <= |disk| <= 8 * |bitmap| && Shaped(inodes, disk)
    && Used(inodes, disk, bitmap, meta, gone) && Unique(inodes, disk, gone) && MetaMarked(bitmap, meta)
  }

  /** The two states agree on every slot but s0, which now holds b. */
  ghost predicate Changed(inodes: Inodes, disk: Disk, inodes1: Inodes, disk1: Disk, s0: Slot, b: int) {
    forall s :: Addr(inodes1, disk1, s) == if s == s0 then b else Addr(inodes, disk, s)
  }

  /** A free block is in no slot. */
  lemma FreeUnowned(inodes: Inodes, disk: Disk, bitmap: seq<bv8>, meta: nat, gone: set<Slot>, b: int, s: Slot)
    requires Owned(inodes, disk, bitmap, meta, gone) && 0 < b < |disk| && !Bit(bitmap, b) && s !in gone
    ensures Addr(inodes, disk, s) != b
  {
  }

  /** Marking bits keeps everybody's blocks marked. */
  lemma MarkKeeps(inodes: Inodes, disk: Disk, bitmap: seq<bv8>, meta: nat, gone: set<Slot>, b: int)
    requires Owned(inodes, disk, bitmap, meta, gone) && 0 <= b < |disk|
    ensures Owned(inodes, disk, SetBit(bitmap, b), meta, gone)
  {
    var bitmap1 := SetBit(bitmap, b);
    forall c | 0 <= c < 8 * |bitmap| ensures Bit(bitmap, c) ==> Bit(bitmap1, c) { BitsAfter(bitmap, b, c); }
  }

  /** No slot holds b. */
  ghost predicate Unowned(inodes: Inodes, disk: Disk, b: int) {
    forall s :: Addr(inodes, disk, s) != b
  }

  /** balloc: a free block is marked and zeroed; no slot changes, and none holds
      the block. */
  lemma TakeBlock(inodes: Inodes, disk: Disk, bitmap: seq<bv8>, meta: nat, b: int)
    requires Owned(inodes, disk, bitmap, meta, {}) && 0 < b < |disk| && !Bit(bitmap, b)
    ensures var disk1 := disk[b := Data(Zeroed())];
      && meta <= b && Owned(inodes, disk1, SetBit(bitmap, b), meta, {}) && Unowned(inodes, disk1, b)
      && forall s :: Addr(inodes, disk1, s) == Addr(inodes, disk, s)
  {
    var disk1 := disk[b := Data(Zeroed())];
    forall s ensures Addr(inodes, disk1, s) == Addr(inodes, disk, s) != b {
      FreeUnowned(inodes, disk, bitmap, meta, {}, b, s);
      DataWrite(inodes, disk, b, Data(Zeroed()), s);
    }
    SameSlots(inodes, disk, disk1, bitmap, meta);
    MarkKeeps(inodes, disk1, bitmap, meta, {}, b);
  }

  lemma SameSlots(inodes: Inodes, disk: Disk, disk1: Disk, bitmap: seq<bv8>, meta: nat)
    requires Owned(inodes, disk, bitmap, meta, {}) && |disk1| == |disk| && Shaped(inodes, disk1)
    requires forall s :: Addr(inodes, disk1, s) == Addr(inodes, disk, s)
    ensures Owned(inodes, disk1, bitmap, meta, {})
  {
  }

  /** A marked block nobody holds goes into slot s0, empty so far. */
  lemma GainBlock(
    inodes: Inodes, disk: Disk, bitmap: seq<bv8>, inodes1: Inodes, disk1: Disk, meta: nat, s0: Slot, b: int)
    requires Owned(inodes, disk, bitmap, meta, {}) && meta <= b < |disk| && Bit(bitmap, b) && Unowned(inodes, disk, b)
    requires Shaped(inodes1, disk1) && |disk1| == |disk|
    requires Changed(inodes, disk, inodes1, disk1, s0, b)
    ensures Owned(inodes1, disk1, bitmap, meta, {})
  {
  }

  /** bfree releases the block of slot s0, which then counts as gone. */
  lemma LoseBlock(inodes: Inodes, disk: Disk, bitmap: seq<bv8>, meta: nat, gone: set<Slot>, s0: Slot)
    requires Owned(inodes, disk, bitmap, meta, gone) && s0 !in gone && Addr(inodes, disk, s0) != 0
    ensures Owned(inodes, disk, ClearBit(bitmap, Addr(inodes, disk, s0)), meta, gone + {s0})
  {
    var b := Addr(inodes, disk, s0);
    var bitmap1 := ClearBit(bitmap, b);
    forall c | 0 <= c < 8 * |bitmap| ensures Bit(bitmap1, c) == (c != b && Bit(bitmap, c)) { BitsAfter(bitmap, b, c); }
  }

  /** Once a gone slot is emptied it need no longer be excused. */
  lemma EmptySlot(
    inodes: Inodes, disk: Disk, bitmap: seq<bv8>, inodes1: Inodes, meta: nat, gone: set<Slot>, s0: Slot)
    requires Owned(inodes, disk, bitmap, meta, gone) && Shaped(inodes1, disk)
    requires Changed(inodes, disk, inodes1, disk, s0, 0)
    ensures Owned(inodes1, disk, bitmap, meta, gone - {s0})
  {
  }

  // ---- the updates bmap and itrunc make ----

  function PutField(inodes: Inodes, inum: nat, i: nat, a: int): (r: Inodes)
    requires inum in inodes && i < |inodes[inum].addrs|
  {
    inodes[inum := inodes[inum].(addrs := inodes[inum].addrs[i := a])]
  }

  /** ip->addrs[i] = a for a direct slot. */
  lemma SetDirect(inodes: Inodes, disk: Disk, inum: nat, i: nat, a: int)
    requires inum in inodes && |inodes[inum].addrs| == NDIRECT + 1 && i < NDIRECT
    ensures Changed(inodes, disk, PutField(inodes, inum, i, a), disk, Direct(inum, i), a)
  {
  }

  /** ip->addrs[NDIRECT] = a for a zeroed block a: no entries appear. */
  lemma SetIndirect(inodes: Inodes, disk: Disk, inum: nat, a: int)
    requires inum in inodes && |inodes[inum].addrs| == NDIRECT + 1 && inodes[inum].addrs[NDIRECT] == 0
    requires 0 < a < |disk| && disk[a] == Data(Zeroed())
    ensures Changed(inodes, disk, PutField(inodes, inum, NDIRECT, a), disk, Indirect(inum), a)
  {
    forall j: nat ensures Listed(disk, a, j) == 0 { if j < NINDIRECT { ZeroWords(j); } }
  }

  /** Writing a block that is not an indirect block changes no slot. */
  lemma DataWrite(inodes: Inodes, disk: Disk, a: int, d: Data, s: Slot)
    requires 0 <= a < |disk|
    requires forall n: nat :: Addr(inodes, disk, Indirect(n)) != 0 ==> Addr(inodes, disk, Indirect(n)) != a
    ensures Addr(inodes, disk[a := d], s) == Addr(inodes, disk, s)
  {
    if s.Entry? { assert Addr(inodes, disk, Indirect(s.inum)) == Field(inodes, s.inum, NDIRECT); }
  }

  /** a[j] = b in inum's indirect block, which nobody else reads. */
  lemma SetEntry(inodes: Inodes, disk: Disk, inum: nat, j: nat, b: int)
    requires Shaped(inodes, disk) && Unique(inodes, disk, {}) && j < NINDIRECT && 0 <= b < 0x1_0000_0000
    requires var a := Addr(inodes, disk, Indirect(inum)); 0 < a < |disk|
    ensures var a := Addr(inodes, disk, Indirect(inum));
      Changed(inodes, disk, inodes, disk[a := Data(PutWord(disk[a].bytes, j, b))], Entry(inum, j), b)
  {
    var a := Addr(inodes, disk, Indirect(inum));
    var disk1 := disk[a := Data(PutWord(disk[a].bytes, j, b))];
    forall s ensures Addr(inodes, disk1, s) == if s == Entry(inum, j) then b else Addr(inodes, disk, s) {
      if s.Entry? {
        if s.inum == inum {
          if s.j < NINDIRECT { WordAfter(disk[a].bytes, j, b, s.j); }
        } else {
          assert Addr(inodes, disk, Indirect(s.inum)) != a;
        }
      }
    }
  }

  /** The slots of inum that its indirect block provides. */
  ghost predicate Behind(s: Slot, inum: nat) {
    s == Indirect(inum) || (s.Entry? && s.inum == inum)
  }

  /** ip->addrs[NDIRECT] = 0 empties the indirect slot and its entries. */
  lemma DropIndirect(inodes: Inodes, disk: Disk, bitmap: seq<bv8>, meta: nat, gone: set<Slot>, inum: nat)
    requires Owned(inodes, disk, bitmap, meta, gone) && inum in inodes
    requires forall s :: s in gone ==> Behind(s, inum)
    ensures var inodes1 := PutField(inodes, inum, NDIRECT, 0);
      && Owned(inodes1, disk, bitmap, meta, {})
      && forall s :: Addr(inodes1, disk, s) == if Behind(s, inum) then 0 else Addr(inodes, disk, s)
  {
    var inodes1 := PutField(inodes, inum, NDIRECT, 0);
    forall s ensures Addr(inodes1, disk, s) == if Behind(s, inum) then 0 else Addr(inodes, disk, s) {}
  }
}
