/** The file system above the log: its blocks as a disk image, the log operations of a
    filewrite as updates of that image, and what is in the files after a crash at any
    moment and recovery. */
module CrashedFiles {
  import opened BlockBits
  import opened BlockOwners
  import opened FileBytes
  import opened FileSystem
  import D = LogDisk
  import P = LogProtocol
  import R = RedoLog
  import S = LogSpace

  // ---- the file system on a disk image ----

  /** mkfs: boot and super block, log, inode blocks, bitmap blocks, data blocks. */
  datatype Layout = Layout(
    g: D.Geometry, inodeStart: nat, inodeBlocks: nat, mapStart: nat, mapBlocks: nat, meta: nat)

  ghost predicate Fits(l: Layout, total: nat) {
    && l.g.start + l.g.size <= l.inodeStart && l.inodeStart + l.inodeBlocks <= l.mapStart
    && l.mapStart + l.mapBlocks <= l.meta <= total
  }

  /** The image has room for this file system. */
  ghost predicate HasRoomFor(l: Layout, total: nat, s: Snapshot) {
    && |s.disk| == total && |s.bitmap| <= l.mapBlocks * BSIZE
    && forall n :: n in s.inodes ==> n < l.inodeBlocks * IPB
  }

  /** Word w of a block, or byte w of a block that is read as bytes. */
  ghost function WordIn(b: D.Block, w: nat): (x: int) {
    if w < |b.words| then b.words[w] else 0
  }

  /** Word w of inode block i, whose dinodes have 16 words each: in an inode of the file
      system the size is word 2 and the addresses follow; everything else (type, device,
      links, other inodes) is as in base. */
  ghost function InodeEntry(base: D.Block, inodes: Inodes, i: nat, w: nat): (x: int) {
    var n, f := i * 16 + w / 16, w % 16;
    if n in inodes && f == 2 then inodes[n].size
    else if n in inodes && 3 <= f < 3 + |inodes[n].addrs| then inodes[n].addrs[f - 3]
    else WordIn(base, w)
  }

  /** Byte o of bitmap block i. */
  ghost function MapByte(base: D.Block, bitmap: seq<bv8>, i: nat, o: nat): (x: int) {
    if i * 1024 + o < |bitmap| then bitmap[i * 1024 + o] as int else WordIn(base, o)
  }

  ghost function InodeBlockAt(base: D.Block, inodes: Inodes, i: nat): (b: D.Block)
    ensures |b.words| == 256 && forall w: nat :: w < 256 ==> b.words[w] == InodeEntry(base, inodes, i, w)
  {
    D.Block(seq(256, w requires 0 <= w => InodeEntry(base, inodes, i, w)))
  }

  ghost function MapBlockAt(base: D.Block, bitmap: seq<bv8>, i: nat): (b: D.Block)
    ensures |b.words| == 1024 && forall o: nat :: o < 1024 ==> b.words[o] == MapByte(base, bitmap, i, o)
  {
    D.Block(seq(1024, o requires 0 <= o => MapByte(base, bitmap, i, o)))
  }

  /** What block b of the image holds; blocks outside the file system are as in base. */
  ghost function PictureAt(l: Layout, base: D.Image, s: Snapshot, b: nat): (r: D.Block)
    requires b < |base|
  {
    if l.meta <= b < |s.disk| then D.Block(s.disk[b].bytes)
    else if l.mapStart <= b < l.mapStart + l.mapBlocks then MapBlockAt(base[b], s.bitmap, b - l.mapStart)
    else if l.inodeStart <= b < l.inodeStart + l.inodeBlocks then InodeBlockAt(base[b], s.inodes, b - l.inodeStart)
    else base[b]
  }

  ghost function Picture(l: Layout, base: D.Image, s: Snapshot): (d: D.Image)
    ensures |d| == |base| && forall b :: 0 <= b < |base| ==> d[b] == PictureAt(l, base, s, b)
  {
    seq(|base|, b requires 0 <= b < |base| => PictureAt(l, base, s, b))
  }

  /** The disk block that a log_write is about. */
  function Place(l: Layout, x: Logged): (b: int) {
    match x
    case InodeBlock(i) => l.inodeStart + i
    case MapBlock(i) => l.mapStart + i
    case DataBlock(b) => b
  }

  /** An operation that logs all it changes leaves every other block of the image. */
  lemma OnlyLoggedChanges(l: Layout, base: D.Image, a: Snapshot, b: Snapshot, inum: nat, log: set<Logged>, x: nat)
    requires Fits(l, |base|) && HasRoomFor(l, |base|, a) && HasRoomFor(l, |base|, b) && AllLogged(a, b, inum, log)
    requires x < |base| && forall y :: y in log ==> Place(l, y) != x
    ensures PictureAt(l, base, a, x) == PictureAt(l, base, b, x)
  {
    if l.meta <= x {
      assert Place(l, DataBlock(x)) == x;
    } else if l.mapStart <= x < l.mapStart + l.mapBlocks {
      assert Place(l, MapBlock(x - l.mapStart)) == x;
      SameMapBlock(base[x], a, b, inum, log, x - l.mapStart);
    } else if l.inodeStart <= x < l.inodeStart + l.inodeBlocks {
      assert Place(l, InodeBlock(x - l.inodeStart)) == x;
      SameInodeBlock(base[x], a, b, inum, log, x - l.inodeStart);
    }
  }

  lemma SameMapBlock(base: D.Block, a: Snapshot, b: Snapshot, inum: nat, log: set<Logged>, i: nat)
    requires AllLogged(a, b, inum, log) && MapBlock(i) !in log
    ensures MapBlockAt(base, a.bitmap, i) == MapBlockAt(base, b.bitmap, i)
  {
    forall o: nat | o < 1024 ensures MapByte(base, a.bitmap, i, o) == MapByte(base, b.bitmap, i, o) {
      assert (i * 1024 + o) / BSIZE == i;
    }
    assert MapBlockAt(base, a.bitmap, i).words == MapBlockAt(base, b.bitmap, i).words;
  }

  lemma SameInodeBlock(base: D.Block, a: Snapshot, b: Snapshot, inum: nat, log: set<Logged>, i: nat)
    requires AllLogged(a, b, inum, log) && InodeBlock(i) !in log
    ensures InodeBlockAt(base, a.inodes, i) == InodeBlockAt(base, b.inodes, i)
  {
    forall w: nat | w < 256 ensures InodeEntry(base, a.inodes, i, w) == InodeEntry(base, b.inodes, i, w) {
      assert (i * 16 + w / 16) / IPB == i;
    }
    assert InodeBlockAt(base, a.inodes, i).words == InodeBlockAt(base, b.inodes, i).words;
  }

  // ---- reading files from an image ----

  /** iget from the inode block. */
  ghost function InodeOn(l: Layout, d: D.Image, n: nat): (r: Inode) {
    var b, f := l.inodeStart + n / 16, n % 16 * 16;
    if b < |d| && |d[b].words| == 256
    then Inode(if d[b].words[f + 2] >= 0 then d[b].words[f + 2] else 0, d[b].words[f + 3..f + 16])
    else Inode(0, [])
  }

  ghost function InodesOn(l: Layout, d: D.Image): (r: Inodes) {
    map n: nat | 0 <= n < l.inodeBlocks * 16 :: InodeOn(l, d, n)
  }

  ghost function DiskOn(d: D.Image): (r: Disk)
    ensures |r| == |d| && forall b :: 0 <= b < |d| ==> r[b] == Data(d[b].words)
  {
    seq(|d|, b requires 0 <= b < |d| => Data(d[b].words))
  }

  /** The contents of file n as the image has them. */
  ghost function FileOn(l: Layout, d: D.Image, n: nat): (c: seq<int>) {
    Content(InodesOn(l, d), DiskOn(d), n)
  }

  lemma InodeBack(l: Layout, base: D.Image, d: D.Image, s: Snapshot, n: nat)
    requires Fits(l, |base|) && HasRoomFor(l, |base|, s) && D.SameHome(l.g, d, Picture(l, base, s))
    requires n in s.inodes && |s.inodes[n].addrs| == NDIRECT + 1
    ensures n in InodesOn(l, d) && InodesOn(l, d)[n] == s.inodes[n]
  {
    hide InodeEntry;
    var b := l.inodeStart + n / 16;
    assert b < l.inodeStart + l.inodeBlocks;
    assert D.IsHome(l.g, |d|, b);
    assert d[b] == InodeBlockAt(base[b], s.inodes, n / 16);
    InodeRead(base[b], d[b].words, s.inodes, n);
  }

  lemma InodeRead(base: D.Block, words: seq<int>, inodes: Inodes, n: nat)
    requires |words| == 256 && forall w: nat :: w < 256 ==> words[w] == InodeEntry(base, inodes, n / 16, w)
    requires n in inodes && |inodes[n].addrs| == NDIRECT + 1
    ensures var f := n % 16 * 16; words[f + 2] == inodes[n].size && words[f + 3..f + 16] == inodes[n].addrs
  {
    var f := n % 16 * 16;
    WordOf(n, 2);
    assert words[f + 2] == InodeEntry(base, inodes, n / 16, f + 2);
    var read := words[f + 3..f + 16];
    forall k | 0 <= k < 13 ensures read[k] == inodes[n].addrs[k] {
      WordOf(n, 3 + k);
      assert read[k] == words[f + (3 + k)] == InodeEntry(base, inodes, n / 16, f + (3 + k));
    }
  }

  lemma WordOf(n: nat, k: nat)
    requires k < 16
    ensures n / 16 * 16 + (n % 16 * 16 + k) / 16 == n && (n % 16 * 16 + k) % 16 == k
  {
  }

  lemma DataBack(l: Layout, base: D.Image, d: D.Image, s: Snapshot, b: nat)
    requires Fits(l, |base|) && HasRoomFor(l, |base|, s) && D.SameHome(l.g, d, Picture(l, base, s)) && l.meta <= b < |d|
    ensures DiskOn(d)[b] == s.disk[b]
  {
    assert D.IsHome(l.g, |d|, b);
  }

  /** Files are read from inode blocks and data blocks only. */
  lemma FileBack(l: Layout, base: D.Image, d: D.Image, s: Snapshot, n: nat)
    requires Fits(l, |base|) && HasRoomFor(l, |base|, s) && D.SameHome(l.g, d, Picture(l, base, s))
    requires Owned(s.inodes, s.disk, s.bitmap, l.meta, {}) && n in s.inodes
    ensures FileOn(l, d, n) == Content(s.inodes, s.disk, n)
  {
    InodeBack(l, base, d, s, n);
    forall b: nat | l.meta <= b < |d| ensures DiskOn(d)[b] == s.disk[b] { DataBack(l, base, d, s, b); }
    SameFile(s.inodes, s.disk, s.bitmap, l.meta, InodesOn(l, d), DiskOn(d), n);
  }

  lemma SameFile(
    inodes: Inodes, disk: Disk, bitmap: seq<bv8>, meta: nat, inodes1: Inodes, disk1: Disk, n: nat)
    requires Owned(inodes, disk, bitmap, meta, {}) && n in inodes && n in inodes1 && inodes1[n] == inodes[n]
    requires |disk1| == |disk| && forall b :: meta <= b < |disk| ==> disk1[b] == disk[b]
    ensures Content(inodes1, disk1, n) == Content(inodes, disk, n)
  {
    forall s: Slot | s.inum == n ensures Addr(inodes1, disk1, s) == Addr(inodes, disk, s) {
      if s.Entry? && Addr(inodes, disk, Indirect(n)) != 0 { InData(inodes, disk, bitmap, meta, Indirect(n)); }
    }
    forall x: nat ensures ByteAt(inodes1, disk1, n, x) == ByteAt(inodes, disk, n, x) {
      var s := SlotOf(n, x / BSIZE);
      assert s.inum == n;
      if Addr(inodes, disk, s) != 0 { InData(inodes, disk, bitmap, meta, s); }
    }
  }

  // ---- operations as updates ----

  /** The updates of one operation turn the image of a into that of b. */
  ghost predicate Performs(
    l: Layout, base: D.Image, us: seq<P.Update>, op: P.Op, a: Snapshot, b: Snapshot)
  {
    && (forall i :: 0 <= i < |us| ==> us[i].op == op)
    && D.SameHome(l.g, P.Written(Picture(l, base, a), us), Picture(l, base, b))
  }

  /** One update for each block, with its final contents. */
  ghost function Finally(op: P.Op, blocks: seq<int>, d: D.Image): (us: seq<P.Update>)
    ensures |us| == |blocks| && forall i :: 0 <= i < |us| ==> us[i].op == op && us[i].b == blocks[i]
  {
    seq(|blocks|, i requires 0 <= i < |blocks| =>
      P.Update(op, blocks[i], if 0 <= blocks[i] < |d| then d[blocks[i]] else D.Block([])))
  }

  lemma {:induction false} FinallyWritten(d: D.Image, e: D.Image, op: P.Op, blocks: seq<int>, k: nat)
    requires |d| == |e| && k <= |blocks|
    ensures forall b :: 0 <= b < |d| ==>
      P.Written(d, Finally(op, blocks, e)[..k])[b] == if b in blocks[..k] then e[b] else d[b]
  {
    var us := Finally(op, blocks, e);
    if k > 0 {
      FinallyWritten(d, e, op, blocks, k - 1);
      assert us[..k][..k - 1] == us[..k - 1];
      assert blocks[..k] == blocks[..k - 1] + [blocks[k - 1]];
    }
  }

  /** Updates of the blocks an operation logs are enough to perform it: on a disk with
      one bitmap block at most seven for a chunk of filewrite, two fewer than never
      panic. */
  lemma LogPerforms(
    l: Layout, base: D.Image, op: P.Op, a: Snapshot, b: Snapshot, inum: nat, log: set<Logged>)
    returns (us: seq<P.Update>)
    requires Fits(l, |base|) && HasRoomFor(l, |base|, a) && HasRoomFor(l, |base|, b) && AllLogged(a, b, inum, log)
    ensures Performs(l, base, us, op, a, b) && |us| <= |log| && (|base| <= BPB ==> |us| <= 7)
    ensures forall i :: 0 <= i < |us| ==> D.IsHome(l.g, |base|, us[i].b)
    ensures forall i :: 0 <= i < |us| ==> exists y :: y in log && Place(l, y) == us[i].b
  {
    var d, e := Picture(l, base, a), Picture(l, base, b);
    var home := set y | y in log && D.IsHome(l.g, |base|, Place(l, y));
    Subset(home, log);
    var blocks := Listing(l, home);
    us := Finally(op, blocks, e);
    FinallyWritten(d, e, op, blocks, |blocks|);
    assert us[..|us|] == us && blocks[..|blocks|] == blocks;
    forall x: nat | x < |base| && x !in blocks ensures d[x] == e[x] {
      if D.IsHome(l.g, |base|, x) { OnlyLoggedChanges(l, base, a, b, inum, log, x); }
    }
  }

  lemma {:induction false} Listing(l: Layout, log: set<Logged>) returns (blocks: seq<int>)
    ensures |blocks| == |log| && (forall y :: y in log ==> Place(l, y) in blocks)
    ensures forall i :: 0 <= i < |blocks| ==> exists y :: y in log && Place(l, y) == blocks[i]
  {
    hide Place;
    blocks := [];
    if log != {} {
      var x :| x in log;
      var rest := Listing(l, log - {x});
      blocks := rest + [Place(l, x)];
      forall y | y in log ensures Place(l, y) in blocks {
        if y != x { assert Place(l, y) in rest; } else { assert blocks[|rest|] == Place(l, x); }
      }
    }
  }

  // ---- whole histories ----

  /** The first k parts, end to end. */
  ghost function Joined(parts: seq<seq<P.Update>>, k: nat): (us: seq<P.Update>)
    requires k <= |parts|
  {
    if k == 0 then [] else Joined(parts, k - 1) + parts[k - 1]
  }

  lemma {:induction false} WrittenJoin(d: D.Image, us: seq<P.Update>, vs: seq<P.Update>)
    ensures P.Written(d, us + vs) == P.Written(P.Written(d, us), vs)
    decreases |vs|
  {
    if vs == [] {
      assert us + vs == us;
    } else {
      var k := |vs| - 1;
      assert (us + vs)[..|us + vs| - 1] == us + vs[..k];
      WrittenJoin(d, us, vs[..k]);
    }
  }

  lemma {:induction false} WrittenHome(g: D.Geometry, d: D.Image, e: D.Image, us: seq<P.Update>)
    requires D.SameHome(g, d, e)
    ensures D.SameHome(g, P.Written(d, us), P.Written(e, us))
    decreases |us|
  {
    if us != [] { WrittenHome(g, d, e, us[..|us| - 1]); }
  }

  lemma HomeTwice(g: D.Geometry, d: D.Image, e: D.Image, f: D.Image)
    requires D.SameHome(g, d, e) && D.SameHome(g, e, f)
    ensures D.SameHome(g, d, f)
  {
  }

  /** The first j operations of a history, performed by `parts`. */
  ghost predicate Performed(
    l: Layout, base: D.Image, snaps: seq<Snapshot>, parts: seq<seq<P.Update>>, ops: seq<P.Op>, j: nat)
  {
    && j <= |parts| && j <= |ops| && j < |snaps|
    && forall k :: 0 <= k < j ==> Performs(l, base, parts[k], ops[k], snaps[k], snaps[k + 1])
  }

  /** After k whole operations the image shows snapshot k. */
  lemma {:induction false} ImageAfter(
    l: Layout, base: D.Image, snaps: seq<Snapshot>, parts: seq<seq<P.Update>>, ops: seq<P.Op>, j: nat, k: nat)
    requires Performed(l, base, snaps, parts, ops, j) && k <= j && D.SameHome(l.g, base, Picture(l, base, snaps[0]))
    ensures D.SameHome(l.g, P.Written(base, Joined(parts, k)), Picture(l, base, snaps[k]))
  {
    hide Performs, Picture;
    if k > 0 {
      ImageAfter(l, base, snaps, parts, ops, j, k - 1);
      var mid := P.Written(base, Joined(parts, k - 1));
      WrittenJoin(base, Joined(parts, k - 1), parts[k - 1]);
      assert Performs(l, base, parts[k - 1], ops[k - 1], snaps[k - 1], snaps[k]);
      OneMore(l, base, mid, parts[k - 1], ops[k - 1], snaps[k - 1], snaps[k]);
    }
  }

  lemma OneMore(
    l: Layout, base: D.Image, d: D.Image, us: seq<P.Update>, op: P.Op, a: Snapshot, b: Snapshot)
    requires Performs(l, base, us, op, a, b) && D.SameHome(l.g, d, Picture(l, base, a))
    ensures D.SameHome(l.g, P.Written(d, us), Picture(l, base, b))
  {
    hide Picture;
    WrittenHome(l.g, d, Picture(l, base, a), us);
    HomeTwice(l.g, P.Written(d, us), P.Written(Picture(l, base, a), us), Picture(l, base, b));
  }

  /** A prefix of the trace that splits no operation ends between two of them. */
  lemma {:induction false} AtBoundary(
    l: Layout, base: D.Image, snaps: seq<Snapshot>, parts: seq<seq<P.Update>>, ops: seq<P.Op>, j: nat,
    trace: seq<P.Update>, durable: nat) returns (k: nat)
    requires Performed(l, base, snaps, parts, ops, j) && Joined(parts, j) <= trace && durable <= |Joined(parts, j)|
    requires forall x, y :: 0 <= x < durable <= y < |trace| ==> trace[x].op != trace[y].op
    ensures k <= j && trace[..durable] == Joined(parts, k)
    decreases j
  {
    hide Picture;
    if durable == |Joined(parts, j)| {
      k := j;
    } else {
      var all, before := Joined(parts, j), Joined(parts, j - 1);
      assert before <= all;
      assert forall x :: |before| <= x < |all| ==> trace[x] == parts[j - 1][x - |before|];
      assert Performs(l, base, parts[j - 1], ops[j - 1], snaps[j - 1], snaps[j]);
      assert durable > |before| ==> trace[durable - 1].op == trace[durable].op;
      k := AtBoundary(l, base, snaps, parts, ops, j - 1, trace, durable);
    }
  }

  /** A run in which the first j chunks of a filewrite have been performed, each as one
      log operation, and the next may be under way with updates v of its own. */
  ghost predicate Writing(
    c: P.Config, s: P.State, l: Layout, h: History, parts: seq<seq<P.Update>>, ops: seq<P.Op>, j: nat, v: seq<P.Update>)
  {
    && l.g == c.g && Fits(l, |c.base|) && (forall k :: 0 <= k < |h.snaps| ==> HasRoomFor(l, |c.base|, h.snaps[k]))
    && Performed(l, P.Start(c), h.snaps, parts, ops, j)
    && D.SameHome(c.g, P.Start(c), Picture(l, P.Start(c), h.snaps[0]))
    && s.trace == Joined(parts, j) + v && (forall i :: 0 <= i < |v| ==> v[i].op in s.ops.open)
  }

  /** What the files are after the first k chunks. */
  ghost predicate ShowsChunks(
    l: Layout, d: D.Image, h: History, inum: nat, off0: nat, src: seq<int>, k: nat)
  {
    && k < |h.snaps| && k < |h.done| && h.done[k] <= |src|
    && FileOn(l, d, inum) == FileAfter(Content(h.snaps[0].inodes, h.snaps[0].disk, inum), off0, src[..h.done[k]])
    && forall n :: n in h.snaps[0].inodes && n != inum ==>
         FileOn(l, d, n) == Content(h.snaps[0].inodes, h.snaps[0].disk, n)
  }

  /** At every moment of every such run, a crash and recovery leave the file with the
      first k chunks, for some k, each of them whole, and every other file as it was;
      with no operation open and no commit under way nothing is lost, and with the seven
      blocks of a chunk, or nine, to an operation log_write never panics. */
  lemma ChunksAreAtomic(
    c: P.Config, states: seq<P.State>, l: Layout, h: History, inum: nat, off0: nat, src: seq<int>,
    parts: seq<seq<P.Update>>, ops: seq<P.Op>, j: nat, v: seq<P.Update>) returns (k: nat)
    requires P.Run(c, states) && Chunked(h, inum, off0, src, l.meta)
    requires Writing(c, states[|states| - 1], l, h, parts, ops, j, v)
    ensures var s := states[|states| - 1];
      && D.HeaderOk(c.g, s.disk) && k <= j
      && ShowsChunks(l, D.Recovered(c.g, s.disk), h, inum, off0, src, k)
      && (s.phase.Running? && s.ops.outstanding == 0 ==> ShowsChunks(l, D.Recovered(c.g, s.disk), h, inum, off0, src, j))
      && (c.limit <= 9 && c.g.size == D.LOGSIZE ==> s.halt.None?)
  {
    hide P.Written, P.NoHalfVisible, R.RecoversTo, D.HeaderOk, Chunked, Writing, ShowsChunks;
    var s := states[|states| - 1];
    AfterRecovery(c, states);
    k := Boundary(c, s, l, h, parts, ops, j, v);
    Visible(c, s, l, h, inum, off0, src, parts, ops, j, v, k);
    if s.phase.Running? && s.ops.outstanding == 0 {
      NothingLost(c, s, l, h, parts, ops, j, v);
      Visible(c, s, l, h, inum, off0, src, parts, ops, j, v, j);
    }
    if c.limit <= 9 && c.g.size == D.LOGSIZE { S.NineBlocksNeverPanic(c, states); }
  }

  /** What the log protocol promises at the end of a run. */
  lemma AfterRecovery(c: P.Config, states: seq<P.State>)
    requires P.Run(c, states)
    ensures var s := states[|states| - 1];
      && s.durable <= |s.trace| && R.RecoversTo(c.g, s.disk, P.Written(P.Start(c), s.trace[..s.durable]))
      && P.NoHalfVisible(s.trace, s.durable, s.ops.open.Keys)
      && (s.phase.Running? && s.ops.outstanding == 0 ==> s.durable == |s.trace| && s.ops.open == map[])
  {
    hide P.Run, P.View, P.NoHalfVisible, R.RecoversTo, P.Written, P.PhaseInv, P.Shaped, P.HistoryInv;
    P.OperationsAreAtomic(c, states);
    P.RunInv(c, states);
  }

  lemma NothingLost(
    c: P.Config, s: P.State, l: Layout, h: History, parts: seq<seq<P.Update>>, ops: seq<P.Op>, j: nat, v: seq<P.Update>)
    requires Writing(c, s, l, h, parts, ops, j, v) && s.ops.open == map[] && s.durable == |s.trace|
    ensures s.trace[..s.durable] == Joined(parts, j)
  {
    hide Picture, Performs, HasRoomFor;
    OpenIsLost(Joined(parts, j), v, s.trace, |s.trace|, {});
    assert s.trace[..|s.trace|] == Joined(parts, j);
  }

  lemma Boundary(
    c: P.Config, s: P.State, l: Layout, h: History, parts: seq<seq<P.Update>>, ops: seq<P.Op>, j: nat, v: seq<P.Update>)
    returns (k: nat)
    requires Writing(c, s, l, h, parts, ops, j, v) && s.durable <= |s.trace|
    requires P.NoHalfVisible(s.trace, s.durable, s.ops.open.Keys)
    ensures k <= j && s.trace[..s.durable] == Joined(parts, k)
  {
    hide Picture, Performs, HasRoomFor;
    OpenIsLost(Joined(parts, j), v, s.trace, s.durable, s.ops.open.Keys);
    k := AtBoundary(l, P.Start(c), h.snaps, parts, ops, j, s.trace, s.durable);
  }

  /** Updates of open operations are not durable. */
  lemma OpenIsLost(whole: seq<P.Update>, v: seq<P.Update>, trace: seq<P.Update>, durable: nat, open: set<P.Op>)
    requires trace == whole + v && durable <= |trace| && forall i :: 0 <= i < |v| ==> v[i].op in open
    requires forall i :: 0 <= i < durable ==> trace[i].op !in open
    ensures durable <= |whole|
  {
    assert forall i :: |whole| <= i < |trace| ==> trace[i] == v[i - |whole|];
    var first := if |whole| < |trace| then trace[|whole|].op else 0;
    assert |whole| < |trace| ==> first in open;
  }

  lemma Visible(
    c: P.Config, s: P.State, l: Layout, h: History, inum: nat, off0: nat, src: seq<int>,
    parts: seq<seq<P.Update>>, ops: seq<P.Op>, j: nat, v: seq<P.Update>, k: nat)
    requires Writing(c, s, l, h, parts, ops, j, v) && Chunked(h, inum, off0, src, l.meta) && k <= j
    requires s.durable <= |s.trace| && s.trace[..s.durable] == Joined(parts, k)
    requires R.RecoversTo(c.g, s.disk, P.Written(P.Start(c), s.trace[..s.durable]))
    ensures D.HeaderOk(c.g, s.disk) && ShowsChunks(l, D.Recovered(c.g, s.disk), h, inum, off0, src, k)
  {
    hide Picture, Performs, FileOn, D.Recovered, P.Written;
    ImageAfter(l, P.Start(c), h.snaps, parts, ops, j, k);
    var d := D.Recovered(c.g, s.disk);
    HomeTwice(c.g, d, P.Written(P.Start(c), Joined(parts, k)), Picture(l, P.Start(c), h.snaps[k]));
    SnapshotShown(l, P.Start(c), d, h, inum, off0, src, k);
  }

  lemma SnapshotShown(
    l: Layout, base: D.Image, d: D.Image, h: History, inum: nat, off0: nat, src: seq<int>, k: nat)
    requires Fits(l, |base|) && k < |h.snaps| && HasRoomFor(l, |base|, h.snaps[k]) && Chunked(h, inum, off0, src, l.meta)
    requires D.SameHome(l.g, d, Picture(l, base, h.snaps[k]))
    ensures ShowsChunks(l, d, h, inum, off0, src, k)
  {
    hide Picture, FileOn, Owned;
    var s := h.snaps[k];
    forall n | n in s.inodes ensures FileOn(l, d, n) == Content(s.inodes, s.disk, n) {
      FileBack(l, base, d, s, n);
    }
    assert FilesAfter(h.snaps[0].inodes, h.snaps[0].disk, s.inodes, s.disk, inum, off0, src, h.done[k]);
  }
}
