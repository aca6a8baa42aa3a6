/** log.c: the loops that copy, commit, install and recover a transaction.
    `writes` records the disk image after every bwrite, so a postcondition
    about it speaks of every point at which the machine can crash. */
module RedoLog {
  import opened LogDisk
  import opened Params

  datatype Outcome = Ok | Panic

  /** Home contents with the pinned (logged, not yet installed) buffers on top. */
  ghost function Overlay(d: Image, pinned: map<int, Block>): (r: Image)
    ensures |r| == |d|
    ensures forall b :: 0 <= b < |d| ==> r[b] == if b in pinned then pinned[b] else d[b]
  {
    seq(|d|, b requires 0 <= b < |d| => if b in pinned then pinned[b] else d[b])
  }

  /** A crash leaving `e` is followed, once recovery completes, by the home
      blocks of `target`. */
  ghost predicate RecoversTo(g: Geometry, e: Image, target: Image) {
    HeaderOk(g, e) && SameHome(g, Recovered(g, e), target)
  }

  ghost predicate AllRecoverTo(g: Geometry, images: seq<Image>, target: Image) {
    forall i :: 0 <= i < |images| ==> RecoversTo(g, images[i], target)
  }

  /** Log slot i holds the pinned content of block blocks[i]. */
  ghost predicate SlotHolds(g: Geometry, d: Image, blocks: seq<int>, pinned: map<int, Block>, i: int) {
    && 0 <= i < |blocks| && Slot(g, i) < |d|
    && blocks[i] in pinned && d[Slot(g, i)] == pinned[blocks[i]]
  }

  /** Log slots lo .. hi - 1 hold the pinned contents of their blocks. */
  ghost predicate SlotsHold(
    g: Geometry, d: Image, blocks: seq<int>, pinned: map<int, Block>, lo: int, hi: int)
  {
    forall i :: lo <= i < hi ==> SlotHolds(g, d, blocks, pinned, i)
  }

  /** Filling slot k keeps the slots before it. */
  lemma FillSlots(g: Geometry, d: Image, e: Image, blocks: seq<int>, pinned: map<int, Block>, k: nat)
    requires k < |blocks| && Slot(g, k) < |d| && blocks[k] in pinned
    requires SlotsHold(g, d, blocks, pinned, 0, k) && e == d[Slot(g, k) := pinned[blocks[k]]]
    ensures SlotsHold(g, e, blocks, pinned, 0, k + 1)
  {
    forall i | 0 <= i < k + 1 ensures SlotHolds(g, e, blocks, pinned, i) {
      if i < k { assert SlotHolds(g, d, blocks, pinned, i); }
    }
  }

  /** Writing the header block does not disturb the slots. */
  lemma HeaderKeepsSlots(g: Geometry, d: Image, e: Image, blocks: seq<int>, pinned: map<int, Block>)
    requires g.start < |d| == |e| && e == d[g.start := e[g.start]]
    requires SlotsHold(g, d, blocks, pinned, 0, |blocks|)
    ensures SlotsHold(g, e, blocks, pinned, 0, |blocks|)
  {
    forall i | 0 <= i < |blocks| ensures SlotHolds(g, e, blocks, pinned, i) {
      assert SlotHolds(g, d, blocks, pinned, i);
    }
  }

  /** Writing a log slot under an empty header changes nothing a crash shows. */
  lemma FillSlot(g: Geometry, d: Image, e: Image, k: nat, data: Block, target: Image)
    requires HeaderIs(g, d, []) && RecoversTo(g, d, target)
    requires k < g.size - 1 && e == d[Slot(g, k) := data]
    ensures HeaderIs(g, e, []) && HeaderOk(g, e) && RecoversTo(g, e, target) && SameHome(g, e, d)
  {
    assert InLog(g, Slot(g, k));
    assert Header(g, d) == [] && Header(g, e) == [];
  }

  /** An image whose header lists the distinct logged blocks and whose slots
      hold their pinned contents recovers to the overlay. */
  lemma CommittedImage(g: Geometry, d: Image, e: Image, blocks: seq<int>, pinned: map<int, Block>)
    requires WellFormed(g, d) && SameHome(g, d, e)
    requires Loggable(g, |e|, blocks) && Distinct(blocks) && HeaderIs(g, e, blocks)
    requires forall b :: b in pinned ==> b in blocks
    requires SlotsHold(g, e, blocks, pinned, 0, |blocks|)
    ensures HeaderOk(g, e) && Header(g, e) == blocks
    ensures RecoversTo(g, e, Overlay(d, pinned))
  {
    assert Header(g, e) == blocks;
    forall b | IsHome(g, |d|, b)
      ensures Recovered(g, e)[b] == Overlay(d, pinned)[b]
    {
      var i := ReplayCases(g, e, blocks, |blocks|, b);
      if i != -1 { assert SlotHolds(g, e, blocks, pinned, i); }
    }
  }

  /** The images install_trans has written so far, one per log slot. */
  ghost predicate InstallImages(g: Geometry, d: Image, blocks: seq<int>, images: seq<Image>) {
    && WellFormed(g, d) && Loggable(g, |d|, blocks) && |images| <= |blocks|
    && forall i :: 0 <= i < |images| ==> images[i] == Replay(g, d, blocks, i + 1)
  }

  /** Installing a committed image passes only through images of its recovery. */
  lemma InstallIsRecovery(g: Geometry, d: Image, images: seq<Image>)
    requires HeaderOk(g, d) && InstallImages(g, d, Header(g, d), images)
    ensures forall i :: 0 <= i < |images| ==> RecoveryImage(g, d, images[i])
  {
  }

  lemma InstallRecovers(g: Geometry, d: Image, images: seq<Image>, target: Image)
    requires HeaderOk(g, d) && InstallImages(g, d, Header(g, d), images)
    requires RecoversTo(g, d, target)
    ensures AllRecoverTo(g, images, target)
  {
    InstallIsRecovery(g, d, images);
    forall i | 0 <= i < |images| ensures RecoversTo(g, images[i], target) {
      RecoveryImageKeeps(g, d, images[i]);
    }
  }

  /** The disk after write_log has filled k slots. */
  ghost function Filled(g: Geometry, d: Image, blocks: seq<int>, pinned: map<int, Block>, k: nat): (r: Image)
    requires WellFormed(g, d) && Loggable(g, |d|, blocks) && k <= |blocks|
    ensures WellFormed(g, r) && |r| == |d| && r[g.start] == d[g.start]
    ensures forall b :: IsHome(g, |d|, b) ==> r[b] == d[b]
  {
    if k == 0 then d
    else
      var b := blocks[k - 1];
      Filled(g, d, blocks, pinned, k - 1)[Slot(g, k - 1) := if b in pinned then pinned[b] else d[b]]
  }

  /** The images write_log has written so far. */
  ghost predicate FilledImages(g: Geometry, d: Image, blocks: seq<int>, pinned: map<int, Block>, images: seq<Image>) {
    && WellFormed(g, d) && Loggable(g, |d|, blocks) && |images| <= |blocks|
    && forall i :: 0 <= i < |images| ==> images[i] == Filled(g, d, blocks, pinned, i + 1)
  }

  lemma FilledNone(g: Geometry, d: Image, blocks: seq<int>, pinned: map<int, Block>)
    requires WellFormed(g, d) && Loggable(g, |d|, blocks)
    ensures Filled(g, d, blocks, pinned, 0) == d
  {
  }

  lemma FilledOne(g: Geometry, d: Image, blocks: seq<int>, pinned: map<int, Block>, k: nat)
    requires WellFormed(g, d) && Loggable(g, |d|, blocks) && k < |blocks|
    ensures var e := Filled(g, d, blocks, pinned, k); var b := blocks[k];
      && Slot(g, k) < |d| && 0 <= b < |d| && e[b] == d[b]
      && Filled(g, d, blocks, pinned, k + 1) == e[Slot(g, k) := if b in pinned then pinned[b] else e[b]]
  {
    assert IsHome(g, |d|, blocks[k]);
  }

  /** Under an empty header the slots are invisible. */
  lemma {:induction false} FilledFacts(g: Geometry, d: Image, blocks: seq<int>, pinned: map<int, Block>, k: nat)
    requires HeaderIs(g, d, []) && Loggable(g, |d|, blocks) && k <= |blocks|
    requires forall b :: b in blocks ==> b in pinned
    ensures var e := Filled(g, d, blocks, pinned, k);
      HeaderIs(g, e, []) && SameHome(g, e, d) && RecoversTo(g, e, d) && SlotsHold(g, e, blocks, pinned, 0, k)
  {
    hide Filled, HeaderIs, RecoversTo, SlotsHold, SameHome, Loggable;
    WellHeaded(g, d);
    if k == 0 {
      FilledNone(g, d, blocks, pinned);
      EmptyRecovers(g, d, blocks, pinned);
    } else {
      FilledFacts(g, d, blocks, pinned, k - 1);
      FilledOne(g, d, blocks, pinned, k - 1);
      var e, e1 := Filled(g, d, blocks, pinned, k - 1), Filled(g, d, blocks, pinned, k);
      assert blocks[k - 1] in blocks;
      FillSlots(g, e, e1, blocks, pinned, k - 1);
      SlotThere(g, d, blocks, k - 1);
      FillSlot(g, e, e1, k - 1, pinned[blocks[k - 1]], d);
      SameHomeTwice(g, e1, e, d);
    }
  }

  lemma WellHeaded(g: Geometry, d: Image)
    requires HeaderIs(g, d, [])
    ensures WellFormed(g, d)
  {
  }

  lemma EmptyRecovers(g: Geometry, d: Image, blocks: seq<int>, pinned: map<int, Block>)
    requires HeaderIs(g, d, [])
    ensures SameHome(g, d, d) && RecoversTo(g, d, d) && SlotsHold(g, d, blocks, pinned, 0, 0)
  {
    assert Header(g, d) == [];
  }

  lemma SlotThere(g: Geometry, d: Image, blocks: seq<int>, k: nat)
    requires Loggable(g, |d|, blocks) && k < |blocks|
    ensures k < g.size - 1 && 0 <= blocks[k] < |d| && !InLog(g, blocks[k])
  {
    assert IsHome(g, |d|, blocks[k]);
  }

  lemma SameHomeTwice(g: Geometry, d: Image, e: Image, f: Image)
    requires SameHome(g, d, e) && SameHome(g, e, f)
    ensures SameHome(g, d, f)
  {
  }

  /** ... and after the header has been written. */
  ghost function Headed(g: Geometry, d: Image, blocks: seq<int>, pinned: map<int, Block>): (r: Image)
    requires WellFormed(g, d) && Loggable(g, |d|, blocks)
    ensures WellFormed(g, r) && |r| == |d|
  {
    var e := Filled(g, d, blocks, pinned, |blocks|);
    e[g.start := PutHeader(e[g.start], blocks)]
  }

  /** The disk after the first k of the 2 * n + 2 writes of a commit of n blocks: n log
      slots, the header, n home blocks, the empty header. */
  ghost function CommitImage(g: Geometry, d: Image, blocks: seq<int>, pinned: map<int, Block>, k: nat): (r: Image)
    requires WellFormed(g, d) && Loggable(g, |d|, blocks)
  {
    var n := |blocks|;
    if k <= n then Filled(g, d, blocks, pinned, k)
    else if k <= 2 * n + 1 then Replay(g, Headed(g, d, blocks, pinned), blocks, k - n - 1)
    else Cleared(g, Replay(g, Headed(g, d, blocks, pinned), blocks, n))
  }

  /** These are the images of a commit, in order. */
  ghost predicate CommitImages(g: Geometry, d: Image, blocks: seq<int>, pinned: map<int, Block>, images: seq<Image>) {
    && WellFormed(g, d) && Loggable(g, |d|, blocks) && |images| == 2 * |blocks| + 2
    && forall k :: 0 <= k < |images| ==> images[k] == CommitImage(g, d, blocks, pinned, k + 1)
  }

  lemma CommitImagesJoin(
    g: Geometry, d: Image, blocks: seq<int>, pinned: map<int, Block>, before: seq<Image>, rest: seq<Image>)
    requires WellFormed(g, d) && Loggable(g, |d|, blocks) && |before| == |blocks| && |rest| == |blocks| + 1
    requires FilledImages(g, d, blocks, pinned, before)
    requires forall i :: 0 <= i < |blocks| ==> rest[i] == Replay(g, Headed(g, d, blocks, pinned), blocks, i + 1)
    requires rest[|blocks|] == Cleared(g, Replay(g, Headed(g, d, blocks, pinned), blocks, |blocks|))
    ensures CommitImages(g, d, blocks, pinned, before + ([Headed(g, d, blocks, pinned)] + rest))
  {
    hide Filled, Replay, Headed, Cleared, Loggable, WellFormed;
    var all := before + ([Headed(g, d, blocks, pinned)] + rest);
    var n := |blocks|;
    forall k | 0 <= k < |all| ensures all[k] == CommitImage(g, d, blocks, pinned, k + 1) {
      if k == n { ReplayNone(g, Headed(g, d, blocks, pinned), blocks); }
      if k >= n + 1 { assert all[k] == rest[k - n - 1]; }
    }
  }

  lemma ReplayNone(g: Geometry, d: Image, blocks: seq<int>)
    requires WellFormed(g, d) && Loggable(g, |d|, blocks)
    ensures Replay(g, d, blocks, 0) == d
  {
  }

  lemma ReplayOne(g: Geometry, d: Image, blocks: seq<int>, k: nat)
    requires WellFormed(g, d) && Loggable(g, |d|, blocks) && k < |blocks|
    ensures var e := Replay(g, d, blocks, k);
      && Slot(g, k) < |d| && 0 <= blocks[k] < |d| && InLog(g, Slot(g, k))
      && Replay(g, d, blocks, k + 1) == e[blocks[k] := e[Slot(g, k)]]
  {
    SlotThere(g, d, blocks, k);
    assert InLog(g, Slot(g, k));
  }

  /** The pins of `gone` have been dropped. */
  ghost predicate Less(pinned: map<int, Block>, pinned1: map<int, Block>, gone: seq<int>) {
    forall b :: b in pinned1 <==> b in pinned && b !in gone
  }

  lemma LogUnpinned(g: Geometry, pinned: map<int, Block>, pinned1: map<int, Block>, gone: seq<int>, b: int)
    requires (forall x :: x in pinned ==> !InLog(g, x)) && InLog(g, b)
    ensures b !in pinned && (Less(pinned, pinned1, gone) ==> b !in pinned1)
  {
  }

  lemma OneRecovers(g: Geometry, e: Image, target: Image)
    requires RecoversTo(g, e, target)
    ensures AllRecoverTo(g, [e], target)
  {
  }

  lemma AllRecoverToJoin(g: Geometry, a: seq<Image>, b: seq<Image>, target: Image)
    requires AllRecoverTo(g, a, target) && AllRecoverTo(g, b, target)
    ensures AllRecoverTo(g, a + b, target)
  {
  }

  lemma ConcatAssociative<T>(a: seq<T>, b: seq<T>, c: seq<T>)
    ensures a + b + c == a + (b + c)
  {
  }

  class Log {
    const g: Geometry
    const block: array<int>      // lh.block
    var n: nat                   // lh.n
    var outstanding: int
    var disk: Image
    var pinned: map<int, Block>  // contents of the buffers bpin() holds
    ghost var writes: seq<Image>

    ghost predicate Valid()
      reads this, block
    {
      && block.Length == LOGSIZE && n <= LOGSIZE
      && WellFormed(g, disk)
      && Loggable(g, |disk|, block[..n])
    }

    /** The state between operations: nothing committed is waiting on disk and
        the pinned buffers are exactly the blocks of the open transaction. */
    ghost predicate Open()
      reads this, block
    {
      && Valid() && HeaderIs(g, disk, []) && Distinct(block[..n])
      && (forall b :: b in pinned <==> b in block[..n])
    }

    constructor (g: Geometry, image: Image)
      requires WellFormed(g, image)
      ensures Valid() && fresh(block) && n == 0 && pinned == map[] && writes == []
      ensures this.g == g && disk == image
    {
      this.g := g;
      block := new int[LOGSIZE];
      n, outstanding, disk, pinned, writes := 0, 0, image, map[], [];
    }

    function Bread(b: int): (data: Block)
      requires 0 <= b < |disk|
      reads this
    {
      if b in pinned then pinned[b] else disk[b]
    }

    method Bwrite(b: int, data: Block)
      requires 0 <= b < |disk|
      modifies this`disk, this`writes
      ensures disk == old(disk)[b := data] && writes == old(writes) + [disk]
    {
      disk := disk[b := data];
      writes := writes + [disk];
    }

    method WriteHead()
      requires Valid() && g.start !in pinned
      modifies this`disk, this`writes
      ensures disk == old(disk)[g.start := PutHeader(old(disk)[g.start], block[..n])]
      ensures writes == old(writes) + [disk]
      ensures HeaderIs(g, disk, block[..n])
    {
      var was := Bread(g.start);
      var hb := was.words[0 := n];
      for i := 0 to n
        invariant hb == [n] + block[..i] + was.words[1 + i..]
      {
        hb := hb[1 + i := block[i]];
      }
      Bwrite(g.start, Block(hb));
    }

    method ReadHead()
      requires Valid() && HeaderOk(g, disk) && g.start !in pinned
      modifies this`n, block
      ensures Valid() && block[..n] == Header(g, disk)
    {
      var hb := Bread(g.start).words;
      n := hb[0];
      for i := 0 to n
        modifies block
        invariant block[..i] == hb[1..1 + i]
      {
        block[i] := hb[1 + i];
      }
    }

    /** The body of install_trans' loop: one block from the log to its home. */
    method InstallBlock(tail: nat, recovering: bool)
      requires block.Length == LOGSIZE && tail < n <= LOGSIZE
      requires 0 <= block[tail] < |disk| && Slot(g, tail) < |disk|
      requires Slot(g, tail) !in pinned
      modifies this`disk, this`writes, this`pinned
      ensures disk == old(disk)[block[tail] := old(disk)[Slot(g, tail)]]
      ensures writes == old(writes) + [disk]
      ensures pinned == if recovering then old(pinned) else old(pinned) - {block[tail]}
    {
      var lbuf := Bread(Slot(g, tail));
      Bwrite(block[tail], lbuf);
      if !recovering { pinned := pinned - {block[tail]}; }
    }

    /** The disk takes the images of a replay one block at a time. */
    method InstallTrans(recovering: bool) returns (ghost images: seq<Image>)
      requires Valid() && forall b :: b in pinned ==> !InLog(g, b)
      modifies this`disk, this`writes, this`pinned
      ensures Valid() && disk == Replay(g, old(disk), block[..n], n)
      ensures writes == old(writes) + images
      ensures InstallImages(g, old(disk), block[..n], images) && |images| == n
      ensures recovering ==> pinned == old(pinned)
      ensures !recovering ==> forall b :: b in pinned <==> b in old(pinned) && b !in block[..n]
    {
      hide Replay, Loggable, WellFormed;
      var tail := 0;
      images := [];
      ghost var blocks := block[..n];
      ghost var d0 := disk;
      ReplayNone(g, d0, blocks);
      while tail < n
        invariant tail <= n == |blocks|
        invariant disk == Replay(g, d0, blocks, tail)
        invariant writes == old(writes) + images && |images| == tail && InstallImages(g, d0, blocks, images)
        invariant recovering ==> pinned == old(pinned)
        invariant !recovering ==> Less(old(pinned), pinned, blocks[..tail])
      {
        ReplayOne(g, d0, blocks, tail);
        LogUnpinned(g, old(pinned), pinned, blocks[..tail], Slot(g, tail));
        InstallBlock(tail, recovering);
        assert blocks[..tail + 1] == blocks[..tail] + [block[tail]];
        images := images + [disk];
        tail := tail + 1;
      }
      assert blocks[..n] == blocks;
    }

    /** Until the header is written the log slots are invisible: every image
        keeps the header and the home blocks. */
    method WriteLog() returns (ghost images: seq<Image>)
      requires Open()
      modifies this`disk, this`writes
      ensures HeaderIs(g, disk, []) && SameHome(g, disk, old(disk))
      ensures SlotsHold(g, disk, block[..n], pinned, 0, n)
      ensures writes == old(writes) + images && AllRecoverTo(g, images, old(disk))
      ensures |images| == n && FilledImages(g, old(disk), block[..n], pinned, images)
      ensures disk == Filled(g, old(disk), block[..n], pinned, n)
    {
      hide Filled, HeaderIs;
      var tail := 0;
      images := [];
      ghost var d0, blocks := disk, block[..n];
      FilledNone(g, d0, blocks, pinned);
      while tail < n
        invariant tail <= n && disk == Filled(g, d0, blocks, pinned, tail)
        invariant writes == old(writes) + images && FilledImages(g, d0, blocks, pinned, images) && |images| == tail
      {
        FilledOne(g, d0, blocks, pinned, tail);
        var from := Bread(block[tail]);
        Bwrite(Slot(g, tail), from);
        images := images + [disk];
        tail := tail + 1;
      }
      FilledFacts(g, d0, blocks, pinned, n);
      forall i | 0 <= i < n ensures RecoversTo(g, images[i], d0) { FilledFacts(g, d0, blocks, pinned, i + 1); }
    }

    /** The first half of commit: log the blocks, then the header.  The image
        with the header written is the first to recover to the transaction. */
    method Publish(ghost target: Image) returns (ghost before: seq<Image>)
      requires Open() && target == Overlay(disk, pinned)
      modifies this`disk, this`writes
      ensures Valid() && writes == old(writes) + before + [disk]
      ensures AllRecoverTo(g, before, old(disk))
      ensures |before| == n && FilledImages(g, old(disk), block[..n], pinned, before)
      ensures disk == Headed(g, old(disk), block[..n], pinned)
      ensures RecoversTo(g, disk, target) && Header(g, disk) == block[..n]
    {
      ghost var blocks := block[..n];
      before := WriteLog();
      ghost var logged := disk;
      assert InLog(g, g.start);
      WriteHead();
      HeaderKeepsSlots(g, logged, disk, blocks, pinned);
      CommittedImage(g, old(disk), disk, blocks, pinned);
    }

    /** The second half of commit: install, then erase the header. */
    method InstallAndErase(ghost target: Image) returns (ghost images: seq<Image>)
      requires Valid() && RecoversTo(g, disk, target) && Header(g, disk) == block[..n]
      requires forall b :: b in pinned <==> b in block[..n]
      modifies this`disk, this`writes, this`pinned, this`n
      ensures Open() && n == 0 && pinned == map[] && SameHome(g, disk, target)
      ensures writes == old(writes) + images && AllRecoverTo(g, images, target)
      ensures |images| == old(n) + 1 && images[old(n)] == Cleared(g, Replay(g, old(disk), old(block[..n]), old(n)))
      ensures forall i :: 0 <= i < old(n) ==> images[i] == Replay(g, old(disk), old(block[..n]), i + 1)
    {
      images := InstallTrans(false);
      InstallRecovers(g, old(disk), images, target);
      assert forall b :: b !in pinned;
      ghost var installed := disk;
      n := 0;
      assert block[..0] == [];
      WriteHead();
      assert disk == Cleared(g, installed) && Header(g, disk) == [];
      images := images + [disk];
    }

    /** Crash atomicity: `before` are the images up to the header write and
        `after` the ones from it on.  A crash in the first group recovers to
        the old home blocks, one in the second to the whole transaction.
        CommitImage says which images these are. */
    method Commit() returns (ghost before: seq<Image>, ghost after: seq<Image>)
      requires Open()
      modifies this`disk, this`writes, this`pinned, this`n
      ensures Open() && n == 0 && pinned == map[]
      ensures SameHome(g, disk, Overlay(old(disk), old(pinned)))
      ensures writes == old(writes) + before + after && (old(n) > 0 ==> after != [])
      ensures AllRecoverTo(g, before, old(disk))
      ensures AllRecoverTo(g, after, Overlay(old(disk), old(pinned)))
      ensures old(n) > 0 ==> CommitImages(g, old(disk), old(block[..n]), old(pinned), before + after)
    {
      before, after := [], [];
      if n == 0 {
        assert block[..n] == [];
        assert forall b :: b !in pinned;
      } else {
        hide AllRecoverTo, RecoversTo, CommitImages, FilledImages, Replay, Headed, HeaderIs, Cleared;
        ghost var target := Overlay(disk, pinned);
        before := Publish(target);
        ghost var committed := disk;
        ghost var images := InstallAndErase(target);
        after := [committed] + images;
        OneRecovers(g, committed, target);
        AllRecoverToJoin(g, [committed], images, target);
        CommitImagesJoin(g, old(disk), old(block[..n]), old(pinned), before, images);
        ConcatAssociative(old(writes) + before, [committed], images);
      }
    }

    /** Recovery installs the logged transaction, and an interrupted recovery
        leaves an image from which the next one starts over. */
    method RecoverFromLog() returns (ghost images: seq<Image>)
      requires Valid() && HeaderOk(g, disk) && pinned == map[]
      modifies this, block
      ensures Open() && n == 0 && pinned == map[]
      ensures disk == Cleared(g, Recovered(g, old(disk)))
      ensures writes == old(writes) + images
      ensures forall i :: 0 <= i < |images| ==> RecoveryImage(g, old(disk), images[i])
    {
      ReadHead();
      images := InstallTrans(true);
      InstallIsRecovery(g, old(disk), images);
      assert InLog(g, g.start);
      n := 0;
      assert block[..0] == [];
      WriteHead();
      images := images + [disk];
    }

    /** log_write: absorb a block already in the transaction, append a new one. */
    method LogWrite(b: int, data: Block) returns (r: Outcome)
      requires Open() && IsHome(g, |disk|, b)
      modifies this`n, this`pinned, block
      ensures r.Panic? <==> old(n) >= LOGSIZE || old(n) >= g.size - 1 || outstanding < 1
      ensures r.Panic? ==> n == old(n) && pinned == old(pinned) && block[..] == old(block[..])
      ensures r.Ok? ==> Open() && pinned == old(pinned)[b := data]
      ensures r.Ok? ==> block[..n] == old(block[..n]) + (if b in old(block[..n]) then [] else [b])
    {
      if n >= LOGSIZE || n >= g.size - 1 { return Panic; }
      if outstanding < 1 { return Panic; }
      var i := 0;
      while i < n
        invariant i <= n && b !in block[..i]
      {
        if block[i] == b { break; }
        i := i + 1;
      }
      ghost var was := block[..n];
      block[i] := b;
      pinned := pinned[b := data];
      if i == n {
        n := n + 1;
        assert block[..n] == was + [b];
      } else {
        assert block[..n] == was;
      }
      return Ok;
    }
  }
}
