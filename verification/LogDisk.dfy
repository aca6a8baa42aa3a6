/** The on-disk redo log: its layout, what recovery makes of a disk image, and
    the two facts everything else rests on: a replay is decided block by block
    by the last log slot naming the block, and replaying again after any
    partial replay changes nothing. */
module LogDisk {
  // A block is a sequence of words; the header block has BSIZE / sizeof(uint)
  // of them, with lh.n in word 0 and lh.block[i] in word i + 1.
  datatype Block = Block(words: seq<int>)
  type Image = seq<Block>

  const WORDS: nat := 256
  const LOGSIZE: nat := 30

  /** log.start and log.size as the superblock gives them. */
  datatype Geometry = Geometry(start: nat, size: nat)

  predicate InLog(g: Geometry, b: int) {
    g.start <= b < g.start + g.size
  }

  /** A block outside the log region that exists on a disk of `total` blocks. */
  predicate IsHome(g: Geometry, total: nat, b: int) {
    0 <= b < total && !InLog(g, b)
  }

  /** The disk block of log slot i. */
  function Slot(g: Geometry, i: nat): (b: nat) {
    g.start + 1 + i
  }

  ghost predicate WellFormed(g: Geometry, d: Image) {
    1 <= g.size && g.start + g.size <= |d| && |d[g.start].words| == WORDS
  }

  /** Block numbers that fit the log: one slot each, all of them home blocks. */
  ghost predicate Loggable(g: Geometry, total: nat, blocks: seq<int>) {
    && |blocks| <= LOGSIZE && |blocks| <= g.size - 1
    && forall i :: 0 <= i < |blocks| ==> IsHome(g, total, blocks[i])
  }

  /** The header holds exactly `blocks`; words past lh.n may be stale. */
  ghost predicate HeaderIs(g: Geometry, d: Image, blocks: seq<int>) {
    && WellFormed(g, d) && |blocks| <= LOGSIZE
    && d[g.start].words[0] == |blocks|
    && d[g.start].words[1..1 + |blocks|] == blocks
  }

  /** A disk whose header could have been written by this log. */
  ghost predicate HeaderOk(g: Geometry, d: Image) {
    && WellFormed(g, d)
    && var n := d[g.start].words[0];
       0 <= n <= LOGSIZE && Loggable(g, |d|, d[g.start].words[1..1 + n])
  }

  function Header(g: Geometry, d: Image): (blocks: seq<int>)
    requires HeaderOk(g, d)
    ensures HeaderIs(g, d, blocks) && Loggable(g, |d|, blocks)
  {
    d[g.start].words[1..1 + d[g.start].words[0]]
  }

  /** The header block after write_head() with lh == blocks. */
  function PutHeader(was: Block, blocks: seq<int>): (b: Block)
    requires |was.words| == WORDS && |blocks| <= LOGSIZE
    ensures |b.words| == WORDS && b.words[0] == |blocks| && b.words[1..1 + |blocks|] == blocks
  {
    Block([|blocks|] + blocks + was.words[1 + |blocks|..])
  }

  /** install_trans after k iterations: log slot i copied to block blocks[i],
      for i = 0 .. k - 1 in order. */
  ghost function Replay(g: Geometry, d: Image, blocks: seq<int>, k: nat): (r: Image)
    requires WellFormed(g, d) && Loggable(g, |d|, blocks) && k <= |blocks|
    ensures WellFormed(g, r) && |r| == |d|
    ensures forall b :: InLog(g, b) ==> r[b] == d[b]
  {
    if k == 0 then d else Replay(g, d, blocks, k - 1)[blocks[k - 1] := d[Slot(g, k - 1)]]
  }

  /** The image recovery aims at (recover_from_log, up to clearing the header). */
  ghost function Recovered(g: Geometry, d: Image): (r: Image)
    requires HeaderOk(g, d)
    ensures WellFormed(g, r) && |r| == |d|
  {
    Replay(g, d, Header(g, d), |Header(g, d)|)
  }

  /** Two images agree on every block outside the log. */
  ghost predicate SameHome(g: Geometry, d: Image, e: Image) {
    |d| == |e| && forall b :: IsHome(g, |d|, b) ==> d[b] == e[b]
  }

  /** Among the first k slots, slot i is the last one destined for `b`. */
  ghost predicate LastAt(blocks: seq<int>, k: int, i: int, b: int) {
    0 <= i < k <= |blocks| && blocks[i] == b && forall j :: i < j < k ==> blocks[j] != b
  }

  /** A replay leaves each block with the content of the last slot naming it,
      and leaves every other block alone. */
  lemma {:induction false} ReplayAt(g: Geometry, d: Image, blocks: seq<int>, k: nat, b: int)
    requires WellFormed(g, d) && Loggable(g, |d|, blocks) && k <= |blocks| && 0 <= b < |d|
    ensures (forall i :: 0 <= i < k ==> blocks[i] != b) ==> Replay(g, d, blocks, k)[b] == d[b]
    ensures forall i :: LastAt(blocks, k, i, b) ==> Replay(g, d, blocks, k)[b] == d[Slot(g, i)]
  {
    if k > 0 {
      ReplayAt(g, d, blocks, k - 1, b);
      forall i | LastAt(blocks, k, i, b)
        ensures Replay(g, d, blocks, k)[b] == d[Slot(g, i)]
      {
        if i < k - 1 { assert LastAt(blocks, k - 1, i, b); }
      }
    }
  }

  /** A block listed among the first k slots has a last slot there. */
  lemma {:induction false} LastExists(blocks: seq<int>, k: nat, b: int) returns (i: int)
    requires k <= |blocks| && exists j :: 0 <= j < k && blocks[j] == b
    ensures LastAt(blocks, k, i, b)
  {
    i := k - 1;
    if blocks[i] != b { i := LastExists(blocks, k - 1, b); }
  }

  /** What a replay of the first k slots gives at block b. */
  lemma ReplayCases(g: Geometry, d: Image, blocks: seq<int>, k: nat, b: int) returns (i: int)
    requires WellFormed(g, d) && Loggable(g, |d|, blocks) && k <= |blocks| && 0 <= b < |d|
    ensures i == -1 || LastAt(blocks, k, i, b)
    ensures i == -1 ==> (forall j :: 0 <= j < k ==> blocks[j] != b) && Replay(g, d, blocks, k)[b] == d[b]
    ensures i != -1 ==> InLog(g, Slot(g, i)) && Replay(g, d, blocks, k)[b] == d[Slot(g, i)]
  {
    ReplayAt(g, d, blocks, k, b);
    if exists j :: 0 <= j < k && blocks[j] == b {
      i := LastExists(blocks, k, b);
    } else {
      i := -1;
    }
  }

  /** Crash during recovery: whatever part of the log was installed before, a
      replay from the start gives the same image. */
  lemma ReplayAgain(g: Geometry, d: Image, blocks: seq<int>, k: nat)
    requires WellFormed(g, d) && Loggable(g, |d|, blocks) && k <= |blocks|
    ensures Replay(g, Replay(g, d, blocks, k), blocks, |blocks|) == Replay(g, d, blocks, |blocks|)
  {
    var part, n := Replay(g, d, blocks, k), |blocks|;
    forall b | 0 <= b < |d|
      ensures Replay(g, part, blocks, n)[b] == Replay(g, d, blocks, n)[b]
    {
      var i := ReplayCases(g, d, blocks, n, b);
      ReplayAt(g, part, blocks, n, b);
      if i == -1 { ReplayAt(g, d, blocks, k, b); }
    }
  }

  /** The images a run of recovery can leave behind: the first k log slots
      installed, or everything installed and the header cleared. */
  ghost predicate RecoveryImage(g: Geometry, d: Image, e: Image)
    requires HeaderOk(g, d)
  {
    || (exists k: nat :: k <= |Header(g, d)| && e == Replay(g, d, Header(g, d), k))
    || e == Cleared(g, Recovered(g, d))
  }

  ghost function Cleared(g: Geometry, d: Image): (e: Image)
    requires WellFormed(g, d)
    ensures HeaderIs(g, e, []) && HeaderOk(g, e) && SameHome(g, d, e)
  {
    d[g.start := PutHeader(d[g.start], [])]
  }

  /** An image left by an interrupted recovery still has a sound header and
      still recovers to the same home blocks. */
  lemma RecoveryImageKeeps(g: Geometry, d: Image, e: Image)
    requires HeaderOk(g, d) && RecoveryImage(g, d, e)
    ensures |e| == |d| && HeaderOk(g, e)
    ensures SameHome(g, Recovered(g, e), Recovered(g, d))
  {
    var blocks := Header(g, d);
    if e == Cleared(g, Recovered(g, d)) {
      assert Header(g, e) == [];
    } else {
      var k: nat :| k <= |blocks| && e == Replay(g, d, blocks, k);
      assert e[g.start] == d[g.start] by { assert InLog(g, g.start); }
      assert Header(g, e) == blocks;
      ReplayAgain(g, d, blocks, k);
    }
  }

  /** A recovery started on `d` can be interrupted leaving `e`. */
  ghost predicate LeftBy(g: Geometry, d: Image, e: Image) {
    HeaderOk(g, d) && RecoveryImage(g, d, e)
  }

  /** Each image is what a recovery of the one before it left at its crash. */
  ghost predicate CrashChain(g: Geometry, images: seq<Image>) {
    && |images| >= 1 && HeaderOk(g, images[0])
    && forall i :: 0 <= i < |images| - 1 ==> LeftBy(g, images[i], images[i + 1])
  }

  /** Any number of crashes during recovery: the outcome is decided by the
      first image alone. */
  lemma {:induction false} CrashesDuringRecovery(g: Geometry, images: seq<Image>)
    requires CrashChain(g, images)
    ensures var last := images[|images| - 1];
      HeaderOk(g, last) && SameHome(g, Recovered(g, last), Recovered(g, images[0]))
  {
    if |images| > 1 {
      var shorter := images[..|images| - 1];
      CrashesDuringRecovery(g, shorter);
      RecoveryImageKeeps(g, shorter[|shorter| - 1], images[|images| - 1]);
    }
  }
}
