/** bio.c: the LRU list of disk block buffers.  Every method of the cache is one
    atomic step (what the code does under bcache.lock, or alone while holding the
    buffer's sleep-lock), so the invariant and the frame conditions hold over
    every interleaving of processes. */
module BufferCache {
  import opened Params

  const NBUF: nat := 30
  /** bcache.head, as an index behind the buffers. */
  const HEAD: nat := NBUF

  type Bytes = seq<int>
  datatype Key = Key(dev: nat, blockno: nat)
  type Disk = map<Key, Bytes>

  // ---- the list ----

  /** The i-th element of the cycle head, order[0], ..., order[n-1], head. */
  function At(order: seq<int>, i: int): (b: int) {
    if 0 <= i < |order| then order[i] else HEAD
  }

  ghost predicate InRange(order: seq<int>) {
    forall i :: 0 <= i < |order| ==> 0 <= order[i] < NBUF
  }

  /** next and prev run through head and `order` in a cycle, both ways. */
  ghost predicate Linked(next: seq<int>, prev: seq<int>, order: seq<int>) {
    && |next| == NBUF + 1 && |prev| == NBUF + 1 && Distinct(order) && InRange(order)
    && (forall i :: 0 <= i <= |order| ==> next[At(order, i - 1)] == At(order, i))
    && (forall i :: 0 <= i <= |order| ==> prev[At(order, i)] == At(order, i - 1))
  }

  /** Every buffer is on the list. */
  ghost predicate Complete(order: seq<int>) {
    forall b :: 0 <= b < NBUF ==> b in order
  }

  /** `order` without its i-th element. */
  function Without(order: seq<int>, i: nat): (r: seq<int>)
    requires i < |order|
  {
    order[..i] + order[i + 1..]
  }

  /** b->next->prev = b->prev; b->prev->next = b->next. */
  lemma Unlink(next: seq<int>, prev: seq<int>, order: seq<int>, i: nat)
    requires Linked(next, prev, order) && i < |order|
    ensures var b := order[i];
      && 0 <= next[b] <= NBUF && 0 <= prev[b] <= NBUF
      && Linked(next[prev[b] := next[b]], prev[next[b] := prev[b]], Without(order, i))
      && b !in Without(order, i)
  {
    var b := order[i];
    var rest := Without(order, i);
    assert next[At(order, i)] == At(order, i + 1) && prev[At(order, i)] == At(order, i - 1);
    var next1, prev1 := next[prev[b] := next[b]], prev[next[b] := prev[b]];
    forall k | 0 <= k <= |rest|
      ensures next1[At(rest, k - 1)] == At(rest, k) && prev1[At(rest, k)] == At(rest, k - 1)
    {
      var j := if k <= i then k else k + 1;
      assert At(rest, k) == At(order, if k < i then k else k + 1);
      assert At(rest, k - 1) == At(order, if k <= i then k - 1 else k);
      assert next[At(order, j - 1)] == At(order, j) && prev[At(order, j)] == At(order, j - 1);
    }
  }

  /** b goes behind the head. */
  lemma PushFront(next: seq<int>, prev: seq<int>, order: seq<int>, b: int)
    requires Linked(next, prev, order) && 0 <= b < NBUF && b !in order
    ensures 0 <= next[HEAD] <= NBUF
    ensures Linked(next[b := next[HEAD]][HEAD := b], prev[b := HEAD][next[HEAD] := b], [b] + order)
  {
    assert next[At(order, -1)] == At(order, 0);
    var next1, prev1 := next[b := next[HEAD]][HEAD := b], prev[b := HEAD][next[HEAD] := b];
    var all := [b] + order;
    forall k | 0 <= k <= |all|
      ensures next1[At(all, k - 1)] == At(all, k) && prev1[At(all, k)] == At(all, k - 1)
    {
      if k > 0 { assert At(all, k) == At(order, k - 1); }
      if k > 1 {
        assert next[At(order, k - 2)] == At(order, k - 1) && prev[At(order, k - 1)] == At(order, k - 2);
      }
    }
  }

  // ---- buffers ----

  /** holder is the process that has the buffer's sleep-lock, -1 for none. */
  datatype Buf = Buf(dev: nat, blockno: nat, valid: bool, refcnt: int, holder: int, data: Bytes)

  /** What the reference count stands for (processes between bget and brelse, pins
      of the log), whether the contents have been changed and not yet written, when
      brelse last released the buffer, and when it last left it unreferenced. */
  datatype Use = Use(users: multiset<nat>, pins: nat, dirty: bool, released: int, freed: int)

  function On(disk: Disk, k: Key): (data: Bytes) {
    if k in disk then disk[k] else []
  }

  function KeyOf(b: Buf): (k: Key) {
    Key(b.dev, b.blockno)
  }

  ghost predicate BufOk(b: Buf, u: Use, disk: Disk) {
    && b.refcnt == |u.users| + u.pins
    && (b.holder != -1 ==> b.holder >= 0 && b.holder in u.users)
    && (b.valid && !u.dirty ==> b.data == On(disk, KeyOf(b)))
    && (u.dirty ==> b.valid && (b.holder != -1 || u.pins > 0))
    && (b.refcnt > 0 || b.valid ==> b.dev != 0)
    && (b.refcnt == 0 ==> u.released == u.freed)
  }

  /** No requested block has two buffers. */
  ghost predicate Unique(bufs: seq<Buf>) {
    forall i, j :: 0 <= i < j < |bufs| && bufs[i].dev != 0 ==> KeyOf(bufs[i]) != KeyOf(bufs[j])
  }

  ghost predicate AllOk(bufs: seq<Buf>, uses: seq<Use>, disk: Disk) {
    && |bufs| == NBUF && |uses| == NBUF && Unique(bufs)
    && forall i :: 0 <= i < NBUF ==> BufOk(bufs[i], uses[i], disk)
  }

  /** The list is sorted by the time of the last freeing release, latest first. */
  ghost predicate Sorted(order: seq<int>, uses: seq<Use>, clock: int) {
    && |uses| == NBUF && InRange(order)
    && (forall b :: 0 <= b < NBUF ==> uses[b].freed < clock)
    && forall i, j :: 0 <= i < j < |order| ==> uses[order[i]].freed > uses[order[j]].freed
  }

  // ---- what the cache shows ----

  ghost predicate Shows(bufs: seq<Buf>, b: int, k: Key) {
    0 <= b < |bufs| && bufs[b].valid && KeyOf(bufs[b]) == k && k.dev != 0
  }

  /** The contents of block k as every reader gets them: the cached copy if there
      is one, else the disk. */
  ghost function View(bufs: seq<Buf>, disk: Disk, k: Key): (data: Bytes) {
    if exists b :: Shows(bufs, b, k) then
      var b :| Shows(bufs, b, k);
      bufs[b].data
    else On(disk, k)
  }

  /** The buffer that stands for block k decides its view. */
  lemma ViewAt(bufs: seq<Buf>, disk: Disk, b: nat, k: Key)
    requires Unique(bufs) && b < |bufs| && KeyOf(bufs[b]) == k && k.dev != 0
    ensures View(bufs, disk, k) == if bufs[b].valid then bufs[b].data else On(disk, k)
  {
    if bufs[b].valid { assert Shows(bufs, b, k); }
  }

  /** A buffer that stands for another block, before and after, does not matter. */
  lemma ViewElsewhere(bufs: seq<Buf>, disk: Disk, b: nat, buf: Buf, disk1: Disk, k: Key)
    requires Unique(bufs) && b < |bufs| && Unique(bufs[b := buf]) && KeyOf(bufs[b]) != k && KeyOf(buf) != k
    requires On(disk1, k) == On(disk, k) && k.dev != 0
    ensures View(bufs[b := buf], disk1, k) == View(bufs, disk, k)
  {
    var bufs1 := bufs[b := buf];
    forall i ensures Shows(bufs1, i, k) <==> Shows(bufs, i, k) {}
    if i :| Shows(bufs, i, k) {
      assert Shows(bufs1, i, k);
      ViewAt(bufs, disk, i, k);
      ViewAt(bufs1, disk1, i, k);
    }
  }

  /** The views agree, but for that of block k0, which is data now. */
  ghost predicate ViewChanged(bufs: seq<Buf>, disk: Disk, bufs1: seq<Buf>, disk1: Disk, k0: Key, data: Bytes) {
    forall k: Key :: k.dev != 0 ==>
      View(bufs1, disk1, k) == if k == k0 then data else View(bufs, disk, k)
  }

  ghost predicate SameView(bufs: seq<Buf>, disk: Disk, bufs1: seq<Buf>, disk1: Disk) {
    forall k: Key :: k.dev != 0 ==> View(bufs1, disk1, k) == View(bufs, disk, k)
  }

  /** A buffer goes on standing for its block; the disk changes there at most. */
  lemma ViewStep(bufs: seq<Buf>, disk: Disk, b: nat, buf: Buf, disk1: Disk)
    requires Unique(bufs) && b < |bufs| && KeyOf(buf) == KeyOf(bufs[b]) && buf.dev != 0
    requires forall k: Key :: k != KeyOf(buf) ==> On(disk1, k) == On(disk, k)
    ensures Unique(bufs[b := buf])
    ensures ViewChanged(bufs, disk, bufs[b := buf], disk1, KeyOf(buf), if buf.valid then buf.data else On(disk1, KeyOf(buf)))
    ensures View(bufs, disk, KeyOf(buf)) == if bufs[b].valid then bufs[b].data else On(disk, KeyOf(buf))
  {
    var bufs1 := bufs[b := buf];
    forall k: Key | k.dev != 0
      ensures View(bufs1, disk1, k) ==
        if k == KeyOf(buf) then (if buf.valid then buf.data else On(disk1, k)) else View(bufs, disk, k)
    {
      if k == KeyOf(buf) { ViewAt(bufs1, disk1, b, k); } else { ViewElsewhere(bufs, disk, b, buf, disk1, k); }
    }
    ViewAt(bufs, disk, b, KeyOf(buf));
  }

  /** Counting, locking and pinning change no view. */
  lemma CountStep(bufs: seq<Buf>, disk: Disk, b: nat, buf: Buf)
    requires Unique(bufs) && b < |bufs| && buf.dev != 0
    requires KeyOf(buf) == KeyOf(bufs[b]) && buf.valid == bufs[b].valid && buf.data == bufs[b].data
    ensures Unique(bufs[b := buf]) && SameView(bufs, disk, bufs[b := buf], disk)
  {
    ViewStep(bufs, disk, b, buf, disk);
  }

  /** A clean buffer turned over to a block without a buffer changes no view. */
  lemma RecycleStep(bufs: seq<Buf>, disk: Disk, b: nat, buf: Buf)
    requires Unique(bufs) && b < |bufs| && !buf.valid && buf.dev != 0
    requires forall i :: 0 <= i < |bufs| ==> KeyOf(bufs[i]) != KeyOf(buf)
    requires bufs[b].valid ==> bufs[b].data == On(disk, KeyOf(bufs[b]))
    ensures Unique(bufs[b := buf]) && SameView(bufs, disk, bufs[b := buf], disk)
  {
    var bufs1 := bufs[b := buf];
    forall k: Key | k.dev != 0 ensures View(bufs1, disk, k) == View(bufs, disk, k) {
      if k == KeyOf(buf) {
        ViewAt(bufs1, disk, b, k);
      } else if k == KeyOf(bufs[b]) {
        ViewAt(bufs, disk, b, k);
        assert forall i :: !Shows(bufs1, i, k);
      } else {
        ViewElsewhere(bufs, disk, b, buf, disk, k);
      }
    }
  }

  /** Buffers somebody refers to stay what they are. */
  ghost predicate Held(bufs: seq<Buf>, bufs1: seq<Buf>) {
    |bufs1| == |bufs| && forall i :: 0 <= i < |bufs| && bufs[i].refcnt > 0 ==>
      KeyOf(bufs1[i]) == KeyOf(bufs[i]) && (bufs[i].valid ==> bufs1[i].valid)
  }

  lemma Where(order: seq<int>, b: int) returns (j: int)
    requires Complete(order) && 0 <= b < NBUF
    ensures 0 <= j < |order| && order[j] == b
  {
    assert b in order;
    j :| 0 <= j < |order| && order[j] == b;
  }

  // ---- small facts about one buffer ----

  lemma OkStep(bufs: seq<Buf>, uses: seq<Use>, disk: Disk, b: nat, buf: Buf, use: Use, disk1: Disk)
    requires AllOk(bufs, uses, disk) && b < NBUF && Unique(bufs[b := buf]) && BufOk(buf, use, disk1)
    requires forall k: Key :: k != KeyOf(buf) ==> On(disk1, k) == On(disk, k)
    requires disk1 != disk ==> buf.dev != 0
    ensures AllOk(bufs[b := buf], uses[b := use], disk1)
  {
    var bufs1, uses1 := bufs[b := buf], uses[b := use];
    forall i | 0 <= i < NBUF ensures BufOk(bufs1[i], uses1[i], disk1) {
      if i != b && bufs[i].valid {
        assert BufOk(bufs[i], uses[i], disk);
        assert KeyOf(bufs1[i]) != KeyOf(bufs1[b]) || disk1 == disk;
      }
    }
  }

  lemma SortedStep(order: seq<int>, uses: seq<Use>, clock: int, b: nat, use: Use)
    requires Sorted(order, uses, clock) && b < NBUF && use.freed == uses[b].freed
    ensures Sorted(order, uses[b := use], clock)
  {
  }

  lemma SortedLater(order: seq<int>, uses: seq<Use>, clock: int)
    requires Sorted(order, uses, clock)
    ensures Sorted(order, uses, clock + 1)
  {
  }

  /** The reference count falls to zero in brelse only, so the last release of an
      unreferenced buffer is the one the list is sorted by. */
  lemma LastRelease(bufs: seq<Buf>, uses: seq<Use>, disk: Disk)
    requires AllOk(bufs, uses, disk)
    ensures forall i :: 0 <= i < NBUF && bufs[i].refcnt == 0 ==> uses[i].released == uses[i].freed
  {
    forall i | 0 <= i < NBUF && bufs[i].refcnt == 0 ensures uses[i].released == uses[i].freed {
      assert BufOk(bufs[i], uses[i], disk);
    }
  }

  lemma HeldStep(bufs: seq<Buf>, b: nat, buf: Buf)
    requires b < |bufs| && (bufs[b].refcnt > 0 ==> KeyOf(buf) == KeyOf(bufs[b]) && (bufs[b].valid ==> buf.valid))
    ensures Held(bufs, bufs[b := buf])
  {
  }

  class Cache {
    var next: seq<int>
    var prev: seq<int>
    var bufs: seq<Buf>
    var disk: Disk
    ghost var order: seq<int>
    ghost var uses: seq<Use>
    ghost var clock: int

    ghost predicate Valid()
      reads this
    {
      && Linked(next, prev, order) && Complete(order)
      && AllOk(bufs, uses, disk) && Sorted(order, uses, clock)
    }

    /** binit: every buffer on the list, none in use; all start as block 0 of
        device 0. */
    constructor (disk: Disk)
      ensures Valid() && this.disk == disk
      ensures forall b :: 0 <= b < NBUF ==> bufs[b] == Buf(0, 0, false, 0, -1, [])
    {
      this.disk := disk;
      next, prev := seq(NBUF + 1, _ => HEAD), seq(NBUF + 1, _ => HEAD);
      bufs := seq(NBUF, _ => Buf(0, 0, false, 0, -1, []));
      uses := seq(NBUF, i => Use(multiset{}, 0, false, i, i));
      order, clock := [], NBUF;
      new;
      for b := 0 to NBUF
        invariant Linked(next, prev, order) && |order| == b
        invariant forall i :: 0 <= i < b ==> order[i] == b - 1 - i
        invariant this.disk == disk && bufs == seq(NBUF, _ => Buf(0, 0, false, 0, -1, []))
        invariant uses == seq(NBUF, i => Use(multiset{}, 0, false, i, i)) && clock == NBUF
      {
        PushFront(next, prev, order, b);
        next, prev := next[b := next[HEAD]], prev[b := HEAD];
        prev := prev[next[HEAD] := b];
        next := next[HEAD := b];
        order := [b] + order;
      }
      forall b | 0 <= b < NBUF ensures b in order { assert order[NBUF - 1 - b] == b; }
    }

    /** bget's first loop: from the most recently used on, the buffer of a block. */
    method Find(dev: nat, blockno: nat) returns (b: int)
      requires Valid()
      ensures b == HEAD ==> forall i :: 0 <= i < NBUF ==> KeyOf(bufs[i]) != Key(dev, blockno)
      ensures b != HEAD ==> 0 <= b < NBUF && KeyOf(bufs[b]) == Key(dev, blockno)
    {
      hide Sorted, BufOk, Unique, Distinct;
      ghost var i := 0;
      assert next[At(order, -1)] == At(order, 0);
      b := next[HEAD];
      while b != HEAD
        invariant 0 <= i <= |order| && b == At(order, i)
        invariant forall j :: 0 <= j < i ==> KeyOf(bufs[order[j]]) != Key(dev, blockno)
        decreases |order| - i
      {
        if bufs[b].dev == dev && bufs[b].blockno == blockno { return; }
        assert next[At(order, i)] == At(order, i + 1);
        b := next[b];
        i := i + 1;
      }
      forall k | 0 <= k < NBUF ensures KeyOf(bufs[k]) != Key(dev, blockno) {
        var j := Where(order, k);
      }
    }

    /** bget's second loop, from the least recently used on: of the unreferenced
        buffers the one whose last release lies furthest back. */
    method FindVictim() returns (b: int)
      requires Valid()
      ensures b == HEAD ==> forall i :: 0 <= i < NBUF ==> bufs[i].refcnt != 0
      ensures b != HEAD ==> 0 <= b < NBUF && bufs[b].refcnt == 0
      ensures b != HEAD ==> forall i :: 0 <= i < NBUF && bufs[i].refcnt == 0 ==> uses[b].released <= uses[i].released
    {
      LastRelease(bufs, uses, disk);
      hide BufOk, Unique, Distinct;
      ghost var i := |order|;
      assert prev[At(order, i)] == At(order, i - 1);
      b := prev[HEAD];
      while b != HEAD
        invariant 0 <= i <= |order| && b == At(order, i - 1)
        invariant forall j :: i <= j < |order| ==> bufs[order[j]].refcnt != 0
        decreases i
      {
        if bufs[b].refcnt == 0 {
          forall k | 0 <= k < NBUF && bufs[k].refcnt == 0 ensures uses[b].released <= uses[k].released {
            var j := Where(order, k);
          }
          return;
        }
        i := i - 1;
        assert prev[At(order, i)] == At(order, i - 1);
        b := prev[b];
      }
      forall k | 0 <= k < NBUF ensures bufs[k].refcnt != 0 {
        var j := Where(order, k);
      }
    }

    /** What bget does under bcache.lock: count a reference to the block's buffer,
        recycling one if it has none.  HEAD stands for the panic, which needs every
        buffer referenced.  Nobody sees a block change, and no buffer that a process
        or the log refers to stops standing for its block. */
    method Bget(p: nat, dev: nat, blockno: nat) returns (b: int)
      requires Valid() && dev != 0
      modifies this`bufs, this`uses
      ensures Valid() && SameView(old(bufs), disk, bufs, disk) && Held(old(bufs), bufs)
      ensures b == HEAD ==>
        && bufs == old(bufs) && uses == old(uses)
        && forall i :: 0 <= i < NBUF ==> bufs[i].refcnt > 0 && KeyOf(bufs[i]) != Key(dev, blockno)
      ensures b != HEAD ==>
        && 0 <= b < NBUF && KeyOf(bufs[b]) == Key(dev, blockno)
        && uses == old(uses)[b := old(uses)[b].(users := old(uses)[b].users + multiset{p})]
        && bufs == old(bufs)[b := bufs[b]] && bufs[b].holder == old(bufs)[b].holder
      ensures b != HEAD && KeyOf(old(bufs)[b]) != Key(dev, blockno) ==>
        && old(bufs)[b].refcnt == 0 && !bufs[b].valid
        && (forall i :: 0 <= i < NBUF ==> KeyOf(old(bufs)[i]) != Key(dev, blockno))
        && forall i :: 0 <= i < NBUF && old(bufs)[i].refcnt == 0 ==> old(uses)[b].released <= old(uses)[i].released
    {
      b := Find(dev, blockno);
      if b == HEAD {
        b := FindVictim();
        if b == HEAD {
          Positive(bufs, uses, disk);
          ViewSame(bufs, disk);
          return;
        }
      }
      ghost var use := uses[b].(users := uses[b].users + multiset{p});
      assert BufOk(bufs[b], uses[b], disk);
      var buf := if KeyOf(bufs[b]) == Key(dev, blockno) then bufs[b].(refcnt := bufs[b].refcnt + 1)
                 else bufs[b].(dev := dev, blockno := blockno, valid := false, refcnt := 1);
      BgetStep(bufs, uses, disk, b, buf, use, p, dev, blockno);
      hide AllOk, Linked, Complete, Sorted, SameView, Held, BufOk;
      SortedStep(order, uses, clock, b, use);
      uses := uses[b := use];
      bufs := bufs[b := buf];
    }

    /** acquiresleep succeeds: the buffer is free and p counted for it. */
    method Acquire(p: nat, b: nat)
      requires Valid() && b < NBUF && p in uses[b].users && bufs[b].holder == -1
      modifies this`bufs
      ensures Valid() && SameView(old(bufs), disk, bufs, disk) && Held(old(bufs), bufs)
      ensures bufs == old(bufs)[b := old(bufs)[b].(holder := p)]
    {
      BufNow(bufs, uses, disk, b);
      BufStep(bufs, uses, disk, b, bufs[b].(holder := p), uses[b], disk);
      hide AllOk, Linked, Complete, Sorted, SameView, Held, BufOk, ViewChanged;
      SortedStep(order, uses, clock, b, uses[b]);
      assert uses[b := uses[b]] == uses;
      bufs := bufs[b := bufs[b].(holder := p)];
    }

    /** bread once it has the lock: read the block unless it is cached.  The holder
        gets what the view shows. */
    method Fill(b: nat)
      requires Valid() && b < NBUF && bufs[b].holder != -1
      modifies this`bufs
      ensures Valid() && SameView(old(bufs), disk, bufs, disk) && Held(old(bufs), bufs)
      ensures bufs == old(bufs)[b := bufs[b]] && bufs[b].valid && bufs[b].data == View(bufs, disk, KeyOf(bufs[b]))
      ensures bufs[b] == old(bufs)[b].(valid := true, data := bufs[b].data)
    {
      var buf := if bufs[b].valid then bufs[b] else bufs[b].(data := On(disk, KeyOf(bufs[b])), valid := true);
      BufNow(bufs, uses, disk, b);
      BufStep(bufs, uses, disk, b, buf, uses[b], disk);
      ViewAt(bufs[b := buf], disk, b, KeyOf(buf));
      hide AllOk, Linked, Complete, Sorted, SameView, Held, BufOk, ViewChanged;
      assert uses[b := uses[b]] == uses;
      bufs := bufs[b := buf];
    }

    /** The holder changes the data; only the view of that block changes. */
    method Modify(b: nat, data: Bytes)
      requires Valid() && b < NBUF && bufs[b].holder != -1 && bufs[b].valid
      modifies this`bufs, this`uses
      ensures Valid() && Held(old(bufs), bufs)
      ensures ViewChanged(old(bufs), disk, bufs, disk, KeyOf(bufs[b]), data)
      ensures bufs == old(bufs)[b := old(bufs)[b].(data := data)] && uses == old(uses)[b := old(uses)[b].(dirty := true)]
    {
      BufNow(bufs, uses, disk, b);
      BufStep(bufs, uses, disk, b, bufs[b].(data := data), uses[b].(dirty := true), disk);
      hide AllOk, Linked, Complete, Sorted, Held, BufOk, ViewChanged;
      SortedStep(order, uses, clock, b, uses[b].(dirty := true));
      bufs := bufs[b := bufs[b].(data := data)];
      uses := uses[b := uses[b].(dirty := true)];
    }

    /** bwrite, which needs the lock: the disk catches up with the view. */
    method Bwrite(b: nat)
      requires Valid() && b < NBUF && bufs[b].holder != -1 && bufs[b].valid
      modifies this`disk, this`uses
      ensures Valid() && SameView(bufs, old(disk), bufs, disk)
      ensures disk == old(disk)[KeyOf(bufs[b]) := bufs[b].data]
      ensures disk[KeyOf(bufs[b])] == View(bufs, disk, KeyOf(bufs[b]))
      ensures uses == old(uses)[b := old(uses)[b].(dirty := false)]
    {
      ghost var disk1 := disk[KeyOf(bufs[b]) := bufs[b].data];
      BufNow(bufs, uses, disk, b);
      BufStep(bufs, uses, disk, b, bufs[b], uses[b].(dirty := false), disk1);
      assert bufs[b := bufs[b]] == bufs;
      ViewAt(bufs, disk1, b, KeyOf(bufs[b]));
      hide AllOk, Linked, Complete, Sorted, SameView, BufOk, ViewChanged, View;
      SortedStep(order, uses, clock, b, uses[b].(dirty := false));
      disk := disk[KeyOf(bufs[b]) := bufs[b].data];
      uses := uses[b := uses[b].(dirty := false)];
    }

    /** bpin, by the holder. */
    method Bpin(b: nat)
      requires Valid() && b < NBUF && bufs[b].holder != -1
      modifies this`bufs, this`uses
      ensures Valid() && SameView(old(bufs), disk, bufs, disk) && Held(old(bufs), bufs)
      ensures bufs == old(bufs)[b := old(bufs)[b].(refcnt := old(bufs)[b].refcnt + 1)]
      ensures uses == old(uses)[b := old(uses)[b].(pins := old(uses)[b].pins + 1)]
    {
      var buf := bufs[b].(refcnt := bufs[b].refcnt + 1);
      ghost var use := uses[b].(pins := uses[b].pins + 1);
      BufNow(bufs, uses, disk, b);
      BufStep(bufs, uses, disk, b, buf, use, disk);
      hide AllOk, Linked, Complete, Sorted, SameView, Held, BufOk, ViewChanged;
      SortedStep(order, uses, clock, b, use);
      bufs, uses := bufs[b := buf], uses[b := use];
    }

    /** bunpin, by the holder, who releases the buffer later; it keeps its place in
        the list. */
    method Bunpin(b: nat)
      requires Valid() && b < NBUF && uses[b].pins > 0 && bufs[b].holder != -1
      modifies this`bufs, this`uses
      ensures Valid() && SameView(old(bufs), disk, bufs, disk) && Held(old(bufs), bufs)
      ensures bufs == old(bufs)[b := old(bufs)[b].(refcnt := old(bufs)[b].refcnt - 1)]
      ensures uses == old(uses)[b := old(uses)[b].(pins := old(uses)[b].pins - 1)]
    {
      var buf := bufs[b].(refcnt := bufs[b].refcnt - 1);
      ghost var use := uses[b].(pins := uses[b].pins - 1);
      BufNow(bufs, uses, disk, b);
      BufStep(bufs, uses, disk, b, buf, use, disk);
      hide AllOk, Linked, Complete, Sorted, SameView, Held, BufOk, ViewChanged;
      SortedStep(order, uses, clock, b, use);
      bufs, uses := bufs[b := buf], uses[b := use];
    }

    /** brelse, first half: releasesleep.  A changed block must have been logged or
        written. */
    method Release(b: nat)
      requires Valid() && b < NBUF && bufs[b].holder != -1 && (uses[b].dirty ==> uses[b].pins > 0)
      modifies this`bufs
      ensures Valid() && SameView(old(bufs), disk, bufs, disk) && Held(old(bufs), bufs)
      ensures bufs == old(bufs)[b := old(bufs)[b].(holder := -1)]
    {
      BufNow(bufs, uses, disk, b);
      BufStep(bufs, uses, disk, b, bufs[b].(holder := -1), uses[b], disk);
      hide AllOk, Linked, Complete, Sorted, SameView, Held, BufOk, ViewChanged;
      assert uses[b := uses[b]] == uses;
      bufs := bufs[b := bufs[b].(holder := -1)];
    }

    /** The six assignments of brelse to next and prev. */
    method MoveToFront(b: nat, ghost i: nat)
      requires Linked(next, prev, order) && i < |order| && order[i] == b
      modifies this`next, this`prev, this`order
      ensures Linked(next, prev, order) && order == [b] + Without(old(order), i)
    {
      Unlink(next, prev, order, i);
      hide Distinct, InRange;
      prev := prev[next[b] := prev[b]];
      next := next[prev[b] := next[b]];
      PushFront(next, prev, Without(order, i), b);
      next := next[b := next[HEAD]];
      prev := prev[b := HEAD];
      prev := prev[next[HEAD] := b];
      next := next[HEAD := b];
      order := [b] + Without(order, i);
    }

    /** brelse, second half, under bcache.lock: drop p's reference and, if it was
        the last, move the buffer to the front of the list. */
    method Drop(p: nat, b: nat)
      requires Valid() && b < NBUF && p in uses[b].users && bufs[b].holder != p
      modifies this`bufs, this`uses, this`next, this`prev, this`order, this`clock
      ensures Valid() && SameView(old(bufs), disk, bufs, disk) && Held(old(bufs), bufs)
      ensures bufs == old(bufs)[b := old(bufs)[b].(refcnt := old(bufs)[b].refcnt - 1)]
      ensures uses[b].users == old(uses)[b].users - multiset{p} && uses == old(uses)[b := uses[b]]
      ensures uses[b].released == old(clock) && clock == old(clock) + 1
      ensures if bufs[b].refcnt == 0 then order != [] && order[0] == b && uses[b].freed == old(clock) else order == old(order)
    {
      var buf := bufs[b].(refcnt := bufs[b].refcnt - 1);
      ghost var use := uses[b].(
        users := uses[b].users - multiset{p}, released := clock, freed := if buf.refcnt == 0 then clock else uses[b].freed);
      BufNow(bufs, uses, disk, b);
      BufStep(bufs, uses, disk, b, buf, use, disk);
      hide AllOk, Sorted, SameView, Held, BufOk, ViewChanged;
      if buf.refcnt == 0 {
        ghost var i := Where(order, b);
        MoveSorted(order, uses, clock, b, i, use);
        hide Linked, Complete;
        MoveToFront(b, i);
      } else {
        SortedStep(order, uses, clock, b, use);
        SortedLater(order, uses[b := use], clock);
      }
      clock, uses, bufs := clock + 1, uses[b := use], bufs[b := buf];
    }
  }

  /** A valid buffer that is neither locked nor logged equals its disk block, and
      so does one about to be recycled. */
  lemma CleanBuffers(bufs: seq<Buf>, uses: seq<Use>, disk: Disk, b: nat)
    requires AllOk(bufs, uses, disk) && b < NBUF && bufs[b].valid
    requires bufs[b].refcnt == 0 || (bufs[b].holder == -1 && uses[b].pins == 0)
    ensures bufs[b].data == On(disk, KeyOf(bufs[b])) == View(bufs, disk, KeyOf(bufs[b]))
  {
    assert BufOk(bufs[b], uses[b], disk);
    ViewAt(bufs, disk, b, KeyOf(bufs[b]));
  }

  lemma BufNow(bufs: seq<Buf>, uses: seq<Use>, disk: Disk, b: nat)
    requires AllOk(bufs, uses, disk) && b < NBUF
    ensures BufOk(bufs[b], uses[b], disk)
  {
  }

  /** A step on one referenced buffer. */
  lemma BufStep(bufs: seq<Buf>, uses: seq<Use>, disk: Disk, b: nat, buf: Buf, use: Use, disk1: Disk)
    requires AllOk(bufs, uses, disk) && b < NBUF && BufOk(buf, use, disk1)
    requires KeyOf(buf) == KeyOf(bufs[b]) && bufs[b].refcnt > 0 && (bufs[b].valid ==> buf.valid)
    requires forall k: Key :: k != KeyOf(buf) ==> On(disk1, k) == On(disk, k)
    ensures AllOk(bufs[b := buf], uses[b := use], disk1) && Held(bufs, bufs[b := buf])
    ensures ViewChanged(bufs, disk, bufs[b := buf], disk1, KeyOf(buf),
                        if buf.valid then buf.data else On(disk1, KeyOf(buf)))
    ensures buf.valid && buf.data == (if bufs[b].valid then bufs[b].data else On(disk, KeyOf(buf))) ==>
      SameView(bufs, disk, bufs[b := buf], disk1)
    ensures !buf.valid && disk1 == disk ==> SameView(bufs, disk, bufs[b := buf], disk1)
  {
    assert BufOk(bufs[b], uses[b], disk);
    ViewStep(bufs, disk, b, buf, disk1);
    OkStep(bufs, uses, disk, b, buf, use, disk1);
    HeldStep(bufs, b, buf);
  }

  /** Moving the buffer released now to the front keeps the list complete and
      sorted. */
  lemma MoveSorted(order: seq<int>, uses: seq<Use>, clock: int, b: nat, i: nat, use: Use)
    requires Sorted(order, uses, clock) && Distinct(order) && Complete(order)
    requires i < |order| && order[i] == b && use.freed == clock
    ensures Complete([b] + Without(order, i))
    ensures Sorted([b] + Without(order, i), uses[b := use], clock + 1)
  {
    var rest := Without(order, i);
    var all, uses1 := [b] + rest, uses[b := use];
    forall c | 0 <= c < NBUF ensures c in all {
      var j := Where(order, c);
      if j < i { assert rest[j] == c; } else if j > i { assert rest[j - 1] == c; }
    }
    forall k | 0 <= k < |rest| ensures rest[k] == order[if k < i then k else k + 1] && rest[k] != b {}
    forall x, y | 0 <= x < y < |all| ensures uses1[all[x]].freed > uses1[all[y]].freed {
      assert all[y] == rest[y - 1];
      if x > 0 { assert all[x] == rest[x - 1]; }
    }
  }

  lemma Positive(bufs: seq<Buf>, uses: seq<Use>, disk: Disk)
    requires AllOk(bufs, uses, disk)
    ensures forall i :: 0 <= i < NBUF ==> bufs[i].refcnt >= 0
  {
    forall i | 0 <= i < NBUF ensures bufs[i].refcnt >= 0 { assert BufOk(bufs[i], uses[i], disk); }
  }

  lemma ViewSame(bufs: seq<Buf>, disk: Disk)
    ensures SameView(bufs, disk, bufs, disk) && Held(bufs, bufs)
  {
  }

  lemma BgetStep(
    bufs: seq<Buf>, uses: seq<Use>, disk: Disk, b: nat, buf: Buf, use: Use, p: nat, dev: nat, blockno: nat)
    requires AllOk(bufs, uses, disk) && b < NBUF && dev != 0
    requires use == uses[b].(users := uses[b].users + multiset{p})
    requires
      if KeyOf(bufs[b]) == Key(dev, blockno) then buf == bufs[b].(refcnt := bufs[b].refcnt + 1)
      else
        && bufs[b].refcnt == 0 && buf == bufs[b].(dev := dev, blockno := blockno, valid := false, refcnt := 1)
        && forall i :: 0 <= i < NBUF ==> KeyOf(bufs[i]) != Key(dev, blockno)
    ensures AllOk(bufs[b := buf], uses[b := use], disk)
    ensures SameView(bufs, disk, bufs[b := buf], disk) && Held(bufs, bufs[b := buf])
  {
    assert BufOk(bufs[b], uses[b], disk);
    if KeyOf(bufs[b]) == Key(dev, blockno) {
      CountStep(bufs, disk, b, buf);
    } else {
      assert uses[b].users == multiset{};
      RecycleStep(bufs, disk, b, buf);
    }
    OkStep(bufs, uses, disk, b, buf, use, disk);
    HeldStep(bufs, b, buf);
  }
}
