/** The steps of wait, exit and fork keep the invariant, and what that promises about
    whole runs. */
module WaitExit {
  import opened ProcTable
  import opened ProcInvariant
  import opened SleepWakeup

  // ---- wait ----

  /** A step of a running process that only sleepers in wait may mind. */
  lemma WaitMove(w: World, p: nat, c: Pc)
    requires Inv(w) && p < NPROC && w.st[p] == Running
    requires ParentOk(w.parent, p, Running, c) && (Made(c) == -1) && QuietL(Running, w.pc[p], Running, c)
    requires Shape(p, Running, c, w.chan[p]) && SameLocks(w.pc[p], c)
    requires WaitOk(w.st, w.pc, w.parent, p, Running, c)
    ensures Inv(At(w, p, c, w.holder))
  {
    hide Inv, ParentOk, WaitOk, LockOk, Handover, Shape, Shapes, Holders, Forks, Parents, Waits, SleepLocks;
    hide QuietL, SameLocks;
    Parts(w);
    Keep(w.pc, w.holder, p, c);
    QuietLock(w.st, w.pc, w.locked, w.holder, p, Running, c);
    OneStep(w, p, Running, c, w.chan[p], w.holder);
  }

  /** Without exit's obligations a move keeps all children. */
  lemma KeepsChildren(st: seq<Status>, pc: seq<Pc>, parent: seq<int>, p: nat, c: Pc)
    requires Parents(st, pc, parent) && p < NPROC && st[p] == Running && Scanned(c) <= Scanned(pc[p])
    ensures ParentOk(parent, p, Running, c)
  {
  }

  predicate Scanning(c: Pc) {
    c.WaitScan? || c == SleepOn(WaitL)
  }

  lemma ScanLocal(p: int, i: nat, kids: bool, c: Pc, ch: Chan)
    requires Scanning(c)
    ensures Made(c) == -1 && QuietL(Running, WaitScan(i, kids), Running, c) && SameLocks(WaitScan(i, kids), c)
    ensures Shape(p, Running, c, ch) && Scanned(c) == 0 == Scanned(WaitScan(i, kids))
  {
  }

  /** The scan goes past an entry that is no zombie child; at the end there is none. */
  lemma ScanWait(st: seq<Status>, pc: seq<Pc>, parent: seq<int>, holder: map<Lock, int>, p: nat, c: Pc)
    requires Waits(st, pc, parent, holder) && Parents(st, pc, parent) && p < NPROC && st[p] == Running
    requires pc[p].WaitScan? && Scanning(c)
    requires if c.WaitScan? then c.i == pc[p].i + 1 && !ZombieChild(st, parent, p, pc[p].i) else pc[p].i >= NPROC
    ensures WaitOk(st, pc, parent, p, Running, c)
  {
  }

  lemma ScanStep(w: World, p: nat, c: Pc)
    requires Inv(w) && p < NPROC && w.st[p] == Running && w.pc[p].WaitScan? && Scanning(c)
    requires if c.WaitScan? then c.i == w.pc[p].i + 1 && !ZombieChild(w.st, w.parent, p, w.pc[p].i)
             else w.pc[p].i >= NPROC
    ensures Inv(At(w, p, c, w.holder))
  {
    hide Inv, Scanning, ParentOk, WaitOk, Shape, Shapes, Holders, Forks, Parents, Waits, SleepLocks, QuietL, SameLocks;
    hide ZombieChild, Scanned;
    Parts(w);
    ScanLocal(p, w.pc[p].i, w.pc[p].kids, c, w.chan[p]);
    KeepsChildren(w.st, w.pc, w.parent, p, c);
    ScanWait(w.st, w.pc, w.parent, w.holder, p, c);
    WaitMove(w, p, c);
  }

  lemma DoneLocal(p: int, i: nat, kids: bool, ch: Chan)
    ensures Quiet(Running, WaitScan(i, kids), Running, Idle) && Shape(p, Running, Idle, ch)
    ensures OnlyLock(WaitScan(i, kids), WaitL) && NoLock(Idle)
  {
  }

  lemma DoneStep(w: World, p: nat)
    requires Inv(w) && p < NPROC && w.st[p] == Running && w.pc[p].WaitScan?
    ensures Inv(At(w, p, Idle, w.holder - {WaitL}))
  {
    hide Inv, Quiet, Shape, Has, OnlyLock, NoLock;
    Parts(w);
    DoneLocal(p, w.pc[p].i, w.pc[p].kids, w.chan[p]);
    QuietDrop(w, p, Idle, WaitL);
  }

  /** freeproc of a zombie that has left the CPU. */
  lemma FreeZombie(w: World, c: nat)
    requires Inv(w) && c < NPROC && w.st[c] == Zombie && w.pc[c] == Gone
    ensures Inv(FreeProc(w, c))
  {
    hide Inv;
    Parts(w);
    FreeShapes(w.st, w.pc, w.chan, c);
    FreeHolders(w.pc, w.holder, c);
    FreeForks(w.st, w.pc, w.parent, c);
    FreeParents(w.st, w.pc, w.parent, c);
    FreeWaits(w.st, w.pc, w.parent, w.holder, c);
    FreeLocks(w.st, w.pc, w.locked, w.holder, c);
    hide Shapes, Holders, Forks, Parents, Waits, SleepLocks;
    Whole(FreeProc(w, c));
  }

  lemma FreeShapes(st: seq<Status>, pc: seq<Pc>, chan: seq<Chan>, c: nat)
    requires Shapes(st, pc, chan) && c < NPROC && st[c] == Zombie
    ensures Shapes(st[c := Unused], pc[c := Idle], chan[c := NoChan])
  {
    assert Shape(c, st[c], pc[c], chan[c]);
    ShapesPut(st, pc, chan, c, Unused, Idle, NoChan);
  }

  lemma FreeHolders(pc: seq<Pc>, holder: map<Lock, int>, c: nat)
    requires Holders(pc, holder) && c < NPROC && pc[c] == Gone
    ensures Holders(pc[c := Idle], holder)
  {
    forall lk ensures By(holder, lk, c) <==> Has(Idle, lk) { assert By(holder, lk, c) <==> Has(pc[c], lk); }
    HoldersPut(pc, holder, c, Idle, holder);
  }

  lemma FreeForks(st: seq<Status>, pc: seq<Pc>, parent: seq<int>, c: nat)
    requires Forks(st, pc, parent) && c < NPROC && st[c] == Zombie && pc[c] == Gone
    ensures Forks(st[c := Unused], pc[c := Idle], parent[c := -1])
  {
  }

  lemma FreeParents(st: seq<Status>, pc: seq<Pc>, parent: seq<int>, c: nat)
    requires Parents(st, pc, parent) && c < NPROC && st[c] == Zombie && pc[c] == Gone
    ensures Parents(st[c := Unused], pc[c := Idle], parent[c := -1])
  {
    hide Scanned;
    assert Scanned(Gone) == NPROC && Scanned(Idle) == 0 by { GoneScanned(); }
  }

  lemma GoneScanned()
    ensures Scanned(Gone) == NPROC && Scanned(Idle) == 0
  {
  }

  lemma FreeWaits(st: seq<Status>, pc: seq<Pc>, parent: seq<int>, holder: map<Lock, int>, c: nat)
    requires Waits(st, pc, parent, holder) && c < NPROC && st[c] == Zombie && pc[c] == Gone
    ensures Waits(st[c := Unused], pc[c := Idle], parent[c := -1], holder)
  {
    var st1, pc1, parent1 := st[c := Unused], pc[c := Idle], parent[c := -1];
    assert WakingInit(pc, holder) ==> WakingInit(pc1, holder);
    forall p, k | 0 <= p < NPROC && ZombieChild(st1, parent1, p, k) ensures ZombieChild(st, parent, p, k) {}
  }

  lemma FreeLocks(st: seq<Status>, pc: seq<Pc>, locked: seq<bool>, holder: map<Lock, int>, c: nat)
    requires SleepLocks(st, pc, locked, holder) && c < NPROC && st[c] == Zombie && pc[c] == Gone
    ensures SleepLocks(st[c := Unused], pc[c := Idle], locked, holder)
  {
    var pc1 := pc[c := Idle];
    forall l, q | WakingLock(pc, holder, l, q) ensures WakingLock(pc1, holder, l, q) {}
  }

  lemma ZombieGone(p: int, c: Pc, ch: Chan)
    requires Shape(p, Zombie, c, ch) && !HasOwn(c)
    ensures c == Gone
  {
  }

  lemma WaitStep(w: World, p: nat, fails: bool)
    requires Inv(w) && p < NPROC && w.st[p] == Running && w.pc[p].WaitScan?
    ensures Inv(GoWait(w, p, fails))
  {
    hide Inv, Shape, HasOwn;
    ShapeNow(w, p);
    var i, kids := w.pc[p].i, w.pc[p].kids;
    if i >= NPROC {
      if !kids || fails { DoneStep(w, p); } else { ScanStep(w, p, SleepOn(WaitL)); }
    } else if w.parent[i] != p {
      ScanStep(w, p, WaitScan(i + 1, kids));
    } else if !HasOwn(w.pc[i]) {
      if w.st[i] != Zombie {
        ScanStep(w, p, WaitScan(i + 1, true));
      } else if fails {
        DoneStep(w, p);
      } else {
        ShapeNow(w, i);
        ZombieGone(i, w.pc[i], w.chan[i]);
        FreeZombie(w, i);
        DoneStep(FreeProc(w, i), p);
      }
    }
  }

  // ---- exit ----

  lemma ExitLocal(p: int, c0: Pc, c: Pc, ch: Chan)
    requires Exiting(c0) && Exiting(c) && p != INIT
    ensures Made(c) == -1 && QuietL(Running, c0, Running, c) && SameLocks(c0, c) && Shape(p, Running, c, ch)
    ensures forall lk :: !Sleepish(c0, Running, lk) && !Sleepish(c, Running, lk)
  {
  }

  /** A move within exit, up to taking p->lock. */
  lemma ExitMove(w: World, p: nat, c: Pc)
    requires Inv(w) && p < NPROC && w.st[p] == Running && p != INIT && Exiting(w.pc[p]) && Exiting(c)
    requires ParentOk(w.parent, p, Running, c) && WaitOk(w.st, w.pc, w.parent, p, Running, c)
    ensures Inv(At(w, p, c, w.holder))
  {
    hide Inv, ParentOk, WaitOk, Shape, QuietL, SameLocks, Exiting;
    Parts(w);
    ExitLocal(p, w.pc[p], c, w.chan[p]);
    WaitMove(w, p, c);
  }

  /** reparent passes an entry that is no child, or ends. */
  lemma ScanOn(st: seq<Status>, pc: seq<Pc>, parent: seq<int>, p: nat, c: Pc)
    requires Parents(st, pc, parent) && p < NPROC && st[p] == Running && Further(pc[p], c)
    requires pc[p].ExitScan? && c.ExitScan? ==> parent[pc[p].i] != p
    ensures ParentOk(parent, p, Running, c)
  {
    Progress(pc[p], c);
    hide Scanned, Further;
    forall k | 0 <= k < NPROC && parent[k] == p ensures k >= Scanned(c) { assert k >= Scanned(pc[p]); }
  }

  /** How exit goes on. */
  predicate Further(c0: Pc, c: Pc) {
    || (c0.ExitScan? && c0.i < NPROC && c == ExitScan(c0.i + 1))
    || (c0.ExitScan? && c0.i >= NPROC && c == ExitWakeParent(0))
    || (c0.ExitWakeInit? && (c == ExitScan(c0.i + 1) || c == ExitWakeInit(c0.i, c0.j + 1)))
    || (c0.ExitWakeParent? && (c == ExitWakeParent(c0.j + 1) || c == ExitLock))
  }

  lemma Progress(c0: Pc, c: Pc)
    requires Further(c0, c)
    ensures Scanned(c) <= Scanned(c0) || (c0.ExitScan? && c.ExitScan? && Scanned(c) == Scanned(c0) + 1 == c0.i + 1)
  {
  }

  /** Steps of exit that neither finish waking init nor reach the parent. */
  lemma ExitWaitOk(st: seq<Status>, pc: seq<Pc>, parent: seq<int>, holder: map<Lock, int>, p: nat, c: Pc)
    requires Waits(st, pc, parent, holder) && Parents(st, pc, parent) && p < NPROC && st[p] == Running && p != INIT
    requires Exiting(pc[p]) && Exiting(c)
    requires Woke(c, parent[p]) && 0 <= parent[p] < NPROC ==>
      Woke(pc[p], parent[p]) || !Sleepish(pc[parent[p]], st[parent[p]], WaitL)
    requires pc[p].ExitWakeInit? && pc[p].j <= INIT ==> !Sleepish(pc[INIT], st[INIT], WaitL)
    ensures WaitOk(st, pc, parent, p, Running, c)
  {
  }

  lemma PlainExit(w: World, p: nat, c: Pc)
    requires Inv(w) && p < NPROC && w.st[p] == Running && p != INIT
    requires
      || (w.pc[p].ExitScan? && w.pc[p].i < NPROC && w.parent[w.pc[p].i] != p && c == ExitScan(w.pc[p].i + 1))
      || (w.pc[p].ExitScan? && w.pc[p].i >= NPROC && c == ExitWakeParent(0))
      || (w.pc[p].ExitWakeInit? && w.pc[p].j >= NPROC && c == ExitScan(w.pc[p].i + 1))
      || (w.pc[p].ExitWakeParent? && w.pc[p].j >= NPROC && c == ExitLock)
    ensures Inv(At(w, p, c, w.holder))
  {
    hide Inv, Parents, Waits, Shapes, Holders, Forks, SleepLocks, ParentOk, WaitOk, Shape;
    Parts(w);
    ScanOn(w.st, w.pc, w.parent, p, c);
    ExitWaitOk(w.st, w.pc, w.parent, w.holder, p, c);
    ExitMove(w, p, c);
  }

  lemma NotInit(p: int, c: Pc, ch: Chan)
    requires Shape(p, Running, c, ch) && (Exiting(c) || c.ExitHold?)
    ensures p != INIT
  {
  }

  /** One entry of wakeup(initproc) in reparent. */
  lemma WakeInitStep(w: World, p: nat, i: nat, j: nat)
    requires Inv(w) && p < NPROC && w.st[p] == Running && w.pc[p] == ExitWakeInit(i, j) && j < NPROC && p != INIT
    requires j != p ==> !HasOwn(w.pc[j])
    ensures Inv(At(WakeEntry(w, p, j, OnProc(INIT)), p, ExitWakeInit(i, j + 1), w.holder))
  {
    hide Inv, Parents, Waits, Shapes, Holders, Forks, SleepLocks, ParentOk, WaitOk, Shape, HasOwn, WakeEntry, Sleepish;
    Parts(w);
    ExitLocal(p, w.pc[p], ExitWakeInit(i, j + 1), w.chan[p]);
    var w1, c := WakeEntry(w, p, j, OnProc(INIT)), ExitWakeInit(i, j + 1);
    if j == INIT { WakeEntryStep(w, p, j, WaitL, INIT); } else { WakeOther(w, p, j, OnProc(INIT)); }
    Parts(w1);
    ScanOn(w1.st, w1.pc, w1.parent, p, c);
    ExitWaitOk(w1.st, w1.pc, w1.parent, w1.holder, p, c);
    ExitMove(w1, p, c);
  }

  /** One entry of wakeup(p->parent). */
  lemma WakeParentStep(w: World, p: nat, j: nat)
    requires Inv(w) && p < NPROC && w.st[p] == Running && w.pc[p] == ExitWakeParent(j) && j < NPROC && p != INIT
    requires j != p ==> !HasOwn(w.pc[j])
    ensures Inv(At(WakeEntry(w, p, j, OnProc(w.parent[p])), p, ExitWakeParent(j + 1), w.holder))
  {
    hide Inv, Parents, Waits, Shapes, Holders, Forks, SleepLocks, ParentOk, WaitOk, Shape, HasOwn, WakeEntry, Sleepish;
    Parts(w);
    ExitLocal(p, w.pc[p], ExitWakeParent(j + 1), w.chan[p]);
    var w1, c := WakeEntry(w, p, j, OnProc(w.parent[p])), ExitWakeParent(j + 1);
    if j == w.parent[p] { WakeEntryStep(w, p, j, WaitL, j); } else { WakeOther(w, p, j, OnProc(w.parent[p])); }
    Parts(w1);
    ScanOn(w1.st, w1.pc, w1.parent, p, c);
    ExitWaitOk(w1.st, w1.pc, w1.parent, w1.holder, p, c);
    ExitMove(w1, p, c);
  }

  /** A child goes to init, which the exiting process then begins to wake. */
  lemma ReparentStep(w: World, p: nat, i: nat)
    requires Inv(w) && p < NPROC && w.st[p] == Running && p != INIT
    requires w.pc[p] == ExitScan(i) && i < NPROC && w.parent[i] == p
    ensures Inv(At(w, p, ExitWakeInit(i, 0), w.holder).(parent := w.parent[i := INIT]))
  {
    var c := ExitWakeInit(i, 0);
    hide Inv, Parents, Waits, Shapes, Holders, Forks, SleepLocks, Shape, SameLocks, QuietL;
    Parts(w);
    ExitLocal(p, w.pc[p], c, w.chan[p]);
    ShapesPut(w.st, w.pc, w.chan, p, Running, c, w.chan[p]);
    Keep(w.pc, w.holder, p, c);
    HoldersPut(w.pc, w.holder, p, c, w.holder);
    QuietLock(w.st, w.pc, w.locked, w.holder, p, Running, c);
    SleepLocksPut(w.st, w.pc, w.locked, w.holder, p, Running, c, w.holder);
    InitAlive(w.st, w.pc, w.chan);
    ReparentForks(w.st, w.pc, w.parent, p, i);
    ReparentParents(w.st, w.pc, w.parent, p, i);
    ReparentWaits(w.st, w.pc, w.parent, w.holder, p, i);
    assert w.st[p := Running] == w.st;
    Whole(At(w, p, c, w.holder).(parent := w.parent[i := INIT]));
  }

  lemma InitAlive(st: seq<Status>, pc: seq<Pc>, chan: seq<Chan>)
    requires Shapes(st, pc, chan)
    ensures Live(st[INIT]) && Scanned(pc[INIT]) == 0
  {
    assert Shape(INIT, st[INIT], pc[INIT], chan[INIT]);
    var holds := Has(pc[INIT], WaitL);
  }

  lemma ReparentForks(st: seq<Status>, pc: seq<Pc>, parent: seq<int>, p: nat, i: nat)
    requires Forks(st, pc, parent) && p < NPROC && pc[p] == ExitScan(i) && i < NPROC && parent[i] == p
    ensures Forks(st, pc[p := ExitWakeInit(i, 0)], parent[i := INIT])
  {
    forall q | 0 <= q < NPROC ensures Made(pc[q]) != i {}
  }

  lemma ReparentParents(st: seq<Status>, pc: seq<Pc>, parent: seq<int>, p: nat, i: nat)
    requires Parents(st, pc, parent) && p < NPROC && st[p] == Running && p != INIT
    requires pc[p] == ExitScan(i) && i < NPROC && parent[i] == p && Live(st[INIT]) && Scanned(pc[INIT]) == 0
    ensures Parents(st, pc[p := ExitWakeInit(i, 0)], parent[i := INIT])
  {
  }

  lemma ReparentWaits(
    st: seq<Status>, pc: seq<Pc>, parent: seq<int>, holder: map<Lock, int>, p: nat, i: nat)
    requires Waits(st, pc, parent, holder) && Holders(pc, holder) && p < NPROC && st[p] == Running && p != INIT
    requires pc[p] == ExitScan(i) && i < NPROC && parent[i] == p && parent[INIT] == -1
    ensures Waits(st, pc[p := ExitWakeInit(i, 0)], parent[i := INIT], holder)
  {
    var pc1, parent1 := pc[p := ExitWakeInit(i, 0)], parent[i := INIT];
    assert Has(pc[p], WaitL) && By(holder, WaitL, p);
    assert WakingInit(pc1, holder);
    NoneWoke(pc, holder, parent, p);
    Exclusive(pc, holder, p, INIT, WaitL);
    forall q, k | 0 <= q < NPROC && ZombieChild(st, parent1, q, k)
      ensures (pc1[q].WaitScan? ==> k >= pc1[q].i) && pc1[q] != SleepOn(WaitL) && pc1[q] != SleepHold(WaitL)
      ensures Sleepish(pc1[q], st[q], WaitL) ==> q == INIT
    {
      if k != i { assert ZombieChild(st, parent, q, k); }
    }
    forall e | 0 <= e < NPROC ensures !Woke(pc1[e], parent1[e]) {
      if e == i && e != p { Exclusive(pc, holder, p, e, WaitL); }
    }
  }

  lemma TakeOwnLocal(p: int, ch: Chan)
    requires p != INIT
    ensures Quiet(Running, ExitLock, Running, ExitHold) && Shape(p, Running, ExitHold, ch) && SameLocks(ExitLock, ExitHold)
  {
  }

  lemma LeaveLocal(p: int, ch: Chan)
    requires p != INIT
    ensures Quiet(Zombie, ExitZombie, Zombie, ExitGone) && Shape(p, Zombie, ExitGone, ch)
    ensures OnlyLock(ExitZombie, WaitL) && NoLock(ExitGone)
  {
  }

  lemma GoneLocal(p: int, ch: Chan)
    requires p != INIT
    ensures Quiet(Zombie, ExitGone, Zombie, Gone) && Shape(p, Zombie, Gone, ch) && SameLocks(ExitGone, Gone)
  {
  }

  lemma ZombieLocal(p: int, ch: Chan)
    requires p != INIT
    ensures QuietF(Running, ExitHold, Zombie, ExitZombie) && QuietL(Running, ExitHold, Zombie, ExitZombie)
    ensures Shape(p, Zombie, ExitZombie, ch) && SameLocks(ExitHold, ExitZombie)
  {
  }

  /** A process becomes a zombie only when its parent is awake or will look again. */
  lemma ZombieWait(st: seq<Status>, pc: seq<Pc>, parent: seq<int>, holder: map<Lock, int>, p: nat)
    requires Waits(st, pc, parent, holder) && Parents(st, pc, parent) && Holders(pc, holder)
    requires p < NPROC && st[p] == Running && pc[p] == ExitHold && p != INIT
    ensures WaitOk(st, pc, parent, p, Zombie, ExitZombie)
  {
    Exclusive(pc, holder, p, if parent[p] == p then INIT else parent[p], WaitL);
    assert Woke(pc[p], parent[p]);
  }

  lemma ZombieStep(w: World, p: nat)
    requires Inv(w) && p < NPROC && w.st[p] == Running && w.pc[p] == ExitHold && p != INIT
    ensures Inv(Put(w, p, Zombie, ExitZombie, w.chan[p]))
  {
    hide Inv, ForkOk, ParentOk, WaitOk, LockOk, Handover, Shape, Shapes, Holders, Forks, Parents, Waits, SleepLocks;
    hide QuietF, QuietL, SameLocks;
    Parts(w);
    ZombieLocal(p, w.chan[p]);
    Keep(w.pc, w.holder, p, ExitZombie);
    QuietFork(w.st, w.pc, w.parent, p, Zombie, ExitZombie);
    QuietLock(w.st, w.pc, w.locked, w.holder, p, Zombie, ExitZombie);
    ZombieWait(w.st, w.pc, w.parent, w.holder, p);
    OneStep(w, p, Zombie, ExitZombie, w.chan[p], w.holder);
    assert Put(w, p, Zombie, ExitZombie, w.chan[p]).(holder := w.holder) == Put(w, p, Zombie, ExitZombie, w.chan[p]);
  }

  lemma IsZombie(p: int, s: Status, c: Pc, ch: Chan)
    requires Shape(p, s, c, ch) && (c.ExitZombie? || c.ExitGone?)
    ensures s == Zombie && p != INIT
  {
    var holds := Has(c, WaitL);
  }

  lemma ExitStep(w: World, p: nat)
    requires Inv(w) && p < NPROC && (w.st[p] == Running || LateStep(w.pc[p]))
    ensures Inv(GoExit(w, p))
  {
    hide Inv, Shape, HasOwn, WakeEntry, Quiet, OnlyLock, NoLock, SameLocks;
    ShapeNow(w, p);
    match w.pc[p]
    case ExitScan(i) =>
      NotInit(p, w.pc[p], w.chan[p]);
      if i >= NPROC {
        PlainExit(w, p, ExitWakeParent(0));
      } else if w.parent[i] == p {
        ReparentStep(w, p, i);
      } else {
        PlainExit(w, p, ExitScan(i + 1));
      }
    case ExitWakeInit(i, j) =>
      NotInit(p, w.pc[p], w.chan[p]);
      if j >= NPROC { PlainExit(w, p, ExitScan(i + 1)); } else if j == p || !HasOwn(w.pc[j]) { WakeInitStep(w, p, i, j); }
    case ExitWakeParent(j) =>
      NotInit(p, w.pc[p], w.chan[p]);
      if j >= NPROC { PlainExit(w, p, ExitLock); } else if j == p || !HasOwn(w.pc[j]) { WakeParentStep(w, p, j); }
    case ExitLock =>
      NotInit(p, w.pc[p], w.chan[p]);
      TakeOwnLocal(p, w.chan[p]);
      QuietMove(w, p, ExitHold);
    case ExitHold =>
      NotInit(p, w.pc[p], w.chan[p]);
      ZombieStep(w, p);
    case ExitZombie =>
      IsZombie(p, w.st[p], w.pc[p], w.chan[p]);
      LeaveLocal(p, w.chan[p]);
      QuietDrop(w, p, ExitGone, WaitL);
    case ExitGone =>
      IsZombie(p, w.st[p], w.pc[p], w.chan[p]);
      GoneLocal(p, w.chan[p]);
      QuietMove(w, p, Gone);
    case _ =>
  }

  // ---- fork ----

  lemma NewLocal(np: int)
    requires np != INIT
    ensures Shape(np, Used, Idle, NoChan) && QuietW(Unused, Idle, Used, Idle) && QuietL(Unused, Idle, Used, Idle)
    ensures SameLocks(Idle, Idle)
  {
  }

  lemma NewOk(st: seq<Status>, pc: seq<Pc>, parent: seq<int>, np: nat)
    requires Forks(st, pc, parent) && Parents(st, pc, parent) && np < NPROC && st[np] == Unused
    ensures ForkOk(st, pc, parent, np, Used, Idle) && ParentOk(parent, np, Used, Idle) && parent[np] == -1
    ensures forall q :: 0 <= q < NPROC ==> Made(pc[q]) != np
  {
    forall q | 0 <= q < NPROC ensures Made(pc[q]) != np {}
  }

  /** allocproc takes an unused entry. */
  lemma NewStep(w: World, np: nat)
    requires Inv(w) && np < NPROC && w.st[np] == Unused
    ensures Inv(Put(w, np, Used, Idle, NoChan)) && w.pc[np] == Idle && w.parent[np] == -1
    ensures forall q :: 0 <= q < NPROC ==> Made(w.pc[q]) != np
  {
    hide Inv, ForkOk, ParentOk, WaitOk, LockOk, Handover, Shapes, Holders, Forks, Parents, Waits, SleepLocks;
    hide QuietW, QuietL, SameLocks;
    Parts(w);
    ShapeNow(w, np);
    hide Shape;
    NewLocal(np);
    NewOk(w.st, w.pc, w.parent, np);
    Keep(w.pc, w.holder, np, Idle);
    QuietWait(w.st, w.pc, w.parent, w.holder, np, Used, Idle);
    QuietLock(w.st, w.pc, w.locked, w.holder, np, Used, Idle);
    OneStep(w, np, Used, Idle, NoChan, w.holder);
    assert Put(w, np, Used, Idle, NoChan).(holder := w.holder) == Put(w, np, Used, Idle, NoChan);
  }

  lemma MakeLocal(p: int, np: int, ch: Chan)
    ensures Shape(p, Running, ForkAlloc(np), ch) && QuietW(Running, Idle, Running, ForkAlloc(np))
    ensures QuietL(Running, Idle, Running, ForkAlloc(np)) && SameLocks(Idle, ForkAlloc(np))
    ensures Scanned(ForkAlloc(np)) == 0 && Scanned(Idle) == 0
  {
  }

  lemma MakeOk(st: seq<Status>, pc: seq<Pc>, parent: seq<int>, p: nat, np: nat)
    requires Forks(st, pc, parent) && p < NPROC && np < NPROC && np != p && st[p] == Running && pc[p] == Idle
    requires st[np] == Used && parent[np] == -1 && forall q :: 0 <= q < NPROC ==> Made(pc[q]) != np
    ensures ForkOk(st, pc, parent, p, Running, ForkAlloc(np))
  {
  }

  lemma ForkStart(w: World, p: nat, np: nat)
    requires Inv(w) && p < NPROC && np < NPROC && w.st[p] == Running && w.pc[p] == Idle && w.st[np] == Unused
    ensures Inv(At(Put(w, np, Used, Idle, NoChan), p, ForkAlloc(np), w.holder))
  {
    hide Inv, ForkOk, ParentOk, WaitOk, LockOk, Handover, Shapes, Holders, Forks, Parents, Waits, SleepLocks;
    hide QuietW, QuietL, SameLocks, Shape, Scanned, Made;
    Parts(w);
    NewStep(w, np);
    var w1, c := Put(w, np, Used, Idle, NoChan), ForkAlloc(np);
    Parts(w1);
    MakeLocal(p, np, w1.chan[p]);
    MakeOk(w1.st, w1.pc, w1.parent, p, np);
    Keep(w1.pc, w1.holder, p, c);
    KeepsChildren(w1.st, w1.pc, w1.parent, p, c);
    QuietWait(w1.st, w1.pc, w1.parent, w1.holder, p, Running, c);
    QuietLock(w1.st, w1.pc, w1.locked, w1.holder, p, Running, c);
    OneStep(w1, p, Running, c, w1.chan[p], w1.holder);
  }

  lemma ForkQuiet(p: int, np: int, ch: Chan)
    ensures Quiet(Running, ForkAlloc(np), Running, Idle) && Shape(p, Running, Idle, ch) && SameLocks(ForkAlloc(np), Idle)
    ensures Quiet(Running, ForkAlloc(np), Running, ForkWait(np)) && Shape(p, Running, ForkWait(np), ch)
    ensures NoLock(ForkAlloc(np)) && OnlyLock(ForkWait(np), WaitL)
  {
  }

  lemma ForkedQuiet(p: int, np: int, ch: Chan)
    ensures Quiet(Running, ForkRun(np), Running, Idle) && Shape(p, Running, Idle, ch) && SameLocks(ForkRun(np), Idle)
    ensures Shape(p, Running, ForkRun(np), ch) && OnlyLock(ForkWait(np), WaitL) && NoLock(ForkRun(np))
    ensures QuietL(Running, ForkWait(np), Running, ForkRun(np))
  {
  }

  /** What the maker knows of the process it makes. */
  lemma TheMade(w: World, p: nat)
    requires Inv(w) && p < NPROC && Made(w.pc[p]) != -1
    ensures var np := Made(w.pc[p]);
      && 0 <= np < NPROC && np != p && np != INIT && w.st[np] == Used && w.pc[np] == Idle
      && w.parent[np] == (if w.pc[p].ForkRun? then p else -1)
      && forall q :: 0 <= q < NPROC && q != p ==> Made(w.pc[q]) != np
  {
    assert Shape(Made(w.pc[p]), w.st[Made(w.pc[p])], w.pc[Made(w.pc[p])], w.chan[Made(w.pc[p])]);
  }

  lemma UsedLocal(np: int, s: Status, ch: Chan)
    requires np != INIT && (s == Unused || s == Runnable)
    ensures Shape(np, s, Idle, ch) && QuietW(Used, Idle, s, Idle) && QuietL(Used, Idle, s, Idle) && SameLocks(Idle, Idle)
    ensures Scanned(Idle) == 0
  {
  }

  lemma UsedOk(st: seq<Status>, pc: seq<Pc>, parent: seq<int>, np: nat, s: Status)
    requires Forks(st, pc, parent) && Parents(st, pc, parent) && np < NPROC && st[np] == Used && pc[np] == Idle
    requires if s == Runnable then parent[np] != -1 else s == Unused && parent[np] == -1
    requires forall q :: 0 <= q < NPROC ==> Made(pc[q]) != np
    ensures ForkOk(st, pc, parent, np, s, Idle) && ParentOk(parent, np, s, Idle)
  {
  }

  /** A process nobody makes any more becomes unused again, or runnable. */
  lemma UsedStep(w: World, np: nat, s: Status, ch: Chan)
    requires Inv(w) && np < NPROC && np != INIT && w.st[np] == Used && w.pc[np] == Idle
    requires if s == Runnable then w.parent[np] != -1 else s == Unused && w.parent[np] == -1
    requires forall q :: 0 <= q < NPROC ==> Made(w.pc[q]) != np
    ensures Inv(Put(w, np, s, Idle, ch))
  {
    hide Inv, ForkOk, ParentOk, WaitOk, LockOk, Handover, Shapes, Holders, Forks, Parents, Waits, SleepLocks;
    hide QuietW, QuietL, SameLocks, Shape, Scanned;
    Parts(w);
    UsedLocal(np, s, ch);
    UsedOk(w.st, w.pc, w.parent, np, s);
    Keep(w.pc, w.holder, np, Idle);
    QuietWait(w.st, w.pc, w.parent, w.holder, np, s, Idle);
    QuietLock(w.st, w.pc, w.locked, w.holder, np, s, Idle);
    OneStep(w, np, s, Idle, ch, w.holder);
    assert Put(w, np, s, Idle, ch).(holder := w.holder) == Put(w, np, s, Idle, ch);
  }

  lemma ForkFails(w: World, p: nat, np: nat)
    requires Inv(w) && p < NPROC && np < NPROC && w.st[p] == Running && w.pc[p] == ForkAlloc(np)
    ensures Inv(FreeProc(At(w, p, Idle, w.holder), np))
  {
    hide Inv, Quiet, Shape, SameLocks, NoLock, OnlyLock;
    Parts(w);
    TheMade(w, p);
    ForkQuiet(p, np, w.chan[p]);
    QuietMove(w, p, Idle);
    var w1 := At(w, p, Idle, w.holder);
    UsedStep(w1, np, Unused, NoChan);
    assert w1.parent[np := -1] == w1.parent;
    assert FreeProc(w1, np) == Put(w1, np, Unused, Idle, NoChan);
  }

  lemma ForkRuns(w: World, p: nat, np: nat)
    requires Inv(w) && p < NPROC && np < NPROC && w.st[p] == Running && w.pc[p] == ForkRun(np)
    ensures Inv(Put(At(w, p, Idle, w.holder), np, Runnable, w.pc[np], w.chan[np]))
  {
    hide Inv, Quiet, Shape, SameLocks, NoLock, OnlyLock;
    Parts(w);
    TheMade(w, p);
    ForkedQuiet(p, np, w.chan[p]);
    QuietMove(w, p, Idle);
    UsedStep(At(w, p, Idle, w.holder), np, Runnable, w.chan[np]);
  }

  /** np->parent = p under wait_lock. */
  lemma ForkParent(w: World, p: nat, np: nat)
    requires Inv(w) && p < NPROC && np < NPROC && w.st[p] == Running && w.pc[p] == ForkWait(np)
    ensures Inv(At(w, p, ForkRun(np), w.holder - {WaitL}).(parent := w.parent[np := p]))
  {
    var c, holder1 := ForkRun(np), w.holder - {WaitL};
    hide Inv, Parents, Waits, Shapes, Holders, Forks, SleepLocks, Shape, NoLock, OnlyLock, QuietL, LockOk, Handover;
    Parts(w);
    TheMade(w, p);
    ForkedQuiet(p, np, w.chan[p]);
    ShapesPut(w.st, w.pc, w.chan, p, Running, c, w.chan[p]);
    Drop(w.pc, w.holder, p, WaitL, c);
    HoldersPut(w.pc, w.holder, p, c, holder1);
    QuietLock(w.st, w.pc, w.locked, w.holder, p, Running, c);
    SleepLocksPut(w.st, w.pc, w.locked, w.holder, p, Running, c, holder1);
    ForkParentForks(w.st, w.pc, w.parent, p, np);
    ForkParentParents(w.st, w.pc, w.parent, p, np);
    ForkParentWaits(w.st, w.pc, w.parent, w.holder, holder1, p, np);
    assert w.st[p := Running] == w.st;
    Whole(At(w, p, c, holder1).(parent := w.parent[np := p]));
  }

  lemma ForkParentForks(st: seq<Status>, pc: seq<Pc>, parent: seq<int>, p: nat, np: nat)
    requires Forks(st, pc, parent) && p < NPROC && np < NPROC && pc[p] == ForkWait(np)
    ensures Forks(st, pc[p := ForkRun(np)], parent[np := p])
  {
  }

  lemma ForkParentParents(st: seq<Status>, pc: seq<Pc>, parent: seq<int>, p: nat, np: nat)
    requires Parents(st, pc, parent) && p < NPROC && np < NPROC && st[p] == Running && pc[p] == ForkWait(np)
    requires st[np] == Used && np != p && np != INIT
    ensures Parents(st, pc[p := ForkRun(np)], parent[np := p])
  {
  }

  lemma ForkParentWaits(
    st: seq<Status>, pc: seq<Pc>, parent: seq<int>, holder: map<Lock, int>, holder1: map<Lock, int>, p: nat, np: nat)
    requires Waits(st, pc, parent, holder) && Holders(pc, holder) && p < NPROC && np < NPROC
    requires pc[p] == ForkWait(np) && st[np] == Used && pc[np] == Idle && np != p && holder1 == holder - {WaitL}
    ensures Waits(st, pc[p := ForkRun(np)], parent[np := p], holder1)
  {
    var pc1, parent1 := pc[p := ForkRun(np)], parent[np := p];
    assert By(holder, WaitL, p);
    assert !WakingInit(pc, holder);
    NoneWoke(pc, holder, parent, p);
    forall q, k | 0 <= q < NPROC && ZombieChild(st, parent1, q, k) ensures ZombieChild(st, parent, q, k) {}
    forall e | 0 <= e < NPROC ensures !Woke(pc1[e], parent1[e]) {}
  }

  lemma ForkStep(w: World, p: nat, fails: bool)
    requires Inv(w) && p < NPROC && w.st[p] == Running
    ensures Inv(GoFork(w, p, fails))
  {
    hide Inv, Shape, HasOwn, Quiet, OnlyLock, NoLock, SameLocks, FreeProc;
    ShapeNow(w, p);
    match w.pc[p]
    case ForkAlloc(np) =>
      if 0 <= np < NPROC {
        if fails {
          ForkFails(w, p, np);
        } else if WaitL !in w.holder {
          ForkQuiet(p, np, w.chan[p]);
          QuietTake(w, p, ForkWait(np), WaitL);
        }
      }
    case ForkWait(np) => if 0 <= np < NPROC { ForkParent(w, p, np); }
    case ForkRun(np) => if 0 <= np < NPROC { ForkRuns(w, p, np); }
    case _ =>
  }

  // ---- whole runs ----

  lemma GoStep(w: World, p: nat, fails: bool)
    requires Inv(w) && p < NPROC && (w.st[p] == Running || LateStep(w.pc[p]))
    ensures Sized(w) && Inv(GoOn(w, p, fails))
  {
    hide Inv, Shape, GoFork, GoExit, GoWait, GoSleep, GoLock;
    ShapeNow(w, p);
    var c := w.pc[p];
    if c.ForkAlloc? || c.ForkWait? || c.ForkRun? {
      RunsNow(w, p);
      ForkStep(w, p, fails);
    } else if c.WaitScan? {
      RunsNow(w, p);
      WaitStep(w, p, fails);
    } else if c.AcqCheck? || c.RelSet? || c.RelWake? {
      RunsNow(w, p);
      LockStep(w, p);
    } else if c.SleepOn? || c.SleepHold? || c.SleepCommit? || c.SleepSet? || c.Woken? || c.Reacquire? {
      SleepStep(w, p);
    } else {
      ExitStep(w, p);
    }
  }

  lemma RunsNow(w: World, p: nat)
    requires Inv(w) && p < NPROC && (w.st[p] == Running || LateStep(w.pc[p])) && !LateStep(w.pc[p])
    ensures w.st[p] == Running
  {
  }

  /** Every action keeps the invariant. */
  lemma NextInv(w: World, a: Action)
    requires Inv(w) && Sized(w)
    ensures Inv(Next(w, a))
  {
    hide Inv, GoOn, Start, CanPreempt, LateStep, HasOwn;
    if a.p < NPROC {
      var p := a.p;
      match a
      case Fork(_, np) =>
        if w.st[p] == Running && w.pc[p] == Idle && np < NPROC && w.st[np] == Unused { ForkStart(w, p, np); }
      case Exit(_) => NextStart(w, p, WaitL, ExitScan(0));
      case Wait(_) => NextStart(w, p, WaitL, WaitScan(0, false));
      case Acquire(_, l) => NextStart(w, p, Guard(l), AcqCheck(l));
      case Release(_, l) => NextStart(w, p, Guard(l), RelSet(l));
      case Go(_, fails) => if w.st[p] == Running || LateStep(w.pc[p]) { GoStep(w, p, fails); }
      case Schedule(_) => if w.st[p] == Runnable { ScheduleStep(w, p); }
      case Preempt(_) => if w.st[p] == Running && CanPreempt(w.pc[p]) { PreemptStep(w, p); }
      case Kill(_) => if w.st[p] == Sleeping && !HasOwn(w.pc[p]) { WakeStep(w, p); }
    }
  }

  lemma NextStart(w: World, p: nat, lk: Lock, c: Pc)
    requires Inv(w) && Sized(w) && p < NPROC
    requires (lk == WaitL && (c == ExitScan(0) || c == WaitScan(0, false)))
      || (lk.Guard? && (c == AcqCheck(lk.l) || c == RelSet(lk.l)))
    ensures w.st[p] == Running && w.pc[p] == Idle && lk !in w.holder && !(c == ExitScan(0) && p == INIT) ==>
      Inv(At(w, p, c, w.holder[lk := p]))
  {
    hide Inv;
    if w.st[p] == Running && w.pc[p] == Idle && lk !in w.holder && !(c == ExitScan(0) && p == INIT) {
      StartStep(w, p, lk, c);
    }
  }

  lemma BootInv(locks: nat)
    ensures Inv(Boot(locks))
  {
  }

  lemma {:induction false} RunInv(w: World, actions: seq<Action>)
    requires Inv(w) && Sized(w)
    ensures Inv(Run(w, actions))
    decreases |actions|
  {
    hide Inv;
    if actions != [] {
      RunInv(w, actions[..|actions| - 1]);
      NextInv(Run(w, actions[..|actions| - 1]), actions[|actions| - 1]);
    }
  }

  /** From boot on, in every interleaving: no exit and no wake-up is lost, and every
      process but init has a live parent. */
  lemma NothingLost(locks: nat, actions: seq<Action>)
    ensures var w := Run(Boot(locks), actions);
      && NoLostExit(w.st, w.parent, w.chan, w.holder) && LiveParents(w.st, w.parent)
      && NoLostUnlock(w.st, w.chan, w.locked, w.holder)
  {
    hide Inv, NoLostExit, LiveParents, NoLostUnlock, Shapes, Holders, Forks, Parents, Waits, SleepLocks, Boot, Run;
    BootInv(locks);
    RunInv(Boot(locks), actions);
    var w := Run(Boot(locks), actions);
    Parts(w);
    NoLostExitNow(w.st, w.pc, w.parent, w.chan, w.holder);
    LiveParentsNow(w.st, w.pc, w.parent, w.chan);
    NoLostUnlockNow(w.st, w.pc, w.chan, w.locked, w.holder);
  }
}
