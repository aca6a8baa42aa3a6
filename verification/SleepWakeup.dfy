/** The steps of sleep, wakeup, acquiresleep and releasesleep keep the invariant. */
module SleepWakeup {
  import opened ProcTable
  import opened ProcInvariant

  /** c is how fork, exit, wait, acquiresleep or releasesleep starts, with lk. */
  predicate Start(p: int, lk: Lock, c: Pc) {
    || (lk == WaitL && ((c == ExitScan(0) && p != INIT) || c == WaitScan(0, false)))
    || (lk.Guard? && (c == AcqCheck(lk.l) || c == RelSet(lk.l)))
  }

  lemma StartQuiet(p: int, lk: Lock, c: Pc, ch: Chan)
    requires Start(p, lk, c)
    ensures Quiet(Running, Idle, Running, c) && Shape(p, Running, c, ch) && NoLock(Idle) && OnlyLock(c, lk)
  {
  }

  lemma StartStep(w: World, p: nat, lk: Lock, c: Pc)
    requires Inv(w) && p < NPROC && w.st[p] == Running && w.pc[p] == Idle && lk !in w.holder && Start(p, lk, c)
    ensures Inv(At(w, p, c, w.holder[lk := p]))
  {
    StartQuiet(p, lk, c, w.chan[p]);
    hide Inv, Quiet, Shape, Has, Start;
    QuietTake(w, p, c, lk);
  }

  lemma ScheduleQuiet(p: int, c0: Pc, ch: Chan)
    requires Shape(p, Runnable, c0, ch)
    ensures var c := if c0.Asleep? then Woken(c0.lk) else c0;
      Quiet(Runnable, c0, Running, c) && Shape(p, Running, c, ch) && SameLocks(c0, c)
  {
    assert !Has(c0, WaitL);
    assert !c0.RelWake? || Has(c0, Guard(c0.l));
    assert !c0.SleepOn? || Has(c0, c0.lk);
  }

  lemma ScheduleStep(w: World, p: nat)
    requires Inv(w) && p < NPROC && w.st[p] == Runnable
    ensures Inv(Put(w, p, Running, if w.pc[p].Asleep? then Woken(w.pc[p].lk) else w.pc[p], w.chan[p]))
  {
    ShapeNow(w, p);
    ScheduleQuiet(p, w.pc[p], w.chan[p]);
    hide Inv, Quiet, Shape, Has;
    QuietStatus(w, p, Running, if w.pc[p].Asleep? then Woken(w.pc[p].lk) else w.pc[p], w.chan[p]);
  }

  lemma PreemptQuiet(p: int, c: Pc, ch: Chan)
    requires CanPreempt(c)
    ensures Quiet(Running, c, Runnable, c) && Shape(p, Runnable, c, ch)
  {
  }

  lemma PreemptStep(w: World, p: nat)
    requires Inv(w) && p < NPROC && w.st[p] == Running && CanPreempt(w.pc[p])
    ensures Inv(Put(w, p, Runnable, w.pc[p], w.chan[p]))
  {
    PreemptQuiet(p, w.pc[p], w.chan[p]);
    hide Inv, Quiet, Shape, Has, CanPreempt;
    QuietStatus(w, p, Runnable, w.pc[p], w.chan[p]);
  }

  lemma WakeQuiet(p: int, c: Pc, ch: Chan)
    requires Shape(p, Sleeping, c, ch) && !HasOwn(c)
    ensures Quiet(Sleeping, c, Runnable, c) && Shape(p, Runnable, c, ch)
  {
  }

  /** A sleeper is woken, by wakeup or kill. */
  lemma WakeStep(w: World, p: nat)
    requires Inv(w) && p < NPROC && w.st[p] == Sleeping && !HasOwn(w.pc[p])
    ensures Inv(Put(w, p, Runnable, w.pc[p], w.chan[p]))
  {
    ShapeNow(w, p);
    WakeQuiet(p, w.pc[p], w.chan[p]);
    hide Inv, Quiet, Shape, Has, HasOwn;
    QuietStatus(w, p, Runnable, w.pc[p], w.chan[p]);
  }

  // ---- sleep ----

  lemma SetQuiet(p: int, lk: Lock)
    ensures Quiet(Running, SleepCommit(lk), Sleeping, SleepSet(lk)) && SameLocks(SleepCommit(lk), SleepSet(lk))
    ensures Shape(p, Sleeping, SleepSet(lk), ChanOf(p, lk))
  {
  }

  /** chan and SLEEPING are set. */
  lemma SetStep(w: World, p: nat, lk: Lock)
    requires Inv(w) && p < NPROC && w.st[p] == Running && w.pc[p] == SleepCommit(lk)
    ensures Inv(Put(w, p, Sleeping, SleepSet(lk), ChanOf(p, lk)))
  {
    SetQuiet(p, lk);
    hide Inv, Quiet, Shape, Has;
    QuietStatus(w, p, Sleeping, SleepSet(lk), ChanOf(p, lk));
  }

  lemma SwitchQuiet(p: int, lk: Lock, ch: Chan)
    requires Shape(p, Sleeping, SleepSet(lk), ch)
    ensures Quiet(Sleeping, SleepSet(lk), Sleeping, Asleep(lk)) && SameLocks(SleepSet(lk), Asleep(lk))
    ensures Shape(p, Sleeping, Asleep(lk), ch)
  {
  }

  /** The scheduler releases p->lock. */
  lemma SwitchStep(w: World, p: nat, lk: Lock)
    requires Inv(w) && p < NPROC && w.pc[p] == SleepSet(lk)
    ensures Inv(At(w, p, Asleep(lk), w.holder))
  {
    ShapeNow(w, p);
    assert w.st[p] == Sleeping;
    SwitchQuiet(p, lk, w.chan[p]);
    hide Inv, Quiet, Shape, Has;
    QuietMove(w, p, Asleep(lk));
  }

  lemma TidyQuiet(p: int, lk: Lock)
    ensures Quiet(Running, Woken(lk), Running, Reacquire(lk)) && SameLocks(Woken(lk), Reacquire(lk))
    ensures Shape(p, Running, Reacquire(lk), NoChan)
  {
  }

  /** chan is cleared and p->lock released. */
  lemma TidyStep(w: World, p: nat, lk: Lock)
    requires Inv(w) && p < NPROC && w.st[p] == Running && w.pc[p] == Woken(lk)
    ensures Inv(Put(w, p, Running, Reacquire(lk), NoChan))
  {
    TidyQuiet(p, lk);
    hide Inv, Quiet, Shape, Has;
    QuietStatus(w, p, Running, Reacquire(lk), NoChan);
  }

  lemma ReacquireQuiet(p: int, lk: Lock, ch: Chan)
    ensures Quiet(Running, Reacquire(lk), Running, AfterSleep(lk)) && Shape(p, Running, AfterSleep(lk), ch)
    ensures OnlyLock(AfterSleep(lk), lk) && NoLock(Reacquire(lk))
  {
  }

  /** acquire(lk) at the end of sleep. */
  lemma ReacquireStep(w: World, p: nat, lk: Lock)
    requires Inv(w) && p < NPROC && w.st[p] == Running && w.pc[p] == Reacquire(lk) && lk !in w.holder
    ensures Inv(At(w, p, AfterSleep(lk), w.holder[lk := p]))
  {
    ReacquireQuiet(p, lk, w.chan[p]);
    hide Inv, Quiet, Shape, Has, AfterSleep;
    QuietTake(w, p, AfterSleep(lk), lk);
  }

  /** Before it lets go of lk a process about to sleep has reason to. */
  lemma HoldStep(w: World, p: nat, lk: Lock)
    requires Inv(w) && p < NPROC && w.st[p] == Running && w.pc[p] == SleepOn(lk)
    ensures Inv(At(w, p, SleepHold(lk), w.holder))
  {
    var c := SleepHold(lk);
    HoldLocal(p, lk, w.chan[p]);
    Keep(w.pc, w.holder, p, c);
    QuietFork(w.st, w.pc, w.parent, p, Running, c);
    HoldWait(w.st, w.pc, w.parent, w.holder, p, lk);
    HoldLock(w.st, w.pc, w.locked, w.holder, p, lk);
    hide ForkOk, ParentOk, WaitOk, LockOk, Handover, Shape, Shapes, Holders, Forks, Parents, Waits, SleepLocks, QuietF;
    OneStep(w, p, Running, c, w.chan[p], w.holder);
  }

  lemma HoldLocal(p: int, lk: Lock, ch: Chan)
    ensures QuietF(Running, SleepOn(lk), Running, SleepHold(lk)) && Shape(p, Running, SleepHold(lk), ch)
    ensures SameLocks(SleepOn(lk), SleepHold(lk))
    ensures QuietF(Running, SleepHold(lk), Running, SleepCommit(lk)) && Shape(p, Running, SleepCommit(lk), ch)
    ensures OnlyLock(SleepHold(lk), lk) && NoLock(SleepCommit(lk))
  {
  }

  lemma HoldWait(st: seq<Status>, pc: seq<Pc>, parent: seq<int>, holder: map<Lock, int>, p: nat, lk: Lock)
    requires Waits(st, pc, parent, holder) && Parents(st, pc, parent) && p < NPROC
    requires st[p] == Running && pc[p] == SleepOn(lk)
    ensures WaitOk(st, pc, parent, p, Running, SleepHold(lk))
  {
  }

  lemma HoldLock(st: seq<Status>, pc: seq<Pc>, locked: seq<bool>, holder: map<Lock, int>, p: nat, lk: Lock)
    requires SleepLocks(st, pc, locked, holder) && p < NPROC && st[p] == Running && pc[p] == SleepOn(lk)
    ensures LockOk(st, pc, locked, p, Running, SleepHold(lk))
  {
  }

  /** release(lk) in sleep. */
  lemma CommitStep(w: World, p: nat, lk: Lock)
    requires Inv(w) && p < NPROC && w.st[p] == Running && w.pc[p] == SleepHold(lk)
    ensures Inv(At(w, p, SleepCommit(lk), w.holder - {lk}))
  {
    var c := SleepCommit(lk);
    HoldLocal(p, lk, w.chan[p]);
    Drop(w.pc, w.holder, p, lk, c);
    QuietFork(w.st, w.pc, w.parent, p, Running, c);
    CommitWait(w.st, w.pc, w.parent, w.holder, p, lk);
    CommitLock(w.st, w.pc, w.locked, w.holder, p, lk);
    hide ForkOk, ParentOk, WaitOk, LockOk, Handover, Shape, Shapes, Holders, Forks, Parents, Waits, SleepLocks, QuietF;
    OneStep(w, p, Running, c, w.chan[p], w.holder - {lk});
  }

  lemma CommitWait(st: seq<Status>, pc: seq<Pc>, parent: seq<int>, holder: map<Lock, int>, p: nat, lk: Lock)
    requires Waits(st, pc, parent, holder) && Parents(st, pc, parent) && Holders(pc, holder) && p < NPROC
    requires st[p] == Running && pc[p] == SleepHold(lk)
    ensures WaitOk(st, pc, parent, p, Running, SleepCommit(lk))
  {
    if lk == WaitL {
      NoneWoke(pc, holder, parent, p);
    }
  }

  /** While p holds wait_lock outside exit, nobody is past waking its parent. */
  lemma NoneWoke(pc: seq<Pc>, holder: map<Lock, int>, parent: seq<int>, p: nat)
    requires Holders(pc, holder) && |parent| == NPROC && p < NPROC && Has(pc[p], WaitL) && !Woke(pc[p], parent[p])
    ensures forall e :: 0 <= e < NPROC ==> !Woke(pc[e], parent[e])
  {
    forall e | 0 <= e < NPROC ensures !Woke(pc[e], parent[e]) {
      if e != p { Exclusive(pc, holder, p, e, WaitL); }
    }
  }

  lemma CommitLock(st: seq<Status>, pc: seq<Pc>, locked: seq<bool>, holder: map<Lock, int>, p: nat, lk: Lock)
    requires SleepLocks(st, pc, locked, holder) && p < NPROC && st[p] == Running && pc[p] == SleepHold(lk)
    ensures LockOk(st, pc, locked, p, Running, SleepCommit(lk))
  {
  }

  lemma SleepStep(w: World, p: nat)
    requires Inv(w) && p < NPROC && (w.st[p] == Running || w.pc[p].SleepSet?)
    ensures Inv(GoSleep(w, p))
  {
    hide Inv, Shape;
    ShapeNow(w, p);
    match w.pc[p]
    case SleepOn(lk) => HoldStep(w, p, lk);
    case SleepHold(lk) => CommitStep(w, p, lk);
    case SleepCommit(lk) => SetStep(w, p, lk);
    case SleepSet(lk) => SwitchStep(w, p, lk);
    case Woken(lk) => TidyStep(w, p, lk);
    case Reacquire(lk) => if lk !in w.holder { ReacquireStep(w, p, lk); }
    case _ =>
  }

  // ---- wakeup ----

  /** One entry of wakeup keeps the invariant, and nobody is left about to sleep or
      asleep at that entry on the woken channel. */
  lemma WakeEntryStep(w: World, p: nat, j: nat, lk: Lock, q: int)
    requires Inv(w) && p < NPROC && j < NPROC && (j != p ==> !HasOwn(w.pc[j])) && (lk == WaitL ==> j == q)
    requires !Sleepish(w.pc[p], w.st[p], lk)
    ensures Inv(WakeEntry(w, p, j, ChanOf(q, lk)))
    ensures var w1 := WakeEntry(w, p, j, ChanOf(q, lk)); Woken1(w, w1, p, j) && !Sleepish(w1.pc[j], w1.st[j], lk)
  {
    hide Inv, Shape, HasOwn, Sleepish, ChanOf;
    ShapeNow(w, j);
    NotAsleep(j, w.st[j], w.pc[j], w.chan[j], lk, q);
    WakeOther(w, p, j, ChanOf(q, lk));
  }

  /** At most the status of entry j changed, from SLEEPING to RUNNABLE. */
  ghost predicate Woken1(w: World, w1: World, p: int, j: int) {
    && w1 == w.(st := w1.st) && |w.st| == NPROC && |w1.st| == NPROC && 0 <= j < NPROC && w1.st == w.st[j := w1.st[j]]
    && (w1.st[j] == w.st[j] || (j != p && w.st[j] == Sleeping && w1.st[j] == Runnable))
  }

  lemma NotAsleep(j: int, s: Status, c: Pc, ch: Chan, lk: Lock, q: int)
    requires Shape(j, s, c, ch) && (lk == WaitL ==> j == q)
    ensures !HasOwn(c) && !(s == Sleeping && ch == ChanOf(q, lk)) ==> !Sleepish(c, s, lk)
    ensures !HasOwn(c) ==> !Sleepish(c, Runnable, lk)
  {
  }

  /** One entry of wakeup, whoever it is. */
  lemma WakeOther(w: World, p: nat, j: nat, ch: Chan)
    requires Inv(w) && p < NPROC && j < NPROC && (j != p ==> !HasOwn(w.pc[j]))
    ensures Inv(WakeEntry(w, p, j, ch)) && Woken1(w, WakeEntry(w, p, j, ch), p, j)
  {
    hide Inv, HasOwn, Shape;
    ShapeNow(w, j);
    var w1 := WakeEntry(w, p, j, ch);
    if j != p && w.st[j] == Sleeping && w.chan[j] == ch {
      WakeStep(w, j);
      assert w1 == Put(w, j, Runnable, w.pc[j], w.chan[j]);
    }
  }

  // ---- sleep-locks ----

  /** A step of a running process that only the sleepers on l may mind. */
  lemma LockMove(w: World, p: nat, c: Pc)
    requires Inv(w) && p < NPROC && w.st[p] == Running
    requires QuietF(Running, w.pc[p], Running, c) && QuietW(Running, w.pc[p], Running, c)
    requires Shape(p, Running, c, w.chan[p]) && SameLocks(w.pc[p], c)
    requires LockOk(w.st, w.pc, w.locked, p, Running, c)
    ensures Inv(At(w, p, c, w.holder))
  {
    hide Inv, ForkOk, ParentOk, WaitOk, LockOk, Handover, Shape, Shapes, Holders, Forks, Parents, Waits, SleepLocks;
    hide QuietF, QuietW, SameLocks;
    Parts(w);
    Keep(w.pc, w.holder, p, c);
    QuietFork(w.st, w.pc, w.parent, p, Running, c);
    QuietWait(w.st, w.pc, w.parent, w.holder, p, Running, c);
    OneStep(w, p, Running, c, w.chan[p], w.holder);
  }

  lemma WaitForLockLocal(p: int, l: int, ch: Chan)
    ensures QuietF(Running, AcqCheck(l), Running, SleepOn(Guard(l)))
    ensures QuietW(Running, AcqCheck(l), Running, SleepOn(Guard(l)))
    ensures Shape(p, Running, SleepOn(Guard(l)), ch) && SameLocks(AcqCheck(l), SleepOn(Guard(l)))
  {
  }

  lemma WaitForLock(w: World, p: nat, l: int)
    requires Inv(w) && p < NPROC && w.st[p] == Running && w.pc[p] == AcqCheck(l) && 0 <= l < |w.locked| && w.locked[l]
    ensures Inv(At(w, p, SleepOn(Guard(l)), w.holder))
  {
    hide Inv, Shape, QuietF, QuietW, SameLocks;
    Parts(w);
    WaitForLockLocal(p, l, w.chan[p]);
    LockMove(w, p, SleepOn(Guard(l)));
  }

  lemma GotQuiet(p: int, l: int, ch: Chan)
    ensures Quiet(Running, AcqCheck(l), Running, Idle) && Shape(p, Running, Idle, ch)
    ensures OnlyLock(AcqCheck(l), Guard(l)) && NoLock(Idle)
  {
  }

  lemma GotLock(w: World, p: nat, l: int)
    requires Inv(w) && p < NPROC && w.st[p] == Running && w.pc[p] == AcqCheck(l) && 0 <= l < |w.locked|
    ensures Inv(At(w, p, Idle, w.holder - {Guard(l)}).(locked := w.locked[l := true]))
  {
    GotQuiet(p, l, w.chan[p]);
    LockedMore(w.st, w.pc, w.locked, w.holder, l);
    var w1 := w.(locked := w.locked[l := true]);
    assert Inv(w1);
    hide Inv, Quiet, Shape, Has;
    QuietDrop(w1, p, Idle, Guard(l));
  }

  lemma LockedMore(st: seq<Status>, pc: seq<Pc>, locked: seq<bool>, holder: map<Lock, int>, l: int)
    requires SleepLocks(st, pc, locked, holder) && 0 <= l < |locked|
    ensures SleepLocks(st, pc, locked[l := true], holder)
  {
    hide Sleepish;
  }

  /** releasesleep clears the lock and begins to wake. */
  lemma Unlock(w: World, p: nat, l: int)
    requires Inv(w) && p < NPROC && w.st[p] == Running && w.pc[p] == RelSet(l) && 0 <= l < |w.locked|
    ensures Inv(At(w, p, RelWake(l, 0), w.holder).(locked := w.locked[l := false]))
  {
    var c := RelWake(l, 0);
    UnlockLocal(p, l, w.chan[p]);
    UnlockSleepers(w.st, w.pc, w.locked, w.holder, p, l);
    hide SleepLocks;
    var locked := w.locked[l := true];
    LockedMore(w.st, w.pc, w.locked, w.holder, l);
    assert Inv(w.(locked := locked));
    hide Inv, Quiet, Shape, Has;
    QuietMove(w.(locked := locked), p, c);
    InvUnlocked(At(w.(locked := locked), p, c, w.holder), w.locked[l := false]);
  }

  lemma InvUnlocked(w: World, locked: seq<bool>)
    requires Inv(w) && SleepLocks(w.st, w.pc, locked, w.holder)
    ensures Inv(w.(locked := locked))
  {
  }

  lemma InvOwner(w: World, owner: map<int, int>)
    requires Inv(w)
    ensures Inv(w.(owner := owner))
  {
  }

  lemma UnlockLocal(p: int, l: int, ch: Chan)
    ensures Quiet(Running, RelSet(l), Running, RelWake(l, 0)) && Shape(p, Running, RelWake(l, 0), ch)
    ensures SameLocks(RelSet(l), RelWake(l, 0))
  {
  }

  lemma UnlockSleepers(st: seq<Status>, pc: seq<Pc>, locked: seq<bool>, holder: map<Lock, int>, p: nat, l: int)
    requires SleepLocks(st, pc, locked, holder) && Holders(pc, holder)
    requires p < NPROC && st[p] == Running && pc[p] == RelSet(l) && 0 <= l < |locked|
    ensures SleepLocks(st[p := Running], pc[p := RelWake(l, 0)], locked[l := false], holder)
  {
    var pc1, locked1 := pc[p := RelWake(l, 0)], locked[l := false];
    assert Has(pc[p], Guard(l)) && By(holder, Guard(l), p);
    forall q, k | 0 <= q < NPROC && 0 <= k < |locked1| && !locked1[k]
      ensures pc1[q] != SleepOn(Guard(k)) && pc1[q] != SleepHold(Guard(k))
      ensures Sleepish(pc1[q], st[q], Guard(k)) ==> WakingLock(pc1, holder, k, q)
    {
      if q != p { Exclusive(pc, holder, p, q, Guard(l)); }
      if q != p && k != l && WakingLock(pc, holder, k, q) { assert holder[Guard(k)] != p; }
    }
  }

  /** One entry of the wakeup in releasesleep. */
  lemma UnlockWake(w: World, p: nat, l: int, j: nat)
    requires Inv(w) && p < NPROC && w.st[p] == Running && w.pc[p] == RelWake(l, j) && j < NPROC
    requires j != p ==> !HasOwn(w.pc[j])
    ensures Inv(At(WakeEntry(w, p, j, OnLock(l)), p, RelWake(l, j + 1), w.holder))
  {
    hide Inv, Shape, QuietF, QuietW, SameLocks, HasOwn, WakeEntry, Sleepish;
    Parts(w);
    var w1 := WakeEntry(w, p, j, OnLock(l));
    UnlockWakeLocal(p, l, j, w.chan[p]);
    WakeEntryStep(w, p, j, Guard(l), 0);
    LockMove(w1, p, RelWake(l, j + 1));
  }

  lemma UnlockWakeLocal(p: int, l: int, j: nat, ch: Chan)
    ensures QuietF(Running, RelWake(l, j), Running, RelWake(l, j + 1))
    ensures QuietW(Running, RelWake(l, j), Running, RelWake(l, j + 1))
    ensures Shape(p, Running, RelWake(l, j + 1), ch) && SameLocks(RelWake(l, j), RelWake(l, j + 1))
    ensures !Sleepish(RelWake(l, j), Running, Guard(l))
    ensures forall k :: !Sleepish(RelWake(l, j + 1), Running, Guard(k))
  {
  }

  lemma UnlockedQuiet(p: int, l: int, j: nat, ch: Chan)
    requires j >= NPROC
    ensures Quiet(Running, RelWake(l, j), Running, Idle) && Shape(p, Running, Idle, ch)
    ensures OnlyLock(RelWake(l, j), Guard(l)) && NoLock(Idle)
  {
  }

  lemma LockStep(w: World, p: nat)
    requires Inv(w) && p < NPROC && w.st[p] == Running
    ensures Inv(GoLock(w, p))
  {
    hide Inv, Shape, Quiet, Has, HasOwn, WakeEntry;
    ShapeNow(w, p);
    match w.pc[p]
    case AcqCheck(l) =>
      if 0 <= l < |w.locked| {
        if w.locked[l] {
          WaitForLock(w, p, l);
        } else {
          GotLock(w, p, l);
          InvOwner(At(w, p, Idle, w.holder - {Guard(l)}).(locked := w.locked[l := true]), w.owner[l := p]);
        }
      }
    case RelSet(l) =>
      if 0 <= l < |w.locked| {
        Unlock(w, p, l);
        InvOwner(At(w, p, RelWake(l, 0), w.holder).(locked := w.locked[l := false]), w.owner - {l});
      }
    case RelWake(l, j) =>
      if j >= NPROC {
        UnlockedQuiet(p, l, j, w.chan[p]);
        QuietDrop(w, p, Idle, Guard(l));
      } else if j == p || !HasOwn(w.pc[j]) {
        UnlockWake(w, p, l, j);
      }
    case _ =>
  }
}
