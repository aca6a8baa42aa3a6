/** What fork, exit and wait achieve, in every interleaving. */
module ProcOutcomes {
  import opened ProcTable
  import opened ProcInvariant
  import opened SleepWakeup
  import opened WaitExit

  // ---- what the scan in wait has found ----

  /** p has a child among the first i entries. */
  ghost predicate ChildBelow(parent: seq<int>, p: int, i: int) {
    exists c :: 0 <= c < i && c < |parent| && parent[c] == p
  }

  ghost predicate KidsAt(parent: seq<int>, p: int, c: Pc) {
    c.WaitScan? ==> c.i <= NPROC && (c.kids <==> ChildBelow(parent, p, c.i))
  }

  /** havekids is set exactly if the scan has passed a child. */
  ghost predicate KidsKnown(w: World) {
    |w.pc| == NPROC && |w.parent| == NPROC && forall p :: 0 <= p < NPROC ==> KidsAt(w.parent, p, w.pc[p])
  }

  /** In a step of p, nobody else comes into a scan, and parents change only under a
      wait_lock that p holds outside one. */
  ghost predicate StepOf(w: World, w1: World, p: int) {
    && |w.pc| == NPROC && |w1.pc| == NPROC && |w1.parent| == NPROC && 0 <= p < NPROC
    && (forall q :: 0 <= q < NPROC && q != p ==> w1.pc[q] == w.pc[q] || !w1.pc[q].WaitScan?)
    && (w1.parent == w.parent || (Has(w.pc[p], WaitL) && !w1.pc[p].WaitScan?))
  }

  lemma KidsFrame(w: World, w1: World, p: int)
    requires Holders(w.pc, w.holder) && KidsKnown(w) && StepOf(w, w1, p) && KidsAt(w1.parent, p, w1.pc[p])
    ensures KidsKnown(w1)
  {
    hide Has, ChildBelow;
    ScanHolds();
    forall q | 0 <= q < NPROC ensures KidsAt(w1.parent, q, w1.pc[q]) {
      assert KidsAt(w.parent, q, w.pc[q]);
      if q != p && w1.pc[q].WaitScan? && w1.parent != w.parent { Exclusive(w.pc, w.holder, p, q, WaitL); }
    }
  }

  lemma ScanHolds()
    ensures forall i, kids :: Has(WaitScan(i, kids), WaitL)
  {
  }

  lemma ForkParts(w: World, p: nat, fails: bool)
    requires Inv(w) && Sized(w) && p < NPROC && (w.pc[p].ForkAlloc? || w.pc[p].ForkWait? || w.pc[p].ForkRun?)
    ensures StepOf(w, GoFork(w, p, fails), p) && !GoFork(w, p, fails).pc[p].WaitScan?
  {
    if Made(w.pc[p]) != -1 { TheMade(w, p); }
    hide Inv;
    var np := Made(w.pc[p]);
    assert 0 <= np < NPROC && w.parent[np] == -1 ==> w.parent[np := -1] == w.parent;
  }

  lemma ExitParts(w: World, p: nat)
    requires Sized(w) && p < NPROC && !w.pc[p].WaitScan?
    ensures StepOf(w, GoExit(w, p), p) && !GoExit(w, p).pc[p].WaitScan?
  {
  }

  lemma SleepParts(w: World, p: nat)
    requires Sized(w) && p < NPROC && !w.pc[p].WaitScan?
    ensures StepOf(w, GoSleep(w, p), p) && GoSleep(w, p).parent == w.parent
    ensures GoSleep(w, p).pc[p].WaitScan? ==> GoSleep(w, p).pc[p] == WaitScan(0, false)
  {
  }

  lemma LockParts(w: World, p: nat)
    requires Sized(w) && p < NPROC && !w.pc[p].WaitScan?
    ensures StepOf(w, GoLock(w, p), p) && !GoLock(w, p).pc[p].WaitScan?
  {
  }

  lemma WaitParts(w: World, p: nat, fails: bool)
    requires Sized(w) && p < NPROC && w.pc[p].WaitScan? && KidsAt(w.parent, p, w.pc[p])
    ensures StepOf(w, GoWait(w, p, fails), p) && KidsAt(GoWait(w, p, fails).parent, p, GoWait(w, p, fails).pc[p])
  {
    ScanHolds();
    var i := w.pc[p].i;
    if i < NPROC && w.parent[i] == p { assert ChildBelow(w.parent, p, i + 1); }
  }

  lemma GoParts(w: World, p: nat, fails: bool)
    requires Inv(w) && Sized(w) && p < NPROC && KidsAt(w.parent, p, w.pc[p])
    ensures var w1 := GoOn(w, p, fails); StepOf(w, w1, p) && KidsAt(w1.parent, p, w1.pc[p])
  {
    hide Inv, GoFork, GoExit, GoWait, GoSleep, GoLock, StepOf;
    var c := w.pc[p];
    if c.ForkAlloc? || c.ForkWait? || c.ForkRun? {
      ForkParts(w, p, fails);
    } else if c.WaitScan? {
      WaitParts(w, p, fails);
    } else if c.AcqCheck? || c.RelSet? || c.RelWake? {
      LockParts(w, p);
    } else if c.SleepOn? || c.SleepHold? || c.SleepCommit? || c.SleepSet? || c.Woken? || c.Reacquire? {
      SleepParts(w, p);
    } else {
      ExitParts(w, p);
    }
  }

  lemma CallParts(w: World, a: Action)
    requires Sized(w) && a.p < NPROC && !a.Go?
    ensures var w1 := Next(w, a);
      && StepOf(w, w1, a.p) && w1.parent == w.parent
      && (w1.pc[a.p].WaitScan? ==> w1.pc[a.p] == WaitScan(0, false) || w1.pc[a.p] == w.pc[a.p])
  {
    hide HasOwn, CanPreempt, LateStep, Has;
  }

  lemma KidsNext(w: World, a: Action)
    requires Inv(w) && Sized(w) && KidsKnown(w)
    ensures KidsKnown(Next(w, a))
  {
    Parts(w);
    hide Inv, GoOn, Holders, Forks, Parents, Waits, SleepLocks, Shapes, HasOwn, CanPreempt, LateStep, StepOf, KidsAt;
    if a.p < NPROC {
      var p := a.p;
      assert KidsAt(w.parent, p, w.pc[p]);
      if !a.Go? {
        CallParts(w, a);
        hide Next;
        KidsStart(w.parent, p);
        KidsFrame(w, Next(w, a), p);
      } else if w.st[p] == Running || LateStep(w.pc[p]) {
        GoParts(w, p, a.fails);
        KidsFrame(w, GoOn(w, p, a.fails), p);
      }
    }
  }

  lemma KidsStart(parent: seq<int>, p: int)
    ensures KidsAt(parent, p, WaitScan(0, false)) && forall c: Pc :: !c.WaitScan? ==> KidsAt(parent, p, c)
  {
  }

  lemma {:induction false} KidsRun(locks: nat, actions: seq<Action>)
    ensures Inv(Run(Boot(locks), actions)) && KidsKnown(Run(Boot(locks), actions))
    decreases |actions|
  {
    hide Inv, Next;
    if actions == [] {
      BootInv(locks);
    } else {
      hide KidsKnown, Boot;
      KidsRun(locks, actions[..|actions| - 1]);
      var w := Run(Boot(locks), actions[..|actions| - 1]);
      KidsNext(w, actions[|actions| - 1]);
      NextInv(w, actions[|actions| - 1]);
    }
  }

  // ---- wait ----

  ghost predicate Childless(w: World, p: int) {
    forall c :: 0 <= c < |w.parent| ==> w.parent[c] != p
  }

  /** Process c, a zombie child of p, is gone, p is out of wait, and nothing else changed. */
  ghost predicate Reaped(w: World, w1: World, p: int, c: int) {
    && Sized(w) && Sized(w1) && 0 <= p < NPROC && p != c && ZombieChild(w.st, w.parent, p, c)
    && w1 == w.(st := w.st[c := Unused], pc := w.pc[c := Idle][p := Idle], chan := w.chan[c := NoChan],
                parent := w.parent[c := -1], holder := w.holder - {WaitL})
  }

  /** What the next step of a scan at entry i may be: nothing while a child at i holds its
      p->lock; to the next entry; out of wait, with a zombie child freed or because there
      is no child; or to sleep, because there are children and none is a zombie. */
  ghost predicate ScanTold(w: World, w1: World, p: nat, i: nat)
    requires Sized(w) && Sized(w1) && p < NPROC
  {
    || (w1 == w && i < NPROC && w.parent[i] == p && HasOwn(w.pc[i]))
    || (i < NPROC && !ZombieChild(w.st, w.parent, p, i) 
        && w1 == At(w, p, WaitScan(i + 1, ChildBelow(w.parent, p, i + 1)), w.holder))
    || (Childless(w, p) && w1 == At(w, p, Idle, w.holder - {WaitL}))
    || (exists c :: Reaped(w, w1, p, c))
    || (!Childless(w, p) && (forall c :: !ZombieChild(w.st, w.parent, p, c)) && w1 == At(w, p, SleepOn(WaitL), w.holder))
  }

  /** In every run, for a process that is not killed and whose copyout does not fail. */
  lemma WaitEnds(locks: nat, actions: seq<Action>, p: nat)
    requires p < NPROC
    ensures var w := Run(Boot(locks), actions);
      w.pc[p].WaitScan? ==> ScanTold(w, Next(w, Go(p, false)), p, w.pc[p].i)
  {
    KidsRun(locks, actions);
    hide Boot, Run, ScanTold, Next;
    var w := Run(Boot(locks), actions);
    if w.pc[p].WaitScan? { ScanEnds(w, p); }
  }

  lemma ScanRuns(w: World, p: nat)
    requires Inv(w) && Sized(w) && p < NPROC && w.pc[p].WaitScan?
    ensures w.st[p] == Running && forall c :: ZombieChild(w.st, w.parent, p, c) ==> c >= w.pc[p].i && c != p
  {
    assert Shape(p, w.st[p], w.pc[p], w.chan[p]);
    assert Has(w.pc[p], WaitL);
  }

  lemma KidsHere(w: World, p: nat)
    requires KidsKnown(w) && p < NPROC
    ensures KidsAt(w.parent, p, w.pc[p])
  {
  }

  lemma ScanGoes(w: World, p: nat, i: nat, kids: bool)
    requires Sized(w) && p < NPROC && w.st[p] == Running && w.pc[p] == WaitScan(i, kids)
    ensures Next(w, Go(p, false)) ==
      if i >= NPROC then
        if kids then At(w, p, SleepOn(WaitL), w.holder) else At(w, p, Idle, w.holder - {WaitL})
      else if w.parent[i] != p then At(w, p, WaitScan(i + 1, kids), w.holder)
      else if HasOwn(w.pc[i]) then w
      else if w.st[i] != Zombie then At(w, p, WaitScan(i + 1, true), w.holder)
      else At(FreeProc(w, i), p, Idle, w.holder - {WaitL})
  {
    hide At, FreeProc, HasOwn;
  }

  lemma ScanEnds(w: World, p: nat)
    requires Inv(w) && Sized(w) && KidsKnown(w) && p < NPROC && w.pc[p].WaitScan?
    ensures ScanTold(w, Next(w, Go(p, false)), p, w.pc[p].i)
  {
    hide Inv, HasOwn, At, FreeProc, Next, KidsKnown, Reaped;
    ScanRuns(w, p);
    KidsHere(w, p);
    var i, kids := w.pc[p].i, w.pc[p].kids;
    ScanGoes(w, p, i, kids);
    if i < NPROC && w.parent[i] == p {
      assert ChildBelow(w.parent, p, i + 1);
      if w.st[i] == Zombie {
        assert ZombieChild(w.st, w.parent, p, i);
        ReapedNow(w, p, i);
      }
    }
  }

  lemma ReapedNow(w: World, p: nat, c: nat)
    requires Sized(w) && p < NPROC && c < NPROC && p != c && ZombieChild(w.st, w.parent, p, c)
    ensures Reaped(w, At(FreeProc(w, c), p, Idle, w.holder - {WaitL}), p, c)
  {
  }
}
