/** Sleep-locks exclude: who holds each sleep-lock over a run, and that lk->locked,
    lk->pid and holdingsleep agree with it. */
module LockOwners {
  import opened ProcTable

  /** In this step acquiresleep of l returns. */
  predicate Got(w: World, a: Action, l: int)
    requires Sized(w)
  {
    a.Go? && a.p < NPROC && w.pc[a.p] == AcqCheck(l) && Next(w, a).pc[a.p] == Idle
  }

  /** In this step releasesleep gives l up. */
  predicate Gave(w: World, a: Action, l: int)
    requires Sized(w)
  {
    a.Go? && a.p < NPROC && w.pc[a.p] == RelSet(l) && Next(w, a).pc[a.p] != RelSet(l)
  }

  function After(w: World, a: Action, l: int, keepers: set<nat>): (k: set<nat>)
    requires Sized(w)
  {
    if Got(w, a, l) then keepers + {a.p} else if Gave(w, a, l) then keepers - {a.p} else keepers
  }

  /** The processes that have acquired l in the run and not released it since. */
  function Keepers(w: World, actions: seq<Action>, l: int): (k: set<nat>)
    requires Sized(w)
    decreases |actions|
  {
    if actions == [] then {}
    else
      var n := |actions| - 1;
      After(Run(w, actions[..n]), actions[n], l, Keepers(w, actions[..n], l))
  }

  /** Only holders call releasesleep. */
  predicate Disciplined(w: World, actions: seq<Action>)
    requires Sized(w)
    decreases |actions|
  {
    if actions == [] then true
    else
      var n := |actions| - 1;
      Disciplined(w, actions[..n]) && (actions[n].Release? ==> actions[n].p in Keepers(w, actions[..n], actions[n].l))
  }

  /** holdingsleep, called by p. */
  predicate Holding(w: World, p: int, l: int) {
    0 <= l < |w.locked| && w.locked[l] && l in w.owner && w.owner[l] == p
  }

  ghost predicate Kept(w: World, l: int, keepers: set<nat>) {
    && |w.pc| == NPROC && 0 <= l < |w.locked|
    && (if w.locked[l] then l in w.owner && w.owner[l] >= 0 && keepers == {w.owner[l]} else keepers == {} && l !in w.owner)
    && forall p: nat :: p < NPROC && w.pc[p] == RelSet(l) ==> p in keepers
  }

  /** A step that does not touch the lock variables or start releasesleep. */
  ghost predicate LockLeft(w: World, w1: World, l: int) {
    && |w.pc| == NPROC && |w1.pc| == NPROC && w1.locked == w.locked && w1.owner == w.owner
    && forall q :: 0 <= q < NPROC && w1.pc[q] == RelSet(l) ==> w.pc[q] == RelSet(l)
  }

  lemma ForkLeaves(w: World, p: nat, fails: bool, l: int)
    requires Sized(w) && p < NPROC
    ensures LockLeft(w, GoFork(w, p, fails), l)
  {
    hide HasOwn;
  }

  lemma WaitLeaves(w: World, p: nat, fails: bool, l: int)
    requires Sized(w) && p < NPROC
    ensures LockLeft(w, GoWait(w, p, fails), l)
  {
    hide HasOwn;
  }

  lemma SleepLeaves(w: World, p: nat, l: int)
    requires Sized(w) && p < NPROC
    ensures LockLeft(w, GoSleep(w, p), l)
  {
    hide HasOwn, ChanOf;
  }

  lemma ExitLeaves(w: World, p: nat, l: int)
    requires Sized(w) && p < NPROC
    ensures LockLeft(w, GoExit(w, p), l)
  {
  }

  /** What acquiresleep and releasesleep do to the lock variables. */
  lemma KeptTaken(w: World, p: nat, l: int, k: int, keepers: set<nat>)
    requires Sized(w) && Kept(w, l, keepers) && p < NPROC && w.pc[p] == AcqCheck(k)
    ensures var w1 := GoLock(w, p);
      Kept(w1, l, if k == l && w1.pc[p] == Idle then keepers + {p} else keepers)
  {
  }

  lemma KeptGiven(w: World, p: nat, l: int, k: int, keepers: set<nat>)
    requires Sized(w) && Kept(w, l, keepers) && p < NPROC && w.pc[p] == RelSet(k)
    ensures var w1 := GoLock(w, p);
      Kept(w1, l, if k == l && w1.pc[p] != RelSet(l) then keepers - {p} else keepers)
  {
  }

  lemma WakeLeaves(w: World, p: nat, l: int)
    requires Sized(w) && p < NPROC && w.pc[p].RelWake?
    ensures LockLeft(w, GoLock(w, p), l)
  {
    hide HasOwn;
  }

  lemma KeptLock(w: World, p: nat, fails: bool, l: int, keepers: set<nat>)
    requires Sized(w) && Kept(w, l, keepers) && p < NPROC
    requires w.pc[p].AcqCheck? || w.pc[p].RelSet? || w.pc[p].RelWake?
    requires w.st[p] == Running || LateStep(w.pc[p])
    ensures Kept(GoLock(w, p), l, After(w, Go(p, fails), l, keepers))
  {
    hide Kept, LockLeft, GoLock;
    var c := w.pc[p];
    assert Next(w, Go(p, fails)) == GoLock(w, p);
    if c.AcqCheck? {
      KeptTaken(w, p, l, c.l, keepers);
    } else if c.RelSet? {
      KeptGiven(w, p, l, c.l, keepers);
    } else {
      WakeLeaves(w, p, l);
      LeftKept(w, GoLock(w, p), l, keepers);
    }
  }

  lemma LeftKept(w: World, w1: World, l: int, keepers: set<nat>)
    requires Kept(w, l, keepers) && LockLeft(w, w1, l)
    ensures Kept(w1, l, keepers)
  {
  }

  lemma KeptGo(w: World, p: nat, fails: bool, l: int, keepers: set<nat>)
    requires Sized(w) && Kept(w, l, keepers) && p < NPROC && (w.st[p] == Running || LateStep(w.pc[p]))
    ensures Kept(GoOn(w, p, fails), l, After(w, Go(p, fails), l, keepers))
  {
    hide Kept, LockLeft, GoFork, GoWait, GoSleep, GoExit, GoLock;
    if w.pc[p].AcqCheck? || w.pc[p].RelSet? || w.pc[p].RelWake? {
      KeptLock(w, p, fails, l, keepers);
    } else {
      ForkLeaves(w, p, fails, l);
      WaitLeaves(w, p, fails, l);
      SleepLeaves(w, p, l);
      ExitLeaves(w, p, l);
      LeftKept(w, GoOn(w, p, fails), l, keepers);
    }
  }

  lemma CallLeaves(w: World, a: Action, l: int)
    requires Sized(w) && !a.Go? && a != Release(a.p, l)
    ensures LockLeft(w, Next(w, a), l)
  {
  }

  lemma ReleaseKept(w: World, p: nat, l: int, keepers: set<nat>)
    requires Sized(w) && Kept(w, l, keepers) && p in keepers
    ensures Kept(Next(w, Release(p, l)), l, keepers)
  {
  }

  lemma KeptNext(w: World, a: Action, l: int, keepers: set<nat>)
    requires Sized(w) && Kept(w, l, keepers) && (a == Release(a.p, l) ==> a.p in keepers)
    ensures Kept(Next(w, a), l, After(w, a, l, keepers))
  {
    hide Kept, LockLeft, GoOn;
    if a.Go? {
      if a.p < NPROC && (w.st[a.p] == Running || LateStep(w.pc[a.p])) { KeptGo(w, a.p, a.fails, l, keepers); }
    } else if a == Release(a.p, l) {
      ReleaseKept(w, a.p, l, keepers);
    } else {
      CallLeaves(w, a, l);
      LeftKept(w, Next(w, a), l, keepers);
    }
  }

  lemma {:induction false} KeptRun(locks: nat, actions: seq<Action>, l: int)
    requires Disciplined(Boot(locks), actions) && 0 <= l < locks
    ensures Kept(Run(Boot(locks), actions), l, Keepers(Boot(locks), actions, l))
    decreases |actions|
  {
    if actions != [] {
      hide Next, After, Kept, Boot;
      var n := |actions| - 1;
      KeptRun(locks, actions[..n], l);
      KeptNext(Run(Boot(locks), actions[..n]), actions[n], l, Keepers(Boot(locks), actions[..n], l));
    }
  }

  /** In every run in which only holders release: a sleep-lock has at most one holder, it
      is locked exactly while it has one, and holdingsleep tells who. */
  lemma LocksExclude(locks: nat, actions: seq<Action>, l: int)
    requires Disciplined(Boot(locks), actions) && 0 <= l < locks
    ensures var w, k := Run(Boot(locks), actions), Keepers(Boot(locks), actions, l);
      && l < |w.locked| && |k| <= 1 && (w.locked[l] <==> k != {})
      && forall p: nat :: Holding(w, p, l) <==> p in k
  {
    hide Run, Keepers, Boot, Kept, Disciplined, Holding;
    KeptRun(locks, actions, l);
    KeptMeans(Run(Boot(locks), actions), l, Keepers(Boot(locks), actions, l));
  }

  lemma KeptMeans(w: World, l: int, keepers: set<nat>)
    requires Kept(w, l, keepers)
    ensures 0 <= l < |w.locked| && |keepers| <= 1 && (w.locked[l] <==> keepers != {})
    ensures forall p: nat :: Holding(w, p, l) <==> p in keepers
  {
  }
}
