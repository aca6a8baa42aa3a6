/** proc.c and sleeplock.c: fork, exit, wait, sleep, wakeup and sleep-locks as
    interleaved steps.  A step is what a process does between two lock operations,
    or one short critical section on another process's p->lock; every loop over the
    process table (reparent, wakeup, the scan in wait) can be interrupted after each
    entry.  wait_lock and the guards of the sleep-locks are held across steps, and
    so is a process's own p->lock. */
module ProcTable {
  const NPROC: nat := 64
  /** initproc. */
  const INIT: nat := 0

  datatype Status = Unused | Used | Sleeping | Runnable | Running | Zombie

  /** A spin-lock that sleep can release: wait_lock, or the guard of sleep-lock l. */
  datatype Lock = WaitL | Guard(l: int)

  datatype Chan = NoChan | OnProc(p: int) | OnLock(l: int)

  /** Where a process is.  The names follow the code from top to bottom. */
  datatype Pc =
    | Idle
    | ForkAlloc(np: int) | ForkWait(np: int) | ForkRun(np: int)
    | ExitScan(i: nat) | ExitWakeInit(i: nat, j: nat) | ExitWakeParent(j: nat)
    | ExitLock | ExitHold | ExitZombie | ExitGone | Gone
    | WaitScan(i: nat, kids: bool)
    | SleepOn(lk: Lock) | SleepHold(lk: Lock) | SleepCommit(lk: Lock) | SleepSet(lk: Lock)
    | Asleep(lk: Lock) | Woken(lk: Lock) | Reacquire(lk: Lock)
    | AcqCheck(l: int) | RelSet(l: int) | RelWake(l: int, j: nat)

  /** Holds its own p->lock across steps. */
  predicate HasOwn(c: Pc) {
    c.ExitHold? || c.ExitZombie? || c.ExitGone? || c.SleepHold? || c.SleepCommit? || c.SleepSet? || c.Woken?
  }

  function ChanOf(p: int, lk: Lock): (c: Chan) {
    match lk
    case WaitL => OnProc(p)
    case Guard(l) => OnLock(l)
  }

  /** The process table, and of every sleep-lock lk->locked and lk->pid (as an index into
      the table, absent for 0). */
  datatype World = World(
    st: seq<Status>, pc: seq<Pc>, parent: seq<int>, chan: seq<Chan>, locked: seq<bool>, owner: map<int, int>,
    holder: map<Lock, int>)

  /** Process p goes on to c, with status s and channel ch. */
  function Put(w: World, p: nat, s: Status, c: Pc, ch: Chan): (w1: World)
    requires p < |w.st| && p < |w.pc| && p < |w.chan|
    ensures |w1.st| == |w.st| && |w1.pc| == |w.pc| && |w1.parent| == |w.parent| && |w1.chan| == |w.chan|
  {
    w.(st := w.st[p := s], pc := w.pc[p := c], chan := w.chan[p := ch])
  }

  // ---- the steps ----

  predicate Sized(w: World) {
    |w.st| == NPROC && |w.pc| == NPROC && |w.parent| == NPROC && |w.chan| == NPROC
  }

  /** p at c with the locks now in holder1. */
  function At(w: World, p: nat, c: Pc, holder1: map<Lock, int>): (w1: World)
    requires Sized(w) && p < NPROC
    ensures Sized(w1)
  {
    Put(w, p, w.st[p], c, w.chan[p]).(holder := holder1)
  }

  /** One entry of wakeup(ch) by p, under the p->lock of j. */
  function WakeEntry(w: World, p: nat, j: int, ch: Chan): (w1: World)
    requires Sized(w) && 0 <= j < NPROC
    ensures Sized(w1)
  {
    if j != p && w.st[j] == Sleeping && w.chan[j] == ch then w.(st := w.st[j := Runnable]) else w
  }

  /** freeproc. */
  function FreeProc(w: World, c: nat): (w1: World)
    requires Sized(w) && c < NPROC
    ensures Sized(w1)
  {
    Put(w, c, Unused, Idle, NoChan).(parent := w.parent[c := -1])
  }

  function GoFork(w: World, p: nat, fails: bool): (w1: World)
    requires Sized(w) && p < NPROC
    ensures Sized(w1)
  {
    match w.pc[p]
    case ForkAlloc(np) =>
      if !(0 <= np < NPROC) then w
      else if fails then FreeProc(At(w, p, Idle, w.holder), np)
      else if WaitL in w.holder then w
      else At(w, p, ForkWait(np), w.holder[WaitL := p])
    case ForkWait(np) =>
      if !(0 <= np < NPROC) then w
      else At(w, p, ForkRun(np), w.holder - {WaitL}).(parent := w.parent[np := p])
    case ForkRun(np) =>
      if !(0 <= np < NPROC) || HasOwn(w.pc[np]) then w
      else Put(At(w, p, Idle, w.holder), np, Runnable, w.pc[np], w.chan[np])
    case _ => w
  }

  function GoExit(w: World, p: nat): (w1: World)
    requires Sized(w) && p < NPROC
    ensures Sized(w1)
  {
    match w.pc[p]
    case ExitScan(i) =>
      if !(0 <= i < NPROC) then At(w, p, ExitWakeParent(0), w.holder)
      else if w.parent[i] == p then At(w, p, ExitWakeInit(i, 0), w.holder).(parent := w.parent[i := INIT])
      else At(w, p, ExitScan(i + 1), w.holder)
    case ExitWakeInit(i, j) =>
      if !(0 <= j < NPROC) then At(w, p, ExitScan(i + 1), w.holder)
      else if j != p && HasOwn(w.pc[j]) then w
      else At(WakeEntry(w, p, j, OnProc(INIT)), p, ExitWakeInit(i, j + 1), w.holder)
    case ExitWakeParent(j) =>
      if !(0 <= j < NPROC) then At(w, p, ExitLock, w.holder)
      else if j != p && HasOwn(w.pc[j]) then w
      else At(WakeEntry(w, p, j, OnProc(w.parent[p])), p, ExitWakeParent(j + 1), w.holder)
    case ExitLock => At(w, p, ExitHold, w.holder)
    case ExitHold => Put(w, p, Zombie, ExitZombie, w.chan[p])
    case ExitZombie => At(w, p, ExitGone, w.holder - {WaitL})
    case ExitGone => At(w, p, Gone, w.holder)
    case _ => w
  }

  function GoWait(w: World, p: nat, fails: bool): (w1: World)
    requires Sized(w) && p < NPROC
    ensures Sized(w1)
  {
    match w.pc[p]
    case WaitScan(i, kids) =>
      if !(0 <= i < NPROC) then
        if !kids || fails then At(w, p, Idle, w.holder - {WaitL}) else At(w, p, SleepOn(WaitL), w.holder)
      else if w.parent[i] != p then At(w, p, WaitScan(i + 1, kids), w.holder)
      else if HasOwn(w.pc[i]) then w
      else if w.st[i] != Zombie then At(w, p, WaitScan(i + 1, true), w.holder)
      else if fails then At(w, p, Idle, w.holder - {WaitL})
      else At(FreeProc(w, i), p, Idle, w.holder - {WaitL})
    case _ => w
  }

  function AfterSleep(lk: Lock): (c: Pc) {
    match lk
    case WaitL => WaitScan(0, false)
    case Guard(l) => AcqCheck(l)
  }

  function GoSleep(w: World, p: nat): (w1: World)
    requires Sized(w) && p < NPROC
    ensures Sized(w1)
  {
    match w.pc[p]
    case SleepOn(lk) => At(w, p, SleepHold(lk), w.holder)
    case SleepHold(lk) => At(w, p, SleepCommit(lk), w.holder - {lk})
    case SleepCommit(lk) => Put(w, p, Sleeping, SleepSet(lk), ChanOf(p, lk))
    case SleepSet(lk) => At(w, p, Asleep(lk), w.holder)
    case Woken(lk) => Put(w, p, w.st[p], Reacquire(lk), NoChan)
    case Reacquire(lk) =>
      if lk in w.holder then w
      else At(w, p, AfterSleep(lk), w.holder[lk := p])
    case _ => w
  }

  function GoLock(w: World, p: nat): (w1: World)
    requires Sized(w) && p < NPROC
    ensures Sized(w1)
  {
    match w.pc[p]
    case AcqCheck(l) =>
      if !(0 <= l < |w.locked|) then w
      else if w.locked[l] then At(w, p, SleepOn(Guard(l)), w.holder)
      else At(w, p, Idle, w.holder - {Guard(l)}).(locked := w.locked[l := true], owner := w.owner[l := p])
    case RelSet(l) =>
      if !(0 <= l < |w.locked|) then w
      else At(w, p, RelWake(l, 0), w.holder).(locked := w.locked[l := false], owner := w.owner - {l})
    case RelWake(l, j) =>
      if !(0 <= j < NPROC) then At(w, p, Idle, w.holder - {Guard(l)})
      else if j != p && HasOwn(w.pc[j]) then w
      else At(WakeEntry(w, p, j, OnLock(l)), p, RelWake(l, j + 1), w.holder)
    case _ => w
  }

  /** The next step of p, wherever it is. */
  function GoOn(w: World, p: nat, fails: bool): (w1: World)
    requires Sized(w) && p < NPROC
    ensures Sized(w1)
  {
    match w.pc[p]
    case ForkAlloc(_) => GoFork(w, p, fails)
    case ForkWait(_) => GoFork(w, p, fails)
    case ForkRun(_) => GoFork(w, p, fails)
    case WaitScan(_, _) => GoWait(w, p, fails)
    case AcqCheck(_) => GoLock(w, p)
    case RelSet(_) => GoLock(w, p)
    case RelWake(_, _) => GoLock(w, p)
    case SleepOn(_) => GoSleep(w, p)
    case SleepHold(_) => GoSleep(w, p)
    case SleepCommit(_) => GoSleep(w, p)
    case SleepSet(_) => GoSleep(w, p)
    case Woken(_) => GoSleep(w, p)
    case Reacquire(_) => GoSleep(w, p)
    case _ => GoExit(w, p)
  }

  /** Steps a process takes while its status is not RUNNING: the end of exit, and
      the scheduler's release of its p->lock. */
  predicate LateStep(c: Pc) {
    c.ExitZombie? || c.ExitGone? || c.SleepSet?
  }

  predicate CanPreempt(c: Pc) {
    c.Idle? || c.ForkAlloc? || c.ForkRun? || c.Reacquire?
  }

  /** What can happen next.  Go is the next step of a process that is inside fork,
      exit, wait, sleep, acquiresleep or releasesleep; `fails` says that uvmcopy or
      copyout fails there, or that the process finds itself killed. */
  datatype Action =
    | Fork(p: nat, np: nat) | Exit(p: nat) | Wait(p: nat) | Acquire(p: nat, l: int) | Release(p: nat, l: int)
    | Go(p: nat, fails: bool) | Schedule(p: nat) | Preempt(p: nat) | Kill(p: nat)

  /** The world after an action; an action that is not possible changes nothing. */
  function Next(w: World, a: Action): (w1: World)
    requires Sized(w)
    ensures Sized(w1)
  {
    if a.p >= NPROC then w else
    var p := a.p;
    match a
    case Fork(_, np) =>
      if w.st[p] == Running && w.pc[p] == Idle && np < NPROC && w.st[np] == Unused
      then At(Put(w, np, Used, Idle, NoChan), p, ForkAlloc(np), w.holder) else w
    case Exit(_) =>
      if w.st[p] == Running && w.pc[p] == Idle && p != INIT && WaitL !in w.holder
      then At(w, p, ExitScan(0), w.holder[WaitL := p]) else w
    case Wait(_) =>
      if w.st[p] == Running && w.pc[p] == Idle && WaitL !in w.holder
      then At(w, p, WaitScan(0, false), w.holder[WaitL := p]) else w
    case Acquire(_, l) =>
      if w.st[p] == Running && w.pc[p] == Idle && 0 <= l < |w.locked| && Guard(l) !in w.holder
      then At(w, p, AcqCheck(l), w.holder[Guard(l) := p]) else w
    case Release(_, l) =>
      if w.st[p] == Running && w.pc[p] == Idle && 0 <= l < |w.locked| && Guard(l) !in w.holder
      then At(w, p, RelSet(l), w.holder[Guard(l) := p]) else w
    case Go(_, fails) => if w.st[p] == Running || LateStep(w.pc[p]) then GoOn(w, p, fails) else w
    case Schedule(_) =>
      if w.st[p] == Runnable
      then Put(w, p, Running, if w.pc[p].Asleep? then Woken(w.pc[p].lk) else w.pc[p], w.chan[p]) else w
    case Preempt(_) =>
      if w.st[p] == Running && CanPreempt(w.pc[p])
      then Put(w, p, Runnable, w.pc[p], w.chan[p]) else w
    case Kill(_) =>
      if w.st[p] == Sleeping && !HasOwn(w.pc[p]) then Put(w, p, Runnable, w.pc[p], w.chan[p]) else w
  }

  function Run(w: World, actions: seq<Action>): (w1: World)
    requires Sized(w)
    ensures Sized(w1)
    decreases |actions|
  {
    if actions == [] then w else Next(Run(w, actions[..|actions| - 1]), actions[|actions| - 1])
  }

  /** After userinit: init is runnable and there is nothing else. */
  function Boot(locks: nat): (w: World)
    ensures Sized(w)
  {
    World(seq(NPROC, p => if p == INIT then Runnable else Unused), seq(NPROC, _ => Idle), seq(NPROC, _ => -1),
          seq(NPROC, _ => NoChan), seq(locks, _ => false), map[], map[])
  }

  // ---- the promises ----

  ghost predicate ZombieChild(st: seq<Status>, parent: seq<int>, p: int, c: int) {
    0 <= c < |st| && c < |parent| && parent[c] == p && st[c] == Zombie
  }

  /** No lost exit: with wait_lock free, nobody asleep in wait has a zombie child. */
  ghost predicate NoLostExit(st: seq<Status>, parent: seq<int>, chan: seq<Chan>, holder: map<Lock, int>) {
    WaitL !in holder ==> forall p, c :: 0 <= p < |st| && p < |chan| && st[p] == Sleeping && chan[p] == OnProc(p) ==>
      !ZombieChild(st, parent, p, c)
  }

  /** Every process but init has a parent that is neither unused nor a zombie. */
  ghost predicate LiveParents(st: seq<Status>, parent: seq<int>) {
    |parent| == |st| && forall c :: 0 <= c < |st| && c != INIT && st[c] != Unused && st[c] != Used ==>
      0 <= parent[c] < |st| && st[parent[c]] != Unused && st[parent[c]] != Zombie
  }

  /** No lost wake-up: nobody sleeps on an unlocked sleep-lock whose guard is free. */
  ghost predicate NoLostUnlock(st: seq<Status>, chan: seq<Chan>, locked: seq<bool>, holder: map<Lock, int>) {
    forall p, l :: (0 <= p < |st| && p < |chan| && 0 <= l < |locked| && Guard(l) !in holder
                    && st[p] == Sleeping && chan[p] == OnLock(l)) ==> locked[l]
  }
}
