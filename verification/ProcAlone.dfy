/** What whole calls of fork, wait, exit, acquiresleep and releasesleep do when nobody
    else takes a step meanwhile. */
module ProcAlone {
  import opened ProcTable

  /** p takes k steps. */
  function Goes(w: World, p: nat, k: nat): (w1: World)
    requires Sized(w)
    ensures Sized(w1)
    decreases k
  {
    if k == 0 then w else Goes(Next(w, Go(p, false)), p, k - 1)
  }

  lemma {:induction false} GoesOn(w: World, p: nat, j: nat, k: nat)
    requires Sized(w)
    ensures Goes(w, p, j + k) == Goes(Goes(w, p, j), p, k)
    decreases j
  {
    hide Next;
    if j > 0 { GoesOn(Next(w, Go(p, false)), p, j - 1, k); }
  }

  /** ... which is a run. */
  lemma {:induction false} GoesIsRun(w: World, p: nat, k: nat)
    requires Sized(w)
    ensures Goes(w, p, k) == Run(w, seq(k, _ => Go(p, false)))
    decreases k
  {
    hide Next;
    if k > 0 {
      var gos := seq(k, _ => Go(p, false));
      assert gos[..k - 1] == seq(k - 1, _ => Go(p, false));
      GoesIsRun(w, p, k - 1);
      GoesOn(w, p, k - 1, 1);
      assert Goes(Goes(w, p, k - 1), p, 1) == Next(Goes(w, p, k - 1), Go(p, false)) by {
        assert Goes(Next(Goes(w, p, k - 1), Go(p, false)), p, 0) == Next(Goes(w, p, k - 1), Go(p, false));
      }
    }
  }

  lemma OneGo(w: World, p: nat, k: nat)
    requires Sized(w)
    ensures Goes(w, p, k + 1) == Goes(Next(w, Go(p, false)), p, k) && Goes(w, p, 0) == w
  {
  }

  /** No other process is holding its p->lock. */
  ghost predicate Alone(w: World, p: nat) {
    Sized(w) && p < NPROC && w.st[p] == Running && forall j :: 0 <= j < NPROC && j != p ==> !HasOwn(w.pc[j])
  }

  lemma TakeDrop(holder: map<Lock, int>, lk: Lock, p: int)
    requires lk !in holder
    ensures holder[lk := p] - {lk} == holder
  {
  }

  // ---- fork ----

  /** The child is runnable and p's, and p is where it was. */
  lemma ForkAlone(w: World, p: nat, np: nat)
    requires Sized(w) && p < NPROC && np < NPROC && w.st[p] == Running && w.pc[p] == Idle
    requires w.st[np] == Unused && w.pc[np] == Idle && WaitL !in w.holder
    ensures Goes(Next(w, Fork(p, np)), p, 3) ==
      w.(st := w.st[np := Runnable], chan := w.chan[np := NoChan], parent := w.parent[np := p])
  {
    TakeDrop(w.holder, WaitL, p);
    var w0 := w.(st := w.st[np := Used], chan := w.chan[np := NoChan]);
    assert Next(w, Fork(p, np)) == At(w0, p, ForkAlloc(np), w.holder);
    var w1 := At(w0, p, ForkAlloc(np), w.holder);
    var w2 := At(w0, p, ForkWait(np), w.holder[WaitL := p]);
    var w3 := At(w0, p, ForkRun(np), w.holder).(parent := w.parent[np := p]);
    assert Next(w1, Go(p, false)) == w2;
    assert Next(w2, Go(p, false)) == w3;
    assert Next(w3, Go(p, false)) ==
      w.(st := w.st[np := Runnable], chan := w.chan[np := NoChan], parent := w.parent[np := p]);
    hide Next;
    OneGo(w1, p, 2);
    OneGo(w2, p, 1);
    OneGo(w3, p, 0);
  }

  /** When memory runs out the entry is unused again. */
  lemma ForkFailsAlone(w: World, p: nat, np: nat)
    requires Sized(w) && p < NPROC && np < NPROC && w.st[p] == Running && w.pc[p] == Idle
    requires w.st[np] == Unused && w.pc[np] == Idle && w.chan[np] == NoChan && w.parent[np] == -1
    ensures Next(Next(w, Fork(p, np)), Go(p, true)) == w
  {
    var w1 := Next(w, Fork(p, np));
    assert w1 == At(Put(w, np, Used, Idle, NoChan), p, ForkAlloc(np), w.holder);
    var w2 := Next(w1, Go(p, true));
    assert w2.st == w.st && w2.pc == w.pc && w2.parent == w.parent && w2.chan == w.chan;
  }

  // ---- wait ----

  ghost predicate HasChild(parent: seq<int>, p: int, i: int, n: int) {
    exists c :: i <= c < n && 0 <= c < |parent| && parent[c] == p
  }

  lemma ScanPass(w: World, p: nat, i: nat, kids: bool)
    requires Alone(w, p) && w.pc[p] == WaitScan(i, kids) && i < NPROC && !ZombieChild(w.st, w.parent, p, i)
    ensures Next(w, Go(p, false)) == At(w, p, WaitScan(i + 1, kids || w.parent[i] == p), w.holder)
  {
    hide At;
  }

  /** The scan goes from i to n past entries that are no zombie children. */
  lemma {:induction false} ScanAlone(w: World, p: nat, i: nat, n: nat, kids: bool)
    requires Alone(w, p) && w.pc[p] == WaitScan(i, kids) && i <= n <= NPROC
    requires forall c :: i <= c < n ==> !ZombieChild(w.st, w.parent, p, c)
    ensures Goes(w, p, n - i) == At(w, p, WaitScan(n, kids || HasChild(w.parent, p, i, n)), w.holder)
    decreases n - i
  {
    hide At, Next, ZombieChild, Alone;
    AloneSized(w, p);
    if i == n {
      AtHere(w, p);
    } else {
      ScanPass(w, p, i, kids);
      var kids1 := kids || w.parent[i] == p;
      OneGo(w, p, n - i - 1);
      AtFacts(w, p, WaitScan(i + 1, kids1), w.holder);
      ScanAlone(At(w, p, WaitScan(i + 1, kids1), w.holder), p, i + 1, n, kids1);
      assert HasChild(w.parent, p, i, n) <==> w.parent[i] == p || HasChild(w.parent, p, i + 1, n);
    }
  }

  lemma AloneSized(w: World, p: nat)
    requires Alone(w, p)
    ensures Sized(w) && p < NPROC && w.st[p] == Running
  {
  }

  lemma AtHere(w: World, p: nat)
    requires Sized(w) && p < NPROC
    ensures At(w, p, w.pc[p], w.holder) == w
  {
  }

  lemma AtFacts(w: World, p: nat, c: Pc, holder: map<Lock, int>)
    requires Sized(w) && p < NPROC
    ensures var w1 := At(w, p, c, holder);
      && w1.st == w.st && w1.parent == w.parent && w1.chan == w.chan && w1.locked == w.locked && w1.owner == w.owner
      && w1.holder == holder && w1.pc == w.pc[p := c] && (Alone(w, p) ==> Alone(w1, p))
      && forall c1, h1 :: At(w1, p, c1, h1) == At(w, p, c1, h1)
  {
  }

  lemma StartWait(w: World, p: nat)
    requires Alone(w, p) && w.pc[p] == Idle && WaitL !in w.holder
    ensures Next(w, Wait(p)) == At(w, p, WaitScan(0, false), w.holder[WaitL := p]) && Alone(Next(w, Wait(p)), p)
  {
  }

  /** wait, up to entry n. */
  lemma WaitTo(w: World, p: nat, n: nat)
    requires Alone(w, p) && w.pc[p] == Idle && WaitL !in w.holder && n <= NPROC
    requires forall c :: 0 <= c < n ==> !ZombieChild(w.st, w.parent, p, c)
    ensures Goes(Next(w, Wait(p)), p, n) ==
      At(w, p, WaitScan(n, HasChild(w.parent, p, 0, n)), w.holder[WaitL := p])
  {
    hide At, Next, ZombieChild, Alone, HasChild;
    AloneSized(w, p);
    StartWait(w, p);
    AtFacts(w, p, WaitScan(0, false), w.holder[WaitL := p]);
    ScanAlone(At(w, p, WaitScan(0, false), w.holder[WaitL := p]), p, 0, n, false);
  }

  /** ... and the step there. */
  lemma WaitLast(w: World, p: nat, n: nat, w1: World)
    requires Alone(w, p) && w.pc[p] == Idle && WaitL !in w.holder && n <= NPROC
    requires forall c :: 0 <= c < n ==> !ZombieChild(w.st, w.parent, p, c)
    requires Next(At(w, p, WaitScan(n, HasChild(w.parent, p, 0, n)), w.holder[WaitL := p]), Go(p, false)) == w1
    ensures Goes(Next(w, Wait(p)), p, n + 1) == w1
  {
    WaitTo(w, p, n);
    hide Next, At;
    GoesOn(Next(w, Wait(p)), p, n, 1);
    OneGo(Goes(Next(w, Wait(p)), p, n), p, 0);
  }

  lemma ReapStep(w: World, p: nat, c: nat, kids: bool)
    requires Alone(w, p) && w.pc[p] == Idle && WaitL !in w.holder && c != p && ZombieChild(w.st, w.parent, p, c)
    ensures Next(At(w, p, WaitScan(c, kids), w.holder[WaitL := p]), Go(p, false)) ==
      w.(st := w.st[c := Unused], pc := w.pc[c := Idle], chan := w.chan[c := NoChan], parent := w.parent[c := -1])
  {
    TakeDrop(w.holder, WaitL, p);
  }

  /** The lowest zombie child is freed. */
  lemma WaitReaps(w: World, p: nat, c: nat)
    requires Alone(w, p) && w.pc[p] == Idle && WaitL !in w.holder && c != p
    requires ZombieChild(w.st, w.parent, p, c) && forall b :: 0 <= b < c ==> !ZombieChild(w.st, w.parent, p, b)
    ensures Goes(Next(w, Wait(p)), p, c + 1) ==
      w.(st := w.st[c := Unused], pc := w.pc[c := Idle], chan := w.chan[c := NoChan], parent := w.parent[c := -1])
  {
    ReapStep(w, p, c, HasChild(w.parent, p, 0, c));
    hide Next, At, HasChild;
    WaitLast(w, p, c,
      w.(st := w.st[c := Unused], pc := w.pc[c := Idle], chan := w.chan[c := NoChan], parent := w.parent[c := -1]));
  }

  lemma ScanDone(w: World, p: nat, kids: bool)
    requires Alone(w, p) && w.pc[p] == Idle && WaitL !in w.holder
    ensures Next(At(w, p, WaitScan(NPROC, kids), w.holder[WaitL := p]), Go(p, false)) ==
      if kids then At(w, p, SleepOn(WaitL), w.holder[WaitL := p]) else w
  {
    TakeDrop(w.holder, WaitL, p);
  }

  /** Without children wait changes nothing. */
  lemma WaitAlone(w: World, p: nat)
    requires Alone(w, p) && w.pc[p] == Idle && WaitL !in w.holder && !HasChild(w.parent, p, 0, NPROC)
    ensures Goes(Next(w, Wait(p)), p, NPROC + 1) == w
  {
    hide Next, At, Alone;
    AloneSized(w, p);
    ScanDone(w, p, false);
    WaitLast(w, p, NPROC, w);
  }

  function Slept(w: World, p: nat, lk: Lock): (w1: World)
    requires Sized(w) && p < NPROC
    ensures Sized(w1)
  {
    Put(w, p, Sleeping, Asleep(lk), ChanOf(p, lk)).(holder := w.holder - {lk})
  }

  lemma SleepSteps(w: World, p: nat, lk: Lock)
    requires Alone(w, p) && w.pc[p] == SleepOn(lk)
    ensures var w1 := At(w, p, SleepHold(lk), w.holder); var w2 := At(w, p, SleepCommit(lk), w.holder - {lk});
      Next(w, Go(p, false)) == w1 && Next(w1, Go(p, false)) == w2
  {
  }

  lemma SleepRest(w: World, p: nat, lk: Lock)
    requires Alone(w, p) && w.pc[p] == SleepOn(lk)
    ensures var w2 := At(w, p, SleepCommit(lk), w.holder - {lk}); var w3 := Put(w2, p, Sleeping, SleepSet(lk), ChanOf(p, lk));
      Next(w2, Go(p, false)) == w3 && Next(w3, Go(p, false)) == Slept(w, p, lk)
  {
  }

  /** sleep, from its beginning until p is off the CPU. */
  lemma SleepAlone(w: World, p: nat, lk: Lock)
    requires Alone(w, p) && w.pc[p] == SleepOn(lk)
    ensures Goes(w, p, 4) == Slept(w, p, lk)
  {
    SleepSteps(w, p, lk);
    SleepRest(w, p, lk);
    hide Next, At, Put, Slept;
    var w1, w2 := At(w, p, SleepHold(lk), w.holder), At(w, p, SleepCommit(lk), w.holder - {lk});
    OneGo(w, p, 3);
    OneGo(w1, p, 2);
    OneGo(w2, p, 1);
    OneGo(Next(w2, Go(p, false)), p, 0);
  }

  lemma SleptAt(w: World, p: nat, lk: Lock)
    requires Sized(w) && p < NPROC && lk !in w.holder
    ensures Slept(At(w, p, SleepOn(lk), w.holder[lk := p]), p, lk) ==
      w.(st := w.st[p := Sleeping], pc := w.pc[p := Asleep(lk)], chan := w.chan[p := ChanOf(p, lk)])
  {
    TakeDrop(w.holder, lk, p);
  }

  /** With children of which none is a zombie, p ends up asleep with wait_lock free. */
  lemma WaitSleeps(w: World, p: nat)
    requires Alone(w, p) && w.pc[p] == Idle && WaitL !in w.holder && HasChild(w.parent, p, 0, NPROC)
    requires forall c :: !ZombieChild(w.st, w.parent, p, c)
    ensures Goes(Next(w, Wait(p)), p, NPROC + 5) ==
      w.(st := w.st[p := Sleeping], pc := w.pc[p := Asleep(WaitL)], chan := w.chan[p := OnProc(p)])
  {
    hide Next, At, Alone, Slept, ZombieChild;
    AloneSized(w, p);
    ScanDone(w, p, true);
    var w3 := At(w, p, SleepOn(WaitL), w.holder[WaitL := p]);
    WaitLast(w, p, NPROC, w3);
    GoesOn(Next(w, Wait(p)), p, NPROC + 1, 4);
    AtFacts(w, p, SleepOn(WaitL), w.holder[WaitL := p]);
    SleepAlone(w3, p, WaitL);
    SleptAt(w, p, WaitL);
  }

  /** A woken sleeper that is scheduled takes the lock again and looks afresh. */
  lemma WakesUp(w: World, p: nat, lk: Lock)
    requires Sized(w) && p < NPROC && w.st[p] == Runnable && w.pc[p] == Asleep(lk) && lk !in w.holder
    ensures Goes(Next(w, Schedule(p)), p, 2) ==
      w.(st := w.st[p := Running], pc := w.pc[p := AfterSleep(lk)], chan := w.chan[p := NoChan], holder := w.holder[lk := p])
  {
    var w1 := Put(w, p, Running, Woken(lk), w.chan[p]);
    var w2 := Put(w, p, Running, Reacquire(lk), NoChan);
    assert Next(w, Schedule(p)) == w1;
    assert Next(w1, Go(p, false)) == w2;
    assert Next(w2, Go(p, false)) ==
      w.(st := w.st[p := Running], pc := w.pc[p := AfterSleep(lk)], chan := w.chan[p := NoChan], holder := w.holder[lk := p]);
    hide Next;
    OneGo(w1, p, 1);
    OneGo(w2, p, 0);
  }

  /** kill gets a sleeper out of sleep, whatever it sleeps on. */
  lemma KillWakes(w: World, p: nat, lk: Lock)
    requires Sized(w) && p < NPROC && w.st[p] == Sleeping && w.pc[p] == Asleep(lk) && lk !in w.holder
    ensures Goes(Next(Next(w, Kill(p)), Schedule(p)), p, 2) ==
      w.(st := w.st[p := Running], pc := w.pc[p := AfterSleep(lk)], chan := w.chan[p := NoChan], holder := w.holder[lk := p])
  {
    var w1 := w.(st := w.st[p := Runnable]);
    assert Next(w, Kill(p)) == w1;
    hide Next;
    WakesUp(w1, p, lk);
  }

  // ---- wakeup ----

  predicate Waking(c: Pc) {
    c.RelWake? || c.ExitWakeInit? || c.ExitWakeParent?
  }

  /** The same wakeup at entry j. */
  function WakeAt(c: Pc, j: nat): (c1: Pc)
    requires Waking(c)
  {
    match c
    case RelWake(l, _) => RelWake(l, j)
    case ExitWakeInit(i, _) => ExitWakeInit(i, j)
    case _ => ExitWakeParent(j)
  }

  function WakeChan(c: Pc, parent: int): (ch: Chan)
    requires Waking(c)
  {
    match c
    case RelWake(l, _) => OnLock(l)
    case ExitWakeInit(_, _) => OnProc(INIT)
    case _ => OnProc(parent)
  }

  /** The statuses after everybody but p, from entry j on, was woken from ch. */
  ghost function WokenFrom(st: seq<Status>, chan: seq<Chan>, p: int, ch: Chan, j: int): (s: seq<Status>)
    requires |chan| == |st|
    ensures |s| == |st|
  {
    seq(|st|, q requires 0 <= q < |st| => if q >= j && q != p && st[q] == Sleeping && chan[q] == ch then Runnable else st[q])
  }

  lemma WakeOne(w: World, p: nat, c: Pc, j: nat)
    requires Alone(w, p) && Waking(c) && w.pc[p] == WakeAt(c, j) && j < NPROC
    ensures Next(w, Go(p, false)) == At(WakeEntry(w, p, j, WakeChan(c, w.parent[p])), p, WakeAt(c, j + 1), w.holder)
  {
    hide WakeEntry, HasOwn;
  }

  lemma StillRunning(w: World, p: nat, ch: Chan, j: int)
    requires Alone(w, p)
    ensures WokenFrom(w.st, w.chan, p, ch, j)[p] == Running
  {
  }

  /** p at c, with the statuses s. */
  function Roused(w: World, p: nat, c: Pc, s: seq<Status>): (w1: World)
    requires Sized(w) && p < NPROC && |s| == NPROC
    ensures Sized(w1)
  {
    w.(st := s, pc := w.pc[p := c])
  }

  lemma WakeMoves(w: World, p: nat, c: Pc, j: nat, ch: Chan)
    requires Alone(w, p) && j < NPROC
    ensures var w1 := At(WakeEntry(w, p, j, ch), p, c, w.holder);
      && Sized(w1) && w1.pc == w.pc[p := c] && w1.parent == w.parent && w1.chan == w.chan && w1.st[p] == Running
      && w1.locked == w.locked && w1.owner == w.owner && w1.holder == w.holder
      && w1.st == if j != p && w.st[j] == Sleeping && w.chan[j] == ch then w.st[j := Runnable] else w.st
  {
  }

  lemma WokenMore(st: seq<Status>, chan: seq<Chan>, p: int, ch: Chan, j: nat, st1: seq<Status>)
    requires |st| == |chan| && j < |st|
    requires st1 == if j != p && st[j] == Sleeping && chan[j] == ch then st[j := Runnable] else st
    ensures WokenFrom(st1, chan, p, ch, j + 1) == WokenFrom(st, chan, p, ch, j)
  {
  }

  lemma AloneMoves(w: World, w1: World, p: nat, c: Pc, c1: Pc, s: seq<Status>)
    requires Alone(w, p) && Sized(w1) && w1.pc == w.pc[p := c] && w1.st[p] == Running && |s| == NPROC
    requires w1.parent == w.parent && w1.chan == w.chan
    requires w1.locked == w.locked && w1.owner == w.owner && w1.holder == w.holder
    ensures Alone(w1, p) && Roused(w1, p, c1, s) == Roused(w, p, c1, s)
  {
    assert w1.pc[p := c1] == w.pc[p := c1];
  }

  lemma WokenNone(w: World, p: nat, ch: Chan)
    requires Sized(w) && p < NPROC
    ensures WokenFrom(w.st, w.chan, p, ch, NPROC) == w.st && Roused(w, p, w.pc[p], w.st) == w
  {
  }

  /** The rest of a wakeup: everybody from the entry it is at who sleeps on the channel. */
  lemma {:induction false} WakeAlone(w: World, p: nat, c: Pc, j: nat, ch: Chan)
    requires Alone(w, p) && Waking(c) && w.pc[p] == WakeAt(c, j) && j <= NPROC && ch == WakeChan(c, w.parent[p])
    ensures Goes(w, p, NPROC - j) == Roused(w, p, WakeAt(c, NPROC), WokenFrom(w.st, w.chan, p, ch, j))
    decreases NPROC - j
  {
    hide Next, At, WakeEntry, WokenFrom, Roused, Alone, WakeAt, WakeChan;
    AloneSized(w, p);
    if j == NPROC {
      WokenNone(w, p, ch);
    } else {
      WakeOne(w, p, c, j);
      WakeMoves(w, p, WakeAt(c, j + 1), j, ch);
      var w1 := At(WakeEntry(w, p, j, ch), p, WakeAt(c, j + 1), w.holder);
      var s := WokenFrom(w.st, w.chan, p, ch, j);
      WokenMore(w.st, w.chan, p, ch, j, w1.st);
      AloneMoves(w, w1, p, WakeAt(c, j + 1), WakeAt(c, NPROC), s);
      OneGo(w, p, NPROC - j - 1);
      WakeAlone(w1, p, c, j + 1, ch);
    }
  }

  // ---- sleep-locks ----

  lemma AcquireFree(w: World, p: nat, l: int)
    requires Alone(w, p) && w.pc[p] == Idle && 0 <= l < |w.locked| && Guard(l) !in w.holder && !w.locked[l]
    ensures Goes(Next(w, Acquire(p, l)), p, 1) == w.(locked := w.locked[l := true], owner := w.owner[l := p])
  {
    TakeDrop(w.holder, Guard(l), p);
    var w1 := At(w, p, AcqCheck(l), w.holder[Guard(l) := p]);
    assert Next(w, Acquire(p, l)) == w1;
    assert Next(w1, Go(p, false)) == w.(locked := w.locked[l := true], owner := w.owner[l := p]);
    hide Next;
    OneGo(w1, p, 0);
  }

  lemma AcquireBlocked(w: World, p: nat, l: int)
    requires Alone(w, p) && w.pc[p] == Idle && 0 <= l < |w.locked| && Guard(l) !in w.holder && w.locked[l]
    ensures Next(Next(w, Acquire(p, l)), Go(p, false)) == At(w, p, SleepOn(Guard(l)), w.holder[Guard(l) := p])
  {
  }

  lemma AcquireSleeps(w: World, p: nat, l: int)
    requires Alone(w, p) && w.pc[p] == Idle && 0 <= l < |w.locked| && Guard(l) !in w.holder && w.locked[l]
    ensures Goes(Next(w, Acquire(p, l)), p, 5) ==
      w.(st := w.st[p := Sleeping], pc := w.pc[p := Asleep(Guard(l))], chan := w.chan[p := OnLock(l)])
  {
    hide Next, At, Alone, Slept;
    AloneSized(w, p);
    AcquireBlocked(w, p, l);
    OneGo(Next(w, Acquire(p, l)), p, 4);
    AtFacts(w, p, SleepOn(Guard(l)), w.holder[Guard(l) := p]);
    SleepAlone(At(w, p, SleepOn(Guard(l)), w.holder[Guard(l) := p]), p, Guard(l));
    SleptAt(w, p, Guard(l));
  }

  /** releasesleep until it wakes. */
  function Unlocked(w: World, p: nat, l: int, j: nat): (w1: World)
    requires Sized(w) && p < NPROC && 0 <= l < |w.locked|
    ensures Sized(w1)
  {
    w.(pc := w.pc[p := RelWake(l, j)], locked := w.locked[l := false], owner := w.owner - {l}, holder := w.holder[Guard(l) := p])
  }

  lemma UnlockSteps(w: World, p: nat, l: int)
    requires Alone(w, p) && w.pc[p] == Idle && 0 <= l < |w.locked| && Guard(l) !in w.holder
    ensures var w2 := Unlocked(w, p, l, 0);
      && Next(Next(w, Release(p, l)), Go(p, false)) == w2 && Alone(w2, p) && w2.pc[p] == RelWake(l, 0)
      && w2.st == w.st && w2.chan == w.chan
  {
  }

  lemma UnlockEnds(w: World, p: nat, l: int, s: seq<Status>)
    requires Alone(w, p) && w.pc[p] == Idle && 0 <= l < |w.locked| && Guard(l) !in w.holder && |s| == NPROC && s[p] == Running
    ensures Next(Roused(Unlocked(w, p, l, 0), p, RelWake(l, NPROC), s), Go(p, false)) ==
      w.(locked := w.locked[l := false], owner := w.owner - {l}, st := s)
  {
    TakeDrop(w.holder, Guard(l), p);
  }

  /** releasesleep clears the lock and wakes everybody who sleeps on it. */
  lemma ReleaseAlone(w: World, p: nat, l: int)
    requires Alone(w, p) && w.pc[p] == Idle && 0 <= l < |w.locked| && Guard(l) !in w.holder
    ensures Goes(Next(w, Release(p, l)), p, NPROC + 2) ==
      w.(locked := w.locked[l := false], owner := w.owner - {l}, st := WokenFrom(w.st, w.chan, p, OnLock(l), 0))
  {
    hide Next, Alone, WokenFrom, Roused, Unlocked;
    AloneSized(w, p);
    var s := WokenFrom(w.st, w.chan, p, OnLock(l), 0);
    StillRunning(w, p, OnLock(l), 0);
    UnlockSteps(w, p, l);
    OneGo(Next(w, Release(p, l)), p, NPROC + 1);
    var w2 := Unlocked(w, p, l, 0);
    WakeAlone(w2, p, RelWake(l, 0), 0, OnLock(l));
    GoesOn(w2, p, NPROC, 1);
    UnlockEnds(w, p, l, s);
    OneGo(Goes(w2, p, NPROC), p, 0);
  }

  // ---- exit ----

  /** The children of p from entry i on are init's. */
  ghost function GivenFrom(parent: seq<int>, p: int, i: int): (q: seq<int>)
    ensures |q| == |parent|
  {
    seq(|parent|, c requires 0 <= c < |parent| => if c >= i && parent[c] == p then INIT else parent[c])
  }

  /** Init is woken if there is such a child. */
  ghost function InitWoken(w: World, p: int, i: int): (s: seq<Status>)
    requires Sized(w)
    ensures |s| == NPROC
  {
    if HasChild(w.parent, p, i, NPROC) then WokenFrom(w.st, w.chan, p, OnProc(INIT), 0) else w.st
  }

  ghost function Reparented(w: World, p: nat, i: int): (w1: World)
    requires Sized(w) && p < NPROC
    ensures Sized(w1)
  {
    Roused(w, p, ExitScan(NPROC), InitWoken(w, p, i)).(parent := GivenFrom(w.parent, p, i))
  }

  lemma ReparentNone(w: World, p: nat)
    requires Sized(w) && p < NPROC && w.pc[p] == ExitScan(NPROC)
    ensures Reparented(w, p, NPROC) == w
  {
    assert GivenFrom(w.parent, p, NPROC) == w.parent;
  }

  lemma ExitPass(w: World, p: nat, i: nat)
    requires Alone(w, p) && w.pc[p] == ExitScan(i) && i < NPROC && w.parent[i] != p
    ensures var w1 := At(w, p, ExitScan(i + 1), w.holder);
      Next(w, Go(p, false)) == w1 && Reparented(w1, p, i + 1) == Reparented(w, p, i)
  {
    var w1 := At(w, p, ExitScan(i + 1), w.holder);
    assert Next(w, Go(p, false)) == w1;
    hide Next;
    assert GivenFrom(w.parent, p, i + 1) == GivenFrom(w.parent, p, i);
    assert HasChild(w.parent, p, i + 1, NPROC) <==> HasChild(w.parent, p, i, NPROC);
  }

  /** A child at i: it goes to init, which is woken. */
  ghost function GaveOne(w: World, p: nat, i: nat): (w1: World)
    requires Sized(w) && p < NPROC && i < NPROC
    ensures Sized(w1)
  {
    Roused(w, p, ExitScan(i + 1), WokenFrom(w.st, w.chan, p, OnProc(INIT), 0)).(parent := w.parent[i := INIT])
  }

  lemma GaveFacts(w: World, p: nat, i: nat)
    requires Alone(w, p) && i < NPROC && w.parent[i] == p && p != INIT
    ensures Alone(GaveOne(w, p, i), p) && GaveOne(w, p, i).pc[p] == ExitScan(i + 1)
    ensures Reparented(GaveOne(w, p, i), p, i + 1) == Reparented(w, p, i)
  {
    var w1 := GaveOne(w, p, i);
    assert GivenFrom(w1.parent, p, i + 1) == GivenFrom(w.parent, p, i);
    assert HasChild(w.parent, p, i, NPROC);
    assert WokenFrom(w1.st, w1.chan, p, OnProc(INIT), 0) == w1.st;
    assert w1.pc[p := ExitScan(NPROC)] == w.pc[p := ExitScan(NPROC)];
  }

  lemma GiveFirst(w: World, p: nat, i: nat)
    requires Alone(w, p) && w.pc[p] == ExitScan(i) && i < NPROC && w.parent[i] == p
    ensures var w1 := At(w, p, ExitWakeInit(i, 0), w.holder).(parent := w.parent[i := INIT]);
      && Next(w, Go(p, false)) == w1 && Alone(w1, p) && w1.pc[p] == ExitWakeInit(i, 0)
      && w1.st == w.st && w1.chan == w.chan
  {
  }

  lemma GiveLast(w: World, p: nat, i: nat, s: seq<Status>)
    requires Alone(w, p) && i < NPROC && |s| == NPROC && s[p] == Running
    ensures var w1 := At(w, p, ExitWakeInit(i, 0), w.holder).(parent := w.parent[i := INIT]);
      Next(Roused(w1, p, ExitWakeInit(i, NPROC), s), Go(p, false)) ==
        Roused(w, p, ExitScan(i + 1), s).(parent := w.parent[i := INIT])
  {
  }

  lemma GiveOne(w: World, p: nat, i: nat)
    requires Alone(w, p) && w.pc[p] == ExitScan(i) && i < NPROC && w.parent[i] == p
    ensures Goes(w, p, NPROC + 2) == GaveOne(w, p, i)
  {
    hide Next, Alone, WokenFrom, Roused, At;
    AloneSized(w, p);
    GiveFirst(w, p, i);
    var w1 := At(w, p, ExitWakeInit(i, 0), w.holder).(parent := w.parent[i := INIT]);
    OneGo(w, p, NPROC + 1);
    WakeAlone(w1, p, ExitWakeInit(i, 0), 0, OnProc(INIT));
    GoesOn(w1, p, NPROC, 1);
    StillRunning(w, p, OnProc(INIT), 0);
    GiveLast(w, p, i, WokenFrom(w.st, w.chan, p, OnProc(INIT), 0));
    OneGo(Goes(w1, p, NPROC), p, 0);
  }

  /** reparent: all children go to init. */
  lemma {:induction false} ReparentAlone(w: World, p: nat, i: nat) returns (k: nat)
    requires Alone(w, p) && w.pc[p] == ExitScan(i) && i <= NPROC && p != INIT
    ensures Goes(w, p, k) == Reparented(w, p, i)
    decreases NPROC - i
  {
    hide Next, Alone, Reparented, GaveOne, At;
    AloneSized(w, p);
    if i == NPROC {
      ReparentNone(w, p);
      OneGo(w, p, 0);
      k := 0;
    } else if w.parent[i] != p {
      ExitPass(w, p, i);
      AtFacts(w, p, ExitScan(i + 1), w.holder);
      var k1 := ReparentAlone(At(w, p, ExitScan(i + 1), w.holder), p, i + 1);
      OneGo(w, p, k1);
      k := k1 + 1;
    } else {
      GiveOne(w, p, i);
      GaveFacts(w, p, i);
      var k1 := ReparentAlone(GaveOne(w, p, i), p, i + 1);
      GoesOn(w, p, NPROC + 2, k1);
      k := NPROC + 2 + k1;
    }
  }

  /** The end of exit: the parent is woken and p is a zombie that has left the CPU. */
  lemma BuryStart(w: World, p: nat)
    requires Alone(w, p) && w.pc[p] == ExitScan(NPROC)
    ensures var w1 := At(w, p, ExitWakeParent(0), w.holder); Next(w, Go(p, false)) == w1
  {
  }

  lemma BuryEnd(w: World, p: nat, s: seq<Status>)
    requires Alone(w, p) && |s| == NPROC && s[p] == Running
    ensures Goes(Roused(w, p, ExitWakeParent(NPROC), s), p, 5) ==
      Roused(w, p, Gone, s[p := Zombie]).(holder := w.holder - {WaitL})
  {
    var w1 := Roused(w, p, ExitWakeParent(NPROC), s);
    var w2, w3 := Roused(w, p, ExitLock, s), Roused(w, p, ExitHold, s);
    var w4 := Roused(w, p, ExitZombie, s[p := Zombie]);
    var w5 := Roused(w, p, ExitGone, s[p := Zombie]).(holder := w.holder - {WaitL});
    assert Next(w1, Go(p, false)) == w2;
    assert Next(w2, Go(p, false)) == w3;
    assert Next(w3, Go(p, false)) == w4;
    BuryLast(w, p, s);
    hide Next, Roused;
    OneGo(w1, p, 4);
    OneGo(w2, p, 3);
    OneGo(w3, p, 2);
    OneGo(w4, p, 1);
    OneGo(w5, p, 0);
  }

  lemma BuryLast(w: World, p: nat, s: seq<Status>)
    requires Alone(w, p) && |s| == NPROC && s[p] == Running
    ensures var w4 := Roused(w, p, ExitZombie, s[p := Zombie]);
      var w5 := Roused(w, p, ExitGone, s[p := Zombie]).(holder := w.holder - {WaitL});
      && Next(w4, Go(p, false)) == w5
      && Next(w5, Go(p, false)) == Roused(w, p, Gone, s[p := Zombie]).(holder := w.holder - {WaitL})
  {
  }

  lemma BuryAlone(w: World, p: nat)
    requires Alone(w, p) && w.pc[p] == ExitScan(NPROC)
    ensures Goes(w, p, NPROC + 6) ==
      Roused(w, p, Gone, WokenFrom(w.st, w.chan, p, OnProc(w.parent[p]), 0)[p := Zombie]).(holder := w.holder - {WaitL})
  {
    hide Next, Alone, WokenFrom, Roused, At;
    AloneSized(w, p);
    BuryStart(w, p);
    var w1 := At(w, p, ExitWakeParent(0), w.holder);
    AtFacts(w, p, ExitWakeParent(0), w.holder);
    OneGo(w, p, NPROC + 5);
    WakeAlone(w1, p, ExitWakeParent(0), 0, OnProc(w.parent[p]));
    GoesOn(w1, p, NPROC, 5);
    var s := WokenFrom(w.st, w.chan, p, OnProc(w.parent[p]), 0);
    StillRunning(w, p, OnProc(w.parent[p]), 0);
    BuryEnd(w1, p, s);
    RousedAt(w, p, ExitWakeParent(0), Gone, s[p := Zombie]);
  }

  lemma RousedAt(w: World, p: nat, c: Pc, c1: Pc, s: seq<Status>)
    requires Sized(w) && p < NPROC && |s| == NPROC
    ensures Roused(At(w, p, c, w.holder), p, c1, s) == Roused(w, p, c1, s)
  {
  }

  /** exit: p is a zombie off the CPU, its children are init's, and init, if there are any,
      and the parent are no longer asleep in wait. */
  lemma ExitAlone(w: World, p: nat) returns (k: nat)
    requires Alone(w, p) && w.pc[p] == Idle && WaitL !in w.holder && p != INIT && w.parent[p] != p
    ensures var s := WokenFrom(InitWoken(w, p, 0), w.chan, p, OnProc(w.parent[p]), 0);
      Goes(Next(w, Exit(p)), p, k) ==
        w.(st := s[p := Zombie], pc := w.pc[p := Gone], parent := GivenFrom(w.parent, p, 0))
  {
    var w1 := At(w, p, ExitScan(0), w.holder[WaitL := p]);
    assert Next(w, Exit(p)) == w1;
    hide Next, Alone, Reparented, WokenFrom, At;
    AloneSized(w, p);
    AtFacts(w, p, ExitScan(0), w.holder[WaitL := p]);
    var k1 := ReparentAlone(w1, p, 0);
    ReparentedFacts(w, p);
    BuryAlone(Reparented(w1, p, 0), p);
    GoesOn(w1, p, k1, NPROC + 6);
    k := k1 + (NPROC + 6);
    ExitedFacts(w, p, WokenFrom(InitWoken(w, p, 0), w.chan, p, OnProc(w.parent[p]), 0)[p := Zombie]);
  }

  lemma ReparentedFacts(w: World, p: nat)
    requires Alone(w, p) && p != INIT && w.parent[p] != p
    ensures var w1 := At(w, p, ExitScan(0), w.holder[WaitL := p]); var w2 := Reparented(w1, p, 0);
      && Alone(w2, p) && w2.pc[p] == ExitScan(NPROC) && w2.parent[p] == w.parent[p] && w2.chan == w.chan
      && w2.st == InitWoken(w, p, 0)
  {
  }

  lemma ExitedFacts(w: World, p: nat, s: seq<Status>)
    requires Sized(w) && p < NPROC && WaitL !in w.holder && |s| == NPROC
    ensures var w2 := Reparented(At(w, p, ExitScan(0), w.holder[WaitL := p]), p, 0);
      Roused(w2, p, Gone, s).(holder := w2.holder - {WaitL}) ==
        w.(st := s, pc := w.pc[p := Gone], parent := GivenFrom(w.parent, p, 0))
  {
    TakeDrop(w.holder, WaitL, p);
  }
}
