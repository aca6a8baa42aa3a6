/** What every step of the process table keeps, and how a change of one process keeps
    it. */
module ProcInvariant {
  import opened ProcTable

  /** Holds lock lk across steps. */
  predicate Has(c: Pc, lk: Lock) {
    match c
    case ForkWait(_) => lk == WaitL
    case ExitScan(_) => lk == WaitL
    case ExitWakeInit(_, _) => lk == WaitL
    case ExitWakeParent(_) => lk == WaitL
    case ExitLock => lk == WaitL
    case ExitHold => lk == WaitL
    case ExitZombie => lk == WaitL
    case WaitScan(_, _) => lk == WaitL
    case SleepOn(k) => lk == k
    case SleepHold(k) => lk == k
    case AcqCheck(l) => lk == Guard(l)
    case RelSet(l) => lk == Guard(l)
    case RelWake(l, _) => lk == Guard(l)
    case _ => false
  }

  /** How far an exiting process has given its children away. */
  function Scanned(c: Pc): (n: int) {
    match c
    case ExitScan(i) => i
    case ExitWakeInit(i, _) => i + 1
    case ExitWakeParent(_) => NPROC
    case ExitLock => NPROC
    case ExitHold => NPROC
    case ExitZombie => NPROC
    case ExitGone => NPROC
    case Gone => NPROC
    case _ => 0
  }

  /** Has let go of lk in sleep and has not been woken. */
  predicate Sleepish(c: Pc, s: Status, lk: Lock) {
    c == SleepCommit(lk) || c == SleepSet(lk) || (c == Asleep(lk) && s == Sleeping)
  }

  /** In exit, before taking p->lock. */
  predicate Exiting(c: Pc) {
    c.ExitScan? || c.ExitWakeInit? || c.ExitWakeParent? || c.ExitLock?
  }

  // ---- the invariant ----

  ghost predicate Shape(p: int, s: Status, c: Pc, ch: Chan) {
    match s
    case Unused => c == Idle && p != INIT
    case Used => c == Idle && p != INIT
    case Zombie => (c == ExitZombie || c == ExitGone || c == Gone) && p != INIT
    case Sleeping => (c.SleepSet? || c.Asleep?) && ch == ChanOf(p, c.lk)
    case Runnable => c.Asleep? || (!HasOwn(c) && !c.Gone? && forall lk :: !Has(c, lk))
    case Running =>
      !c.SleepSet? && !c.Asleep? && !c.ExitZombie? && !c.ExitGone? && !c.Gone? && (p == INIT ==> !Exiting(c) && !c.ExitHold?)
  }

  ghost predicate Shapes(st: seq<Status>, pc: seq<Pc>, chan: seq<Chan>) {
    |st| == NPROC && |pc| == NPROC && |chan| == NPROC
    && forall p :: 0 <= p < NPROC ==> Shape(p, st[p], pc[p], chan[p])
  }

  /** Process p holds lk. */
  predicate By(holder: map<Lock, int>, lk: Lock, p: int) {
    lk in holder && holder[lk] == p
  }

  /** The lock variables name the processes that hold the locks. */
  ghost predicate Holders(pc: seq<Pc>, holder: map<Lock, int>) {
    |pc| == NPROC && forall p, lk :: 0 <= p < NPROC ==>
      (Has(pc[p], lk) <==> By(holder, lk, p))
  }

  /** The process this one is making, -1 for none. */
  function Made(c: Pc): (np: int) {
    if c.ForkAlloc? || c.ForkWait? || c.ForkRun? then c.np else -1
  }

  /** A process being made has one maker, and no parent before its maker. */
  ghost predicate Forks(st: seq<Status>, pc: seq<Pc>, parent: seq<int>) {
    && |st| == NPROC && |pc| == NPROC && |parent| == NPROC
    && (forall p :: 0 <= p < NPROC && Made(pc[p]) != -1 ==>
          0 <= Made(pc[p]) < NPROC && st[Made(pc[p])] == Used
          && parent[Made(pc[p])] == if pc[p].ForkRun? then p else -1)
    && forall p, q :: 0 <= p < q < NPROC && Made(pc[p]) != -1 ==> Made(pc[p]) != Made(pc[q])
  }

  /** Children have live parents that have not given them away. */
  ghost predicate Parents(st: seq<Status>, pc: seq<Pc>, parent: seq<int>) {
    && |st| == NPROC && |pc| == NPROC && |parent| == NPROC && parent[INIT] == -1
    && (forall c :: 0 <= c < NPROC && parent[c] != -1 ==>
          && st[c] != Unused && 0 <= parent[c] < NPROC && parent[c] != c
          && st[parent[c]] != Unused && st[parent[c]] != Used && c >= Scanned(pc[parent[c]]))
    && forall c :: 0 <= c < NPROC && c != INIT && st[c] != Unused && st[c] != Used ==> parent[c] != -1
  }

  /** Some process is on its way to waking init. */
  ghost predicate WakingInit(pc: seq<Pc>, holder: map<Lock, int>) {
    WaitL in holder && 0 <= holder[WaitL] < |pc| && pc[holder[WaitL]].ExitWakeInit? && pc[holder[WaitL]].j <= INIT
  }

  /** What wait relies on. */
  ghost predicate Waits(st: seq<Status>, pc: seq<Pc>, parent: seq<int>, holder: map<Lock, int>) {
    && |st| == NPROC && |pc| == NPROC && |parent| == NPROC
    && (forall p, c :: 0 <= p < NPROC && ZombieChild(st, parent, p, c) ==>
          && (pc[p].WaitScan? ==> c >= pc[p].i)
          && pc[p] != SleepOn(WaitL) && pc[p] != SleepHold(WaitL)
          && (Sleepish(pc[p], st[p], WaitL) ==> p == INIT && WakingInit(pc, holder)))
    && (forall e :: 0 <= e < NPROC && Woke(pc[e], parent[e]) && 0 <= parent[e] < NPROC ==>
          !Sleepish(pc[parent[e]], st[parent[e]], WaitL))
  }

  /** An exiting process that has woken its parent and not yet released wait_lock. */
  predicate Woke(c: Pc, parent: int) {
    (c.ExitWakeParent? && c.j > parent) || c.ExitLock? || c.ExitHold? || c.ExitZombie?
  }

  /** What sleepers on a sleep-lock rely on. */
  ghost predicate SleepLocks(st: seq<Status>, pc: seq<Pc>, locked: seq<bool>, holder: map<Lock, int>) {
    && |st| == NPROC && |pc| == NPROC
    && forall p, l :: 0 <= p < NPROC && 0 <= l < |locked| && !locked[l] ==>
         && pc[p] != SleepOn(Guard(l)) && pc[p] != SleepHold(Guard(l))
         && (Sleepish(pc[p], st[p], Guard(l)) ==> WakingLock(pc, holder, l, p))
  }

  /** Some process releasing sleep-lock l has still to look at p. */
  ghost predicate WakingLock(pc: seq<Pc>, holder: map<Lock, int>, l: int, p: int) {
    Guard(l) in holder && 0 <= holder[Guard(l)] < |pc|
    && pc[holder[Guard(l)]].RelWake? && pc[holder[Guard(l)]].l == l && pc[holder[Guard(l)]].j <= p
  }

  lemma NoLostExitNow(
    st: seq<Status>, pc: seq<Pc>, parent: seq<int>, chan: seq<Chan>, holder: map<Lock, int>)
    requires Shapes(st, pc, chan) && Waits(st, pc, parent, holder)
    ensures NoLostExit(st, parent, chan, holder)
  {
    forall p, c | 0 <= p < NPROC && st[p] == Sleeping && chan[p] == OnProc(p) && ZombieChild(st, parent, p, c)
      ensures WaitL in holder
    {
      assert Shape(p, st[p], pc[p], chan[p]);
      assert Sleepish(pc[p], st[p], WaitL);
    }
  }

  lemma LiveParentsNow(st: seq<Status>, pc: seq<Pc>, parent: seq<int>, chan: seq<Chan>)
    requires Shapes(st, pc, chan) && Parents(st, pc, parent)
    ensures LiveParents(st, parent)
  {
    forall c | 0 <= c < NPROC && c != INIT && st[c] != Unused && st[c] != Used
      ensures 0 <= parent[c] < NPROC && st[parent[c]] != Unused && st[parent[c]] != Zombie
    {
      assert Shape(parent[c], st[parent[c]], pc[parent[c]], chan[parent[c]]);
    }
  }

  lemma NoLostUnlockNow(st: seq<Status>, pc: seq<Pc>, chan: seq<Chan>, locked: seq<bool>, holder: map<Lock, int>)
    requires Shapes(st, pc, chan) && SleepLocks(st, pc, locked, holder)
    ensures NoLostUnlock(st, chan, locked, holder)
  {
    forall p, l | (0 <= p < NPROC && 0 <= l < |locked| && Guard(l) !in holder && st[p] == Sleeping && chan[p] == OnLock(l))
      ensures locked[l]
    {
      assert Shape(p, st[p], pc[p], chan[p]);
      assert Sleepish(pc[p], st[p], Guard(l));
    }
  }

  // ---- one process changes ----

  ghost predicate Inv(w: World) {
    && Shapes(w.st, w.pc, w.chan) && Holders(w.pc, w.holder) && Forks(w.st, w.pc, w.parent)
    && Parents(w.st, w.pc, w.parent) && Waits(w.st, w.pc, w.parent, w.holder)
    && SleepLocks(w.st, w.pc, w.locked, w.holder)
  }

  lemma ShapesPut(st: seq<Status>, pc: seq<Pc>, chan: seq<Chan>, p: nat, s: Status, c: Pc, ch: Chan)
    requires Shapes(st, pc, chan) && p < NPROC && Shape(p, s, c, ch)
    ensures Shapes(st[p := s], pc[p := c], chan[p := ch])
  {
    hide Shape;
  }

  /** holder1 differs from holder at most in what p holds, and p holds what c says. */
  ghost predicate Handover(holder: map<Lock, int>, holder1: map<Lock, int>, p: int, c: Pc) {
    && (forall lk :: By(holder1, lk, p) <==> Has(c, lk))
    && forall lk, q :: q != p ==> (By(holder1, lk, q) <==> By(holder, lk, q))
  }

  lemma HoldersPut(pc: seq<Pc>, holder: map<Lock, int>, p: nat, c: Pc, holder1: map<Lock, int>)
    requires Holders(pc, holder) && p < NPROC && Handover(holder, holder1, p, c)
    ensures Holders(pc[p := c], holder1)
  {
    hide Has;
  }

  /** p may go on to c as far as the process it makes is concerned. */
  ghost predicate ForkOk(st: seq<Status>, pc: seq<Pc>, parent: seq<int>, p: int, s: Status, c: Pc)
    requires |st| == NPROC && |pc| == NPROC && |parent| == NPROC && 0 <= p < NPROC
  {
    && (st[p] == Used && s != Used ==> forall q :: 0 <= q < NPROC ==> Made(pc[q]) != p)
    && (|| Made(c) == -1
        || (Made(c) == Made(pc[p]) && (c.ForkRun? <==> pc[p].ForkRun?))
        || (c.ForkAlloc? && 0 <= c.np < NPROC && c.np != p && st[c.np] == Used && parent[c.np] == -1
            && forall q :: 0 <= q < NPROC ==> Made(pc[q]) != c.np))
  }

  lemma ForksPut(st: seq<Status>, pc: seq<Pc>, parent: seq<int>, p: nat, s: Status, c: Pc)
    requires Forks(st, pc, parent) && p < NPROC && ForkOk(st, pc, parent, p, s, c)
    ensures Forks(st[p := s], pc[p := c], parent)
  {
  }

  ghost predicate Live(s: Status) {
    s != Unused && s != Used
  }

  /** ... as far as its parent and its children are concerned. */
  ghost predicate ParentOk(parent: seq<int>, p: int, s: Status, c: Pc)
    requires |parent| == NPROC && 0 <= p < NPROC
  {
    && (parent[p] != -1 ==> s != Unused) && (p != INIT && Live(s) ==> parent[p] != -1)
    && forall k :: 0 <= k < NPROC && parent[k] == p ==> Live(s) && k >= Scanned(c)
  }

  lemma ParentsPut(st: seq<Status>, pc: seq<Pc>, parent: seq<int>, p: nat, s: Status, c: Pc)
    requires Parents(st, pc, parent) && p < NPROC && ParentOk(parent, p, s, c)
    ensures Parents(st[p := s], pc[p := c], parent)
  {
    hide Scanned;
  }

  /** A process that does nothing about zombie children. */
  predicate Calm(c: Pc, s: Status) {
    !c.WaitScan? && c != SleepOn(WaitL) && c != SleepHold(WaitL) && !Sleepish(c, s, WaitL)
  }

  /** ... as far as sleeping in wait is concerned: its own zombie children, its
      sleeping under an exiting child, its waking its parent, its becoming a zombie,
      and its waking init. */
  ghost predicate WaitOk(st: seq<Status>, pc: seq<Pc>, parent: seq<int>, p: int, s: Status, c: Pc)
    requires |st| == NPROC && |pc| == NPROC && |parent| == NPROC && 0 <= p < NPROC
  {
    && (forall k :: k != p && ZombieChild(st, parent, p, k) ==>
          && (c.WaitScan? ==> k >= c.i) && c != SleepOn(WaitL) && c != SleepHold(WaitL)
          && (Sleepish(c, s, WaitL) ==> Sleepish(pc[p], st[p], WaitL)))
    && (Sleepish(c, s, WaitL) && !Sleepish(pc[p], st[p], WaitL) ==>
          forall e :: 0 <= e < NPROC && Woke(pc[e], parent[e]) ==> parent[e] != p)
    && (Woke(c, parent[p]) && 0 <= parent[p] < NPROC ==>
          parent[p] != p && !Sleepish(pc[parent[p]], st[parent[p]], WaitL))
    && (s == Zombie && st[p] != Zombie && 0 <= parent[p] < NPROC ==>
          parent[p] != p && Calm(pc[parent[p]], st[parent[p]]))
    && (pc[p].ExitWakeInit? && pc[p].j <= INIT ==> p != INIT && !Sleepish(pc[INIT], st[INIT], WaitL))
    && parent[p] != p
  }

  lemma WaitsPut(
    st: seq<Status>, pc: seq<Pc>, parent: seq<int>, holder: map<Lock, int>,
    p: nat, s: Status, c: Pc, holder1: map<Lock, int>)
    requires Waits(st, pc, parent, holder) && p < NPROC && WaitOk(st, pc, parent, p, s, c)
    requires Handover(holder, holder1, p, c)
    ensures Waits(st[p := s], pc[p := c], parent, holder1)
  {
    hide Woke, Has, Sleepish;
    var st1, pc1 := st[p := s], pc[p := c];
    if WakingInit(pc, holder) {
      assert By(holder, WaitL, holder[WaitL]);
      assert WakingInit(pc1, holder1) || !Sleepish(pc1[INIT], st1[INIT], WaitL);
    }
    forall q, k | 0 <= q < NPROC && ZombieChild(st1, parent, q, k)
      ensures (pc1[q].WaitScan? ==> k >= pc1[q].i) && pc1[q] != SleepOn(WaitL) && pc1[q] != SleepHold(WaitL)
      ensures Sleepish(pc1[q], st1[q], WaitL) ==> q == INIT && WakingInit(pc1, holder1)
    {
      if k != p { assert ZombieChild(st, parent, q, k); }
      if k == p && st[p] == Zombie { assert ZombieChild(st, parent, q, k); }
    }
  }

  /** ... as far as sleepers on sleep-locks are concerned. */
  ghost predicate LockOk(st: seq<Status>, pc: seq<Pc>, locked: seq<bool>, p: int, s: Status, c: Pc)
    requires |st| == NPROC && |pc| == NPROC && 0 <= p < NPROC
  {
    && (forall l :: 0 <= l < |locked| && !locked[l] ==>
          && c != SleepOn(Guard(l)) && c != SleepHold(Guard(l))
          && (Sleepish(c, s, Guard(l)) ==> Sleepish(pc[p], st[p], Guard(l))))
    && (pc[p].RelWake? ==> forall q :: 0 <= q < NPROC && pc[p].j <= q && Sleepish(pc[q], st[q], Guard(pc[p].l)) ==>
          c.RelWake? && c.l == pc[p].l && c.j <= q)
  }

  lemma SleepLocksPut(
    st: seq<Status>, pc: seq<Pc>, locked: seq<bool>, holder: map<Lock, int>,
    p: nat, s: Status, c: Pc, holder1: map<Lock, int>)
    requires SleepLocks(st, pc, locked, holder) && p < NPROC && LockOk(st, pc, locked, p, s, c)
    requires Handover(holder, holder1, p, c)
    ensures SleepLocks(st[p := s], pc[p := c], locked, holder1)
  {
    hide Sleepish;
    var st1, pc1 := st[p := s], pc[p := c];
    forall q, l | 0 <= q < NPROC && 0 <= l < |locked| && !locked[l] && Sleepish(pc1[q], st1[q], Guard(l))
      ensures WakingLock(pc1, holder1, l, q)
    {
      assert Sleepish(pc[q], st[q], Guard(l));
      assert By(holder, Guard(l), holder[Guard(l)]);
      if holder[Guard(l)] == p { assert By(holder1, Guard(l), p); }
    }
  }

  ghost predicate StepOk(w: World, p: nat, s: Status, c: Pc, ch: Chan, holder1: map<Lock, int>) {
    && |w.st| == NPROC && |w.pc| == NPROC && |w.parent| == NPROC && |w.chan| == NPROC && p < NPROC
    && Shape(p, s, c, ch) && Handover(w.holder, holder1, p, c)
    && ForkOk(w.st, w.pc, w.parent, p, s, c) && ParentOk(w.parent, p, s, c)
    && WaitOk(w.st, w.pc, w.parent, p, s, c) && LockOk(w.st, w.pc, w.locked, p, s, c)
  }

  /** A change of one process under these conditions keeps the invariant. */
  lemma OneStep(w: World, p: nat, s: Status, c: Pc, ch: Chan, holder1: map<Lock, int>)
    requires Inv(w) && StepOk(w, p, s, c, ch, holder1)
    ensures Inv(Put(w, p, s, c, ch).(holder := holder1))
  {
    hide ForkOk, ParentOk, WaitOk, LockOk, Handover, Shape, Shapes, Holders, Forks, Parents, Waits, SleepLocks;
    ShapesPut(w.st, w.pc, w.chan, p, s, c, ch);
    HoldersPut(w.pc, w.holder, p, c, holder1);
    ForksPut(w.st, w.pc, w.parent, p, s, c);
    ParentsPut(w.st, w.pc, w.parent, p, s, c);
    WaitsPut(w.st, w.pc, w.parent, w.holder, p, s, c, holder1);
    SleepLocksPut(w.st, w.pc, w.locked, w.holder, p, s, c, holder1);
  }

  // ---- the lock variables ----

  ghost predicate SameLocks(c0: Pc, c: Pc) {
    forall lk :: Has(c, lk) <==> Has(c0, lk)
  }

  ghost predicate OnlyLock(c: Pc, lk: Lock) {
    forall k :: Has(c, k) <==> k == lk
  }

  ghost predicate NoLock(c: Pc) {
    forall k :: !Has(c, k)
  }

  lemma Keep(pc: seq<Pc>, holder: map<Lock, int>, p: int, c: Pc)
    requires Holders(pc, holder) && 0 <= p < NPROC && SameLocks(pc[p], c)
    ensures Handover(holder, holder, p, c)
  {
    hide Has;
  }

  lemma Take(pc: seq<Pc>, holder: map<Lock, int>, p: int, lk: Lock, c: Pc)
    requires Holders(pc, holder) && 0 <= p < NPROC && lk !in holder
    requires NoLock(pc[p]) && OnlyLock(c, lk)
    ensures Handover(holder, holder[lk := p], p, c)
  {
    hide Has;
    forall k ensures By(holder[lk := p], k, p) <==> Has(c, k) { assert By(holder, k, p) <==> Has(pc[p], k); }
  }

  lemma Drop(pc: seq<Pc>, holder: map<Lock, int>, p: int, lk: Lock, c: Pc)
    requires Holders(pc, holder) && 0 <= p < NPROC
    requires OnlyLock(pc[p], lk) && NoLock(c)
    ensures Handover(holder, holder - {lk}, p, c)
  {
    hide Has;
    assert By(holder, lk, p);
    forall k ensures By(holder - {lk}, k, p) <==> Has(c, k) { assert By(holder, k, p) <==> Has(pc[p], k); }
  }

  /** Two processes do not hold one lock. */
  lemma Exclusive(pc: seq<Pc>, holder: map<Lock, int>, p: int, q: int, lk: Lock)
    requires Holders(pc, holder) && 0 <= p < NPROC && 0 <= q < NPROC && p != q && Has(pc[p], lk)
    ensures !Has(pc[q], lk)
  {
    assert By(holder, lk, p);
  }

  // ---- steps that concern nobody else ----

  ghost predicate QuietF(s0: Status, c0: Pc, s: Status, c: Pc) {
    && (Live(s) <==> Live(s0)) && (s == Unused <==> s0 == Unused) && Scanned(c) <= Scanned(c0)
    && (Made(c) == -1 || (Made(c) == Made(c0) && (c.ForkRun? <==> c0.ForkRun?)))
  }

  ghost predicate QuietW(s0: Status, c0: Pc, s: Status, c: Pc) {
    && (c.WaitScan? ==> c.i == 0) && c != SleepOn(WaitL) && c != SleepHold(WaitL)
    && (Sleepish(c, s, WaitL) ==> Sleepish(c0, s0, WaitL)) && (s == Zombie ==> s0 == Zombie)
    && (forall q :: 0 <= q < NPROC && Woke(c, q) ==> Woke(c0, q)) && (c0.ExitWakeInit? ==> c0.j > INIT)
  }

  ghost predicate QuietL(s0: Status, c0: Pc, s: Status, c: Pc) {
    && (forall l :: c != SleepOn(Guard(l)) && c != SleepHold(Guard(l)))
    && (forall l :: Sleepish(c, s, Guard(l)) ==> Sleepish(c0, s0, Guard(l))) && (c0.RelWake? ==> c0.j >= NPROC)
  }

  ghost predicate Quiet(s0: Status, c0: Pc, s: Status, c: Pc) {
    QuietF(s0, c0, s, c) && QuietW(s0, c0, s, c) && QuietL(s0, c0, s, c)
  }

  lemma QuietStep(w: World, p: nat, s: Status, c: Pc, ch: Chan, holder1: map<Lock, int>)
    requires Inv(w) && p < NPROC && Quiet(w.st[p], w.pc[p], s, c)
    requires Shape(p, s, c, ch) && Handover(w.holder, holder1, p, c)
    ensures Inv(Put(w, p, s, c, ch).(holder := holder1))
  {
    QuietFork(w.st, w.pc, w.parent, p, s, c);
    QuietWait(w.st, w.pc, w.parent, w.holder, p, s, c);
    QuietLock(w.st, w.pc, w.locked, w.holder, p, s, c);
    hide ForkOk, ParentOk, WaitOk, LockOk, Handover, Shape, Shapes, Holders, Forks, Parents, Waits, SleepLocks;
    OneStep(w, p, s, c, ch, holder1);
  }

  lemma QuietFork(st: seq<Status>, pc: seq<Pc>, parent: seq<int>, p: nat, s: Status, c: Pc)
    requires Forks(st, pc, parent) && Parents(st, pc, parent) && p < NPROC && QuietF(st[p], pc[p], s, c)
    ensures ForkOk(st, pc, parent, p, s, c) && ParentOk(parent, p, s, c)
  {
  }

  lemma QuietWait(
    st: seq<Status>, pc: seq<Pc>, parent: seq<int>, holder: map<Lock, int>, p: nat, s: Status, c: Pc)
    requires Waits(st, pc, parent, holder) && Parents(st, pc, parent) && p < NPROC && QuietW(st[p], pc[p], s, c)
    ensures WaitOk(st, pc, parent, p, s, c)
  {
    hide Woke, Sleepish;
  }

  lemma QuietLock(st: seq<Status>, pc: seq<Pc>, locked: seq<bool>, holder: map<Lock, int>, p: nat, s: Status, c: Pc)
    requires SleepLocks(st, pc, locked, holder) && p < NPROC && QuietL(st[p], pc[p], s, c)
    ensures LockOk(st, pc, locked, p, s, c)
  {
    hide Sleepish;
  }

  lemma ShapeNow(w: World, p: int)
    requires Inv(w) && 0 <= p < NPROC
    ensures Sized(w) && Shape(p, w.st[p], w.pc[p], w.chan[p])
  {
  }

  lemma Parts(w: World)
    requires Inv(w)
    ensures Sized(w) && Shapes(w.st, w.pc, w.chan) && Holders(w.pc, w.holder) && Forks(w.st, w.pc, w.parent)
    ensures Parents(w.st, w.pc, w.parent) && Waits(w.st, w.pc, w.parent, w.holder)
    ensures SleepLocks(w.st, w.pc, w.locked, w.holder)
  {
  }

  /** A move of p that keeps its status, channel and locks. */
  lemma QuietMove(w: World, p: nat, c: Pc)
    requires Inv(w) && p < NPROC && Quiet(w.st[p], w.pc[p], w.st[p], c) && Shape(p, w.st[p], c, w.chan[p])
    requires SameLocks(w.pc[p], c)
    ensures Inv(At(w, p, c, w.holder))
  {
    ShapeNow(w, p);
    hide Shapes, Holders, Forks, Parents, Waits, SleepLocks, Quiet, Shape, Has;
    Keep(w.pc, w.holder, p, c);
    QuietStep(w, p, w.st[p], c, w.chan[p], w.holder);
  }

  /** The same with a lock taken, with one released, and with a new status. */
  lemma QuietTake(w: World, p: nat, c: Pc, lk: Lock)
    requires Inv(w) && p < NPROC && Quiet(w.st[p], w.pc[p], w.st[p], c) && Shape(p, w.st[p], c, w.chan[p])
    requires lk !in w.holder && NoLock(w.pc[p]) && OnlyLock(c, lk)
    ensures Inv(At(w, p, c, w.holder[lk := p]))
  {
    ShapeNow(w, p);
    hide Shapes, Holders, Forks, Parents, Waits, SleepLocks, Quiet, Shape, Has;
    Take(w.pc, w.holder, p, lk, c);
    QuietStep(w, p, w.st[p], c, w.chan[p], w.holder[lk := p]);
  }

  lemma QuietDrop(w: World, p: nat, c: Pc, lk: Lock)
    requires Inv(w) && p < NPROC && Quiet(w.st[p], w.pc[p], w.st[p], c) && Shape(p, w.st[p], c, w.chan[p])
    requires OnlyLock(w.pc[p], lk) && NoLock(c)
    ensures Inv(At(w, p, c, w.holder - {lk}))
  {
    ShapeNow(w, p);
    hide Shapes, Holders, Forks, Parents, Waits, SleepLocks, Quiet, Shape, Has;
    Drop(w.pc, w.holder, p, lk, c);
    QuietStep(w, p, w.st[p], c, w.chan[p], w.holder - {lk});
  }

  lemma QuietStatus(w: World, p: nat, s: Status, c: Pc, ch: Chan)
    requires Inv(w) && p < NPROC && Quiet(w.st[p], w.pc[p], s, c) && Shape(p, s, c, ch)
    requires SameLocks(w.pc[p], c)
    ensures Inv(Put(w, p, s, c, ch))
  {
    ShapeNow(w, p);
    hide Shapes, Holders, Forks, Parents, Waits, SleepLocks, Quiet, Shape, Has;
    Keep(w.pc, w.holder, p, c);
    QuietStep(w, p, s, c, ch, w.holder);
    assert Put(w, p, s, c, ch).(holder := w.holder) == Put(w, p, s, c, ch);
  }

  lemma Whole(w: World)
    requires Shapes(w.st, w.pc, w.chan) && Holders(w.pc, w.holder) && Forks(w.st, w.pc, w.parent)
    requires Parents(w.st, w.pc, w.parent) && Waits(w.st, w.pc, w.parent, w.holder)
    requires SleepLocks(w.st, w.pc, w.locked, w.holder)
    ensures Inv(w)
  {
  }
}
