/** log.c as a protocol: operations open, modify and log buffers, and close in
    any interleaving; the last one out commits, one bwrite at a time; the
    machine may crash between any two steps, also while recovering. */
module LogProtocol {
  import opened LogDisk
  import opened Params
  import opened RedoLog

  type Op = nat

  /** One buffer modification made on behalf of an operation. */
  datatype Update = Update(op: Op, b: int, data: Block)

  /** Where the committing process (end_op) or the recovering one is. */
  datatype Phase =
    | Running
    | Copying(tail: nat)     // write_log
    | Heading                // first write_head
    | Installing(tail: nat)  // install_trans
    | Erasing                // second write_head
    | Finishing              // about to clear log.committing
    | Booted                 // recover_from_log, before read_head
    | Redoing(tail: nat)     // install_trans(1)
    | Resetting              // write_head of the empty header

  datatype Halt = None | TooBig | OutsideTransaction | EndWhileCommitting

  /** log.outstanding, the open operations with the new blocks each has
      appended, and the buffers modified but not yet passed to log_write. */
  datatype Ops = Ops(outstanding: int, open: map<Op, nat>, held: map<int, Op>)

  /** `trace`, `durable` and `used` are history: every update in order, how many
      of them a crash now would keep, and the operations ever begun. */
  datatype State = State(
    disk: Image, cache: map<int, Block>, lh: seq<int>, committing: bool, ops: Ops,
    phase: Phase, halt: Halt, trace: seq<Update>, durable: nat, used: set<Op>)

  /** `limit` is how many new blocks an operation may append. */
  datatype Config = Config(g: Geometry, base: Image, limit: nat)

  datatype Step =
    | Begin(op: Op) | Modify(op: Op, b: int, data: Block) | LogWrite(op: Op, b: int) | End(op: Op)
    | Io | Crash

  const Quiet := Ops(0, map[], map[])

  function Boot(d: Image, trace: seq<Update>, used: set<Op>): (s: State) {
    State(d, map[], [], false, Quiet, Booted, None, trace, |trace|, used)
  }

  function Initial(c: Config): (s: State) {
    Boot(c.base, [], {})
  }

  ghost predicate Shaped(c: Config, disk: Image, lh: seq<int>, phase: Phase) {
    && |disk| == |c.base| && HeaderOk(c.g, disk) && Loggable(c.g, |disk|, lh)
    && ((phase.Copying? || phase.Installing? || phase.Redoing?) ==> phase.tail < |lh|)
  }

  /** begin_op's test that one more operation fits in the log. */
  predicate HasRoom(n: nat, outstanding: int) {
    n + (outstanding + 1) * MAXOPBLOCKS <= LOGSIZE
  }

  predicate Enabled(c: Config, s: State, step: Step) {
    step.Crash? || (s.halt.None? &&
    match step
    case Begin(op) =>
      s.phase.Running? && op !in s.used && !s.committing && HasRoom(|s.lh|, s.ops.outstanding)
    case Modify(op, b, data) =>
      op in s.ops.open && IsHome(c.g, |s.disk|, b) && (b in s.ops.held ==> s.ops.held[b] == op)
    case LogWrite(op, b) =>
      && op in s.ops.open && b in s.ops.held && s.ops.held[b] == op
      && (b in s.lh || s.ops.open[op] < c.limit)
    case End(op) => op in s.ops.open && op !in s.ops.held.Values
    case Io => !s.phase.Running?
    case Crash => true)
  }

  function AppendOrAbsorb(c: Config, s: State, op: Op, b: int): (t: State)
    requires op in s.ops.open
  {
    var logged := s.ops.(held := s.ops.held - {b});
    if |s.lh| >= LOGSIZE || |s.lh| >= c.g.size - 1 then s.(halt := TooBig)
    else if s.ops.outstanding < 1 then s.(halt := OutsideTransaction)
    else if b in s.lh then s.(ops := logged)
    else s.(lh := s.lh + [b], ops := logged.(open := s.ops.open[op := s.ops.open[op] + 1]))
  }

  function EndOp(s: State, op: Op): (t: State) {
    var t := s.(ops := Ops(s.ops.outstanding - 1, s.ops.open - {op}, s.ops.held));
    if s.committing then t.(halt := EndWhileCommitting)
    else if t.ops.outstanding == 0 then
      t.(committing := true, phase := if s.lh == [] then Finishing else Copying(0))
    else t
  }

  /** One bwrite (or one step without I/O) of commit() or recover_from_log(). */
  ghost function IoStep(c: Config, s: State): (t: State) {
    if !Shaped(c, s.disk, s.lh, s.phase) then s else
    match s.phase
    case Running => s
    case Copying(tail) =>
      var data := if s.lh[tail] in s.cache then s.cache[s.lh[tail]] else s.disk[s.lh[tail]];
      s.(disk := s.disk[Slot(c.g, tail) := data],
         phase := if tail + 1 < |s.lh| then Copying(tail + 1) else Heading)
    case Heading =>
      s.(disk := s.disk[c.g.start := PutHeader(s.disk[c.g.start], s.lh)], durable := |s.trace|,
         phase := if s.lh == [] then Erasing else Installing(0))
    case Installing(tail) =>
      s.(disk := s.disk[s.lh[tail] := s.disk[Slot(c.g, tail)]], cache := s.cache - {s.lh[tail]},
         phase := if tail + 1 < |s.lh| then Installing(tail + 1) else Erasing)
    case Erasing =>
      s.(lh := [], disk := s.disk[c.g.start := PutHeader(s.disk[c.g.start], [])], phase := Finishing)
    case Finishing => s.(committing := false, phase := Running)
    case Booted =>
      s.(lh := Header(c.g, s.disk), phase := if Header(c.g, s.disk) == [] then Resetting else Redoing(0))
    case Redoing(tail) =>
      s.(disk := s.disk[s.lh[tail] := s.disk[Slot(c.g, tail)]],
         phase := if tail + 1 < |s.lh| then Redoing(tail + 1) else Resetting)
    case Resetting =>
      s.(lh := [], disk := s.disk[c.g.start := PutHeader(s.disk[c.g.start], [])], phase := Running)
  }

  /** The state after an enabled step (and `s` itself when it is not enabled). */
  ghost function After(c: Config, s: State, step: Step): (t: State) {
    if !Enabled(c, s, step) || s.durable > |s.trace| then s else
    match step
    case Begin(op) =>
      s.(ops := s.ops.(outstanding := s.ops.outstanding + 1, open := s.ops.open[op := 0]), used := s.used + {op})
    case Modify(op, b, data) =>
      s.(cache := s.cache[b := data], ops := s.ops.(held := s.ops.held[b := op]),
         trace := s.trace + [Update(op, b, data)])
    case LogWrite(op, b) => AppendOrAbsorb(c, s, op, b)
    case End(op) => EndOp(s, op)
    case Io => IoStep(c, s)
    case Crash => Boot(s.disk, s.trace[..s.durable], s.used)
  }

  // ---- meaning of the history ----

  /** The image after all updates of a trace, as if each were written at once. */
  ghost function Written(base: Image, trace: seq<Update>): (d: Image)
    ensures |d| == |base|
  {
    if trace == [] then base
    else
      var d := Written(base, trace[..|trace| - 1]);
      var u := trace[|trace| - 1];
      if 0 <= u.b < |d| then d[u.b := u.data] else d
  }

  lemma WrittenSnoc(base: Image, trace: seq<Update>, u: Update)
    requires 0 <= u.b < |base|
    ensures Written(base, trace + [u]) == Written(base, trace)[u.b := u.data]
  {
    assert (trace + [u])[..|trace|] == trace;
  }

  ghost predicate Sound(c: Config) {
    HeaderOk(c.g, c.base)
  }

  /** The home blocks the first recovery establishes. */
  ghost function Start(c: Config): (d: Image)
    ensures |d| == |c.base|
  {
    if Sound(c) then Recovered(c.g, c.base) else c.base
  }

  /** What a crash now would leave after recovery. */
  ghost predicate Durable(c: Config, disk: Image, trace: seq<Update>, durable: nat) {
    durable <= |trace| && RecoversTo(c.g, disk, Written(Start(c), trace[..durable]))
  }

  /** Every operation's updates are all kept or all lost, and an operation that
      is still open loses all of them. */
  ghost predicate NoHalfVisible(trace: seq<Update>, durable: nat, open: set<Op>) {
    && (forall i, j :: 0 <= i < durable <= j < |trace| ==> trace[i].op != trace[j].op)
    && (forall i :: 0 <= i < durable <= |trace| ==> trace[i].op !in open)
  }

  // ---- the invariant ----

  ghost predicate OpsInv(ops: Ops, used: set<Op>) {
    && ops.outstanding == |ops.open| && ops.open.Keys <= used
    && (forall b :: b in ops.held ==> ops.held[b] in ops.open)
  }

  ghost predicate HistoryInv(trace: seq<Update>, durable: nat, open: set<Op>, used: set<Op>) {
    && (forall i :: 0 <= i < |trace| ==> trace[i].op in used)
    && NoHalfVisible(trace, durable, open)
  }

  /** Home blocks with the cache on top are what the updates say. */
  ghost predicate View(c: Config, disk: Image, cache: map<int, Block>, trace: seq<Update>) {
    && (forall b :: b in cache ==> IsHome(c.g, |disk|, b))
    && SameHome(c.g, Overlay(disk, cache), Written(Start(c), trace))
  }

  /** Blocks modified since the last commit are in the cache. */
  ghost predicate Pending(cache: map<int, Block>, trace: seq<Update>, durable: nat) {
    forall i :: durable <= i < |trace| ==> trace[i].b in cache
  }

  ghost predicate CacheIs(cache: map<int, Block>, lh: seq<int>, from: nat) {
    && (forall i :: from <= i < |lh| ==> lh[i] in cache)
    && (forall b :: b in cache ==> exists i :: from <= i < |lh| && lh[i] == b)
  }

  /** The first k log slots have been copied home. */
  ghost predicate Installed(g: Geometry, d: Image, lh: seq<int>, k: nat) {
    WellFormed(g, d) && Loggable(g, |d|, lh) && k <= |lh| && Replay(g, d, lh, k) == d
  }

  /** Before the commit point: the log on disk is empty and every update since
      the last commit is in the cache. */
  ghost predicate Uncommitted(
    c: Config, disk: Image, cache: map<int, Block>, lh: seq<int>, trace: seq<Update>, durable: nat)
  {
    && HeaderIs(c.g, disk, []) && Distinct(lh)
    && View(c, disk, cache, trace) && Pending(cache, trace, durable)
  }

  /** After the commit point: everything is durable, k blocks are installed and
      the rest are still pinned. */
  ghost predicate Committed(
    c: Config, disk: Image, cache: map<int, Block>, lh: seq<int>, trace: seq<Update>, k: nat)
  {
    && HeaderIs(c.g, disk, lh) && Distinct(lh) && View(c, disk, cache, trace)
    && Installed(c.g, disk, lh, k) && CacheIs(cache, lh, k) && SlotsHold(c.g, disk, lh, cache, k, |lh|)
  }

  ghost predicate PhaseInv(c: Config, s: State) {
    var uncommitted := Uncommitted(c, s.disk, s.cache, s.lh, s.trace, s.durable);
    var quiet := s.committing && s.ops == Quiet;
    var rebooting := !s.committing && s.ops == Quiet && s.cache == map[] && s.durable == |s.trace|;
    match s.phase
    case Running =>
      && !s.committing && uncommitted
      && (forall b :: b in s.cache <==> b in s.lh || b in s.ops.held)
      && (s.ops.outstanding == 0 ==> s.lh == [])
    case Copying(tail) =>
      && quiet && uncommitted && CacheIs(s.cache, s.lh, 0)
      && SlotsHold(c.g, s.disk, s.lh, s.cache, 0, tail)
    case Heading =>
      && quiet && uncommitted && CacheIs(s.cache, s.lh, 0)
      && SlotsHold(c.g, s.disk, s.lh, s.cache, 0, |s.lh|)
    case Installing(tail) =>
      quiet && s.durable == |s.trace| && Committed(c, s.disk, s.cache, s.lh, s.trace, tail)
    case Erasing =>
      quiet && s.durable == |s.trace| && Committed(c, s.disk, s.cache, s.lh, s.trace, |s.lh|)
    case Finishing => quiet && uncommitted && s.lh == [] && s.cache == map[]
    case Booted => rebooting
    case Redoing(tail) => rebooting && HeaderIs(c.g, s.disk, s.lh) && Installed(c.g, s.disk, s.lh, tail)
    case Resetting => rebooting && HeaderIs(c.g, s.disk, s.lh) && Installed(c.g, s.disk, s.lh, |s.lh|)
  }

  ghost predicate Inv(c: Config, s: State) {
    && Shaped(c, s.disk, s.lh, s.phase) && Durable(c, s.disk, s.trace, s.durable)
    && OpsInv(s.ops, s.used) && HistoryInv(s.trace, s.durable, s.ops.open.Keys, s.used)
    && (s.halt.None? || s.halt.TooBig?) && PhaseInv(c, s)
  }

  // ---- operations ----

  lemma CrashInv(c: Config, s: State)
    requires Inv(c, s)
    ensures Inv(c, After(c, s, Crash))
  {
    hide RecoversTo, Written, HeaderOk, Loggable, View, SlotsHold, Installed;
    var kept := s.trace[..s.durable];
    assert kept[..|kept|] == s.trace[..s.durable];
    assert Loggable(c.g, |s.disk|, []) by { EmptyLoggable(c, s.disk); }
  }

  lemma EmptyLoggable(c: Config, d: Image)
    requires HeaderOk(c.g, d)
    ensures Loggable(c.g, |d|, [])
  {
  }

  lemma BeginOps(ops: Ops, trace: seq<Update>, durable: nat, used: set<Op>, op: Op)
    requires OpsInv(ops, used) && HistoryInv(trace, durable, ops.open.Keys, used) && op !in used
    ensures OpsInv(Ops(ops.outstanding + 1, ops.open[op := 0], ops.held), used + {op})
    ensures HistoryInv(trace, durable, ops.open[op := 0].Keys, used + {op})
  {
    assert ops.open[op := 0].Keys == ops.open.Keys + {op};
  }

  lemma BeginInv(c: Config, s: State, op: Op)
    requires Inv(c, s) && Enabled(c, s, Begin(op))
    ensures Inv(c, After(c, s, Begin(op)))
  {
    assert s.ops.outstanding >= 0;
    hide RecoversTo, Written, HeaderOk, HeaderIs, View, HistoryInv, OpsInv, Distinct, Loggable, Pending, Shaped, Durable, Uncommitted, HasRoom;
    BeginOps(s.ops, s.trace, s.durable, s.used, op);
  }

  lemma ModifyView(c: Config, disk: Image, cache: map<int, Block>, trace: seq<Update>, u: Update)
    requires View(c, disk, cache, trace) && |disk| == |c.base| && IsHome(c.g, |disk|, u.b)
    ensures View(c, disk, cache[u.b := u.data], trace + [u])
  {
    WrittenSnoc(Start(c), trace, u);
  }

  lemma ModifyInv(c: Config, s: State, op: Op, b: int, data: Block)
    requires Inv(c, s) && Enabled(c, s, Modify(op, b, data))
    ensures Inv(c, After(c, s, Modify(op, b, data)))
  {
    hide RecoversTo, Written, HeaderOk, Loggable, View, HeaderIs, Distinct;
    var u := Update(op, b, data);
    assert (s.trace + [u])[..s.durable] == s.trace[..s.durable];
    ModifyView(c, s.disk, s.cache, s.trace, u);
  }

  lemma AppendKeeps(c: Config, total: nat, lh: seq<int>, b: int)
    requires Loggable(c.g, total, lh) && Distinct(lh) && b !in lh && IsHome(c.g, total, b)
    requires |lh| < LOGSIZE && |lh| < c.g.size - 1
    ensures Loggable(c.g, total, lh + [b]) && Distinct(lh + [b])
  {
  }

  lemma LogWriteInv(c: Config, s: State, op: Op, b: int)
    requires Inv(c, s) && Enabled(c, s, LogWrite(op, b))
    ensures Inv(c, After(c, s, LogWrite(op, b)))
  {
    var t := After(c, s, LogWrite(op, b));
    assert b in s.cache && IsHome(c.g, |s.disk|, b);
    hide Durable, HeaderOk, Loggable, View, HeaderIs, Distinct, HistoryInv, Pending, IsHome;
    assert t.ops.open.Keys == s.ops.open.Keys;
    if t.lh != s.lh { AppendKeeps(c, |s.disk|, s.lh, b); }
  }

  lemma EndOps(ops: Ops, trace: seq<Update>, durable: nat, used: set<Op>, op: Op)
    requires OpsInv(ops, used) && HistoryInv(trace, durable, ops.open.Keys, used)
    requires op in ops.open && op !in ops.held.Values
    ensures OpsInv(Ops(ops.outstanding - 1, ops.open - {op}, ops.held), used)
    ensures HistoryInv(trace, durable, (ops.open - {op}).Keys, used)
    ensures ops.outstanding >= 1
    ensures ops.outstanding == 1 ==> Ops(ops.outstanding - 1, ops.open - {op}, ops.held) == Quiet
  {
    assert (ops.open - {op}).Keys == ops.open.Keys - {op};
    if ops.outstanding == 1 {
      assert |(ops.open - {op}).Keys| == 0;
      assert forall b :: b !in ops.held;
    }
  }

  lemma RunningCache(cache: map<int, Block>, lh: seq<int>)
    requires forall b :: b in cache <==> b in lh
    ensures CacheIs(cache, lh, 0) && (lh == [] ==> cache == map[])
  {
    forall i | 0 <= i < |lh| ensures lh[i] in cache {
      var b := lh[i];
      assert b in lh;
      assert b in cache;
    }
    forall b | b in cache ensures exists i :: 0 <= i < |lh| && lh[i] == b { assert b in lh; }
    if lh == [] { assert forall b :: b !in cache; }
  }

  lemma EndInv(c: Config, s: State, op: Op)
    requires Inv(c, s) && Enabled(c, s, End(op))
    ensures Inv(c, After(c, s, End(op)))
  {
    assert s.phase.Running?;
    hide RecoversTo, Written, HeaderOk, HeaderIs, View, HistoryInv, OpsInv, Distinct, Loggable, Pending, Durable, Uncommitted, CacheIs;
    EndOps(s.ops, s.trace, s.durable, s.used, op);
    if s.ops.outstanding == 1 { RunningCache(s.cache, s.lh); }
  }

  // ---- commit and recovery ----

  /** Copying a log slot home does not change what a replay gives, and leaves
      one more slot installed. */
  lemma InstallSlot(g: Geometry, d: Image, e: Image, lh: seq<int>, k: nat, target: Image)
    requires HeaderOk(g, d) && HeaderIs(g, d, lh) && RecoversTo(g, d, target)
    requires Installed(g, d, lh, k) && k < |lh| && e == d[lh[k] := d[Slot(g, k)]]
    ensures HeaderOk(g, e) && HeaderIs(g, e, lh) && RecoversTo(g, e, target) && Installed(g, e, lh, k + 1)
  {
    hide IsHome;
    assert e[g.start] == d[g.start] && d[lh[k]] == d[lh[k]] by { HomeNotLog(g, d, lh, k); }
    assert Header(g, d) == lh && Header(g, e) == lh;
    var n := |lh|;
    forall b | 0 <= b < |d|
      ensures Replay(g, e, lh, n)[b] == Replay(g, d, lh, n)[b] && Replay(g, e, lh, k + 1)[b] == e[b]
    {
      InstallSlotAt(g, d, e, lh, k, b);
    }
    assert Replay(g, e, lh, n) == Replay(g, d, lh, n);
    assert Replay(g, e, lh, k + 1) == e;
  }

  lemma HomeNotLog(g: Geometry, d: Image, lh: seq<int>, k: nat)
    requires WellFormed(g, d) && Loggable(g, |d|, lh) && k < |lh|
    ensures lh[k] != g.start && 0 <= lh[k] < |d| && forall b :: InLog(g, b) ==> lh[k] != b
  {
  }

  lemma InstallSlotAt(g: Geometry, d: Image, e: Image, lh: seq<int>, k: nat, b: int)
    requires Installed(g, d, lh, k) && k < |lh| && e == d[lh[k] := d[Slot(g, k)]]
    requires WellFormed(g, e) && 0 <= b < |d|
    ensures Replay(g, e, lh, |lh|)[b] == Replay(g, d, lh, |lh|)[b]
    ensures Replay(g, e, lh, k + 1)[b] == e[b]
  {
    HomeNotLog(g, d, lh, k);
    hide Replay, Loggable;
    var i := ReplayCases(g, d, lh, |lh|, b);
    ReplayAt(g, e, lh, |lh|, b);
    InstalledAt(g, d, e, lh, k, b);
  }

  lemma InstalledAt(g: Geometry, d: Image, e: Image, lh: seq<int>, k: nat, b: int)
    requires Installed(g, d, lh, k) && k < |lh| && e == d[lh[k] := d[Slot(g, k)]]
    requires WellFormed(g, e) && 0 <= b < |d|
    ensures Replay(g, e, lh, k + 1)[b] == e[b]
  {
    HomeNotLog(g, d, lh, k);
    hide Replay, Loggable;
    var j := ReplayCases(g, e, lh, k + 1, b);
    if j != -1 && j < k {
      assert LastAt(lh, k, j, b);
      ReplayAt(g, d, lh, k, b);
    }
  }

  /** Erasing the header of a fully installed log keeps the outcome of a crash. */
  lemma EraseHeader(g: Geometry, d: Image, e: Image, lh: seq<int>, target: Image)
    requires HeaderOk(g, d) && HeaderIs(g, d, lh) && RecoversTo(g, d, target) && Installed(g, d, lh, |lh|)
    requires e == Cleared(g, d)
    ensures HeaderOk(g, e) && HeaderIs(g, e, []) && RecoversTo(g, e, target)
    ensures SameHome(g, e, d) && SameHome(g, e, target)
  {
    assert Header(g, d) == lh && Header(g, e) == [];
  }

  /** The view depends on home blocks only. */
  lemma SameHomeSameView(c: Config, d: Image, e: Image, cache: map<int, Block>, trace: seq<Update>)
    requires View(c, d, cache, trace) && SameHome(c.g, e, d)
    ensures View(c, e, cache, trace)
  {
  }

  lemma ShapedSlot(c: Config, s: State)
    requires Inv(c, s) && (s.phase.Copying? || s.phase.Installing? || s.phase.Redoing?)
    ensures var tail := s.phase.tail;
      && WellFormed(c.g, s.disk) && tail < c.g.size - 1 && Slot(c.g, tail) < |s.disk|
      && 0 <= s.lh[tail] < |s.disk|
      && (s.phase.Copying? ==> s.lh[tail] in s.cache)
      && (s.phase.Installing? ==> SlotHolds(c.g, s.disk, s.lh, s.cache, tail))
  {
    hide RecoversTo, Written, HistoryInv, OpsInv, View, Installed, Pending;
  }

  lemma CopyingInv(c: Config, s: State)
    requires Inv(c, s) && s.phase.Copying?
    ensures Inv(c, IoStep(c, s))
  {
    hide RecoversTo, Written, HeaderOk, HeaderIs, View, SlotsHold, CacheIs, HistoryInv, OpsInv, Distinct, Loggable, Installed, Pending;
    ShapedSlot(c, s);
    var t, tail := IoStep(c, s), s.phase.tail;
    FillSlots(c.g, s.disk, t.disk, s.lh, s.cache, tail);
    FillSlot(c.g, s.disk, t.disk, tail, s.cache[s.lh[tail]], Written(Start(c), s.trace[..s.durable]));
    SameHomeSameView(c, s.disk, t.disk, s.cache, s.trace);
  }

  /** The header makes the transaction durable. */
  lemma CommitPoint(
    c: Config, d: Image, e: Image, cache: map<int, Block>, lh: seq<int>, trace: seq<Update>, durable: nat)
    requires WellFormed(c.g, d) && Loggable(c.g, |d|, lh) && Uncommitted(c, d, cache, lh, trace, durable)
    requires CacheIs(cache, lh, 0) && SlotsHold(c.g, d, lh, cache, 0, |lh|)
    requires e == d[c.g.start := PutHeader(d[c.g.start], lh)]
    ensures HeaderOk(c.g, e) && Durable(c, e, trace, |trace|) && Committed(c, e, cache, lh, trace, 0)
  {
    assert SameHome(c.g, e, d) by { assert InLog(c.g, c.g.start); }
    HeaderKeepsSlots(c.g, d, e, lh, cache);
    hide SlotsHold, Distinct;
    CommittedImage(c.g, d, e, lh, cache);
    assert trace[..|trace|] == trace;
    SameHomeSameView(c, d, e, cache, trace);
  }

  lemma AllDurable(trace: seq<Update>, durable: nat, used: set<Op>)
    requires HistoryInv(trace, durable, {}, used)
    ensures HistoryInv(trace, |trace|, {}, used)
  {
  }

  lemma HeadingInv(c: Config, s: State)
    requires Inv(c, s) && s.phase.Heading?
    ensures Inv(c, IoStep(c, s))
  {
    var t := IoStep(c, s);
    assert WellFormed(c.g, s.disk) && |t.disk| == |s.disk|;
    assert Quiet.open.Keys == {};
    hide RecoversTo, Written, HeaderOk, HeaderIs, View, SlotsHold, CacheIs, HistoryInv, OpsInv, Distinct, Loggable, Installed, Pending;
    hide Uncommitted, Committed, Durable;
    CommitPoint(c, s.disk, t.disk, s.cache, s.lh, s.trace, s.durable);
    AllDurable(s.trace, s.durable, s.used);
  }

  /** Moving a block from the cache to its home leaves the logical view alone. */
  lemma InstallView(c: Config, d: Image, e: Image, lh: seq<int>, cache: map<int, Block>, k: nat, trace: seq<Update>)
    requires View(c, d, cache, trace) && SlotHolds(c.g, d, lh, cache, k) && 0 <= lh[k] < |d|
    requires e == d[lh[k] := d[Slot(c.g, k)]]
    ensures View(c, e, cache - {lh[k]}, trace)
  {
    assert Overlay(e, cache - {lh[k]}) == Overlay(d, cache);
  }

  /** Slots after k still hold their blocks once block k is home. */
  lemma RemainingSlots(g: Geometry, d: Image, e: Image, lh: seq<int>, cache: map<int, Block>, k: nat)
    requires WellFormed(g, d) && Loggable(g, |d|, lh) && Distinct(lh) && k < |lh|
    requires SlotsHold(g, d, lh, cache, k, |lh|) && e == d[lh[k] := d[Slot(g, k)]]
    requires CacheIs(cache, lh, k)
    ensures SlotsHold(g, e, lh, cache - {lh[k]}, k + 1, |lh|) && CacheIs(cache - {lh[k]}, lh, k + 1)
  {
    forall i | k + 1 <= i < |lh| ensures SlotHolds(g, e, lh, cache - {lh[k]}, i) {
      assert SlotHolds(g, d, lh, cache, i) && InLog(g, Slot(g, i));
    }
  }

  lemma InstallingInv(c: Config, s: State)
    requires Inv(c, s) && s.phase.Installing?
    ensures Inv(c, IoStep(c, s))
  {
    hide RecoversTo, Written, HeaderOk, HeaderIs, View, SlotsHold, CacheIs, HistoryInv, OpsInv, Distinct, Loggable, Installed, Pending;
    ShapedSlot(c, s);
    var t, tail := IoStep(c, s), s.phase.tail;
    InstallSlot(c.g, s.disk, t.disk, s.lh, tail, Written(Start(c), s.trace[..s.durable]));
    InstallView(c, s.disk, t.disk, s.lh, s.cache, tail, s.trace);
    RemainingSlots(c.g, s.disk, t.disk, s.lh, s.cache, tail);
  }

  lemma ErasedShape(c: Config, d: Image, cache: map<int, Block>, lh: seq<int>, trace: seq<Update>)
    requires HeaderOk(c.g, d) && CacheIs(cache, lh, |lh|)
    ensures WellFormed(c.g, d) && Loggable(c.g, |d|, []) && Distinct([]) && cache == map[]
    ensures Pending(cache, trace, |trace|)
  {
    assert forall b :: b !in cache;
  }

  lemma ErasingInv(c: Config, s: State)
    requires Inv(c, s) && s.phase.Erasing?
    ensures Inv(c, IoStep(c, s))
  {
    hide RecoversTo, Written, HeaderOk, HeaderIs, View, SlotsHold, CacheIs, HistoryInv, OpsInv, Distinct, Loggable, Installed, Pending;
    ErasedShape(c, s.disk, s.cache, s.lh, s.trace);
    var t := IoStep(c, s);
    EraseHeader(c.g, s.disk, t.disk, s.lh, Written(Start(c), s.trace[..s.durable]));
    SameHomeSameView(c, s.disk, t.disk, s.cache, s.trace);
  }

  lemma BootedInv(c: Config, s: State)
    requires Inv(c, s) && s.phase.Booted?
    ensures Inv(c, IoStep(c, s))
  {
    hide RecoversTo, Written, HistoryInv, OpsInv, Loggable, HeaderIs;
  }

  lemma RedoingInv(c: Config, s: State)
    requires Inv(c, s) && s.phase.Redoing?
    ensures Inv(c, IoStep(c, s))
  {
    hide RecoversTo, Written, HeaderOk, HeaderIs, View, SlotsHold, CacheIs, HistoryInv, OpsInv, Distinct, Loggable, Installed, Pending;
    ShapedSlot(c, s);
    var t, tail := IoStep(c, s), s.phase.tail;
    InstallSlot(c.g, s.disk, t.disk, s.lh, tail, Written(Start(c), s.trace[..s.durable]));
  }

  /** With nothing cached, home blocks are the view. */
  lemma BareView(c: Config, d: Image, trace: seq<Update>)
    requires SameHome(c.g, d, Written(Start(c), trace[..|trace|]))
    ensures View(c, d, map[], trace)
  {
    assert trace[..|trace|] == trace;
    assert Overlay(d, map[]) == d;
  }

  lemma ResettingInv(c: Config, s: State)
    requires Inv(c, s) && s.phase.Resetting?
    ensures Inv(c, IoStep(c, s))
  {
    assert CacheIs(s.cache, s.lh, |s.lh|);
    hide RecoversTo, Written, HeaderOk, HeaderIs, View, SlotsHold, CacheIs, HistoryInv, OpsInv, Distinct, Loggable, Installed, Pending;
    ErasedShape(c, s.disk, s.cache, s.lh, s.trace);
    var t := IoStep(c, s);
    EraseHeader(c.g, s.disk, t.disk, s.lh, Written(Start(c), s.trace[..s.durable]));
    BareView(c, t.disk, s.trace);
  }

  lemma StepInv(c: Config, s: State, step: Step)
    requires Inv(c, s) && Enabled(c, s, step)
    ensures Inv(c, After(c, s, step))
  {
    match step
    case Begin(op) => BeginInv(c, s, op);
    case Modify(op, b, data) => ModifyInv(c, s, op, b, data);
    case LogWrite(op, b) => LogWriteInv(c, s, op, b);
    case End(op) => EndInv(c, s, op);
    case Crash => CrashInv(c, s);
    case Io =>
      match s.phase
      case Running =>
      case Copying(_) => CopyingInv(c, s);
      case Heading => HeadingInv(c, s);
      case Installing(_) => InstallingInv(c, s);
      case Erasing => ErasingInv(c, s);
      case Finishing =>
      case Booted => BootedInv(c, s);
      case Redoing(_) => RedoingInv(c, s);
      case Resetting => ResettingInv(c, s);
  }

  // ---- whole runs ----

  ghost predicate Follows(c: Config, s: State, t: State) {
    exists step :: Enabled(c, s, step) && t == After(c, s, step)
  }

  ghost predicate Run(c: Config, states: seq<State>) {
    && Sound(c) && |states| > 0 && states[0] == Initial(c)
    && forall i :: 0 <= i < |states| - 1 ==> Follows(c, states[i], states[i + 1])
  }

  lemma InitialInv(c: Config)
    requires Sound(c)
    ensures Inv(c, Initial(c))
  {
    assert Recovered(c.g, c.base) == Written(Start(c), []);
  }

  lemma {:induction false} RunInv(c: Config, states: seq<State>)
    requires Run(c, states)
    ensures Inv(c, states[|states| - 1])
  {
    hide Inv, After, Enabled, Initial;
    if |states| == 1 {
      InitialInv(c);
    } else {
      var before := states[..|states| - 1];
      RunInv(c, before);
      var s, t := states[|states| - 2], states[|states| - 1];
      assert s == before[|before| - 1] && Follows(c, s, t);
      var step :| Enabled(c, s, step) && t == After(c, s, step);
      StepInv(c, s, step);
    }
  }

  lemma NothingPending(cache: map<int, Block>, trace: seq<Update>, durable: nat)
    requires Pending(cache, trace, durable)
    ensures durable < |trace| ==> exists b :: b in cache
  {
    if durable < |trace| { assert trace[durable].b in cache; }
  }

  /** Whole-operation atomicity, at the end of every run (so at every point of
      every run): a crash now recovers to the updates of a prefix of the trace,
      no operation is split by that prefix, commits happen only with no
      operation open, end_op's panic is not reached, and a system with no
      operation open and no commit under way has everything on disk. */
  lemma OperationsAreAtomic(c: Config, states: seq<State>)
    requires Run(c, states)
    ensures var s := states[|states| - 1];
      && Durable(c, s.disk, s.trace, s.durable)
      && NoHalfVisible(s.trace, s.durable, s.ops.open.Keys)
      && (s.committing ==> s.ops.outstanding == 0 && s.ops.open == map[])
      && !s.halt.EndWhileCommitting? && !s.halt.OutsideTransaction?
      && (s.phase.Running? && s.ops.outstanding == 0 ==> s.durable == |s.trace|)
      && (s.phase.Running? ==> View(c, s.disk, s.cache, s.trace))
  {
    hide RecoversTo, View, NoHalfVisible;
    RunInv(c, states);
    var s := states[|states| - 1];
    if s.phase.Running? && s.ops.outstanding == 0 {
      assert forall b :: b !in s.ops.held;
      assert forall b :: b !in s.cache;
      NothingPending(s.cache, s.trace, s.durable);
    }
  }

  // ---- the steps are the code's writes ----

  /** k Io steps. */
  ghost function IoTimes(c: Config, s: State, k: nat): (t: State) {
    if k == 0 then s else IoStep(c, IoTimes(c, s, k - 1))
  }

  /** Where a commit of n blocks is after k steps. */
  function CommitPhase(n: nat, k: nat): (p: Phase) {
    if k < n then Copying(k) else if k == n then Heading
    else if k <= 2 * n then Installing(k - n - 1) else if k == 2 * n + 1 then Erasing else Finishing
  }

  /** The Io steps of a commit write exactly the images the code writes: after k of them
      the disk is CommitImage k. */
  lemma {:induction false} CommitIsIo(c: Config, s: State, k: nat)
    requires Inv(c, s) && s.phase == Copying(0) && k <= 2 * |s.lh| + 2
    ensures WellFormed(c.g, s.disk) && Loggable(c.g, |s.disk|, s.lh)
    ensures var t := IoTimes(c, s, k);
      && Inv(c, t) && t.phase == CommitPhase(|s.lh|, k) && (k <= |s.lh| ==> t.cache == s.cache)
      && (k <= 2 * |s.lh| + 1 ==> t.lh == s.lh) && t.disk == CommitImage(c.g, s.disk, s.lh, s.cache, k)
  {
    hide Inv, IoStep, CommitImage;
    CommitStarts(c, s);
    if k == 0 {
      ImageStart(c.g, s.disk, s.lh, s.cache);
    } else {
      CommitIsIo(c, s, k - 1);
      var t := IoTimes(c, s, k - 1);
      IoInv(c, t);
      ShapedNow(c, t);
      hide Shaped;
      if k <= |s.lh| {
        CopyStep(c, s.disk, s.lh, s.cache, t, k);
      } else if k == |s.lh| + 1 {
        HeadStep(c, s.disk, s.lh, s.cache, t);
      } else if k <= 2 * |s.lh| + 1 {
        InstallStep(c, s.disk, s.lh, s.cache, t, k);
      } else {
        EraseStep(c, s.disk, s.lh, s.cache, t);
      }
    }
  }

  lemma IoInv(c: Config, s: State)
    requires Inv(c, s) && (s.phase.Copying? || s.phase.Heading? || s.phase.Installing? || s.phase.Erasing?)
    ensures Inv(c, IoStep(c, s))
  {
    hide Inv, IoStep;
    match s.phase
    case Copying(_) => CopyingInv(c, s);
    case Heading => HeadingInv(c, s);
    case Installing(_) => InstallingInv(c, s);
    case Erasing => ErasingInv(c, s);
  }

  lemma ShapedNow(c: Config, s: State)
    requires Inv(c, s)
    ensures Shaped(c, s.disk, s.lh, s.phase)
  {
  }

  lemma CopyStep(c: Config, d: Image, lh: seq<int>, cache: map<int, Block>, t: State, k: nat)
    requires WellFormed(c.g, d) && Loggable(c.g, |d|, lh) && 1 <= k <= |lh| && Shaped(c, t.disk, t.lh, t.phase)
    requires t.phase == Copying(k - 1) && t.cache == cache && t.lh == lh && t.disk == CommitImage(c.g, d, lh, cache, k - 1)
    ensures var u := IoStep(c, t);
      u.phase == CommitPhase(|lh|, k) && u.cache == cache && u.lh == lh && u.disk == CommitImage(c.g, d, lh, cache, k)
  {
    hide Shaped, Loggable, WellFormed;
    FilledOne(c.g, d, lh, cache, k - 1);
  }

  lemma HeadStep(c: Config, d: Image, lh: seq<int>, cache: map<int, Block>, t: State)
    requires WellFormed(c.g, d) && Loggable(c.g, |d|, lh) && |lh| > 0 && Shaped(c, t.disk, t.lh, t.phase)
    requires t.phase == Heading && t.lh == lh && t.disk == CommitImage(c.g, d, lh, cache, |lh|)
    ensures var u := IoStep(c, t);
      u.phase == CommitPhase(|lh|, |lh| + 1) && u.lh == lh && u.disk == CommitImage(c.g, d, lh, cache, |lh| + 1)
  {
    hide Shaped;
  }

  lemma InstallStep(c: Config, d: Image, lh: seq<int>, cache: map<int, Block>, t: State, k: nat)
    requires WellFormed(c.g, d) && Loggable(c.g, |d|, lh) && |lh| + 2 <= k <= 2 * |lh| + 1
    requires Shaped(c, t.disk, t.lh, t.phase) && t.phase == Installing(k - |lh| - 2) && t.lh == lh
    requires t.disk == CommitImage(c.g, d, lh, cache, k - 1)
    ensures var u := IoStep(c, t);
      u.phase == CommitPhase(|lh|, k) && u.lh == lh && u.disk == CommitImage(c.g, d, lh, cache, k)
  {
    hide Shaped, Headed;
    var e, j := Headed(c.g, d, lh, cache), k - |lh| - 2;
    assert Replay(c.g, e, lh, j + 1) == Replay(c.g, e, lh, j)[lh[j] := e[Slot(c.g, j)]];
    assert InLog(c.g, Slot(c.g, j));
  }

  lemma EraseStep(c: Config, d: Image, lh: seq<int>, cache: map<int, Block>, t: State)
    requires WellFormed(c.g, d) && Loggable(c.g, |d|, lh) && |lh| > 0 && Shaped(c, t.disk, t.lh, t.phase)
    requires t.phase == Erasing && t.disk == CommitImage(c.g, d, lh, cache, 2 * |lh| + 1)
    ensures var u := IoStep(c, t);
      u.phase == CommitPhase(|lh|, 2 * |lh| + 2) && u.disk == CommitImage(c.g, d, lh, cache, 2 * |lh| + 2)
  {
    hide Shaped, Headed, Replay;
  }

  /** So what Commit writes is what the protocol's steps pass through. */
  lemma CodeIsProtocol(c: Config, s: State, images: seq<Image>)
    requires Inv(c, s) && s.phase == Copying(0) && CommitImages(c.g, s.disk, s.lh, s.cache, images)
    ensures forall k :: 0 <= k < |images| ==> images[k] == IoTimes(c, s, k + 1).disk
  {
    hide Inv, IoTimes, CommitImage;
    forall k | 0 <= k < |images| ensures images[k] == IoTimes(c, s, k + 1).disk { CommitIsIo(c, s, k + 1); }
  }

  lemma CommitStarts(c: Config, s: State)
    requires Inv(c, s) && s.phase == Copying(0)
    ensures WellFormed(c.g, s.disk) && Loggable(c.g, |s.disk|, s.lh) && |s.lh| > 0
  {
  }

  lemma ImageStart(g: Geometry, d: Image, lh: seq<int>, cache: map<int, Block>)
    requires WellFormed(g, d) && Loggable(g, |d|, lh)
    ensures CommitImage(g, d, lh, cache, 0) == d
  {
  }
}
