/** Log space: how many new blocks an operation may append before log_write's
    "too big a transaction" panic can be reached on the log mkfs makes. */
module LogSpace {
  import opened LogDisk
  import opened Params
  import opened RedoLog
  import opened LogProtocol

  /** How many of its k blocks each open operation may still append, together. */
  ghost function Unspent(open: map<Op, nat>, k: nat): (n: int)
    decreases |open|
  {
    if open == map[] then 0
    else
      var op :| op in open;
      assert |open - {op}| < |open| by { assert (open - {op}).Keys == open.Keys - {op}; }
      k - open[op] + Unspent(open - {op}, k)
  }

  lemma {:induction false} UnspentRemove(open: map<Op, nat>, k: nat, op: Op)
    requires op in open
    ensures Unspent(open, k) == k - open[op] + Unspent(open - {op}, k)
    decreases |open|
  {
    var first :| first in open && Unspent(open, k) == k - open[first] + Unspent(open - {first}, k);
    if first != op {
      assert (open - {first}).Keys == open.Keys - {first};
      UnspentRemove(open - {first}, k, op);
      assert (open - {op}).Keys == open.Keys - {op};
      UnspentRemove(open - {op}, k, first);
      assert open - {first} - {op} == open - {op} - {first};
    }
  }

  lemma UnspentPut(open: map<Op, nat>, k: nat, op: Op, n: nat)
    ensures Unspent(open[op := n], k) == k - n + Unspent(open - {op}, k)
  {
    UnspentRemove(open[op := n], k, op);
    assert open[op := n] - {op} == open - {op};
  }

  ghost predicate Within(open: map<Op, nat>, k: nat) {
    forall op :: op in open ==> open[op] <= k
  }

  lemma {:induction false} UnspentBounds(open: map<Op, nat>, k: nat)
    requires Within(open, k)
    ensures 0 <= Unspent(open, k) <= k * |open|
    decreases |open|
  {
    if open != map[] {
      var op :| op in open;
      UnspentRemove(open, k, op);
      assert (open - {op}).Keys == open.Keys - {op};
      UnspentBounds(open - {op}, k);
      assert k * |open| == k + k * (|open| - 1);
    }
  }

  /** Budgets of nine blocks end below the point where log_write panics on the log
      that mkfs makes, budgets of ten (MAXOPBLOCKS) only at its size. */
  function Cap(k: nat): (n: nat) {
    if k <= 9 then 28 else LOGSIZE
  }

  /** lh.n plus what open operations may still append stays within the cap. */
  ghost predicate SpaceInv(s: State, k: nat) {
    && Within(s.ops.open, k) && (k <= 9 ==> s.halt.None?)
    && (s.phase.Running? ==> |s.lh| + Unspent(s.ops.open, k) <= Cap(k))
  }

  /** begin_op lets an operation in only if there is room for its budget too. */
  lemma RoomLeft(n: nat, open: map<Op, nat>, outstanding: int, k: nat)
    requires HasRoom(n, outstanding) && outstanding == |open| && Within(open, k) && (k == 9 || k == 10)
    requires outstanding == 0 ==> n == 0
    ensures n + Unspent(open, k) + k <= Cap(k)
  {
    UnspentBounds(open, k);
  }

  lemma SpaceLogWrite(c: Config, s: State, op: Op, b: int, k: nat)
    requires SpaceInv(s, k) && s.phase.Running? && op in s.ops.open && s.ops.outstanding >= 1
    requires b in s.lh || s.ops.open[op] < k
    requires c.g.size == LOGSIZE && (k == 9 || k == 10)
    ensures SpaceInv(AppendOrAbsorb(c, s, op, b), k)
  {
    hide Unspent;
    UnspentBounds(s.ops.open, k);
    UnspentRemove(s.ops.open, k, op);
    UnspentPut(s.ops.open, k, op, s.ops.open[op] + 1);
  }

  /** Outside Running no operation is open, and a step that returns to Running
      does so with an empty log head. */
  lemma QuietUnlessRunning(c: Config, s: State)
    requires Inv(c, s) && !s.phase.Running?
    ensures s.ops == Quiet && IoStep(c, s).ops == Quiet && IoStep(c, s).halt == s.halt
    ensures IoStep(c, s).phase.Running? ==> IoStep(c, s).lh == []
  {
    hide Durable, HistoryInv, OpsInv, Committed, SlotsHold, Installed;
  }

  /** What the space argument takes from the protocol's invariant. */
  lemma Facts(c: Config, s: State)
    requires Inv(c, s)
    ensures s.ops.outstanding == |s.ops.open| && (s.phase.Running? && s.ops.outstanding == 0 ==> s.lh == [])
    ensures !s.phase.Running? ==> s.ops == Quiet
    ensures s.ops.open.Keys <= s.used && (s.phase.Running? ==> !s.committing)
  {
    hide Shaped, Durable, Committed, SlotsHold, Installed, CacheIs;
  }

  lemma SpaceBegin(c: Config, s: State, op: Op, k: nat)
    requires Inv(c, s) && SpaceInv(s, k) && Enabled(c, s, Begin(op)) && (k == 9 || k == 10)
    ensures SpaceInv(After(c, s, Begin(op)), k)
  {
    hide Inv, Unspent, HasRoom;
    Facts(c, s);
    RoomLeft(|s.lh|, s.ops.open, s.ops.outstanding, k);
    UnspentPut(s.ops.open, k, op, 0);
    assert s.ops.open - {op} == s.ops.open;
  }

  lemma SpaceEnd(c: Config, s: State, op: Op, k: nat)
    requires Inv(c, s) && SpaceInv(s, k) && Enabled(c, s, End(op)) && (k == 9 || k == 10)
    ensures SpaceInv(After(c, s, End(op)), k)
  {
    hide Inv, Unspent;
    Facts(c, s);
    Running(s.ops, op);
    UnspentRemove(s.ops.open, k, op);
    UnspentBounds(s.ops.open, k);
  }

  lemma SpaceIo(c: Config, s: State, k: nat)
    requires Inv(c, s) && SpaceInv(s, k) && Enabled(c, s, Io)
    ensures SpaceInv(After(c, s, Io), k)
  {
    hide Inv, IoStep;
    Facts(c, s);
    QuietUnlessRunning(c, s);
    UnspentBounds(map[], k);
  }

  lemma SpaceStep(c: Config, s: State, step: Step, k: nat)
    requires Inv(c, s) && SpaceInv(s, k) && Enabled(c, s, step)
    requires c.limit <= k && c.g.size == LOGSIZE && (k == 9 || k == 10)
    ensures SpaceInv(After(c, s, step), k)
  {
    hide Inv, HasRoom, Unspent, AppendOrAbsorb, IoStep, EndOp;
    Facts(c, s);
    match step
    case Begin(op) => SpaceBegin(c, s, op, k);
    case Modify(op, b, data) =>
    case LogWrite(op, b) =>
      Running(s.ops, op);
      SpaceLogWrite(c, s, op, b, k);
    case End(op) => SpaceEnd(c, s, op, k);
    case Io => SpaceIo(c, s, k);
    case Crash => UnspentBounds(map[], k);
  }

  lemma Running(ops: Ops, op: Op)
    requires op in ops.open && ops.outstanding == |ops.open|
    ensures ops.outstanding >= 1 && ops != Quiet
  {
    assert |ops.open.Keys - {op}| == |ops.open| - 1;
  }

  lemma {:induction false} SpaceRun(c: Config, states: seq<State>, k: nat)
    requires Run(c, states) && c.limit <= k && c.g.size == LOGSIZE && (k == 9 || k == 10)
    ensures SpaceInv(states[|states| - 1], k)
  {
    hide Inv, After, Enabled;
    if |states| == 1 {
      UnspentBounds(map[], k);
    } else {
      var before := states[..|states| - 1];
      SpaceRun(c, before, k);
      RunInv(c, before);
      var s, t := states[|states| - 2], states[|states| - 1];
      assert s == before[|before| - 1] && Follows(c, s, t);
      var step :| Enabled(c, s, step) && t == After(c, s, step);
      SpaceStep(c, s, step, k);
    }
  }

  /** On mkfs's 30-block log, operations that each append at most nine new
      blocks never reach a panic of log_write, not even when absorbing. */
  lemma NineBlocksNeverPanic(c: Config, states: seq<State>)
    requires Run(c, states) && c.limit <= 9 && c.g.size == LOGSIZE
    ensures var s := states[|states| - 1];
      s.halt.None? && (s.phase.Running? ==> |s.lh| + Unspent(s.ops.open, 9) <= 28)
  {
    SpaceRun(c, states, 9);
  }

  /** With MAXOPBLOCKS as the budget the log still never overflows: lh.n plus the
      unspent budgets of the open operations is at most LOGSIZE. */
  lemma BudgetsFitTheLog(c: Config, states: seq<State>)
    requires Run(c, states) && c.limit <= MAXOPBLOCKS && c.g.size == LOGSIZE
    ensures var s := states[|states| - 1];
      s.phase.Running? ==> |s.lh| + Unspent(s.ops.open, MAXOPBLOCKS) <= LOGSIZE && |s.lh| <= LOGSIZE
  {
    SpaceRun(c, states, MAXOPBLOCKS);
    var s := states[|states| - 1];
    UnspentBounds(s.ops.open, MAXOPBLOCKS);
  }

  // ---- ten blocks are too many ----

  ghost predicate Reachable(c: Config, s: State) {
    exists states :: Run(c, states) && states[|states| - 1] == s
  }

  lemma ReachStart(c: Config)
    requires Sound(c)
    ensures Reachable(c, Initial(c))
  {
    assert Run(c, [Initial(c)]);
  }

  lemma Reach(c: Config, s: State, step: Step)
    requires Reachable(c, s) && Enabled(c, s, step)
    ensures Reachable(c, After(c, s, step)) && s.durable <= |s.trace|
    ensures Shaped(c, s.disk, s.lh, s.phase)
  {
    hide Enabled, After, Inv;
    var states :| Run(c, states) && states[|states| - 1] == s;
    RunInv(c, states);
    assert Shaped(c, s.disk, s.lh, s.phase) && s.durable <= |s.trace| by { InvShape(c, s); }
    var t := After(c, s, step);
    var longer := states + [t];
    assert Follows(c, s, t);
    assert forall i :: 0 <= i < |longer| - 1 ==> Follows(c, longer[i], longer[i + 1]);
    assert Run(c, longer) && longer[|longer| - 1] == t;
  }

  lemma InvShape(c: Config, s: State)
    requires Inv(c, s)
    ensures Shaped(c, s.disk, s.lh, s.phase) && s.durable <= |s.trace|
  {
  }

  /** A state in which only the log head and the operations matter. */
  ghost predicate Filling(c: Config, s: State, blocks: seq<int>, n: nat, open: map<Op, nat>) {
    && Reachable(c, s) && s.phase.Running? && s.halt.None? && !s.committing
    && n <= |blocks| && s.lh == blocks[..n] && s.ops == Ops(|open|, open, map[]) && s.used == open.Keys + {1}
    && |s.disk| == |c.base|
  }

  /** Thirty distinct home blocks to write. */
  ghost predicate Enough(c: Config, blocks: seq<int>) {
    |blocks| == 30 && Distinct(blocks) && forall i :: 0 <= i < 30 ==> IsHome(c.g, |c.base|, blocks[i])
  }

  lemma AppendOne(c: Config, s: State, blocks: seq<int>, n: nat, open: map<Op, nat>, op: Op) returns (t: State)
    requires Enough(c, blocks) && Filling(c, s, blocks, n, open)
    requires op in open && open[op] < c.limit && n < 30
    ensures n < 29 && n < c.g.size - 1 ==> Filling(c, t, blocks, n + 1, open[op := open[op] + 1])
    ensures n >= c.g.size - 1 ==> Reachable(c, t) && t.halt.TooBig?
  {
    var b := blocks[n];
    hide Reachable;
    var m := Modify(op, b, Block([]));
    assert Enabled(c, s, m);
    Reach(c, s, m);
    var s1 := After(c, s, m);
    assert b !in s.lh;
    assert Enabled(c, s1, LogWrite(op, b));
    Reach(c, s1, LogWrite(op, b));
    t := After(c, s1, LogWrite(op, b));
    if n < 29 && n < c.g.size - 1 {
      assert map[b := op] - {b} == map[];
      assert t.lh == blocks[..n + 1];
      assert open[op := open[op] + 1].Keys == open.Keys;
      assert |open[op := open[op] + 1]| == |open|;
    }
  }

  lemma {:induction false} AppendMany(
    c: Config, s: State, blocks: seq<int>, n: nat, open: map<Op, nat>, op: Op, k: nat) returns (t: State)
    requires Enough(c, blocks) && Filling(c, s, blocks, n, open)
    requires op in open && open[op] + k <= c.limit && n + k <= 29 && c.g.size == 30
    ensures Filling(c, t, blocks, n + k, open[op := open[op] + k])
    decreases k
  {
    hide Filling, Enough;
    if k == 0 {
      t := s;
      assert open[op := open[op]] == open;
    } else {
      var s1 := AppendOne(c, s, blocks, n, open, op);
      var open1 := open[op := open[op] + 1];
      t := AppendMany(c, s1, blocks, n + 1, open1, op, k - 1);
      assert open1[op := open1[op] + (k - 1)] == open[op := open[op] + k];
    }
  }

  /** A freshly made disk, up and running with operations 0 and 1 open. */
  lemma TwoOpen(c: Config, blocks: seq<int>) returns (s: State)
    requires Sound(c) && Header(c.g, c.base) == [] && |blocks| == 30
    ensures Filling(c, s, blocks, 0, map[0 := 0, 1 := 0])
  {
    hide Reachable;
    var s0 := Initial(c);
    ReachStart(c);
    Reach(c, s0, Io);
    var s1 := After(c, s0, Io);
    Reach(c, s1, Io);
    var s2 := After(c, s1, Io);
    assert s2.phase.Running? && HasRoom(0, 0) && HasRoom(0, 1);
    Reach(c, s2, Begin(0));
    var s3 := After(c, s2, Begin(0));
    Reach(c, s3, Begin(1));
    s := After(c, s3, Begin(1));
    assert s.ops.open == map[0 := 0, 1 := 0];
    assert |map[0 := 0, 1 := 0]| == 2;
  }

  /** Operation 1 ends and operation 2 begins while 0 stays open. */
  lemma SwapOne(c: Config, s: State, blocks: seq<int>) returns (t: State)
    requires Filling(c, s, blocks, 10, map[0 := 0, 1 := 10])
    ensures Filling(c, t, blocks, 10, map[0 := 0, 2 := 0])
  {
    hide Reachable;
    assert |map[0 := 0, 1 := 10]| == 2;
    Reach(c, s, End(1));
    var s1 := After(c, s, End(1));
    assert map[0 := 0, 1 := 10] - {1} == map[0 := 0];
    assert s1.ops == Ops(1, map[0 := 0], map[]) && HasRoom(10, 1);
    Reach(c, s1, Begin(2));
    t := After(c, s1, Begin(2));
    assert t.ops.open == map[0 := 0, 2 := 0];
    assert |map[0 := 0, 2 := 0]| == 2;
  }

  /** Ten new blocks per operation, which MAXOPBLOCKS allows, reach log_write's
      "too big a transaction" panic on mkfs's log. */
  lemma TenBlocksCanPanic(c: Config, blocks: seq<int>) returns (t: State)
    requires Sound(c) && Header(c.g, c.base) == [] && c.g.size == LOGSIZE && c.limit >= 10
    requires Enough(c, blocks)
    ensures Reachable(c, t) && t.halt.TooBig?
  {
    hide Filling, Reachable;
    var s := TwoOpen(c, blocks);
    s := AppendMany(c, s, blocks, 0, map[0 := 0, 1 := 0], 1, 10);
    assert map[0 := 0, 1 := 0][1 := 10] == map[0 := 0, 1 := 10];
    s := SwapOne(c, s, blocks);
    s := AppendMany(c, s, blocks, 10, map[0 := 0, 2 := 0], 0, 10);
    var open := map[0 := 0, 2 := 0][0 := 10];
    s := AppendMany(c, s, blocks, 20, open, 2, 9);
    t := AppendOne(c, s, blocks, 29, open[2 := 9], 2);
  }

  /** The exact bound: log_write's panics are unreachable on a fresh mkfs disk
      if and only if no operation appends more than nine new blocks. */
  lemma PanicFreeIffAtMostNine(c: Config, blocks: seq<int>)
    requires Sound(c) && Header(c.g, c.base) == [] && c.g.size == LOGSIZE && Enough(c, blocks)
    ensures (forall s :: Reachable(c, s) ==> s.halt.None?) <==> c.limit <= 9
  {
    hide Enough;
    if c.limit <= 9 {
      forall s | Reachable(c, s) ensures s.halt.None? {
        var states :| Run(c, states) && states[|states| - 1] == s;
        NineBlocksNeverPanic(c, states);
      }
    } else {
      var t := TenBlocksCanPanic(c, blocks);
    }
  }
}
