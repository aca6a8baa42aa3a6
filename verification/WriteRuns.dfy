/** filewrite above the log, step by step: from a quiet log every chunk can be carried
    out as one operation that appends at most seven blocks and commits. */
module WriteRuns {
  import opened BlockBits
  import opened FileSystem
  import opened CrashedFiles
  import D = LogDisk
  import P = LogProtocol
  import R = RedoLog
  import S = LogSpace

  /** Between operations, with everything committed. */
  ghost predicate Idle(c: P.Config, s: P.State, trace: seq<P.Update>) {
    && S.Reachable(c, s) && s.phase.Running? && s.halt.None? && !s.committing
    && s.lh == [] && s.ops == P.Quiet && s.trace == trace && |s.disk| == |c.base|
  }

  /** Inside operation op, which has appended at most k blocks. */
  ghost predicate Inside(c: P.Config, s: P.State, op: P.Op, k: nat, trace: seq<P.Update>, used: set<P.Op>) {
    && S.Reachable(c, s) && s.phase.Running? && s.halt.None? && !s.committing && |s.disk| == |c.base|
    && op in s.ops.open && s.ops == P.Ops(1, map[op := s.ops.open[op]], map[])
    && s.ops.open[op] <= k && |s.lh| <= k && s.trace == trace && s.used == used
  }

  /** A freshly made disk, up and running. */
  lemma Started(c: P.Config) returns (s: P.State)
    requires P.Sound(c) && D.Header(c.g, c.base) == []
    ensures Idle(c, s, []) && s.used == {}
  {
    hide S.Reachable;
    var s0 := P.Initial(c);
    S.ReachStart(c);
    S.Reach(c, s0, P.Io);
    var s1 := P.After(c, s0, P.Io);
    S.Reach(c, s1, P.Io);
    s := P.After(c, s1, P.Io);
  }

  lemma Begun(c: P.Config, s: P.State, trace: seq<P.Update>, op: P.Op) returns (t: P.State)
    requires Idle(c, s, trace) && op !in s.used
    ensures Inside(c, t, op, 0, trace, s.used + {op})
  {
    hide S.Reachable;
    assert P.HasRoom(0, 0);
    S.Reach(c, s, P.Begin(op));
    t := P.After(c, s, P.Begin(op));
    assert t.ops.open == map[op := 0];
  }

  /** One buffer changed and passed to log_write. */
  lemma Updated(
    c: P.Config, s: P.State, op: P.Op, k: nat, trace: seq<P.Update>, used: set<P.Op>, u: P.Update) returns (t: P.State)
    requires Inside(c, s, op, k, trace, used) && u.op == op && D.IsHome(c.g, |c.base|, u.b)
    requires k < c.limit && k < 28 && c.g.size == D.LOGSIZE
    ensures Inside(c, t, op, k + 1, trace + [u], used)
  {
    hide S.Reachable;
    var m := P.Modify(op, u.b, u.data);
    assert P.Enabled(c, s, m);
    S.Reach(c, s, m);
    var s1 := P.After(c, s, m);
    assert s1.ops.held == map[u.b := op];
    assert P.Enabled(c, s1, P.LogWrite(op, u.b));
    S.Reach(c, s1, P.LogWrite(op, u.b));
    t := P.After(c, s1, P.LogWrite(op, u.b));
    assert map[u.b := op] - {u.b} == map[];
    assert t.ops.open == map[op := t.ops.open[op]];
  }

  lemma {:induction false} AllUpdated(
    c: P.Config, s: P.State, op: P.Op, k: nat, trace: seq<P.Update>, used: set<P.Op>, us: seq<P.Update>)
    returns (t: P.State)
    requires Inside(c, s, op, k, trace, used)
    requires forall i :: 0 <= i < |us| ==> us[i].op == op && D.IsHome(c.g, |c.base|, us[i].b)
    requires k + |us| <= c.limit && k + |us| <= 28 && c.g.size == D.LOGSIZE
    ensures Inside(c, t, op, k + |us|, trace + us, used)
    decreases |us|
  {
    hide Inside, D.IsHome;
    if us == [] {
      t := s;
      assert trace + us == trace;
    } else {
      var s1 := Updated(c, s, op, k, trace, used, us[0]);
      t := AllUpdated(c, s1, op, k + 1, trace + [us[0]], used, us[1..]);
      assert trace + [us[0]] + us[1..] == trace + us;
    }
  }

  /** end_op of the only operation, and the whole commit. */
  lemma Ended(c: P.Config, s: P.State, op: P.Op, k: nat, trace: seq<P.Update>, used: set<P.Op>) returns (t: P.State)
    requires Inside(c, s, op, k, trace, used)
    ensures Idle(c, t, trace) && t.used == used
  {
    hide S.Reachable;
    S.Reach(c, s, P.End(op));
    var s1 := P.After(c, s, P.End(op));
    assert s.ops.open - {op} == map[];
    assert s1.ops == P.Quiet;
    var s2 := s1;
    if s.lh != [] {
      s2 := Committed(c, s1, trace, used);
    }
    hide P.IoStep, P.Enabled;
    t := Finished(c, s2, trace, used);
  }

  /** Committing, with no operation open. */
  ghost predicate Committing(c: P.Config, s: P.State, trace: seq<P.Update>, used: set<P.Op>) {
    && S.Reachable(c, s) && s.halt.None? && s.committing && s.ops == P.Quiet && s.trace == trace && s.used == used
    && |s.disk| == |c.base|
  }

  lemma Committed(c: P.Config, s: P.State, trace: seq<P.Update>, used: set<P.Op>) returns (t: P.State)
    requires Committing(c, s, trace, used) && s.phase == P.Copying(0)
    ensures Committing(c, t, trace, used) && t.phase.Finishing? && t.lh == []
  {
    var n := 2 * |s.lh| + 2;
    CommitRun(c, s, trace, used, n);
    t := P.IoTimes(c, s, n);
    LastErased(c, s, trace, used);
  }

  /** The state after k steps of a commit is reachable. */
  lemma {:induction false} CommitRun(c: P.Config, s: P.State, trace: seq<P.Update>, used: set<P.Op>, k: nat)
    requires Committing(c, s, trace, used) && s.phase == P.Copying(0) && k <= 2 * |s.lh| + 2
    ensures Committing(c, P.IoTimes(c, s, k), trace, used)
    ensures P.IoTimes(c, s, k).phase == P.CommitPhase(|s.lh|, k)
  {
    hide Committing, P.Inv, P.IoStep, R.CommitImage;
    ReachedInv(c, s, trace, used);
    P.CommitIsIo(c, s, k);
    if k > 0 {
      CommitRun(c, s, trace, used, k - 1);
      P.CommitIsIo(c, s, k - 1);
      OneIo(c, P.IoTimes(c, s, k - 1), trace, used);
    }
  }

  lemma ReachedInv(c: P.Config, s: P.State, trace: seq<P.Update>, used: set<P.Op>)
    requires Committing(c, s, trace, used)
    ensures P.Inv(c, s)
  {
    hide P.Inv;
    assert S.Reachable(c, s);
    var states :| P.Run(c, states) && states[|states| - 1] == s;
    P.RunInv(c, states);
  }

  lemma OneIo(c: P.Config, s: P.State, trace: seq<P.Update>, used: set<P.Op>)
    requires Committing(c, s, trace, used) && (s.phase.Copying? || s.phase.Heading? || s.phase.Installing? || s.phase.Erasing?)
    ensures Committing(c, P.IoStep(c, s), trace, used)
  {
    hide S.Reachable;
    S.Reach(c, s, P.Io);
    assert P.After(c, s, P.Io) == P.IoStep(c, s);
  }

  lemma LastErased(c: P.Config, s: P.State, trace: seq<P.Update>, used: set<P.Op>)
    requires Committing(c, s, trace, used) && s.phase == P.Copying(0)
    ensures P.IoTimes(c, s, 2 * |s.lh| + 2).lh == []
  {
    hide P.Inv;
    var n := 2 * |s.lh| + 1;
    ReachedInv(c, s, trace, used);
    P.CommitIsIo(c, s, n);
    P.ShapedNow(c, P.IoTimes(c, s, n));
    assert P.IoTimes(c, s, n + 1) == P.IoStep(c, P.IoTimes(c, s, n));
  }

  lemma Finished(c: P.Config, s: P.State, trace: seq<P.Update>, used: set<P.Op>) returns (t: P.State)
    requires Committing(c, s, trace, used) && s.phase.Finishing? && s.lh == []
    ensures Idle(c, t, trace) && t.used == used
  {
    hide S.Reachable;
    S.Reach(c, s, P.Io);
    t := P.After(c, s, P.Io);
  }

  /** A whole operation. */
  lemma OneOperation(c: P.Config, s: P.State, trace: seq<P.Update>, op: P.Op, us: seq<P.Update>) returns (t: P.State)
    requires Idle(c, s, trace) && op !in s.used && |us| <= c.limit && |us| <= 28 && c.g.size == D.LOGSIZE
    requires forall i :: 0 <= i < |us| ==> us[i].op == op && D.IsHome(c.g, |c.base|, us[i].b)
    ensures Idle(c, t, trace + us) && t.used == s.used + {op}
  {
    hide Idle, Inside, D.IsHome;
    var s1 := Begun(c, s, trace, op);
    s1 := AllUpdated(c, s1, op, 0, trace, s.used + {op}, us);
    t := Ended(c, s1, op, |us|, trace + us, s.used + {op});
  }

  /** A disk as mkfs leaves it, on which the file system of the history starts. */
  ghost predicate Fresh(c: P.Config, l: Layout, h: History) {
    && P.Sound(c) && D.Header(c.g, c.base) == [] && c.g.size == D.LOGSIZE && l.g == c.g && |c.base| <= BPB
    && Fits(l, |c.base|) && |h.snaps| == |h.logs| + 1
    && (forall k :: 0 <= k < |h.snaps| ==> HasRoomFor(l, |c.base|, h.snaps[k]))
    && D.SameHome(c.g, P.Start(c), Picture(l, P.Start(c), h.snaps[0]))
  }

  /** On such a disk the first j chunks of any filewrite can be performed, one operation
      each, with no operation appending more than seven blocks; nothing is then lost in
      a crash. */
  lemma {:induction false} ChunksHappen(
    c: P.Config, l: Layout, h: History, inum: nat, off0: nat, src: seq<int>, j: nat)
    returns (s: P.State, parts: seq<seq<P.Update>>, ops: seq<P.Op>)
    requires Fresh(c, l, h) && Chunked(h, inum, off0, src, l.meta) && c.limit >= 7 && j <= |h.logs|
    ensures |parts| == j == |ops| && Idle(c, s, Joined(parts, j)) && Writing(c, s, l, h, parts, ops, j, [])
    ensures forall k :: 0 <= k < j ==> |parts[k]| <= 7
    ensures forall o :: o in s.used ==> o < j
  {
    hide Idle, Chunked, Picture, Performs, D.IsHome, HasRoomFor, P.Sound;
    if j == 0 {
      s := Started(c);
      parts, ops := [], [];
      WritingStart(c, s, l, h);
    } else {
      s, parts, ops := ChunksHappen(c, l, h, inum, off0, src, j - 1);
      LoggedAt(h, inum, off0, src, l.meta, j - 1);
      var us := LogPerforms(l, P.Start(c), j - 1, h.snaps[j - 1], h.snaps[j], inum, h.logs[j - 1]);
      PartHome(l, P.Start(c), us, j - 1, h.snaps[j - 1], h.snaps[j]);
      var t := OneOperation(c, s, Joined(parts, j - 1), j - 1, us);
      WritingMore(c, s, t, l, h, parts, ops, j - 1, us);
      s, parts, ops := t, parts + [us], ops + [j - 1];
    }
  }

  lemma PartHome(l: Layout, base: D.Image, us: seq<P.Update>, op: P.Op, a: Snapshot, b: Snapshot)
    requires Performs(l, base, us, op, a, b)
    ensures forall i :: 0 <= i < |us| ==> us[i].op == op
  {
  }

  lemma LoggedAt(h: History, inum: nat, off0: nat, src: seq<int>, meta: nat, k: nat)
    requires Chunked(h, inum, off0, src, meta) && k < |h.logs|
    ensures AllLogged(h.snaps[k], h.snaps[k + 1], inum, h.logs[k])
  {
    hide AllLogged;
  }

  lemma WritingStart(c: P.Config, s: P.State, l: Layout, h: History)
    requires Fresh(c, l, h) && Idle(c, s, [])
    ensures Writing(c, s, l, h, [], [], 0, []) && Idle(c, s, Joined([], 0))
  {
    hide Picture, HasRoomFor;
    assert Joined([], 0) + [] == [];
  }

  lemma WritingMore(
    c: P.Config, s: P.State, t: P.State, l: Layout, h: History, parts: seq<seq<P.Update>>, ops: seq<P.Op>, j: nat,
    us: seq<P.Update>)
    requires Writing(c, s, l, h, parts, ops, j, []) && |parts| == j == |ops| && j < |h.snaps| - 1
    requires Performs(l, P.Start(c), us, j, h.snaps[j], h.snaps[j + 1]) && Idle(c, t, Joined(parts, j) + us)
    ensures Writing(c, t, l, h, parts + [us], ops + [j], j + 1, [])
    ensures Idle(c, t, Joined(parts + [us], j + 1))
  {
    hide Picture, Performs, HasRoomFor, S.Reachable;
    JoinedSame(parts, us, j);
    assert Joined(parts + [us], j + 1) == Joined(parts, j) + us;
    assert Joined(parts + [us], j + 1) + [] == Joined(parts + [us], j + 1);
  }

  lemma {:induction false} JoinedSame(parts: seq<seq<P.Update>>, us: seq<P.Update>, k: nat)
    requires k <= |parts|
    ensures Joined(parts + [us], k) == Joined(parts, k)
  {
    if k > 0 { JoinedSame(parts, us, k - 1); }
  }
}
