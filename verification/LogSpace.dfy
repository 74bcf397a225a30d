/** The log's space reservation: which blocks the running operations have logged, and
    whether log_write can find the log full. */
module LogSpace {
  const MAXOPBLOCKS := 10
  const LOGSIZE := 3 * MAXOPBLOCKS

  /** blocks is log.lh.block[..log.lh.n]; ops maps each outstanding operation to the blocks it has logged. */
  datatype Space = Space(blocks: seq<nat>, ops: map<nat, set<nat>>, committing: bool)

  datatype Step =
    | BeginOp(p: nat)
    | LogWrite(p: nat, b: nat)
    | EndOp(p: nat)
    | Committed

  const INIT := Space([], map[], false)

  /** begin_op does not sleep. */
  predicate Admits(s: Space) {
    !s.committing && |s.blocks| + (|s.ops| + 1) * MAXOPBLOCKS <= LOGSIZE
  }

  /** log_write panics with "too big a transaction", for a log of nlog disk blocks. */
  predicate TooBig(s: Space, nlog: nat) {
    |s.blocks| >= LOGSIZE || |s.blocks| >= nlog - 1
  }

  /** limit is the number of distinct blocks an operation promises not to exceed. */
  ghost predicate Enabled(s: Space, e: Step, limit: nat) {
    match e
    case BeginOp(p) => p !in s.ops && Admits(s)
    case LogWrite(p, b) => p in s.ops && |s.ops[p] + {b}| <= limit
    case EndOp(p) => p in s.ops
    case Committed => s.committing
  }

  function Next(s: Space, e: Step): Space
    requires e.LogWrite? || e.EndOp? ==> e.p in s.ops
  {
    match e
    case BeginOp(p) => s.(ops := s.ops[p := {}])
    case LogWrite(p, b) =>
      s.(ops := s.ops[p := s.ops[p] + {b}], blocks := if b in s.blocks then s.blocks else s.blocks + [b])
    case EndOp(p) => s.(ops := s.ops - {p}, committing := |s.ops - {p}| == 0)
    case Committed => s.(blocks := [], committing := false)
  }

  /** Runs in which every log_write finds room. */
  ghost predicate Reachable(s: Space, limit: nat, nlog: nat, run: seq<Step>)
    decreases |run|
  {
    if run == [] then s == INIT
    else
      var e := run[|run| - 1];
      exists s0 ::
        && Reachable(s0, limit, nlog, run[..|run| - 1])
        && Enabled(s0, e, limit) && (e.LogWrite? ==> !TooBig(s0, nlog)) && s == Next(s0, e)
  }

  /** Distinct blocks logged, summed over the outstanding operations. */
  ghost function Logged(ops: map<nat, set<nat>>): nat {
    if ops == map[] then 0
    else
      var p :| p in ops;
      |ops[p]| + Logged(ops - {p})
  }

  lemma {:induction false} LoggedRemove(ops: map<nat, set<nat>>, p: nat)
    requires p in ops
    ensures Logged(ops) == |ops[p]| + Logged(ops - {p})
    decreases |ops|
  {
    var q :| q in ops && Logged(ops) == |ops[q]| + Logged(ops - {q});
    if q != p {
      LoggedRemove(ops - {q}, p);
      assert (ops - {q}) - {p} == (ops - {p}) - {q};
      LoggedRemove(ops - {p}, q);
    }
  }

  lemma LoggedUpdate(ops: map<nat, set<nat>>, p: nat, v: set<nat>)
    ensures Logged(ops[p := v]) == |v| + Logged(ops - {p})
  {
    assert ops[p := v] - {p} == ops - {p};
    LoggedRemove(ops[p := v], p);
  }

  /** What log.lh.n and the unused reservations of the outstanding operations add up to. */
  ghost function Reserved(s: Space, limit: nat): int {
    |s.blocks| + |s.ops| * limit - Logged(s.ops)
  }

  ghost predicate Inv(s: Space, limit: nat) {
    && (forall p :: p in s.ops ==> |s.ops[p]| <= limit)
    && (forall p, b :: p in s.ops && b in s.ops[p] ==> b in s.blocks)
    && (forall j, k :: 0 <= j < k < |s.blocks| ==> s.blocks[j] != s.blocks[k])
    && (s.committing ==> s.ops == map[])
    && (s.ops == map[] && !s.committing ==> s.blocks == [])
    && Reserved(s, MAXOPBLOCKS) <= LOGSIZE
    && (limit < MAXOPBLOCKS ==> Reserved(s, MAXOPBLOCKS - 1) <= LOGSIZE - 2)
  }

  lemma Distribute(n: nat, limit: nat)
    ensures (n + 1) * limit == n * limit + limit
  {
  }

  lemma {:induction false} LoggedBound(ops: map<nat, set<nat>>, limit: nat)
    requires forall p :: p in ops ==> |ops[p]| <= limit
    ensures Logged(ops) <= |ops| * limit
    decreases |ops|
  {
    if ops != map[] {
      var p :| p in ops && Logged(ops) == |ops[p]| + Logged(ops - {p});
      LoggedBound(ops - {p}, limit);
      Distribute(|ops - {p}|, limit);
      assert |ops| == |ops - {p}| + 1;
    }
  }

  lemma AddSize(s: set<nat>, b: nat)
    ensures |s + {b}| == |s| + if b in s then 0 else 1
  {
    if b in s {
      assert s + {b} == s;
    }
  }

  lemma InvBegin(s: Space, p: nat, limit: nat)
    requires Inv(s, limit) && limit <= MAXOPBLOCKS && Enabled(s, BeginOp(p), limit)
    ensures Inv(Next(s, BeginOp(p)), limit)
  {
    hide Logged;
    LoggedUpdate(s.ops, p, {});
    assert s.ops - {p} == s.ops;
    assert |s.ops[p := {}]| == |s.ops| + 1;
  }

  lemma InvLogWrite(s: Space, p: nat, b: nat, limit: nat)
    requires Inv(s, limit) && limit <= MAXOPBLOCKS && Enabled(s, LogWrite(p, b), limit)
    ensures Inv(Next(s, LogWrite(p, b)), limit)
  {
    hide Logged;
    var t := Next(s, LogWrite(p, b));
    LoggedUpdate(s.ops, p, s.ops[p] + {b});
    LoggedRemove(s.ops, p);
    assert t.ops.Keys == s.ops.Keys;
    AddSize(s.ops[p], b);
    assert Reserved(t, MAXOPBLOCKS) <= Reserved(s, MAXOPBLOCKS);
    assert Reserved(t, MAXOPBLOCKS - 1) <= Reserved(s, MAXOPBLOCKS - 1);
  }

  lemma InvEnd(s: Space, p: nat, limit: nat)
    requires Inv(s, limit) && limit <= MAXOPBLOCKS && Enabled(s, EndOp(p), limit)
    ensures Inv(Next(s, EndOp(p)), limit)
  {
    hide Logged;
    var t := Next(s, EndOp(p));
    LoggedRemove(s.ops, p);
    assert t.ops.Keys == s.ops.Keys - {p};
    assert |t.ops| == |s.ops| - 1;
    assert |t.ops| == 0 <==> t.ops == map[];
  }

  lemma InvStep(s: Space, e: Step, limit: nat)
    requires Inv(s, limit) && limit <= MAXOPBLOCKS && Enabled(s, e, limit)
    ensures Inv(Next(s, e), limit)
  {
    match e
    case BeginOp(p) => InvBegin(s, p, limit);
    case LogWrite(p, b) => InvLogWrite(s, p, b, limit);
    case EndOp(p) => InvEnd(s, p, limit);
    case Committed =>
  }

  lemma {:induction false} RunInv(s: Space, limit: nat, nlog: nat, run: seq<Step>)
    requires limit <= MAXOPBLOCKS && Reachable(s, limit, nlog, run)
    ensures Inv(s, limit)
    decreases |run|
  {
    if run != [] {
      hide Inv, Next, Enabled;
      var e := run[|run| - 1];
      var s0 :| Reachable(s0, limit, nlog, run[..|run| - 1]) && Enabled(s0, e, limit) && s == Next(s0, e);
      RunInv(s0, limit, nlog, run[..|run| - 1]);
      InvStep(s0, e, limit);
    }
  }

  /** In every run of operations that log at most MAXOPBLOCKS distinct blocks each, the
      blocks in the log and the unused reservations together fit in LOGSIZE. */
  lemma SpaceInv(s: Space, limit: nat, nlog: nat, run: seq<Step>)
    requires limit <= MAXOPBLOCKS && Reachable(s, limit, nlog, run)
    ensures |s.blocks| + |s.ops| * MAXOPBLOCKS - Logged(s.ops) <= LOGSIZE
    ensures |s.blocks| <= LOGSIZE
  {
    hide Reachable, Logged;
    RunInv(s, limit, nlog, run);
    LoggedBound(s.ops, MAXOPBLOCKS);
  }

  /** A log_write about to be made, by an operation within its limit, finds the log full. */
  ghost predicate Panics(s: Space, limit: nat, nlog: nat) {
    TooBig(s, nlog) && exists p, b :: Enabled(s, LogWrite(p, b), limit)
  }

  /** The invariant leaves room for the log_writes of operations that stay below MAXOPBLOCKS blocks. */
  lemma InvRoom(s: Space, p: nat, b: nat, limit: nat)
    requires Inv(s, limit) && limit < MAXOPBLOCKS && Enabled(s, LogWrite(p, b), limit)
    ensures !TooBig(s, LOGSIZE)
  {
    hide Logged;
    LoggedBound(s.ops, MAXOPBLOCKS - 1);
  }

  lemma NoPanic(s: Space, limit: nat, run: seq<Step>)
    requires limit < MAXOPBLOCKS && Reachable(s, limit, LOGSIZE, run)
    ensures !Panics(s, limit, LOGSIZE)
  {
    hide Reachable, Logged, Inv;
    RunInv(s, limit, LOGSIZE, run);
    if p, b :| Enabled(s, LogWrite(p, b), limit) {
      InvRoom(s, p, b, limit);
    }
  }

  lemma Extend(s0: Space, e: Step, limit: nat, nlog: nat, run: seq<Step>)
    requires Reachable(s0, limit, nlog, run) && Enabled(s0, e, limit) && (e.LogWrite? ==> !TooBig(s0, nlog))
    ensures Reachable(Next(s0, e), limit, nlog, run + [e])
  {
    var r := run + [e];
    assert r[..|r| - 1] == run && r[|r| - 1] == e;
  }

  /** Three operations, k blocks logged, the first operations having used up their ten. */
  ghost predicate Filling(s: Space, k: nat) {
    && |s.blocks| == k && (forall b :: b in s.blocks ==> b < k)
    && !s.committing && s.ops.Keys == {0, 1, 2}
    && (forall p, b :: p in s.ops && b in s.ops[p] ==> b < k)
    && (forall p :: p in s.ops ==> |s.ops[p]| == if k < 10 * p then 0 else if k < 10 * p + 10 then k - 10 * p else 10)
  }

  lemma FillStep(s: Space, k: nat, limit: nat)
    requires Filling(s, k) && k < LOGSIZE && limit >= MAXOPBLOCKS
    ensures Enabled(s, LogWrite(k / 10, k), limit) && Filling(Next(s, LogWrite(k / 10, k)), k + 1)
  {
    var p := k / 10;
    assert p in {0, 1, 2};
    AddSize(s.ops[p], k);
    assert Next(s, LogWrite(p, k)).ops.Keys == s.ops.Keys;
  }

  lemma {:induction false} FillTo(k: nat, limit: nat) returns (s: Space, run: seq<Step>)
    requires k <= LOGSIZE - 1 && limit >= MAXOPBLOCKS
    ensures Filling(s, k) && Reachable(s, limit, LOGSIZE, run)
  {
    if k == 0 {
      var s1 := Next(INIT, BeginOp(0));
      var s2 := Next(s1, BeginOp(1));
      Extend(INIT, BeginOp(0), limit, LOGSIZE, []);
      Extend(s1, BeginOp(1), limit, LOGSIZE, [] + [BeginOp(0)]);
      Extend(s2, BeginOp(2), limit, LOGSIZE, [] + [BeginOp(0)] + [BeginOp(1)]);
      s, run := Next(s2, BeginOp(2)), [] + [BeginOp(0)] + [BeginOp(1)] + [BeginOp(2)];
    } else {
      s, run := FillTo(k - 1, limit);
      var e := LogWrite((k - 1) / 10, k - 1);
      FillStep(s, k - 1, limit);
      Extend(s, e, limit, LOGSIZE, run);
      s, run := Next(s, e), run + [e];
    }
  }

  ghost predicate CanReach(s: Space, limit: nat, nlog: nat) {
    exists run :: Reachable(s, limit, nlog, run)
  }

  /** mkfs makes the log LOGSIZE blocks long, which leaves LOGSIZE - 1 for data. Over all runs,
      log_write cannot find it full exactly when operations log fewer than MAXOPBLOCKS distinct blocks. */
  lemma PanicThreshold(limit: nat)
    ensures (forall s :: CanReach(s, limit, LOGSIZE) ==> !Panics(s, limit, LOGSIZE)) <==> limit < MAXOPBLOCKS
  {
    if limit < MAXOPBLOCKS {
      forall s | CanReach(s, limit, LOGSIZE)
        ensures !Panics(s, limit, LOGSIZE)
      {
        var run :| Reachable(s, limit, LOGSIZE, run);
        NoPanic(s, limit, run);
      }
    } else {
      var s, run := FillTo(LOGSIZE - 1, limit);
      FillStep(s, LOGSIZE - 1, limit);
      assert CanReach(s, limit, LOGSIZE) && Panics(s, limit, LOGSIZE);
    }
  }
}
