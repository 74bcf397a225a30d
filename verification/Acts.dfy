/** Processes on one log, block by block: which blocks they refer to and have locked, which operations are going on,
    what has been stored and logged, and how each step of a process changes that. Buffers do not appear here. */
module Acts {
  import opened Blocks
  import opened Collections
  import opened RedoLog
  import opened LogSpace
  import Bio

  /** A store into a block, by an operation. */
  datatype Stored = Stored(op: nat, b: nat, data: Block)

  /** One step of a process, each under one lock: begin_op; bget; the rest of bread; a store; log_write; releasesleep;
      the rest of brelse; end_op, with the commit. A process names its buffer by the block: while it has a reference no
      other buffer has that block. */
  datatype Act = Begin(pid: nat) | Want(b: nat) | Take(b: nat, pid: nat) | Store(b: nat, data: Block) | Log(b: nat)
    | Leave(b: nat) | Drop(b: nat) | End(pid: nat)

  /** ops: the number of the operation of each process in one. refs: how many references there are to each block. locks:
      who has the block locked. logged: the log's list of blocks. unlogged: the blocks stored into and not yet passed to
      log_write. stores: all stores so far, of which the first `done` are on disk. */
  datatype Scene = Scene(ops: map<nat, nat>, begun: nat, refs: map<nat, nat>, locks: map<nat, nat>, logged: seq<nat>,
                         unlogged: set<nat>, stores: seq<Stored>, done: nat)

  /** begin_op does not sleep. */
  predicate Lets(s: Scene, pid: nat) {
    pid != 0 && pid !in s.ops && |s.logged| + (|s.ops| + 1) * MAXOPBLOCKS <= LOGSIZE
  }

  /** A process in an operation has home block b locked. */
  predicate Writes(l: Layout, s: Scene, b: nat) {
    b in s.locks && s.locks[b] in s.ops && !l.InLog(b)
  }

  /** A process in an operation has given back its locks. */
  predicate MayEnd(s: Scene, pid: nat) {
    pid in s.ops && pid !in s.locks.Values
  }

  function RefCount(s: Scene, b: nat): nat {
    if b in s.refs then s.refs[b] else 0
  }

  /** bget finds every buffer in use, and none with the block; log_write finds the log full. */
  ghost predicate Fails(l: Layout, s: Scene, a: Act) {
    match a
    case Want(b) => b !in s.refs && b !in s.logged && |s.refs.Keys + SetOf(s.logged)| >= Bio.NBUF
    case Log(b) => Writes(l, s, b) && (|s.logged| >= LOGSIZE || |s.logged| >= l.size - 1)
    case _ => false
  }

  /** The end of the last operation. */
  predicate Commits(s: Scene, a: Act) {
    a.End? && MayEnd(s, a.pid) && |s.ops| == 1
  }

  /** What each step does; one that would have to wait does nothing. */
  function Begun(s: Scene, pid: nat): Scene {
    if Lets(s, pid) then s.(ops := s.ops[pid := s.begun], begun := s.begun + 1) else s
  }

  function Wanted(s: Scene, b: nat): Scene {
    s.(refs := s.refs[b := RefCount(s, b) + 1])
  }

  function Taken(s: Scene, size: nat, b: nat, pid: nat): Scene {
    if pid != 0 && b in s.refs && b !in s.locks && b < size then s.(locks := s.locks[b := pid]) else s
  }

  function AfterStore(l: Layout, s: Scene, b: nat, data: Block): Scene {
    if Writes(l, s, b) then
      s.(stores := s.stores + [Stored(s.ops[s.locks[b]], b, data)], unlogged := s.unlogged + {b})
    else s
  }

  function AfterLog(l: Layout, s: Scene, b: nat): Scene {
    if Writes(l, s, b) then
      s.(logged := if b in s.logged then s.logged else s.logged + [b], unlogged := s.unlogged - {b})
    else s
  }

  function Left(s: Scene, b: nat): Scene {
    if b in s.locks && b !in s.unlogged then s.(locks := s.locks - {b}) else s
  }

  function Dropped(s: Scene, b: nat): Scene {
    if RefCount(s, b) > Bio.B(b in s.locks) then
      s.(refs := if s.refs[b] == 1 then s.refs - {b} else s.refs[b := s.refs[b] - 1])
    else s
  }

  function Ended(s: Scene, pid: nat): Scene {
    if MayEnd(s, pid) && |s.ops| == 1 then s.(ops := map[], logged := [], unlogged := {}, done := |s.stores|)
    else if MayEnd(s, pid) then s.(ops := s.ops - {pid})
    else s
  }

  function Play(l: Layout, size: nat, s: Scene, a: Act): Scene {
    match a
    case Begin(pid) => Begun(s, pid)
    case Want(b) => Wanted(s, b)
    case Take(b, pid) => Taken(s, size, b, pid)
    case Store(b, data) => AfterStore(l, s, b, data)
    case Log(b) => AfterLog(l, s, b)
    case Leave(b) => Left(s, b)
    case Drop(b) => Dropped(s, b)
    case End(pid) => Ended(s, pid)
  }

  /** The store that a step makes. */
  function StoredBy(l: Layout, s: Scene, a: Act): seq<Stored> {
    if a.Store? && Writes(l, s, a.b) then [Stored(s.ops[s.locks[a.b]], a.b, a.data)] else []
  }

  /** During a commit processes that read go on: their references and locks after it are any. */
  ghost predicate Follows(l: Layout, size: nat, s: Scene, a: Act, s': Scene) {
    if Commits(s, a) then s' == Play(l, size, s, a).(refs := s'.refs, locks := s'.locks) && a.pid !in s'.locks.Values
    else s' == Play(l, size, s, a)
  }

  lemma FollowsPlay(l: Layout, size: nat, s: Scene, a: Act)
    ensures !a.End? ==> Follows(l, size, s, a, Play(l, size, s, a))
    ensures !a.Want? && !a.Log? ==> !Fails(l, s, a)
  {
    hide Play;
  }

  /** The scenes of the first |ss| - 1 of the acts, none of which panics. */
  ghost predicate IsTrace(l: Layout, size: nat, ss: seq<Scene>, acts: seq<Act>) {
    && 0 < |ss| <= |acts| + 1
    && forall k: nat :: k + 1 < |ss| ==> !Fails(l, ss[k], acts[k]) && Follows(l, size, ss[k], acts[k], ss[k + 1])
  }

  lemma TraceMore(l: Layout, size: nat, ss: seq<Scene>, acts: seq<Act>, s: Scene)
    requires IsTrace(l, size, ss, acts) && |ss| <= |acts|
    requires var last := ss[|ss| - 1]; !Fails(l, last, acts[|ss| - 1]) && Follows(l, size, last, acts[|ss| - 1], s)
    ensures IsTrace(l, size, ss + [s], acts)
  {
    hide Fails, Follows;
    var t := ss + [s];
    forall k: nat | k + 1 < |t|
      ensures !Fails(l, t[k], acts[k]) && Follows(l, size, t[k], acts[k], t[k + 1])
    {
      if k + 1 < |ss| {
        assert t[k] == ss[k] && t[k + 1] == ss[k + 1];
      }
    }
  }

  /** The stores of the first n acts. */
  ghost function StoresOf(l: Layout, ss: seq<Scene>, acts: seq<Act>, n: nat): seq<Stored>
    requires n < |ss| <= |acts| + 1
  {
    if n == 0 then [] else StoresOf(l, ss, acts, n - 1) + StoredBy(l, ss[n - 1], acts[n - 1])
  }

  lemma {:induction false} StoresMore(l: Layout, ss: seq<Scene>, acts: seq<Act>, s: Scene, n: nat)
    requires n < |ss| <= |acts|
    ensures StoresOf(l, ss + [s], acts, n) == StoresOf(l, ss, acts, n)
  {
    if n > 0 {
      StoresMore(l, ss, acts, s, n - 1);
    }
  }

  lemma StoresNext(l: Layout, ss: seq<Scene>, acts: seq<Act>, s: Scene)
    requires 0 < |ss| <= |acts|
    ensures StoresOf(l, ss + [s], acts, |ss|) ==
      StoresOf(l, ss, acts, |ss| - 1) + StoredBy(l, ss[|ss| - 1], acts[|ss| - 1])
  {
    hide StoredBy;
    StoresMore(l, ss, acts, s, |ss| - 1);
  }

  lemma TraceStart(l: Layout, size: nat, s: Scene, acts: seq<Act>)
    ensures IsTrace(l, size, [s], acts) && StoresOf(l, [s], acts, 0) == []
  {
  }

  lemma FollowsStores(l: Layout, size: nat, s: Scene, a: Act, s': Scene)
    requires Follows(l, size, s, a, s')
    ensures s'.stores == s.stores + StoredBy(l, s, a)
  {
  }

  /** The stores of a trace are those before it and, in order, those of its acts by processes that have the block locked
      in an operation. */
  lemma {:induction false} TraceStores(l: Layout, size: nat, ss: seq<Scene>, acts: seq<Act>, n: nat)
    requires IsTrace(l, size, ss, acts) && n < |ss|
    ensures ss[n].stores == ss[0].stores + StoresOf(l, ss, acts, n)
  {
    hide Follows, Fails, StoredBy;
    if n > 0 {
      TraceStores(l, size, ss, acts, n - 1);
      FollowsStores(l, size, ss[n - 1], acts[n - 1], ss[n]);
    }
  }

  /** A step lets a process into an operation, and out of one. */
  lemma FollowsOps(l: Layout, size: nat, s: Scene, a: Act, s': Scene, p: nat)
    requires Follows(l, size, s, a, s')
    ensures p in s'.ops && p !in s.ops ==> a == Begin(p) && Lets(s, p)
    ensures p in s'.ops && p in s.ops ==> !(a == End(p) && MayEnd(s, p))
  {
  }

  /** At the n-th scene the operation that p began with act k is still going on. */
  ghost predicate Open(ss: seq<Scene>, acts: seq<Act>, p: nat, k: nat, n: nat)
    requires n < |ss| <= |acts| + 1
  {
    && k < n && acts[k] == Begin(p) && Lets(ss[k], p)
    && forall m: nat :: k < m < n ==> !(acts[m] == End(p) && MayEnd(ss[m], p))
  }

  lemma {:induction false} OpenSince(l: Layout, size: nat, ss: seq<Scene>, acts: seq<Act>, p: nat, n: nat)
    returns (k: nat)
    requires IsTrace(l, size, ss, acts) && n < |ss| && p in ss[n].ops && p !in ss[0].ops
    ensures Open(ss, acts, p, k, n)
    decreases n
  {
    hide Follows, Fails, Lets, MayEnd;
    assert Follows(l, size, ss[n - 1], acts[n - 1], ss[n]);
    FollowsOps(l, size, ss[n - 1], acts[n - 1], ss[n], p);
    if p in ss[n - 1].ops {
      k := OpenSince(l, size, ss, acts, p, n - 1);
    } else {
      k := n - 1;
    }
  }

  /** The operation that act k begins ends before the last scene. */
  ghost predicate Ends(ss: seq<Scene>, acts: seq<Act>, k: nat)
    requires k + 1 < |ss| <= |acts| + 1 && acts[k].Begin?
  {
    exists m: nat :: k < m && m + 1 < |ss| && acts[m] == End(acts[k].pid) && MayEnd(ss[m], acts[k].pid)
  }

  /** Every operation that the acts begin they also end. */
  ghost predicate EachEnds(ss: seq<Scene>, acts: seq<Act>)
    requires 0 < |ss| <= |acts| + 1
  {
    forall k: nat :: k + 1 < |ss| && acts[k].Begin? && Lets(ss[k], acts[k].pid) ==> Ends(ss, acts, k)
  }

  lemma AllEnded(l: Layout, size: nat, ss: seq<Scene>, acts: seq<Act>)
    requires IsTrace(l, size, ss, acts) && ss[0].ops == map[] && EachEnds(ss, acts)
    ensures ss[|ss| - 1].ops == map[]
  {
    hide Follows, Fails;
    var n := |ss| - 1;
    if p :| p in ss[n].ops {
      var k := OpenSince(l, size, ss, acts, p, n);
    }
  }

  /** The acts of an operation that writes one block. */
  function WriteOne(pid: nat, b: nat, data: Block): seq<Act> {
    [Begin(pid), Want(b), Take(b, pid), Store(b, data), Log(b), Leave(b), Drop(b), End(pid)]
  }

  /** The scene after its store. */
  function HalfWay(s: Scene, pid: nat, b: nat, data: Block): Scene {
    s.(ops := s.ops[pid := s.begun], begun := s.begun + 1, refs := s.refs[b := RefCount(s, b) + 1],
       locks := s.locks[b := pid], unlogged := s.unlogged + {b}, stores := s.stores + [Stored(s.begun, b, data)])
  }

  lemma FirstHalf(l: Layout, size: nat, s: Scene, pid: nat, b: nat, data: Block)
    requires Lets(s, pid) && b !in s.locks && b < size && !l.InLog(b)
    ensures Play(l, size, Play(l, size, Play(l, size, Play(l, size, s, Begin(pid)), Want(b)), Take(b, pid)),
                 Store(b, data)) == HalfWay(s, pid, b, data)
  {
  }

  /** The scene before its end_op. */
  lemma SecondHalf(l: Layout, size: nat, s: Scene, pid: nat, b: nat, data: Block, s': Scene)
    requires s.ops == map[] && s.unlogged == {} && b !in s.locks && !l.InLog(b)
    requires s' == Play(l, size, Play(l, size, Play(l, size, HalfWay(s, pid, b, data), Log(b)), Leave(b)), Drop(b))
    ensures s'.ops == map[pid := s.begun] && s'.locks == s.locks
    ensures s'.stores == s.stores + [Stored(s.begun, b, data)]
  {
    var h := HalfWay(s, pid, b, data);
    assert h.ops[pid] == s.begun && h.locks[b] == pid && Writes(l, h, b);
    assert h.locks - {b} == s.locks;
  }

  /** With no operation going on and the block unlocked, it makes its one store and commits it. */
  lemma OneOperation(l: Layout, size: nat, ss: seq<Scene>, pid: nat, b: nat, data: Block)
    requires IsTrace(l, size, ss, WriteOne(pid, b, data)) && |ss| == 9
    requires ss[0].ops == map[] && ss[0].unlogged == {} && Lets(ss[0], pid)
    requires b !in ss[0].locks && pid !in ss[0].locks.Values && b < size && !l.InLog(b)
    ensures ss[8].ops == map[] && ss[8].stores == ss[0].stores + [Stored(ss[0].begun, b, data)]
    ensures ss[8].done == |ss[8].stores|
  {
    var acts := WriteOne(pid, b, data);
    hide IsTrace, Follows, Play, HalfWay;
    StepAt(l, size, ss, acts, 0);
    StepAt(l, size, ss, acts, 1);
    StepAt(l, size, ss, acts, 2);
    StepAt(l, size, ss, acts, 3);
    FirstHalf(l, size, ss[0], pid, b, data);
    StepAt(l, size, ss, acts, 4);
    StepAt(l, size, ss, acts, 5);
    StepAt(l, size, ss, acts, 6);
    SecondHalf(l, size, ss[0], pid, b, data, ss[7]);
    StepAt(l, size, ss, acts, 7);
    LastStep(l, size, ss[7], pid, ss[8]);
  }

  lemma StepAt(l: Layout, size: nat, ss: seq<Scene>, acts: seq<Act>, k: nat)
    requires IsTrace(l, size, ss, acts) && k + 1 < |ss|
    ensures Follows(l, size, ss[k], acts[k], ss[k + 1])
    ensures !acts[k].End? ==> ss[k + 1] == Play(l, size, ss[k], acts[k])
  {
    hide Fails, Play;
  }

  lemma LastStep(l: Layout, size: nat, s: Scene, pid: nat, s': Scene)
    requires s.ops.Keys == {pid} && pid !in s.locks.Values && Follows(l, size, s, End(pid), s')
    ensures s'.ops == map[] && s'.stores == s.stores && s'.done == |s.stores|
  {
    assert |s.ops| == |s.ops.Keys| == 1;
  }

  /** The home blocks d after the stores. */
  ghost function Replay(d: Disk, ss: seq<Stored>): (r: Disk)
    ensures |r| == |d|
  {
    if ss == [] then d
    else
      var s, v := ss[|ss| - 1], Replay(d, ss[..|ss| - 1]);
      if s.b < |v| then v[s.b := s.data] else v
  }

  lemma ReplayMore(d: Disk, ss: seq<Stored>, s: Stored)
    requires s.b < |d|
    ensures Replay(d, ss + [s]) == Replay(d, ss)[s.b := s.data]
  {
    assert (ss + [s])[..|ss|] == ss;
  }

  /** The contents x are those of the last store into block b, or the block's in d if there has been none. */
  ghost predicate Latest(d: Disk, ss: seq<Stored>, b: nat, x: Block)
    requires b < |d|
  {
    || (x == d[b] && forall k :: 0 <= k < |ss| ==> ss[k].b != b)
    || exists j :: IsLast(ss, b, j) && x == ss[j].data
  }

  ghost predicate IsLast(ss: seq<Stored>, b: nat, j: int) {
    0 <= j < |ss| && ss[j].b == b && forall k :: j < k < |ss| ==> ss[k].b != b
  }

  lemma {:induction false} ReplayLatest(d: Disk, ss: seq<Stored>, b: nat)
    requires b < |d|
    ensures Latest(d, ss, b, Replay(d, ss)[b])
  {
    if ss != [] {
      var s, init := ss[|ss| - 1], ss[..|ss| - 1];
      if s.b == b {
        assert IsLast(ss, b, |ss| - 1);
      } else {
        ReplayLatest(d, init, b);
        assert Replay(d, ss)[b] == Replay(d, init)[b];
        if j :| IsLast(init, b, j) && Replay(d, init)[b] == init[j].data {
          assert IsLast(ss, b, j);
        }
      }
    }
  }
}
