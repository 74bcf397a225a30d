/** Operations of several processes on one log: their stores and log_writes interleave, and the last to end commits for
    all. After a crash at any disk write each operation is there as a whole or not at all. */
module Group {
  import opened Blocks
  import opened Collections
  import opened Bio
  import opened RedoLog
  import L = Log
  import opened Acts

  /** No operation has stores both among the first n and after them. */
  ghost predicate Clean(ss: seq<Stored>, n: nat) {
    n <= |ss| && forall x, y :: 0 <= x < n <= y < |ss| ==> ss[x].op != ss[y].op
  }

  /** Recovery of a crashed disk leaves the stores of whole operations. */
  ghost predicate Whole(l: Layout, crash: Disk, d: Disk, ss: seq<Stored>) {
    exists n: nat :: Clean(ss, n) && RecoversTo(l, crash, Replay(d, ss[..n]))
  }

  /** ... of each disk from the first on. */
  ghost predicate AllWhole(l: Layout, h: seq<Disk>, first: nat, d: Disk, ss: seq<Stored>) {
    forall k :: first <= k < |h| ==> Whole(l, h[k], d, ss)
  }

  /** The first `done` stores, all by operations below `floor`, are on disk; later ones are by later operations. */
  ghost predicate Split(ss: seq<Stored>, done: nat, floor: nat, begun: nat) {
    && done <= |ss| && floor <= begun
    && (forall x :: 0 <= x < done ==> ss[x].op < floor)
    && (forall x :: done <= x < |ss| ==> floor <= ss[x].op < begun)
  }

  /** ... and recovery of a crashed disk leaves some of them. */
  ghost predicate Before(l: Layout, crash: Disk, d: Disk, ss: seq<Stored>, done: nat) {
    exists n: nat :: n <= done && Clean(ss, n) && RecoversTo(l, crash, Replay(d, ss[..n]))
  }

  ghost predicate AllBefore(l: Layout, h: seq<Disk>, first: nat, d: Disk, ss: seq<Stored>, done: nat) {
    forall k :: first <= k < |h| ==> Before(l, h[k], d, ss, done)
  }

  /** The cache holds all stores, the disk the first `done`, and recovery of any of the disks leaves some of these. */
  ghost predicate Tells(l: Layout, view: Disk, disk: Disk, h: seq<Disk>, base: Disk, first: nat, ss: seq<Stored>,
                        done: nat) {
    && done <= |ss| && |base| == |disk|
    && SameHomes(l, view, Replay(base, ss)) && SameHomes(l, disk, Replay(base, ss[..done]))
    && AllBefore(l, h, first, base, ss, done)
  }

  lemma TellsMore(l: Layout, view: Disk, disk: Disk, h: seq<Disk>, base: Disk, first: nat, ss: seq<Stored>, done: nat,
                  floor: nat, begun: nat, s: Stored)
    requires Tells(l, view, disk, h, base, first, ss, done) && Split(ss, done, floor, begun)
    requires floor <= s.op < begun && s.b < |disk|
    ensures |view| == |disk| && Tells(l, view[s.b := s.data], disk, h, base, first, ss + [s], done)
    ensures Split(ss + [s], done, floor, begun)
  {
    hide AllBefore, Replay;
    ReplayMore(base, ss, s);
    SameStore(l, view, Replay(base, ss), s.b, s.data);
    AllBeforeMore(l, h, first, base, ss, done, floor, begun, s);
    assert (ss + [s])[..done] == ss[..done];
  }

  lemma SplitClean(ss: seq<Stored>, done: nat, floor: nat, begun: nat)
    requires Split(ss, done, floor, begun)
    ensures Clean(ss, done) && Clean(ss, |ss|)
  {
  }

  lemma SplitLater(ss: seq<Stored>, done: nat, floor: nat, begun: nat)
    requires Split(ss, done, floor, begun)
    ensures floor <= begun && Split(ss, done, floor, begun + 1)
  {
  }

  lemma SplitAll(ss: seq<Stored>, done: nat, floor: nat, begun: nat)
    requires Split(ss, done, floor, begun)
    ensures Split(ss, |ss|, begun, begun)
  {
  }

  /** The operations going on have numbers of their own, from floor on. */
  ghost predicate Numbered(ops: map<nat, nat>, floor: nat, begun: nat) {
    && (forall p :: p in ops ==> floor <= ops[p] < begun)
    && (forall p, q :: p in ops && q in ops && p != q ==> ops[p] != ops[q])
  }

  lemma NumberAt(ops: map<nat, nat>, floor: nat, begun: nat, p: nat)
    requires Numbered(ops, floor, begun) && p in ops
    ensures floor <= ops[p] < begun
  {
  }

  lemma SomeOp(ops: map<nat, nat>, p: nat)
    requires p in ops
    ensures |ops| >= 1
  {
    assert p in ops.Keys;
  }

  lemma NoneNumbered(floor: nat, begun: nat)
    ensures Numbered(map[], floor, begun)
  {
  }

  lemma OneLess(ops: map<nat, nat>, pid: nat, floor: nat, begun: nat)
    requires pid in ops && Numbered(ops, floor, begun)
    ensures (ops - {pid}).Keys == ops.Keys - {pid} && |ops - {pid}| == |ops| - 1
    ensures Numbered(ops - {pid}, floor, begun)
  {
    assert (ops - {pid}).Keys == ops.Keys - {pid};
  }

  lemma OneMore(ops: map<nat, nat>, pid: nat, floor: nat, n: nat)
    requires pid !in ops && Numbered(ops, floor, n) && floor <= n
    ensures ops[pid := n].Keys == ops.Keys + {pid} && |ops[pid := n]| == |ops| + 1
    ensures Numbered(ops[pid := n], floor, n + 1)
  {
    assert ops[pid := n].Keys == ops.Keys + {pid};
  }

  /** A store by a later operation leaves the cuts clean. */
  lemma CleanMore(ss: seq<Stored>, done: nat, floor: nat, begun: nat, s: Stored, n: nat)
    requires Split(ss, done, floor, begun) && floor <= s.op && Clean(ss, n) && n <= done
    ensures Clean(ss + [s], n) && (ss + [s])[..n] == ss[..n]
  {
  }

  lemma AllBeforeMore(l: Layout, h: seq<Disk>, first: nat, d: Disk, ss: seq<Stored>, done: nat, floor: nat,
                      begun: nat, s: Stored)
    requires AllBefore(l, h, first, d, ss, done) && Split(ss, done, floor, begun) && floor <= s.op
    ensures AllBefore(l, h, first, d, ss + [s], done)
  {
    hide RecoversTo, Replay;
    forall k | first <= k < |h|
      ensures Before(l, h[k], d, ss + [s], done)
    {
      hide Split;
      assert Before(l, h[k], d, ss, done);
      var n: nat :| n <= done && Clean(ss, n) && RecoversTo(l, h[k], Replay(d, ss[..n]));
      CleanMore(ss, done, floor, begun, s, n);
    }
  }

  /** RecoversTo looks at home blocks only. */
  lemma RecoversSame(l: Layout, crash: Disk, d: Disk, e: Disk)
    requires RecoversTo(l, crash, d) && SameHomes(l, d, e)
    ensures RecoversTo(l, crash, e)
  {
    hide Recovered;
  }

  /** The disks of a commit: up to some write they recover to the stores before, and then to all. */
  lemma CommitWhole(l: Layout, h0: seq<Disk>, h: seq<Disk>, first: nat, m: nat, d: Disk, v: Disk, base: Disk,
                    ss: seq<Stored>, done: nat, floor: nat, begun: nat)
    requires L.Extends(h0, h) && L.CommitPoint(l, h, |h0|, m, d, v)
    requires Split(ss, done, floor, begun) && AllBefore(l, h0, first, base, ss, done)
    requires SameHomes(l, d, Replay(base, ss[..done])) && SameHomes(l, v, Replay(base, ss))
    ensures AllBefore(l, h, first, base, ss, |ss|)
  {
    hide RecoversTo, Replay, SameHomes;
    SplitClean(ss, done, floor, begun);
    hide Split;
    forall k | first <= k < |h|
      ensures Before(l, h[k], base, ss, |ss|)
    {
      if k < |h0| {
        assert h[k] == h0[k] && Before(l, h0[k], base, ss, done);
        var n: nat :| n <= done && Clean(ss, n) && RecoversTo(l, h0[k], Replay(base, ss[..n]));
        assert n <= |ss|;
      } else if k < m {
        RecoversSame(l, h[k], d, Replay(base, ss[..done]));
      } else {
        assert ss[..|ss|] == ss;
        RecoversSame(l, h[k], v, Replay(base, ss));
      }
    }
  }

  lemma BeforeWhole(l: Layout, h: seq<Disk>, first: nat, d: Disk, ss: seq<Stored>, done: nat)
    requires AllBefore(l, h, first, d, ss, done)
    ensures AllWhole(l, h, first, d, ss)
  {
    hide RecoversTo, Replay;
    forall k | first <= k < |h|
      ensures Whole(l, h[k], d, ss)
    {
      assert Before(l, h[k], d, ss, done);
      var n: nat :| n <= done && Clean(ss, n) && RecoversTo(l, h[k], Replay(d, ss[..n]));
    }
  }

  lemma SameStore(l: Layout, d: Disk, e: Disk, b: nat, data: Block)
    requires SameHomes(l, d, e) && b < |d|
    ensures SameHomes(l, d[b := data], e[b := data])
  {
  }

  lemma SameHomesToo(l: Layout, d: Disk, e: Disk, f: Disk)
    requires SameHomes(l, d, e) && SameHomes(l, e, f)
    ensures SameHomes(l, d, f)
  {
  }

  lemma OnlyOne(s: set<nat>, p: nat)
    requires p in s && |s| == 1
    ensures s == {p}
  {
    assert |s - {p}| == 0;
  }

  /** The buffer of a block. */
  ghost function At(buf: seq<Buf>, b: nat): (i: nat)
    requires |buf| == NBUF && exists j :: 0 <= j < NBUF && Holds(buf[j], ROOTDEV, b)
    ensures i < NBUF && Holds(buf[i], ROOTDEV, b)
  {
    var i: nat :| i < NBUF && Holds(buf[i], ROOTDEV, b);
    i
  }

  /** The numbers above 0 that go with buffers, by block. */
  ghost function Tags(buf: seq<Buf>, tags: seq<nat>): map<nat, nat>
    requires |buf| == |tags| == NBUF
  {
    map b | b in Tagged(buf, tags) :: tags[At(buf, b)]
  }

  ghost function Tagged(buf: seq<Buf>, tags: seq<nat>): (bs: set<nat>)
    requires |buf| == |tags| == NBUF
    ensures forall b :: b in bs <==> exists i :: 0 <= i < NBUF && Holds(buf[i], ROOTDEV, b) && tags[i] > 0
  {
    set i | 0 <= i < NBUF && buf[i].dev == ROOTDEV && tags[i] > 0 :: buf[i].blockno
  }

  lemma TagAt(buf: seq<Buf>, tags: seq<nat>, i: nat, b: nat)
    requires |buf| == |tags| == NBUF && UniqueKeys(buf) && i < NBUF && Holds(buf[i], ROOTDEV, b)
    ensures b in Tags(buf, tags) <==> tags[i] > 0
    ensures tags[i] > 0 ==> Tags(buf, tags)[b] == tags[i]
  {
    hide Holds;
    assert forall j :: 0 <= j < NBUF && Holds(buf[j], ROOTDEV, b) ==> j == i by { KeyAt(buf, i, b); }
  }

  lemma KeyAt(buf: seq<Buf>, i: nat, b: nat)
    requires |buf| == NBUF && UniqueKeys(buf) && i < NBUF && Holds(buf[i], ROOTDEV, b)
    ensures forall j :: 0 <= j < NBUF && Holds(buf[j], ROOTDEV, b) ==> j == i
  {
  }

  /** A change to one buffer and its tag, which keeps the block or had no tag. */
  lemma TagChange(buf: seq<Buf>, tags: seq<nat>, i: nat, x: Buf, v: nat)
    requires |buf| == |tags| == NBUF && i < NBUF && UniqueKeys(buf) && UniqueKeys(buf[i := x]) && x.dev == ROOTDEV
    requires Holds(x, buf[i].dev, buf[i].blockno) || tags[i] == 0
    ensures Tags(buf[i := x], tags[i := v]) ==
      if v > 0 then Tags(buf, tags)[x.blockno := v] else Tags(buf, tags) - {x.blockno}
  {
    hide Tags, UniqueKeys;
    var m, m' := Tags(buf, tags), Tags(buf[i := x], tags[i := v]);
    TagAt(buf[i := x], tags[i := v], i, x.blockno);
    forall b | b != x.blockno
      ensures b in m' <==> b in m
      ensures b in m ==> m'[b] == m[b]
    {
      TagElse(buf, tags, i, x, v, b);
    }
  }

  lemma TagElse(buf: seq<Buf>, tags: seq<nat>, i: nat, x: Buf, v: nat, b: nat)
    requires |buf| == |tags| == NBUF && i < NBUF && UniqueKeys(buf) && UniqueKeys(buf[i := x]) && x.blockno != b
    requires Holds(x, buf[i].dev, buf[i].blockno) || tags[i] == 0
    ensures b in Tags(buf[i := x], tags[i := v]) <==> b in Tags(buf, tags)
    ensures b in Tags(buf, tags) ==> Tags(buf[i := x], tags[i := v])[b] == Tags(buf, tags)[b]
  {
    if j: nat :| j < NBUF && j != i && Holds(buf[j], ROOTDEV, b) {
      assert buf[i := x][j] == buf[j];
      TagAt(buf, tags, j, b);
      TagAt(buf[i := x], tags[i := v], j, b);
    } else if Holds(buf[i], ROOTDEV, b) {
      TagAt(buf, tags, i, b);
    }
  }

  /** A change that keeps block and tag. */
  lemma TagSame(buf: seq<Buf>, tags: seq<nat>, i: nat, x: Buf)
    requires |buf| == |tags| == NBUF && i < NBUF && UniqueKeys(buf) && UniqueKeys(buf[i := x])
    requires x.dev == ROOTDEV == buf[i].dev && x.blockno == buf[i].blockno
    ensures Tags(buf[i := x], tags) == Tags(buf, tags)
  {
    hide Tags, UniqueKeys;
    TagChange(buf, tags, i, x, tags[i]);
    TagAt(buf, tags, i, x.blockno);
    assert tags[i := tags[i]] == tags;
  }

  function Pids(buf: seq<Buf>): (ps: seq<nat>)
    ensures |ps| == |buf|
  {
    seq(|buf|, i requires 0 <= i < |buf| => buf[i].pid)
  }

  /** Who has which block locked. */
  ghost function Locks(buf: seq<Buf>): map<nat, nat>
    requires |buf| == NBUF
  {
    Tags(buf, Pids(buf))
  }

  lemma LockAt(buf: seq<Buf>, i: nat, b: nat)
    requires |buf| == NBUF && UniqueKeys(buf) && i < NBUF && Holds(buf[i], ROOTDEV, b)
    ensures b in Locks(buf) <==> buf[i].pid > 0
    ensures buf[i].pid > 0 ==> Locks(buf)[b] == buf[i].pid
  {
    hide Tags;
    TagAt(buf, Pids(buf), i, b);
  }

  lemma LockChange(buf: seq<Buf>, i: nat, x: Buf)
    requires |buf| == NBUF && i < NBUF && UniqueKeys(buf) && UniqueKeys(buf[i := x]) && x.dev == ROOTDEV
    requires Holds(x, buf[i].dev, buf[i].blockno) || buf[i].pid == 0
    ensures Locks(buf[i := x]) == if x.pid > 0 then Locks(buf)[x.blockno := x.pid] else Locks(buf) - {x.blockno}
  {
    hide Tags, UniqueKeys;
    TagChange(buf, Pids(buf), i, x, x.pid);
    assert Pids(buf[i := x]) == Pids(buf)[i := x.pid];
  }

  /** A change that keeps block and lock. */
  lemma LockSame(buf: seq<Buf>, i: nat, x: Buf)
    requires |buf| == NBUF && i < NBUF && UniqueKeys(buf) && UniqueKeys(buf[i := x])
    requires x.dev == ROOTDEV == buf[i].dev && x.blockno == buf[i].blockno && x.pid == buf[i].pid
    ensures Locks(buf[i := x]) == Locks(buf)
  {
    hide Tags, UniqueKeys;
    TagSame(buf, Pids(buf), i, x);
    assert Pids(buf[i := x]) == Pids(buf);
  }

  lemma NoBuffer(buf: seq<Buf>, tags: seq<nat>, b: nat)
    requires |buf| == |tags| == NBUF && forall i :: 0 <= i < NBUF ==> !Holds(buf[i], ROOTDEV, b)
    ensures b !in Tags(buf, tags) && b !in Locks(buf)
  {
  }

  /** A process has no lock exactly if it has no buffer locked. */
  lemma NoLock(buf: seq<Buf>, refs: seq<nat>, pinned: set<nat>, pid: nat)
    requires |buf| == NBUF && Counts(buf, refs, pinned) && pid != 0
    ensures (forall i :: 0 <= i < NBUF ==> buf[i].pid != pid) <==> pid !in Locks(buf).Values
  {
    hide Tags;
    if i :| 0 <= i < NBUF && buf[i].pid == pid {
      assert Counted(buf[i], refs[i], pinned);
      LockAt(buf, i, buf[i].blockno);
      assert Locks(buf)[buf[i].blockno] == pid;
    }
    if pid in Locks(buf).Values {
      var b :| b in Locks(buf) && Locks(buf)[b] == pid;
      var i := LockedIn(buf, b);
      LockAt(buf, i, b);
    }
  }

  lemma LockedIn(buf: seq<Buf>, b: nat) returns (i: nat)
    requires |buf| == NBUF && b in Locks(buf)
    ensures i < NBUF && Holds(buf[i], ROOTDEV, b)
  {
    i :| i < NBUF && Holds(buf[i], ROOTDEV, b) && Pids(buf)[i] > 0;
  }

  /** bget fails exactly when the blocks referred to and those pinned, the block not among them, fill the buffers. */
  lemma GetFails(buf: seq<Buf>, refs: seq<nat>, pinned: set<nat>, b: nat)
    requires |buf| == |refs| == NBUF && Counts(buf, refs, pinned)
    ensures (forall i :: 0 <= i < NBUF ==> !Holds(buf[i], ROOTDEV, b) && buf[i].refcnt > 0) <==>
      b !in Tags(buf, refs) && b !in pinned && |Tags(buf, refs).Keys + pinned| >= NBUF
  {
    hide Tags, Used, Readers, Counts;
    AllInUseWhen(buf, refs, pinned);
    UsedAre(buf, refs, pinned);
    UsedBound(buf, refs, pinned);
    TaggedReaders(buf, refs, pinned);
    assert Tags(buf, refs).Keys + pinned == Used(buf);
    UsedHolds(buf, refs, pinned, b);
  }

  lemma UsedBound(buf: seq<Buf>, refs: seq<nat>, pinned: set<nat>)
    requires |buf| == NBUF && Counts(buf, refs, pinned)
    ensures |Used(buf)| <= NBUF
  {
    hide Counts;
    UsedSize(buf, refs, pinned, Used(buf));
    AllBelow(Numbers(buf, Used(buf)), NBUF);
  }

  lemma TaggedReaders(buf: seq<Buf>, refs: seq<nat>, pinned: set<nat>)
    requires |buf| == |refs| == NBUF && Counts(buf, refs, pinned)
    ensures Tags(buf, refs).Keys == Readers(buf, refs, {})
  {
    forall i: nat | i < NBUF && refs[i] > 0
      ensures Holds(buf[i], ROOTDEV, buf[i].blockno)
    {
      assert Counted(buf[i], refs[i], pinned);
    }
  }

  /** A block in use is in a buffer, and with every buffer in use a block in a buffer is in use. */
  lemma UsedHolds(buf: seq<Buf>, refs: seq<nat>, pinned: set<nat>, b: nat)
    requires |buf| == |refs| == NBUF && Counts(buf, refs, pinned)
    ensures b in Used(buf) ==> exists i :: 0 <= i < NBUF && Holds(buf[i], ROOTDEV, b)
    ensures AllInUse(buf) && (exists i :: 0 <= i < NBUF && Holds(buf[i], ROOTDEV, b)) ==> b in Used(buf)
  {
    if b in Used(buf) {
      var i: nat :| i < NBUF && buf[i].refcnt > 0 && buf[i].blockno == b;
      assert Counted(buf[i], refs[i], pinned) && Holds(buf[i], ROOTDEV, b);
    }
  }

  /** A block newer than the disk is logged, or in `unlogged`: a process in an operation has it locked, has stored into
      it, and has not yet passed it to log_write. */
  ghost predicate Tidy(locks: map<nat, nat>, pinned: set<nat>, dirty: set<nat>, procs: set<nat>, unlogged: set<nat>) {
    && 0 !in procs && dirty <= pinned + unlogged
    && forall b :: b in unlogged ==> b in locks && locks[b] in procs
  }

  ghost predicate AllFilled(buf: seq<Buf>) {
    forall i :: 0 <= i < |buf| ==> Filled(buf[i])
  }

  /** The buffers among the operations. */
  ghost predicate Ordered(buf: seq<Buf>, pinned: set<nat>, dirty: set<nat>, procs: set<nat>, unlogged: set<nat>) {
    |buf| == NBUF && AllFilled(buf) && Tidy(Locks(buf), pinned, dirty, procs, unlogged)
  }

  lemma OrderedProcs(buf: seq<Buf>, pinned: set<nat>, dirty: set<nat>, procs: set<nat>, unlogged: set<nat>, p: nat)
    requires Ordered(buf, pinned, dirty, procs, unlogged)
    ensures p != 0 ==> Ordered(buf, pinned, dirty, procs + {p}, unlogged)
    ensures p !in Locks(buf).Values ==> Ordered(buf, pinned, dirty, procs - {p}, unlogged)
    ensures p !in Locks(buf).Values && procs == {p} ==> unlogged == {} && dirty <= pinned
  {
    hide Locks;
  }

  /** The unlogged blocks are locked. */
  lemma OrderedLocks(buf: seq<Buf>, pinned: set<nat>, dirty: set<nat>, procs: set<nat>, unlogged: set<nat>)
    requires Ordered(buf, pinned, dirty, procs, unlogged)
    ensures |buf| == NBUF && unlogged <= Locks(buf).Keys && dirty <= pinned + unlogged && 0 !in procs
    ensures forall i :: 0 <= i < NBUF ==> Filled(buf[i])
  {
    hide Locks;
  }

  /** A change to one buffer that keeps the locks of the unlogged blocks. */
  lemma OrderedFrame(buf: seq<Buf>, pinned: set<nat>, dirty: set<nat>, procs: set<nat>, unlogged: set<nat>, i: nat,
                     x: Buf)
    requires Ordered(buf, pinned, dirty, procs, unlogged) && i < NBUF && Filled(x)
    requires forall b :: b in unlogged && b in Locks(buf) ==>
      b in Locks(buf[i := x]) && Locks(buf[i := x])[b] == Locks(buf)[b]
    ensures Ordered(buf[i := x], pinned, dirty, procs, unlogged)
  {
    hide Locks;
  }

  /** A store into a block that a process in an operation has locked. */
  lemma OrderedStore(buf: seq<Buf>, pinned: set<nat>, dirty: set<nat>, procs: set<nat>, unlogged: set<nat>, b: nat)
    requires Ordered(buf, pinned, dirty, procs, unlogged) && b in Locks(buf) && Locks(buf)[b] in procs
    ensures Ordered(buf, pinned, dirty + {b}, procs, unlogged + {b})
  {
    hide Locks;
  }

  /** And its log_write. */
  lemma OrderedLog(buf: seq<Buf>, pinned: set<nat>, dirty: set<nat>, procs: set<nat>, unlogged: set<nat>, b: nat)
    requires Ordered(buf, pinned, dirty, procs, unlogged)
    ensures Ordered(buf, pinned + {b}, dirty, procs, unlogged - {b})
  {
    hide Locks;
  }

  /** A change to the data or the count of a buffer. */
  lemma OrderedSame(buf: seq<Buf>, refs: seq<nat>, pinned: set<nat>, dirty: set<nat>, procs: set<nat>,
                    unlogged: set<nat>, i: nat, x: Buf)
    requires Ordered(buf, pinned, dirty, procs, unlogged) && |buf| == |refs| == NBUF && i < NBUF
    requires UniqueKeys(buf) && UniqueKeys(buf[i := x]) && buf[i].dev == ROOTDEV
    requires Holds(x, ROOTDEV, buf[i].blockno) && x.pid == buf[i].pid && x.valid == buf[i].valid
    ensures Ordered(buf[i := x], pinned, dirty, procs, unlogged)
    ensures Tags(buf[i := x], refs) == Tags(buf, refs) && Locks(buf[i := x]) == Locks(buf)
  {
    hide Locks, Ordered, Tags, UniqueKeys;
    TagSame(buf, refs, i, x);
    LockSame(buf, i, x);
    OrderedLocks(buf, pinned, dirty, procs, unlogged);
    OrderedFrame(buf, pinned, dirty, procs, unlogged, i, x);
  }

  lemma Keys(buf: seq<Buf>, refs: seq<nat>, pinned: set<nat>)
    requires |buf| == NBUF && Counts(buf, refs, pinned)
    ensures |refs| == NBUF && UniqueKeys(buf)
  {
  }

  /** bget's change to its buffer. */
  ghost predicate Gets(buf: seq<Buf>, refs: seq<nat>, b: nat, i: nat, x: Buf, r: nat)
    requires |buf| == |refs| == NBUF
  {
    && i < NBUF && r == refs[i] + 1 && Holds(x, ROOTDEV, b) && x.pid == buf[i].pid
    && (Holds(buf[i], ROOTDEV, b) ==> x.valid == buf[i].valid)
    && (Holds(buf[i], ROOTDEV, b)
         || (buf[i].refcnt == 0 && buf[i].pid == 0 && forall j :: 0 <= j < NBUF ==> !Holds(buf[j], ROOTDEV, b)))
  }

  /** A count one higher. */
  function OneUp(m: map<nat, nat>, b: nat): map<nat, nat> {
    m[b := (if b in m then m[b] else 0) + 1]
  }

  lemma UnusedRefs(buf: seq<Buf>, refs: seq<nat>, pinned: set<nat>, i: nat)
    requires |buf| == |refs| == NBUF && Counts(buf, refs, pinned) && i < NBUF
    ensures (buf[i].refcnt == 0 ==> refs[i] == 0) && UniqueKeys(buf)
    ensures buf[i].pid > 0 || refs[i] > 0 ==> buf[i].dev == ROOTDEV
  {
    assert Counted(buf[i], refs[i], pinned);
  }

  lemma GetTags(buf: seq<Buf>, refs: seq<nat>, pinned: set<nat>, b: nat, i: nat, x: Buf, r: nat)
    requires |buf| == |refs| == NBUF && Counts(buf, refs, pinned) && Gets(buf, refs, b, i, x, r)
    requires UniqueKeys(buf[i := x])
    ensures Tags(buf[i := x], refs[i := r]) == OneUp(Tags(buf, refs), b)
  {
    hide Tags, UniqueKeys, Counts;
    UnusedRefs(buf, refs, pinned, i);
    TagChange(buf, refs, i, x, r);
    if Holds(buf[i], ROOTDEV, b) {
      TagAt(buf, refs, i, b);
    } else {
      NoBuffer(buf, refs, b);
    }
  }

  lemma GetLocks(buf: seq<Buf>, refs: seq<nat>, pinned: set<nat>, b: nat, i: nat, x: Buf, r: nat)
    requires |buf| == |refs| == NBUF && Counts(buf, refs, pinned) && Gets(buf, refs, b, i, x, r)
    requires UniqueKeys(buf[i := x])
    ensures Locks(buf[i := x]) == Locks(buf)
  {
    hide Tags, UniqueKeys, Counts, Locks;
    UnusedRefs(buf, refs, pinned, i);
    LockChange(buf, i, x);
    if Holds(buf[i], ROOTDEV, b) {
      LockAt(buf, i, b);
    } else {
      NoBuffer(buf, refs, b);
    }
  }

  method GetBuffer(c: Bcache, b: nat) returns (r: Option<nat>)
    requires c.Valid()
    modifies c`buf, c`refs
    ensures c.Valid() && |old(c.buf)| == |old(c.refs)| == NBUF && |c.buf| == |c.refs| == NBUF
    ensures r.None? <==>
      b !in old(Tags(c.buf, c.refs)) && b !in c.pinned && |old(Tags(c.buf, c.refs)).Keys + c.pinned| >= NBUF
    ensures r.None? ==> c.buf == old(c.buf) && c.refs == old(c.refs)
    ensures r.Some? ==>
      var i := r.value;
      && i < NBUF && Gets(old(c.buf), old(c.refs), b, i, c.buf[i], c.refs[i])
      && c.buf == old(c.buf)[i := c.buf[i]] && c.refs == old(c.refs)[i := c.refs[i]]
    ensures r.Some? ==>
      Tags(c.buf, c.refs) == OneUp(old(Tags(c.buf, c.refs)), b) && Locks(c.buf) == old(Locks(c.buf))
  {
    c.IsCounted();
    hide Tags, UniqueKeys, Counts, Locks, Bcache.Valid;
    GetFails(c.buf, c.refs, c.pinned, b);
    r := c.BGet(ROOTDEV, b);
    if r.Some? {
      var i := r.value;
      c.IsCounted();
      Keys(c.buf, c.refs, c.pinned);
      assert c.buf == old(c.buf)[i := c.buf[i]] && c.refs == old(c.refs)[i := c.refs[i]];
      GetTags(old(c.buf), old(c.refs), c.pinned, b, i, c.buf[i], c.refs[i]);
      GetLocks(old(c.buf), old(c.refs), c.pinned, b, i, c.buf[i], c.refs[i]);
    }
  }

  class Ops {
    const log: L.Log
    /** The processes between begin_op and end_op, and the number of the operation of each. */
    var ops: map<nat, nat>
    var begun: nat
    /** The blocks stored into and not yet passed to log_write. */
    var unlogged: set<nat>
    ghost const base: Disk
    ghost const first: nat
    ghost var stores: seq<Stored>
    ghost var done: nat
    ghost var floor: nat

    ghost predicate Valid()
      reads this, log, log.cache
    {
      && log.Valid() && !log.committing && log.outstanding == |ops|
      && Ordered(log.cache.buf, log.cache.pinned, log.cache.dirty, ops.Keys, unlogged)
      && Tells(log.layout, log.cache.view, log.cache.disk, log.cache.history, base, first, stores, done)
      && Split(stores, done, floor, begun) && Numbered(ops, floor, begun) && (ops == map[] ==> done == |stores|)
    }

    /** The scene, block by block. */
    ghost function Now(): Scene
      reads this, log, log.cache
      requires |log.cache.buf| == |log.cache.refs| == NBUF
    {
      Scene(ops, begun, Tags(log.cache.buf, log.cache.refs), Locks(log.cache.buf), log.blocks, unlogged, stores, done)
    }

    lemma Shape()
      requires Valid()
      ensures |log.cache.buf| == |log.cache.refs| == NBUF && UniqueKeys(log.cache.buf)
      ensures |base| == |log.cache.disk| == |log.cache.view| && 0 !in ops
    {
    }

    lemma Sizes()
      requires Valid()
      ensures |log.cache.buf| == |log.cache.refs| == NBUF
    {
    }

    /** A log between operations, with everything committed and no process in the middle of bread. */
    constructor (log: L.Log)
      requires log.Valid() && log.outstanding == 0 && !log.committing && log.cache.dirty <= log.cache.pinned
      requires SameHomes(log.layout, log.cache.disk, log.cache.view) && AllFilled(log.cache.buf)
      ensures Valid() && this.log == log && stores == [] && ops == map[] && unlogged == {} && base == log.cache.view
      ensures first == |log.cache.history| - 1
    {
      this.log, ops, begun, unlogged := log, map[], 0, {};
      base, first, stores, done, floor := log.cache.view, |log.cache.history| - 1, [], 0, 0;
      new;
      Starts();
    }

    lemma Starts()
      requires log.Valid() && stores == [] && done == floor == begun == 0 && base == log.cache.view
      requires first == |log.cache.history| - 1 && SameHomes(log.layout, log.cache.disk, log.cache.view)
      ensures Split(stores, done, floor, begun)
      ensures Tells(log.layout, log.cache.view, log.cache.disk, log.cache.history, base, first, stores, done)
    {
      hide Held, Ring, Counts, Agrees, Recovered;
      L.EmptiedRecovers(log.layout, log.cache.disk, base);
      assert Clean(stores, 0) && stores[..0] == [];
      assert Before(log.layout, log.cache.disk, base, stores, 0);
    }

    /** The buffer of a block, if it has one, with what the scene says of it. */
    method Find(b: nat) returns (i: nat)
      requires Valid()
      ensures i <= NBUF == |log.cache.buf| == |log.cache.refs|
      ensures i < NBUF ==> Holds(log.cache.buf[i], ROOTDEV, b)
      ensures i < NBUF ==> RefCount(Now(), b) == log.cache.refs[i] && (b in Now().refs <==> log.cache.refs[i] > 0)
      ensures i < NBUF ==> (b in Now().locks <==> log.cache.buf[i].pid > 0)
      ensures i < NBUF && log.cache.buf[i].pid > 0 ==> Now().locks[b] == log.cache.buf[i].pid
      ensures i == NBUF ==> b !in Now().refs && b !in Now().locks
    {
      var c := log.cache;
      Shape();
      hide Valid, Tags, UniqueKeys;
      i := c.Lookup(ROOTDEV, b);
      if i < NBUF {
        TagAt(c.buf, c.refs, i, b);
        LockAt(c.buf, i, b);
      } else {
        NoBuffer(c.buf, c.refs, b);
      }
    }

    method BeginOp(pid: nat)
      requires Valid()
      modifies `ops, `begun, log`outstanding
      ensures Valid() && Now() == Begun(old(Now()), pid)
    {
      hide L.Log.Valid, Tells, Split, Numbered, Tags, Ordered, Locks, UniqueKeys;
      Shape();
      assert floor <= begun by { SplitLater(stores, done, floor, begun); }
      if pid != 0 && pid !in ops {
        var admitted := log.BeginOp();
        if admitted {
          OneMore(ops, pid, floor, begun);
          OrderedProcs(log.cache.buf, log.cache.pinned, log.cache.dirty, ops.Keys, unlogged, pid);
          SplitLater(stores, done, floor, begun);
          ops, begun := ops[pid := begun], begun + 1;
        }
      }
    }

    /** bget: it panics exactly when the scene says so. */
    method Bget(b: nat) returns (ok: bool)
      requires Valid()
      modifies log.cache`buf, log.cache`refs
      ensures Valid() && ok == !Fails(log.layout, old(Now()), Acts.Want(b))
      ensures Now() == if ok then Wanted(old(Now()), b) else old(Now())
    {
      hide Tells, Split, Numbered, Tags, Ordered, Locks, Bcache.Valid, Gets;
      var c := log.cache;
      var r := GetBuffer(c, b);
      ok := r.Some?;
      if ok {
        Got(old(c.buf), old(c.refs), b, r.value, c.buf[r.value], c.refs[r.value]);
      }
    }

    lemma Got(buf: seq<Buf>, refs: seq<nat>, b: nat, i: nat, x: Buf, r: nat)
      requires |buf| == |refs| == NBUF && Ordered(buf, log.cache.pinned, log.cache.dirty, ops.Keys, unlogged)
      requires Gets(buf, refs, b, i, x, r) && Locks(buf[i := x]) == Locks(buf)
      ensures Ordered(buf[i := x], log.cache.pinned, log.cache.dirty, ops.Keys, unlogged)
    {
      hide Locks, Ordered;
      OrderedLocks(buf, log.cache.pinned, log.cache.dirty, ops.Keys, unlogged);
      OrderedFrame(buf, log.cache.pinned, log.cache.dirty, ops.Keys, unlogged, i, x);
    }

    /** A change to buffer i, which has block b, of its lock alone. */
    lemma Relocked(buf: seq<Buf>, b: nat, i: nat, x: Buf)
      requires |buf| == |log.cache.refs| == NBUF && i < NBUF && UniqueKeys(buf) && UniqueKeys(buf[i := x])
      requires Ordered(buf, log.cache.pinned, log.cache.dirty, ops.Keys, unlogged)
      requires Holds(buf[i], ROOTDEV, b) && Holds(x, ROOTDEV, b) && Filled(x) && (b in unlogged ==> x.pid == buf[i].pid)
      ensures Ordered(buf[i := x], log.cache.pinned, log.cache.dirty, ops.Keys, unlogged)
      ensures Tags(buf[i := x], log.cache.refs) == Tags(buf, log.cache.refs)
      ensures Locks(buf[i := x]) == if x.pid > 0 then Locks(buf)[b := x.pid] else Locks(buf) - {b}
    {
      hide Locks, Ordered, Tags, UniqueKeys;
      TagSame(buf, log.cache.refs, i, x);
      LockChange(buf, i, x);
      LockAt(buf, i, b);
      OrderedFrame(buf, log.cache.pinned, log.cache.dirty, ops.Keys, unlogged, i, x);
    }

    /** acquiresleep, and the rest of bread. */
    method Lock(b: nat, pid: nat)
      requires Valid()
      modifies log.cache`buf
      ensures Valid() && Now() == Taken(old(Now()), |base|, b, pid)
    {
      hide Tells, Split, Numbered, Tags, Ordered, Locks, UniqueKeys, Counts, Bcache.Valid;
      var c := log.cache;
      Shape();
      var i := Find(b);
      if i < NBUF && pid != 0 && c.buf[i].pid == 0 && c.refs[i] > 0 && b < |c.disk| {
        c.Lock(pid, i);
        c.Fill(pid, i);
        c.IsCounted();
        Keys(c.buf, c.refs, c.pinned);
        assert c.buf == old(c.buf)[i := c.buf[i]];
        OrderedLocks(old(c.buf), c.pinned, c.dirty, ops.Keys, unlogged);
        Relocked(old(c.buf), b, i, c.buf[i]);
      }
    }

    /** releasesleep; of a block that waits for its log_write, not yet. */
    method ReleaseSleep(b: nat)
      requires Valid()
      modifies log.cache`buf
      ensures Valid() && Now() == Left(old(Now()), b)
    {
      hide Tells, Split, Numbered, Tags, Ordered, Locks, UniqueKeys, Counts, Bcache.Valid;
      var c := log.cache;
      Shape();
      var i := Find(b);
      if i < NBUF && c.buf[i].pid != 0 && b !in unlogged {
        c.ReleaseSleep(c.buf[i].pid, i);
        c.IsCounted();
        Keys(c.buf, c.refs, c.pinned);
        assert c.buf == old(c.buf)[i := c.buf[i]];
        Relocked(old(c.buf), b, i, c.buf[i]);
      }
    }

    /** The rest of brelse. */
    method Unref(b: nat)
      requires Valid()
      modifies log.cache`buf, log.cache`refs, log.cache`next, log.cache`prev, log.cache`order
      ensures Valid() && Now() == Dropped(old(Now()), b)
    {
      hide Tells, Split, Numbered, Tags, Ordered, Locks, UniqueKeys, Counts, Bcache.Valid, ToFront;
      var c := log.cache;
      Shape();
      var i := Find(b);
      if i < NBUF && c.refs[i] > B(c.buf[i].pid != 0) {
        OrderedLocks(c.buf, c.pinned, c.dirty, ops.Keys, unlogged);
        c.Unref(i);
        c.IsCounted();
        Keys(c.buf, c.refs, c.pinned);
        OrderedSame(old(c.buf), old(c.refs), c.pinned, c.dirty, ops.Keys, unlogged, i, c.buf[i]);
        TagChange(old(c.buf), old(c.refs), i, c.buf[i], c.refs[i]);
      }
    }

    method StoreData(b: nat, data: Block)
      requires Valid()
      modifies `unlogged, `stores, log.cache`buf, log.cache`view, log.cache`dirty
      ensures Valid() && Now() == AfterStore(log.layout, old(Now()), b, data)
    {
      hide Tells, Split, Numbered, Tags, Ordered, Locks, UniqueKeys, L.Log.Valid;
      var c := log.cache;
      Shape();
      var i := Find(b);
      if i < NBUF && c.buf[i].pid in ops && !log.layout.InLog(b) {
        Locked(i);
        ghost var s := Stored(ops[c.buf[i].pid], b, data);
        NumberAt(ops, floor, begun, c.buf[i].pid);
        TellsMore(log.layout, c.view, c.disk, c.history, base, first, stores, done, floor, begun, s);
        log.Store(c.buf[i].pid, i, data);
        CacheKeys();
        OrderedStore(old(c.buf), c.pinned, old(c.dirty), ops.Keys, unlogged, b);
        OrderedSame(old(c.buf), c.refs, c.pinned, c.dirty, ops.Keys, unlogged + {b}, i, c.buf[i]);
        unlogged, stores := unlogged + {b}, stores + [s];
      }
    }

    lemma CacheKeys()
      requires log.Valid()
      ensures |log.cache.buf| == |log.cache.refs| == NBUF && UniqueKeys(log.cache.buf)
    {
      hide Ring, Agrees;
    }

    /** A buffer that a process in an operation has locked. */
    lemma Locked(i: nat)
      requires Valid() && i < NBUF && log.cache.buf[i].pid in ops
      ensures log.cache.buf[i].pid != 0 && log.cache.buf[i].dev == ROOTDEV && log.cache.buf[i].valid
      ensures log.cache.buf[i].blockno < |log.cache.disk|
    {
      hide Tells, Split, Ring, Counts, Agrees, Ordered;
      var c := log.cache;
      OrderedLocks(c.buf, c.pinned, c.dirty, ops.Keys, unlogged);
      c.LockedRefs();
      c.RealDevice(i);
      c.OnDisk(i);
    }

    method LogWrite(b: nat) returns (ok: bool)
      requires Valid()
      modifies `unlogged, log`blocks, log.cache`buf, log.cache`pinned
      ensures Valid() && ok == !Fails(log.layout, old(Now()), Log(b))
      ensures Now() == if ok then AfterLog(log.layout, old(Now()), b) else old(Now())
    {
      hide Tells, Split, Numbered, Tags, Ordered, Locks, UniqueKeys, L.Log.Valid;
      var c := log.cache;
      ok := true;
      Shape();
      var i := Find(b);
      if i < NBUF && c.buf[i].pid in ops && !log.layout.InLog(b) {
        Locked(i);
        SomeOp(ops, c.buf[i].pid);
        var r := log.Record(i);
        ok := r.Ok?;
        if ok {
          CacheKeys();
          OrderedLog(old(c.buf), old(c.pinned), c.dirty, ops.Keys, unlogged, b);
          OrderedSame(old(c.buf), c.refs, c.pinned, c.dirty, ops.Keys, unlogged - {b}, i, c.buf[i]);
          unlogged := unlogged - {b};
        }
      }
    }

    /** end_op with other operations going on. */
    method EndOne(pid: nat)
      requires Valid() && MayEnd(Now(), pid) && |ops| > 1
      modifies `ops, log, log.cache
      ensures Valid() && Now() == Ended(old(Now()), pid) && log.cache.history == old(log.cache.history)
    {
      hide Tells, Split, Numbered, Tags, Ordered, Locks, UniqueKeys, L.Log.Valid, L.Log.Quiet, L.CommitPoint, L.Extends,
        Bcache.Crowded;
      var c := log.cache;
      Shape();
      OrderedProcs(c.buf, c.pinned, c.dirty, ops.Keys, unlogged, pid);
      OneLess(ops, pid, floor, begun);
      var r := log.EndOp(pid);
      ops := ops - {pid};
    }

    /** With only one operation, of a process that has no lock, every store has been logged. */
    lemma LastQuiet(pid: nat)
      requires Valid() && MayEnd(Now(), pid) && |ops| == 1
      ensures unlogged == {} && log.Quiet(pid) && ops - {pid} == map[]
    {
      hide Tells, Split, Ring, Agrees, Ordered, Locks, Tags, UniqueKeys;
      var c := log.cache;
      OnlyOne(ops.Keys, pid);
      OrderedProcs(c.buf, c.pinned, c.dirty, ops.Keys, unlogged, pid);
      OrderedLocks(c.buf, c.pinned, c.dirty, ops.Keys, unlogged);
      NoLock(c.buf, c.refs, c.pinned, pid);
    }

    /** The end_op of the last operation: all stores are on disk, or it panics for lack of buffers. */
    method EndLast(pid: nat) returns (ok: bool)
      requires Valid() && MayEnd(Now(), pid) && |ops| == 1
      modifies `ops, `done, `floor, log, log.cache
      ensures ok ==> Valid() && Follows(log.layout, |base|, old(Now()), End(pid), Now())
      ensures !ok ==> log.cache.Crowded(pid, |old(log.blocks)|)
      ensures AllBefore(log.layout, log.cache.history, first, base, stores, |stores|)
    {
      hide Split, L.Log.Valid, L.Log.Quiet, AllBefore, SameHomes, Replay, L.CommitPoint, L.Extends, Bcache.Crowded,
        Ordered, Locks, Tags, UniqueKeys, Numbered;
      var c := log.cache;
      Shape();
      LastQuiet(pid);
      ghost var d, v, h := c.disk, c.view, c.history;
      var r := log.EndOp(pid);
      ok := r.Ok?;
      ghost var m :| L.CommitPoint(log.layout, c.history, |h|, m, d, v);
      CommitWhole(log.layout, h, c.history, first, m, d, v, base, stores, done, floor, begun);
      SplitAll(stores, done, floor, begun);
      ops, done, floor := map[], |stores|, begun;
      if ok {
        assert stores[..done] == stores && |ops| == 0;
        SameHomesToo(log.layout, c.view, v, Replay(base, stores));
        SameHomesToo(log.layout, c.disk, v, Replay(base, stores));
        QuietOrdered(pid);
        NoneNumbered(floor, begun);
      }
    }

    lemma QuietOrdered(pid: nat)
      requires log.Valid() && log.Quiet(pid)
      ensures Ordered(log.cache.buf, log.cache.pinned, log.cache.dirty, {}, {})
      ensures |log.cache.buf| == |log.cache.refs| == NBUF && pid !in Locks(log.cache.buf).Values
    {
      hide Ring, Agrees, Locks;
      NoLock(log.cache.buf, log.cache.refs, log.cache.pinned, pid);
    }

    /** end_op: the last operation to end puts the stores of all on disk. */
    method EndOp(pid: nat) returns (ok: bool)
      requires Valid()
      modifies `ops, `done, `floor, log, log.cache
      ensures ok ==> Valid() && Follows(log.layout, |base|, old(Now()), End(pid), Now())
      ensures !ok ==> old(Commits(Now(), End(pid))) && log.cache.Crowded(pid, |old(log.blocks)|)
      ensures AllWhole(log.layout, log.cache.history, first, base, stores)
    {
      hide Valid, AllWhole, Bcache.Crowded, MayEnd, Tags, Locks;
      Sizes();
      ok := true;
      var mine := pid in ops && forall i :: 0 <= i < NBUF ==> log.cache.buf[i].pid != pid;
      NoneMine(pid);
      if mine && |ops| > 1 {
        EndOne(pid);
        SoFar();
      } else if mine {
        SomeOp(ops, pid);
        ok := EndLast(pid);
        BeforeWhole(log.layout, log.cache.history, first, base, stores, |stores|);
      } else {
        SoFar();
      }
    }

    lemma NoneMine(pid: nat)
      requires Valid()
      ensures |log.cache.buf| == |log.cache.refs| == NBUF
      ensures MayEnd(Now(), pid) <==> pid in ops && forall i :: 0 <= i < NBUF ==> log.cache.buf[i].pid != pid
    {
      hide Tells, Split, Ring, Agrees, Ordered, Locks, Tags, UniqueKeys;
      var c := log.cache;
      OrderedLocks(c.buf, c.pinned, c.dirty, ops.Keys, unlogged);
      if pid in ops {
        NoLock(c.buf, c.refs, c.pinned, pid);
      }
    }

    /** Why a step panics: bget or log_write in that scene, or commit with the buffers in use by readers. */
    ghost predicate Stops(s: Scene, a: Acts.Act)
      reads log.cache
    {
      Fails(log.layout, s, a) || (Commits(s, a) && log.cache.Crowded(a.pid, |s.logged|))
    }

    /** One step: it follows the scene, and its panics are those of the scene and commit's, for lack of buffers. */
    method Step(a: Acts.Act) returns (ok: bool)
      requires Valid()
      modifies this, log, log.cache
      ensures ok ==> Valid() && Follows(log.layout, |base|, old(Now()), a, Now())
      ensures ok ==> !Fails(log.layout, old(Now()), a)
      ensures !ok ==> Stops(old(Now()), a) && stores == old(stores)
      ensures AllWhole(log.layout, log.cache.history, first, base, stores)
    {
      hide Valid, AllWhole, Now, Bcache.Crowded, Follows, Fails, Commits, Begun, Wanted, Taken, AfterStore, AfterLog,
        Left, Dropped;
      Sizes();
      NowStores();
      FollowsPlay(log.layout, |base|, Now(), a);
      ok := true;
      match a {
        case Begin(pid) => BeginOp(pid);
        case Want(b) => ok := Bget(b);
        case Take(b, pid) => Lock(b, pid);
        case Store(b, data) => StoreData(b, data);
        case Log(b) => ok := LogWrite(b);
        case Leave(b) => ReleaseSleep(b);
        case Drop(b) => Unref(b);
        case End(pid) =>
          ok := EndOp(pid);
          return;
      }
      SoFar();
    }

    /** Every home block on disk has the contents of the last store into it. */
    ghost predicate AllHome()
      reads this, log, log.cache
    {
      |base| == |log.cache.disk| && forall b: nat :: b < |base| && !log.layout.InLog(b) ==>
        Latest(base, stores, b, log.cache.disk[b])
    }

    /** Between two steps, recovery leaves the stores that have been committed. With no operation going on these are
        all, and every home block on disk has the contents of the last store into it. */
    lemma Durable()
      requires Valid()
      ensures done <= |stores| && Clean(stores, done)
      ensures RecoversTo(log.layout, log.cache.disk, Replay(base, stores[..done]))
      ensures ops == map[] ==> done == |stores| && AllHome()
    {
      hide Bcache.Valid, Ordered, AllBefore, Replay, Recovered, Latest;
      SplitClean(stores, done, floor, begun);
      L.EmptiedRecovers(log.layout, log.cache.disk, Replay(base, stores[..done]));
      if ops == map[] {
        assert stores[..done] == stores;
        forall b: nat | b < |base| && !log.layout.InLog(b)
          ensures Latest(base, stores, b, log.cache.disk[b])
        {
          ReplayLatest(base, stores, b);
        }
      }
    }

    lemma SoFar()
      requires Valid()
      ensures AllWhole(log.layout, log.cache.history, first, base, stores)
    {
      BeforeWhole(log.layout, log.cache.history, first, base, stores, done);
    }

    lemma NowStores()
      requires |log.cache.buf| == |log.cache.refs| == NBUF
      ensures Now().stores == stores && Now().ops == ops && Now().logged == log.blocks
    {
    }

    /** Any interleaving of any processes' steps, up to a panic, as Run says. */
    method Steps(acts: seq<Acts.Act>) returns (ok: bool, ghost trace: seq<Scene>)
      requires Valid()
      modifies this, log, log.cache
      ensures |old(log.cache.buf)| == |old(log.cache.refs)| == NBUF
      ensures IsTrace(log.layout, |base|, trace, acts) && trace[0] == old(Now())
      ensures ok ==> Valid() && |log.cache.buf| == |log.cache.refs| == NBUF && |trace| == |acts| + 1
      ensures ok ==> trace[|acts|] == Now()
      ensures !ok ==> |trace| <= |acts| && Stops(trace[|trace| - 1], acts[|trace| - 1])
      ensures stores == old(stores) + StoresOf(log.layout, trace, acts, |trace| - 1)
      ensures AllWhole(log.layout, log.cache.history, first, base, stores)
    {
      hide Valid, AllWhole, Now, Stops, Follows, Fails, StoredBy, IsTrace, StoresOf;
      Sizes();
      SoFar();
      ok := true;
      trace := [Now()];
      TraceStart(log.layout, |base|, Now(), acts);
      var k := 0;
      while ok && k < |acts|
        invariant 0 <= k <= |acts| && |trace| == k + B(ok) > 0
        invariant IsTrace(log.layout, |base|, trace, acts) && trace[0] == old(Now())
        invariant ok ==> Valid() && |log.cache.buf| == |log.cache.refs| == NBUF && trace[k] == Now()
        invariant !ok ==> Stops(trace[|trace| - 1], acts[|trace| - 1])
        invariant stores == old(stores) + StoresOf(log.layout, trace, acts, |trace| - 1)
        invariant AllWhole(log.layout, log.cache.history, first, base, stores)
        decreases ok, |acts| - k
      {
        ghost var s := Now();
        NowStores();
        ok := Step(acts[k]);
        if ok {
          Sizes();
          NowStores();
          TraceMore(log.layout, |base|, trace, acts, Now());
          StoresNext(log.layout, trace, acts, Now());
          FollowsStores(log.layout, |base|, s, acts[k], Now());
          trace := trace + [Now()];
        }
        k := k + 1;
      }
    }

    /** Any interleaving of any processes' steps, up to a panic. It goes through the scenes of `trace`, one step after
        the other, and the stores are those of the acts that have the block locked in an operation. If each operation
        that began has ended, every home block on disk has the contents of the last store into it. Recovery of any disk
        on the way leaves the stores of whole operations: those of an operation are all there, in their order, or none
        is. */
    method Run(acts: seq<Acts.Act>) returns (ok: bool, ghost trace: seq<Scene>)
      requires Valid()
      modifies this, log, log.cache
      ensures |old(log.cache.buf)| == |old(log.cache.refs)| == NBUF
      ensures IsTrace(log.layout, |base|, trace, acts) && trace[0] == old(Now())
      ensures ok ==> Valid() && |log.cache.buf| == |log.cache.refs| == NBUF && |trace| == |acts| + 1
      ensures ok ==> trace[|acts|] == Now()
      ensures !ok ==> |trace| <= |acts| && Stops(trace[|trace| - 1], acts[|trace| - 1])
      ensures stores == old(stores) + StoresOf(log.layout, trace, acts, |trace| - 1)
      ensures ok && old(ops) == map[] && EachEnds(trace, acts) ==> ops == map[]
      ensures ok && ops == map[] ==> done == |stores| && AllHome()
      ensures AllWhole(log.layout, log.cache.history, first, base, stores)
    {
      hide Valid, AllWhole, Now, Stops, IsTrace, EachEnds, StoresOf, AllHome;
      Sizes();
      NowStores();
      ok, trace := Steps(acts);
      if ok {
        NowStores();
        if old(ops) == map[] && EachEnds(trace, acts) {
          AllEnded(log.layout, |base|, trace, acts);
        }
        Durable();
      }
    }
  }
}
