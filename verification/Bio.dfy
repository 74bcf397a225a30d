/** The buffer cache: NBUF buffers on a doubly linked list in order of last use,
    over a disk written one whole block at a time. */
module Bio {
  import opened Blocks
  import opened Collections

  const NBUF := 30
  const HEAD := NBUF
  const ROOTDEV := 1

  /** pid is the holder of the buffer's sleep lock, 0 when it is free. */
  datatype Buf = Buf(valid: bool, dev: nat, blockno: nat, refcnt: nat, pid: nat, data: Block)

  predicate Holds(x: Buf, dev: nat, b: nat) {
    x.dev == dev && x.blockno == b
  }

  function B(p: bool): nat {
    if p then 1 else 0
  }

  ghost predicate IsOrder(order: seq<nat>) {
    && |order| == NBUF
    && (forall k :: 0 <= k < NBUF ==> order[k] < NBUF)
    && (forall j, k :: 0 <= j < k < NBUF ==> order[j] != order[k])
    && (forall i: nat :: i < NBUF ==> i in order)
  }

  ghost function Path(order: seq<nat>): seq<nat> {
    [HEAD] + order + [HEAD]
  }

  /** A walk that starts and ends at HEAD and visits distinct buffers. */
  ghost predicate Walk(p: seq<nat>) {
    && |p| >= 2 && p[0] == p[|p| - 1] == HEAD
    && (forall k :: 0 < k < |p| - 1 ==> p[k] < NBUF)
    && (forall j, k :: 0 < j < k < |p| - 1 ==> p[j] != p[k])
  }

  ghost predicate NextAlong(next: seq<nat>, p: seq<nat>)
    requires Walk(p)
  {
    |next| == NBUF + 1 && forall k {:trigger next[p[k]]} :: 0 <= k < |p| - 1 ==> next[p[k]] == p[k + 1]
  }

  ghost predicate PrevAlong(prev: seq<nat>, p: seq<nat>)
    requires Walk(p)
  {
    |prev| == NBUF + 1 && forall k {:trigger prev[p[k]]} :: 0 < k < |p| ==> prev[p[k]] == p[k - 1]
  }

  /** The next and prev links run along p. */
  ghost predicate Links(next: seq<nat>, prev: seq<nat>, p: seq<nat>) {
    Walk(p) && NextAlong(next, p) && PrevAlong(prev, p)
  }

  /** The links run through all buffers, most recently used first, in the given order. */
  ghost predicate Ring(next: seq<nat>, prev: seq<nat>, order: seq<nat>) {
    IsOrder(order) && Links(next, prev, Path(order))
  }

  /** For a real device no two buffers carry the same block. */
  ghost predicate UniqueKeys(buf: seq<Buf>)
    requires |buf| == NBUF
  {
    forall i, j :: 0 <= i < NBUF && 0 <= j < NBUF && buf[i].dev != 0 && Holds(buf[j], buf[i].dev, buf[i].blockno) ==>
      i == j
  }

  lemma OtherKey(buf: seq<Buf>, i: nat, j: nat)
    requires |buf| == NBUF && UniqueKeys(buf) && i < NBUF && j < NBUF && i != j && buf[i].dev == buf[j].dev != 0
    ensures buf[i].blockno != buf[j].blockno
  {
    assert !Holds(buf[j], buf[i].dev, buf[i].blockno);
  }

  ghost predicate Cached(buf: seq<Buf>, b: nat)
    requires |buf| == NBUF
  {
    exists i :: 0 <= i < NBUF && Holds(buf[i], ROOTDEV, b) && buf[i].valid && buf[i].refcnt > 0
  }

  /** refs counts the references taken by bget and not yet given back by brelse;
      a pinned block holds one more. */
  ghost predicate Counted(x: Buf, refs: nat, pinned: set<nat>) {
    && x.dev in {0, ROOTDEV}
    && x.refcnt == refs + B(x.dev == ROOTDEV && x.blockno in pinned)
    && (x.pid != 0 ==> refs > 0)
    && (x.dev == 0 ==> refs == 0 && !x.valid)
  }

  ghost predicate Counts(buf: seq<Buf>, refs: seq<nat>, pinned: set<nat>)
    requires |buf| == NBUF
  {
    && |refs| == NBUF && UniqueKeys(buf)
    && (forall i :: 0 <= i < NBUF ==> Counted(buf[i], refs[i], pinned))
    && (forall b :: b in pinned ==> Cached(buf, b))
  }

  ghost predicate Current(x: Buf, view: seq<Block>) {
    x.valid ==> x.blockno < |view| && x.data == view[x.blockno]
  }

  /** view, the latest contents of each block, is what the cache holds, and what the disk
      holds of every block that is not dirty. */
  ghost predicate Agrees(buf: seq<Buf>, disk: seq<Block>, view: seq<Block>, dirty: set<nat>)
    requires |buf| == NBUF
  {
    && |view| == |disk|
    && (forall i :: 0 <= i < NBUF ==> Current(buf[i], view))
    && (forall b :: 0 <= b < |disk| && b !in dirty ==> view[b] == disk[b])
    && (forall b :: b in dirty ==> b < |disk| && Cached(buf, b))
  }

  lemma KeepsCached(buf: seq<Buf>, buf': seq<Buf>)
    requires |buf| == |buf'| == NBUF
    requires forall j :: 0 <= j < NBUF && buf[j].valid && buf[j].refcnt > 0 ==>
      buf'[j].valid && buf'[j].refcnt > 0 && Holds(buf'[j], buf[j].dev, buf[j].blockno)
    ensures forall b :: Cached(buf, b) ==> Cached(buf', b)
  {
    forall b | Cached(buf, b)
      ensures Cached(buf', b)
    {
      var j :| 0 <= j < NBUF && Holds(buf[j], ROOTDEV, b) && buf[j].valid && buf[j].refcnt > 0;
      assert Holds(buf'[j], ROOTDEV, b);
    }
  }

  lemma OrderHas(order: seq<nat>, i: nat) returns (k: nat)
    requires IsOrder(order) && i < NBUF
    ensures k < NBUF && order[k] == i && Path(order)[k + 1] == i
  {
    assert i in order;
    k :| 0 <= k < NBUF && order[k] == i;
  }

  /** A change to one buffer, and to its references, that keeps the cache invariant. */
  lemma CountsFrame(buf: seq<Buf>, refs: seq<nat>, pinned: set<nat>, i: nat, x: Buf, r: nat)
    requires |buf| == NBUF && Counts(buf, refs, pinned) && i < NBUF
    requires Counted(x, r, pinned)
    requires Holds(x, buf[i].dev, buf[i].blockno) || forall j :: 0 <= j < NBUF ==> !Holds(buf[j], x.dev, x.blockno)
    requires buf[i].valid && buf[i].refcnt > 0 ==> x.valid && x.refcnt > 0 && Holds(x, buf[i].dev, buf[i].blockno)
    ensures Counts(buf[i := x], refs[i := r], pinned)
    ensures forall b :: Cached(buf, b) ==> Cached(buf[i := x], b)
  {
    KeepsCached(buf, buf[i := x]);
  }

  lemma PinFrame(buf: seq<Buf>, refs: seq<nat>, pinned: set<nat>, i: nat)
    requires |buf| == NBUF && Counts(buf, refs, pinned) && i < NBUF
    requires buf[i].dev == ROOTDEV && buf[i].valid && buf[i].blockno !in pinned
    ensures var buf' := buf[i := buf[i].(refcnt := buf[i].refcnt + 1)];
      Counts(buf', refs, pinned + {buf[i].blockno}) && forall b :: Cached(buf, b) ==> Cached(buf', b)
  {
    var b := buf[i].blockno;
    var buf' := buf[i := buf[i].(refcnt := buf[i].refcnt + 1)];
    KeepsCached(buf, buf');
    assert Cached(buf', b) by {
      assert Holds(buf'[i], ROOTDEV, b);
    }
    forall j | 0 <= j < NBUF
      ensures Counted(buf'[j], refs[j], pinned + {b})
    {
      assert Counted(buf[j], refs[j], pinned) && (j != i ==> !Holds(buf[j], ROOTDEV, b));
    }
  }

  /** order with the element at position k moved to the front. */
  ghost function ToFront(order: seq<nat>, k: nat): seq<nat>
    requires k < |order|
  {
    [order[k]] + order[..k] + order[k + 1..]
  }

  lemma ToFrontIsOrder(order: seq<nat>, k: nat)
    requires IsOrder(order) && k < NBUF
    ensures IsOrder(ToFront(order, k))
  {
    var t := ToFront(order, k);
    forall i: nat | i < NBUF
      ensures i in t
    {
      var j := OrderHas(order, i);
      assert t[if j == k then 0 else if j < k then j + 1 else j] == i;
    }
  }

  ghost function Without(p: seq<nat>, k: nat): (q: seq<nat>)
    requires k < |p|
    ensures |q| == |p| - 1 && forall j :: 0 <= j < |q| ==> q[j] == if j < k then p[j] else p[j + 1]
  {
    p[..k] + p[k + 1..]
  }

  lemma StillWalk(p: seq<nat>, k: nat)
    requires Walk(p) && 0 < k < |p| - 1
    ensures Walk(Without(p, k))
  {
  }

  lemma UnlinkNext(next: seq<nat>, p: seq<nat>, k: nat)
    requires Walk(p) && NextAlong(next, p) && 0 < k < |p| - 1 && Walk(Without(p, k))
    ensures next[p[k]] == p[k + 1] && NextAlong(next[p[k - 1] := p[k + 1]], Without(p, k))
  {
    var q := Without(p, k);
    forall j | 0 <= j < |q| - 1
      ensures next[p[k - 1] := p[k + 1]][q[j]] == q[j + 1]
    {
      var m := if j < k then j else j + 1;
      assert next[p[m]] == p[m + 1] && (m != k - 1 ==> p[m] != p[k - 1]);
    }
  }

  lemma UnlinkPrev(prev: seq<nat>, p: seq<nat>, k: nat)
    requires Walk(p) && PrevAlong(prev, p) && 0 < k < |p| - 1 && Walk(Without(p, k))
    ensures prev[p[k]] == p[k - 1] && PrevAlong(prev[p[k + 1] := p[k - 1]], Without(p, k))
  {
    var q := Without(p, k);
    forall j | 0 < j < |q|
      ensures prev[p[k + 1] := p[k - 1]][q[j]] == q[j - 1]
    {
      var m := if j < k then j else j + 1;
      assert prev[p[m]] == p[m - 1] && (m != k + 1 ==> p[m] != p[k + 1]);
    }
  }

  /** Putting b behind HEAD. */
  lemma InsertLinks(next: seq<nat>, prev: seq<nat>, p: seq<nat>, b: nat)
    requires Links(next, prev, p) && b < NBUF && b !in p
    ensures next[HEAD] == p[1]
    ensures Links(next[b := p[1]][HEAD := b], prev[b := HEAD][p[1] := b], [HEAD, b] + p[1..])
  {
    var q, next', prev' := [HEAD, b] + p[1..], next[b := p[1]][HEAD := b], prev[b := HEAD][p[1] := b];
    assert next[p[0]] == p[1];
    assert forall j :: 2 <= j < |q| ==> q[j] == p[j - 1];
    forall j | 0 <= j < |q| - 1
      ensures next'[q[j]] == q[j + 1]
    {
      assert j >= 2 ==> next[p[j - 1]] == p[j];
    }
    forall j | 0 < j < |q|
      ensures prev'[q[j]] == q[j - 1]
    {
      assert j > 2 ==> prev[p[j - 1]] == p[j - 2] && p[j - 1] != p[1];
    }
  }

  lemma FrontPath(order: seq<nat>, k: nat)
    requires IsOrder(order) && k < NBUF
    ensures var q := Without(Path(order), k + 1);
      order[k] !in q && [HEAD, order[k]] + q[1..] == Path(ToFront(order, k))
  {
  }

  /** The blocks whose buffers are in use, and those on which processes other than the one with the references `mine`
      have a reference, locked or waiting. */
  ghost function Used(buf: seq<Buf>): set<nat>
    requires |buf| == NBUF
  {
    set i: nat | i < NBUF && buf[i].refcnt > 0 :: buf[i].blockno
  }

  ghost function Readers(buf: seq<Buf>, refs: seq<nat>, mine: set<nat>): set<nat>
    requires |buf| == |refs| == NBUF
  {
    set i: nat | i < NBUF && refs[i] > B(i in mine) :: buf[i].blockno
  }

  ghost predicate AllInUse(buf: seq<Buf>)
    requires |buf| == NBUF
  {
    forall i :: 0 <= i < NBUF ==> buf[i].refcnt > 0
  }

  ghost function Numbers(buf: seq<Buf>, used: set<nat>): set<nat>
    requires |buf| == NBUF
  {
    set i: nat | i < NBUF && buf[i].refcnt > 0 && buf[i].blockno in used
  }

  lemma OtherUsed(buf: seq<Buf>, refs: seq<nat>, pinned: set<nat>, i: nat, j: nat)
    requires |buf| == NBUF && Counts(buf, refs, pinned) && i < NBUF && j < NBUF && i != j
    requires buf[i].refcnt > 0 && buf[j].refcnt > 0
    ensures buf[i].blockno != buf[j].blockno
  {
    assert Counted(buf[i], refs[i], pinned) && Counted(buf[j], refs[j], pinned);
    OtherKey(buf, i, j);
  }

  lemma NumbersStep(buf: seq<Buf>, refs: seq<nat>, pinned: set<nat>, used: set<nat>, i: nat)
    requires |buf| == NBUF && Counts(buf, refs, pinned) && i < NBUF && buf[i].refcnt > 0 && buf[i].blockno in used
    ensures var rest := Numbers(buf, used - {buf[i].blockno}); i !in rest && Numbers(buf, used) == rest + {i}
  {
    hide Counts;
    forall j: nat | j < NBUF && buf[j].refcnt > 0 && j != i
      ensures buf[j].blockno != buf[i].blockno
    {
      OtherUsed(buf, refs, pinned, i, j);
    }
  }

  /** As many blocks are in use as buffers. */
  lemma {:induction false} UsedSize(buf: seq<Buf>, refs: seq<nat>, pinned: set<nat>, used: set<nat>)
    requires |buf| == NBUF && Counts(buf, refs, pinned) && used <= Used(buf)
    ensures |Numbers(buf, used)| == |used|
    decreases |used|
  {
    hide Counts;
    if used == {} {
      assert Numbers(buf, used) == {};
    } else {
      var b :| b in used;
      var i: nat :| i < NBUF && buf[i].refcnt > 0 && buf[i].blockno == b;
      UsedSize(buf, refs, pinned, used - {b});
      hide Numbers, Used;
      NumbersStep(buf, refs, pinned, used, i);
    }
  }

  /** bget finds every buffer in use exactly when NBUF different blocks are. */
  lemma AllInUseWhen(buf: seq<Buf>, refs: seq<nat>, pinned: set<nat>)
    requires |buf| == NBUF && Counts(buf, refs, pinned)
    ensures AllInUse(buf) <==> |Used(buf)| == NBUF
  {
    hide Counts;
    UsedSize(buf, refs, pinned, Used(buf));
    AllBelow(Numbers(buf, Used(buf)), NBUF);
    forall i: nat | i < NBUF
      ensures i in Numbers(buf, Used(buf)) <==> buf[i].refcnt > 0
    {
      assert buf[i].refcnt > 0 ==> buf[i].blockno in Used(buf);
    }
  }

  /** The blocks in use are the pinned ones and those that some process has a reference to. */
  lemma UsedAre(buf: seq<Buf>, refs: seq<nat>, pinned: set<nat>)
    requires |buf| == NBUF && Counts(buf, refs, pinned)
    ensures Used(buf) == pinned + Readers(buf, refs, {})
  {
    forall b | b in pinned
      ensures b in Used(buf)
    {
      assert Cached(buf, b);
    }
    forall i: nat | i < NBUF
      ensures buf[i].refcnt > 0 ==> buf[i].blockno in pinned + Readers(buf, refs, {})
      ensures refs[i] > 0 ==> buf[i].blockno in Used(buf)
    {
      assert Counted(buf[i], refs[i], pinned);
    }
  }

  /** A buffer for each of the blocks bs, the first p of them pinned and each other one with a reader. */
  function JamBuf(bs: seq<nat>, p: nat, i: nat, disk: seq<Block>): Buf
    requires i < |bs| && bs[i] < |disk|
  {
    Buf(true, ROOTDEV, bs[i], 1, if i < p then 0 else i + 1, disk[bs[i]])
  }

  lemma InParts(bs: seq<nat>, p: nat, i: nat)
    requires NoDup(bs) && p <= |bs| && i < |bs|
    ensures bs[i] in SetOf(bs[..p]) <==> i < p
    ensures bs[i] in SetOf(bs[p..]) <==> i >= p
  {
    assert i < p ==> bs[..p][i] == bs[i];
    assert i >= p ==> bs[p..][i - p] == bs[i];
  }

  lemma JamCounts(bs: seq<nat>, p: nat, disk: seq<Block>, buf: seq<Buf>, refs: seq<nat>)
    requires |bs| == |buf| == |refs| == NBUF && NoDup(bs) && p <= NBUF && forall i :: 0 <= i < NBUF ==> bs[i] < |disk|
    requires forall i :: 0 <= i < NBUF ==> buf[i] == JamBuf(bs, p, i, disk) && refs[i] == B(i >= p)
    ensures Counts(buf, refs, SetOf(bs[..p])) && AllInUse(buf)
  {
    forall i: nat | i < NBUF
      ensures Counted(buf[i], refs[i], SetOf(bs[..p]))
    {
      InParts(bs, p, i);
    }
    forall b | b in SetOf(bs[..p])
      ensures Cached(buf, b)
    {
      var i :| 0 <= i < p && bs[..p][i] == b;
      assert Holds(buf[i], ROOTDEV, b);
    }
  }

  lemma JamReaders(bs: seq<nat>, p: nat, disk: seq<Block>, buf: seq<Buf>, refs: seq<nat>)
    requires |bs| == |buf| == |refs| == NBUF && NoDup(bs) && p <= NBUF && forall i :: 0 <= i < NBUF ==> bs[i] < |disk|
    requires forall i :: 0 <= i < NBUF ==> buf[i] == JamBuf(bs, p, i, disk) && refs[i] == B(i >= p)
    ensures Readers(buf, refs, {}) == SetOf(bs[p..])
  {
    forall i: nat | i < NBUF
      ensures buf[i].blockno in SetOf(bs[p..]) <==> i >= p
    {
      InParts(bs, p, i);
    }
    forall b | b in SetOf(bs[p..])
      ensures b in Readers(buf, refs, {})
    {
      var i :| 0 <= i < |bs[p..]| && bs[p..][i] == b;
      assert buf[i + p].blockno == b;
    }
  }

  /** The state of a buffer cache. */
  datatype State = State(disk: seq<Block>, view: seq<Block>, dirty: set<nat>, buf: seq<Buf>, next: seq<nat>,
                         prev: seq<nat>, order: seq<nat>, refs: seq<nat>, pinned: set<nat>)

  /** A state that the cache's operations keep. */
  ghost predicate Sound(s: State) {
    |s.buf| == NBUF && Ring(s.next, s.prev, s.order)
    && Counts(s.buf, s.refs, s.pinned) && Agrees(s.buf, s.disk, s.view, s.dirty)
  }

  /** A cache of a disk of the given size, with the given pinned blocks and with references of other processes to at
      most r blocks. */
  ghost predicate Crowd(s: State, size: nat, pinned: set<nat>, r: nat) {
    Sound(s) && |s.disk| == size && s.pinned == pinned && |Readers(s.buf, s.refs, {})| <= r
  }

  /** bget of a block does not panic. */
  ghost predicate CanGet(buf: seq<Buf>, b: nat)
    requires |buf| == NBUF
  {
    exists i :: 0 <= i < NBUF && (Holds(buf[i], ROOTDEV, b) || buf[i].refcnt == 0)
  }

  /** The first bread of write_log is of a log block, beside the logged blocks, which are pinned, and readers' blocks.
      Whatever the cache, it finds a buffer if and only if all of these are fewer than the buffers. */
  lemma BufferRoom(size: nat, pinned: set<nat>, b: nat, r: nat)
    requires |pinned| <= NBUF < size && b < size && b !in pinned && forall x :: x in pinned ==> x < size
    ensures (forall s :: Crowd(s, size, pinned, r) ==> CanGet(s.buf, b)) <==> |pinned| + r < NBUF
  {
    hide Ring, Agrees, Counts;
    forall s | Crowd(s, size, pinned, r) && |pinned| + r < NBUF
      ensures CanGet(s.buf, b)
    {
      AllInUseWhen(s.buf, s.refs, pinned);
      UsedAre(s.buf, s.refs, pinned);
    }
    if |pinned| + r >= NBUF {
      var s := JamBeside(size, pinned, b);
      assert Crowd(s, size, pinned, r);
    }
  }

  lemma JamBeside(size: nat, pinned: set<nat>, b: nat) returns (s: State)
    requires |pinned| <= NBUF < size && b < size && b !in pinned && forall x :: x in pinned ==> x < size
    ensures Crowd(s, size, pinned, NBUF - |pinned|) && !CanGet(s.buf, b)
  {
    hide Ring, Counts;
    var p := |pinned|;
    var bs := Complete(pinned, b, NBUF, size);
    var disk := seq(size, _ => ZeroBlock());
    assert forall i :: 0 <= i < NBUF ==> bs[i] in bs;
    var buf := seq(NBUF, i requires 0 <= i < NBUF => JamBuf(bs, p, i, disk));
    var refs := seq<nat>(NBUF, i => B(i >= p));
    JamCounts(bs, p, disk, buf, refs);
    JamReaders(bs, p, disk, buf, refs);
    SetOfSize(bs[p..]);
    var next, prev, order := StartRing();
    s := State(disk, disk, {}, buf, next, prev, order, refs, pinned);
  }

  lemma StartRing() returns (next: seq<nat>, prev: seq<nat>, order: seq<nat>)
    ensures Ring(next, prev, order)
  {
    next := seq(NBUF + 1, i requires 0 <= i => if i == HEAD then NBUF - 1 else if i == 0 then HEAD else i - 1);
    prev := seq(NBUF + 1, i requires 0 <= i => if i == HEAD then 0 else i + 1);
    var path := [HEAD] + seq(NBUF, k requires 0 <= k < NBUF => NBUF - 1 - k) + [HEAD];
    FreshRing(next, prev, path);
    order := path[1..NBUF + 1];
  }

  /** The ring that binit builds, the last buffer first. */
  lemma FreshRing(next: seq<nat>, prev: seq<nat>, path: seq<nat>)
    requires |path| == NBUF + 2 && Links(next, prev, path) && forall k :: 1 <= k <= NBUF ==> path[k] == NBUF - k
    ensures Ring(next, prev, path[1..NBUF + 1])
  {
    hide NextAlong, PrevAlong;
    var ord := path[1..NBUF + 1];
    forall i: nat | i < NBUF
      ensures i in ord
    {
      assert ord[NBUF - 1 - i] == i;
    }
    assert Path(ord) == path;
  }

  predicate HasLocked(x: Buf, view: seq<Block>, me: nat, b: nat) {
    Holds(x, ROOTDEV, b) && x.valid && x.pid == me && b < |view| && x.data == view[b]
  }

  /** A locked buffer has been read: nobody is between the two halves of bread. */
  predicate Filled(x: Buf) {
    x.pid != 0 ==> x.valid
  }

  /** Process me has locked exactly the buffers of h, which maps each to its block, and has a reference to each buffer
      of `mine`: to those it has locked, and to one that it may wait for. Other processes may have locked others, and
      may wait for any. */
  ghost predicate Held(buf: seq<Buf>, refs: seq<nat>, view: seq<Block>, me: nat, h: map<nat, nat>, mine: set<nat>)
  {
    && |buf| == |refs| == NBUF && h.Keys <= mine
    && (forall i :: 0 <= i < NBUF && i !in h ==> buf[i].pid != me)
    && (forall i :: i in h ==> i < NBUF && HasLocked(buf[i], view, me, h[i]))
    && (forall i :: i in mine ==> i < NBUF && refs[i] >= 1 + B(i !in h && buf[i].pid != 0))
    && (forall i :: 0 <= i < NBUF ==> Filled(buf[i]))
  }

  lemma HeldAt(buf: seq<Buf>, refs: seq<nat>, view: seq<Block>, me: nat, h: map<nat, nat>, mine: set<nat>, i: nat)
    requires Held(buf, refs, view, me, h, mine) && i < NBUF
    ensures |buf| == |refs| == NBUF && if i in h then HasLocked(buf[i], view, me, h[i]) else buf[i].pid != me
    ensures i in mine ==> refs[i] >= 1 + B(i !in h && buf[i].pid != 0)
    ensures (i in h ==> i in mine) && Filled(buf[i])
  {
  }

  /** A change to one buffer by another process. */
  lemma HeldFrame(buf: seq<Buf>, refs: seq<nat>, view: seq<Block>, me: nat, h: map<nat, nat>, mine: set<nat>, i: nat,
                  x: Buf, r: nat)
    requires Held(buf, refs, view, me, h, mine) && i < NBUF
    requires if i in h then HasLocked(x, view, me, h[i]) else x.pid != me && Filled(x)
    requires i in mine ==> r >= 1 + B(i !in h && x.pid != 0)
    ensures Held(buf[i := x], refs[i := r], view, me, h, mine)
  {
  }

  /** me waits for a buffer, and locks it. */
  lemma HeldAsk(buf: seq<Buf>, refs: seq<nat>, view: seq<Block>, me: nat, h: map<nat, nat>, i: nat, x: Buf, r: nat)
    requires Held(buf, refs, view, me, h, h.Keys) && i < NBUF && i !in h && x.pid != me && r >= 1 + B(x.pid != 0)
      && Filled(x)
    ensures Held(buf[i := x], refs[i := r], view, me, h, h.Keys + {i})
  {
  }

  lemma HeldMore(buf: seq<Buf>, refs: seq<nat>, view: seq<Block>, me: nat, h: map<nat, nat>, i: nat, x: Buf, r: nat,
                 b: nat)
    requires Held(buf, refs, view, me, h, h.Keys + {i}) && i < NBUF && i !in h && r >= 1 && HasLocked(x, view, me, b)
    ensures Held(buf[i := x], refs[i := r], view, me, h[i := b], h[i := b].Keys)
  {
  }

  /** me gives the lock back, and then its reference. */
  lemma HeldFree(buf: seq<Buf>, refs: seq<nat>, view: seq<Block>, me: nat, h: map<nat, nat>, i: nat, x: Buf)
    requires Held(buf, refs, view, me, h, h.Keys) && i in h && x.pid == 0 != me
    ensures Held(buf[i := x], refs, view, me, h - {i}, h.Keys)
  {
  }

  lemma HeldLess(buf: seq<Buf>, refs: seq<nat>, view: seq<Block>, me: nat, h: map<nat, nat>, i: nat, x: Buf, r: nat)
    requires Held(buf, refs, view, me, h, h.Keys + {i}) && i !in h && x.pid != me && Filled(x)
    ensures Held(buf[i := x], refs[i := r], view, me, h, h.Keys)
  {
  }

  lemma MoreHeld(h: map<nat, nat>, i: nat, b: nat)
    requires i !in h
    ensures h[i := b].Keys == h.Keys + {i} && h.Values <= h[i := b].Values && b in h[i := b].Values
  {
    forall v | v in h.Values
      ensures v in h[i := b].Values
    {
      var k :| k in h && h[k] == v;
      assert k in h[i := b];
    }
    assert i in h[i := b];
  }

  lemma LessHeld(h: map<nat, nat>, i: nat)
    requires i in h
    ensures (h - {i}).Keys == h.Keys - {i} && h.Values <= (h - {i}).Values + {h[i]}
  {
    forall v | v in h.Values
      ensures v in (h - {i}).Values + {h[i]}
    {
      var k :| k in h && h[k] == v;
      assert k != i ==> k in h - {i};
    }
  }

  /** Only pinned blocks and those of h are newer than the disk. */
  ghost predicate Settled(dirty: set<nat>, pinned: set<nat>, h: map<nat, nat>) {
    forall b :: b in dirty ==> b in pinned || b in h.Values
  }

  ghost predicate Lone(refs: seq<nat>, mine: set<nat>)
    requires |refs| == NBUF
  {
    forall i :: 0 <= i < NBUF ==> refs[i] == B(i in mine)
  }

  lemma SettledMore(dirty: set<nat>, pinned: set<nat>, h: map<nat, nat>, i: nat, b: nat)
    requires Settled(dirty, pinned, h) && i !in h
    ensures Settled(dirty, pinned, h[i := b])
  {
    MoreHeld(h, i, b);
  }

  lemma SettledLess(dirty: set<nat>, pinned: set<nat>, h: map<nat, nat>, i: nat)
    requires Settled(dirty, pinned, h) && i in h && (h[i] in dirty ==> h[i] in pinned)
    ensures Settled(dirty, pinned, h - {i})
  {
    LessHeld(h, i);
  }

  lemma LoneLess(refs: seq<nat>, mine: set<nat>, i: nat)
    requires |refs| == NBUF && Lone(refs, mine + {i}) && i !in mine && i < NBUF
    ensures refs[i] == 1 && Lone(refs[i := 0], mine)
  {
  }

  /** me changes the contents of a block that it has locked. */
  lemma HeldStore(buf: seq<Buf>, refs: seq<nat>, pinned: set<nat>, view: seq<Block>, me: nat, h: map<nat, nat>,
                  i: nat, data: Block)
    requires |buf| == NBUF && Counts(buf, refs, pinned) && Held(buf, refs, view, me, h, h.Keys) && i in h
    ensures h[i] < |view| && Held(buf[i := buf[i].(data := data)], refs, view[h[i] := data], me, h, h.Keys)
  {
    forall j | j in h && j != i
      ensures h[j] != h[i]
    {
      OtherKey(buf, i, j);
    }
  }

  /** The steps of a process that reads a block: bget up to acquiresleep, the rest of bread, releasesleep, and the rest
      of brelse. */
  datatype Act = Want(b: nat) | Take(i: nat, pid: nat) | Leave(i: nat) | Drop(i: nat)

  class Bcache {
    var disk: seq<Block>
    /** Every disk state so far, one per block write: the states a crash can leave. */
    ghost var history: seq<seq<Block>>
    var buf: seq<Buf>
    var next: seq<nat>
    var prev: seq<nat>
    ghost var order: seq<nat>
    /** For each buffer, the calls of bget without their brelse yet: what refcnt counts beside the pins. */
    var refs: seq<nat>
    ghost var pinned: set<nat>
    /** Blocks whose cached copy may be newer than the disk. */
    ghost var dirty: set<nat>
    /** The plain block map: the latest contents of every block. */
    ghost var view: seq<Block>

    ghost predicate Valid()
      reads this
    {
      && |buf| == NBUF && Ring(next, prev, order)
      && Counts(buf, refs, pinned) && Agrees(buf, disk, view, dirty)
      && history != [] && history[|history| - 1] == disk
    }

    /** binit, on a booted machine: empty cache, every block read from disk. */
    constructor (d: seq<Block>)
      ensures Valid()
      ensures disk == view == d && history == [d] && dirty == {} && pinned == {}
      ensures forall i :: 0 <= i < NBUF ==> buf[i].dev == 0 && buf[i].pid == 0
    {
      disk, view, history, dirty, pinned := d, d, [d], {}, {};
      refs := seq(NBUF, _ => 0);
      buf := seq(NBUF, _ => Buf(false, 0, 0, 0, 0, ZeroBlock()));
      var nx: seq<nat>, pv: seq<nat> := seq(NBUF + 1, _ => HEAD), seq(NBUF + 1, _ => HEAD);
      ghost var path: seq<nat> := [HEAD, HEAD];
      var b := 0;
      while b < NBUF
        invariant 0 <= b <= NBUF && |path| == b + 2 && Links(nx, pv, path)
        invariant forall k :: 1 <= k <= b ==> path[k] == b - k
      {
        InsertLinks(nx, pv, path, b);
        nx, pv := nx[b := nx[HEAD]], pv[b := HEAD];
        pv := pv[nx[HEAD] := b];
        nx := nx[HEAD := b];
        path := [HEAD, b] + path[1..];
        b := b + 1;
      }
      FreshRing(nx, pv, path);
      next, prev, order := nx, pv, path[1..NBUF + 1];
    }

    /** bget's first scan, most recently used first: the buffer of the block, or HEAD. */
    method Lookup(dev: nat, blockno: nat) returns (b: nat)
      requires Valid()
      ensures b <= NBUF
      ensures b < NBUF ==> Holds(buf[b], dev, blockno)
      ensures b == HEAD ==> forall i :: 0 <= i < NBUF ==> !Holds(buf[i], dev, blockno)
    {
      ghost var p := Path(order);
      assert next[p[0]] == p[1];
      b := next[HEAD];
      ghost var k := 1;
      while b != HEAD
        invariant 1 <= k <= NBUF + 1 && b == p[k]
        invariant forall j :: 1 <= j < k ==> !Holds(buf[p[j]], dev, blockno)
        decreases NBUF + 1 - k
      {
        if buf[b].dev == dev && buf[b].blockno == blockno {
          return;
        }
        b, k := next[b], k + 1;
      }
      forall i: nat | i < NBUF
        ensures !Holds(buf[i], dev, blockno)
      {
        var j := OrderHas(order, i);
      }
    }

    /** bget's second scan, least recently used first: an unused buffer, or HEAD. */
    method FindUnused() returns (b: nat)
      requires Valid()
      ensures b <= NBUF
      ensures b < NBUF ==>
        buf[b].refcnt == 0 && (forall k, m :: 0 <= k < m < NBUF && order[k] == b ==> buf[order[m]].refcnt > 0)
      ensures b == HEAD ==> forall i :: 0 <= i < NBUF ==> buf[i].refcnt > 0
    {
      ghost var p := Path(order);
      assert prev[p[NBUF + 1]] == p[NBUF];
      b := prev[HEAD];
      ghost var k := NBUF;
      while b != HEAD
        invariant 0 <= k <= NBUF && b == p[k]
        invariant forall j :: k < j <= NBUF ==> buf[p[j]].refcnt > 0
        decreases k
      {
        if buf[b].refcnt == 0 {
          assert forall m :: 0 <= m < NBUF ==> order[m] == p[m + 1];
          return;
        }
        b, k := prev[b], k - 1;
      }
      forall i: nat | i < NBUF
        ensures buf[i].refcnt > 0
      {
        var j := OrderHas(order, i);
      }
    }

    /** bget up to the release of bcache.lock; None is the panic "bget: no buffers". */
    method BGet(dev: nat, blockno: nat) returns (r: Option<nat>)
      requires Valid() && dev == ROOTDEV
      modifies `buf, `refs
      ensures Valid()
      // a panic exactly when the block is not cached and every buffer is in use
      ensures r.None? <==> (forall i :: 0 <= i < NBUF ==> !Holds(old(buf[i]), dev, blockno) && old(buf[i]).refcnt > 0)
      ensures r.None? ==> buf == old(buf) && refs == old(refs)
      ensures r.Some? ==>
        var i := r.value;
        && i < NBUF && refs == old(refs)[i := old(refs)[i] + 1]
        && if Holds(old(buf[i]), dev, blockno) then
             buf == old(buf)[i := old(buf[i]).(refcnt := old(buf[i]).refcnt + 1)]
           else
             // the least recently used of the unused buffers is taken over
             && old(buf[i]).refcnt == 0 && old(buf[i]).pid == 0
             && buf == old(buf)[i := old(buf[i]).(dev := dev, blockno := blockno, valid := false, refcnt := 1)]
             && (forall j :: 0 <= j < NBUF ==> !Holds(old(buf[j]), dev, blockno))
             && (forall k, m :: 0 <= k < m < NBUF && order[k] == i ==> old(buf[order[m]]).refcnt > 0)
    {
      hide Valid;
      var b := Lookup(dev, blockno);
      IsCounted();
      hide Counts;
      if b != HEAD {
        Ref(b);
        return Some(b);
      }
      b := FindUnused();
      if b == HEAD {
        return None;
      }
      IsUnused(b);
      Recycle(b, blockno);
      return Some(b);
    }

    /** One more reference to a cached block. */
    method Ref(b: nat)
      requires Valid() && b < NBUF && buf[b].dev == ROOTDEV
      modifies `buf, `refs
      ensures Valid() && |old(refs)| == NBUF && refs == old(refs)[b := old(refs)[b] + 1]
      ensures buf == old(buf)[b := old(buf[b]).(refcnt := old(buf[b]).refcnt + 1)]
    {
      hide Ring;
      ghost var x := buf[b].(refcnt := buf[b].refcnt + 1);
      CountsFrame(buf, refs, pinned, b, x, refs[b] + 1);
      buf, refs := buf[b := buf[b].(refcnt := buf[b].refcnt + 1)], refs[b := refs[b] + 1];
    }

    lemma IsUnused(b: nat)
      requires Valid() && b < NBUF && buf[b].refcnt == 0
      ensures |refs| == NBUF && refs[b] == 0 && buf[b].pid == 0
    {
      hide Ring;
      assert Counted(buf[b], refs[b], pinned);
    }

    /** An unused buffer is taken over for a block that is not cached. */
    method Recycle(b: nat, blockno: nat)
      requires Valid() && b < NBUF && buf[b].refcnt == refs[b] == 0 && buf[b].pid == 0
      requires forall i :: 0 <= i < NBUF ==> !Holds(buf[i], ROOTDEV, blockno)
      modifies `buf, `refs
      ensures Valid() && refs == old(refs)[b := 1]
      ensures buf == old(buf)[b := old(buf[b]).(dev := ROOTDEV, blockno := blockno, valid := false, refcnt := 1)]
    {
      hide Ring;
      ghost var x := buf[b].(dev := ROOTDEV, blockno := blockno, valid := false, refcnt := 1);
      NotPinned(blockno);
      CountsFrame(buf, refs, pinned, b, x, 1);
      buf := buf[b := buf[b].(dev := ROOTDEV, blockno := blockno, valid := false, refcnt := 1)];
      refs := refs[b := 1];
    }

    lemma NotPinned(b: nat)
      requires Valid() && forall i :: 0 <= i < NBUF ==> !Holds(buf[i], ROOTDEV, b)
      ensures b !in pinned
    {
      hide Ring;
    }

    /** acquiresleep on a buffer whose lock is free, by a process that has a reference to it. */
    method Lock(me: nat, i: nat)
      requires Valid() && me != 0 && i < NBUF && buf[i].pid == 0 && refs[i] > 0
      modifies `buf
      ensures Valid() && buf == old(buf)[i := old(buf[i]).(pid := me)]
    {
      hide Ring;
      CountsFrame(buf, refs, pinned, i, buf[i].(pid := me), refs[i]);
      buf := buf[i := buf[i].(pid := me)];
    }

    /** The rest of bread, once the lock is held: read the block unless it is cached. */
    method Fill(me: nat, i: nat)
      requires Valid() && i < NBUF && me != 0 && buf[i].pid == me && buf[i].dev == ROOTDEV && buf[i].blockno < |disk|
      modifies `buf
      ensures Valid()
      ensures buf == old(buf)[i := old(buf[i]).(valid := true, data := view[old(buf[i]).blockno])]
    {
      hide Ring;
      if !buf[i].valid {
        NotDirty(i);
        CountsFrame(buf, refs, pinned, i, buf[i].(data := disk[buf[i].blockno], valid := true), refs[i]);
        buf := buf[i := buf[i].(data := disk[buf[i].blockno], valid := true)];
      }
    }

    /** A buffer that has not been read yet carries a block the disk is current for. */
    lemma NotDirty(i: nat)
      requires Valid() && i < NBUF && buf[i].dev == ROOTDEV && !buf[i].valid
      ensures buf[i].blockno !in dirty
    {
      hide Ring;
    }

    /** acquiresleep, by a process that has a reference to the buffer: if another has the lock, its releasesleep comes
        first. */
    method AcquireSleep(me: nat, i: nat)
      requires Valid() && me != 0 && i < NBUF && buf[i].pid != me && refs[i] > B(buf[i].pid != 0)
      modifies `buf
      ensures Valid() && buf == old(buf)[i := old(buf[i]).(pid := me)]
    {
      LockedRefs();
      hide Valid;
      if buf[i].pid != 0 {
        ReleaseSleep(buf[i].pid, i);
      }
      Lock(me, i);
    }

    /** releasesleep, by the holder of the buffer's lock. */
    method ReleaseSleep(me: nat, i: nat)
      requires Valid() && me != 0 && i < NBUF && buf[i].pid == me
      modifies `buf
      ensures Valid() && buf == old(buf)[i := old(buf[i]).(pid := 0)]
    {
      hide Ring;
      CountsFrame(buf, refs, pinned, i, buf[i].(pid := 0), refs[i]);
      buf := buf[i := buf[i].(pid := 0)];
    }

    /** bread: it sleeps while another process has the buffer locked. A buffer that it takes over was not in use. */
    method BRead(me: nat, dev: nat, blockno: nat) returns (r: Option<nat>)
      requires Valid() && me != 0 && dev == ROOTDEV && blockno < |disk|
      requires forall i :: 0 <= i < NBUF && Holds(buf[i], dev, blockno) ==> buf[i].pid != me
      modifies `buf, `refs
      ensures Valid()
      ensures r.None? <==> AllInUse(old(buf)) && (forall i :: 0 <= i < NBUF ==> !Holds(old(buf[i]), dev, blockno))
      ensures r.None? ==> buf == old(buf) && refs == old(refs)
      ensures r.Some? ==>
        var i := r.value;
        && i < NBUF && (Holds(old(buf[i]), dev, blockno) || (old(buf[i]).refcnt == 0 && old(buf[i]).pid == 0))
        && buf == old(buf)[i := Buf(true, dev, blockno, old(buf[i]).refcnt + 1, me, view[blockno])]
        && refs == old(refs)[i := old(refs)[i] + 1]
    {
      LockedRefs();
      hide Valid;
      r := BGet(dev, blockno);
      if r.Some? {
        AcquireSleep(me, r.value);
        Fill(me, r.value);
      }
    }

    /** Who has a buffer locked has a reference to it. */
    lemma LockedRefs()
      requires Valid()
      ensures |buf| == |refs| == NBUF && forall i :: 0 <= i < NBUF ==> refs[i] >= B(buf[i].pid != 0)
    {
      hide Ring;
    }

    /** A cached block is a block of the disk. */
    lemma OnDisk(i: nat)
      requires Valid() && i < NBUF && buf[i].valid
      ensures |buf| == |refs| == NBUF && buf[i].blockno < |view| == |disk|
    {
      hide Ring;
    }

    lemma HasLock(me: nat, i: nat, h: map<nat, nat>)
      requires Sharing(me, false, h) && i in h
      ensures |buf| == |refs| == NBUF && i < NBUF && HasLocked(buf[i], view, me, h[i])
      ensures refs[i] >= 1
    {
      HeldAt(buf, refs, view, me, h, h.Keys, i);
    }

    lemma IsCounted()
      requires Valid()
      ensures |buf| == |refs| == NBUF && Counts(buf, refs, pinned)
    {
    }

    /** After binit no block is in use. */
    lemma FreshCounts()
      requires Valid() && pinned == {} && forall i :: 0 <= i < NBUF ==> buf[i].dev == 0
      ensures Used(buf) == {} && Readers(buf, refs, {}) == {}
    {
      hide Ring;
      forall i: nat | i < NBUF
        ensures buf[i].refcnt == refs[i] == 0
      {
        assert Counted(buf[i], refs[i], pinned);
      }
    }

    /** A process alone on a cache fresh from binit. */
    lemma FreshShared(me: nat)
      requires Valid() && me != 0 && pinned == {} && dirty == {}
      requires forall i :: 0 <= i < NBUF ==> buf[i].dev == 0 && buf[i].pid == 0
      ensures Sharing(me, true, map[])
    {
      hide Ring;
      forall i: nat | i < NBUF
        ensures refs[i] == 0
      {
        assert Counted(buf[i], refs[i], pinned);
      }
    }

    /** A block that is not in use is not pinned, and a buffer that has it has no references. */
    lemma Unused(b: nat)
      requires Valid() && b !in Used(buf)
      ensures b !in pinned && |buf| == |refs| == NBUF
      ensures forall i :: 0 <= i < NBUF && (Holds(buf[i], ROOTDEV, b) || buf[i].refcnt == 0) ==>
        refs[i] == buf[i].refcnt == 0
    {
      hide Ring;
      UsedAre(buf, refs, pinned);
    }

    /** The client stores into the data of a buffer it has locked. */
    method Store(me: nat, i: nat, data: Block)
      requires Valid() && i < NBUF && me != 0 && buf[i].pid == me && buf[i].valid
      modifies `buf, `view, `dirty
      ensures Valid()
      ensures buf == old(buf)[i := old(buf[i]).(data := data)]
      ensures view == old(view)[buf[i].blockno := data] && dirty == old(dirty) + {buf[i].blockno}
    {
      hide Ring;
      ghost var b := buf[i].blockno;
      CountsFrame(buf, refs, pinned, i, buf[i].(data := data), refs[i]);
      buf := buf[i := buf[i].(data := data)];
      view, dirty := view[b := data], dirty + {b};
      assert Holds(buf[i], ROOTDEV, b);
    }

    /** bwrite: one atomic write of the block; a panic unless the caller has the lock. */
    method BWrite(me: nat, i: nat) returns (ok: bool)
      requires Valid() && i < NBUF && me != 0
      requires buf[i].pid == me ==> buf[i].valid
      modifies `disk, `history, `dirty
      ensures Valid() && ok == (buf[i].pid == me)
      ensures !ok ==> disk == old(disk) && history == old(history) && dirty == old(dirty)
      ensures ok ==>
        && buf[i].blockno < |disk| && disk == old(disk)[buf[i].blockno := view[buf[i].blockno]]
        && history == old(history) + [disk] && dirty == old(dirty) - {buf[i].blockno}
    {
      hide Ring;
      if buf[i].pid != me {
        return false;
      }
      disk := disk[buf[i].blockno := buf[i].data];
      history, dirty := history + [disk], dirty - {buf[i].blockno};
      return true;
    }

    /** b->next->prev = b->prev; b->prev->next = b->next */
    method Unlink(b: nat, ghost p: seq<nat>, ghost k: nat)
      requires Links(next, prev, p) && 0 < k < |p| - 1 && p[k] == b
      modifies `next, `prev
      ensures Links(next, prev, Without(p, k))
    {
      StillWalk(p, k);
      UnlinkNext(next, p, k);
      UnlinkPrev(prev, p, k);
      prev := prev[next[b] := prev[b]];
      next := next[prev[b] := next[b]];
    }

    /** Put b behind the head of the list. */
    method InsertFront(b: nat, ghost p: seq<nat>)
      requires Links(next, prev, p) && b < NBUF && b !in p
      modifies `next, `prev
      ensures Links(next, prev, [HEAD, b] + p[1..])
    {
      InsertLinks(next, prev, p, b);
      next, prev := next[b := next[HEAD]], prev[b := HEAD];
      prev := prev[next[HEAD] := b];
      next := next[HEAD := b];
    }

    /** brelse's relinking: the buffer becomes the most recently used one. */
    method MoveToFront(b: nat)
      requires Ring(next, prev, order) && b < NBUF
      modifies `next, `prev, `order
      ensures Ring(next, prev, order)
      ensures exists k :: 0 <= k < NBUF && old(order)[k] == b && order == ToFront(old(order), k)
    {
      ghost var k := OrderHas(order, b);
      ghost var p := Path(order);
      ghost var q := Without(p, k + 1);
      FrontPath(order, k);
      Unlink(b, p, k + 1);
      InsertFront(b, q);
      ToFrontIsOrder(order, k);
      order := ToFront(order, k);
    }

    /** brelse: a panic unless the caller has the lock. A newer copy must be pinned by now, unless others refer to it
        too. */
    method BRelse(me: nat, i: nat) returns (ok: bool)
      requires Valid() && i < NBUF && me != 0
      requires refs[i] == 1 && buf[i].blockno in dirty ==> buf[i].blockno in pinned
      modifies `buf, `refs, `next, `prev, `order
      ensures Valid() && ok == (old(buf[i]).pid == me)
      ensures !ok ==> buf == old(buf) && refs == old(refs) && order == old(order)
      ensures ok ==>
        && buf == old(buf)[i := old(buf[i]).(pid := 0, refcnt := buf[i].refcnt)]
        && buf[i].refcnt == old(buf[i]).refcnt - 1
        && refs == old(refs)[i := old(refs)[i] - 1]
        && if buf[i].refcnt > 0 then order == old(order)
           else exists k :: 0 <= k < NBUF && old(order)[k] == i && order == ToFront(old(order), k)
    {
      LockedRefs();
      hide Valid;
      if buf[i].pid != me {
        return false;
      }
      ReleaseSleep(me, i);
      Unref(i);
      return true;
    }

    /** The rest of brelse, after releasesleep. Giving back the last reference makes the buffer the most recently used
        one. */
    method Unref(i: nat)
      requires Valid() && i < NBUF && refs[i] > B(buf[i].pid != 0)
      requires refs[i] == 1 && buf[i].blockno in dirty ==> buf[i].blockno in pinned
      modifies `buf, `refs, `next, `prev, `order
      ensures Valid()
      ensures buf == old(buf)[i := old(buf[i]).(refcnt := buf[i].refcnt)] && buf[i].refcnt == old(buf[i]).refcnt - 1
      ensures refs == old(refs)[i := old(refs)[i] - 1]
      ensures if buf[i].refcnt > 0 then order == old(order)
        else exists k :: 0 <= k < NBUF && old(order)[k] == i && order == ToFront(old(order), k)
    {
      UnrefFrame(i);
      buf, refs := buf[i := buf[i].(refcnt := buf[i].refcnt - 1)], refs[i := refs[i] - 1];
      if buf[i].refcnt == 0 {
        MoveToFront(i);
      }
    }

    lemma UnrefFrame(i: nat)
      requires Valid() && i < NBUF && refs[i] > B(buf[i].pid != 0)
      requires refs[i] == 1 && buf[i].blockno in dirty ==> buf[i].blockno in pinned
      ensures buf[i].refcnt > 0
      ensures var x := buf[i].(refcnt := buf[i].refcnt - 1);
        Counts(buf[i := x], refs[i := refs[i] - 1], pinned) && Agrees(buf[i := x], disk, view, dirty)
    {
      hide Ring;
      var x := buf[i].(refcnt := buf[i].refcnt - 1);
      forall b | b in pinned || b in dirty
        ensures Cached(buf[i := x], b)
      {
        assert Cached(buf, b);
        var j :| 0 <= j < NBUF && Holds(buf[j], ROOTDEV, b) && buf[j].valid && buf[j].refcnt > 0;
        assert Holds(buf[i := x][j], ROOTDEV, b);
      }
    }

    /** bpin, by the holder of the lock. */
    method BPin(i: nat)
      requires Valid() && i < NBUF && buf[i].dev == ROOTDEV && buf[i].valid && buf[i].blockno !in pinned
      modifies `buf, `pinned
      ensures Valid() && pinned == old(pinned) + {buf[i].blockno}
      ensures buf == old(buf)[i := old(buf[i]).(refcnt := old(buf[i]).refcnt + 1)]
    {
      hide Ring;
      PinFrame(buf, refs, pinned, i);
      buf, pinned := buf[i := buf[i].(refcnt := buf[i].refcnt + 1)], pinned + {buf[i].blockno};
    }

    /** bunpin, of a block the disk is current for. */
    method BUnpin(i: nat)
      requires Valid() && i < NBUF && buf[i].dev == ROOTDEV && buf[i].blockno in pinned && buf[i].blockno !in dirty
      modifies `buf, `pinned
      ensures Valid() && pinned == old(pinned) - {buf[i].blockno}
      ensures buf == old(buf)[i := old(buf[i]).(refcnt := old(buf[i]).refcnt - 1)]
    {
      hide Ring;
      ghost var x := buf[i].(refcnt := buf[i].refcnt - 1);
      forall b | b in pinned - {buf[i].blockno} || b in dirty
        ensures Cached(buf[i := x], b)
      {
        assert Cached(buf, b);
        var j :| 0 <= j < NBUF && Holds(buf[j], ROOTDEV, b) && buf[j].valid && buf[j].refcnt > 0;
        assert Holds(buf[i := x][j], ROOTDEV, b);
      }
      buf, pinned := buf[i := buf[i].(refcnt := buf[i].refcnt - 1)], pinned - {buf[i].blockno};
    }

    /** me has the buffers of h locked and references to those of `mine`. Only pinned blocks and those that me has
        locked are newer than the disk: no other process stores into a buffer now. When me is alone, as at boot, there
        are no other references. */
    ghost predicate Shared(me: nat, alone: bool, h: map<nat, nat>, mine: set<nat>)
      reads `buf, `refs, `view, `disk, `dirty, `pinned
    {
      && me != 0 && Held(buf, refs, view, me, h, mine) && |view| == |disk| && |refs| == NBUF
      && Settled(dirty, pinned, h) && (alone ==> Lone(refs, mine))
    }

    ghost predicate Sharing(me: nat, alone: bool, h: map<nat, nat>)
      reads `buf, `refs, `view, `disk, `dirty, `pinned
    {
      Shared(me, alone, h, h.Keys)
    }

    /** The steps of another process, one that reads. */
    method OtherWants(me: nat, b: nat, h: map<nat, nat>, mine: set<nat>)
      requires Valid() && Shared(me, false, h, mine)
      modifies `buf, `refs
      ensures Valid() && Shared(me, false, h, mine)
      ensures forall i :: i in mine ==> Holds(buf[i], old(buf[i]).dev, old(buf[i]).blockno)
    {
      InUseStays();
      hide Valid, AllInUse;
      var r := BGet(ROOTDEV, b);
      if r.Some? {
        hide Held;
        HeldFrame(old(buf), old(refs), view, me, h, mine, r.value, buf[r.value], refs[r.value]);
      }
    }

    method OtherTakes(me: nat, i: nat, pid: nat, h: map<nat, nat>, mine: set<nat>)
      requires Valid() && Shared(me, false, h, mine)
      modifies `buf
      ensures Valid() && Shared(me, false, h, mine)
      ensures forall i :: i in mine ==> Holds(buf[i], old(buf[i]).dev, old(buf[i]).blockno)
    {
      if i < NBUF && pid != 0 && pid != me && buf[i].pid == 0 && refs[i] > B(i in mine) && buf[i].blockno < |disk| {
        RealDevice(i);
        hide Valid;
        Lock(pid, i);
        Fill(pid, i);
        assert buf == old(buf)[i := buf[i]] && refs == refs[i := refs[i]];
        HeldFrame(old(buf), refs, view, me, h, mine, i, buf[i], refs[i]);
      }
    }

    method OtherLeaves(me: nat, i: nat, h: map<nat, nat>, mine: set<nat>)
      requires Valid() && Shared(me, false, h, mine)
      modifies `buf
      ensures Valid() && Shared(me, false, h, mine)
      ensures forall i :: i in mine ==> Holds(buf[i], old(buf[i]).dev, old(buf[i]).blockno)
    {
      if i < NBUF && buf[i].pid != 0 && buf[i].pid != me {
        hide Valid;
        ReleaseSleep(buf[i].pid, i);
        assert refs == refs[i := refs[i]];
        HeldFrame(old(buf), refs, view, me, h, mine, i, buf[i], refs[i]);
      }
    }

    method OtherDrops(me: nat, i: nat, h: map<nat, nat>, mine: set<nat>)
      requires Valid() && Shared(me, false, h, mine)
      modifies `buf, `refs, `next, `prev, `order
      ensures Valid() && Shared(me, false, h, mine)
      ensures forall i :: i in mine ==> Holds(buf[i], old(buf[i]).dev, old(buf[i]).blockno)
    {
      if i < NBUF && refs[i] > B(i in mine) + B(buf[i].pid != 0 && buf[i].pid != me) {
        if refs[i] == 1 {
          NotMine(me, false, h, mine, i);
        }
        hide Valid;
        Unref(i);
        HeldFrame(old(buf), old(refs), view, me, h, mine, i, buf[i], refs[i]);
      }
    }

    method OtherStep(me: nat, a: Act, h: map<nat, nat>, mine: set<nat>)
      requires Valid() && Shared(me, false, h, mine)
      modifies `buf, `refs, `next, `prev, `order
      ensures Valid() && Shared(me, false, h, mine)
      ensures forall i :: i in mine ==> Holds(buf[i], old(buf[i]).dev, old(buf[i]).blockno)
    {
      hide Valid;
      match a
      case Want(b) => OtherWants(me, b, h, mine);
      case Take(i, pid) => OtherTakes(me, i, pid, h, mine);
      case Leave(i) => OtherLeaves(me, i, h, mine);
      case Drop(i) => OtherDrops(me, i, h, mine);
    }

    /** A buffer with references is in use, and not that of another device. */
    lemma InUseStays()
      requires Valid()
      ensures |buf| == |refs| == NBUF && forall i :: 0 <= i < NBUF && refs[i] > 0 ==> buf[i].refcnt > 0
    {
      hide Ring;
    }

    lemma RealDevice(i: nat)
      requires Valid() && i < NBUF && refs[i] > 0
      ensures buf[i].dev == ROOTDEV
    {
      hide Ring;
    }

    /** A newer copy of a block that me has not locked is pinned. */
    lemma NotMine(me: nat, alone: bool, h: map<nat, nat>, mine: set<nat>, i: nat)
      requires Valid() && Shared(me, alone, h, mine) && i < NBUF && i !in h && refs[i] > 0
      ensures buf[i].blockno in dirty ==> buf[i].blockno in pinned
    {
      hide Ring;
      RealDevice(i);
      forall j | j in h
        ensures h[j] != buf[i].blockno
      {
        OtherKey(buf, i, j);
      }
    }

    /** Any number of steps of other processes, unless me is alone. */
    method Others(me: nat, alone: bool, h: map<nat, nat>, mine: set<nat>)
      requires Valid() && Shared(me, alone, h, mine)
      modifies `buf, `refs, `next, `prev, `order
      ensures Valid() && Shared(me, alone, h, mine)
      ensures forall i :: i in mine ==> Holds(buf[i], old(buf[i]).dev, old(buf[i]).blockno)
    {
      hide Valid;
      if !alone {
        var acts: seq<Act> := *;
        var k := 0;
        while k < |acts|
          invariant Valid() && Shared(me, false, h, mine)
          invariant forall i :: i in mine ==> Holds(buf[i], old(buf[i]).dev, old(buf[i]).blockno)
        {
          OtherStep(me, acts[k], h, mine);
          k := k + 1;
        }
      }
    }

    /** bread by me among the other processes: the latest contents, or the panic of bget in a state in which every
        buffer is in use and none has the block. */
    method Open(me: nat, alone: bool, b: nat, h: map<nat, nat>) returns (r: Option<nat>)
      requires Valid() && Sharing(me, alone, h) && b < |disk| && b !in h.Values
      modifies `buf, `refs, `next, `prev, `order
      ensures Valid()
      ensures r.Some? ==> r.value !in h && Sharing(me, alone, h[r.value := b])
      ensures r.None? ==> Sharing(me, alone, h) && AllInUse(buf) && b !in pinned
    {
      hide Valid;
      Others(me, alone, h, h.Keys);
      r := Ask(me, alone, b, h);
      if r.Some? {
        Others(me, alone, h, h.Keys + {r.value});
        Get(me, alone, r.value, b, h);
      }
    }

    /** me's bget up to acquiresleep. */
    method Ask(me: nat, alone: bool, b: nat, h: map<nat, nat>) returns (r: Option<nat>)
      requires Valid() && Sharing(me, alone, h) && b < |disk| && b !in h.Values
      modifies `buf, `refs
      ensures Valid()
      ensures r.Some? ==>
        r.value < NBUF && r.value !in h && Shared(me, alone, h, h.Keys + {r.value}) && Holds(buf[r.value], ROOTDEV, b)
      ensures r.None? ==> Sharing(me, alone, h) && AllInUse(buf) && b !in pinned
    {
      LockedRefs();
      InUseStays();
      hide Valid, AllInUse, Held;
      r := BGet(ROOTDEV, b);
      if r.None? {
        NotPinned(b);
      } else {
        HeldAt(old(buf), old(refs), view, me, h, h.Keys, r.value);
        HeldAsk(old(buf), old(refs), view, me, h, r.value, buf[r.value], refs[r.value]);
      }
    }

    /** The rest of me's bread. */
    method Get(me: nat, alone: bool, i: nat, b: nat, h: map<nat, nat>)
      requires Valid() && b < |disk| && i < NBUF && i !in h && Shared(me, alone, h, h.Keys + {i})
      requires Holds(buf[i], ROOTDEV, b)
      modifies `buf
      ensures Valid() && Sharing(me, alone, h[i := b])
    {
      hide Valid, Held;
      HeldAt(buf, refs, view, me, h, h.Keys + {i}, i);
      SettledMore(dirty, pinned, h, i, b);
      MoreHeld(h, i, b);
      hide Settled, Lone;
      AcquireSleep(me, i);
      Fill(me, i);
      assert buf == old(buf)[i := buf[i]] && refs == refs[i := refs[i]];
      HeldMore(old(buf), old(refs), view, me, h, i, buf[i], refs[i], b);
    }

    /** With nothing newer in the cache, the block map is the disk. */
    lemma IdleView()
      requires Valid() && dirty == {}
      ensures view == disk
    {
    }

    /** The holder looks at its buffer: it holds the latest contents. */
    method Look(me: nat, alone: bool, i: nat, ghost h: map<nat, nat>) returns (data: Block)
      requires Sharing(me, alone, h) && i in h
      ensures h[i] < |view| && data == view[h[i]]
    {
      data := buf[i].data;
    }

    /** The holder changes the data of its buffer. */
    method Edit(me: nat, alone: bool, i: nat, data: Block, ghost h: map<nat, nat>)
      requires Valid() && Sharing(me, alone, h) && i in h
      modifies `buf, `view, `dirty
      ensures Valid() && Sharing(me, alone, h) && h[i] < |old(view)|
      ensures view == old(view)[h[i] := data] && dirty == old(dirty) + {h[i]}
    {
      hide Ring;
      HeldAt(buf, refs, view, me, h, h.Keys, i);
      HeldStore(buf, refs, pinned, view, me, h, i, data);
      hide Held, Valid;
      Store(me, i, data);
    }

    /** bwrite by the holder; it sleeps for the disk, while other processes go on. */
    method Flush(me: nat, alone: bool, i: nat, h: map<nat, nat>)
      requires Valid() && Sharing(me, alone, h) && i in h
      modifies `disk, `history, `dirty, `buf, `refs, `next, `prev, `order
      ensures Valid() && Sharing(me, alone, h)
      ensures h[i] < |view| == |old(disk)| && disk == old(disk)[h[i] := view[h[i]]] && dirty == old(dirty) - {h[i]}
      ensures history == old(history) + [disk]
    {
      HeldAt(buf, refs, view, me, h, h.Keys, i);
      hide Valid, Held;
      var ok := BWrite(me, i);
      Others(me, alone, h, h.Keys);
    }

    /** memmove between two held buffers, then bwrite of the second. */
    method CopyAndFlush(me: nat, alone: bool, from: nat, to: nat, h: map<nat, nat>)
      requires Valid() && Sharing(me, alone, h) && from in h && to in h
      modifies `buf, `view, `dirty, `disk, `history, `refs, `next, `prev, `order
      ensures Valid() && Sharing(me, alone, h) && h[from] < |old(view)| && h[to] < |old(view)| == |old(disk)|
      ensures view == old(view)[h[to] := old(view)[h[from]]] && disk == old(disk)[h[to] := old(view)[h[from]]]
      ensures dirty == old(dirty) - {h[to]} && history == old(history) + [disk]
    {
      hide Valid, Sharing;
      var data := Look(me, alone, from, h);
      Edit(me, alone, to, data, h);
      Flush(me, alone, to, h);
    }

    method Unpin(me: nat, alone: bool, i: nat, ghost h: map<nat, nat>)
      requires Valid() && Sharing(me, alone, h) && i in h && h[i] in pinned && h[i] !in dirty
      modifies `buf, `pinned
      ensures Valid() && Sharing(me, alone, h) && pinned == old(pinned) - {h[i]}
    {
      HeldAt(buf, refs, view, me, h, h.Keys, i);
      hide Valid, Held;
      BUnpin(i);
      assert buf == old(buf)[i := buf[i]] && refs == refs[i := refs[i]];
      HeldFrame(old(buf), refs, view, me, h, h.Keys, i, buf[i], refs[i]);
    }

    /** brelse among the other processes, which may come between its two steps. */
    method Close(me: nat, alone: bool, i: nat, h: map<nat, nat>)
      requires Valid() && Sharing(me, alone, h) && i in h
      requires h[i] in dirty ==> h[i] in pinned
      modifies `buf, `refs, `next, `prev, `order
      ensures Valid() && Sharing(me, alone, h - {i})
    {
      hide Valid, Shared;
      Free(me, alone, i, h);
      Others(me, alone, h - {i}, h.Keys);
      assert (h - {i}).Keys + {i} == h.Keys;
      Give(me, alone, i, h - {i});
    }

    /** releasesleep: me keeps its reference. */
    method Free(me: nat, alone: bool, i: nat, ghost h: map<nat, nat>)
      requires Valid() && Sharing(me, alone, h) && i in h
      requires h[i] in dirty ==> h[i] in pinned
      modifies `buf
      ensures Valid() && Shared(me, alone, h - {i}, h.Keys)
    {
      HeldAt(buf, refs, view, me, h, h.Keys, i);
      hide Valid, Held, HasLocked, Settled;
      SettledLess(dirty, pinned, h, i);
      ReleaseSleep(me, i);
      HeldFree(old(buf), refs, view, me, h, i, buf[i]);
    }

    /** me gives back the reference. */
    method Give(me: nat, alone: bool, i: nat, ghost h: map<nat, nat>)
      requires Valid() && i !in h && Shared(me, alone, h, h.Keys + {i})
      modifies `buf, `refs, `next, `prev, `order
      ensures Valid() && Sharing(me, alone, h)
    {
      HeldAt(buf, refs, view, me, h, h.Keys + {i}, i);
      if refs[i] == 1 {
        NotMine(me, alone, h, h.Keys + {i}, i);
      }
      hide Valid, Held, Settled, Lone;
      if alone {
        LoneLess(refs, h.Keys, i);
      }
      Unref(i);
      assert buf == old(buf)[i := buf[i]] && refs == old(refs)[i := refs[i]];
      HeldLess(old(buf), old(refs), view, me, h, i, buf[i], refs[i]);
    }

    /** me has no buffer, and every buffer is in use: beside n blocks other processes' references have used them up. */
    ghost predicate Crowded(me: nat, n: nat)
      reads `buf, `refs, `view, `disk, `dirty, `pinned
    {
      && Sharing(me, false, map[]) && |buf| == |refs| == NBUF
      && AllInUse(buf) && n + |Readers(buf, refs, {})| >= NBUF
    }

    /** Why bget fails for me: the pinned blocks and those of the readers are as many as the buffers; alone, me's own
        would have to be. */
    lemma Full(me: nat, alone: bool, h: map<nat, nat>)
      requires Valid() && Sharing(me, alone, h) && AllInUse(buf)
      ensures |pinned + Readers(buf, refs, {})| == NBUF && (h == map[] ==> Crowded(me, |pinned|))
      ensures alone ==> |pinned + h.Values| >= NBUF
    {
      hide Ring, Counts;
      AllInUseWhen(buf, refs, pinned);
      UsedAre(buf, refs, pinned);
      if alone {
        forall i: nat | i < NBUF && refs[i] > 0
          ensures buf[i].blockno in h.Values
        {
          assert i in h;
        }
        SubsetSize(pinned + Readers(buf, refs, {}), pinned + h.Values);
      }
    }
  }

  /** A change to an unused buffer, and to one in use that keeps its block. */
  lemma NewlyUsed(buf: seq<Buf>, refs: seq<nat>, i: nat, x: Buf, r: nat)
    requires |buf| == |refs| == NBUF && i < NBUF && x.refcnt > 0
    requires buf[i].refcnt == refs[i] == 0 || (buf[i].refcnt > 0 && buf[i].blockno == x.blockno)
    ensures Used(buf[i := x]) == Used(buf) + {x.blockno}
    ensures refs[i] == 0 < r ==> Readers(buf[i := x], refs[i := r], {}) == Readers(buf, refs, {}) + {x.blockno}
    ensures refs[i] == 0 == r ==> Readers(buf[i := x], refs[i := r], {}) == Readers(buf, refs, {})
  {
    var buf', refs' := buf[i := x], refs[i := r];
    assert buf'[i] == x && refs'[i] == r;
    assert forall j: nat :: j < NBUF && j != i ==> buf'[j] == buf[j] && refs'[j] == refs[j];
    forall b | b in Used(buf) + {x.blockno}
      ensures b in Used(buf')
    {
      if b != x.blockno {
        var j: nat :| j < NBUF && buf[j].refcnt > 0 && buf[j].blockno == b;
        assert buf'[j].refcnt > 0 && buf'[j].blockno == b;
      }
    }
    forall b | b in Readers(buf, refs, {})
      ensures refs[i] == 0 ==> b in Readers(buf', refs', {})
    {
      var j: nat :| j < NBUF && refs[j] > 0 && buf[j].blockno == b;
      assert refs[i] == 0 ==> refs'[j] > 0 && buf'[j].blockno == b;
    }
  }

  /** log_write's bpin, and brelse, by the only process that refers to the block. */
  method PinOne(c: Bcache, me: nat, i: nat)
    requires c.Valid() && me != 0 && i < NBUF && c.dirty == {} && c.refs[i] == c.buf[i].refcnt == 1
    requires c.buf[i].pid == me && c.buf[i].dev == ROOTDEV && c.buf[i].valid && c.buf[i].blockno !in c.pinned
    modifies c`buf, c`refs, c`pinned, c`next, c`prev, c`order
    ensures c.Valid() && c.buf == old(c.buf)[i := old(c.buf[i]).(pid := 0)] && c.refs == old(c.refs)[i := 0]
    ensures c.pinned == old(c.pinned) + {old(c.buf[i]).blockno}
  {
    c.IsCounted();
    hide Bcache.Valid, ToFront, Counts;
    c.BPin(i);
    var ok := c.BRelse(me, i);
  }

  /** A reader's bread, or, to pin, the bread, log_write's bpin and the brelse of a process that logs the block. */
  method Enter(c: Bcache, me: nat, b: nat, pin: bool)
    requires c.Valid() && me != 0 && b < |c.disk| && b !in Used(c.buf) && !AllInUse(c.buf) && c.dirty == {}
    requires forall i :: 0 <= i < NBUF ==> c.buf[i].pid < me
    modifies c`buf, c`refs, c`pinned, c`next, c`prev, c`order
    ensures c.Valid() && forall i :: 0 <= i < NBUF ==> c.buf[i].pid <= me
    ensures Used(c.buf) == old(Used(c.buf)) + {b}
    ensures c.pinned == if pin then old(c.pinned) + {b} else old(c.pinned)
    ensures Readers(c.buf, c.refs, {}) == old(Readers(c.buf, c.refs, {})) + if pin then {} else {b}
  {
    ghost var buf0, refs0 := c.buf, c.refs;
    c.Unused(b);
    hide Bcache.Valid, Used, Readers, ToFront;
    var r := c.BRead(me, ROOTDEV, b);
    assert r.Some?;
    var i := r.value;
    if pin {
      PinOne(c, me, i);
    }
    assert c.buf == buf0[i := c.buf[i]] && c.refs == refs0[i := c.refs[i]];
    NewlyUsed(buf0, refs0, i, c.buf[i], c.refs[i]);
  }

  /** The first i of the blocks are in use, of these the first p pinned and the others read. */
  ghost predicate Entered(buf: seq<Buf>, refs: seq<nat>, pinned: set<nat>, bs: seq<nat>, p: nat, i: nat)
    requires p <= |bs| && i <= |bs|
  {
    && |buf| == |refs| == NBUF && Used(buf) == SetOf(bs[..i])
    && pinned == SetOf(bs[..if i < p then i else p])
    && Readers(buf, refs, {}) == SetOf(bs[if i < p then i else p..i])
  }

  /** There is a buffer for the next one. */
  lemma NextEnters(buf: seq<Buf>, refs: seq<nat>, pinned: set<nat>, bs: seq<nat>, p: nat, i: nat)
    requires |bs| == NBUF && NoDup(bs) && p <= NBUF && i <= NBUF
    requires Entered(buf, refs, pinned, bs, p, i) && Counts(buf, refs, pinned)
    ensures AllInUse(buf) <==> i == NBUF
    ensures i < NBUF ==> bs[i] !in Used(buf) && SetOf(bs[..i + 1]) == SetOf(bs[..i]) + {bs[i]}
    ensures p <= i < NBUF ==> SetOf(bs[p..i + 1]) == SetOf(bs[p..i]) + {bs[i]}
  {
    hide Counts, Used, Readers, AllInUse;
    AllInUseWhen(buf, refs, pinned);
    SetOfSize(bs[..i]);
    if i < NBUF {
      assert bs[..i + 1] == bs[..i] + [bs[i]];
      SetOfMore(bs[..i], bs[i]);
    }
    if p <= i < NBUF {
      assert bs[p..i + 1] == bs[p..i] + [bs[i]];
      SetOfMore(bs[p..i], bs[i]);
    }
  }

  /** A run in which bget panics: from binit on, different processes log the first p of NBUF different blocks, and
      others read the rest. */
  method Jam(disk: seq<Block>, bs: seq<nat>, p: nat, b: nat) returns (c: Bcache, r: Option<nat>)
    requires |bs| == NBUF && NoDup(bs) && p <= NBUF && b !in bs && forall i :: 0 <= i < NBUF ==> bs[i] < |disk|
    ensures fresh(c) && c.Valid() && c.disk == disk && AllInUse(c.buf) && r.None?
    ensures c.pinned == SetOf(bs[..p]) && Readers(c.buf, c.refs, {}) == SetOf(bs[p..])
  {
    hide Entered;
    c := new Bcache(disk);
    NoneEntered(c, bs, p);
    hide Bcache.Valid;
    var i := 0;
    while i < NBUF
      invariant 0 <= i <= NBUF && c.Valid() && fresh(c) && c.disk == disk && c.dirty == {}
      invariant |c.buf| == NBUF && forall k :: 0 <= k < NBUF ==> c.buf[k].pid <= i
      invariant Entered(c.buf, c.refs, c.pinned, bs, p, i)
    {
      EnterNext(c, bs, p, i);
      i := i + 1;
    }
    AllEntered(c, bs, p, b);
    r := c.BGet(ROOTDEV, b);
  }

  lemma NoneEntered(c: Bcache, bs: seq<nat>, p: nat)
    requires c.Valid() && c.pinned == {} && (forall i :: 0 <= i < NBUF ==> c.buf[i].dev == 0) && p <= |bs|
    ensures Entered(c.buf, c.refs, c.pinned, bs, p, 0)
  {
    c.IsCounted();
    hide Counts;
    c.FreshCounts();
    hide Bcache.Valid;
  }

  method EnterNext(c: Bcache, bs: seq<nat>, p: nat, i: nat)
    requires |bs| == NBUF && NoDup(bs) && p <= NBUF && i < NBUF && c.Valid() && bs[i] < |c.disk| && c.dirty == {}
    requires Entered(c.buf, c.refs, c.pinned, bs, p, i) && forall k :: 0 <= k < NBUF ==> c.buf[k].pid <= i
    modifies c`buf, c`refs, c`pinned, c`next, c`prev, c`order
    ensures c.Valid() && |c.buf| == NBUF && forall k :: 0 <= k < NBUF ==> c.buf[k].pid <= i + 1
    ensures Entered(c.buf, c.refs, c.pinned, bs, p, i + 1)
  {
    c.IsCounted();
    NextEnters(c.buf, c.refs, c.pinned, bs, p, i);
    hide Bcache.Valid, Used, Readers, AllInUse, Counts;
    Enter(c, i + 1, bs[i], i < p);
  }

  lemma AllEntered(c: Bcache, bs: seq<nat>, p: nat, b: nat)
    requires |bs| == NBUF && NoDup(bs) && p <= NBUF && c.Valid() && b !in bs
    requires Entered(c.buf, c.refs, c.pinned, bs, p, NBUF)
    ensures AllInUse(c.buf) && forall i :: 0 <= i < NBUF ==> !Holds(c.buf[i], ROOTDEV, b)
    ensures c.pinned == SetOf(bs[..p]) && |c.refs| == NBUF && Readers(c.buf, c.refs, {}) == SetOf(bs[p..])
  {
    c.IsCounted();
    hide Bcache.Valid;
    NextEnters(c.buf, c.refs, c.pinned, bs, p, NBUF);
    assert bs[..NBUF] == bs && bs[p..NBUF] == bs[p..];
    hide Counts, Used;
    NotInUse(c.buf, c.refs, c.pinned, bs, b);
  }

  /** With every buffer in use for one of the blocks, none has another. */
  lemma NotInUse(buf: seq<Buf>, refs: seq<nat>, pinned: set<nat>, bs: seq<nat>, b: nat)
    requires |buf| == NBUF && AllInUse(buf) && Used(buf) == SetOf(bs) && b !in bs
    ensures forall i :: 0 <= i < NBUF ==> !Holds(buf[i], ROOTDEV, b)
  {
    forall i | 0 <= i < NBUF
      ensures buf[i].blockno in SetOf(bs)
    {
      assert buf[i].refcnt > 0;
    }
  }
}
