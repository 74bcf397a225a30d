/** The logging layer over the buffer cache: transactions, commit and recovery. */
module Log {
  import opened Blocks
  import opened Collections
  import opened LogSpace
  import opened RedoLog
  import opened Bio

  datatype Outcome = Ok | Panic(message: string)

  /** The pinned blocks of a transaction leave a buffer free. */
  lemma Room(l: Layout, d: Disk, bs: seq<nat>, pinned: set<nat>)
    requires l.Fits(d) && Loggable(l, d, bs) && pinned <= SetOf(bs)
    ensures |pinned| <= |bs| < NBUF
  {
    SetOfSize(bs);
    SubsetSize(pinned, SetOf(bs));
  }

  lemma OneLess(bs: seq<nat>, k: nat)
    requires NoDup(bs) && k < |bs|
    ensures bs[k] in SetOf(bs[k..]) && SetOf(bs[k..]) - {bs[k]} == SetOf(bs[k + 1..])
  {
    assert bs[k..] == [bs[k]] + bs[k + 1..];
  }

  ghost predicate Extends(h: seq<Disk>, h': seq<Disk>) {
    |h| <= |h'| && h'[..|h|] == h
  }

  /** The disk of a transaction that has not committed: home blocks and header as they were. */
  ghost predicate Uncommitted(l: Layout, d: Disk, e: Disk) {
    SameHomes(l, e, d) && l.start < |e| == |d| && e[l.start] == d[l.start]
  }

  lemma InstallNone(l: Layout, d: Disk, bs: seq<nat>)
    requires l.Fits(d) && Loggable(l, d, bs)
    ensures Install(l, d, bs, 0) == d
  {
  }

  lemma UncommittedRecovers(l: Layout, d: Disk, e: Disk)
    requires l.Fits(d) && HeaderCount(d[l.start]) == 0 && Uncommitted(l, d, e)
    ensures RecoversTo(l, e, d)
  {
    RecoverEmpty(l, e);
  }

  lemma EmptiedRecovers(l: Layout, e: Disk, v: Disk)
    requires l.Fits(e) && HeaderCount(e[l.start]) == 0 && SameHomes(l, e, v)
    ensures RecoversTo(l, e, v)
  {
    RecoverEmpty(l, e);
  }

  lemma ViewHolds(l: Layout, c: Disk, bs: seq<nat>, v: Disk, w: Disk)
    requires LogHolds(l, c, bs, v) && SameHomes(l, w, v)
    requires forall b :: l.InLog(b) ==> w[b] == c[b]
    ensures LogHolds(l, w, bs, v)
  {
    forall j | 0 <= j < |bs|
      ensures w[l.start + j + 1] == v[bs[j]]
    {
      assert l.InLog(l.start + j + 1);
    }
  }

  lemma HeaderChanged(l: Layout, d: Disk, e: Disk, v: Disk)
    requires l.Fits(d) && SameHomes(l, d, v) && |e| == |d| && forall b :: 0 <= b < |d| && b != l.start ==> e[b] == d[b]
    ensures SameHomes(l, e, v)
  {
    assert l.InLog(l.start);
  }

  /** Of the disks from the n-th on, those before the m-th recover to d and the others to v. */
  ghost predicate CommitPoint(l: Layout, h: seq<Disk>, n: nat, m: nat, d: Disk, v: Disk) {
    && n <= m <= |h|
    && (forall i :: n <= i < m ==> RecoversTo(l, h[i], d))
    && (forall i :: m <= i < |h| ==> RecoversTo(l, h[i], v))
  }

  /** The disks of a transaction before its header is written. */
  lemma BeforeCommit(l: Layout, h: seq<Disk>, n: nat, m: nat, d: Disk)
    requires l.Fits(d) && HeaderCount(d[l.start]) == 0 && n <= m <= |h|
    requires forall i :: n <= i < m ==> Uncommitted(l, d, h[i])
    ensures forall i :: n <= i < m ==> RecoversTo(l, h[i], d)
  {
    hide RecoversTo, Uncommitted;
    forall i | n <= i < m
      ensures RecoversTo(l, h[i], d)
    {
      UncommittedRecovers(l, d, h[i]);
    }
  }

  /** c is the disk with the committed header, bs its blocks; the writes after it install them and the last one empties
      the header, unless commit has panicked before. */
  lemma AfterCommit(l: Layout, h: seq<Disk>, m: nat, v: Disk, c: Disk, bs: seq<nat>)
    requires m < |h| <= m + |bs| + 2
    requires LogHolds(l, c, bs, v) && HeaderCount(c[l.start]) == |bs| <= LOGSIZE && HeaderBlocks(c[l.start]) == bs
    requires forall i :: m <= i < |h| && i <= m + |bs| ==> h[i] == Install(l, c, bs, i - m)
    requires |h| == m + |bs| + 2 ==> RecoversTo(l, h[|h| - 1], v)
    ensures forall i :: m <= i < |h| ==> RecoversTo(l, h[i], v)
  {
    hide *;
    forall i | m <= i < |h|
      ensures RecoversTo(l, h[i], v)
    {
      if i <= m + |bs| {
        CommittedRecovers(l, c, bs, v, i - m);
      }
    }
  }

  /** Crash atomicity: h are the disks of a run whose transaction commits at the m-th, d and v the home
      blocks before and after it. A crash at any of its writes, followed by recoveries that are
      themselves interrupted any number of times, ends with d or with v on every home block. */
  lemma CrashAtomicity(l: Layout, h: seq<Disk>, n: nat, m: nat, d: Disk, v: Disk, i: nat, ds: seq<Disk>)
    requires CommitPoint(l, h, n, m, d, v) && n <= i < |h| && CrashChain(l, ds) && ds[0] == h[i]
    ensures RecoversTo(l, ds[|ds| - 1], if i < m then d else v)
  {
    RecoversToRepeated(l, ds, if i < m then d else v);
  }

  class Log {
    const cache: Bcache
    const layout: Layout
    /** log.lh.block[..log.lh.n] */
    var blocks: seq<nat>
    var outstanding: nat
    var committing: bool

    /** What commit and recovery rely on: me holds no buffer, only home blocks are newer than the disk, and other
        processes only read. Recovery runs alone, as the first process starts. */
    ghost predicate Ready(me: nat, alone: bool, bs: seq<nat>)
      reads this, cache
    {
      && cache.Valid() && cache.Sharing(me, alone, map[]) && |cache.view| == |cache.disk|
      && layout.Fits(cache.disk) && Loggable(layout, cache.disk, bs)
      && cache.dirty <= cache.pinned <= SetOf(bs)
    }

    /** bget has found every buffer in use, which takes readers. */
    lemma Stuck(me: nat, alone: bool, bs: seq<nat>)
      requires Ready(me, alone, bs) && AllInUse(cache.buf)
      ensures !alone && cache.Crowded(me, |bs|)
    {
      hide Bcache.Valid, Bcache.Sharing;
      Room(layout, cache.disk, bs, cache.pinned);
      var none: map<nat, nat> := map[];
      cache.Full(me, alone, none);
      assert cache.pinned + none.Values == cache.pinned;
    }

    /** The two breads of a turn: the log block, then the home block. */
    method OpenPair(me: nat, alone: bool, bs: seq<nat>, tail: nat) returns (ok: bool, lbuf: nat, dbuf: nat)
      requires Ready(me, alone, bs) && tail < |bs|
      requires if alone then cache.pinned == {} else bs[tail] in cache.pinned
      modifies cache`buf, cache`refs, cache`next, cache`prev, cache`order
      ensures cache.Valid()
      ensures ok ==> lbuf != dbuf && cache.Sharing(me, alone, map[lbuf := layout.start + tail + 1, dbuf := bs[tail]])
      ensures !ok ==> Ready(me, alone, bs) && !alone && cache.Crowded(me, |bs|)
    {
      hide Bcache.Valid, Bcache.Sharing;
      var slot := layout.start + tail + 1;
      assert layout.InLog(slot);
      var r := cache.Open(me, alone, slot, map[]);
      if r.None? {
        Stuck(me, alone, bs);
        return false, 0, 0;
      }
      lbuf := r.value;
      r := cache.Open(me, alone, bs[tail], map[lbuf := slot]);
      assert map[lbuf := slot].Values == {slot};
      if r.None? {
        cache.Full(me, alone, map[lbuf := slot]);
        assert false;
      }
      dbuf := r.value;
      assert map[lbuf := slot][dbuf := bs[tail]] == map[lbuf := slot, dbuf := bs[tail]];
      ok := true;
    }

    /** The two brelses of a turn. */
    method ClosePair(me: nat, alone: bool, i: nat, j: nat, h: map<nat, nat>)
      requires cache.Valid() && cache.Sharing(me, alone, h) && h.Keys == {i, j} && i != j
      requires forall k :: k in h && h[k] in cache.dirty ==> h[k] in cache.pinned
      modifies cache`buf, cache`refs, cache`next, cache`prev, cache`order
      ensures cache.Valid() && cache.Sharing(me, alone, map[])
    {
      hide Bcache.Valid, Bcache.Sharing;
      cache.Close(me, alone, i, h);
      cache.Close(me, alone, j, h - {i});
      assert h - {i} - {j} == map[];
    }

    /** One turn of write_log: the cached block goes to its slot in the log. */
    method CopyToLog(me: nat, bs: seq<nat>, tail: nat) returns (ok: bool)
      requires Ready(me, false, bs) && tail < |bs| && cache.pinned == SetOf(bs)
      modifies cache
      ensures Ready(me, false, bs) && cache.pinned == old(cache.pinned) && cache.dirty == old(cache.dirty)
      ensures ok ==> cache.disk == old(cache.disk)[layout.start + tail + 1 := old(cache.view)[bs[tail]]]
      ensures ok ==> cache.view == old(cache.view)[layout.start + tail + 1 := old(cache.view)[bs[tail]]]
      ensures ok ==> cache.history == old(cache.history) + [cache.disk]
      ensures !ok ==>
        cache.disk == old(cache.disk) && cache.view == old(cache.view) && cache.history == old(cache.history)
      ensures !ok ==> cache.Crowded(me, |bs|)
    {
      hide Bcache.Valid, Bcache.Sharing;
      assert layout.InLog(layout.start + tail + 1);
      var to, from;
      ok, to, from := OpenPair(me, false, bs, tail);
      if ok {
        var h := map[to := layout.start + tail + 1, from := bs[tail]];
        cache.CopyAndFlush(me, false, from, to, h);
        assert cache.dirty == old(cache.dirty);
        ClosePair(me, false, from, to, h);
      }
    }

    /** One turn of install_trans: the logged block goes to its home. */
    method InstallOne(me: nat, bs: seq<nat>, tail: nat, recovering: bool) returns (ok: bool)
      requires Ready(me, recovering, bs) && tail < |bs|
      requires if recovering then cache.pinned == {} else bs[tail] in cache.pinned
      modifies cache
      ensures Ready(me, recovering, bs) && (recovering ==> ok)
      ensures ok ==> cache.pinned == old(cache.pinned) - {bs[tail]} && cache.dirty == old(cache.dirty) - {bs[tail]}
      ensures ok ==> cache.disk == old(cache.disk)[bs[tail] := old(cache.view)[layout.start + tail + 1]]
      ensures ok ==> cache.view == old(cache.view)[bs[tail] := old(cache.view)[layout.start + tail + 1]]
      ensures ok ==> cache.history == old(cache.history) + [cache.disk]
      ensures !ok ==> cache.disk == old(cache.disk) && cache.history == old(cache.history) && cache.Crowded(me, |bs|)
    {
      hide Bcache.Valid, Bcache.Sharing;
      assert layout.InLog(layout.start + tail + 1);
      var lbuf, dbuf;
      ok, lbuf, dbuf := OpenPair(me, recovering, bs, tail);
      if ok {
        var h := map[lbuf := layout.start + tail + 1, dbuf := bs[tail]];
        cache.CopyAndFlush(me, recovering, lbuf, dbuf, h);
        if !recovering {
          cache.Unpin(me, recovering, dbuf, h);
        }
        assert cache.dirty == old(cache.dirty) - {bs[tail]};
        ClosePair(me, recovering, lbuf, dbuf, h);
      }
    }

    /** write_head: the header block takes the count and the block numbers of bs. */
    method WriteHead(me: nat, alone: bool, bs: seq<nat>, ghost all: seq<nat>) returns (ok: bool)
      requires Ready(me, alone, all) && Loggable(layout, cache.disk, bs)
      modifies cache
      ensures Ready(me, alone, all) && cache.pinned == old(cache.pinned) && cache.dirty == old(cache.dirty)
      ensures ok ==> exists h ::
        && cache.disk == old(cache.disk)[layout.start := h] && cache.view == old(cache.view)[layout.start := h]
        && HeaderCount(h) == |bs| && HeaderBlocks(h) == bs
        && (bs == [] ==> h == SetWord(old(cache.view)[layout.start], 0, 0))
      ensures ok ==> cache.history == old(cache.history) + [cache.disk]
      ensures !ok ==> cache.disk == old(cache.disk) && cache.history == old(cache.history)
      ensures !ok ==> !alone && cache.Crowded(me, |all|)
    {
      hide Bcache.Valid, Bcache.Sharing;
      assert layout.InLog(layout.start);
      var r := cache.Open(me, alone, layout.start, map[]);
      if r.None? {
        Stuck(me, alone, all);
        return false;
      }
      var hb := r.value;
      var h := map[][hb := layout.start];
      var data := cache.Look(me, alone, hb, h);
      data := EditHeader(data, bs);
      cache.Edit(me, alone, hb, data, h);
      cache.Flush(me, alone, hb, h);
      cache.Close(me, alone, hb, h);
      assert h - {hb} == map[];
      return true;
    }

    /** write_log. */
    method WriteLog(me: nat, bs: seq<nat>) returns (ok: bool)
      requires Ready(me, false, bs) && cache.pinned == SetOf(bs)
      modifies cache
      ensures Ready(me, false, bs) && cache.pinned == old(cache.pinned) && cache.dirty == old(cache.dirty)
      ensures ok ==> forall k :: 0 <= k < |bs| ==> cache.disk[layout.start + k + 1] == old(cache.view)[bs[k]]
      ensures !ok ==> cache.Crowded(me, |bs|)
      ensures SameHomes(layout, cache.disk, old(cache.disk)) && SameHomes(layout, cache.view, old(cache.view))
      ensures Extends(old(cache.history), cache.history)
      ensures forall i :: |old(cache.history)| <= i < |cache.history| ==>
        Uncommitted(layout, old(cache.disk), cache.history[i])
      ensures cache.disk[layout.start] == old(cache.disk)[layout.start]
    {
      hide Bcache.Valid, Bcache.Sharing;
      var tail := 0;
      ok := true;
      while ok && tail < |bs|
        invariant 0 <= tail <= |bs| && Ready(me, false, bs) && cache.pinned == old(cache.pinned)
          && cache.dirty == old(cache.dirty)
        invariant forall k :: 0 <= k < tail ==> cache.disk[layout.start + k + 1] == old(cache.view)[bs[k]]
        invariant SameHomes(layout, cache.disk, old(cache.disk)) && SameHomes(layout, cache.view, old(cache.view))
        invariant Extends(old(cache.history), cache.history)
        invariant forall i :: |old(cache.history)| <= i < |cache.history| ==>
          Uncommitted(layout, old(cache.disk), cache.history[i])
        invariant cache.disk[layout.start] == old(cache.disk)[layout.start]
        invariant !ok ==> cache.Crowded(me, |bs|)
        decreases ok, |bs| - tail
      {
        ok := CopyToLog(me, bs, tail);
        if ok {
          tail := tail + 1;
        }
      }
    }

    /** install_trans. */
    method InstallTrans(me: nat, bs: seq<nat>, recovering: bool) returns (ok: bool)
      requires Ready(me, recovering, bs)
      requires if recovering then cache.pinned == {} else cache.pinned == SetOf(bs) && NoDup(bs)
      requires forall b :: layout.InLog(b) ==> cache.view[b] == cache.disk[b]
      modifies cache
      ensures Ready(me, recovering, bs) && (recovering ==> ok)
      ensures ok ==> cache.pinned == {}
      ensures ok ==> cache.disk == Install(layout, old(cache.disk), bs, |bs|)
      ensures ok ==> cache.view == Install(layout, old(cache.view), bs, |bs|)
      ensures ok ==> |cache.history| == |old(cache.history)| + |bs|
      ensures !ok ==> |cache.history| < |old(cache.history)| + |bs| && cache.Crowded(me, |bs|)
      ensures Extends(old(cache.history), cache.history)
      ensures forall i :: |old(cache.history)| <= i < |cache.history| ==>
        cache.history[i] == Install(layout, old(cache.disk), bs, i + 1 - |old(cache.history)|)
    {
      hide Bcache.Valid, Bcache.Sharing, Bcache.Crowded;
      hide Install, NoDup;
      ghost var n, d, v := |cache.history|, cache.disk, cache.view;
      assert Install(layout, d, bs, 0) == d && Install(layout, v, bs, 0) == v by {
        InstallNone(layout, d, bs);
        InstallNone(layout, v, bs);
      }
      assert bs[0..] == bs && SetOf(bs[|bs|..]) == {};
      var tail := 0;
      ok := true;
      while ok && tail < |bs|
        invariant 0 <= tail <= |bs| && Ready(me, recovering, bs) && (recovering ==> ok)
        invariant ok ==> cache.pinned == if recovering then {} else SetOf(bs[tail..])
        invariant ok ==> cache.disk == Install(layout, d, bs, tail) && cache.view == Install(layout, v, bs, tail)
        invariant |cache.history| == n + tail && Extends(old(cache.history), cache.history)
        invariant forall i :: n <= i < |cache.history| ==> cache.history[i] == Install(layout, d, bs, i + 1 - n)
        invariant !ok ==> tail < |bs| && cache.Crowded(me, |bs|)
        decreases ok, |bs| - tail
      {
        if !recovering {
          OneLess(bs, tail);
        }
        InstallStep(layout, d, bs, tail);
        InstallStep(layout, v, bs, tail);
        assert layout.InLog(layout.start + tail + 1);
        ok := InstallOne(me, bs, tail, recovering);
        if ok {
          tail := tail + 1;
        }
      }
    }

    /** Between the steps of a transaction: the on-disk header is empty, the blocks listed in memory
        are the pinned ones, and the log area is as on disk. */
    ghost predicate Valid()
      reads this, cache
    {
      && cache.Valid() && layout.Fits(cache.disk) && |cache.view| == |cache.disk|
      && HeaderCount(cache.disk[layout.start]) == 0
      && Loggable(layout, cache.disk, blocks) && NoDup(blocks)
      && cache.pinned == SetOf(blocks)
      && (forall b :: b in cache.dirty ==> !layout.InLog(b))
    }

    /** me is not between bread and brelse, and no process is between a store into a buffer and its log_write. */
    ghost predicate Quiet(me: nat)
      reads this, cache
    {
      cache.Sharing(me, false, map[]) && cache.dirty <= cache.pinned
    }

    /** Off the pinned blocks the disk is current, and so it is in the log area. */
    lemma DiskCurrent()
      requires cache.Valid() && cache.dirty <= cache.pinned
      ensures |cache.view| == |cache.disk|
      ensures forall b :: 0 <= b < |cache.disk| && b !in cache.pinned ==> cache.view[b] == cache.disk[b]
    {
    }

    /** commit, while other processes read. Every disk the writes pass through recovers, up to some write, to the home
        blocks as they were, and from that write on to the home blocks of the transaction, whether or not commit comes
        to its end. It does, unless bget finds every buffer in use: by the logged blocks and, at that moment,
        readers. */
    method Commit(me: nat) returns (ok: bool)
      requires Valid() && Quiet(me)
      modifies this`blocks, cache
      ensures ok ==> Valid() && Quiet(me) && blocks == []
      ensures ok ==> SameHomes(layout, cache.view, old(cache.view)) && SameHomes(layout, cache.disk, old(cache.view))
      ensures !ok ==> old(blocks) != [] && cache.Crowded(me, |old(blocks)|)
      ensures Extends(old(cache.history), cache.history)
      ensures exists m :: CommitPoint(layout, cache.history, |old(cache.history)|, m, old(cache.disk), old(cache.view))
    {
      if |blocks| > 0 {
        ok := CommitBlocks(me);
      } else {
        assert cache.dirty == {};
        assert CommitPoint(layout, cache.history, |old(cache.history)|, |cache.history|, old(cache.disk),
                           old(cache.view));
        ok := true;
      }
    }

    /** commit, of a transaction that logged something, up to and including the write of the header. */
    method LogBlocks(me: nat) returns (ok: bool)
      requires Valid() && Quiet(me)
      modifies cache
      ensures Extends(old(cache.history), cache.history)
      ensures forall i :: |old(cache.history)| <= i < |cache.history| - (if ok then 1 else 0) ==>
        Uncommitted(layout, old(cache.disk), cache.history[i])
      ensures !ok ==> cache.Crowded(me, |blocks|)
      ensures ok ==> Ready(me, false, blocks) && cache.pinned == SetOf(blocks)
      ensures ok ==> |old(cache.history)| < |cache.history| && cache.history[|cache.history| - 1] == cache.disk
      ensures ok ==>
        LogHolds(layout, cache.disk, blocks, old(cache.view)) && SameHomes(layout, cache.view, old(cache.view))
      ensures ok ==>
        HeaderCount(cache.disk[layout.start]) == |blocks| && HeaderBlocks(cache.disk[layout.start]) == blocks
    {
      DiskCurrent();
      hide Bcache.Valid, Bcache.Sharing;
      ok := WriteLog(me, blocks);
      if ok {
        ok := WriteHead(me, false, blocks, blocks);
      }
    }

    /** The rest of commit: install, then empty the header. */
    method FinishCommit(me: nat, bs: seq<nat>, ghost v: Disk) returns (ok: bool)
      requires Ready(me, false, bs) && cache.pinned == SetOf(bs) && NoDup(bs)
      requires LogHolds(layout, cache.disk, bs, v) && SameHomes(layout, cache.view, v)
      modifies cache
      ensures Extends(old(cache.history), cache.history)
      ensures |cache.history| <= |old(cache.history)| + |bs| + if ok then 1 else 0
      ensures forall i :: |old(cache.history)| <= i < |cache.history| - (if ok then 1 else 0) ==>
        cache.history[i] == Install(layout, old(cache.disk), bs, i + 1 - |old(cache.history)|)
      ensures !ok ==> cache.Crowded(me, |bs|)
      ensures ok ==> Ready(me, false, []) && cache.pinned == {} && HeaderCount(cache.disk[layout.start]) == 0
      ensures ok ==> SameHomes(layout, cache.view, v) && SameHomes(layout, cache.disk, v)
      ensures ok ==>
        |cache.history| == |old(cache.history)| + |bs| + 1 && cache.history[|cache.history| - 1] == cache.disk
    {
      hide Bcache.Valid, Bcache.Sharing;
      hide Install, LogHolds, SameHomes;
      CacheHoldsToo(me, bs, v);
      ok := InstallAll(me, bs, v);
      if ok {
        ghost var d, w := cache.disk, cache.view;
        ok := WriteHead(me, false, [], bs);
        if ok {
          HeaderChanged(layout, d, cache.disk, v);
          HeaderChanged(layout, w, cache.view, v);
        }
      }
    }

    lemma CacheHoldsToo(me: nat, bs: seq<nat>, v: Disk)
      requires Ready(me, false, bs) && LogHolds(layout, cache.disk, bs, v) && SameHomes(layout, cache.view, v)
      ensures forall b :: layout.InLog(b) ==> cache.view[b] == cache.disk[b]
      ensures LogHolds(layout, cache.view, bs, v)
    {
      DiskCurrent();
      forall b | layout.InLog(b)
        ensures cache.view[b] == cache.disk[b]
      {
        assert b !in SetOf(bs);
      }
      hide Bcache.Valid, Bcache.Sharing;
      ViewHolds(layout, cache.disk, bs, v, cache.view);
    }

    /** install_trans of a committed transaction. */
    method InstallAll(me: nat, bs: seq<nat>, ghost v: Disk) returns (ok: bool)
      requires Ready(me, false, bs) && cache.pinned == SetOf(bs) && NoDup(bs)
      requires LogHolds(layout, cache.disk, bs, v) && LogHolds(layout, cache.view, bs, v)
      requires forall b :: layout.InLog(b) ==> cache.view[b] == cache.disk[b]
      modifies cache
      ensures Ready(me, false, bs)
      ensures ok ==> cache.pinned == {} && SameHomes(layout, cache.view, v) && SameHomes(layout, cache.disk, v)
      ensures ok ==> |cache.history| == |old(cache.history)| + |bs|
      ensures !ok ==> |cache.history| < |old(cache.history)| + |bs| && cache.Crowded(me, |bs|)
      ensures Extends(old(cache.history), cache.history)
      ensures forall i :: |old(cache.history)| <= i < |cache.history| ==>
        cache.history[i] == Install(layout, old(cache.disk), bs, i + 1 - |old(cache.history)|)
    {
      hide *;
      HomesInstalled(layout, cache.disk, bs, v);
      HomesInstalled(layout, cache.view, bs, v);
      ok := InstallTrans(me, bs, false);
    }

    /** commit of a transaction that logged something. */
    method CommitBlocks(me: nat) returns (ok: bool)
      requires Valid() && Quiet(me) && blocks != []
      modifies this`blocks, cache
      ensures ok ==> Valid() && Quiet(me) && blocks == []
      ensures ok ==> SameHomes(layout, cache.view, old(cache.view)) && SameHomes(layout, cache.disk, old(cache.view))
      ensures !ok ==> cache.Crowded(me, |old(blocks)|)
      ensures Extends(old(cache.history), cache.history)
      ensures exists m :: CommitPoint(layout, cache.history, |old(cache.history)|, m, old(cache.disk), old(cache.view))
    {
      hide Bcache.Valid, Bcache.Sharing, Bcache.Crowded;
      hide Install, Recovered, HeaderBlocks, HeaderCount, RecoversTo, Uncommitted, LogHolds;
      ghost var d, v, bs := cache.disk, cache.view, blocks;
      ok := LogBlocks(me);
      if !ok {
        BeforeCommit(layout, cache.history, |old(cache.history)|, |cache.history|, d);
        assert CommitPoint(layout, cache.history, |old(cache.history)|, |cache.history|, d, v);
        return;
      }
      ghost var m, c := |cache.history| - 1, cache.disk;
      BeforeCommit(layout, cache.history, |old(cache.history)|, m, d);
      ok := FinishCommit(me, blocks, v);
      InstallNone(layout, c, bs);
      if ok {
        blocks := [];
        EmptiedRecovers(layout, cache.disk, v);
      }
      AfterCommit(layout, cache.history, m, v, c, bs);
      assert CommitPoint(layout, cache.history, |old(cache.history)|, m, d, v);
    }

    /** read_head. */
    method ReadHead(me: nat) returns (bs: seq<nat>)
      requires Ready(me, true, []) && Readable(layout, cache.disk)
      modifies cache`buf, cache`refs, cache`next, cache`prev, cache`order
      ensures Ready(me, true, []) && bs == HeaderBlocks(cache.disk[layout.start])
    {
      DiskCurrent();
      hide Bcache.Valid, Bcache.Sharing;
      var r := cache.Open(me, true, layout.start, map[]);
      if r.None? {
        Stuck(me, true, []);
        assert false;
      }
      var b := r.value;
      var h := map[][b := layout.start];
      var data := cache.Look(me, true, b, h);
      var n := Word(data, 0);
      bs := [];
      var i := 0;
      while i < n
        invariant 0 <= i <= n && |bs| == i && forall k :: 0 <= k < i ==> bs[k] == Word(data, 1 + k)
      {
        bs := bs + [Word(data, 1 + i)];
        i := i + 1;
      }
      cache.Close(me, true, b, h);
      assert h - {b} == map[];
    }

    /** recover_from_log. */
    method Recover(me: nat)
      requires Ready(me, true, []) && Readable(layout, cache.disk)
      modifies this`blocks, cache
      ensures Ready(me, true, []) && blocks == []
      ensures cache.disk == cache.view == Recovered(layout, old(cache.disk))
      ensures Extends(old(cache.history), cache.history)
      ensures forall i :: |old(cache.history)| <= i < |cache.history| ==>
        DuringRecovery(layout, old(cache.disk), cache.history[i])
    {
      hide Bcache.Valid, Bcache.Sharing;
      hide Install, HeaderBlocks;
      assert cache.pinned == {} && cache.dirty == {};
      cache.IdleView();
      ghost var d := cache.disk;
      blocks := ReadHead(me);
      var ok := InstallTrans(me, blocks, true);
      ghost var bs := blocks;
      blocks := [];
      ok := WriteHead(me, true, blocks, bs);
      assert layout.InLog(layout.start);
    }

    /** initlog, on an idle cache: the disk ends recovered, and every disk on the way is one that a
        further recovery takes to the same home blocks. */
    constructor (c: Bcache, l: Layout, me: nat)
      requires c.Valid() && c.Sharing(me, true, map[]) && c.pinned == {} && c.dirty == {} && Readable(l, c.disk)
      modifies c
      ensures cache == c && layout == l && Valid() && Quiet(me)
      ensures blocks == [] && outstanding == 0 && !committing
      ensures c.disk == c.view == Recovered(l, old(c.disk))
      ensures Extends(old(c.history), c.history)
      ensures forall i :: |old(c.history)| <= i < |c.history| ==> DuringRecovery(l, old(c.disk), c.history[i])
    {
      cache, layout, blocks, outstanding, committing := c, l, [], 0, false;
      new;
      c.IdleView();
      hide Bcache.Valid, Held;
      Recover(me);
    }

    /** One look of begin_op at the log, under its lock: true when the operation may go on, false when it has to
        sleep. */
    method BeginOp() returns (admitted: bool)
      modifies this`outstanding
      ensures admitted == (!committing && |blocks| + (old(outstanding) + 1) * MAXOPBLOCKS <= LOGSIZE)
      ensures outstanding == old(outstanding) + (if admitted then 1 else 0) && (old(Valid()) ==> Valid())
    {
      if committing {
        return false;
      } else if |blocks| + (outstanding + 1) * MAXOPBLOCKS > LOGSIZE {
        return false;
      } else {
        outstanding := outstanding + 1;
        return true;
      }
    }

    /** A store into a buffer with a home block, by the holder of its lock. */
    method Store(me: nat, i: nat, data: Block)
      requires Valid() && i < NBUF && me != 0 && cache.buf[i].pid == me && cache.buf[i].valid
      requires !layout.InLog(cache.buf[i].blockno)
      modifies cache`buf, cache`view, cache`dirty
      ensures Valid() && |old(cache.buf)| == NBUF && old(cache.buf[i]).blockno < |old(cache.view)|
      ensures cache.buf == old(cache.buf)[i := old(cache.buf[i]).(data := data)]
      ensures cache.view == old(cache.view)[old(cache.buf[i]).blockno := data]
      ensures cache.dirty == old(cache.dirty) + {old(cache.buf[i]).blockno}
    {
      cache.OnDisk(i);
      hide Bcache.Valid;
      cache.Store(me, i, data);
    }

    /** log_write, of a buffer with a home block. */
    method Record(i: nat) returns (r: Outcome)
      requires Valid() && i < NBUF && cache.buf[i].dev == ROOTDEV && cache.buf[i].valid
      requires !layout.InLog(cache.buf[i].blockno)
      modifies this`blocks, cache`buf, cache`pinned
      ensures Valid()
      ensures r.Ok? <==> |old(blocks)| < LOGSIZE && |old(blocks)| < layout.size - 1 && outstanding >= 1
      ensures !r.Ok? ==> blocks == old(blocks) && cache.buf == old(cache.buf) && cache.pinned == old(cache.pinned)
      ensures r.Ok? ==>
        var b := old(cache.buf[i]).blockno;
        && blocks == (if b in old(blocks) then old(blocks) else old(blocks) + [b])
        && cache.pinned == old(cache.pinned) + {b}
        && |cache.buf| == NBUF && cache.buf == old(cache.buf)[i := old(cache.buf[i]).(refcnt := cache.buf[i].refcnt)]
    {
      cache.OnDisk(i);
      hide Bcache.Valid;
      if |blocks| >= LOGSIZE || |blocks| >= layout.size - 1 {
        return Panic("too big a transaction");
      }
      if outstanding < 1 {
        return Panic("log_write outside of trans");
      }
      var b := cache.buf[i].blockno;
      var k := 0;
      while k < |blocks| && blocks[k] != b
        invariant 0 <= k <= |blocks| && b !in blocks[..k]
      {
        k := k + 1;
      }
      if k == |blocks| {
        assert blocks[..k] == blocks && SetOf(blocks + [b]) == SetOf(blocks) + {b};
        assert NoDup(blocks + [b]) && Loggable(layout, cache.disk, blocks + [b]);
        cache.BPin(i);
        blocks := blocks + [b];
      } else {
        assert blocks[k := b] == blocks;
        blocks := blocks[k := b];
      }
      return Ok;
    }

    /** log_write, by the holder of the buffer. */
    method LogWrite(me: nat, i: nat, ghost h: map<nat, nat>) returns (r: Outcome)
      requires Valid() && cache.Sharing(me, false, h) && i in h && !layout.InLog(h[i])
      modifies this`blocks, cache`buf, cache`pinned
      ensures Valid() && cache.Sharing(me, false, h)
      ensures r.Ok? <==> |old(blocks)| < LOGSIZE && |old(blocks)| < layout.size - 1 && outstanding >= 1
      ensures !r.Ok? ==> blocks == old(blocks)
      ensures r.Ok? ==>
        h[i] in cache.pinned && blocks == if h[i] in old(blocks) then old(blocks) else old(blocks) + [h[i]]
    {
      cache.HasLock(me, i, h);
      hide Bcache.Valid, Held;
      r := Record(i);
      if r.Ok? {
        assert cache.buf == old(cache.buf)[i := cache.buf[i]] && cache.refs == cache.refs[i := cache.refs[i]];
        HeldFrame(old(cache.buf), cache.refs, cache.view, me, h, h.Keys, i, cache.buf[i], cache.refs[i]);
      }
    }

    /** The typical use of log_write, while other processes read: bread, change the data, log_write, brelse. One block
        of the plain block map changes; the disk does not. It fails only when bget finds every buffer in use. */
    method Update(me: nat, b: nat, data: Block) returns (r: Outcome)
      requires Valid() && Quiet(me) && outstanding >= 1 && b < |cache.disk| && !layout.InLog(b)
      requires |blocks| < layout.size - 1
      modifies this`blocks, cache
      ensures Valid() && Quiet(me)
      ensures cache.disk == old(cache.disk) && cache.history == old(cache.history)
      ensures r.Ok? ==> cache.view == old(cache.view)[b := data]
      ensures r.Ok? ==> blocks == if b in old(blocks) then old(blocks) else old(blocks) + [b]
      ensures !r.Ok? ==> cache.view == old(cache.view) && blocks == old(blocks)
      ensures !r.Ok? ==> b !in blocks && cache.Crowded(me, |blocks|)
    {
      hide Bcache.Valid, Bcache.Sharing;
      var o := cache.Open(me, false, b, map[]);
      if o.None? {
        assert Ready(me, false, blocks);
        Stuck(me, false, blocks);
        return Panic("bget: no buffers");
      }
      var i := o.value;
      var h := map[][i := b];
      cache.Edit(me, false, i, data, h);
      r := LogWrite(me, i, h);
      cache.Close(me, false, i, h);
      assert h - {i} == map[];
    }

    /** end_op. While other operations are outstanding nothing is written; the last one commits them all. */
    method EndOp(me: nat) returns (r: Outcome)
      requires Valid() && outstanding >= 1 && (outstanding == 1 && !committing ==> Quiet(me))
      modifies this, cache
      ensures outstanding == old(outstanding) - 1 && Extends(old(cache.history), cache.history)
      ensures old(committing) ==> r == Panic("log.committing")
      ensures old(committing) || outstanding > 0 ==>
        Valid() && unchanged(cache) && blocks == old(blocks) && committing == old(committing)
      ensures !old(committing) && outstanding > 0 ==> r.Ok?
      ensures !old(committing) && outstanding == 0 ==>
        exists m :: CommitPoint(layout, cache.history, |old(cache.history)|, m, old(cache.disk), old(cache.view))
      ensures !old(committing) && outstanding == 0 && r.Ok? ==>
        && Valid() && Quiet(me) && !committing && blocks == []
        && SameHomes(layout, cache.view, old(cache.view)) && SameHomes(layout, cache.disk, old(cache.view))
      ensures !old(committing) && !r.Ok? ==> cache.Crowded(me, |old(blocks)|)
    {
      hide Bcache.Valid, Bcache.Sharing, Bcache.Crowded;
      outstanding := outstanding - 1;
      if committing {
        return Panic("log.committing");
      }
      if outstanding == 0 {
        committing := true;
        var ok := Commit(me);
        if !ok {
          return Panic("bget: no buffers");
        }
        committing := false;
      }
      return Ok;
    }
  }

  /** The log's variables are those of the space reservation, which also knows the operations apart. */
  ghost predicate Matches(log: Log, s: Space)
    reads log
  {
    log.blocks == s.blocks && log.outstanding == |s.ops| && log.committing == s.committing
  }

  /** begin_op is a step of the reservation, and keeps its invariant. */
  method ReservedBegin(log: Log, ghost p: nat, ghost limit: nat, ghost s: Space)
    returns (admitted: bool, ghost s': Space)
    requires Matches(log, s) && p !in s.ops && LogSpace.Inv(s, limit) && limit <= MAXOPBLOCKS
    modifies log`outstanding
    ensures admitted <==> Enabled(s, LogSpace.BeginOp(p), limit)
    ensures s' == if admitted then Next(s, LogSpace.BeginOp(p)) else s
    ensures Matches(log, s') && LogSpace.Inv(s', limit)
  {
    hide LogSpace.Inv;
    admitted := log.BeginOp();
    s' := s;
    if admitted {
      InvStep(s, LogSpace.BeginOp(p), limit);
      s' := Next(s, LogSpace.BeginOp(p));
      assert |s.ops[p := {}]| == |s.ops| + 1;
    }
  }

  /** So is log_write, by an operation that stays below MAXOPBLOCKS blocks; on a log of mkfs's size it never panics. */
  method ReservedWrite(log: Log, me: nat, i: nat, ghost h: map<nat, nat>, ghost p: nat, ghost limit: nat,
                       ghost s: Space)
    returns (r: Outcome, ghost s': Space)
    requires log.Valid() && log.cache.Sharing(me, false, h) && i in h && !log.layout.InLog(h[i])
      && log.layout.size == LOGSIZE
    requires Matches(log, s) && LogSpace.Inv(s, limit) && limit < MAXOPBLOCKS
      && Enabled(s, LogSpace.LogWrite(p, h[i]), limit)
    modifies log`blocks, log.cache`buf, log.cache`pinned
    ensures r.Ok? && s' == Next(s, LogSpace.LogWrite(p, h[i]))
    ensures Matches(log, s') && LogSpace.Inv(s', limit) && log.Valid() && log.cache.Sharing(me, false, h)
  {
    hide LogSpace.Inv, Log.Valid, Bcache.Sharing;
    InvRoom(s, p, h[i], limit);
    assert |s.ops| >= 1 by { assert p in s.ops; }
    r := log.LogWrite(me, i, h);
    InvStep(s, LogSpace.LogWrite(p, h[i]), limit);
    s' := Next(s, LogSpace.LogWrite(p, h[i]));
    assert s'.ops.Keys == s.ops.Keys;
  }

  /** end_op is one step, or two with the commit, of the last operation; its "log.committing" panic does not occur. */
  method ReservedEnd(log: Log, me: nat, ghost p: nat, ghost limit: nat, ghost s: Space)
    returns (r: Outcome, ghost s': Space)
    requires log.Valid() && log.Quiet(me) && Matches(log, s) && p in s.ops && LogSpace.Inv(s, limit)
      && limit <= MAXOPBLOCKS
    modifies log, log.cache
    ensures r.Ok? || log.cache.Crowded(me, |s.blocks|)
    ensures s' == (var e := Next(s, LogSpace.EndOp(p)); if e.committing then Next(e, Committed) else e)
    ensures r.Ok? ==> Matches(log, s') && LogSpace.Inv(s', limit) && log.Valid()
  {
    hide Log.Valid, Log.Quiet, Bcache.Crowded;
    assert |s.ops| >= 1 && !s.committing by { assert p in s.ops; }
    assert (s.ops - {p}).Keys == s.ops.Keys - {p} && |s.ops - {p}| == |s.ops| - 1;
    hide LogSpace.Inv;
    r := log.EndOp(me);
    InvStep(s, LogSpace.EndOp(p), limit);
    s' := Next(s, LogSpace.EndOp(p));
    if s'.committing {
      InvStep(s', Committed, limit);
      s' := Next(s', Committed);
    }
  }
}
