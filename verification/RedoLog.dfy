/** The on-disk redo log as a function of the disk: a header block that lists home
    block numbers, followed by the logged copies, and what recovery makes of it. */
module RedoLog {
  import opened Blocks
  import opened LogSpace

  type Disk = seq<Block>

  /** Where the log lies: `start` is the header block, size - 1 data blocks follow. */
  datatype Layout = Layout(start: nat, size: nat) {
    predicate InLog(b: int) {
      start <= b < start + size
    }

    predicate Fits(d: Disk) {
      0 < size <= LOGSIZE && start + size <= |d| <= UINT
    }
  }

  function HeaderCount(h: Block): nat {
    Word(h, 0)
  }

  function HeaderBlocks(h: Block): (r: seq<nat>)
    requires HeaderCount(h) <= LOGSIZE
  {
    seq(HeaderCount(h), i requires 0 <= i < HeaderCount(h) => Word(h, 1 + i))
  }

  /** Block numbers that the log may hold: home blocks on the disk, no more than it has room for. */
  ghost predicate Loggable(l: Layout, d: Disk, bs: seq<nat>) {
    |bs| <= l.size - 1 && forall k :: 0 <= k < |bs| ==> bs[k] < |d| && !l.InLog(bs[k])
  }

  /** The disk carries a log that recovery can read. */
  ghost predicate Readable(l: Layout, d: Disk) {
    && l.Fits(d) && HeaderCount(d[l.start]) <= LOGSIZE
    && Loggable(l, d, HeaderBlocks(d[l.start]))
  }

  ghost predicate SameHomes(l: Layout, d: Disk, e: Disk) {
    |d| == |e| && forall b :: 0 <= b < |d| && !l.InLog(b) ==> d[b] == e[b]
  }

  /** The disk after the first k block copies of install_trans. */
  function Install(l: Layout, d: Disk, bs: seq<nat>, k: nat): (r: Disk)
    requires l.Fits(d) && Loggable(l, d, bs) && k <= |bs|
    ensures |r| == |d| && forall b :: 0 <= b < |d| && b !in bs[..k] ==> r[b] == d[b]
  {
    if k == 0 then d
    else
      assert bs[..k] == bs[..k - 1] + [bs[k - 1]];
      Install(l, d, bs, k - 1)[bs[k - 1] := d[l.start + k]]
  }

  lemma InstallStep(l: Layout, d: Disk, bs: seq<nat>, k: nat)
    requires l.Fits(d) && Loggable(l, d, bs) && k < |bs|
    ensures var e := Install(l, d, bs, k);
      e[l.start + k + 1] == d[l.start + k + 1] && e[bs[k] := e[l.start + k + 1]] == Install(l, d, bs, k + 1)
  {
    assert l.InLog(l.start + k + 1);
  }

  /** What recover_from_log leaves on the disk. */
  ghost function Recovered(l: Layout, d: Disk): (r: Disk)
    requires Readable(l, d)
    ensures |r| == |d|
  {
    var bs := HeaderBlocks(d[l.start]);
    Install(l, d, bs, |bs|)[l.start := SetWord(d[l.start], 0, 0)]
  }

  /** The disks between the block writes of recover_from_log, the first and the last included. */
  ghost predicate DuringRecovery(l: Layout, d: Disk, e: Disk) {
    && Readable(l, d)
    && var bs := HeaderBlocks(d[l.start]);
       e == Recovered(l, d) || exists k :: 0 <= k <= |bs| && e == Install(l, d, bs, k)
  }

  /** ds[0] is recovered, crashes at ds[1], is recovered from there, crashes at ds[2], and so on. */
  ghost predicate CrashChain(l: Layout, ds: seq<Disk>) {
    && ds != [] && Readable(l, ds[0])
    && (|ds| > 1 ==> CrashChain(l, ds[..|ds| - 1]) && DuringRecovery(l, ds[|ds| - 2], ds[|ds| - 1]))
  }

  /** Installing again from the middle of an installation gives the same home blocks. */
  lemma {:induction false} InstallAgain(l: Layout, d: Disk, bs: seq<nat>, j: nat, k: nat, b: nat)
    requires l.Fits(d) && Loggable(l, d, bs) && j <= |bs| && k <= |bs| && b < |d|
    ensures Install(l, Install(l, d, bs, j), bs, k)[b] ==
      (if b in bs[..k] then Install(l, d, bs, k) else Install(l, d, bs, j))[b]
  {
    if k > 0 {
      InstallAgain(l, d, bs, j, k - 1, b);
      assert bs[..k] == bs[..k - 1] + [bs[k - 1]];
      var m := Install(l, d, bs, j);
      assert l.InLog(l.start + k) && m[l.start + k] == d[l.start + k];
    }
  }

  lemma InstallInstall(l: Layout, d: Disk, bs: seq<nat>, j: nat)
    requires l.Fits(d) && Loggable(l, d, bs) && j <= |bs|
    ensures Loggable(l, Install(l, d, bs, j), bs)
    ensures Install(l, Install(l, d, bs, j), bs, |bs|) == Install(l, d, bs, |bs|)
  {
    hide Install;
    forall b: nat | b < |d|
      ensures Install(l, Install(l, d, bs, j), bs, |bs|)[b] == Install(l, d, bs, |bs|)[b]
    {
      InstallAgain(l, d, bs, j, |bs|, b);
      assert bs[..|bs|] == bs && (b in bs[..j] ==> b in bs);
    }
  }

  /** A header whose count is zero lists nothing, so recovery leaves every home block alone. */
  lemma RecoverEmpty(l: Layout, d: Disk)
    requires l.Fits(d) && HeaderCount(d[l.start]) == 0
    ensures Readable(l, d) && SameHomes(l, Recovered(l, d), d)
  {
    assert HeaderBlocks(d[l.start]) == [];
  }

  /** A crash during recovery changes nothing about what the next recovery ends with. */
  lemma RecoverCrash(l: Layout, d: Disk, e: Disk)
    requires DuringRecovery(l, d, e)
    ensures Readable(l, e) && SameHomes(l, Recovered(l, e), Recovered(l, d))
  {
    var bs := HeaderBlocks(d[l.start]);
    if k :| 0 <= k <= |bs| && e == Install(l, d, bs, k) {
      InstallInstall(l, d, bs, k);
      assert e[l.start] == d[l.start];
    } else {
      RecoverEmpty(l, e);
    }
  }

  /** However many crashes interrupt recovery, the recovery that completes ends with the same home blocks. */
  lemma {:induction false} RepeatedCrashes(l: Layout, ds: seq<Disk>)
    requires CrashChain(l, ds)
    ensures Readable(l, ds[|ds| - 1])
    ensures SameHomes(l, Recovered(l, ds[|ds| - 1]), Recovered(l, ds[0]))
    decreases |ds|
  {
    if |ds| > 1 {
      RepeatedCrashes(l, ds[..|ds| - 1]);
      RecoverCrash(l, ds[|ds| - 2], ds[|ds| - 1]);
    }
  }

  /** A crash that leaves disk `crash` is recovered to the home blocks of d. */
  ghost predicate RecoversTo(l: Layout, crash: Disk, d: Disk) {
    Readable(l, crash) && SameHomes(l, Recovered(l, crash), d)
  }

  /** ... and still is after any number of crashes during the recoveries that follow. */
  lemma RecoversToRepeated(l: Layout, ds: seq<Disk>, d: Disk)
    requires CrashChain(l, ds) && RecoversTo(l, ds[0], d)
    ensures RecoversTo(l, ds[|ds| - 1], d)
  {
    RepeatedCrashes(l, ds);
  }

  /** The log slots hold v's contents of the blocks bs, and v agrees with c on the other home blocks. */
  ghost predicate LogHolds(l: Layout, c: Disk, bs: seq<nat>, v: Disk) {
    && l.Fits(c) && |v| == |c| && Loggable(l, c, bs)
    && (forall j :: 0 <= j < |bs| ==> c[l.start + j + 1] == v[bs[j]])
    && (forall b :: 0 <= b < |c| && !l.InLog(b) && b !in bs ==> c[b] == v[b])
  }

  lemma HomesInstalled(l: Layout, c: Disk, bs: seq<nat>, v: Disk)
    requires LogHolds(l, c, bs, v)
    ensures SameHomes(l, Install(l, c, bs, |bs|), v)
  {
    InstalledAre(l, c, bs, v, |bs|);
    assert bs[..|bs|] == bs;
  }

  /** With the header written, every point of the installation recovers to v. */
  lemma CommittedRecovers(l: Layout, c: Disk, bs: seq<nat>, v: Disk, k: nat)
    requires LogHolds(l, c, bs, v) && HeaderCount(c[l.start]) == |bs| <= LOGSIZE && HeaderBlocks(c[l.start]) == bs
    requires k <= |bs|
    ensures RecoversTo(l, Install(l, c, bs, k), v)
  {
    var e := Install(l, c, bs, k);
    InstallInstall(l, c, bs, k);
    assert l.InLog(l.start) && e[l.start] == c[l.start];
    HomesInstalled(l, c, bs, v);
  }

  lemma {:induction false} InstalledAre(l: Layout, c: Disk, bs: seq<nat>, v: Disk, k: nat)
    requires l.Fits(c) && |v| == |c| && Loggable(l, c, bs) && k <= |bs|
    requires forall j :: 0 <= j < |bs| ==> c[l.start + j + 1] == v[bs[j]]
    ensures forall b :: b in bs[..k] ==> Install(l, c, bs, k)[b] == v[b]
  {
    if k > 0 {
      InstalledAre(l, c, bs, v, k - 1);
      assert bs[..k] == bs[..k - 1] + [bs[k - 1]];
      assert c[l.start + (k - 1) + 1] == v[bs[k - 1]];
    }
  }

  /** write_head's edit of the header block: the count, and as many block numbers. */
  method EditHeader(h: Block, bs: seq<nat>) returns (r: Block)
    requires |bs| <= LOGSIZE && forall k :: 0 <= k < |bs| ==> bs[k] < UINT
    ensures HeaderCount(r) == |bs| && HeaderBlocks(r) == bs
    ensures bs == [] ==> r == SetWord(h, 0, 0)
  {
    hide SetWord, Word;
    r := SetWord(h, 0, |bs|);
    var i := 0;
    while i < |bs|
      invariant 0 <= i <= |bs| && HeaderCount(r) == |bs|
      invariant forall k :: 0 <= k < i ==> Word(r, 1 + k) == bs[k]
      invariant i == 0 ==> r == SetWord(h, 0, |bs|)
    {
      SetWordFrame(r, 1 + i, bs[i], 0);
      forall k | 0 <= k < i
        ensures Word(SetWord(r, 1 + i, bs[i]), 1 + k) == bs[k]
      {
        SetWordFrame(r, 1 + i, bs[i], 1 + k);
      }
      r := SetWord(r, 1 + i, bs[i]);
      i := i + 1;
    }
  }
}
