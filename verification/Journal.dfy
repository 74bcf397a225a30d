/** File writes on top of the log: inodes in their blocks, a transaction's blocks through the log, and what a crash
    leaves of the files. */
module Journal {
  import opened Blocks
  import opened Collections
  import opened Bitmap
  import opened Files
  import opened RedoLog
  import F = Fs
  import B = Bio
  import L = Log
  import LogSpace

  /** A dinode is 16 words: the size is word 2, the addresses follow. */
  const DINODE := 16

  function InodeAt(b: Block, k: nat): (ino: Inode)
    requires k < IPB
    ensures |ino.addrs| == NDIRECT + 1
  {
    Inode(Word(b, DINODE * k + 2), AddrsAt(b, k))
  }

  function AddrsAt(b: Block, k: nat): (addrs: seq<nat>)
    requires k < IPB
    ensures |addrs| == NDIRECT + 1
  {
    seq(NDIRECT + 1, j requires 0 <= j < NDIRECT + 1 => AddrAt(b, k, j))
  }

  function AddrAt(b: Block, k: nat, j: nat): nat
    requires k < IPB && j <= NDIRECT
  {
    Word(b, DINODE * k + 3 + j)
  }

  predicate Storable(ino: Inode) {
    |ino.addrs| == NDIRECT + 1 && ino.size < UINT && forall j :: 0 <= j <= NDIRECT ==> ino.addrs[j] < UINT
  }

  /** iupdate's changes to the inode's block. */
  function PutAddrs(b: Block, k: nat, ino: Inode, n: nat): Block
    requires k < IPB && Storable(ino) && n <= NDIRECT + 1
  {
    if n == 0 then SetWord(b, DINODE * k + 2, ino.size)
    else SetWord(PutAddrs(b, k, ino, n - 1), DINODE * k + 3 + (n - 1), ino.addrs[n - 1])
  }

  function PutInode(b: Block, k: nat, ino: Inode): Block
    requires k < IPB && Storable(ino)
  {
    PutAddrs(b, k, ino, NDIRECT + 1)
  }

  lemma {:induction false} PutWords(b: Block, k: nat, ino: Inode, n: nat, w: nat)
    requires k < IPB && Storable(ino) && n <= NDIRECT + 1 && w < WORDS
    ensures Word(PutAddrs(b, k, ino, n), w) ==
      if w == DINODE * k + 2 then ino.size
      else if DINODE * k + 3 <= w < DINODE * k + 3 + n then ino.addrs[w - DINODE * k - 3]
      else Word(b, w)
  {
    hide SetWord, Word;
    if n == 0 {
      if w != DINODE * k + 2 {
        SetWordFrame(b, DINODE * k + 2, ino.size, w);
      }
    } else {
      PutWords(b, k, ino, n - 1, w);
      if w != DINODE * k + 3 + (n - 1) {
        SetWordFrame(PutAddrs(b, k, ino, n - 1), DINODE * k + 3 + (n - 1), ino.addrs[n - 1], w);
      }
    }
  }

  lemma PutWord(b: Block, k: nat, ino: Inode, j: nat, i: nat)
    requires k < IPB && Storable(ino) && j < IPB && 2 <= i < DINODE
    ensures Word(PutInode(b, k, ino), DINODE * j + i) ==
      if j != k then Word(b, DINODE * j + i) else if i == 2 then ino.size else ino.addrs[i - 3]
  {
    hide PutAddrs, Word;
    PutWords(b, k, ino, NDIRECT + 1, DINODE * j + i);
    assert j != k ==> DINODE * j + i < DINODE * k || DINODE * j + i >= DINODE * k + DINODE;
  }

  /** What iupdate writes is what ilock reads back, and the other inodes of the block stay. */
  lemma PutGet(b: Block, k: nat, ino: Inode, j: nat)
    requires k < IPB && Storable(ino) && j < IPB
    ensures InodeAt(PutInode(b, k, ino), j) == if j == k then ino else InodeAt(b, j)
  {
    hide PutInode, Word;
    var x, want := PutInode(b, k, ino), if j == k then ino else InodeAt(b, j);
    PutWord(b, k, ino, j, 2);
    forall i | 0 <= i <= NDIRECT
      ensures InodeAt(x, j).addrs[i] == want.addrs[i]
    {
      PutWord(b, k, ino, j, 3 + i);
    }
  }

  /** The disk v carries a file system's blocks, from the bitmap on, and its inodes in their blocks. */
  ghost predicate Carries(sb: Super, v: Disk, blocks: seq<Block>, inodes: seq<Inode>) {
    && sb.Good() && |v| == |blocks| == sb.size && |inodes| == sb.ninodes
    && (forall b :: sb.bmapstart <= b < sb.size ==> v[b] == blocks[b])
    && (forall i: nat :: i < sb.ninodes ==> InodeOn(sb, v, i) == inodes[i])
  }

  function InodeOn(sb: Super, v: Disk, i: nat): Inode
    requires sb.Good() && |v| == sb.size && i < sb.ninodes
  {
    InodeAt(v[sb.Iblock(i)], i % IPB)
  }

  /** The files of a disk, read through its inodes. */
  function FileOn(sb: Super, v: Disk, i: nat): seq<Byte>
    requires sb.Good() && |v| == sb.size && i < sb.ninodes
  {
    var ino := InodeOn(sb, v, i);
    if ino.size <= MAXBYTES then Contents(v, ino) else []
  }

  /** A file system's files are those of a disk that carries it. */
  lemma CarriedFile(sb: Super, v: Disk, blocks: seq<Block>, inodes: seq<Inode>, owner: Owner, i: nat)
    requires Carries(sb, v, blocks, inodes) && Inv(sb, blocks, inodes, owner) && i < sb.ninodes
      && inodes[i].size <= MAXBYTES
    ensures FileOn(sb, v, i) == Contents(blocks, inodes[i])
  {
    hide Super.Bblock, Used, BitsOk, SlotsOwned, OwnersHold, Word, InodeAt;
    var ino := inodes[i];
    assert InodeOn(sb, v, i) == ino;
    IndirectOwned(sb, blocks, inodes, owner, i);
    forall k: nat | k < ino.size
      ensures FileByte(v, ino, k) == FileByte(blocks, ino, k)
    {
      assert SlotAddr(v, ino, DataSlot(k / BSIZE)) == SlotAddr(blocks, ino, DataSlot(k / BSIZE));
      if DataAddr(blocks, ino, k / BSIZE) != 0 {
        DataBlock(sb, blocks, inodes, owner, i, k / BSIZE);
      }
    }
  }

  /** A disk on which a file system stores these files. */
  ghost predicate Stores(sb: Super, v: Disk, files: seq<seq<Byte>>) {
    |files| == sb.ninodes && exists blocks, inodes, owner :: StoresAs(sb, v, files, blocks, inodes, owner)
  }

  ghost predicate StoresAs(sb: Super, v: Disk, files: seq<seq<Byte>>, blocks: seq<Block>, inodes: seq<Inode>,
                           owner: Owner) {
    && Carries(sb, v, blocks, inodes) && Inv(sb, blocks, inodes, owner) && |files| == sb.ninodes
    && forall i: nat :: i < sb.ninodes ==>
       Covered(blocks, inodes[i], inodes[i].size) && Contents(blocks, inodes[i]) == files[i]
  }

  /** A disk whose bytes, read through its inodes, are these files. */
  ghost predicate Reads(sb: Super, v: Disk, files: seq<seq<Byte>>) {
    && sb.Good() && |v| == sb.size && |files| == sb.ninodes
    && forall i: nat :: i < sb.ninodes ==> FileOn(sb, v, i) == files[i]
  }

  /** The files stored are the files read. */
  lemma StoredFiles(sb: Super, v: Disk, files: seq<seq<Byte>>)
    requires Stores(sb, v, files)
    ensures Reads(sb, v, files)
  {
    hide Carries, Inv, Contents, FileOn;
    var blocks, inodes, owner :| StoresAs(sb, v, files, blocks, inodes, owner);
    CarriedShape(sb, v, blocks, inodes);
    forall i: nat | i < sb.ninodes
      ensures FileOn(sb, v, i) == files[i]
    {
      CarriedFile(sb, v, blocks, inodes, owner, i);
    }
  }

  lemma CarriedShape(sb: Super, v: Disk, blocks: seq<Block>, inodes: seq<Inode>)
    requires Carries(sb, v, blocks, inodes)
    ensures sb.Good() && |v| == |blocks| == sb.size && |inodes| == sb.ninodes
  {
  }

  /** The log lies before the inodes. */
  predicate LogBefore(l: Layout, sb: Super) {
    l.start + l.size <= sb.inodestart
  }

  /** Home blocks are all that a file system needs. */
  lemma HomesCarry(l: Layout, sb: Super, v: Disk, w: Disk, blocks: seq<Block>, inodes: seq<Inode>)
    requires Carries(sb, v, blocks, inodes) && SameHomes(l, w, v) && LogBefore(l, sb)
    ensures Carries(sb, w, blocks, inodes)
  {
    hide InodeAt;
  }

  lemma HomesStore(l: Layout, sb: Super, v: Disk, w: Disk, files: seq<seq<Byte>>)
    requires Stores(sb, v, files) && SameHomes(l, w, v) && LogBefore(l, sb)
    ensures Stores(sb, w, files)
  {
    hide Carries, Inv, Contents, SameHomes;
    var blocks, inodes, owner :| StoresAs(sb, v, files, blocks, inodes, owner);
    HomesCarry(l, sb, v, w, blocks, inodes);
    assert StoresAs(sb, w, files, blocks, inodes, owner);
  }

  /** Recovery of a crashed disk leaves these files: they can be read, and a file system can go on with them. */
  ghost predicate RecoversFiles(l: Layout, sb: Super, crash: Disk, files: seq<seq<Byte>>) {
    Readable(l, crash) && var v := Recovered(l, crash); Stores(sb, v, files) && Reads(sb, v, files)
  }

  lemma RecoversStored(l: Layout, sb: Super, crash: Disk, v: Disk, files: seq<seq<Byte>>)
    requires RecoversTo(l, crash, v) && Stores(sb, v, files) && LogBefore(l, sb)
    ensures RecoversFiles(l, sb, crash, files)
  {
    hide Stores, Reads, Recovered;
    HomesStore(l, sb, v, Recovered(l, crash), files);
    StoredFiles(sb, Recovered(l, crash), files);
  }

  /** ... also when the recovery itself is interrupted any number of times. */
  lemma RecoversAgain(l: Layout, sb: Super, ds: seq<Disk>, files: seq<seq<Byte>>)
    requires CrashChain(l, ds) && RecoversFiles(l, sb, ds[0], files) && LogBefore(l, sb)
    ensures RecoversFiles(l, sb, ds[|ds| - 1], files)
  {
    hide Stores, Reads, Recovered;
    RepeatedCrashes(l, ds);
    HomesStore(l, sb, Recovered(l, ds[0]), Recovered(l, ds[|ds| - 1]), files);
    StoredFiles(sb, Recovered(l, ds[|ds| - 1]), files);
  }

  /** A file system on its log, between operations: everything committed, and the cache carries the blocks
      and inodes. */
  ghost predicate Mounted(log: L.Log, fs: F.Fs, me: nat)
    reads log, log.cache, fs
  {
    && log.Valid() && log.Quiet(me) && log.blocks == [] && log.outstanding == 0 && !log.committing
    && log.layout.size == LogSpace.LOGSIZE && LogBefore(log.layout, fs.sb) && fs.sb.size < BPB
    && SameHomes(log.layout, log.cache.disk, log.cache.view)
    && fs.Valid() && Carries(fs.sb, log.cache.view, fs.blocks, fs.dinodes)
  }

  /** iupdate: read the inode's block, change the inode, log_write. It fails only when bget finds every buffer in use.
      */
  method Iupdate(log: L.Log, me: nat, b: nat, k: nat, ino: Inode) returns (r: L.Outcome)
    requires log.Valid() && log.Quiet(me) && log.outstanding >= 1 && b < |log.cache.disk| && !log.layout.InLog(b)
    requires |log.blocks| < log.layout.size - 1 && k < IPB && Storable(ino)
    modifies log`blocks, log.cache
    ensures log.Valid() && log.Quiet(me)
    ensures log.cache.disk == old(log.cache.disk) && log.cache.history == old(log.cache.history)
    ensures r.Ok? ==> log.cache.view == old(log.cache.view)[b := PutInode(old(log.cache.view)[b], k, ino)]
    ensures r.Ok? ==> |log.blocks| <= |old(log.blocks)| + 1
    ensures !r.Ok? ==> log.blocks == old(log.blocks) && log.cache.Crowded(me, |log.blocks|)
  {
    hide B.Bcache.Valid, B.Bcache.Sharing;
    hide PutInode;
    var o := log.cache.Open(me, false, b, map[]);
    if o.None? {
      assert log.Ready(me, false, log.blocks);
      log.Stuck(me, false, log.blocks);
      return L.Panic("bget: no buffers");
    }
    var i := o.value;
    var h := map[][i := b];
    var data := log.cache.Look(me, false, i, h);
    log.cache.Edit(me, false, i, PutInode(data, k, ino), h);
    r := log.LogWrite(me, i, h);
    log.cache.Close(me, false, i, h);
    assert h - {i} == map[];
  }

  /** What a transaction that has changed inode inum writes to block b. */
  function Image(sb: Super, v: Disk, blocks: seq<Block>, inum: nat, ino: Inode, b: nat): Block
    requires |v| == |blocks| == sb.size && b < sb.size && Storable(ino)
  {
    if b == sb.Iblock(inum) then PutInode(v[b], inum % IPB, ino) else blocks[b]
  }

  /** v is v0 with the blocks of `done` written. */
  ghost predicate Written(sb: Super, v0: Disk, v: Disk, blocks: seq<Block>, inum: nat, ino: Inode, done: set<nat>)
    requires |v0| == |blocks| == sb.size && Storable(ino)
  {
    |v| == sb.size && forall b: nat :: b < sb.size ==>
      v[b] == if b in done then Image(sb, v0, blocks, inum, ino, b) else v0[b]
  }

  lemma InodeBlocks(sb: Super, i: nat)
    requires sb.Good() && i < sb.ninodes
    ensures sb.inodestart <= sb.Iblock(i) < sb.bmapstart < sb.size
  {
  }

  lemma SameInode(sb: Super, i: nat, j: nat)
    requires sb.Iblock(i) == sb.Iblock(j) && i % IPB == j % IPB
    ensures i == j
  {
  }

  /** With all logged blocks written, the disk carries the new blocks and inodes. */
  lemma AllWritten(sb: Super, v0: Disk, v: Disk, blocks0: seq<Block>, blocks: seq<Block>, inodes: seq<Inode>,
                   inum: nat, ino: Inode, logged: set<nat>)
    requires Carries(sb, v0, blocks0, inodes) && F.ChangesLogged(blocks0, blocks, logged) && inum < sb.ninodes
      && Storable(ino)
    requires sb.Iblock(inum) in logged && Written(sb, v0, v, blocks, inum, ino, logged)
    requires forall b :: b in logged ==> b == sb.Iblock(inum) || sb.bmapstart <= b < sb.size
    ensures Carries(sb, v, blocks, inodes[inum := ino])
  {
    hide InodeAt, PutInode, Super.Datastart;
    InodeBlocks(sb, inum);
    forall i: nat | i < sb.ninodes
      ensures InodeOn(sb, v, i) == inodes[inum := ino][i]
    {
      InodeBlocks(sb, i);
      assert InodeOn(sb, v0, i) == inodes[i];
      if sb.Iblock(i) == sb.Iblock(inum) {
        PutGet(v0[sb.Iblock(i)], inum % IPB, ino, i % IPB);
        if i != inum && i % IPB == inum % IPB {
          SameInode(sb, i, inum);
        }
      }
    }
  }

  /** One of a transaction's log_writes. */
  method PushOne(log: L.Log, fs: F.Fs, me: nat, inum: nat, b: nat, ghost v0: Disk, ghost done: set<nat>)
    returns (ok: bool)
    requires log.Valid() && log.Quiet(me) && log.outstanding >= 1 && |log.blocks| < log.layout.size - 1
    requires b < fs.sb.size && !log.layout.InLog(b) && |v0| == |fs.blocks| == fs.sb.size && b !in done
    requires inum < |fs.inodes| && Storable(fs.inodes[inum])
    requires Written(fs.sb, v0, log.cache.view, fs.blocks, inum, fs.inodes[inum], done)
    modifies log`blocks, log.cache
    ensures log.Valid() && log.Quiet(me)
    ensures log.cache.disk == old(log.cache.disk) && log.cache.history == old(log.cache.history)
    ensures ok ==> |log.blocks| <= |old(log.blocks)| + 1
    ensures ok ==> Written(fs.sb, v0, log.cache.view, fs.blocks, inum, fs.inodes[inum], done + {b})
    ensures !ok ==> log.blocks == old(log.blocks) && log.cache.Crowded(me, |log.blocks|)
  {
    assert |log.cache.view| == |log.cache.disk|;
    hide PutInode, L.Log.Valid, L.Log.Quiet, B.Bcache.Crowded;
    var r;
    if b == fs.sb.Iblock(inum) {
      r := Iupdate(log, me, b, inum % IPB, fs.inodes[inum]);
    } else {
      r := log.Update(me, b, fs.blocks[b]);
    }
    ok := r.Ok?;
  }

  /** The log_writes of a transaction: each block that it changed. */
  method Push(log: L.Log, fs: F.Fs, me: nat, inum: nat, ghost blocks0: seq<Block>, ghost inodes0: seq<Inode>)
    returns (ok: bool)
    requires log.Valid() && log.Quiet(me) && log.outstanding >= 1 && log.blocks == []
    requires log.layout.size == LogSpace.LOGSIZE && LogBefore(log.layout, fs.sb)
    requires Carries(fs.sb, log.cache.view, blocks0, inodes0) && F.ChangesLogged(blocks0, fs.blocks, fs.logged)
    requires inum < fs.sb.ninodes && |fs.inodes| == fs.sb.ninodes && Storable(fs.inodes[inum])
    requires |fs.logged| <= 7 && fs.sb.Iblock(inum) in fs.logged
    requires forall b :: b in fs.logged ==> b == fs.sb.Iblock(inum) || fs.sb.bmapstart <= b < fs.sb.size
    modifies log`blocks, log.cache
    ensures log.Valid() && log.Quiet(me)
    ensures log.cache.disk == old(log.cache.disk) && log.cache.history == old(log.cache.history)
    ensures ok ==> Carries(fs.sb, log.cache.view, fs.blocks, inodes0[inum := fs.inodes[inum]]) && |log.blocks| <= 7
    ensures !ok ==> log.cache.Crowded(me, 7)
  {
    InodeBlocks(fs.sb, inum);
    CarriedShape(fs.sb, log.cache.view, blocks0, inodes0);
    ghost var v0 := log.cache.view;
    NoneWritten(fs.sb, v0, fs.blocks, inum, fs.inodes[inum]);
    assert forall b :: b in fs.logged ==> b < fs.sb.size && !log.layout.InLog(b);
    hide Carries, Written, L.Log.Valid, L.Log.Quiet, B.Bcache.Crowded;
    ok := PushAll(log, fs, me, inum, v0);
    if ok {
      AllWritten(fs.sb, v0, log.cache.view, blocks0, fs.blocks, inodes0, inum, fs.inodes[inum], fs.logged);
    }
  }

  lemma NoneWritten(sb: Super, v: Disk, blocks: seq<Block>, inum: nat, ino: Inode)
    requires |v| == |blocks| == sb.size && Storable(ino)
    ensures Written(sb, v, v, blocks, inum, ino, {})
  {
  }

  lemma MoreCrowded(cache: B.Bcache, me: nat, n: nat, m: nat)
    requires cache.Crowded(me, n) && n <= m
    ensures cache.Crowded(me, m)
  {
    hide B.Bcache.Sharing, B.AllInUse;
  }

  method PushAll(log: L.Log, fs: F.Fs, me: nat, inum: nat, ghost v0: Disk) returns (ok: bool)
    requires log.Valid() && log.Quiet(me) && log.outstanding >= 1 && log.blocks == []
    requires log.layout.size == LogSpace.LOGSIZE && |fs.logged| <= 7
    requires forall b :: b in fs.logged ==> b < fs.sb.size && !log.layout.InLog(b)
    requires inum < |fs.inodes| && Storable(fs.inodes[inum]) && |v0| == |fs.blocks| == fs.sb.size
    requires Written(fs.sb, v0, log.cache.view, fs.blocks, inum, fs.inodes[inum], {})
    modifies log`blocks, log.cache
    ensures log.Valid() && log.Quiet(me)
    ensures log.cache.disk == old(log.cache.disk) && log.cache.history == old(log.cache.history)
    ensures ok ==> Written(fs.sb, v0, log.cache.view, fs.blocks, inum, fs.inodes[inum], fs.logged) && |log.blocks| <= 7
    ensures !ok ==> log.cache.Crowded(me, 7)
  {
    hide Written, L.Log.Valid, L.Log.Quiet, B.Bcache.Crowded;
    var todo := fs.logged;
    ghost var done: set<nat> := {};
    while todo != {}
      invariant todo <= fs.logged && done == fs.logged - todo && |log.blocks| + |todo| <= 7
      invariant log.Valid() && log.Quiet(me)
      invariant log.cache.disk == old(log.cache.disk) && log.cache.history == old(log.cache.history)
      invariant Written(fs.sb, v0, log.cache.view, fs.blocks, inum, fs.inodes[inum], done)
      decreases todo
    {
      var b :| b in todo;
      ok := PushOne(log, fs, me, inum, b, v0, done);
      if !ok {
        MoreCrowded(log.cache, me, |log.blocks|, 7);
        return;
      }
      todo, done := todo - {b}, done + {b};
    }
    assert done == fs.logged;
    ok := true;
  }

  lemma StorableInode(sb: Super, blocks: seq<Block>, inodes: seq<Inode>, owner: Owner, i: nat)
    requires Inv(sb, blocks, inodes, owner) && i < |inodes| && inodes[i].size < UINT
    ensures Storable(inodes[i])
  {
    hide Super.Bblock, Used, BitsOk;
    forall s: nat | s <= NDIRECT
      ensures inodes[i].addrs[s] < UINT
    {
      assert OwnedBy(owner, SlotAddr(blocks, inodes[i], s), i, s);
    }
  }

  /** Of the disks from the n-th on, recovery makes these files of those before the m-th and those of the others. */
  ghost predicate FilesAt(l: Layout, sb: Super, h: seq<Disk>, n: nat, m: nat, before: seq<seq<Byte>>,
                          after: seq<seq<Byte>>) {
    && n <= m <= |h|
    && (forall i :: n <= i < m ==> RecoversFiles(l, sb, h[i], before))
    && (forall i :: m <= i < |h| ==> RecoversFiles(l, sb, h[i], after))
  }

  lemma CommitFiles(l: Layout, sb: Super, h: seq<Disk>, n: nat, m: nat, d: Disk, v: Disk, before: seq<seq<Byte>>,
                    after: seq<seq<Byte>>)
    requires L.CommitPoint(l, h, n, m, d, v) && Stores(sb, d, before) && Stores(sb, v, after) && LogBefore(l, sb)
    ensures FilesAt(l, sb, h, n, m, before, after)
  {
    hide RecoversTo, RecoversFiles, Stores;
    forall i | n <= i < |h|
      ensures RecoversFiles(l, sb, h[i], if i < m then before else after)
    {
      RecoversStored(l, sb, h[i], if i < m then d else v, if i < m then before else after);
    }
  }

  /** The files of a mounted file system. */
  ghost function AllFiles(fs: F.Fs): (all: seq<seq<Byte>>)
    reads fs
    requires fs.Valid()
    ensures |all| == |fs.inodes| == fs.sb.ninodes && forall i: nat :: i < |all| ==> all[i] == fs.File(i)
  {
    assert forall i: nat :: i < |fs.inodes| ==> Covered(fs.blocks, fs.inodes[i], fs.inodes[i].size);
    FilesOf(fs.blocks, fs.inodes)
  }

  lemma CarriedStores(sb: Super, v: Disk, fs: F.Fs)
    requires fs.Valid() && fs.sb == sb && Carries(sb, v, fs.blocks, fs.dinodes)
    ensures Stores(sb, v, AllFiles(fs))
  {
    hide Inv, Carries, Covered, Contents;
    assert StoresAs(sb, v, AllFiles(fs), fs.blocks, fs.inodes, fs.owner);
  }

  /** begin_op, and writei with its log_writes: the cache then carries the new files, the disk is as before. */
  method WriteLogged(log: L.Log, fs: F.Fs, me: nat, inum: nat, src: seq<Byte>, off: nat) returns (r: int, ok: bool)
    requires Mounted(log, fs, me) && inum < |fs.inodes| && off < UINT && |src| <= F.CHUNK
    modifies log`blocks, log`outstanding, log.cache, fs`blocks, fs`logged, fs`inodes, fs`dinodes, fs`owner
    ensures fs.Valid() && |fs.inodes| == |old(fs.inodes)|
    ensures r == -1 <==> off > old(fs.inodes)[inum].size || off + |src| > MAXBYTES
    ensures r == -1 ==> AllFiles(fs) == old(AllFiles(fs))
    ensures r != -1 ==> 0 <= r <= |src| && (r < |src| ==> fs.Full())
    ensures r != -1 ==> AllFiles(fs) == old(AllFiles(fs))[inum := F.Overwrite(old(fs.File(inum)), off, src[..r])]
    ensures log.cache.disk == old(log.cache.disk) && log.cache.history == old(log.cache.history)
    ensures ok ==> log.Valid() && log.Quiet(me) && log.outstanding == 1 && !log.committing
    ensures ok ==> Carries(fs.sb, log.cache.view, fs.blocks, fs.dinodes) && |log.blocks| <= 7
    ensures !ok ==> log.cache.Crowded(me, 7)
  {
    ghost var blocks0, inodes0, files0 := fs.blocks, fs.dinodes, AllFiles(fs);
    var admitted := log.BeginOp();
    ghost var w;
    r, w := fs.WriteTransaction(inum, src, off, |src|);
    assert AllFiles(fs) == if r == -1 then files0 else files0[inum := F.Overwrite(files0[inum], off, src[..r])];
    ok := true;
    if r != -1 {
      StorableInode(fs.sb, fs.blocks, fs.inodes, fs.owner, inum);
      hide Carries, F.ChangesLogged, Inv, Covered, Contents, F.Overwrite, B.Bcache.Crowded;
      ok := Push(log, fs, me, inum, blocks0, inodes0);
    }
  }

  /** One transaction of filewrite through the log: begin_op, writei, end_op. A crash at any of its disk writes, or a
      panic for lack of buffers, leaves all the files as before it or as after it. The panic takes other processes with
      references to all but seven of the buffers. */
  method Transaction(log: L.Log, fs: F.Fs, me: nat, inum: nat, src: seq<Byte>, off: nat) returns (r: int, ok: bool)
    requires Mounted(log, fs, me) && inum < |fs.inodes| && off < UINT && |src| <= F.CHUNK
    modifies log, log.cache, fs`blocks, fs`logged, fs`inodes, fs`dinodes, fs`owner
    ensures if ok then Mounted(log, fs, me) else log.cache.Crowded(me, 7)
    ensures fs.Valid() && |fs.inodes| == |old(fs.inodes)|
    ensures r == -1 <==> off > old(fs.inodes)[inum].size || off + |src| > MAXBYTES
    ensures r == -1 ==> AllFiles(fs) == old(AllFiles(fs))
    ensures r != -1 ==> 0 <= r <= |src| && (r < |src| ==> fs.Full())
    ensures r != -1 ==> AllFiles(fs) == old(AllFiles(fs))[inum := F.Overwrite(old(fs.File(inum)), off, src[..r])]
    ensures L.Extends(old(log.cache.history), log.cache.history)
    ensures exists m :: FilesAt(
      log.layout, fs.sb, log.cache.history, |old(log.cache.history)|, m, old(AllFiles(fs)), AllFiles(fs))
  {
    ghost var v0, d0, files0 := log.cache.view, log.cache.disk, AllFiles(fs);
    CarriedStores(fs.sb, v0, fs);
    HomesStore(log.layout, fs.sb, v0, d0, files0);
    hide Carries, Stores, RecoversFiles, L.Log.Valid, L.Log.Quiet, F.Fs.Valid, F.Overwrite, B.Bcache.Crowded;
    r, ok := WriteLogged(log, fs, me, inum, src, off);
    ghost var h := log.cache.history;
    if !ok {
      assert FilesAt(log.layout, fs.sb, h, |h|, |h|, files0, AllFiles(fs));
      return;
    }
    ghost var v1, n := log.cache.view, |log.blocks|;
    CarriedStores(fs.sb, v1, fs);
    var out := log.EndOp(me);
    ghost var m :| L.CommitPoint(log.layout, log.cache.history, |h|, m, d0, v1);
    CommitFiles(log.layout, fs.sb, log.cache.history, |h|, m, d0, v1, files0, AllFiles(fs));
    ok := out.Ok?;
    if ok {
      HomesCarry(log.layout, fs.sb, v1, log.cache.view, fs.blocks, fs.dinodes);
    } else {
      MoreCrowded(log.cache, me, n, 7);
    }
  }

  /** The files with the first w bytes of src written to file inum at off, if that is within the file. */
  ghost function Wrote(files: seq<seq<Byte>>, inum: nat, off: nat, src: seq<Byte>, w: nat): seq<seq<Byte>>
    requires inum < |files| && w <= |src|
  {
    if off <= |files[inum]| then files[inum := F.Overwrite(files[inum], off, src[..w])] else files
  }

  lemma WroteMore(files: seq<seq<Byte>>, inum: nat, off: nat, src: seq<Byte>, i: nat, n: nat, r: nat)
    requires inum < |files| && i + n <= |src| && r <= n && off <= |files[inum]|
    ensures var now := Wrote(files, inum, off, src, i);
      && off + i <= |now[inum]|
      && now[inum := F.Overwrite(now[inum], off + i, src[i..i + n][..r])] == Wrote(files, inum, off, src, i + r)
  {
    assert src[i..i + n][..r] == src[i..i + r];
    F.OverwriteTwice(files[inum], off, src, i, r);
  }

  lemma WroteNone(files: seq<seq<Byte>>, inum: nat, off: nat, src: seq<Byte>)
    requires inum < |files|
    ensures Wrote(files, inum, off, src, 0) == files
  {
    if off <= |files[inum]| {
      F.OverwriteNone(files[inum], off, src);
    }
  }

  predicate Chunked(n: nat) {
    n % F.CHUNK == 0
  }

  lemma ChunkedNone()
    ensures Chunked(0)
  {
  }

  lemma OneChunk(i: nat, n: nat)
    requires Chunked(i) && n == F.CHUNK
    ensures Chunked(i + n)
  {
  }

  lemma ExtendsSelf(h: seq<Disk>)
    ensures L.Extends(h, h)
  {
  }

  lemma ExtendsMore(h0: seq<Disk>, h1: seq<Disk>, h2: seq<Disk>)
    requires L.Extends(h0, h1) && L.Extends(h1, h2)
    ensures L.Extends(h0, h2) && |h0| <= |h2|
  {
    assert forall k :: 0 <= k < |h0| ==> h2[k] == h1[k];
  }

  /** w bytes are a whole number of chunks, or all that is written. */
  predicate Whole(w: nat, total: nat) {
    w <= total && (Chunked(w) || w == total)
  }

  /** Recovery of a crashed disk leaves the files with a whole number of chunks written. */
  ghost predicate RecoversChunks(l: Layout, sb: Super, crash: Disk, files: seq<seq<Byte>>, inum: nat, off: nat,
                                 src: seq<Byte>, total: nat)
    requires inum < |files| && total <= |src|
  {
    exists w :: Whole(w, total) && RecoversFiles(l, sb, crash, Wrote(files, inum, off, src, w))
  }

  /** More of them may be written. */
  lemma MoreChunks(l: Layout, sb: Super, crash: Disk, files: seq<seq<Byte>>, inum: nat, off: nat, src: seq<Byte>,
                   i: nat, total: nat)
    requires inum < |files| && i <= total <= |src| && Chunked(i)
    requires RecoversChunks(l, sb, crash, files, inum, off, src, i)
    ensures RecoversChunks(l, sb, crash, files, inum, off, src, total)
  {
    hide RecoversFiles, Wrote;
    var w :| Whole(w, i) && RecoversFiles(l, sb, crash, Wrote(files, inum, off, src, w));
    assert Whole(w, total);
  }

  /** The disks of one more transaction. */
  lemma ChunkDisks(l: Layout, sb: Super, h: seq<Disk>, n: nat, m: nat, files: seq<seq<Byte>>, inum: nat, off: nat,
                   src: seq<Byte>, i: nat, total: nat, k: nat)
    requires inum < |files| && i <= total <= |src| && Chunked(i) && n <= k < |h|
    requires FilesAt(l, sb, h, n, m, Wrote(files, inum, off, src, i), Wrote(files, inum, off, src, total))
    ensures RecoversChunks(l, sb, h[k], files, inum, off, src, total)
  {
    hide RecoversFiles, Wrote;
    assert Whole(i, total) && Whole(total, total);
    if k < m {
      assert RecoversFiles(l, sb, h[k], Wrote(files, inum, off, src, i));
    } else {
      assert RecoversFiles(l, sb, h[k], Wrote(files, inum, off, src, total));
    }
  }

  /** ... of each disk from the n-th on. */
  ghost predicate AllChunks(l: Layout, sb: Super, h: seq<Disk>, n: nat, files: seq<seq<Byte>>, inum: nat, off: nat,
                            src: seq<Byte>, total: nat) {
    && inum < |files| && total <= |src|
    && forall k :: n <= k < |h| ==> RecoversChunks(l, sb, h[k], files, inum, off, src, total)
  }

  lemma AllMore(l: Layout, sb: Super, h: seq<Disk>, h': seq<Disk>, n: nat, files: seq<seq<Byte>>, inum: nat, off: nat,
                src: seq<Byte>, i: nat, total: nat)
    requires AllChunks(l, sb, h, n, files, inum, off, src, i) && L.Extends(h, h') && i <= total && Chunked(i)
    requires AllChunks(l, sb, h', |h|, files, inum, off, src, total)
    ensures AllChunks(l, sb, h', n, files, inum, off, src, total)
  {
    hide RecoversChunks;
    forall k | n <= k < |h'|
      ensures RecoversChunks(l, sb, h'[k], files, inum, off, src, total)
    {
      if k < |h| {
        assert h'[k] == h[k];
        MoreChunks(l, sb, h[k], files, inum, off, src, i, total);
      }
    }
  }

  /** The disk before the first write. */
  lemma FirstDisk(log: L.Log, fs: F.Fs, me: nat, inum: nat, off: nat, src: seq<Byte>)
    requires Mounted(log, fs, me) && inum < |fs.inodes|
    ensures log.cache.history != []
    ensures AllChunks(log.layout, fs.sb, log.cache.history, |log.cache.history| - 1, AllFiles(fs), inum, off, src, 0)
  {
    var l, d, files := log.layout, log.cache.disk, AllFiles(fs);
    assert log.cache.history[|log.cache.history| - 1] == d;
    CarriedStores(fs.sb, log.cache.view, fs);
    WroteNone(files, inum, off, src);
    hide Stores, Wrote, Recovered, B.Held, B.Ring;
    HomesStore(l, fs.sb, log.cache.view, d, files);
    L.EmptiedRecovers(l, d, d);
    RecoversStored(l, fs.sb, d, d, files);
    assert Whole(0, 0) && RecoversFiles(l, fs.sb, d, Wrote(files, inum, off, src, 0));
  }

  /** An offset past the end of the file so far was past the end of the file. */
  lemma NowSize(fs: F.Fs, files: seq<seq<Byte>>, inum: nat, off: nat, src: seq<Byte>, i: nat)
    requires fs.Valid() && inum < |fs.inodes| == |files| && i <= |src|
      && AllFiles(fs) == Wrote(files, inum, off, src, i)
    ensures off + i > fs.inodes[inum].size ==> off > |files[inum]|
  {
    hide Inv, Covered;
    assert |AllFiles(fs)[inum]| == fs.inodes[inum].size;
  }

  /** filewrite has written w bytes, in whole chunks so far; h are the disks from before it on, n0 the first. */
  ghost predicate Going(log: L.Log, fs: F.Fs, files: seq<seq<Byte>>, n0: nat, inum: nat, off: nat, src: seq<Byte>,
                        w: nat)
    reads log, log.cache, fs
  {
    && fs.Valid() && inum < |fs.inodes| == |files| && w <= |src| && AllFiles(fs) == Wrote(files, inum, off, src, w)
    && AllChunks(log.layout, fs.sb, log.cache.history, n0, files, inum, off, src, w)
  }

  /** Why filewrite stops before the end of src: the offset was past the file's end, the disk is full, or the next chunk
      would make the file too large. */
  ghost predicate StopsFor(fs: F.Fs, file: seq<Byte>, off: nat, src: seq<Byte>, total: nat)
    reads fs
  {
    && fs.Valid() && total <= |src|
    && (off > |file| || fs.Full() || off + total + F.Min(|src| - total, F.CHUNK) > MAXBYTES)
  }

  /** filewrite through the log. It writes all of src unless StopsFor gives a reason, or it panics with all but seven of
      the buffers in use by other processes. After a crash at any disk write or before the first, or a panic for lack of
      buffers, recovery leaves every file as it was, but for the one written: it has a whole number of chunks of src
      written. */
  method Filewrite(log: L.Log, fs: F.Fs, me: nat, inum: nat, off: nat, src: seq<Byte>)
    returns (ret: int, newoff: nat, ok: bool, ghost total: nat)
    requires Mounted(log, fs, me) && inum < |fs.inodes| && off < UINT && |src| < UINT / 2
    modifies log, log.cache, fs`blocks, fs`logged, fs`inodes, fs`dinodes, fs`owner
    ensures ok ==> Mounted(log, fs, me) && newoff == off + total && ret == if total == |src| then |src| else -1
    ensures fs.Valid() && total <= |src| && inum < |old(AllFiles(fs))|
    ensures ok && total < |src| ==> StopsFor(fs, old(AllFiles(fs))[inum], off, src, total)
    ensures !ok ==> log.cache.Crowded(me, 7)
    ensures AllFiles(fs) == Wrote(old(AllFiles(fs)), inum, off, src, total)
    ensures old(log.cache.history) != [] && L.Extends(old(log.cache.history), log.cache.history)
    ensures AllChunks(log.layout, fs.sb, log.cache.history, |old(log.cache.history)| - 1, old(AllFiles(fs)), inum,
                      off, src, total)
  {
    ghost var files, n0, h0 := AllFiles(fs), |log.cache.history| - 1, log.cache.history;
    WroteNone(files, inum, off, src);
    FirstDisk(log, fs, me, inum, off, src);
    ret, newoff, ok, total := WriteChunks(log, fs, me, inum, off, src, files, n0, h0);
  }

  method WriteChunks(log: L.Log, fs: F.Fs, me: nat, inum: nat, off: nat, src: seq<Byte>, ghost files: seq<seq<Byte>>,
                     ghost n0: nat, ghost h0: seq<Disk>)
    returns (ret: int, newoff: nat, ok: bool, ghost total: nat)
    requires Mounted(log, fs, me) && Going(log, fs, files, n0, inum, off, src, 0) && off < UINT && |src| < UINT / 2
      && inum < |files|
    requires h0 == log.cache.history && n0 <= |h0|
    modifies log, log.cache, fs`blocks, fs`logged, fs`inodes, fs`dinodes, fs`owner
    ensures ok ==> Mounted(log, fs, me) && newoff == off + total && ret == if total == |src| then |src| else -1
    ensures total <= |src| && Going(log, fs, files, n0, inum, off, src, total) && L.Extends(h0, log.cache.history)
    ensures ok && total < |src| ==> StopsFor(fs, files[inum], off, src, total)
    ensures !ok ==> log.cache.Crowded(me, 7)
  {
    hide Mounted, Going, L.Extends, Chunked, StopsFor, F.Fs.Valid, B.Bcache.Crowded;
    ExtendsSelf(log.cache.history);
    ChunkedNone();
    ok, total := true, 0;
    var i := 0;
    while i < |src|
      invariant 0 <= i == total <= |src| && ok && Mounted(log, fs, me) && L.Extends(h0, log.cache.history)
      invariant n0 <= |log.cache.history|
      invariant (Chunked(i) || i == |src|) && (i > 0 ==> off + i <= MAXBYTES)
      invariant Going(log, fs, files, n0, inum, off, src, i)
    {
      var n1 := |src| - i;
      if n1 > F.CHUNK {
        n1 := F.CHUNK;
      }
      ghost var h1 := log.cache.history;
      var r;
      r, ok, total := NextChunk(log, fs, me, inum, off, src, i, n1, files, n0);
      ExtendsMore(h0, h1, log.cache.history);
      if n1 == F.CHUNK {
        OneChunk(i, n1);
      }
      if !ok || r != n1 {
        return -1, off + i + (if r > 0 then r else 0), ok, total;
      }
      i := i + r;
    }
    return |src|, off + |src|, true, total;
  }

  /** One turn of filewrite's loop. */
  method NextChunk(log: L.Log, fs: F.Fs, me: nat, inum: nat, off: nat, src: seq<Byte>, i: nat, n1: nat,
                   ghost files: seq<seq<Byte>>, ghost n0: nat)
    returns (r: int, ok: bool, ghost total: nat)
    requires Mounted(log, fs, me) && Going(log, fs, files, n0, inum, off, src, i) && off < UINT && |src| < UINT / 2
    requires inum < |files| && i + n1 <= |src| && 0 < n1 <= F.CHUNK && Chunked(i) && (i > 0 ==> off + i <= MAXBYTES)
      && n0 <= |log.cache.history|
    modifies log, log.cache, fs`blocks, fs`logged, fs`inodes, fs`dinodes, fs`owner
    ensures if ok then Mounted(log, fs, me) else log.cache.Crowded(me, 7)
    ensures -1 <= r <= n1 && total == i + (if r > 0 then r else 0) && (r == n1 ==> off + total <= MAXBYTES)
    ensures r != n1 ==> StopsFor(fs, files[inum], off, src, total)
    ensures L.Extends(old(log.cache.history), log.cache.history) && Going(log, fs, files, n0, inum, off, src, total)
  {
    hide Mounted, RecoversChunks, RecoversFiles, F.Overwrite, B.Bcache.Crowded, F.Fs.Full;
    NowSize(fs, files, inum, off, src, i);
    r, ok := Transaction(log, fs, me, inum, src[i..i + n1], off + i);
    total := i + if r > 0 then r else 0;
    if r != -1 {
      WroteMore(files, inum, off, src, i, n1, r);
    }
    ghost var h1, h := old(log.cache.history), log.cache.history;
    ghost var m :| FilesAt(log.layout, fs.sb, h, |h1|, m, old(AllFiles(fs)), AllFiles(fs));
    forall k | |h1| <= k < |h|
      ensures RecoversChunks(log.layout, fs.sb, h[k], files, inum, off, src, total)
    {
      ChunkDisks(log.layout, fs.sb, h, |h1|, m, files, inum, off, src, i, total, k);
    }
    AllMore(log.layout, fs.sb, h1, h, n0, files, inum, off, src, i, total);
  }
}
