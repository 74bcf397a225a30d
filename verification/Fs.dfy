/** Block allocation, inode contents and file writes over the plain block map that the log
    and the buffer cache present. */
module Fs {
  import opened Blocks
  import opened Collections
  import opened Bitmap
  import opened Files
  import LogSpace

  /** Every file byte that had a block keeps its block and its value, except bytes lo..hi of inode i. */
  ghost predicate Kept(blocks: seq<Block>, inodes: seq<Inode>, blocks': seq<Block>, inodes': seq<Inode>, i: nat,
                       lo: nat, hi: nat) {
    && |inodes'| == |inodes|
    && (forall j :: 0 <= j < |inodes| ==> |inodes[j].addrs| == NDIRECT + 1 && |inodes'[j].addrs| == NDIRECT + 1)
    && (forall j :: 0 <= j < |inodes| && inodes[j].addrs[INDIRECT] != 0 ==>
         inodes'[j].addrs[INDIRECT] == inodes[j].addrs[INDIRECT])
    && (forall j: nat, bn: nat | j < |inodes| && bn < MAXFILE ::
         DataAddr(blocks, inodes[j], bn) != 0 ==> DataAddr(blocks', inodes'[j], bn) == DataAddr(blocks, inodes[j], bn))
    && (forall j: nat, k: nat | j < |inodes| && k < MAXBYTES && !(j == i && lo <= k < hi) ::
         DataAddr(blocks, inodes[j], k / BSIZE) != 0 ==>
           FileByte(blocks', inodes'[j], k) == FileByte(blocks, inodes[j], k))
  }

  lemma KeptTransitive(b0: seq<Block>, i0: seq<Inode>, b1: seq<Block>, i1: seq<Inode>, b2: seq<Block>, i2: seq<Inode>,
                       i: nat, lo: nat, mid: nat, hi: nat)
    requires Kept(b0, i0, b1, i1, i, lo, mid) && Kept(b1, i1, b2, i2, i, mid, hi) && lo <= mid <= hi
    ensures Kept(b0, i0, b2, i2, i, lo, hi)
  {
    hide DataAddr, FileByte;
    forall j: nat, k: nat | j < |i0| && k < MAXBYTES && !(j == i && lo <= k < hi) && DataAddr(b0, i0[j], k / BSIZE) != 0
      ensures FileByte(b2, i2[j], k) == FileByte(b0, i0[j], k)
    {
      assert DataAddr(b1, i1[j], k / BSIZE) != 0;
    }
  }

  /** The bits of blocks b .. b + BPB are in one bitmap block. */
  lemma SameBitmapBlock(sb: Super, blocks: seq<Block>, b: nat)
    requires sb.Good() && |blocks| == sb.size && b < sb.size && b % BPB == 0
    ensures forall k: nat :: b <= k < b + BPB && k < sb.size ==>
      sb.Bblock(k) == sb.Bblock(b) && k % BPB == k - b && (Used(sb, blocks, k) <==> IsSet(blocks[sb.Bblock(b)], k - b))
  {
    hide IsSet;
    forall k: nat | b <= k < b + BPB && k < sb.size
      ensures k / BPB == b / BPB && k % BPB == k - b
    {
    }
  }

  /** The bitmap blocks. */
  ghost function Bitmaps(sb: Super): set<nat> {
    Interval(sb.bmapstart, sb.Datastart())
  }

  lemma BootBlockUsed(sb: Super, blocks: seq<Block>, inodes: seq<Inode>, owner: Owner)
    requires Inv(sb, blocks, inodes, owner)
    ensures Used(sb, blocks, 0)
  {
    hide Super.Bblock, Super.Datastart;
  }

  /** Allocating block b for slot s of the inode itself. */
  lemma InodeGrows(sb: Super, blocks: seq<Block>, inodes: seq<Inode>, owner: Owner, b: nat, i: nat, s: nat)
    requires Inv(sb, blocks, inodes, owner) && b < sb.size && !Used(sb, blocks, b)
    requires i < |inodes| && s <= INDIRECT && inodes[i].addrs[s] == 0
    ensures var blocks', inodes', owner' :=
        MarkAndZero(sb, blocks, b), inodes[i := WithAddr(inodes[i], s, b)], owner[b := (i, s)];
      && Inv(sb, blocks', inodes', owner') && Grows(blocks, inodes, owner, blocks', inodes', owner')
      && (forall t: nat :: t < NSLOT && t != s ==> SlotAddr(blocks', inodes'[i], t) == SlotAddr(blocks, inodes[i], t))
  {
    hide Super.Bblock, Super.Datastart;
    hide SlotAddr, Used, MarkAndZero;
    var blocks', inodes', owner' :=
      MarkAndZero(sb, blocks, b), inodes[i := WithAddr(inodes[i], s, b)], owner[b := (i, s)];
    MarkPending(sb, blocks, inodes, owner, b);
    EnterInInode(sb, blocks', inodes, owner, b, i, s);
    assert Grows(blocks, inodes, owner, blocks', inodes', owner');
    forall t: nat | t < NSLOT && t != s
      ensures SlotAddr(blocks', inodes'[i], t) == SlotAddr(blocks, inodes[i], t)
    {
      GrowSlot(sb, blocks, inodes, owner, blocks', inodes', owner', i, t);
      assert OwnedBy(owner', SlotAddr(blocks', inodes'[i], t), i, t);
    }
  }

  /** Allocating block b for a slot in the indirect block. */
  lemma BlockGrows(sb: Super, blocks: seq<Block>, inodes: seq<Inode>, owner: Owner, b: nat, i: nat, s: nat)
    requires Inv(sb, blocks, inodes, owner) && b < sb.size && !Used(sb, blocks, b)
    requires i < |inodes| && INDIRECT < s < NSLOT && inodes[i].addrs[INDIRECT] != 0
      && SlotAddr(blocks, inodes[i], s) == 0
    ensures var ind, blocks1, owner' := inodes[i].addrs[INDIRECT], MarkAndZero(sb, blocks, b), owner[b := (i, s)];
      && ind < sb.size
      && var blocks' := blocks1[ind := SetWord(blocks1[ind], s - INDIRECT - 1, b)];
         Inv(sb, blocks', inodes, owner') && Grows(blocks, inodes, owner, blocks', inodes, owner')
           && SlotAddr(blocks', inodes[i], s) == b
  {
    hide Super.Bblock, Super.Datastart;
    hide Used, MarkAndZero, SlotAddr, SetWord, BitsOk, SlotsOwned, OwnersHold, Pending, Grows;
    IndirectOwned(sb, blocks, inodes, owner, i);
    var ind, blocks1, owner' := inodes[i].addrs[INDIRECT], MarkAndZero(sb, blocks, b), owner[b := (i, s)];
    MarkPending(sb, blocks, inodes, owner, b);
    EnterInBlock(sb, blocks1, inodes, owner, b, i, s);
    var blocks' := blocks1[ind := SetWord(blocks1[ind], s - INDIRECT - 1, b)];
    FreshGrows(sb, blocks, inodes, owner, b, i, s, blocks');
    OwnerLists(sb, blocks', inodes, owner', b);
  }

  lemma OwnerLists(sb: Super, blocks: seq<Block>, inodes: seq<Inode>, owner: Owner, b: nat)
    requires Inv(sb, blocks, inodes, owner) && b in owner
    ensures owner[b].0 < |inodes| && owner[b].1 < NSLOT && SlotAddr(blocks, inodes[owner[b].0], owner[b].1) == b
  {
    hide Super.Bblock, Super.Datastart;
  }

  lemma FreshGrows(sb: Super, blocks: seq<Block>, inodes: seq<Inode>, owner: Owner, b: nat, i: nat, s: nat,
                   blocks': seq<Block>)
    requires Inv(sb, blocks, inodes, owner) && b < sb.size && !Used(sb, blocks, b) && |blocks'| == |blocks|
      && i < |inodes|
    requires inodes[i].addrs[INDIRECT] != 0
    requires forall k: nat :: k < sb.size && k != b && k != sb.Bblock(b) && k != inodes[i].addrs[INDIRECT] ==>
      blocks'[k] == blocks[k]
    ensures Grows(blocks, inodes, owner, blocks', inodes, owner[b := (i, s)])
  {
    hide Super.Bblock, Super.Datastart;
    hide Used, SlotAddr;
    IndirectOwned(sb, blocks, inodes, owner, i);
  }

  lemma GrowsSelf(blocks: seq<Block>, inodes: seq<Inode>, owner: Owner)
    ensures Grows(blocks, inodes, owner, blocks, inodes, owner)
  {
  }

  function Patch(x: Block, o: nat, data: seq<Byte>): (r: Block)
    requires o + |data| <= BSIZE
    ensures forall k :: 0 <= k < BSIZE ==> r[k] == if o <= k < o + |data| then data[k - o] else x[k]
  {
    x[..o] + data + x[o + |data|..]
  }

  lemma IndirectSlot(blocks: seq<Block>, ino: Inode)
    requires |ino.addrs| == NDIRECT + 1
    ensures SlotAddr(blocks, ino, INDIRECT) == ino.addrs[INDIRECT]
  {
  }

  lemma GrowKept(sb: Super, blocks: seq<Block>, inodes: seq<Inode>, owner: Owner, blocks': seq<Block>,
                 inodes': seq<Inode>, owner': Owner, i: nat, pos: nat)
    requires Inv(sb, blocks, inodes, owner) && Inv(sb, blocks', inodes', owner')
      && Grows(blocks, inodes, owner, blocks', inodes', owner')
    ensures Kept(blocks, inodes, blocks', inodes', i, pos, pos)
    ensures forall j :: 0 <= j < |inodes| ==> inodes'[j].size == inodes[j].size
  {
    hide Super.Bblock, Super.Datastart;
    hide Used, BitsOk, SlotsOwned, OwnersHold, SlotAddr, FileByte;
    forall j: nat, bn: nat | j < |inodes| && bn < MAXFILE && DataAddr(blocks, inodes[j], bn) != 0
      ensures DataAddr(blocks', inodes'[j], bn) == DataAddr(blocks, inodes[j], bn)
    {
      GrowSlot(sb, blocks, inodes, owner, blocks', inodes', owner', j, DataSlot(bn));
    }
    forall j: nat | j < |inodes| && inodes[j].addrs[INDIRECT] != 0
      ensures inodes'[j].addrs[INDIRECT] == inodes[j].addrs[INDIRECT]
    {
      GrowSlot(sb, blocks, inodes, owner, blocks', inodes', owner', j, INDIRECT);
      IndirectSlot(blocks, inodes[j]);
      IndirectSlot(blocks', inodes'[j]);
    }
    forall j: nat, k: nat | j < |inodes| && k < MAXBYTES && DataAddr(blocks, inodes[j], k / BSIZE) != 0
      ensures FileByte(blocks', inodes'[j], k) == FileByte(blocks, inodes[j], k)
    {
      GrowByte(sb, blocks, inodes, owner, blocks', inodes', owner', j, k);
    }
  }

  lemma PatchKept(sb: Super, blocks: seq<Block>, inodes: seq<Inode>, owner: Owner, i: nat, pos: nat, data: seq<Byte>)
    requires Inv(sb, blocks, inodes, owner) && i < |inodes| && 0 < |data| <= BSIZE - pos % BSIZE
      && pos + |data| <= MAXBYTES
    requires DataAddr(blocks, inodes[i], pos / BSIZE) != 0
    ensures var a := DataAddr(blocks, inodes[i], pos / BSIZE);
      && a < |blocks|
      && var blocks' := blocks[a := Patch(blocks[a], pos % BSIZE, data)];
      && Inv(sb, blocks', inodes, owner) && Kept(blocks, inodes, blocks', inodes, i, pos, pos + |data|)
      && DataAddr(blocks', inodes[i], pos / BSIZE) == a
      && forall k: nat :: pos <= k < pos + |data| ==> FileByte(blocks', inodes[i], k) == data[k - pos]
  {
    hide Super.Bblock, Super.Datastart;
    hide Used, BitsOk, SlotsOwned, OwnersHold, SlotAddr, FileByte;
    var a := DataAddr(blocks, inodes[i], pos / BSIZE);
    DataBlock(sb, blocks, inodes, owner, i, pos / BSIZE);
    var x := Patch(blocks[a], pos % BSIZE, data);
    var blocks' := blocks[a := x];
    WriteKeeps(sb, blocks, inodes, owner, a, x);
    forall j: nat, k: nat | j < |inodes| && k < MAXBYTES
      ensures FileByte(blocks', inodes[j], k) ==
        if j == i && pos <= k < pos + |data| then data[k - pos] else FileByte(blocks, inodes[j], k)
    {
      PatchByte(sb, blocks, inodes, owner, i, pos / BSIZE, x, j, k);
      InBlock(pos, |data|, k);
      BlockByte(blocks, inodes[j], k);
    }
  }

  /** Bytes pos .. pos + m lie in one block. */
  lemma InBlock(pos: nat, m: nat, k: nat)
    requires 0 < m <= BSIZE - pos % BSIZE
    ensures pos <= k < pos + m <==> k / BSIZE == pos / BSIZE && pos % BSIZE <= k % BSIZE < pos % BSIZE + m
    ensures pos <= k < pos + m ==> k % BSIZE - pos % BSIZE == k - pos
  {
  }

  lemma SameBlock(pos: nat, m: nat)
    requires m < BSIZE - pos % BSIZE
    ensures (pos + m) / BSIZE == pos / BSIZE
  {
  }

  lemma NextBoundary(pos: nat, m: nat)
    requires m == BSIZE - pos % BSIZE
    ensures (pos + m) % BSIZE == 0
  {
    assert pos + m == (pos / BSIZE + 1) * BSIZE;
  }

  lemma BlockByte(blocks: seq<Block>, ino: Inode, k: nat)
    requires |ino.addrs| == NDIRECT + 1 && k < MAXBYTES
    ensures var a := DataAddr(blocks, ino, k / BSIZE); 0 < a < |blocks| ==>
      FileByte(blocks, ino, k) == blocks[a][k % BSIZE]
  {
  }

  /** Of the newly logged blocks, all are bitmap blocks but at most two, given ones. */
  ghost predicate LogsOnly(sb: Super, before: set<nat>, after: set<nat>, x: nat, y: nat) {
    forall b :: b in after ==> b in before || b in Bitmaps(sb) || (b != 0 && (b == x || b == y))
  }

  /** The blocks that a write of n bytes at off may log: bitmap blocks, the indirect block, and the
      blocks that hold the bytes. */
  ghost predicate InWrite(sb: Super, blocks: seq<Block>, ino: Inode, off: nat, n: nat, b: nat)
    requires |ino.addrs| == NDIRECT + 1
  {
    || b in Bitmaps(sb)
    || (b != 0 && b == ino.addrs[INDIRECT])
    || exists bn: nat :: off / BSIZE <= bn < MAXFILE && bn * BSIZE < off + n && b != 0 && DataAddr(blocks, ino, bn) == b
  }

  /** Every block that has changed has been passed to log_write. */
  ghost predicate ChangesLogged(blocks: seq<Block>, blocks': seq<Block>, logged: set<nat>) {
    |blocks'| == |blocks| && forall b :: 0 <= b < |blocks| && blocks'[b] != blocks[b] ==> b in logged
  }

  /** The block of byte pos, if the copy into it failed midway: it has changed and has not been passed to log_write. */
  ghost function Unlogged(blocks: seq<Block>, ino: Inode, pos: nat, whole: bool): set<nat>
    requires |ino.addrs| == NDIRECT + 1 && pos / BSIZE < MAXFILE
  {
    if whole then {} else {DataAddr(blocks, ino, pos / BSIZE)}
  }

  lemma KeptSelf(blocks: seq<Block>, inodes: seq<Inode>, i: nat, lo: nat)
    requires forall j :: 0 <= j < |inodes| ==> |inodes[j].addrs| == NDIRECT + 1
    ensures Kept(blocks, inodes, blocks, inodes, i, lo, lo)
  {
  }

  /** What a write logs are bitmap blocks and blocks of the file. */
  lemma InWriteHome(sb: Super, blocks: seq<Block>, inodes: seq<Inode>, owner: Owner, i: nat, off: nat, n: nat, b: nat)
    requires Inv(sb, blocks, inodes, owner) && i < |inodes| && InWrite(sb, blocks, inodes[i], off, n, b)
    ensures sb.bmapstart <= b < sb.size
  {
    hide Super.Bblock, Used, BitsOk, SlotsOwned, OwnersHold, DataAddr, Interval;
    if b !in Bitmaps(sb) {
      if b == inodes[i].addrs[INDIRECT] {
        IndirectOwned(sb, blocks, inodes, owner, i);
      } else {
        var bn: nat :| off / BSIZE <= bn < MAXFILE && bn * BSIZE < off + n && b != 0
          && DataAddr(blocks, inodes[i], bn) == b;
        DataBlock(sb, blocks, inodes, owner, i, bn);
      }
    }
  }

  lemma CoveredPrefix(blocks: seq<Block>, ino: Inode, n: nat, m: nat)
    requires |ino.addrs| == NDIRECT + 1 && Covered(blocks, ino, n) && m <= n
    ensures Covered(blocks, ino, m)
  {
  }

  lemma CoveredMore(blocks: seq<Block>, ino: Inode, pos: nat, m: nat)
    requires |ino.addrs| == NDIRECT + 1 && Covered(blocks, ino, pos) && 0 < m <= BSIZE - pos % BSIZE
      && pos + m <= MAXBYTES
    requires DataAddr(blocks, ino, pos / BSIZE) != 0
    ensures Covered(blocks, ino, pos + m)
  {
    hide DataAddr;
    forall bn: nat | bn < MAXFILE && bn * BSIZE < pos + m
      ensures DataAddr(blocks, ino, bn) != 0
    {
      assert bn == pos / BSIZE || bn * BSIZE < pos;
    }
  }

  /** Bytes lo .. pos, covered, keep their values and stay covered when bytes pos .. hi change. */
  lemma KeptPrefix(blocks: seq<Block>, inodes: seq<Inode>, blocks': seq<Block>, inodes': seq<Inode>, i: nat, lo: nat,
                   pos: nat, hi: nat)
    requires Kept(blocks, inodes, blocks', inodes', i, pos, hi) && i < |inodes| && Covered(blocks, inodes[i], pos)
    ensures Covered(blocks', inodes'[i], pos)
    ensures forall k: nat :: lo <= k < pos ==> FileByte(blocks', inodes'[i], k) == FileByte(blocks, inodes[i], k)
  {
    hide DataAddr, FileByte;
    forall k: nat | lo <= k < pos
      ensures FileByte(blocks', inodes'[i], k) == FileByte(blocks, inodes[i], k)
    {
      assert k / BSIZE * BSIZE < pos && DataAddr(blocks, inodes[i], k / BSIZE) != 0;
    }
  }

  /** A byte below the size has a block before and after. */
  lemma KeptAt(blocks: seq<Block>, inodes: seq<Inode>, blocks': seq<Block>, inodes': seq<Inode>, i: nat, lo: nat,
               pos: nat)
    requires Kept(blocks, inodes, blocks', inodes', i, lo, pos) && i < |inodes|
      && Covered(blocks, inodes[i], inodes[i].size) && pos < inodes[i].size
    ensures pos / BSIZE < MAXFILE && DataAddr(blocks', inodes'[i], pos / BSIZE) != 0
  {
    hide DataAddr, FileByte;
    assert pos / BSIZE * BSIZE < inodes[i].size;
  }

  lemma LogGrows(sb: Super, blocks: seq<Block>, inodes: seq<Inode>, blocks': seq<Block>, inodes': seq<Inode>, i: nat,
                 off: nat, n: nat, pos: nat, hi: nat, log: set<nat>, log': set<nat>, log0: set<nat>)
    requires i < |inodes| && off <= pos < off + n <= MAXBYTES && Kept(blocks, inodes, blocks', inodes', i, pos, hi)
    requires forall b :: b in log ==> b in log0 || InWrite(sb, blocks, inodes[i], off, n, b)
    requires LogsOnly(sb, log, log', DataAddr(blocks', inodes'[i], pos / BSIZE), inodes'[i].addrs[INDIRECT])
    ensures forall b :: b in log' ==> b in log0 || InWrite(sb, blocks', inodes'[i], off, n, b)
  {
    hide DataAddr, FileByte, Interval, Bitmaps;
    assert off / BSIZE <= pos / BSIZE < MAXFILE && pos / BSIZE * BSIZE < off + n;
    forall b | b in log' && b !in log0
      ensures InWrite(sb, blocks', inodes'[i], off, n, b)
    {
      if b in log && b !in Bitmaps(sb) && b != inodes[i].addrs[INDIRECT] {
        var bn: nat :| off / BSIZE <= bn < MAXFILE && bn * BSIZE < off + n && b != 0
          && DataAddr(blocks, inodes[i], bn) == b;
        assert DataAddr(blocks', inodes'[i], bn) == b;
      }
    }
  }

  function Max(a: int, b: nat): nat {
    if a < b then b else a
  }

  /** c with data written at off, extending it if need be. */
  function Overwrite(c: seq<Byte>, off: nat, data: seq<Byte>): seq<Byte>
    requires off <= |c|
  {
    c[..off] + data + if off + |data| < |c| then c[off + |data|..] else []
  }

  /** A change of ip->size changes no address. */
  lemma ResizeKeeps(sb: Super, blocks: seq<Block>, inodes: seq<Inode>, owner: Owner, i: nat, size: nat)
    requires Inv(sb, blocks, inodes, owner) && i < |inodes|
    ensures Inv(sb, blocks, inodes[i := inodes[i].(size := size)], owner)
  {
    hide Super.Bblock, Super.Datastart, Used;
    var inodes' := inodes[i := inodes[i].(size := size)];
    assert forall j: nat, s: nat :: j < |inodes| && s < NSLOT ==>
      SlotAddr(blocks, inodes'[j], s) == SlotAddr(blocks, inodes[j], s);
    hide SlotAddr;
    assert SlotsOwned(blocks, inodes', owner);
    assert OwnersHold(sb, blocks, inodes', owner);
  }

  lemma ResizeInWrite(sb: Super, blocks: seq<Block>, ino: Inode, size: nat, off: nat, n: nat)
    requires |ino.addrs| == NDIRECT + 1
    ensures forall b :: InWrite(sb, blocks, ino, off, n, b) ==> InWrite(sb, blocks, ino.(size := size), off, n, b)
  {
    hide Interval, Bitmaps, Word;
    forall b | InWrite(sb, blocks, ino, off, n, b)
      ensures InWrite(sb, blocks, ino.(size := size), off, n, b)
    {
      if bn: nat :| off / BSIZE <= bn < MAXFILE && bn * BSIZE < off + n && b != 0 && DataAddr(blocks, ino, bn) == b {
        assert DataAddr(blocks, ino.(size := size), bn) == b;
      }
    }
  }

  /** The file after w bytes of src have been put in at off and r of them counted. */
  function Written(c: seq<Byte>, off: nat, src: seq<Byte>, r: nat, w: nat): seq<Byte>
    requires off <= |c| && r <= w <= |src|
  {
    Overwrite(c, off, src[..w])[..Max(|c|, off + r)]
  }

  lemma WrittenAt(c: seq<Byte>, off: nat, src: seq<Byte>, r: nat, w: nat)
    requires off <= |c| && r <= w <= |src|
    ensures var f := Written(c, off, src, r, w);
      && |f| == Max(|c|, off + r)
      && forall k :: 0 <= k < |f| ==> f[k] == if off <= k < off + w then src[k - off] else c[k]
  {
  }

  /** The bytes put in beyond those counted show exactly where they differ from the old ones, below the old size. */
  lemma WrittenExact(c: seq<Byte>, off: nat, src: seq<Byte>, r: nat, w: nat)
    requires off <= |c| && r <= w <= |src|
    ensures Written(c, off, src, r, w) == Overwrite(c, off, src[..r])
      <==> forall k: nat :: r <= k < w && off + k < |c| ==> src[k] == c[off + k]
  {
    var x, y := Written(c, off, src, r, w), Overwrite(c, off, src[..r]);
    assert |x| == |y|;
    if x == y {
      forall k: nat | r <= k < w && off + k < |c|
        ensures src[k] == c[off + k]
      {
        assert x[off + k] == y[off + k];
      }
    }
  }

  /** How many of n bytes at off are in blocks that a copy of `good` bytes completes. */
  function CopiedWhole(off: nat, n: nat, good: nat): nat {
    if good >= n then n else Max((off + good) / BSIZE * BSIZE - off, 0)
  }

  /** The part of src that a copy of `good` bytes brings into a block it does not complete is already in the file c,
      as far as it goes. */
  ghost predicate Harmless(c: seq<Byte>, off: nat, src: seq<Byte>, good: nat) {
    forall k: nat :: CopiedWhole(off, |src|, good) <= k < Min(good, |src|) && off + k < |c| ==> src[k] == c[off + k]
  }

  /** Where writei stops for a failed copy. */
  lemma CopyStops(off: nat, n: nat, good: nat, r: nat)
    requires r <= good < n && (off + good) / BSIZE == (off + r) / BSIZE && (r == 0 || (off + r) % BSIZE == 0)
    ensures CopiedWhole(off, n, good) == r
  {
    assert off + r == (off + r) / BSIZE * BSIZE + (off + r) % BSIZE;
  }

  /** Where it stops for a full disk the copy has not failed yet. */
  lemma DiskStops(off: nat, n: nat, good: nat, r: nat)
    requires r <= good && r < n && (r == 0 || (off + r) % BSIZE == 0)
    ensures r <= CopiedWhole(off, n, good)
  {
    assert (off + r) % BSIZE == 0 ==> (off + r) / BSIZE * BSIZE == off + r;
  }

  /** writei leaves the file with the bytes it counts replaced, and no others, if and only if the copy from the caller
      is harmless. `full` is whether it stops for a full disk, at or past the old end. */
  lemma CountedExact(c: seq<Byte>, off: nat, src: seq<Byte>, good: nat, r: nat, w: nat, full: bool)
    requires off <= |c| && r <= w <= |src| && w <= good && (r < |src| ==> r == 0 || (off + r) % BSIZE == 0)
    requires r < |src| ==>
      if full then w == r && off + r >= |c| else w == good < |src| && (off + w) / BSIZE == (off + r) / BSIZE
    ensures Written(c, off, src, r, w) == Overwrite(c, off, src[..r]) <==> Harmless(c, off, src, good)
  {
    WrittenExact(c, off, src, r, w);
    if r < |src| && full {
      DiskStops(off, |src|, good, r);
    } else if r < |src| {
      CopyStops(off, |src|, good, r);
    }
  }

  lemma WroteContents(blocks: seq<Block>, inodes: seq<Inode>, blocks': seq<Block>, inodes': seq<Inode>, i: nat,
                      off: nat, src: seq<Byte>, r: nat, w: nat)
    requires r <= w <= |src| && Kept(blocks, inodes, blocks', inodes', i, off, off + w) && i < |inodes|
    requires Covered(blocks, inodes[i], inodes[i].size) && off <= inodes[i].size
      && Covered(blocks', inodes'[i], off + w)
    requires forall k: nat :: off <= k < off + w ==> FileByte(blocks', inodes'[i], k) == src[k - off]
    ensures var ino' := inodes'[i].(size := Max(inodes[i].size, off + r));
      && Covered(blocks', ino', ino'.size)
      && Contents(blocks', ino') == Written(Contents(blocks, inodes[i]), off, src, r, w)
      && (w == r ==> Contents(blocks', ino') == Overwrite(Contents(blocks, inodes[i]), off, src[..r]))
  {
    var ino, ino' := inodes[i], inodes'[i].(size := Max(inodes[i].size, off + r));
    forall bn: nat | bn < MAXFILE
      ensures DataAddr(blocks', ino', bn) == DataAddr(blocks', inodes'[i], bn)
    {
    }
    hide DataAddr;
    assert forall k: nat :: k < MAXBYTES ==> FileByte(blocks', ino', k) == FileByte(blocks', inodes'[i], k);
    hide FileByte;
    var c := Contents(blocks, ino);
    hide Written, Overwrite;
    WrittenExact(c, off, src, r, w);
    WrittenAt(c, off, src, r, w);
    forall k: nat | k < ino'.size
      ensures FileByte(blocks', ino', k) == Written(c, off, src, r, w)[k]
    {
      if !(off <= k < off + w) {
        assert k / BSIZE * BSIZE < ino.size && DataAddr(blocks, ino, k / BSIZE) != 0;
      }
    }
  }

  lemma ResizeUnlogged(blocks: seq<Block>, ino: Inode, size: nat, pos: nat)
    requires |ino.addrs| == NDIRECT + 1
    ensures pos / BSIZE < MAXFILE ==>
      Unlogged(blocks, ino.(size := size), pos, false) == Unlogged(blocks, ino, pos, false)
  {
  }

  lemma OthersKept(blocks: seq<Block>, inodes: seq<Inode>, blocks': seq<Block>, inodes': seq<Inode>, i: nat, lo: nat,
                   hi: nat)
    requires Kept(blocks, inodes, blocks', inodes', i, lo, hi)
    requires forall j: nat :: j < |inodes| ==> Covered(blocks, inodes[j], inodes[j].size)
    requires forall j: nat :: j < |inodes| && j != i ==> inodes'[j] == inodes[j]
    ensures forall j: nat :: j < |inodes| && j != i ==>
      Covered(blocks', inodes[j], inodes[j].size) && Contents(blocks', inodes[j]) == Contents(blocks, inodes[j])
  {
    hide DataAddr, FileByte;
    forall j: nat | j < |inodes| && j != i
      ensures Covered(blocks', inodes[j], inodes[j].size)
        && Contents(blocks', inodes[j]) == Contents(blocks, inodes[j])
    {
      forall k: nat | k < inodes[j].size
        ensures FileByte(blocks', inodes[j], k) == FileByte(blocks, inodes[j], k)
      {
        assert k / BSIZE * BSIZE < inodes[j].size && DataAddr(blocks, inodes[j], k / BSIZE) != 0;
        assert FileByte(blocks', inodes'[j], k) == FileByte(blocks, inodes[j], k);
      }
    }
  }

  function Min(a: nat, b: nat): nat {
    if a < b then a else b
  }

  /** The part of c that a read of n bytes at off asks for. */
  function InRange(c: seq<Byte>, off: nat, n: nat): seq<Byte> {
    if off > |c| || off + n >= UINT then [] else c[off..Min(off + n, |c|)]
  }

  lemma ReadMore(c: seq<Byte>, off: nat, d: nat, k: nat)
    requires off + d + k <= |c|
    ensures c[off..off + d] + c[off + d..off + d + k] == c[off..off + d + k]
  {
  }

  /** A copy that fails in the k bytes after the first d of the m to be read. */
  lemma ReadPart(c: seq<Byte>, off: nat, d: nat, k: nat, good: nat, m: nat)
    requires d <= good < d + k <= m && off + m <= |c|
    ensures c[off..off + d] + c[off + d..off + d + k][..good - d] == c[off..off + m][..good]
  {
  }

  lemma CoveredAt(blocks: seq<Block>, ino: Inode, n: nat, k: nat)
    requires |ino.addrs| == NDIRECT + 1 && Covered(blocks, ino, n) && k < n
    ensures k / BSIZE < MAXFILE && DataAddr(blocks, ino, k / BSIZE) != 0
  {
    hide DataAddr;
    assert k / BSIZE * BSIZE < n;
  }

  /** The bits of the blocks of `gone` have been cleared, and nothing else has changed. */
  ghost predicate Freed(sb: Super, blocks: seq<Block>, blocks': seq<Block>, gone: set<nat>)
    requires sb.Good() && |blocks| == sb.size
  {
    && |blocks'| == sb.size
    && (forall b: nat :: sb.Datastart() <= b < sb.size ==> blocks'[b] == blocks[b])
    && (forall b: nat :: b < sb.size ==> (Used(sb, blocks', b) <==> Used(sb, blocks, b) && b !in gone))
  }

  lemma UnmarkFrees(sb: Super, blocks: seq<Block>, b: nat)
    requires sb.Good() && |blocks| == sb.size && b < sb.size && Used(sb, blocks, b)
    ensures Freed(sb, blocks, blocks[sb.Bblock(b) := UnmarkBit(blocks[sb.Bblock(b)], b % BPB)], {b})
  {
    hide IsSet, UnmarkBit;
    var blocks' := blocks[sb.Bblock(b) := UnmarkBit(blocks[sb.Bblock(b)], b % BPB)];
    forall k: nat | k < sb.size
      ensures Used(sb, blocks', k) <==> Used(sb, blocks, k) && k != b
    {
      assert k == b <==> k / BPB == b / BPB && k % BPB == b % BPB;
      if k / BPB == b / BPB {
        ClearBits(blocks[sb.Bblock(b)], b % BPB, k % BPB);
      }
    }
  }

  lemma FreedNone(sb: Super, blocks: seq<Block>)
    requires sb.Good() && |blocks| == sb.size
    ensures Freed(sb, blocks, blocks, {})
  {
  }

  /** The block in a slot is the one that slot owns, and its bit is set. */
  lemma SlotUnique(sb: Super, blocks: seq<Block>, inodes: seq<Inode>, owner: Owner, i: nat, s: nat)
    requires Inv(sb, blocks, inodes, owner) && i < |inodes| && s < NSLOT
    ensures var a := SlotAddr(blocks, inodes[i], s);
      && (forall b :: b in owner && owner[b] == (i, s) ==> b == a && a != 0)
      && (a != 0 ==> a in owner && owner[a] == (i, s) && sb.Datastart() <= a < sb.size && Used(sb, blocks, a))
  {
    hide Super.Bblock, Super.Datastart, Used, SlotAddr;
    assert OwnedBy(owner, SlotAddr(blocks, inodes[i], s), i, s);
  }

  lemma DirectSlot(blocks: seq<Block>, ino: Inode, s: nat)
    requires |ino.addrs| == NDIRECT + 1 && s <= INDIRECT
    ensures SlotAddr(blocks, ino, s) == ino.addrs[s]
  {
  }

  lemma SlotsBounded(sb: Super, blocks: seq<Block>, inodes: seq<Inode>, owner: Owner)
    requires Inv(sb, blocks, inodes, owner)
    ensures forall b :: b in owner ==> owner[b].1 < NSLOT
  {
  }

  /** Without an indirect block, an inode owns blocks only through its direct slots. */
  lemma NoIndirect(sb: Super, blocks: seq<Block>, inodes: seq<Inode>, owner: Owner, i: nat)
    requires Inv(sb, blocks, inodes, owner) && i < |inodes| && inodes[i].addrs[INDIRECT] == 0
    ensures forall b :: b in owner && owner[b].0 == i ==> owner[b].1 < INDIRECT
  {
    hide Super.Bblock, Used;
    forall b | b in owner && owner[b].0 == i
      ensures owner[b].1 < INDIRECT
    {
      assert SlotAddr(blocks, inodes[i], owner[b].1) == b;
    }
  }

  lemma FreedDisown(sb: Super, blocks: seq<Block>, inodes: seq<Inode>, owner: Owner, i: nat, blocks': seq<Block>)
    requires Inv(sb, blocks, inodes, owner) && i < |inodes| && Freed(sb, blocks, blocks', OwnedOf(owner, i))
    requires forall j: nat :: j < |inodes| ==> Covered(blocks, inodes[j], inodes[j].size)
    ensures Inv(sb, blocks', inodes[i := EMPTY], owner - OwnedOf(owner, i))
    ensures forall j: nat :: j < |inodes| && j != i ==>
      Covered(blocks', inodes[j], inodes[j].size) && Contents(blocks', inodes[j]) == Contents(blocks, inodes[j])
  {
    hide Super.Bblock, Super.Datastart, Used, BitsOk, SlotsOwned, OwnersHold, SlotAddr;
    Disown(sb, blocks, inodes, owner, i, blocks');
    forall j: nat, k: nat | j < |inodes| && j != i && k < MAXBYTES
      ensures FileByte(blocks', inodes[j], k) == FileByte(blocks, inodes[j], k)
    {
      SlotUnique(sb, blocks, inodes, owner, j, DataSlot(k / BSIZE));
    }
    hide FileByte;
    forall j: nat | j < |inodes| && j != i
      ensures Covered(blocks', inodes[j], inodes[j].size)
        && Contents(blocks', inodes[j]) == Contents(blocks, inodes[j])
    {
      assert Covered(blocks, inodes[j], inodes[j].size);
      assert forall bn: nat :: bn < MAXFILE ==> DataAddr(blocks', inodes[j], bn) == DataAddr(blocks, inodes[j], bn);
      hide DataAddr;
      assert Contents(blocks', inodes[j]) == Contents(blocks, inodes[j]);
    }
  }

  lemma EmptyFile(blocks: seq<Block>)
    ensures Covered(blocks, EMPTY, 0) && Contents(blocks, EMPTY) == []
  {
  }

  /** The blocks of inode i that the inode itself lists. */
  ghost function DirectOf(owner: Owner, i: nat): set<nat> {
    set b | b in owner && owner[b].0 == i && owner[b].1 < INDIRECT
  }

  /** filewrite's max. */
  const CHUNK := (LogSpace.MAXOPBLOCKS - 1 - 1 - 2) / 2 * BSIZE

  lemma OverwriteNone(c: seq<Byte>, off: nat, src: seq<Byte>)
    requires off <= |c|
    ensures Overwrite(c, off, src[..0]) == c
  {
  }

  lemma OverwriteTwice(c: seq<Byte>, off: nat, src: seq<Byte>, i: nat, r: nat)
    requires off <= |c| && i + r <= |src|
    ensures off + i <= |Overwrite(c, off, src[..i])|
    ensures Overwrite(Overwrite(c, off, src[..i]), off + i, src[i..i + r]) == Overwrite(c, off, src[..i + r])
  {
  }

  lemma WrittenTwice(c: seq<Byte>, off: nat, src: seq<Byte>, i: nat, n: nat, r: nat, w: nat)
    requires off <= |c| && i + n <= |src| && r <= w <= n
    ensures off + i <= |Overwrite(c, off, src[..i])|
    ensures Written(Overwrite(c, off, src[..i]), off + i, src[i..i + n], r, w) == Written(c, off, src, i + r, i + w)
  {
    assert src[i..i + n][..w] == src[i..i + w];
    OverwriteTwice(c, off, src, i, w);
  }

  /** The file f, once c, after w bytes of src have been put in at off and r of them counted; none past its end. */
  ghost predicate Advanced(f: seq<Byte>, c: seq<Byte>, off: nat, src: seq<Byte>, r: nat, w: nat) {
    r <= w <= |src| && if off > |c| then w == 0 && f == c else f == Written(c, off, src, r, w)
  }

  lemma AdvancedNone(c: seq<Byte>, off: nat, src: seq<Byte>)
    ensures Advanced(c, c, off, src, 0, 0)
  {
    if off <= |c| {
      OverwriteNone(c, off, src);
    }
  }

  lemma AdvancedIs(f: seq<Byte>, c: seq<Byte>, off: nat, src: seq<Byte>, r: nat, w: nat)
    requires Advanced(f, c, off, src, r, w)
    ensures r <= w <= |src| && if off > |c| then w == 0 && f == c else f == Written(c, off, src, r, w)
  {
  }

  lemma AdvancedEnd(f: seq<Byte>, c: seq<Byte>, off: nat, src: seq<Byte>, i: nat)
    requires Advanced(f, c, off, src, i, i)
    ensures off > |c| <==> off + i > |f|
  {
  }

  lemma AdvancedStep(f: seq<Byte>, c: seq<Byte>, off: nat, src: seq<Byte>, i: nat, n: nat, r: nat, w: nat)
    requires Advanced(f, c, off, src, i, i) && i + n <= |src| && r <= w <= n && off + i <= |f|
    ensures Advanced(Written(f, off + i, src[i..i + n], r, w), c, off, src, i + r, i + w)
  {
    hide Written;
    WrittenExact(c, off, src, i, i);
    WrittenTwice(c, off, src, i, n, r, w);
  }

  /** The blocks that one chunk of filewrite logs, when one bitmap block covers the disk: the inode, the
      bitmap, the indirect block and at most four data blocks. */
  lemma ChunkLogsSeven(sb: Super, blocks: seq<Block>, ino: Inode, inum: nat, off: nat, n: nat, log: set<nat>)
    requires |ino.addrs| == NDIRECT + 1 && n <= CHUNK && sb.size < BPB
    requires forall b :: b in log ==> b == sb.Iblock(inum) || InWrite(sb, blocks, ino, off, n, b)
    ensures |log| <= 7
  {
    hide DataAddr, Interval;
    var lo := off / BSIZE;
    assert sb.Datastart() == sb.bmapstart + 1;
    var top := [sb.Iblock(inum), sb.bmapstart, ino.addrs[INDIRECT],
                Nth(blocks, ino, lo), Nth(blocks, ino, lo + 1), Nth(blocks, ino, lo + 2), Nth(blocks, ino, lo + 3)];
    forall b | b in log
      ensures b in top
    {
      if b != sb.Iblock(inum) && b != sb.bmapstart && b != ino.addrs[INDIRECT] {
        assert b !in Bitmaps(sb);
        var bn: nat :| lo <= bn < MAXFILE && bn * BSIZE < off + n && b != 0 && DataAddr(blocks, ino, bn) == b;
        assert bn in {lo, lo + 1, lo + 2, lo + 3};
        assert top[3 + bn - lo] == b;
      }
    }
    SetOfSize(top);
    SubsetSize(log, SetOf(top));
  }

  function Nth(blocks: seq<Block>, ino: Inode, bn: nat): nat
    requires |ino.addrs| == NDIRECT + 1
  {
    if bn < MAXFILE then DataAddr(blocks, ino, bn) else 0
  }

  class Fs {
    const sb: Super
    var blocks: seq<Block>
    /** The in-memory inodes, and the copies in the inode blocks. */
    var inodes: seq<Inode>
    var dinodes: seq<Inode>
    ghost var owner: Owner
    /** The blocks passed to log_write so far. */
    var logged: set<nat>

    constructor (sb: Super, blocks: seq<Block>, inodes: seq<Inode>, ghost owner: Owner)
      ensures this.sb == sb && this.blocks == blocks && this.inodes == this.dinodes == inodes && this.owner == owner
        && logged == {}
    {
      this.sb, this.blocks, this.inodes, this.dinodes, this.owner, this.logged := sb, blocks, inodes, inodes, owner, {};
    }

    ghost predicate Ok()
      reads `blocks, `inodes, `owner
    {
      Inv(sb, blocks, inodes, owner)
    }

    ghost predicate Full()
      reads this
      requires sb.Good() && |blocks| == sb.size
    {
      forall b: nat :: b < sb.size ==> Used(sb, blocks, b)
    }

    /** balloc: the first free block, marked and zeroed, or 0 when there is none. */
    method Balloc() returns (addr: nat)
      requires sb.Good() && |blocks| == sb.size && Used(sb, blocks, 0)
      modifies `blocks, `logged
      ensures addr == 0 ==> blocks == old(blocks) && logged == old(logged) && Full()
      ensures addr != 0 ==>
        && addr < sb.size && !Used(sb, old(blocks), addr)
        && (forall b: nat :: b < addr ==> Used(sb, old(blocks), b))
        && blocks == MarkAndZero(sb, old(blocks), addr) && logged == old(logged) + {sb.Bblock(addr), addr}
      ensures ChangesLogged(old(blocks), blocks, logged) && old(logged) <= logged
    {
      hide Super.Bblock, Super.Datastart;
      hide IsSet, MarkBit;
      var b := 0;
      while b < sb.size
        invariant blocks == old(blocks) && logged == old(logged)
        invariant b % BPB == 0 && forall k: nat :: k < b && k < sb.size ==> Used(sb, blocks, k)
        decreases sb.size + BPB - b
      {
        var bi := FirstClear(blocks[sb.Bblock(b)], if sb.size - b < BPB then sb.size - b else BPB);
        SameBitmapBlock(sb, blocks, b);
        if bi < BPB && b + bi < sb.size {
          blocks := blocks[sb.Bblock(b) := MarkBit(blocks[sb.Bblock(b)], bi)];
          logged := logged + {sb.Bblock(b)};
          Bzero(b + bi);
          return b + bi;
        }
        b := b + BPB;
      }
      return 0;
    }

    /** balloc's scan of one bitmap block: its first clear bit below n, or n. */
    method FirstClear(bp: Block, n: nat) returns (bi: nat)
      requires n <= BPB
      ensures bi <= n && (bi < n ==> !IsSet(bp, bi)) && forall k: nat :: k < bi ==> IsSet(bp, k)
    {
      bi := 0;
      while bi < n
        invariant 0 <= bi <= n && forall k: nat :: k < bi ==> IsSet(bp, k)
      {
        if !IsSet(bp, bi) {
          return;
        }
        bi := bi + 1;
      }
    }

    method Bzero(b: nat)
      requires b < |blocks|
      modifies `blocks, `logged
      ensures blocks == old(blocks)[b := ZeroBlock()] && logged == old(logged) + {b}
    {
      blocks := blocks[b := ZeroBlock()];
      logged := logged + {b};
    }

    /** What bmap's allocations keep and log: nothing but inode inum and unowned blocks change. */
    twostate predicate Grown(inum: nat)
      reads this
    {
      && Ok() && Grows(old(blocks), old(inodes), old(owner), blocks, inodes, owner)
      && dinodes == old(dinodes) && inum < |inodes| == |old(inodes)| && inodes == old(inodes)[inum := inodes[inum]]
    }

    /** addr = balloc(); ip->addrs[s] = addr */
    method AllocInInode(inum: nat, s: nat) returns (addr: nat)
      requires Ok() && inum < |inodes| && s <= INDIRECT && inodes[inum].addrs[s] == 0
      modifies `blocks, `logged, `inodes, `owner
      ensures Grown(inum) && addr == inodes[inum].addrs[s]
      ensures inodes == old(inodes)[inum := WithAddr(old(inodes)[inum], s, addr)]
      ensures addr == 0 ==> Full()
      ensures LogsOnly(sb, old(logged), logged, addr, 0) && ChangesLogged(old(blocks), blocks, logged)
        && old(logged) <= logged
      ensures forall t: nat :: t < NSLOT && t != s ==>
        SlotAddr(blocks, inodes[inum], t) == old(SlotAddr(blocks, inodes[inum], t))
    {
      hide Super.Bblock, Super.Datastart;
      hide MarkAndZero, Used, SlotAddr, BitsOk, SlotsOwned, OwnersHold, Grows, Interval;
      BootBlockUsed(sb, blocks, inodes, owner);
      GrowsSelf(blocks, inodes, owner);
      addr := Balloc();
      if addr != 0 {
        InodeGrows(sb, old(blocks), inodes, owner, addr, inum, s);
        inodes := inodes[inum := WithAddr(inodes[inum], s, addr)];
        owner := owner[addr := (inum, s)];
      } else {
        assert inodes[inum].addrs[s := 0] == inodes[inum].addrs;
      }
    }

    /** addr = balloc(); a[s] = addr, in the indirect block. */
    method AllocInBlock(inum: nat, s: nat) returns (addr: nat)
      requires Ok() && inum < |inodes| && INDIRECT < s < NSLOT
      requires inodes[inum].addrs[INDIRECT] != 0 && SlotAddr(blocks, inodes[inum], s) == 0
      modifies `blocks, `logged, `owner
      ensures Grown(inum) && addr == SlotAddr(blocks, inodes[inum], s)
      ensures addr == 0 ==> Full()
      ensures LogsOnly(sb, old(logged), logged, addr, inodes[inum].addrs[INDIRECT])
      ensures ChangesLogged(old(blocks), blocks, logged) && old(logged) <= logged
    {
      hide Super.Bblock, Super.Datastart;
      hide MarkAndZero, Used, SlotAddr, BitsOk, SlotsOwned, OwnersHold, SetWord, Grows, Interval;
      BootBlockUsed(sb, blocks, inodes, owner);
      GrowsSelf(blocks, inodes, owner);
      addr := Balloc();
      if addr != 0 {
        BlockGrows(sb, old(blocks), inodes, owner, addr, inum, s);
        var ind := inodes[inum].addrs[INDIRECT];
        blocks := blocks[ind := SetWord(blocks[ind], s - INDIRECT - 1, addr)];
        logged := logged + {ind};
        owner := owner[addr := (inum, s)];
      }
    }

    /** bmap: the block that holds the bn-th block of the file, allocated if there is none; 0 when the disk is full. */
    method Bmap(inum: nat, bn: nat) returns (addr: nat)
      requires Ok() && inum < |inodes| && bn < MAXFILE
      modifies `blocks, `logged, `inodes, `owner
      ensures Grown(inum) && addr == DataAddr(blocks, inodes[inum], bn)
      ensures addr == 0 ==> Full()
      ensures old(DataAddr(blocks, inodes[inum], bn)) != 0 ==>
        blocks == old(blocks) && inodes == old(inodes) && owner == old(owner) && logged == old(logged)
      ensures LogsOnly(sb, old(logged), logged, addr, inodes[inum].addrs[INDIRECT])
      ensures ChangesLogged(old(blocks), blocks, logged) && old(logged) <= logged
    {
      hide Super.Bblock, Super.Datastart;
      hide Used, BitsOk, SlotsOwned, OwnersHold, Word;
      if bn < NDIRECT {
        addr := inodes[inum].addrs[bn];
        if addr == 0 {
          addr := AllocInInode(inum, bn);
        }
        return;
      }
      addr := inodes[inum].addrs[INDIRECT];
      if addr == 0 {
        addr := AllocInInode(inum, INDIRECT);
        if addr == 0 {
          return;
        }
      }
      IndirectOwned(sb, blocks, inodes, owner, inum);
      ghost var b1, i1, o1 := blocks, inodes, owner;
      addr := Word(blocks[addr], bn - NDIRECT);
      if addr == 0 {
        addr := AllocInBlock(inum, bn + 1);
        GrowsTransitive(old(blocks), old(inodes), old(owner), b1, i1, o1, blocks, inodes, owner);
      }
    }

    /** One turn of writei's loop: bytes pos .. pos + |data| of the file, all in one block. The copy from the caller
        reaches `good` bytes before it fails; w bytes reach the buffer. */
    method WriteChunk(inum: nat, pos: nat, data: seq<Byte>, good: nat) returns (ok: bool, ghost w: nat)
      requires Ok() && inum < |inodes| && 0 < |data| <= BSIZE - pos % BSIZE && pos + |data| <= MAXBYTES
      modifies `blocks, `logged, `inodes, `owner
      ensures Ok() && |inodes| == |old(inodes)| && inodes == old(inodes)[inum := inodes[inum]]
        && inodes[inum].size == old(inodes)[inum].size
      ensures ok ==> w == |data| <= good
      ensures !ok ==>
        || (w == 0 && Full() && old(DataAddr(blocks, inodes[inum], pos / BSIZE)) == 0)
        || w == good < |data|
      ensures Kept(old(blocks), old(inodes), blocks, inodes, inum, pos, pos + w)
      ensures w > 0 ==> DataAddr(blocks, inodes[inum], pos / BSIZE) != 0
      ensures forall k: nat :: pos <= k < pos + w ==> FileByte(blocks, inodes[inum], k) == data[k - pos]
      ensures LogsOnly(sb, old(logged), logged, DataAddr(blocks, inodes[inum], pos / BSIZE),
                       inodes[inum].addrs[INDIRECT])
      ensures ChangesLogged(old(blocks), blocks, logged + Unlogged(blocks, inodes[inum], pos, ok || w == 0))
        && old(logged) <= logged
    {
      hide Super.Bblock, Super.Datastart;
      hide Used, BitsOk, SlotsOwned, OwnersHold, DataAddr, FileByte, Grows, Kept, SlotAddr;
      var addr := Bmap(inum, pos / BSIZE);
      GrowKept(sb, old(blocks), old(inodes), old(owner), blocks, inodes, owner, inum, pos);
      w := 0;
      if addr == 0 {
        return false, 0;
      }
      var c := Min(good, |data|);
      if c > 0 {
        PatchKept(sb, blocks, inodes, owner, inum, pos, data[..c]);
        ghost var b1 := blocks;
        blocks := blocks[addr := Patch(blocks[addr], pos % BSIZE, data[..c])];
        KeptTransitive(old(blocks), old(inodes), b1, inodes, blocks, inodes, inum, pos, pos, pos + c);
      }
      if c < |data| {
        return false, c;
      }
      logged := logged + {addr};
      return true, c;
    }

    /** Between calls: files have no holes, and the inode blocks agree with the inodes in memory. */
    ghost predicate Valid()
      reads this
    {
      && Ok() && dinodes == inodes
      && forall i: nat :: i < |inodes| ==> Covered(blocks, inodes[i], inodes[i].size)
    }

    ghost function File(i: nat): (c: seq<Byte>)
      reads this
      requires Valid() && i < |inodes|
    {
      Contents(blocks, inodes[i])
    }

    /** iupdate */
    method Iupdate(inum: nat)
      requires inum < |inodes| && |dinodes| == |inodes|
      modifies `dinodes, `logged
      ensures dinodes == old(dinodes)[inum := inodes[inum]] && logged == old(logged) + {sb.Iblock(inum)}
    {
      dinodes := dinodes[inum := inodes[inum]];
      logged := logged + {sb.Iblock(inum)};
    }

    /** writei's loop: as many bytes of src as the disk has room for and the copy from the caller reaches. */
    method WriteBytes(inum: nat, src: seq<Byte>, off: nat, good: nat) returns (tot: nat, ghost w: nat)
      requires Valid() && inum < |inodes| && off <= inodes[inum].size && off + |src| <= MAXBYTES
      modifies `blocks, `logged, `inodes, `owner
      ensures Ok() && |inodes| == |old(inodes)| && inodes == old(inodes)[inum := inodes[inum]]
        && inodes[inum].size == old(inodes)[inum].size
      ensures tot <= w <= |src| && w <= good
      ensures tot < |src| ==>
        || (w == tot && Full() && off + tot >= inodes[inum].size)
        || (w == good < |src| && (off + w) / BSIZE == (off + tot) / BSIZE)
      ensures tot < |src| ==> tot == 0 || (off + tot) % BSIZE == 0
      ensures Kept(old(blocks), old(inodes), blocks, inodes, inum, off, off + w)
      ensures Covered(blocks, inodes[inum], off + w)
      ensures forall k: nat :: off <= k < off + w ==> FileByte(blocks, inodes[inum], k) == src[k - off]
      ensures forall b :: b in logged ==> b in old(logged) || InWrite(sb, blocks, inodes[inum], off, |src|, b)
      ensures w == tot ==> ChangesLogged(old(blocks), blocks, logged)
      ensures w > tot ==> ChangesLogged(old(blocks), blocks, logged + Unlogged(blocks, inodes[inum], off + tot, false))
      ensures old(logged) <= logged
    {
      hide Super.Bblock, Super.Datastart, Used, BitsOk, SlotsOwned, OwnersHold, DataAddr, FileByte, Kept, SlotAddr,
        Covered, InWrite;
      KeptSelf(blocks, inodes, inum, off);
      CoveredPrefix(blocks, inodes[inum], inodes[inum].size, off);
      tot := 0;
      while tot < |src|
        invariant Ok() && |inodes| == |old(inodes)| && inodes == old(inodes)[inum := inodes[inum]]
          && inodes[inum].size == old(inodes)[inum].size
        invariant tot <= |src| && tot <= good && (tot == |src| || tot == 0 || (off + tot) % BSIZE == 0)
        invariant Kept(old(blocks), old(inodes), blocks, inodes, inum, off, off + tot)
        invariant Covered(blocks, inodes[inum], off + tot)
        invariant forall k: nat :: off <= k < off + tot ==> FileByte(blocks, inodes[inum], k) == src[k - off]
        invariant forall b :: b in logged ==> b in old(logged) || InWrite(sb, blocks, inodes[inum], off, |src|, b)
        invariant ChangesLogged(old(blocks), blocks, logged) && old(logged) <= logged
      {
        var pos := off + tot;
        var m := if |src| - tot < BSIZE - pos % BSIZE then |src| - tot else BSIZE - pos % BSIZE;
        ghost var b1, i1, l1 := blocks, inodes, logged;
        var ok;
        ok, w := WriteChunk(inum, pos, src[tot..tot + m], good - tot);
        KeptTransitive(old(blocks), old(inodes), b1, i1, blocks, inodes, inum, off, pos, pos + w);
        KeptPrefix(b1, i1, blocks, inodes, inum, off, pos, pos + w);
        LogGrows(sb, b1, i1, blocks, inodes, inum, off, |src|, pos, pos + w, l1, logged, old(logged));
        if w > 0 {
          CoveredMore(blocks, inodes[inum], pos, w);
        }
        if !ok {
          if pos < inodes[inum].size {
            KeptAt(old(blocks), old(inodes), b1, i1, inum, off, pos);
          }
          SameBlock(pos, w);
          w := tot + w;
          return;
        }
        if m == BSIZE - pos % BSIZE {
          NextBoundary(pos, m);
        }
        tot := tot + m;
      }
      w := tot;
    }

    /** writei, with a copy from the caller that reaches `good` bytes of src before it fails: -1 for a range that is out
        of bounds, otherwise the number of bytes written, fewer than asked for only on a full disk or for a failed copy.
        The copy may have put w - r bytes more into the last block, without log_write. All other files stay. */
    method Writei(inum: nat, src: seq<Byte>, off: nat, good: nat) returns (r: int, ghost w: nat)
      requires Valid() && inum < |inodes| && off < UINT && |src| < UINT
      modifies `blocks, `logged, `inodes, `dinodes, `owner
      ensures Valid() && |inodes| == |old(inodes)|
      ensures r == -1 <==> off > old(inodes)[inum].size || off + |src| >= UINT || off + |src| > MAXBYTES
      ensures r == -1 ==>
        blocks == old(blocks) && inodes == old(inodes) && dinodes == old(dinodes) && logged == old(logged)
          && owner == old(owner)
      ensures r != -1 ==>
        && 0 <= r <= w <= |src| && w <= good
        && (r < |src| ==>
             || (w == r && Full() && off + r >= old(inodes)[inum].size)
             || (w == good < |src| && (off + w) / BSIZE == (off + r) / BSIZE))
        && (r < |src| ==> r == 0 || (off + r) % BSIZE == 0)
        && inodes[inum].size == Max(old(inodes)[inum].size, off + r)
        && File(inum) == Written(old(File(inum)), off, src, r, w)
        && (File(inum) == Overwrite(old(File(inum)), off, src[..r]) <==> Harmless(old(File(inum)), off, src, good))
        && (w == r ==> File(inum) == Overwrite(old(File(inum)), off, src[..r]))
        && sb.Iblock(inum) in logged
        && (forall b :: b in logged ==>
             b in old(logged) || b == sb.Iblock(inum) || InWrite(sb, blocks, inodes[inum], off, |src|, b))
      ensures r == -1 || w == r ==> ChangesLogged(old(blocks), blocks, logged)
      ensures -1 < r < w ==>
        ChangesLogged(old(blocks), blocks, logged + Unlogged(blocks, inodes[inum], off + r, false))
      ensures forall j: nat :: j < |inodes| && j != inum ==> inodes[j] == old(inodes)[j] && File(j) == old(File(j))
    {
      hide Super.Bblock, Super.Datastart, Used, BitsOk, SlotsOwned, OwnersHold, DataAddr, FileByte, Kept, SlotAddr,
        Covered, InWrite, Contents, Unlogged, Written, Harmless;
      ghost var c, size := File(inum), inodes[inum].size;
      w := 0;
      if off > inodes[inum].size || (off + |src|) % UINT < off {
        return -1, 0;
      }
      if off + |src| > MAXFILE * BSIZE {
        return -1, 0;
      }
      var tot;
      tot, w := WriteBytes(inum, src, off, good);
      ghost var i1 := inodes;
      if off + tot > inodes[inum].size {
        inodes := inodes[inum := inodes[inum].(size := off + tot)];
      }
      ResizeKeeps(sb, blocks, i1, owner, inum, Max(size, off + tot));
      WroteContents(old(blocks), old(inodes), blocks, i1, inum, off, src, tot, w);
      OthersKept(old(blocks), old(inodes), blocks, i1, inum, off, off + w);
      ResizeInWrite(sb, blocks, i1[inum], Max(size, off + tot), off, |src|);
      ResizeUnlogged(blocks, i1[inum], Max(size, off + tot), off + tot);
      Iupdate(inum);
      CountedExact(c, off, src, good, tot, w, w == tot && off + tot >= size);
      r := tot;
    }

    /** A write of two bytes whose second cannot be copied: none is counted, and the first has changed. */
    method TornWrite(inum: nat, x: Byte, y: Byte) returns (r: int)
      requires Valid() && inum < |inodes| && File(inum) == [x, x]
      modifies `blocks, `logged, `inodes, `dinodes, `owner
      ensures Valid() && inum < |inodes| && r == 0 && File(inum) == [y, x]
    {
      hide Inv, Covered, Contents, InWrite, Unlogged;
      assert inodes[inum].size == |File(inum)|;
      ghost var w;
      r, w := Writei(inum, [y, y], 0, 1);
    }

    /** readi, with a copy to the caller that reaches `good` bytes before it fails: the bytes of the file in the range,
        as far as it goes; -1 exactly when the copy does not reach them all. */
    method Readi(inum: nat, off: nat, n: nat, good: nat) returns (r: int, dst: seq<Byte>)
      requires Valid() && inum < |inodes| && off < UINT && n < UINT
      modifies `blocks, `logged, `inodes, `owner
      ensures blocks == old(blocks) && inodes == old(inodes) && logged == old(logged) && owner == old(owner)
      ensures var all := InRange(File(inum), off, n);
        && r == (if good < |all| then -1 else |all|)
        && dst == all[..Min(good, |all|)]
        && (r >= 0 ==> dst == all)
    {
      hide Inv, Covered, Contents;
      if off > inodes[inum].size || (off + n) % UINT < off {
        return 0, [];
      }
      var m := if off + n > inodes[inum].size then inodes[inum].size - off else n;
      assert |File(inum)| == inodes[inum].size && InRange(File(inum), off, n) == File(inum)[off..off + m];
      var ok;
      ok, dst := ReadBytes(inum, off, m, good);
      return if ok then m else -1, dst;
    }

    /** readi's loop over m bytes. */
    method ReadBytes(inum: nat, off: nat, m: nat, good: nat) returns (ok: bool, dst: seq<Byte>)
      requires Valid() && inum < |inodes| && off + m <= inodes[inum].size
      modifies `blocks, `logged, `inodes, `owner
      ensures blocks == old(blocks) && inodes == old(inodes) && logged == old(logged) && owner == old(owner)
      ensures ok == (m <= good) && dst == File(inum)[off..off + m][..Min(good, m)]
    {
      hide Inv, Covered, Contents;
      ghost var c := File(inum);
      assert |c| == inodes[inum].size;
      dst := [];
      var tot := 0;
      while tot < m
        invariant blocks == old(blocks) && inodes == old(inodes) && logged == old(logged) && owner == old(owner)
        invariant tot <= m && tot <= good && dst == c[off..off + tot]
      {
        var k := Min(m - tot, BSIZE - (off + tot) % BSIZE);
        var chunk := ReadChunk(inum, off + tot, k);
        if good - tot < k {
          ReadPart(c, off, tot, k, good, m);
          return false, dst + chunk[..good - tot];
        }
        ReadMore(c, off, tot, k);
        dst := dst + chunk;
        tot := tot + k;
      }
      return true, dst;
    }

    /** One turn of readi's loop: k bytes at pos, all in one block. */
    method ReadChunk(inum: nat, pos: nat, k: nat) returns (chunk: seq<Byte>)
      requires Valid() && inum < |inodes| && 0 < k <= BSIZE - pos % BSIZE && pos + k <= inodes[inum].size
      modifies `blocks, `logged, `inodes, `owner
      ensures blocks == old(blocks) && inodes == old(inodes) && logged == old(logged) && owner == old(owner)
      ensures chunk == File(inum)[pos..pos + k]
    {
      hide Super.Bblock, Super.Datastart, Used, BitsOk, SlotsOwned, OwnersHold, SlotAddr, DataAddr, FileByte, Covered;
      CoveredAt(blocks, inodes[inum], inodes[inum].size, pos);
      var addr := Bmap(inum, pos / BSIZE);
      DataBlock(sb, blocks, inodes, owner, inum, pos / BSIZE);
      chunk := blocks[addr][pos % BSIZE..pos % BSIZE + k];
      forall t: nat | pos <= t < pos + k
        ensures FileByte(blocks, inodes[inum], t) == chunk[t - pos]
      {
        InBlock(pos, k, t);
        BlockByte(blocks, inodes[inum], t);
      }
    }

    /** bfree: a panic when the block is free already. */
    method Bfree(b: nat) returns (ok: bool)
      requires sb.Good() && |blocks| == sb.size && b < sb.size
      modifies `blocks, `logged
      ensures ok == Used(sb, old(blocks), b)
      ensures !ok ==> blocks == old(blocks) && logged == old(logged)
      ensures ok ==> logged == old(logged) + {sb.Bblock(b)} && Freed(sb, old(blocks), blocks, {b})
    {
      var bp := blocks[sb.Bblock(b)];
      if !IsSet(bp, b % BPB) {
        return false;
      }
      UnmarkFrees(sb, blocks, b);
      blocks := blocks[sb.Bblock(b) := UnmarkBit(bp, b % BPB)];
      logged := logged + {sb.Bblock(b)};
      return true;
    }

    /** itrunc's bfree of the block in slot s, after the blocks of `gone`. */
    method FreeSlot(a: nat, ghost inum: nat, ghost s: nat, ghost blocks0: seq<Block>, ghost inodes0: seq<Inode>,
                    ghost gone: set<nat>)
      returns (ok: bool)
      requires Inv(sb, blocks0, inodes0, owner) && Freed(sb, blocks0, blocks, gone) && inum < |inodes0| && s < NSLOT
      requires a == SlotAddr(blocks0, inodes0[inum], s) != 0 && a !in gone
      modifies `blocks, `logged
      ensures ok && Freed(sb, blocks0, blocks, gone + {a})
      ensures forall b :: b in logged ==> b in old(logged) || b in Bitmaps(sb)
    {
      hide Super.Bblock, Super.Datastart, Used, SlotAddr, SlotsOwned, OwnersHold, Interval;
      SlotUnique(sb, blocks0, inodes0, owner, inum, s);
      ok := Bfree(a);
    }

    /** The blocks of inode inum in slots below i. */
    ghost predicate GoneBelow(gone: set<nat>, inum: nat, i: nat)
      reads `owner
    {
      forall b :: b in gone <==> b in owner && owner[b].0 == inum && owner[b].1 < i
    }

    /** One turn of itrunc's loop over the direct blocks. */
    method FreeDirectSlot(inum: nat, i: nat, ghost blocks0: seq<Block>, ghost inodes0: seq<Inode>, ghost gone: set<nat>)
      returns (ok: bool, ghost gone': set<nat>)
      requires Inv(sb, blocks0, inodes0, owner) && Freed(sb, blocks0, blocks, gone) && inum < |inodes0| && i < NDIRECT
      requires |inodes| == |inodes0| && |inodes[inum].addrs| == NDIRECT + 1
        && inodes[inum].addrs[i] == inodes0[inum].addrs[i]
      requires GoneBelow(gone, inum, i)
      modifies `blocks, `logged, `inodes
      ensures ok && Freed(sb, blocks0, blocks, gone') && GoneBelow(gone', inum, i + 1)
      ensures inodes == old(inodes)[inum := old(inodes)[inum].(addrs := old(inodes)[inum].addrs[i := 0])]
      ensures forall b :: b in logged ==> b in old(logged) || b in Bitmaps(sb)
    {
      hide Super.Bblock, Super.Datastart, Used, BitsOk, SlotsOwned, OwnersHold, SlotAddr, Bitmaps, Interval, Freed;
      SlotUnique(sb, blocks0, inodes0, owner, inum, i);
      DirectSlot(blocks0, inodes0[inum], i);
      ok, gone' := true, gone;
      if inodes[inum].addrs[i] != 0 {
        ok := FreeSlot(inodes[inum].addrs[i], inum, i, blocks0, inodes0, gone);
        gone' := gone + {inodes[inum].addrs[i]};
        inodes := inodes[inum := inodes[inum].(addrs := inodes[inum].addrs[i := 0])];
      } else {
        assert inodes[inum].addrs[i := 0] == inodes[inum].addrs;
      }
    }

    /** itrunc's loop over the direct blocks. */
    method FreeDirect(inum: nat) returns (ok: bool)
      requires Ok() && inum < |inodes|
      modifies `blocks, `logged, `inodes
      ensures ok && |inodes| == |old(inodes)| && inodes == old(inodes)[inum := inodes[inum]]
        && |inodes[inum].addrs| == NDIRECT + 1
      ensures forall s :: 0 <= s < NDIRECT ==> inodes[inum].addrs[s] == 0
      ensures inodes[inum].addrs[INDIRECT] == old(inodes)[inum].addrs[INDIRECT]
      ensures Freed(sb, old(blocks), blocks, DirectOf(owner, inum))
      ensures forall b :: b in logged ==> b in old(logged) || b in Bitmaps(sb)
    {
      ghost var gone: set<nat> := {};
      FreedNone(sb, blocks);
      hide Super.Bblock, Super.Datastart, Used, BitsOk, SlotsOwned, OwnersHold, SlotAddr, Bitmaps, Interval, Freed,
        Inv;
      ghost var ino := inodes[inum];
      ok := true;
      var i := 0;
      while i < NDIRECT
        invariant ok && 0 <= i <= NDIRECT
        invariant |inodes| == |old(inodes)| && inodes == old(inodes)[inum := inodes[inum]]
          && |inodes[inum].addrs| == NDIRECT + 1
        invariant forall s :: 0 <= s < i ==> inodes[inum].addrs[s] == 0
        invariant forall s :: i <= s <= INDIRECT ==> inodes[inum].addrs[s] == ino.addrs[s]
        invariant Freed(sb, old(blocks), blocks, gone) && GoneBelow(gone, inum, i)
        invariant forall b :: b in logged ==> b in old(logged) || b in Bitmaps(sb)
      {
        ok, gone := FreeDirectSlot(inum, i, old(blocks), old(inodes), gone);
        i := i + 1;
      }
      assert gone == DirectOf(owner, inum);
    }

    /** itrunc: frees each block of the file once, never one that is free already, and leaves an empty file. */
    method Itrunc(inum: nat) returns (ok: bool)
      requires Valid() && inum < |inodes|
      modifies `blocks, `logged, `inodes, `dinodes, `owner
      ensures ok && Valid() && inodes == old(inodes)[inum := EMPTY] && File(inum) == []
      ensures owner == old(owner) - OwnedOf(old(owner), inum)
        && Freed(sb, old(blocks), blocks, OwnedOf(old(owner), inum))
      ensures forall j: nat :: j < |inodes| && j != inum ==> File(j) == old(File(j))
      ensures forall b :: b in logged ==> b in old(logged) || b in Bitmaps(sb) || b == sb.Iblock(inum)
    {
      hide Super.Bblock, Super.Datastart, Used, BitsOk, SlotsOwned, OwnersHold, SlotAddr, Interval, Freed, Covered,
        Contents;
      ok := FreeDirect(inum);
      var ind := inodes[inum].addrs[INDIRECT];
      if ind != 0 {
        ok := FreeIndirect(ind, inum, old(blocks), old(inodes), DirectOf(owner, inum));
        inodes := inodes[inum := inodes[inum].(addrs := inodes[inum].addrs[INDIRECT := 0])];
      } else {
        NoIndirect(sb, old(blocks), old(inodes), owner, inum);
        assert DirectOf(owner, inum) == OwnedOf(owner, inum);
      }
      assert inodes[inum].addrs == EMPTY.addrs;
      inodes := inodes[inum := inodes[inum].(size := 0)];
      assert inodes == old(inodes)[inum := EMPTY];
      FreedDisown(sb, old(blocks), old(inodes), owner, inum, blocks);
      owner := owner - OwnedOf(owner, inum);
      Iupdate(inum);
      EmptyFile(blocks);
    }

    /** itrunc's loop over the indirect block, and its bfree of that block. */
    method FreeIndirect(ind: nat, ghost inum: nat, ghost blocks0: seq<Block>, ghost inodes0: seq<Inode>,
                        ghost gone0: set<nat>) returns (ok: bool)
      requires Inv(sb, blocks0, inodes0, owner) && Freed(sb, blocks0, blocks, gone0) && inum < |inodes0|
      requires ind == inodes0[inum].addrs[INDIRECT] != 0
      requires forall b :: b in gone0 <==> b in owner && owner[b].0 == inum && owner[b].1 < INDIRECT
      modifies `blocks, `logged
      ensures ok && Freed(sb, blocks0, blocks, OwnedOf(owner, inum))
      ensures forall b :: b in logged ==> b in old(logged) || b in Bitmaps(sb)
    {
      hide Super.Bblock, Super.Datastart, Used, BitsOk, SlotsOwned, OwnersHold, Interval, Word;
      IndirectOwned(sb, blocks0, inodes0, owner, inum);
      ghost var gone := gone0;
      var bp := blocks[ind];
      ok := true;
      var j := 0;
      while j < NINDIRECT
        invariant ok && 0 <= j <= NINDIRECT && Freed(sb, blocks0, blocks, gone) && owner == old(owner)
        invariant forall b :: b in gone <==>
          b in owner && owner[b].0 == inum && owner[b].1 < INDIRECT + 1 + j && owner[b].1 != INDIRECT
        invariant forall b :: b in logged ==> b in old(logged) || b in Bitmaps(sb)
      {
        var a := Word(bp, j);
        SlotUnique(sb, blocks0, inodes0, owner, inum, INDIRECT + 1 + j);
        if a != 0 {
          ok := FreeSlot(a, inum, INDIRECT + 1 + j, blocks0, inodes0, gone);
          gone := gone + {a};
        }
        j := j + 1;
      }
      SlotUnique(sb, blocks0, inodes0, owner, inum, INDIRECT);
      ok := FreeSlot(ind, inum, INDIRECT, blocks0, inodes0, gone);
      SlotsBounded(sb, blocks0, inodes0, owner);
      assert gone + {ind} == OwnedOf(owner, inum);
    }

    /** One transaction of filewrite. It logs no more than seven blocks when one bitmap block covers the disk. */
    method WriteTransaction(inum: nat, src: seq<Byte>, off: nat, good: nat) returns (r: int, ghost w: nat)
      requires Valid() && inum < |inodes| && off < UINT && |src| <= CHUNK
      modifies `blocks, `logged, `inodes, `dinodes, `owner
      ensures Valid() && |inodes| == |old(inodes)|
      ensures r == -1 <==> off > old(inodes)[inum].size || off + |src| > MAXBYTES
      ensures r == -1 ==> blocks == old(blocks) && inodes == old(inodes) && logged == {}
      ensures r != -1 ==>
        && 0 <= r <= w <= |src| && w <= good
        && (r < |src| ==> (w == r && Full()) || (w == good < |src| && w < r + BSIZE))
        && File(inum) == Written(old(File(inum)), off, src, r, w)
        && (w == r ==> File(inum) == Overwrite(old(File(inum)), off, src[..r]))
        && sb.Iblock(inum) in logged
      ensures forall j: nat :: j < |inodes| && j != inum ==> inodes[j] == old(inodes)[j] && File(j) == old(File(j))
      ensures sb.size < BPB ==> |logged| <= 7
      ensures r == -1 || w == r ==> ChangesLogged(old(blocks), blocks, logged)
      ensures forall b :: b in logged ==> b == sb.Iblock(inum) || sb.bmapstart <= b < sb.size
    {
      hide Super.Bblock, Super.Datastart, Used, BitsOk, SlotsOwned, OwnersHold, Covered, Contents, InWrite, Overwrite,
        Written, Unlogged;
      logged := {};
      r, w := Writei(inum, src, off, good);
      if r >= 0 {
        if sb.size < BPB {
          ChunkLogsSeven(sb, blocks, inodes[inum], inum, off, |src|, logged);
        }
        forall b | b in logged && b != sb.Iblock(inum)
          ensures sb.bmapstart <= b < sb.size
        {
          InWriteHome(sb, blocks, inodes, owner, inum, off, |src|, b);
        }
      }
    }

    /** filewrite on an inode: chunks of at most three blocks, each a transaction of its own. off is f->off; the copy
        from the caller reaches `good` bytes of src, and w bytes reach the file's blocks. */
    method Filewrite(inum: nat, off: nat, src: seq<Byte>, good: nat) returns (ret: int, newoff: nat, ghost w: nat)
      requires Valid() && inum < |inodes| && off < UINT && |src| < UINT / 2
      modifies `blocks, `logged, `inodes, `dinodes, `owner
      ensures Valid() && |inodes| == |old(inodes)|
      ensures off <= newoff <= off + w <= off + |src| && w <= good && ret == if newoff == off + |src| then |src| else -1
      ensures newoff < off + |src| ==>
        || off > old(inodes)[inum].size
        || (Full() && newoff == off + w)
        || newoff + Min(off + |src| - newoff, CHUNK) > MAXBYTES
        || (w == good < |src| && off + w < newoff + BSIZE)
      ensures off > old(inodes)[inum].size ==> newoff == off && File(inum) == old(File(inum))
      ensures off <= old(inodes)[inum].size ==> File(inum) == Written(old(File(inum)), off, src, newoff - off, w)
      ensures forall j: nat :: j < |inodes| && j != inum ==> File(j) == old(File(j))
    {
      hide Inv, Covered, Contents, Advanced, Overwrite, Written, Full;
      ghost var c := File(inum);
      assert |c| == inodes[inum].size;
      var i := 0;
      AdvancedNone(c, off, src);
      while i < |src|
        invariant 0 <= i <= |src| && i <= good && (i > 0 ==> off + i <= MAXBYTES)
        invariant Valid() && |inodes| == |old(inodes)| && Advanced(File(inum), c, off, src, i, i)
        invariant forall j: nat :: j < |inodes| && j != inum ==> File(j) == old(File(j))
      {
        var n1 := |src| - i;
        if n1 > CHUNK {
          n1 := CHUNK;
        }
        var r;
        r, w := WriteNext(inum, off, src, i, n1, good, c);
        if r != n1 {
          newoff := off + i + if r > 0 then r else 0;
          AdvancedIs(File(inum), c, off, src, newoff - off, w);
          return -1, newoff, w;
        }
        i := i + r;
      }
      AdvancedIs(File(inum), c, off, src, i, i);
      return |src|, off + |src|, |src|;
    }

    /** One turn of filewrite's loop. */
    method WriteNext(inum: nat, off: nat, src: seq<Byte>, i: nat, n1: nat, good: nat, ghost c: seq<Byte>)
      returns (r: int, ghost w: nat)
      requires Valid() && inum < |inodes| && off + i < UINT && i + n1 <= |src| && 0 < n1 <= CHUNK && i <= good
      requires Advanced(File(inum), c, off, src, i, i)
      modifies `blocks, `logged, `inodes, `dinodes, `owner
      ensures Valid() && |inodes| == |old(inodes)|
      ensures -1 <= r <= n1 && i + Max(r, 0) <= w <= |src| && w <= good
      ensures r == n1 ==> w == i + n1 && off + w <= MAXBYTES
      ensures r < n1 ==>
        || off > |c|
        || (Full() && w == i + Max(r, 0))
        || off + i + Max(r, 0) + Min(|src| - i - Max(r, 0), CHUNK) > MAXBYTES
        || (w == good < |src| && w < i + Max(r, 0) + BSIZE)
      ensures Advanced(File(inum), c, off, src, i + Max(r, 0), w)
      ensures forall j: nat :: j < |inodes| && j != inum ==> File(j) == old(File(j))
    {
      hide Inv, Covered, Contents, Advanced, Overwrite, Written;
      ghost var f := File(inum);
      assert |f| == inodes[inum].size;
      r, w := WriteTransaction(inum, src[i..i + n1], off + i, good - i);
      AdvancedEnd(f, c, off, src, i);
      if r >= 0 {
        AdvancedStep(f, c, off, src, i, n1, r, w);
        w := i + w;
      } else {
        w := i;
      }
    }
  }
}
