/** mkfs: the image it writes, file by file, with its bitmap, and the state that file operations start from. */
module Mkfs {
  import opened Blocks
  import opened Collections
  import opened Bitmap
  import opened Files
  import opened Fs
  import opened Dir

  lemma {:induction false} NoBits(i: nat)
    ensures !BitOn(0, i)
  {
    if i > 0 {
      NoBits(i - 1);
    }
  }

  lemma ZeroBits(k: nat)
    requires k < BPB
    ensures !IsSet(ZeroBlock(), k)
  {
    NoBits(k % 8);
  }

  /** A bitmap block with the first n bits set. */
  function BitmapOf(n: nat): Block
    requires n <= BPB
    decreases n, 0
  {
    if n == 0 then ZeroBlock()
    else
      BitmapBits(n - 1, n - 1);
      MarkBit(BitmapOf(n - 1), n - 1)
  }

  lemma {:induction false} BitmapBits(n: nat, k: nat)
    requires n <= BPB && k < BPB
    ensures IsSet(BitmapOf(n), k) <==> k < n
    decreases n, 1
  {
    hide IsSet, MarkBit;
    if n == 0 {
      ZeroBits(k);
    } else {
      BitmapBits(n - 1, n - 1);
      BitmapBits(n - 1, k);
      SetBits(BitmapOf(n - 1), n - 1, k);
    }
  }

  /** mkfs's balloc: a bitmap block with the first `used` bits set. */
  method BitmapBlock(used: nat) returns (buf: Block)
    requires used < BPB
    ensures buf == BitmapOf(used)
    ensures forall k: nat :: k < BPB ==> (IsSet(buf, k) <==> k < used)
  {
    hide IsSet, MarkBit;
    buf := ZeroBlock();
    var i := 0;
    while i < used
      invariant 0 <= i <= used && buf == BitmapOf(i)
    {
      BitmapBits(i, i);
      buf := MarkBit(buf, i);
      i := i + 1;
    }
    forall k: nat | k < BPB
      ensures IsSet(buf, k) <==> k < used
    {
      BitmapBits(used, k);
    }
  }

  /** The blocks that a file of the given size takes, its indirect block included. */
  function BlocksFor(size: nat): nat {
    (size + BSIZE - 1) / BSIZE + if size > NDIRECT * BSIZE then 1 else 0
  }

  lemma MoreBlocks(size: nat, size': nat)
    requires size <= size'
    ensures BlocksFor(size) <= BlocksFor(size')
  {
  }

  /** The blocks taken by bytes that end in the block where they begin. */
  lemma TurnBlocks(off: nat, m: nat)
    requires 0 < m <= BSIZE - off % BSIZE
    ensures BlocksFor(off + m) - BlocksFor(off) == Need(off)
  {
    assert off == off / BSIZE * BSIZE + off % BSIZE;
    assert (off + m + BSIZE - 1) / BSIZE == off / BSIZE + 1;
  }

  /** The first n bytes of a file have blocks and the others have none; they read as zero. */
  ghost predicate TightTo(blocks: seq<Block>, ino: Inode, n: nat) {
    && |ino.addrs| == NDIRECT + 1 && n <= MAXBYTES
    && (forall bn: nat :: bn < MAXFILE ==> (DataAddr(blocks, ino, bn) != 0 <==> bn * BSIZE < n))
    && (ino.addrs[INDIRECT] != 0 <==> n > NDIRECT * BSIZE)
    && (forall k: nat :: n <= k < MAXBYTES ==> FileByte(blocks, ino, k) == 0)
  }

  /** The image with the bitmap that mkfs writes last. */
  function Marked(sb: Super, blocks: seq<Block>, freeblock: nat): (r: seq<Block>)
    requires sb.bmapstart < |blocks| && freeblock <= BPB
    ensures |r| == |blocks| && forall b :: 0 <= b < |blocks| && b != sb.bmapstart ==> r[b] == blocks[b]
  {
    blocks[sb.bmapstart := BitmapOf(freeblock)]
  }

  /** The blocks from Datastart up to freeblock are owned, each by one slot; those after them, and those before the
      bitmap, have not been written since the disk was zeroed. */
  ghost predicate LaidOut(sb: Super, blocks: seq<Block>, inodes: seq<Inode>, owner: Owner, freeblock: nat) {
    && sb.Good() && |blocks| == sb.size < BPB && sb.Datastart() <= freeblock <= sb.size
    && Inv(sb, Marked(sb, blocks, freeblock), inodes, owner)
    && (forall b :: b in owner <==> sb.Datastart() <= b < freeblock)
    && (forall b :: 0 <= b < sb.size && !(sb.bmapstart <= b < freeblock) ==> blocks[b] == ZeroBlock())
  }

  /** A new owner of one slot is all that changes about what slots list. */
  lemma SlotsExcept(sb: Super, blocks: seq<Block>, inodes: seq<Inode>, owner: Owner, blocks': seq<Block>,
                    inodes': seq<Inode>, b: nat, i: nat, s: nat, j: nat, t: nat)
    requires Inv(sb, blocks, inodes, owner) && b !in owner && |inodes'| == |inodes| && i < |inodes| && s < NSLOT
    requires Inv(sb, blocks', inodes', owner[b := (i, s)]) && j < |inodes| && t < NSLOT
    ensures SlotAddr(blocks', inodes'[j], t) == if j == i && t == s then b else SlotAddr(blocks, inodes[j], t)
  {
    hide Super.Bblock, Super.Datastart, Used, BitsOk, SlotAddr;
    var owner' := owner[b := (i, s)];
    var a, a' := SlotAddr(blocks, inodes[j], t), SlotAddr(blocks', inodes'[j], t);
    assert OwnedBy(owner, a, j, t) && OwnedBy(owner', a', j, t);
    assert b in owner' && SlotAddr(blocks', inodes'[i], s) == b;
    assert a != 0 ==> a in owner';
    assert a' != 0 && a' != b ==> a' in owner;
  }

  /** A zeroed block in an empty slot changes no byte of any file. */
  lemma AllocBytes(sb: Super, blocks: seq<Block>, inodes: seq<Inode>, owner: Owner, blocks': seq<Block>,
                   inodes': seq<Inode>, b: nat, i: nat, s: nat, j: nat, k: nat)
    requires Inv(sb, blocks, inodes, owner) && b !in owner && |inodes'| == |inodes| && i < |inodes| && s < NSLOT
    requires Inv(sb, blocks', inodes', owner[b := (i, s)]) && j < |inodes| && k < MAXBYTES
    requires Grows(blocks, inodes, owner, blocks', inodes', owner[b := (i, s)])
    requires SlotAddr(blocks, inodes[i], s) == 0 && b < |blocks'| && blocks'[b] == ZeroBlock()
    ensures FileByte(blocks', inodes'[j], k) == FileByte(blocks, inodes[j], k)
  {
    hide Super.Bblock, Super.Datastart, Used, BitsOk, SlotAddr, SlotsOwned, OwnersHold, Grows;
    SlotsExcept(sb, blocks, inodes, owner, blocks', inodes', b, i, s, j, DataSlot(k / BSIZE));
    if DataAddr(blocks, inodes[j], k / BSIZE) != 0 {
      GrowByte(sb, blocks, inodes, owner, blocks', inodes', owner[b := (i, s)], j, k);
    }
  }

  /** Marking the next block in the bitmap. */
  lemma MarkNext(sb: Super, blocks: seq<Block>, inodes: seq<Inode>, owner: Owner, fb: nat)
    requires LaidOut(sb, blocks, inodes, owner, fb) && fb < sb.size
    ensures !Used(sb, Marked(sb, blocks, fb), fb)
    ensures MarkAndZero(sb, Marked(sb, blocks, fb), fb) == Marked(sb, blocks, fb + 1)
  {
    hide IsSet, MarkBit, SlotsOwned, OwnersHold;
    assert fb / BPB == 0 && fb % BPB == fb && sb.Bblock(fb) == sb.bmapstart;
    BitmapBits(fb, fb);
    var m, n := MarkAndZero(sb, Marked(sb, blocks, fb), fb), Marked(sb, blocks, fb + 1);
    forall b | 0 <= b < |m|
      ensures m[b] == n[b]
    {
    }
  }

  /** freeblock++ into an empty slot: that slot lists the block, and no other slot, size or byte of a file changes. */
  ghost predicate Taken(sb: Super, blocks: seq<Block>, inodes: seq<Inode>, owner: Owner, fb: nat, blocks': seq<Block>,
                        inodes': seq<Inode>, owner': Owner, i: nat, s: nat)
    requires LaidOut(sb, blocks, inodes, owner, fb)
  {
    && LaidOut(sb, blocks', inodes', owner', fb + 1) && |inodes'| == |inodes| && owner' == owner[fb := (i, s)]
    && (forall j: nat :: j < |inodes| ==> inodes'[j].size == inodes[j].size && (j != i ==> inodes'[j] == inodes[j]))
    && (forall j: nat, t: nat :: j < |inodes| && t < NSLOT ==>
         SlotAddr(Marked(sb, blocks', fb + 1), inodes'[j], t) ==
         if j == i && t == s then fb else SlotAddr(Marked(sb, blocks, fb), inodes[j], t))
    && (forall j: nat, k: nat :: j < |inodes| && k < MAXBYTES ==>
         FileByte(Marked(sb, blocks', fb + 1), inodes'[j], k) == FileByte(Marked(sb, blocks, fb), inodes[j], k))
  }

  /** Why one more owner makes it so. */
  lemma TakenBy(sb: Super, blocks: seq<Block>, inodes: seq<Inode>, owner: Owner, fb: nat, blocks': seq<Block>,
                inodes': seq<Inode>, i: nat, s: nat)
    requires LaidOut(sb, blocks, inodes, owner, fb) && i < |inodes| && s < NSLOT && fb < sb.size
    requires LaidOut(sb, blocks', inodes', owner[fb := (i, s)], fb + 1)
    requires SlotAddr(Marked(sb, blocks, fb), inodes[i], s) == 0 && blocks'[fb] == ZeroBlock()
    requires Grows(Marked(sb, blocks, fb), inodes, owner, Marked(sb, blocks', fb + 1), inodes', owner[fb := (i, s)])
    requires forall j: nat :: j < |inodes| && j != i ==> inodes'[j] == inodes[j]
    ensures Taken(sb, blocks, inodes, owner, fb, blocks', inodes', owner[fb := (i, s)], i, s)
  {
    hide Super.Bblock, Used, SlotAddr, FileByte, BitsOk, SlotsOwned, OwnersHold, BitmapOf;
    var m, m' := Marked(sb, blocks, fb), Marked(sb, blocks', fb + 1);
    forall j: nat, t: nat | j < |inodes| && t < NSLOT
      ensures SlotAddr(m', inodes'[j], t) == if j == i && t == s then fb else SlotAddr(m, inodes[j], t)
    {
      SlotsExcept(sb, m, inodes, owner, m', inodes', fb, i, s, j, t);
    }
    forall j: nat, k: nat | j < |inodes| && k < MAXBYTES
      ensures FileByte(m', inodes'[j], k) == FileByte(m, inodes[j], k)
    {
      AllocBytes(sb, m, inodes, owner, m', inodes', fb, i, s, j, k);
    }
  }

  lemma TakeInInode(sb: Super, blocks: seq<Block>, inodes: seq<Inode>, owner: Owner, fb: nat, i: nat, s: nat)
    requires LaidOut(sb, blocks, inodes, owner, fb) && fb < sb.size
    requires i < |inodes| && s <= INDIRECT && |inodes[i].addrs| == NDIRECT + 1 && inodes[i].addrs[s] == 0
    ensures Taken(sb, blocks, inodes, owner, fb, blocks, inodes[i := WithAddr(inodes[i], s, fb)], owner[fb := (i, s)],
                  i, s)
  {
    hide Super.Bblock, Used, SlotAddr, FileByte, Inv, BitmapOf, Taken, MarkAndZero;
    MarkNext(sb, blocks, inodes, owner, fb);
    DirectSlot(Marked(sb, blocks, fb), inodes[i], s);
    InodeGrows(sb, Marked(sb, blocks, fb), inodes, owner, fb, i, s);
    TakenBy(sb, blocks, inodes, owner, fb, blocks, inodes[i := WithAddr(inodes[i], s, fb)], i, s);
  }

  lemma TakeInBlock(sb: Super, blocks: seq<Block>, inodes: seq<Inode>, owner: Owner, fb: nat, i: nat, s: nat)
    requires LaidOut(sb, blocks, inodes, owner, fb) && fb < sb.size
    requires i < |inodes| && INDIRECT < s < NSLOT && |inodes[i].addrs| == NDIRECT + 1 && inodes[i].addrs[INDIRECT] != 0
    requires SlotAddr(Marked(sb, blocks, fb), inodes[i], s) == 0
    ensures var ind := inodes[i].addrs[INDIRECT];
      && ind < |blocks|
      && var blocks' := blocks[ind := SetWord(blocks[ind], s - INDIRECT - 1, fb)];
         Taken(sb, blocks, inodes, owner, fb, blocks', inodes, owner[fb := (i, s)], i, s)
  {
    hide Super.Bblock, Used, SlotAddr, FileByte, Inv, BitmapOf, Taken, MarkAndZero, SetWord;
    var ind := inodes[i].addrs[INDIRECT];
    MarkNext(sb, blocks, inodes, owner, fb);
    IndirectOwned(sb, Marked(sb, blocks, fb), inodes, owner, i);
    BlockGrows(sb, Marked(sb, blocks, fb), inodes, owner, fb, i, s);
    var blocks' := blocks[ind := SetWord(blocks[ind], s - INDIRECT - 1, fb)];
    var m := Marked(sb, blocks, fb + 1);
    assert m[ind := SetWord(m[ind], s - INDIRECT - 1, fb)] == Marked(sb, blocks', fb + 1);
    TakenBy(sb, blocks, inodes, owner, fb, blocks', inodes, i, s);
  }

  /** What iappend's choice of a block for the bn-th block of file i leaves: a block in that place, and no other place,
      size or byte of a file different. */
  ghost predicate Placed(blocks: seq<Block>, inodes: seq<Inode>, blocks': seq<Block>, inodes': seq<Inode>, i: nat,
                         bn: nat) {
    && |inodes'| == |inodes| && i < |inodes| && bn < MAXFILE
    && (forall j: nat :: j < |inodes| ==>
         && |inodes[j].addrs| == NDIRECT + 1 == |inodes'[j].addrs| && inodes'[j].size == inodes[j].size
         && (j != i ==> inodes'[j] == inodes[j]))
    && (forall j: nat, n: nat :: j < |inodes| && n < MAXFILE && !(j == i && n == bn) ==>
         DataAddr(blocks', inodes'[j], n) == DataAddr(blocks, inodes[j], n))
    && DataAddr(blocks', inodes'[i], bn) != 0
    && (forall j: nat, k: nat :: j < |inodes| && k < MAXBYTES ==>
         FileByte(blocks', inodes'[j], k) == FileByte(blocks, inodes[j], k))
    && (inodes'[i].addrs[INDIRECT] != 0 <==> inodes[i].addrs[INDIRECT] != 0 || bn >= NDIRECT)
    && (inodes[i].addrs[INDIRECT] != 0 ==> inodes'[i].addrs[INDIRECT] == inodes[i].addrs[INDIRECT])
  }

  lemma PlacedKept(blocks: seq<Block>, inodes: seq<Inode>, blocks': seq<Block>, inodes': seq<Inode>, i: nat, bn: nat,
                   pos: nat)
    requires Placed(blocks, inodes, blocks', inodes', i, bn)
    requires DataAddr(blocks, inodes[i], bn) != 0 ==>
      DataAddr(blocks', inodes'[i], bn) == DataAddr(blocks, inodes[i], bn)
    ensures Kept(blocks, inodes, blocks', inodes', i, pos, pos)
  {
    hide DataAddr, FileByte;
  }

  /** A data block taken. */
  lemma DataTaken(sb: Super, blocks: seq<Block>, inodes: seq<Inode>, owner: Owner, fb: nat, blocks': seq<Block>,
                  inodes': seq<Inode>, owner': Owner, i: nat, bn: nat)
    requires LaidOut(sb, blocks, inodes, owner, fb) && i < |inodes| && bn < MAXFILE
    requires Taken(sb, blocks, inodes, owner, fb, blocks', inodes', owner', i, DataSlot(bn))
    requires bn >= NDIRECT ==> inodes[i].addrs[INDIRECT] != 0
    ensures LaidOut(sb, blocks', inodes', owner', fb + 1)
    ensures Placed(Marked(sb, blocks, fb), inodes, Marked(sb, blocks', fb + 1), inodes', i, bn)
    ensures DataAddr(Marked(sb, blocks', fb + 1), inodes'[i], bn) == fb
  {
    hide Super.Bblock, Used, SlotAddr, FileByte, BitsOk, SlotsOwned, OwnersHold, BitmapOf;
    var m, m' := Marked(sb, blocks, fb), Marked(sb, blocks', fb + 1);
    forall j: nat, n: nat | j < |inodes| && n < MAXFILE
      ensures DataAddr(m', inodes'[j], n) == if j == i && n == bn then fb else DataAddr(m, inodes[j], n)
    {
      var t := DataSlot(n);
      assert (t == DataSlot(bn) <==> n == bn) && t < NSLOT;
      SlotsExcept(sb, m, inodes, owner, m', inodes', fb, i, DataSlot(bn), j, t);
    }
    DirectSlot(m, inodes[i], INDIRECT);
    DirectSlot(m', inodes'[i], INDIRECT);
    assert DataSlot(bn) != INDIRECT;
  }

  /** The indirect block taken, then a data block. */
  lemma BothTaken(sb: Super, b0: seq<Block>, i0: seq<Inode>, o0: Owner, fb: nat, b1: seq<Block>, i1: seq<Inode>,
                  o1: Owner, b2: seq<Block>, i2: seq<Inode>, i: nat, bn: nat)
    requires LaidOut(sb, b0, i0, o0, fb) && i < |i0| && NDIRECT <= bn < MAXFILE
    requires |i0[i].addrs| == NDIRECT + 1 && i0[i].addrs[INDIRECT] == 0
    requires Taken(sb, b0, i0, o0, fb, b1, i1, o1, i, INDIRECT)
    requires |b2| == |b0| && fb + 2 <= BPB && Placed(Marked(sb, b1, fb + 1), i1, Marked(sb, b2, fb + 2), i2, i, bn)
    ensures Placed(Marked(sb, b0, fb), i0, Marked(sb, b2, fb + 2), i2, i, bn)
  {
    hide Super.Bblock, Used, SlotAddr, FileByte, BitsOk, SlotsOwned, OwnersHold, BitmapOf;
    var m0, m1 := Marked(sb, b0, fb), Marked(sb, b1, fb + 1);
    forall j: nat, n: nat | j < |i0| && n < MAXFILE
      ensures DataAddr(m1, i1[j], n) == DataAddr(m0, i0[j], n)
    {
      assert DataSlot(n) != INDIRECT;
    }
  }

  lemma NothingTaken(blocks: seq<Block>, inodes: seq<Inode>, i: nat, bn: nat)
    requires i < |inodes| && bn < MAXFILE && forall j: nat :: j < |inodes| ==> |inodes[j].addrs| == NDIRECT + 1
    requires DataAddr(blocks, inodes[i], bn) != 0 && (bn >= NDIRECT ==> inodes[i].addrs[INDIRECT] != 0)
    ensures Placed(blocks, inodes, blocks, inodes, i, bn)
  {
    hide DataAddr, FileByte;
  }

  lemma SameData(blocks: seq<Block>, blocks': seq<Block>, inodes: seq<Inode>, j: nat)
    requires j < |inodes| && forall i :: 0 <= i < |inodes| ==> |inodes[i].addrs| == NDIRECT + 1
    requires forall i: nat, s: nat :: i < |inodes| && s < NSLOT ==>
      SlotAddr(blocks', inodes[i], s) == SlotAddr(blocks, inodes[i], s)
    ensures forall bn: nat :: bn < MAXFILE ==> DataAddr(blocks', inodes[j], bn) == DataAddr(blocks, inodes[j], bn)
  {
    hide SlotAddr;
    forall bn: nat | bn < MAXFILE
      ensures DataAddr(blocks', inodes[j], bn) == DataAddr(blocks, inodes[j], bn)
    {
      assert DataSlot(bn) < NSLOT;
    }
  }

  /** The bytes copied into the block extend the file by as much. */
  lemma PatchTight(sb: Super, blocks: seq<Block>, inodes: seq<Inode>, owner: Owner, i: nat, off: nat, data: seq<Byte>)
    requires Inv(sb, blocks, inodes, owner) && i < |inodes| && 0 < |data| <= BSIZE - off % BSIZE
      && off + |data| <= MAXBYTES
    requires forall bn: nat :: bn < MAXFILE && bn != off / BSIZE ==>
      (DataAddr(blocks, inodes[i], bn) != 0 <==> bn * BSIZE < off)
    requires DataAddr(blocks, inodes[i], off / BSIZE) != 0
    requires inodes[i].addrs[INDIRECT] != 0 <==> off + |data| > NDIRECT * BSIZE
    requires forall k: nat :: off <= k < MAXBYTES ==> FileByte(blocks, inodes[i], k) == 0
    ensures var a := DataAddr(blocks, inodes[i], off / BSIZE);
      a < |blocks| && TightTo(blocks[a := Patch(blocks[a], off % BSIZE, data)], inodes[i], off + |data|)
  {
    hide Super.Bblock, Super.Datastart, Used, BitsOk, SlotsOwned, OwnersHold, SlotAddr, FileByte;
    var a := DataAddr(blocks, inodes[i], off / BSIZE);
    DataBlock(sb, blocks, inodes, owner, i, off / BSIZE);
    var x := Patch(blocks[a], off % BSIZE, data);
    WriteKeeps(sb, blocks, inodes, owner, a, x);
    SameData(blocks, blocks[a := x], inodes, i);
    hide DataAddr;
    forall bn: nat | bn < MAXFILE
      ensures bn != off / BSIZE ==> (bn * BSIZE < off <==> bn * BSIZE < off + |data|)
      ensures bn == off / BSIZE ==> bn * BSIZE < off + |data|
    {
    }
    var blocks' := blocks[a := x];
    forall k: nat | off + |data| <= k < MAXBYTES
      ensures FileByte(blocks', inodes[i], k) == 0
    {
      PatchByte(sb, blocks, inodes, owner, i, off / BSIZE, x, i, k);
      InBlock(off, |data|, k);
      BlockByte(blocks, inodes[i], k);
    }
  }

  /** ... and leave the other files as they are. */
  lemma PatchOthers(sb: Super, blocks: seq<Block>, inodes: seq<Inode>, owner: Owner, i: nat, bn: nat, x: Block,
                    j: nat, n: nat)
    requires Inv(sb, blocks, inodes, owner) && i < |inodes| && bn < MAXFILE && DataAddr(blocks, inodes[i], bn) != 0
    requires j < |inodes| && j != i && TightTo(blocks, inodes[j], n)
    ensures var a := DataAddr(blocks, inodes[i], bn); a < |blocks| && TightTo(blocks[a := x], inodes[j], n)
  {
    hide Super.Bblock, Super.Datastart, Used, BitsOk, SlotsOwned, OwnersHold, SlotAddr, FileByte;
    var a := DataAddr(blocks, inodes[i], bn);
    DataBlock(sb, blocks, inodes, owner, i, bn);
    WriteKeeps(sb, blocks, inodes, owner, a, x);
    SameData(blocks, blocks[a := x], inodes, j);
    hide DataAddr;
    var blocks' := blocks[a := x];
    forall k: nat | n <= k < MAXBYTES
      ensures FileByte(blocks', inodes[j], k) == 0
    {
      PatchByte(sb, blocks, inodes, owner, i, bn, x, j, k);
    }
  }

  /** Writing a block in use keeps the layout. */
  lemma PatchLaid(sb: Super, blocks: seq<Block>, inodes: seq<Inode>, owner: Owner, fb: nat, a: nat, x: Block)
    requires LaidOut(sb, blocks, inodes, owner, fb) && a in owner && owner[a].1 != INDIRECT
    ensures a < |blocks| && a != sb.bmapstart && LaidOut(sb, blocks[a := x], inodes, owner, fb)
    ensures Marked(sb, blocks[a := x], fb) == Marked(sb, blocks, fb)[a := x]
  {
    hide Super.Bblock, Used, BitsOk, SlotsOwned, OwnersHold, BitmapOf;
    WriteKeeps(sb, Marked(sb, blocks, fb), inodes, owner, a, x);
    assert Marked(sb, blocks[a := x], fb) == Marked(sb, blocks, fb)[a := x];
  }

  /** Of a file that ended at off, when the block there has been chosen. */
  lemma PlacedTight(d0: seq<Block>, i0: seq<Inode>, d: seq<Block>, inodes: seq<Inode>, i: nat, off: nat, n: nat)
    requires Placed(d0, i0, d, inodes, i, off / BSIZE) && TightTo(d0, i0[i], off)
    requires 0 < n <= BSIZE - off % BSIZE && off + n <= MAXBYTES
    ensures forall bn: nat :: bn < MAXFILE && bn != off / BSIZE ==>
      (DataAddr(d, inodes[i], bn) != 0 <==> bn * BSIZE < off)
    ensures inodes[i].addrs[INDIRECT] != 0 <==> off + n > NDIRECT * BSIZE
    ensures forall k: nat :: off <= k < MAXBYTES ==> FileByte(d, inodes[i], k) == 0
  {
    hide DataAddr, FileByte;
    assert off + n > NDIRECT * BSIZE <==> off / BSIZE >= NDIRECT;
  }

  lemma PlacedOther(d0: seq<Block>, i0: seq<Inode>, d: seq<Block>, inodes: seq<Inode>, i: nat, bn: nat, j: nat, n: nat)
    requires Placed(d0, i0, d, inodes, i, bn) && j < |i0| && j != i && TightTo(d0, i0[j], n)
    ensures TightTo(d, inodes[j], n)
  {
    hide DataAddr, FileByte;
  }

  lemma SameBlock(d0: seq<Block>, i0: seq<Inode>, d: seq<Block>, inodes: seq<Inode>, i: nat, off: nat)
    requires Placed(d0, i0, d, inodes, i, off / BSIZE) && TightTo(d0, i0[i], off) && off < MAXBYTES
    requires Need(off) == 0 ==> DataAddr(d, inodes[i], off / BSIZE) == DataAddr(d0, i0[i], off / BSIZE)
    ensures Kept(d0, i0, d, inodes, i, off, off)
  {
    TightAt(d0, i0[i], off);
    hide Placed, DataAddr, Need, TightTo;
    PlacedKept(d0, i0, d, inodes, i, off / BSIZE, off);
  }

  /** bcopy into the block chosen: the file ends past the bytes, and nothing else has changed. */
  lemma Copied(sb: Super, blocks: seq<Block>, inodes: seq<Inode>, owner: Owner, fb: nat, d0: seq<Block>,
               i0: seq<Inode>, i: nat, off: nat, data: seq<Byte>)
    requires LaidOut(sb, blocks, inodes, owner, fb) && i < |inodes| && i < |i0|
    requires 0 < |data| <= BSIZE - off % BSIZE && off + |data| <= MAXBYTES
    requires Placed(d0, i0, Marked(sb, blocks, fb), inodes, i, off / BSIZE)
    requires Need(off) == 0 ==>
      DataAddr(Marked(sb, blocks, fb), inodes[i], off / BSIZE) == DataAddr(d0, i0[i], off / BSIZE)
    requires forall j: nat :: j < |i0| ==> TightTo(d0, i0[j], if j == i then off else i0[j].size)
    ensures var x := DataAddr(Marked(sb, blocks, fb), inodes[i], off / BSIZE);
      && x < |blocks|
      && var blocks' := blocks[x := Patch(blocks[x], off % BSIZE, data)];
         CopyDone(sb, blocks', inodes, owner, fb, d0, i0, i, off, data)
  {
    var d := Marked(sb, blocks, fb);
    var x := DataAddr(d, inodes[i], off / BSIZE);
    assert Inv(sb, d, inodes, owner);
    PlacedAt(d0, i0, d, inodes, i, off / BSIZE);
    hide Inv, LaidOut, TightTo, Kept, DataAddr, Need, Placed, Marked, FileByte;
    DataBlock(sb, d, inodes, owner, i, off / BSIZE);
    var y := Patch(blocks[x], off % BSIZE, data);
    PatchLaid(sb, blocks, inodes, owner, fb, x, y);
    assert d[x] == blocks[x];
    var d' := Marked(sb, blocks[x := y], fb);
    FileCopied(sb, d, inodes, owner, d0, i0, i, off, data);
    forall j: nat | j < |inodes| && j != i
      ensures TightTo(d', inodes[j], inodes[j].size)
    {
      OtherCopied(sb, d, inodes, owner, d0, i0, i, off / BSIZE, y, j);
    }
  }

  lemma FileCopied(sb: Super, d: seq<Block>, inodes: seq<Inode>, owner: Owner, d0: seq<Block>, i0: seq<Inode>, i: nat,
                   off: nat, data: seq<Byte>)
    requires Inv(sb, d, inodes, owner) && Placed(d0, i0, d, inodes, i, off / BSIZE) && TightTo(d0, i0[i], off)
    requires 0 < |data| <= BSIZE - off % BSIZE && off + |data| <= MAXBYTES
    requires Need(off) == 0 ==> DataAddr(d, inodes[i], off / BSIZE) == DataAddr(d0, i0[i], off / BSIZE)
    ensures var x := DataAddr(d, inodes[i], off / BSIZE);
      && x < |d|
      && var d' := d[x := Patch(d[x], off % BSIZE, data)];
      && TightTo(d', inodes[i], off + |data|) && Kept(d0, i0, d', inodes, i, off, off + |data|)
      && forall k: nat :: off <= k < off + |data| ==> FileByte(d', inodes[i], k) == data[k - off]
  {
    PlacedAt(d0, i0, d, inodes, i, off / BSIZE);
    hide Inv, TightTo, Kept, DataAddr, Need, Placed, FileByte;
    PlacedTight(d0, i0, d, inodes, i, off, |data|);
    PatchTight(sb, d, inodes, owner, i, off, data);
    PatchKept(sb, d, inodes, owner, i, off, data);
    SameBlock(d0, i0, d, inodes, i, off);
    var x := DataAddr(d, inodes[i], off / BSIZE);
    KeptTransitive(d0, i0, d, inodes, d[x := Patch(d[x], off % BSIZE, data)], inodes, i, off, off, off + |data|);
  }

  lemma OtherCopied(sb: Super, d: seq<Block>, inodes: seq<Inode>, owner: Owner, d0: seq<Block>, i0: seq<Inode>,
                    i: nat, bn: nat, y: Block, j: nat)
    requires Inv(sb, d, inodes, owner) && Placed(d0, i0, d, inodes, i, bn) && j < |i0| && j != i
    requires TightTo(d0, i0[j], i0[j].size)
    ensures var x := DataAddr(d, inodes[i], bn); x < |d| && TightTo(d[x := y], inodes[j], inodes[j].size)
  {
    PlacedAt(d0, i0, d, inodes, i, bn);
    hide Inv, TightTo, DataAddr, Placed;
    PlacedOther(d0, i0, d, inodes, i, bn, j, i0[j].size);
    PatchOthers(sb, d, inodes, owner, i, bn, y, j, i0[j].size);
  }

  ghost predicate CopyDone(sb: Super, blocks: seq<Block>, inodes: seq<Inode>, owner: Owner, fb: nat, d0: seq<Block>,
                           i0: seq<Inode>, i: nat, off: nat, data: seq<Byte>)
    requires i < |i0| && i < |inodes| && off + |data| <= MAXBYTES
  {
    && LaidOut(sb, blocks, inodes, owner, fb)
    && (forall j: nat :: j < |inodes| ==>
         TightTo(Marked(sb, blocks, fb), inodes[j], if j == i then off + |data| else inodes[j].size))
    && |inodes| == |i0| && inodes == i0[i := inodes[i]] && inodes[i].size == i0[i].size
    && Kept(d0, i0, Marked(sb, blocks, fb), inodes, i, off, off + |data|)
    && |inodes[i].addrs| == NDIRECT + 1
    && forall k: nat :: off <= k < off + |data| ==> FileByte(Marked(sb, blocks, fb), inodes[i], k) == data[k - off]
  }

  lemma TightCovered(blocks: seq<Block>, ino: Inode, n: nat)
    requires TightTo(blocks, ino, n)
    ensures Covered(blocks, ino, n)
  {
    hide DataAddr, FileByte;
  }

  /** The size of an inode says nothing about its blocks. */
  lemma ResizeTight(blocks: seq<Block>, ino: Inode, n: nat, size: nat)
    requires TightTo(blocks, ino, n)
    ensures TightTo(blocks, ino.(size := size), n)
  {
    var ino' := ino.(size := size);
    forall bn: nat | bn < MAXFILE
      ensures DataAddr(blocks, ino', bn) == DataAddr(blocks, ino, bn)
    {
    }
    hide DataAddr;
    assert forall k: nat :: k < MAXBYTES ==> FileByte(blocks, ino', k) == FileByte(blocks, ino, k);
  }

  lemma ResizeLaid(sb: Super, blocks: seq<Block>, inodes: seq<Inode>, owner: Owner, fb: nat, i: nat, size: nat)
    requires LaidOut(sb, blocks, inodes, owner, fb) && i < |inodes|
    ensures LaidOut(sb, blocks, inodes[i := inodes[i].(size := size)], owner, fb)
  {
    hide Inv;
    ResizeKeeps(sb, Marked(sb, blocks, fb), inodes, owner, i, size);
  }

  /** With the size written, the file is the old one and the bytes. */
  lemma Appends(sb: Super, blocks: seq<Block>, inodes: seq<Inode>, owner: Owner, fb: nat, d0: seq<Block>,
                i0: seq<Inode>, i: nat, data: seq<Byte>)
    requires LaidOut(sb, blocks, inodes, owner, fb) && i < |i0| == |inodes| && inodes == i0[i := inodes[i]]
    requires inodes[i].size == i0[i].size && i0[i].size + |data| <= MAXBYTES && |inodes[i].addrs| == NDIRECT + 1
    requires forall j: nat :: j < |i0| ==> TightTo(d0, i0[j], i0[j].size)
    requires forall j: nat :: j < |i0| ==>
      TightTo(Marked(sb, blocks, fb), inodes[j], if j == i then i0[i].size + |data| else inodes[j].size)
    requires Kept(d0, i0, Marked(sb, blocks, fb), inodes, i, i0[i].size, i0[i].size + |data|)
    requires forall k: nat :: i0[i].size <= k < i0[i].size + |data| ==>
      FileByte(Marked(sb, blocks, fb), inodes[i], k) == data[k - i0[i].size]
    ensures AppendDone(sb, blocks, inodes[i := inodes[i].(size := i0[i].size + |data|)], owner, fb, d0, i0, i, data)
  {
    var d, size := Marked(sb, blocks, fb), i0[i].size;
    var end := size + |data|;
    AppendsFile(d0, i0, d, inodes, i, data);
    hide LaidOut, TightTo, Kept, Marked, Contents, FileByte, Covered;
    ResizeLaid(sb, blocks, inodes, owner, fb, i, end);
    ResizeTight(d, inodes[i], end, end);
  }

  lemma AppendsFile(d0: seq<Block>, i0: seq<Inode>, d: seq<Block>, inodes: seq<Inode>, i: nat, data: seq<Byte>)
    requires i < |i0| == |inodes| && inodes == i0[i := inodes[i]] && |inodes[i].addrs| == NDIRECT + 1
    requires i0[i].size + |data| <= MAXBYTES && TightTo(d, inodes[i], i0[i].size + |data|)
    requires forall j: nat :: j < |i0| ==> TightTo(d0, i0[j], i0[j].size)
    requires Kept(d0, i0, d, inodes, i, i0[i].size, i0[i].size + |data|)
    requires forall k: nat :: i0[i].size <= k < i0[i].size + |data| ==>
      FileByte(d, inodes[i], k) == data[k - i0[i].size]
    ensures Contents(d, inodes[i].(size := i0[i].size + |data|)) == Contents(d0, i0[i]) + data
    ensures forall j: nat :: j < |i0| && j != i ==>
      |i0[j].addrs| == NDIRECT + 1 && i0[j].size <= MAXBYTES && Contents(d, i0[j]) == Contents(d0, i0[j])
  {
    forall j: nat | j < |i0|
      ensures |i0[j].addrs| == NDIRECT + 1 && i0[j].size <= MAXBYTES && Covered(d0, i0[j], i0[j].size)
    {
      TightCovered(d0, i0[j], i0[j].size);
    }
    TightCovered(d, inodes[i], i0[i].size + |data|);
    hide TightTo, Kept, Contents, FileByte, Covered;
    WroteContents(d0, i0, d, inodes, i, i0[i].size, data, |data|, |data|);
    assert data[..|data|] == data;
    OverwriteEnd(Contents(d0, i0[i]), data);
    OthersKept(d0, i0, d, inodes, i, i0[i].size, i0[i].size + |data|);
  }

  lemma OverwriteEnd(c: seq<Byte>, data: seq<Byte>)
    ensures Overwrite(c, |c|, data) == c + data
  {
  }

  ghost predicate AppendDone(sb: Super, blocks: seq<Block>, inodes: seq<Inode>, owner: Owner, fb: nat, d0: seq<Block>,
                             i0: seq<Inode>, i: nat, data: seq<Byte>)
    requires i < |i0|
  {
    && LaidOut(sb, blocks, inodes, owner, fb) && |inodes| == |i0|
    && (forall j: nat :: j < |i0| ==> TightTo(d0, i0[j], i0[j].size))
    && (forall j: nat :: j < |inodes| ==> TightTo(Marked(sb, blocks, fb), inodes[j], inodes[j].size))
    && Contents(Marked(sb, blocks, fb), inodes[i]) == Contents(d0, i0[i]) + data
    && (forall j: nat :: j < |inodes| && j != i ==>
         inodes[j] == i0[j] && Contents(Marked(sb, blocks, fb), inodes[j]) == Contents(d0, i0[j]))
  }

  lemma EmptyTight(blocks: seq<Block>)
    ensures TightTo(blocks, EMPTY, 0)
  {
  }

  /** A disk whose bitmap marks the metadata blocks and no others, with empty inodes, meets the ownership invariant. */
  lemma FreshFs(sb: Super, blocks: seq<Block>, inodes: seq<Inode>)
    requires sb.Good() && sb.size < BPB && |blocks| == sb.size && |inodes| == sb.ninodes
    requires forall i :: 0 <= i < |inodes| ==> inodes[i] == EMPTY
    ensures Inv(sb, Marked(sb, blocks, sb.Datastart()), inodes, map[])
  {
    hide IsSet, BitmapOf;
    var d := Marked(sb, blocks, sb.Datastart());
    forall b: nat | b < sb.size
      ensures Used(sb, d, b) <==> b < sb.Datastart()
    {
      assert b / BPB == 0 && b % BPB == b;
      BitmapBits(sb.Datastart(), b);
    }
    assert BitsOk(sb, d, map[]);
    assert forall i: nat, s: nat :: i < |inodes| && s < NSLOT ==> SlotAddr(d, inodes[i], s) == 0;
  }

  /** The blocks that some files take. */
  function TotalFor(all: seq<seq<Byte>>): nat {
    if all == [] then 0 else TotalFor(all[..|all| - 1]) + BlocksFor(|all[|all| - 1]|)
  }

  lemma {:induction false} TotalUpdate(all: seq<seq<Byte>>, i: nat, x: seq<Byte>)
    requires i < |all|
    ensures TotalFor(all[i := x]) == TotalFor(all) - BlocksFor(|all[i]|) + BlocksFor(|x|)
  {
    hide BlocksFor;
    var last := |all| - 1;
    if i < last {
      TotalUpdate(all[..last], i, x);
      assert all[i := x][..last] == all[..last][i := x];
    } else {
      assert all[i := x][..last] == all[..last];
    }
  }

  /** File by file no longer. */
  ghost predicate Shorter(a: seq<seq<Byte>>, b: seq<seq<Byte>>) {
    |a| == |b| && forall i :: 0 <= i < |a| ==> |a[i]| <= |b[i]|
  }

  lemma {:induction false} TotalShorter(a: seq<seq<Byte>>, b: seq<seq<Byte>>)
    requires Shorter(a, b)
    ensures TotalFor(a) <= TotalFor(b)
  {
    if a != [] {
      var last := |a| - 1;
      TotalShorter(a[..last], b[..last]);
      MoreBlocks(|a[last]|, |b[last]|);
    }
  }

  lemma {:induction false} TotalNone(all: seq<seq<Byte>>)
    requires forall i :: 0 <= i < |all| ==> all[i] == []
    ensures TotalFor(all) == 0
  {
    if all != [] {
      TotalNone(all[..|all| - 1]);
    }
  }

  datatype Appended = Done | TooBig | NoRoom

  class Image {
    const sb: Super
    var blocks: seq<Block>
    var inodes: seq<Inode>
    var freeblock: nat
    var freeinode: nat
    ghost var owner: Owner

    ghost predicate Laid()
      reads this
    {
      LaidOut(sb, blocks, inodes, owner, freeblock)
    }

    /** The image as it would be with its bitmap. */
    ghost function Disk(): (d: seq<Block>)
      reads this
      requires Laid()
    {
      Marked(sb, blocks, freeblock)
    }

    /** din.addrs[s] = freeblock++ */
    method TakeDirect(i: nat, s: nat) returns (ok: bool)
      requires Laid() && i < |inodes| && s <= INDIRECT && |inodes[i].addrs| == NDIRECT + 1 && inodes[i].addrs[s] == 0
      modifies `inodes, `freeblock, `owner
      ensures ok <==> old(freeblock) < sb.size
      ensures ok ==>
        freeblock == old(freeblock) + 1 && inodes == old(inodes)[i := WithAddr(old(inodes)[i], s, old(freeblock))]
      ensures ok ==> Taken(sb, blocks, old(inodes), old(owner), old(freeblock), blocks, inodes, owner, i, s)
    {
      hide LaidOut, Taken, Inv;
      assert freeblock <= sb.size by { InSize(sb, blocks, inodes, owner, freeblock); }
      if freeblock == sb.size {
        return false;
      }
      TakeInInode(sb, blocks, inodes, owner, freeblock, i, s);
      inodes := inodes[i := WithAddr(inodes[i], s, freeblock)];
      owner := owner[freeblock := (i, s)];
      freeblock := freeblock + 1;
      return true;
    }

    /** indirect[s] = freeblock++, written back to the indirect block. */
    method TakeIndirect(i: nat, s: nat) returns (ok: bool)
      requires Laid() && i < |inodes| && INDIRECT < s < NSLOT && |inodes[i].addrs| == NDIRECT + 1
      requires inodes[i].addrs[INDIRECT] != 0 && SlotAddr(Disk(), inodes[i], s) == 0
      modifies `blocks, `freeblock, `owner
      ensures ok <==> old(freeblock) < sb.size
      ensures |blocks| == |old(blocks)|
      ensures ok ==> freeblock == old(freeblock) + 1
      ensures ok ==> Taken(sb, old(blocks), inodes, old(owner), old(freeblock), blocks, inodes, owner, i, s)
    {
      hide LaidOut, Taken, Inv, SetWord;
      assert freeblock <= sb.size < UINT by { InSize(sb, blocks, inodes, owner, freeblock); }
      if freeblock == sb.size {
        return false;
      }
      TakeInBlock(sb, blocks, inodes, owner, freeblock, i, s);
      var ind := inodes[i].addrs[INDIRECT];
      blocks := blocks[ind := SetWord(blocks[ind], s - INDIRECT - 1, freeblock)];
      owner := owner[freeblock := (i, s)];
      freeblock := freeblock + 1;
      return true;
    }

    /** iappend's choice of a direct block for byte off of file i, which ends there: 0 when the disk has no more. */
    method PlaceNear(i: nat, off: nat) returns (x: nat)
      requires Laid() && i < |inodes| && off < NDIRECT * BSIZE && TightTo(Disk(), inodes[i], off)
      modifies `inodes, `freeblock, `owner
      ensures x == 0 <==> old(freeblock) + Need(off) > sb.size
      ensures x != 0 ==>
        && Laid() && freeblock == old(freeblock) + Need(off)
        && Placed(old(Disk()), old(inodes), Disk(), inodes, i, off / BSIZE)
        && x == DataAddr(Disk(), inodes[i], off / BSIZE)
        && (Need(off) == 0 ==> x == old(DataAddr(Disk(), inodes[i], off / BSIZE)))
    {
      var fbn := off / BSIZE;
      InSize(sb, blocks, inodes, owner, freeblock);
      AllAddrs(sb, blocks, inodes, owner, freeblock);
      TightAt(Disk(), inodes[i], off);
      hide LaidOut, TightTo, Taken, Placed, DataAddr, Marked, BitmapOf;
      if inodes[i].addrs[fbn] == 0 {
        x := TakeNear(i, fbn);
      } else {
        NothingTaken(Disk(), inodes, i, fbn);
        x := inodes[i].addrs[fbn];
      }
    }

    method TakeNear(i: nat, fbn: nat) returns (x: nat)
      requires Laid() && i < |inodes| && fbn < NDIRECT && |inodes[i].addrs| == NDIRECT + 1 && inodes[i].addrs[fbn] == 0
      modifies `inodes, `freeblock, `owner
      ensures x == 0 <==> old(freeblock) + 1 > sb.size
      ensures x != 0 ==>
        && Laid() && freeblock == old(freeblock) + 1 && Placed(old(Disk()), old(inodes), Disk(), inodes, i, fbn)
        && x == DataAddr(Disk(), inodes[i], fbn)
    {
      assert freeblock > 0;
      hide LaidOut, Taken, Placed, DataAddr, Marked, BitmapOf;
      var ok := TakeDirect(i, fbn);
      if !ok {
        return 0;
      }
      DataTaken(sb, blocks, old(inodes), old(owner), old(freeblock), blocks, inodes, owner, i, fbn);
      return inodes[i].addrs[fbn];
    }

    /** ... of a block that the indirect block lists. */
    method PlaceFar(i: nat, off: nat) returns (x: nat)
      requires Laid() && i < |inodes| && NDIRECT * BSIZE <= off < MAXBYTES && TightTo(Disk(), inodes[i], off)
      modifies `blocks, `inodes, `freeblock, `owner
      ensures x == 0 <==> old(freeblock) + Need(off) > sb.size
      ensures x != 0 ==>
        && Laid() && freeblock == old(freeblock) + Need(off)
        && Placed(old(Disk()), old(inodes), Disk(), inodes, i, off / BSIZE)
        && x == DataAddr(Disk(), inodes[i], off / BSIZE)
        && (Need(off) == 0 ==> x == old(DataAddr(Disk(), inodes[i], off / BSIZE)))
    {
      var fbn := off / BSIZE;
      InSize(sb, blocks, inodes, owner, freeblock);
      TightAt(Disk(), inodes[i], off);
      hide LaidOut, TightTo, Placed, DataAddr, Marked;
      if inodes[i].addrs[INDIRECT] != 0 {
        x := PlaceListed(i, fbn);
      } else {
        x := PlaceFirst(i, fbn);
      }
    }

    /** ... with the indirect block itself taken first. */
    method PlaceFirst(i: nat, fbn: nat) returns (x: nat)
      requires Laid() && i < |inodes| && NDIRECT <= fbn < MAXFILE && |inodes[i].addrs| == NDIRECT + 1
      requires inodes[i].addrs[INDIRECT] == 0 && DataAddr(Disk(), inodes[i], fbn) == 0
      modifies `blocks, `inodes, `freeblock, `owner
      ensures x == 0 <==> old(freeblock) + 2 > sb.size
      ensures x != 0 ==>
        && Laid() && freeblock == old(freeblock) + 2
        && Placed(old(Disk()), old(inodes), Disk(), inodes, i, fbn) && x == DataAddr(Disk(), inodes[i], fbn)
    {
      hide LaidOut, Taken, Placed, DataAddr, Marked;
      InSize(sb, blocks, inodes, owner, freeblock);
      var ok := TakeFirst(i, fbn);
      if !ok {
        return 0;
      }
      ghost var i1, o1 := inodes, owner;
      x := PlaceListed(i, fbn);
      if x != 0 {
        BothTaken(sb, old(blocks), old(inodes), old(owner), old(freeblock), old(blocks), i1, o1, blocks, inodes, i,
                  fbn);
      }
    }

    method TakeFirst(i: nat, ghost fbn: nat) returns (ok: bool)
      requires Laid() && i < |inodes| && NDIRECT <= fbn < MAXFILE && |inodes[i].addrs| == NDIRECT + 1
      requires inodes[i].addrs[INDIRECT] == 0 && DataAddr(Disk(), inodes[i], fbn) == 0
      modifies `inodes, `freeblock, `owner
      ensures ok <==> old(freeblock) < sb.size
      ensures ok ==>
        && Laid() && freeblock == old(freeblock) + 1 && |inodes| == |old(inodes)| && |inodes[i].addrs| == NDIRECT + 1
        && inodes[i].addrs[INDIRECT] != 0 && DataAddr(Disk(), inodes[i], fbn) == 0
        && Taken(sb, blocks, old(inodes), old(owner), old(freeblock), blocks, inodes, owner, i, INDIRECT)
    {
      hide LaidOut, Taken, DataAddr, Marked;
      ok := TakeDirect(i, INDIRECT);
      if ok {
        IndirectTaken(sb, blocks, old(inodes), old(owner), old(freeblock), blocks, inodes, owner, i, fbn);
      }
    }

    method PlaceListed(i: nat, fbn: nat) returns (x: nat)
      requires Laid() && i < |inodes| && NDIRECT <= fbn < MAXFILE && |inodes[i].addrs| == NDIRECT + 1
      requires inodes[i].addrs[INDIRECT] != 0
      modifies `blocks, `freeblock, `owner
      ensures |blocks| == |old(blocks)|
      ensures x == 0 <==> old(DataAddr(Disk(), inodes[i], fbn)) == 0 && old(freeblock) >= sb.size
      ensures x != 0 ==>
        && Laid() && freeblock == old(freeblock) + (if old(DataAddr(Disk(), inodes[i], fbn)) == 0 then 1 else 0)
        && Placed(old(Disk()), inodes, Disk(), inodes, i, fbn) && x == DataAddr(Disk(), inodes[i], fbn)
        && (old(DataAddr(Disk(), inodes[i], fbn)) != 0 ==> x == old(DataAddr(Disk(), inodes[i], fbn)))
    {
      AllAddrs(sb, blocks, inodes, owner, freeblock);
      hide LaidOut, Taken, Placed, DataAddr;
      InSize(sb, blocks, inodes, owner, freeblock);
      x := FarWord(i, fbn);
      if x == 0 {
        var ok := TakeFar(i, fbn);
        if ok {
          InSize(sb, blocks, inodes, owner, freeblock);
          x := FarWord(i, fbn);
        }
      } else {
        NothingTaken(Disk(), inodes, i, fbn);
      }
    }

    /** Between calls of iappend: no file has a block past its end. */
    ghost predicate Valid()
      reads this
    {
      && Laid() && (forall j: nat :: j < |inodes| ==> TightTo(Disk(), inodes[j], inodes[j].size))
      && (forall j: nat :: freeinode <= j < |inodes| ==> inodes[j] == EMPTY)
    }

    /** During one, file i ends at off already, whatever its size says. */
    ghost predicate Within(i: nat, off: nat)
      reads this
    {
      Laid() && forall j: nat :: j < |inodes| ==> TightTo(Disk(), inodes[j], if j == i then off else inodes[j].size)
    }

    method Place(i: nat, off: nat) returns (x: nat)
      requires Laid() && i < |inodes| && off < MAXBYTES && TightTo(Disk(), inodes[i], off)
      modifies `blocks, `inodes, `freeblock, `owner
      ensures x == 0 <==> old(freeblock) + Need(off) > sb.size
      ensures x != 0 ==>
        && Laid() && freeblock == old(freeblock) + Need(off)
        && Placed(old(Disk()), old(inodes), Disk(), inodes, i, off / BSIZE)
        && x == DataAddr(Disk(), inodes[i], off / BSIZE)
        && (Need(off) == 0 ==> x == old(DataAddr(Disk(), inodes[i], off / BSIZE)))
    {
      hide LaidOut, TightTo, Placed, DataAddr, Marked, Need;
      if off / BSIZE < NDIRECT {
        x := PlaceNear(i, off);
      } else {
        x := PlaceFar(i, off);
      }
    }

    /** One turn of iappend's loop: the bytes go to the end of file i, all in one block. */
    method Turn(i: nat, off: nat, data: seq<Byte>) returns (ok: bool)
      requires Within(i, off) && i < |inodes| && 0 < |data| <= BSIZE - off % BSIZE && off + |data| <= MAXBYTES
      modifies `blocks, `inodes, `freeblock, `owner
      ensures ok <==> old(freeblock) + Need(off) <= sb.size
      ensures ok ==>
        && Within(i, off + |data|) && freeblock == old(freeblock) + Need(off)
        && |inodes| == |old(inodes)| && inodes == old(inodes)[i := inodes[i]] && inodes[i].size == old(inodes)[i].size
        && Kept(old(Disk()), old(inodes), Disk(), inodes, i, off, off + |data|) && |inodes[i].addrs| == NDIRECT + 1
        && forall k: nat :: off <= k < off + |data| ==> FileByte(Disk(), inodes[i], k) == data[k - off]
    {
      hide LaidOut, TightTo, Placed, DataAddr, Marked, Need, Kept;
      var x := Place(i, off);
      if x == 0 {
        return false;
      }
      PlacedAt(old(Disk()), old(inodes), Disk(), inodes, i, off / BSIZE);
      Copied(sb, blocks, inodes, owner, freeblock, old(Disk()), old(inodes), i, off, data);
      blocks := blocks[x := Patch(blocks[x], off % BSIZE, data)];
      return true;
    }

    /** indirect[fbn - NDIRECT] */
    method FarWord(i: nat, fbn: nat) returns (x: nat)
      requires Laid() && i < |inodes| && NDIRECT <= fbn < MAXFILE && |inodes[i].addrs| == NDIRECT + 1
      requires inodes[i].addrs[INDIRECT] != 0
      ensures x == DataAddr(Disk(), inodes[i], fbn) == SlotAddr(Disk(), inodes[i], fbn + 1)
    {
      hide Super.Bblock, Used, BitsOk, SlotsOwned, OwnersHold, BitmapOf, Word;
      IndirectOwned(sb, Disk(), inodes, owner, i);
      x := Word(blocks[inodes[i].addrs[INDIRECT]], fbn - NDIRECT);
    }

    method TakeFar(i: nat, fbn: nat) returns (ok: bool)
      requires Laid() && i < |inodes| && NDIRECT <= fbn < MAXFILE && |inodes[i].addrs| == NDIRECT + 1
      requires inodes[i].addrs[INDIRECT] != 0 && SlotAddr(Disk(), inodes[i], fbn + 1) == 0
      modifies `blocks, `freeblock, `owner
      ensures ok <==> old(freeblock) < sb.size
      ensures |blocks| == |old(blocks)|
      ensures ok ==> Laid() && freeblock == old(freeblock) + 1
      ensures ok ==> Placed(old(Disk()), inodes, Disk(), inodes, i, fbn) && DataAddr(Disk(), inodes[i], fbn) != 0
    {
      hide LaidOut, Taken, Placed, SlotAddr;
      ok := TakeIndirect(i, fbn + 1);
      if ok {
        DataTaken(sb, old(blocks), inodes, old(owner), old(freeblock), blocks, inodes, owner, i, fbn);
        PlacedAt(old(Disk()), inodes, Disk(), inodes, i, fbn);
      }
    }

    ghost function File(i: nat): (c: seq<Byte>)
      reads this
      requires Valid() && i < |inodes|
    {
      Contents(Disk(), inodes[i])
    }

    /** A zeroed disk without files. */
    constructor (sb: Super)
      requires sb.Good() && sb.size < BPB
      ensures this.sb == sb && Valid() && freeblock == sb.Datastart() && freeinode == 1 && |inodes| == sb.ninodes
      ensures owner == map[] && forall j :: 0 <= j < |inodes| ==> inodes[j] == EMPTY
    {
      this.sb := sb;
      blocks := seq(sb.size, _ => ZeroBlock());
      inodes := seq(sb.ninodes, _ => EMPTY);
      freeblock, freeinode, owner := sb.Datastart(), 1, map[];
      new;
      FreshFs(sb, blocks, inodes);
      EmptyTight(Marked(sb, blocks, freeblock));
      hide Inv, TightTo, BitmapOf;
    }

    /** ialloc: the next inode, for an empty file; None past the last one. */
    method Ialloc() returns (r: Option<nat>)
      requires Valid()
      modifies `freeinode
      ensures Valid()
      ensures r.Some? <==> old(freeinode) < |inodes|
      ensures r.Some? ==>
        r.value == old(freeinode) && freeinode == old(freeinode) + 1 && inodes[r.value] == EMPTY && File(r.value) == []
      ensures r.None? ==> freeinode == old(freeinode)
    {
      if freeinode >= |inodes| {
        return None;
      }
      r := Some(freeinode);
      freeinode := freeinode + 1;
    }

    /** iappend: the bytes go to the end of the file and no other file changes. Blocks are taken from freeblock on, as
        many as the longer file needs. It fails exactly when the file would be too big or the disk too small. */
    method Iappend(i: nat, data: seq<Byte>) returns (r: Appended)
      requires Valid() && i < |inodes| && i < freeinode
      modifies `blocks, `inodes, `freeblock, `owner
      ensures r.TooBig? ==> old(inodes)[i].size + |data| > MAXBYTES
      ensures r.Done? <==>
        && old(inodes)[i].size + |data| <= MAXBYTES
        && old(freeblock) + BlocksFor(old(inodes)[i].size + |data|) - BlocksFor(old(inodes)[i].size) <= sb.size
      ensures r.Done? ==>
        && Valid() && |inodes| == |old(inodes)| && File(i) == old(File(i)) + data
        && freeblock == old(freeblock) + BlocksFor(old(inodes)[i].size + |data|) - BlocksFor(old(inodes)[i].size)
        && forall j: nat :: j < |inodes| && j != i ==> inodes[j] == old(inodes)[j] && File(j) == old(File(j))
    {
      ghost var d0, i0, fb0 := Disk(), inodes, freeblock;
      ProgressStart(sb, blocks, inodes, owner, freeblock, i, data);
      hide LaidOut, TightTo, Marked, BlocksFor, Progress, Contents;
      r := AppendSized(i, data, d0, i0, fb0);
    }

    /** iappend after rinode: the loop, and winode. */
    method AppendSized(i: nat, data: seq<Byte>, ghost d0: seq<Block>, ghost i0: seq<Inode>, ghost fb0: nat)
      returns (r: Appended)
      requires Progress(sb, blocks, inodes, owner, freeblock, d0, i0, fb0, i, data, 0) && i < |inodes|
      modifies `blocks, `inodes, `freeblock, `owner
      ensures i < |i0| && (r.TooBig? ==> i0[i].size + |data| > MAXBYTES)
      ensures r.Done? <==>
        i0[i].size + |data| <= MAXBYTES && fb0 + BlocksFor(i0[i].size + |data|) - BlocksFor(i0[i].size) <= sb.size
      ensures r.Done? ==> AppendDone(sb, blocks, inodes, owner, freeblock, d0, i0, i, data)
      ensures r.Done? ==> freeblock == fb0 + BlocksFor(i0[i].size + |data|) - BlocksFor(i0[i].size)
    {
      hide BlocksFor, Progress, AppendDone;
      r := AppendAll(i, data, d0, i0, fb0);
      if r.Done? {
        ProgressEnd(sb, blocks, inodes, owner, freeblock, d0, i0, fb0, i, data);
        inodes := inodes[i := inodes[i].(size := inodes[i].size + |data|)];
      }
    }

    ghost function All(): (all: seq<seq<Byte>>)
      reads this
      requires Valid()
    {
      FilesOf(Disk(), inodes)
    }

    /** Each block from Datastart to freeblock is one that the files need. */
    ghost predicate Counted()
      reads this
    {
      Valid() && freeblock == sb.Datastart() + TotalFor(All())
    }

    /** iappend, in terms of all the files. */
    method Append(i: nat, data: seq<Byte>) returns (ok: bool)
      requires Counted() && i < |inodes| && i < freeinode
      modifies `blocks, `inodes, `freeblock, `owner
      ensures var all := old(All())[i := old(All())[i] + data];
        && (ok <==> |all[i]| <= MAXBYTES && sb.Datastart() + TotalFor(all) <= sb.size)
        && (ok ==> Counted() && |inodes| == |old(inodes)| && All() == all)
    {
      ghost var all := All();
      TotalUpdate(all, i, all[i] + data);
      hide LaidOut, TightTo, Marked, BlocksFor, Contents;
      var r := Iappend(i, data);
      ok := r.Done?;
      if ok {
        assert All() == all[i := all[i] + data];
      }
    }

    /** iappend's loop. */
    method AppendAll(i: nat, data: seq<Byte>, ghost d0: seq<Block>, ghost i0: seq<Inode>, ghost fb0: nat)
      returns (r: Appended)
      requires Progress(sb, blocks, inodes, owner, freeblock, d0, i0, fb0, i, data, 0) && i < |inodes|
      modifies `blocks, `inodes, `freeblock, `owner
      ensures i < |i0|
      ensures r.Done? ==> Progress(sb, blocks, inodes, owner, freeblock, d0, i0, fb0, i, data, |data|)
      ensures r.TooBig? ==> i0[i].size + |data| > MAXBYTES
      ensures r.NoRoom? ==> fb0 + BlocksFor(i0[i].size + |data|) - BlocksFor(i0[i].size) > sb.size
      ensures r.Done? ==> |inodes| == |i0| && inodes[i].size == i0[i].size
    {
      hide LaidOut, TightTo, Marked, BlocksFor, Progress, Kept;
      ProgressNow(sb, blocks, inodes, owner, freeblock, d0, i0, fb0, i, data, 0);
      var n, off := 0, inodes[i].size;
      while n < |data|
        invariant 0 <= n <= |data| && i < |inodes| == |i0| && off == i0[i].size + n && inodes[i].size == i0[i].size
        invariant Progress(sb, blocks, inodes, owner, freeblock, d0, i0, fb0, i, data, n)
      {
        if off / BSIZE >= MAXFILE {
          return TooBig;
        }
        var m := (off / BSIZE + 1) * BSIZE - off;
        if |data| - n < m {
          m := |data| - n;
        }
        assert 0 < m <= BSIZE - off % BSIZE && off + m <= MAXBYTES by { InTurn(off, m); }
        var ok := AppendTurn(i, data, n, m, d0, i0, fb0);
        if !ok {
          return NoRoom;
        }
        n, off := n + m, off + m;
      }
      return Done;
    }

    /** One turn of it, m bytes. */
    method AppendTurn(i: nat, data: seq<Byte>, n: nat, m: nat, ghost d0: seq<Block>, ghost i0: seq<Inode>,
                      ghost fb0: nat)
      returns (ok: bool)
      requires Progress(sb, blocks, inodes, owner, freeblock, d0, i0, fb0, i, data, n) && i < |inodes| && i < |i0|
      requires inodes[i].size == i0[i].size
      requires var off := i0[i].size + n; 0 < m <= BSIZE - off % BSIZE && off + m <= MAXBYTES && n + m <= |data|
      modifies `blocks, `inodes, `freeblock, `owner
      ensures ok ==> |inodes| == |i0| && inodes[i].size == i0[i].size
      ensures ok ==> Progress(sb, blocks, inodes, owner, freeblock, d0, i0, fb0, i, data, n + m)
      ensures !ok ==> fb0 + BlocksFor(i0[i].size + |data|) - BlocksFor(i0[i].size) > sb.size
    {
      hide LaidOut, TightTo, Marked, BlocksFor, Progress, Kept, Need, FileByte;
      ProgressNow(sb, blocks, inodes, owner, freeblock, d0, i0, fb0, i, data, n);
      ghost var size := i0[i].size;
      var off := inodes[i].size + n;
      NeedsMore(size, off, m, size + |data|);
      ghost var b1, i1, o1, fb1 := blocks, inodes, owner, freeblock;
      ok := Turn(i, off, data[n..n + m]);
      if ok {
        forall k: nat | off <= k < off + m
          ensures FileByte(Disk(), inodes[i], k) == data[k - size]
        {
          assert data[n..n + m][k - off] == data[k - size];
        }
        ProgressStep(sb, b1, i1, o1, fb1, blocks, inodes, owner, freeblock, d0, i0, fb0, i, data, n, m);
      }
    }
  }

  lemma InTurn(off: nat, m: int)
    requires off / BSIZE < MAXFILE && 0 < m <= (off / BSIZE + 1) * BSIZE - off
    ensures m <= BSIZE - off % BSIZE && off + m <= MAXBYTES
  {
  }

  /** iappend in the middle: n bytes have been appended. */
  ghost predicate Progress(sb: Super, blocks: seq<Block>, inodes: seq<Inode>, owner: Owner, fb: nat, d0: seq<Block>,
                           i0: seq<Inode>, fb0: nat, i: nat, data: seq<Byte>, n: nat) {
    && i < |i0| == |inodes| && n <= |data| && i0[i].size + n <= MAXBYTES
    && LaidOut(sb, blocks, inodes, owner, fb) && fb == fb0 + BlocksFor(i0[i].size + n) - BlocksFor(i0[i].size)
    && inodes == i0[i := inodes[i]] && inodes[i].size == i0[i].size && |inodes[i].addrs| == NDIRECT + 1
    && (forall j: nat :: j < |i0| ==> TightTo(d0, i0[j], i0[j].size))
    && (forall j: nat :: j < |i0| ==>
         TightTo(Marked(sb, blocks, fb), inodes[j], if j == i then i0[i].size + n else inodes[j].size))
    && Kept(d0, i0, Marked(sb, blocks, fb), inodes, i, i0[i].size, i0[i].size + n)
    && (forall k: nat :: i0[i].size <= k < i0[i].size + n ==>
         FileByte(Marked(sb, blocks, fb), inodes[i], k) == data[k - i0[i].size])
  }

  lemma ProgressStart(sb: Super, blocks: seq<Block>, inodes: seq<Inode>, owner: Owner, fb: nat, i: nat, data: seq<Byte>)
    requires LaidOut(sb, blocks, inodes, owner, fb) && i < |inodes|
    requires forall j: nat :: j < |inodes| ==> TightTo(Marked(sb, blocks, fb), inodes[j], inodes[j].size)
    ensures Progress(sb, blocks, inodes, owner, fb, Marked(sb, blocks, fb), inodes, fb, i, data, 0)
  {
    AllAddrs(sb, blocks, inodes, owner, fb);
    hide LaidOut, Marked, Kept;
    KeptSelf(Marked(sb, blocks, fb), inodes, i, inodes[i].size);
  }

  lemma ProgressNow(sb: Super, blocks: seq<Block>, inodes: seq<Inode>, owner: Owner, fb: nat, d0: seq<Block>,
                    i0: seq<Inode>, fb0: nat, i: nat, data: seq<Byte>, n: nat)
    requires Progress(sb, blocks, inodes, owner, fb, d0, i0, fb0, i, data, n)
    ensures i < |i0| == |inodes| && LaidOut(sb, blocks, inodes, owner, fb) && i0[i].size + n <= MAXBYTES
    ensures inodes[i].size == i0[i].size
    ensures fb == fb0 + BlocksFor(i0[i].size + n) - BlocksFor(i0[i].size)
    ensures forall j: nat :: j < |i0| ==>
      TightTo(Marked(sb, blocks, fb), inodes[j], if j == i then i0[i].size + n else inodes[j].size)
  {
    hide LaidOut, Marked, Kept, TightTo, BlocksFor;
  }

  lemma NeedsMore(size: nat, off: nat, m: nat, end: nat)
    requires size <= off && 0 < m <= BSIZE - off % BSIZE && off + m <= end
    ensures BlocksFor(off + m) == BlocksFor(off) + Need(off) && BlocksFor(size) <= BlocksFor(off)
    ensures BlocksFor(off) + Need(off) <= BlocksFor(end)
  {
    TurnBlocks(off, m);
    MoreBlocks(size, off);
    MoreBlocks(off + m, end);
  }

  lemma ProgressStep(sb: Super, b1: seq<Block>, i1: seq<Inode>, o1: Owner, fb1: nat, blocks: seq<Block>,
                     inodes: seq<Inode>, owner: Owner, fb: nat, d0: seq<Block>, i0: seq<Inode>, fb0: nat, i: nat,
                     data: seq<Byte>, n: nat, m: nat)
    requires Progress(sb, b1, i1, o1, fb1, d0, i0, fb0, i, data, n) && n + m <= |data| && i0[i].size + n + m <= MAXBYTES
    requires LaidOut(sb, blocks, inodes, owner, fb) && |inodes| == |i1|
    requires fb - fb1 == BlocksFor(i0[i].size + n + m) - BlocksFor(i0[i].size + n)
    requires inodes == i1[i := inodes[i]] && inodes[i].size == i1[i].size && |inodes[i].addrs| == NDIRECT + 1
    requires forall j: nat :: j < |i0| ==>
      TightTo(Marked(sb, blocks, fb), inodes[j], if j == i then i0[i].size + n + m else inodes[j].size)
    requires Kept(Marked(sb, b1, fb1), i1, Marked(sb, blocks, fb), inodes, i, i0[i].size + n, i0[i].size + n + m)
    requires forall k: nat :: i0[i].size + n <= k < i0[i].size + n + m ==>
      FileByte(Marked(sb, blocks, fb), inodes[i], k) == data[k - i0[i].size]
    ensures Progress(sb, blocks, inodes, owner, fb, d0, i0, fb0, i, data, n + m)
  {
    var off := i0[i].size + n;
    var d1, d := Marked(sb, b1, fb1), Marked(sb, blocks, fb);
    hide LaidOut, Marked, Kept, TightTo, BlocksFor, FileByte;
    KeptTransitive(d0, i0, d1, i1, d, inodes, i, i0[i].size, off, off + m);
    KeptBytes(d1, i1, d, inodes, i, i0[i].size, off, off + m);
  }

  lemma ProgressEnd(sb: Super, blocks: seq<Block>, inodes: seq<Inode>, owner: Owner, fb: nat, d0: seq<Block>,
                    i0: seq<Inode>, fb0: nat, i: nat, data: seq<Byte>)
    requires Progress(sb, blocks, inodes, owner, fb, d0, i0, fb0, i, data, |data|)
    ensures i < |i0| == |inodes| && i0[i].size + |data| <= MAXBYTES
    ensures AppendDone(sb, blocks, inodes[i := inodes[i].(size := i0[i].size + |data|)], owner, fb, d0, i0, i, data)
    ensures fb == fb0 + BlocksFor(i0[i].size + |data|) - BlocksFor(i0[i].size) && fb <= sb.size
  {
    hide Kept, TightTo, BlocksFor, FileByte, Inv, AppendDone;
    Appends(sb, blocks, inodes, owner, fb, d0, i0, i, data);
  }

  lemma KeptBytes(d1: seq<Block>, i1: seq<Inode>, d2: seq<Block>, i2: seq<Inode>, i: nat, size: nat, off: nat, end: nat)
    requires Kept(d1, i1, d2, i2, i, off, end) && i < |i1| && TightTo(d1, i1[i], off)
    ensures |i2| == |i1| && |i2[i].addrs| == NDIRECT + 1
    ensures forall k: nat :: size <= k < off ==> FileByte(d2, i2[i], k) == FileByte(d1, i1[i], k)
  {
    TightCovered(d1, i1[i], off);
    hide DataAddr, FileByte;
    KeptPrefix(d1, i1, d2, i2, i, size, off, end);
  }

  /** The blocks that a file takes for the byte at its end. */
  function Need(off: nat): nat {
    if off % BSIZE != 0 then 0 else if off == NDIRECT * BSIZE then 2 else 1
  }

  lemma PlacedAt(blocks: seq<Block>, inodes: seq<Inode>, blocks': seq<Block>, inodes': seq<Inode>, i: nat, bn: nat)
    requires Placed(blocks, inodes, blocks', inodes', i, bn)
    ensures |inodes'| == |inodes| > i && bn < MAXFILE && inodes' == inodes[i := inodes'[i]]
      && inodes'[i].size == inodes[i].size
    ensures |inodes'[i].addrs| == NDIRECT + 1 && DataAddr(blocks', inodes'[i], bn) != 0
  {
    hide DataAddr, FileByte;
  }

  /** Where a file ends: whether the block there exists, and the indirect block. */
  lemma TightAt(blocks: seq<Block>, ino: Inode, off: nat)
    requires TightTo(blocks, ino, off) && off < MAXBYTES
    ensures |ino.addrs| == NDIRECT + 1 && off / BSIZE < MAXFILE
    ensures DataAddr(blocks, ino, off / BSIZE) != 0 <==> Need(off) == 0
    ensures ino.addrs[INDIRECT] == 0 && off >= NDIRECT * BSIZE <==> Need(off) == 2
    ensures off < NDIRECT * BSIZE ==> DataAddr(blocks, ino, off / BSIZE) == ino.addrs[off / BSIZE]
    ensures ino.addrs[INDIRECT] != 0 <==> off > NDIRECT * BSIZE
    ensures off >= NDIRECT * BSIZE ==> off / BSIZE >= NDIRECT
  {
    var fbn := off / BSIZE;
    assert fbn * BSIZE < off <==> off % BSIZE != 0;
  }

  /** The indirect block taken: no data block differs. */
  lemma IndirectTaken(sb: Super, blocks: seq<Block>, inodes: seq<Inode>, owner: Owner, fb: nat, blocks': seq<Block>,
                      inodes': seq<Inode>, owner': Owner, i: nat, bn: nat)
    requires LaidOut(sb, blocks, inodes, owner, fb) && i < |inodes| && bn < MAXFILE
    requires Taken(sb, blocks, inodes, owner, fb, blocks', inodes', owner', i, INDIRECT)
    ensures LaidOut(sb, blocks', inodes', owner', fb + 1) && |inodes'| == |inodes| && |inodes'[i].addrs| == NDIRECT + 1
    ensures |inodes[i].addrs| == NDIRECT + 1 && inodes'[i].addrs[INDIRECT] == fb != 0
    ensures DataAddr(Marked(sb, blocks', fb + 1), inodes'[i], bn) == DataAddr(Marked(sb, blocks, fb), inodes[i], bn)
  {
    hide Super.Bblock, Used, SlotAddr, FileByte, BitsOk, SlotsOwned, OwnersHold, BitmapOf;
    var m, m' := Marked(sb, blocks, fb), Marked(sb, blocks', fb + 1);
    assert DataSlot(bn) != INDIRECT && DataSlot(bn) < NSLOT;
    SlotsExcept(sb, m, inodes, owner, m', inodes', fb, i, INDIRECT, i, DataSlot(bn));
    SlotsExcept(sb, m, inodes, owner, m', inodes', fb, i, INDIRECT, i, INDIRECT);
    DirectSlot(m', inodes'[i], INDIRECT);
  }

  lemma AllAddrs(sb: Super, blocks: seq<Block>, inodes: seq<Inode>, owner: Owner, fb: nat)
    requires LaidOut(sb, blocks, inodes, owner, fb)
    ensures forall j: nat :: j < |inodes| ==> |inodes[j].addrs| == NDIRECT + 1
  {
  }

  lemma InSize(sb: Super, blocks: seq<Block>, inodes: seq<Inode>, owner: Owner, fb: nat)
    requires LaidOut(sb, blocks, inodes, owner, fb)
    ensures fb <= sb.size == |blocks| < BPB < UINT
  {
  }

  const ROOTINO := 1
  const DOT: Name := [46]

  /** A file for the image: its name, and what the reads of it return. */
  datatype Source = Source(name: Name, parts: seq<seq<Byte>>)

  function Joined(parts: seq<seq<Byte>>): seq<Byte> {
    if parts == [] then [] else Joined(parts[..|parts| - 1]) + parts[|parts| - 1]
  }

  /** The root directory with entries for the first k files. */
  function Entries(files: seq<Source>, k: nat): (c: seq<Byte>)
    requires k <= |files| && 2 + k <= USHORT
    ensures |c| == ENTRY * (2 + k)
  {
    if k == 0 then Dirent(DOT, ROOTINO) + Dirent(DOT + DOT, ROOTINO)
    else Entries(files, k - 1) + Dirent(files[k - 1].name, 1 + k)
  }

  /** All the files of an image of n inodes when the first k sources are in it. */
  ghost function Made(n: nat, files: seq<Source>, k: nat): (all: seq<seq<Byte>>)
    requires k <= |files| && 2 + k <= n <= USHORT
    ensures |all| == n && all[ROOTINO] == Entries(files, k)
    ensures forall i :: 0 <= i < k ==> all[2 + i] == Joined(files[i].parts)
    ensures forall i :: 0 <= i < n && i != ROOTINO && !(2 <= i < 2 + k) ==> all[i] == []
  {
    seq(n, i requires 0 <= i < n =>
      if i == ROOTINO then Entries(files, k) else if 2 <= i < 2 + k then Joined(files[i - 2].parts) else [])
  }

  /** The inodes, the file sizes and the disk are enough. */
  ghost predicate Fits(sb: Super, files: seq<Source>) {
    && 2 + |files| <= sb.ninodes <= USHORT
    && Room(sb, Made(sb.ninodes, files, |files|))
  }

  ghost predicate Room(sb: Super, all: seq<seq<Byte>>) {
    (forall i :: 0 <= i < |all| ==> |all[i]| <= MAXBYTES) && sb.Datastart() + TotalFor(all) <= sb.size
  }

  lemma RoomShorter(sb: Super, a: seq<seq<Byte>>, b: seq<seq<Byte>>)
    requires Shorter(a, b) && Room(sb, b)
    ensures Room(sb, a)
  {
    TotalShorter(a, b);
  }

  lemma {:induction false} JoinedPrefix(parts: seq<seq<Byte>>, c: nat)
    requires c <= |parts|
    ensures |Joined(parts[..c])| <= |Joined(parts)|
    decreases |parts| - c
  {
    if c < |parts| {
      JoinedPrefix(parts, c + 1);
      assert parts[..c + 1][..c] == parts[..c];
    } else {
      assert parts[..c] == parts;
    }
  }

  /** The k-th source half in: its entry, and its first c reads. */
  ghost function HalfMade(n: nat, files: seq<Source>, k: nat, c: nat): seq<seq<Byte>>
    requires k < |files| && 3 + k <= n <= USHORT && c <= |files[k].parts|
  {
    Made(n, files, k)[ROOTINO := Entries(files, k + 1)][2 + k := Joined(files[k].parts[..c])]
  }

  lemma MadeIs(n: nat, files: seq<Source>, k: nat, i: nat)
    requires k <= |files| && 2 + k <= n <= USHORT && i < n
    ensures Made(n, files, k)[i] ==
      if i == ROOTINO then Entries(files, k) else if 2 <= i < 2 + k then Joined(files[i - 2].parts) else []
  {
    hide Entries, Joined, Dirent;
    if 2 <= i < 2 + k {
      assert Made(n, files, k)[2 + (i - 2)] == Joined(files[i - 2].parts);
    }
  }

  lemma HalfShorter(n: nat, files: seq<Source>, k: nat, c: nat)
    requires k < |files| && 2 + |files| <= n <= USHORT && c <= |files[k].parts|
    ensures Shorter(HalfMade(n, files, k, c), Made(n, files, |files|))
  {
    hide Entries, Joined, Dirent, Made;
    JoinedPrefix(files[k].parts, c);
    forall i: nat | i < n
      ensures |HalfMade(n, files, k, c)[i]| <= |Made(n, files, |files|)[i]|
    {
      MadeIs(n, files, k, i);
      MadeIs(n, files, |files|, i);
    }
  }

  lemma HalfFull(n: nat, files: seq<Source>, k: nat)
    requires k < |files| && 3 + k <= n <= USHORT
    ensures HalfMade(n, files, k, |files[k].parts|) == Made(n, files, k + 1)
  {
    assert files[k].parts[..|files[k].parts|] == files[k].parts;
    hide Entries, Joined, Dirent, Made;
    forall i: nat | i < n
      ensures HalfMade(n, files, k, |files[k].parts|)[i] == Made(n, files, k + 1)[i]
    {
      MadeIs(n, files, k, i);
      MadeIs(n, files, k + 1, i);
    }
  }

  lemma HalfEmpty(n: nat, files: seq<Source>, k: nat)
    requires k < |files| && 3 + k <= n <= USHORT
    ensures HalfMade(n, files, k, 0) == Made(n, files, k)[ROOTINO := Entries(files, k) + Dirent(files[k].name, 2 + k)]
  {
    assert files[k].parts[..0] == [];
  }

  lemma HalfMore(n: nat, files: seq<Source>, k: nat, c: nat)
    requires k < |files| && 3 + k <= n <= USHORT && c < |files[k].parts|
    ensures var half := HalfMade(n, files, k, c);
      HalfMade(n, files, k, c + 1) == half[2 + k := half[2 + k] + files[k].parts[c]]
  {
    assert files[k].parts[..c + 1][..c] == files[k].parts[..c];
  }

  /** One turn of the loop over the files: the entry, then the contents. */
  method AddFile(img: Image, files: seq<Source>, k: nat) returns (ok: bool)
    requires Partly(img, files, k) && k < |files|
    modifies img
    ensures ok ==> Partly(img, files, k + 1)
    ensures !ok ==> !Fits(img.sb, files)
  {
    hide Image.Valid, Image.Laid;
    hide Made, Entries, HalfMade, Shorter;
    ghost var n := |img.inodes|;
    var inum := img.Ialloc();
    HalfEmpty(n, files, k);
    ok := img.Append(ROOTINO, Dirent(files[k].name, inum.value));
    if !ok {
      NotEnough(img.sb, files, k, 0);
      return;
    }
    var j := 0;
    while j < |files[k].parts|
      invariant 0 <= j <= |files[k].parts| && img.Counted() && img.freeinode == 3 + k && |img.inodes| == n
      invariant img.All() == HalfMade(n, files, k, j)
    {
      HalfMore(n, files, k, j);
      ok := img.Append(2 + k, files[k].parts[j]);
      if !ok {
        NotEnough(img.sb, files, k, j + 1);
        return;
      }
      j := j + 1;
    }
    HalfFull(n, files, k);
  }

  lemma NotEnough(sb: Super, files: seq<Source>, k: nat, c: nat)
    requires k < |files| && 2 + |files| <= sb.ninodes <= USHORT && c <= |files[k].parts|
    requires !Room(sb, HalfMade(sb.ninodes, files, k, c))
    ensures !Fits(sb, files)
  {
    HalfShorter(sb.ninodes, files, k, c);
    if Fits(sb, files) {
      RoomShorter(sb, HalfMade(sb.ninodes, files, k, c), Made(sb.ninodes, files, |files|));
    }
  }

  /** The size that mkfs gives the root directory in the end. */
  function Rounded(size: nat): nat {
    (size / BSIZE + 1) * BSIZE
  }

  /** It goes up to the end of the last block, or, when that is full already, to the end of one that does not exist. */
  lemma RoundedCovered(d: seq<Block>, ino: Inode)
    requires TightTo(d, ino, ino.size)
    ensures Covered(d, ino.(size := Rounded(ino.size)), Rounded(ino.size)) <==> ino.size % BSIZE != 0
    ensures ino.size % BSIZE != 0 ==> Rounded(ino.size) <= MAXBYTES
  {
    var n := Rounded(ino.size);
    ResizeTight(d, ino, ino.size, n);
    var ino' := ino.(size := n);
    hide DataAddr, FileByte;
    if ino.size % BSIZE != 0 {
      forall bn: nat | bn < MAXFILE && bn * BSIZE < n
        ensures DataAddr(d, ino', bn) != 0
      {
        assert bn * BSIZE < ino.size;
      }
    } else if n <= MAXBYTES {
      var bn := ino.size / BSIZE;
      assert DataAddr(d, ino', bn) == 0;
    }
  }

  /** What the directory then holds: its entries, and empty ones up to the end of the block. */
  lemma RoundedContents(d: seq<Block>, ino: Inode)
    requires TightTo(d, ino, ino.size) && ino.size % BSIZE != 0
    ensures Rounded(ino.size) <= MAXBYTES
    ensures Contents(d, ino.(size := Rounded(ino.size))) == Contents(d, ino) + seq(Rounded(ino.size) - ino.size, _ => 0)
  {
    var n := Rounded(ino.size);
    ResizeTight(d, ino, ino.size, n);
    var ino' := ino.(size := n);
    forall bn: nat | bn < MAXFILE
      ensures DataAddr(d, ino', bn) == DataAddr(d, ino, bn)
    {
    }
    hide DataAddr;
    assert forall k: nat :: k < MAXBYTES ==> FileByte(d, ino', k) == FileByte(d, ino, k);
    hide FileByte;
  }

  /** With 62 files the root's entries fill one block exactly: its second block is not there. */
  lemma RootHole(d: seq<Block>, root: Inode)
    requires TightTo(d, root, root.size) && root.size == ENTRY * (2 + 62)
    ensures Rounded(root.size) == 2 * BSIZE && DataAddr(d, root, 1) == 0
    ensures !Covered(d, root.(size := Rounded(root.size)), Rounded(root.size))
  {
    hide DataAddr, FileByte;
    RoundedCovered(d, root);
  }

  lemma WholeBlocks(n: nat)
    ensures ENTRY * n % BSIZE == 0 <==> n % 64 == 0
  {
  }

  /** The image that mkfs leaves: bitmap and owners agree, with one owner for each block handed out, and the files are
      those made, the root directory rounded up to whole blocks. */
  ghost predicate IsImage(sb: Super, blocks: seq<Block>, inodes: seq<Inode>, owner: Owner, freeblock: nat,
                          files: seq<Source>)
  {
    && 2 + |files| <= |inodes| == sb.ninodes <= USHORT && Inv(sb, blocks, inodes, owner)
    && (forall b :: b in owner <==> sb.Datastart() <= b < freeblock)
    && |blocks| == sb.size && (forall b :: 0 <= b < sb.bmapstart ==> blocks[b] == ZeroBlock())
    && var made := Made(|inodes|, files, |files|);
       freeblock == sb.Datastart() + TotalFor(made) && RootIs(blocks, inodes[ROOTINO], made[ROOTINO])
       && forall i: nat :: i < |inodes| && i != ROOTINO ==> FileIs(blocks, inodes[i], made[i])
  }

  ghost predicate FileIs(d: seq<Block>, ino: Inode, c: seq<Byte>) {
    |ino.addrs| == NDIRECT + 1 && Covered(d, ino, ino.size) && Contents(d, ino) == c
  }

  /** The root directory has the blocks of its entries c, and their size rounded. */
  ghost predicate RootIs(d: seq<Block>, ino: Inode, c: seq<Byte>) {
    && |c| <= MAXBYTES && ino.size == Rounded(|c|)
    && var root := ino.(size := |c|);
       TightTo(d, root, |c|) && Contents(d, root) == c
  }

  lemma RootRounded(d: seq<Block>, ino: Inode)
    requires TightTo(d, ino, ino.size)
    ensures RootIs(d, ino.(size := Rounded(ino.size)), Contents(d, ino))
  {
    var ino' := ino.(size := Rounded(ino.size));
    assert ino'.(size := ino.size) == ino;
    hide TightTo, Contents;
  }

  /** It has no hole exactly when the entries do not end with a block, and then holds them and empty ones. */
  lemma RootHoles(d: seq<Block>, ino: Inode, c: seq<Byte>, n: nat)
    requires RootIs(d, ino, c) && |c| == ENTRY * n
    ensures |ino.addrs| == NDIRECT + 1 && (Covered(d, ino, ino.size) <==> n % 64 != 0)
    ensures n % 64 != 0 ==> Contents(d, ino) == c + seq(ino.size - |c|, _ => 0)
  {
    var root := ino.(size := |c|);
    assert root.(size := Rounded(|c|)) == ino;
    RoundedCovered(d, root);
    WholeBlocks(n);
    if n % 64 != 0 {
      RoundedContents(d, root);
    }
    hide TightTo, Covered, Contents;
  }

  lemma FileDone(d: seq<Block>, ino: Inode)
    requires TightTo(d, ino, ino.size)
    ensures FileIs(d, ino, Contents(d, ino))
  {
    TightCovered(d, ino, ino.size);
  }

  lemma Finishing(sb: Super, d: seq<Block>, inodes: seq<Inode>, owner: Owner, fb: nat, files: seq<Source>)
    requires 2 + |files| <= |inodes| == sb.ninodes <= USHORT && Inv(sb, d, inodes, owner)
    requires forall b :: b in owner <==> sb.Datastart() <= b < fb
    requires |d| == sb.size && forall b :: 0 <= b < sb.bmapstart ==> d[b] == ZeroBlock()
    requires forall j: nat :: j < |inodes| ==> |inodes[j].addrs| == NDIRECT + 1 && inodes[j].size <= MAXBYTES
    requires forall j: nat :: j < |inodes| ==> TightTo(d, inodes[j], inodes[j].size)
    requires FilesOf(d, inodes) == Made(|inodes|, files, |files|) && inodes[ROOTINO].size == ENTRY * (2 + |files|)
    requires fb == sb.Datastart() + TotalFor(Made(|inodes|, files, |files|))
    ensures IsImage(sb, d, inodes[ROOTINO := inodes[ROOTINO].(size := Rounded(inodes[ROOTINO].size))], owner, fb, files)
  {
    ResizeKeeps(sb, d, inodes, owner, ROOTINO, Rounded(inodes[ROOTINO].size));
    RootRounded(d, inodes[ROOTINO]);
    hide RootIs, FileIs, Contents, Inv, Made, TotalFor, TightTo;
    forall i: nat | i < |inodes|
      ensures FileIs(d, inodes[i], FilesOf(d, inodes)[i])
    {
      FileDone(d, inodes[i]);
    }
  }

  /** The root's size, and the bitmap. */
  method Finish(img: Image, files: seq<Source>)
    requires Partly(img, files, |files|)
    modifies img`inodes, img`blocks
    ensures Fits(img.sb, files) && IsImage(img.sb, img.blocks, img.inodes, img.owner, img.freeblock, files)
  {
    Enough(img, files);
    ghost var d := Unmarked(img, files);
    hide IsImage, TightTo, Made, FilesOf, BitmapOf, Inv, Fits, Partly, IsSet, TotalFor;
    Finishing(img.sb, d, img.inodes, img.owner, img.freeblock, files);
    var din := img.inodes[ROOTINO];
    var off := din.size;
    off := (off / BSIZE + 1) * BSIZE;
    assert off == Rounded(din.size);
    img.inodes := img.inodes[ROOTINO := din.(size := off)];
    var buf := BitmapBlock(img.freeblock);
    img.blocks := img.blocks[img.sb.bmapstart := buf];
  }

  /** What there is before it: d is the disk but for the bitmap. */
  lemma Unmarked(img: Image, files: seq<Source>) returns (d: seq<Block>)
    requires Partly(img, files, |files|)
    ensures img.freeblock < BPB && img.sb.bmapstart < |img.blocks|
      && d == img.blocks[img.sb.bmapstart := BitmapOf(img.freeblock)]
    ensures Inv(img.sb, d, img.inodes, img.owner)
      && (forall b :: b in img.owner <==> img.sb.Datastart() <= b < img.freeblock)
    ensures |d| == img.sb.size && forall b :: 0 <= b < img.sb.bmapstart ==> d[b] == ZeroBlock()
    ensures forall j: nat :: j < |img.inodes| ==> |img.inodes[j].addrs| == NDIRECT + 1 && img.inodes[j].size <= MAXBYTES
    ensures forall j: nat :: j < |img.inodes| ==> TightTo(d, img.inodes[j], img.inodes[j].size)
    ensures 2 + |files| <= |img.inodes| == img.sb.ninodes <= USHORT
    ensures FilesOf(d, img.inodes) == Made(|img.inodes|, files, |files|)
    ensures img.inodes[ROOTINO].size == ENTRY * (2 + |files|)
    ensures img.freeblock == img.sb.Datastart() + TotalFor(Made(|img.inodes|, files, |files|))
  {
    hide BitmapOf, Inv, Made;
    d := img.Disk();
    assert forall j: nat :: j < |img.inodes| ==> TightTo(d, img.inodes[j], img.inodes[j].size);
    hide DataAddr, FileByte;
  }

  lemma Enough(img: Image, files: seq<Source>)
    requires Partly(img, files, |files|)
    ensures Fits(img.sb, files)
  {
    hide Made, LaidOut, Marked;
    InSize(img.sb, img.blocks, img.inodes, img.owner, img.freeblock);
    forall i | 0 <= i < |img.inodes|
      ensures |img.All()[i]| <= MAXBYTES
    {
      assert TightTo(img.Disk(), img.inodes[i], img.inodes[i].size);
    }
  }

  /** main: the root directory, the files, the root's size, the bitmap. It comes to its end exactly when everything
      fits, and then the blocks handed out, and no others, are marked in the bitmap and owned by one slot each, and
      each file has its contents. The root directory has no hole exactly when its entries do not end with a block. */
  method Make(sb: Super, files: seq<Source>) returns (img: Image, ok: bool)
    requires sb.Good() && sb.size < BPB && sb.ninodes <= USHORT
    ensures fresh(img) && img.sb == sb
    ensures ok <==> Fits(sb, files)
    ensures ok ==> IsImage(sb, img.blocks, img.inodes, img.owner, img.freeblock, files)
  {
    hide Image.Valid, Image.Counted;
    hide Dirent, Partly, IsImage, Made, Room;
    img := new Image(sb);
    if 2 + |files| > sb.ninodes {
      // more files than inodes: the last ones' would end up past the inode table
      return img, false;
    }
    NoFiles(img);
    hide Fits;
    ok := Root(img, files, Dirent(DOT, ROOTINO), Dirent(DOT + DOT, ROOTINO));
    var k := 0;
    while ok && k < |files|
      invariant 0 <= k <= |files| && img.sb == sb && fresh(img)
      invariant ok ==> Partly(img, files, k)
      invariant !ok ==> !Fits(sb, files)
      decreases ok, |files| - k
    {
      ok := AddFile(img, files, k);
      k := if ok then k + 1 else k;
    }
    if ok {
      Finish(img, files);
    }
  }

  /** The image with the first k files. */
  ghost predicate Partly(img: Image, files: seq<Source>, k: nat)
    reads img
  {
    && k <= |files| && 2 + |files| <= img.sb.ninodes == |img.inodes| <= USHORT
    && img.Counted() && img.freeinode == 2 + k && img.All() == Made(|img.inodes|, files, k)
  }

  /** The root directory, with its entries "." and "..". */
  method Root(img: Image, files: seq<Source>, dot: seq<Byte>, dots: seq<Byte>) returns (ok: bool)
    requires img.Counted() && img.freeinode == 1 && forall i :: 0 <= i < |img.inodes| ==> img.All()[i] == []
    requires 2 + |files| <= img.sb.ninodes == |img.inodes| <= USHORT
    requires dot == Dirent(DOT, ROOTINO) && dots == Dirent(DOT + DOT, ROOTINO)
    modifies img
    ensures ok ==> Partly(img, files, 0)
    ensures !ok ==> !Fits(img.sb, files)
  {
    hide Image.Valid, Image.Laid;
    hide Made, Entries, Shorter, Dirent;
    ghost var n, all := |img.inodes|, img.All();
    RootMade(n, files, all, dot, dots);
    assert all[ROOTINO] + dot == dot;
    var inum := img.Ialloc();
    assert img.All() == all;
    ok := img.Append(ROOTINO, dot);
    assert all[ROOTINO := dot][ROOTINO := dot + dots] == all[ROOTINO := dot + dots];
    if !ok {
      RootNotEnough(img.sb, files, all[ROOTINO := dot]);
      return;
    }
    ok := img.Append(ROOTINO, dots);
    if !ok {
      RootNotEnough(img.sb, files, all[ROOTINO := dot + dots]);
    }
  }

  lemma RootNotEnough(sb: Super, files: seq<Source>, all: seq<seq<Byte>>)
    requires 2 + |files| <= sb.ninodes <= USHORT && Shorter(all, Made(sb.ninodes, files, |files|)) && !Room(sb, all)
    ensures !Fits(sb, files)
  {
    hide Made, Shorter, Room;
    if Fits(sb, files) {
      RoomShorter(sb, all, Made(sb.ninodes, files, |files|));
    }
  }

  lemma NoFiles(img: Image)
    requires img.Valid() && img.freeblock == img.sb.Datastart()
    requires forall j :: 0 <= j < |img.inodes| ==> img.inodes[j] == EMPTY
    ensures img.Counted() && forall i :: 0 <= i < |img.inodes| ==> img.All()[i] == []
  {
    hide LaidOut, Marked;
    TotalNone(img.All());
  }

  lemma RootMade(n: nat, files: seq<Source>, all: seq<seq<Byte>>, dot: seq<Byte>, dots: seq<Byte>)
    requires |all| == n && 2 + |files| <= n <= USHORT && forall i :: 0 <= i < n ==> all[i] == []
    requires dot == Dirent(DOT, ROOTINO) && dots == Dirent(DOT + DOT, ROOTINO)
    ensures all[ROOTINO := dot + dots] == Made(n, files, 0)
    ensures Shorter(all[ROOTINO := dot], Made(n, files, |files|))
      && Shorter(all[ROOTINO := dot + dots], Made(n, files, |files|))
  {
    hide Dirent, Joined;
  }

  /** The state that file operations need, no file with a hole, is there after mkfs exactly when the number of entries
      of the root directory is not a multiple of 64. */
  lemma NoHoles(sb: Super, blocks: seq<Block>, inodes: seq<Inode>, owner: Owner, fb: nat, files: seq<Source>)
    requires IsImage(sb, blocks, inodes, owner, fb, files)
    ensures forall i: nat :: i < |inodes| ==> |inodes[i].addrs| == NDIRECT + 1
    ensures (forall i: nat :: i < |inodes| ==> Covered(blocks, inodes[i], inodes[i].size)) <==> (2 + |files|) % 64 != 0
  {
    hide Covered, Contents, Inv, Joined, Dirent, TotalFor, RootIs;
    var made := Made(|inodes|, files, |files|);
    RootHoles(blocks, inodes[ROOTINO], made[ROOTINO], 2 + |files|);
    forall i: nat | i < |inodes| && i != ROOTINO
      ensures |inodes[i].addrs| == NDIRECT + 1 && Covered(blocks, inodes[i], inodes[i].size)
    {
      assert FileIs(blocks, inodes[i], made[i]);
    }
  }
}
