/** Inodes, the blocks they own, and file contents, as functions of the plain block map. */
module Files {
  import opened Blocks
  import opened Bitmap

  const NDIRECT := 12
  const NINDIRECT := WORDS
  const MAXFILE := NDIRECT + NINDIRECT
  const IPB := 16

  /** An inode lists NDIRECT data blocks, its indirect block, and through it NINDIRECT more data blocks. */
  const NSLOT := MAXFILE + 1
  const INDIRECT := NDIRECT

  datatype Super = Super(size: nat, ninodes: nat, inodestart: nat, bmapstart: nat) {
    function Datastart(): (r: nat)
      ensures bmapstart < r
    {
      bmapstart + size / BPB + 1
    }

    predicate Good() {
      2 <= inodestart && inodestart + ninodes / IPB + 1 <= bmapstart && Datastart() <= size < UINT
    }

    /** BBLOCK */
    function Bblock(b: nat): (r: nat)
      ensures bmapstart <= r && (b < size ==> r < Datastart())
    {
      b / BPB + bmapstart
    }

    /** IBLOCK */
    function Iblock(i: nat): nat {
      i / IPB + inodestart
    }
  }

  datatype Inode = Inode(size: nat, addrs: seq<nat>)

  const EMPTY := Inode(0, seq(NDIRECT + 1, _ => 0))

  /** The slot of an inode that lists the bn-th block of the file. */
  function DataSlot(bn: nat): nat {
    if bn < NDIRECT then bn else bn + 1
  }

  predicate ShapeOk(sb: Super, blocks: seq<Block>, inodes: seq<Inode>) {
    && sb.Good() && |blocks| == sb.size && |inodes| == sb.ninodes
    && forall i :: 0 <= i < |inodes| ==> |inodes[i].addrs| == NDIRECT + 1
  }

  predicate Used(sb: Super, blocks: seq<Block>, b: nat)
    requires sb.Good() && |blocks| == sb.size && b < sb.size
  {
    IsSet(blocks[sb.Bblock(b)], b % BPB)
  }

  /** The block listed in slot s of an inode, 0 if none. */
  function SlotAddr(blocks: seq<Block>, ino: Inode, s: nat): nat
    requires |ino.addrs| == NDIRECT + 1 && s < NSLOT
  {
    if s <= INDIRECT then ino.addrs[s]
    else if 0 < ino.addrs[INDIRECT] < |blocks| then Word(blocks[ino.addrs[INDIRECT]], s - INDIRECT - 1)
    else 0
  }

  /** The block that holds bytes bn * BSIZE .. (bn + 1) * BSIZE of the file, 0 if none. */
  function DataAddr(blocks: seq<Block>, ino: Inode, bn: nat): nat
    requires |ino.addrs| == NDIRECT + 1 && bn < MAXFILE
  {
    SlotAddr(blocks, ino, DataSlot(bn))
  }

  /** owner maps each allocated data block to the inode and the slot that list it. */
  type Owner = map<nat, (nat, nat)>

  ghost predicate BitsOk(sb: Super, blocks: seq<Block>, owner: Owner)
    requires sb.Good() && |blocks| == sb.size
  {
    forall b: nat :: b < sb.size ==> (Used(sb, blocks, b) <==> b < sb.Datastart() || b in owner)
  }

  ghost predicate SlotsOwned(blocks: seq<Block>, inodes: seq<Inode>, owner: Owner)
    requires forall i :: 0 <= i < |inodes| ==> |inodes[i].addrs| == NDIRECT + 1
  {
    forall i: nat, s: nat :: i < |inodes| && s < NSLOT ==> OwnedBy(owner, SlotAddr(blocks, inodes[i], s), i, s)
  }

  ghost predicate OwnedBy(owner: Owner, a: nat, i: nat, s: nat) {
    a != 0 ==> a in owner && owner[a] == (i, s)
  }

  ghost predicate OwnersHold(sb: Super, blocks: seq<Block>, inodes: seq<Inode>, owner: Owner)
    requires forall i :: 0 <= i < |inodes| ==> |inodes[i].addrs| == NDIRECT + 1
  {
    forall b :: b in owner ==>
      && sb.Datastart() <= b < sb.size && owner[b].0 < |inodes| && owner[b].1 < NSLOT
      && SlotAddr(blocks, inodes[owner[b].0], owner[b].1) == b
  }

  /** Every allocated block is listed by exactly one slot of one inode, and the set bits of the
      bitmap are the metadata blocks and the listed blocks. */
  ghost predicate Inv(sb: Super, blocks: seq<Block>, inodes: seq<Inode>, owner: Owner) {
    && ShapeOk(sb, blocks, inodes) && BitsOk(sb, blocks, owner)
    && SlotsOwned(blocks, inodes, owner) && OwnersHold(sb, blocks, inodes, owner)
  }

  /** Ownership in terms of addresses alone: all listed addresses are pairwise distinct, and a
      block past the metadata is marked exactly when some slot lists it. */
  lemma Ownership(sb: Super, blocks: seq<Block>, inodes: seq<Inode>, owner: Owner)
    requires Inv(sb, blocks, inodes, owner)
    ensures forall i: nat, s: nat, j: nat, t: nat | i < |inodes| && s < NSLOT && j < |inodes| && t < NSLOT ::
      SlotAddr(blocks, inodes[i], s) == SlotAddr(blocks, inodes[j], t) != 0 ==> i == j && s == t
    ensures forall b: nat :: sb.Datastart() <= b < sb.size ==>
      (Used(sb, blocks, b) <==>
        exists i: nat, s: nat :: i < |inodes| && s < NSLOT && SlotAddr(blocks, inodes[i], s) == b)
  {
    hide Super.Bblock, Super.Datastart;
    hide SlotAddr, Used;
    forall i: nat, s: nat, j: nat, t: nat | i < |inodes| && s < NSLOT && j < |inodes| && t < NSLOT &&
      SlotAddr(blocks, inodes[i], s) == SlotAddr(blocks, inodes[j], t) != 0
      ensures i == j && s == t
    {
      assert OwnedBy(owner, SlotAddr(blocks, inodes[i], s), i, s)
        && OwnedBy(owner, SlotAddr(blocks, inodes[j], t), j, t);
    }
    forall b: nat | sb.Datastart() <= b < sb.size
      ensures Used(sb, blocks, b) <==>
        exists i: nat, s: nat :: i < |inodes| && s < NSLOT && SlotAddr(blocks, inodes[i], s) == b
    {
      if i: nat, s: nat :| i < |inodes| && s < NSLOT && SlotAddr(blocks, inodes[i], s) == b {
        assert OwnedBy(owner, SlotAddr(blocks, inodes[i], s), i, s);
      }
      if b in owner {
        assert SlotAddr(blocks, inodes[owner[b].0], owner[b].1) == b;
      }
    }
  }

  /** A block other than its indirect block does not matter to what an inode lists. */
  lemma SlotFrame(blocks: seq<Block>, ino: Inode, b: nat, x: Block, s: nat)
    requires |ino.addrs| == NDIRECT + 1 && s < NSLOT && b < |blocks| && ino.addrs[INDIRECT] != b
    ensures SlotAddr(blocks[b := x], ino, s) == SlotAddr(blocks, ino, s)
  {
    hide Super.Bblock, Super.Datastart;
  }

  /** Nor does the bitmap to anything but its bit. */
  lemma UsedFrame(sb: Super, blocks: seq<Block>, b: nat, x: Block, k: nat)
    requires sb.Good() && |blocks| == sb.size && sb.Datastart() <= b < sb.size && k < sb.size
    ensures Used(sb, blocks[b := x], k) == Used(sb, blocks, k)
  {
  }

  /** Indirect blocks are owned, by the slot that lists them. */
  lemma IndirectOwned(sb: Super, blocks: seq<Block>, inodes: seq<Inode>, owner: Owner, i: nat)
    requires Inv(sb, blocks, inodes, owner) && i < |inodes|
    ensures var a := inodes[i].addrs[INDIRECT]; a != 0 ==>
      a in owner && owner[a] == (i, INDIRECT) && sb.Datastart() <= a < sb.size
  {
    hide Super.Bblock, Super.Datastart;
    assert OwnedBy(owner, SlotAddr(blocks, inodes[i], INDIRECT), i, INDIRECT);
  }

  /** Writing a block that no inode uses as its indirect block keeps the invariant. */
  lemma WriteKeeps(sb: Super, blocks: seq<Block>, inodes: seq<Inode>, owner: Owner, b: nat, x: Block)
    requires Inv(sb, blocks, inodes, owner) && sb.Datastart() <= b < sb.size
    requires b in owner ==> owner[b].1 != INDIRECT
    ensures Inv(sb, blocks[b := x], inodes, owner)
    ensures forall i: nat, s: nat :: i < |inodes| && s < NSLOT ==>
      SlotAddr(blocks[b := x], inodes[i], s) == SlotAddr(blocks, inodes[i], s)
  {
    hide Super.Bblock, Super.Datastart;
    hide SlotAddr, Used;
    var blocks' := blocks[b := x];
    forall i: nat, s: nat | i < |inodes| && s < NSLOT
      ensures SlotAddr(blocks', inodes[i], s) == SlotAddr(blocks, inodes[i], s)
    {
      IndirectOwned(sb, blocks, inodes, owner, i);
      SlotFrame(blocks, inodes[i], b, x, s);
    }
    forall k: nat | k < sb.size
      ensures Used(sb, blocks', k) == Used(sb, blocks, k)
    {
      UsedFrame(sb, blocks, b, x, k);
    }
    assert BitsOk(sb, blocks', owner);
    assert SlotsOwned(blocks', inodes, owner);
    assert OwnersHold(sb, blocks', inodes, owner);
  }

  /** The state between balloc's marking of b, with its contents zeroed, and b's entry in a slot. */
  ghost predicate Pending(sb: Super, blocks: seq<Block>, inodes: seq<Inode>, owner: Owner, b: nat) {
    && ShapeOk(sb, blocks, inodes) && SlotsOwned(blocks, inodes, owner) && OwnersHold(sb, blocks, inodes, owner)
    && sb.Datastart() <= b < sb.size && b !in owner && blocks[b] == ZeroBlock()
    && (forall k: nat :: k < sb.size ==> (Used(sb, blocks, k) <==> k < sb.Datastart() || k in owner || k == b))
  }

  /** balloc's change to the block map. */
  function MarkAndZero(sb: Super, blocks: seq<Block>, b: nat): (r: seq<Block>)
    requires sb.Good() && |blocks| == sb.size && b < sb.size && !Used(sb, blocks, b)
    ensures |r| == |blocks|
  {
    blocks[sb.Bblock(b) := MarkBit(blocks[sb.Bblock(b)], b % BPB)][b := ZeroBlock()]
  }

  lemma MarkUsed(sb: Super, blocks: seq<Block>, b: nat, k: nat)
    requires sb.Good() && |blocks| == sb.size && sb.Datastart() <= b < sb.size && k < sb.size && !Used(sb, blocks, b)
    ensures Used(sb, MarkAndZero(sb, blocks, b), k) <==> k == b || Used(sb, blocks, k)
  {
    hide IsSet, MarkBit;
    assert k == b <==> k / BPB == b / BPB && k % BPB == b % BPB;
    if k / BPB == b / BPB {
      SetBits(blocks[sb.Bblock(b)], b % BPB, k % BPB);
    }
  }

  lemma MarkPending(sb: Super, blocks: seq<Block>, inodes: seq<Inode>, owner: Owner, b: nat)
    requires Inv(sb, blocks, inodes, owner) && b < sb.size && !Used(sb, blocks, b)
    ensures Pending(sb, MarkAndZero(sb, blocks, b), inodes, owner, b)
    ensures forall i: nat, s: nat :: i < |inodes| && s < NSLOT ==>
      SlotAddr(MarkAndZero(sb, blocks, b), inodes[i], s) == SlotAddr(blocks, inodes[i], s)
    ensures forall k: nat :: k < sb.size && k != b && k != sb.Bblock(b) ==> MarkAndZero(sb, blocks, b)[k] == blocks[k]
  {
    hide Super.Bblock, Super.Datastart;
    var x := MarkBit(blocks[sb.Bblock(b)], b % BPB);
    hide SlotAddr, Used;
    var blocks' := MarkAndZero(sb, blocks, b);
    forall k: nat | k < sb.size
      ensures Used(sb, blocks', k) <==> k == b || Used(sb, blocks, k)
    {
      MarkUsed(sb, blocks, b, k);
    }
    forall i: nat, s: nat | i < |inodes| && s < NSLOT
      ensures SlotAddr(blocks', inodes[i], s) == SlotAddr(blocks, inodes[i], s)
    {
      IndirectOwned(sb, blocks, inodes, owner, i);
      SlotFrame(blocks, inodes[i], sb.Bblock(b), x, s);
      SlotFrame(blocks[sb.Bblock(b) := x], inodes[i], b, ZeroBlock(), s);
    }
    assert SlotsOwned(blocks', inodes, owner);
    assert OwnersHold(sb, blocks', inodes, owner);
  }

  /** The slots list what they did, except that slot s of inode i lists b. */
  ghost predicate OneSlotMore(blocks: seq<Block>, inodes: seq<Inode>, blocks': seq<Block>, inodes': seq<Inode>,
                              i: nat, s: nat, b: nat) {
    && |inodes'| == |inodes| && i < |inodes| && s < NSLOT
    && (forall j :: 0 <= j < |inodes| ==> |inodes[j].addrs| == NDIRECT + 1 && |inodes'[j].addrs| == NDIRECT + 1)
    && SlotAddr(blocks, inodes[i], s) == 0
    && (forall j: nat, t: nat :: j < |inodes| && t < NSLOT ==>
         SlotAddr(blocks', inodes'[j], t) == if j == i && t == s then b else SlotAddr(blocks, inodes[j], t))
  }

  lemma OwnSlots(blocks: seq<Block>, inodes: seq<Inode>, owner: Owner, b: nat, blocks': seq<Block>,
                 inodes': seq<Inode>, i: nat, s: nat)
    requires OneSlotMore(blocks, inodes, blocks', inodes', i, s, b) && SlotsOwned(blocks, inodes, owner)
      && b !in owner
    ensures SlotsOwned(blocks', inodes', owner[b := (i, s)])
  {
    hide Super.Bblock, Super.Datastart;
    hide SlotAddr;
    forall j: nat, t: nat | j < |inodes| && t < NSLOT
      ensures OwnedBy(owner[b := (i, s)], SlotAddr(blocks', inodes'[j], t), j, t)
    {
      assert OwnedBy(owner, SlotAddr(blocks, inodes[j], t), j, t);
    }
  }

  lemma OwnHolds(sb: Super, blocks: seq<Block>, inodes: seq<Inode>, owner: Owner, b: nat, blocks': seq<Block>,
                 inodes': seq<Inode>, i: nat, s: nat)
    requires OneSlotMore(blocks, inodes, blocks', inodes', i, s, b) && OwnersHold(sb, blocks, inodes, owner)
    requires sb.Datastart() <= b < sb.size && 0 < sb.Datastart()
    ensures OwnersHold(sb, blocks', inodes', owner[b := (i, s)])
  {
    hide Super.Bblock, Super.Datastart;
    hide SlotAddr;
    forall c | c in owner && c != b
      ensures SlotAddr(blocks', inodes'[owner[c].0], owner[c].1) == c
    {
      assert SlotAddr(blocks, inodes[owner[c].0], owner[c].1) == c;
    }
  }

  /** Entering the pending block in one empty slot completes the allocation. */
  lemma OwnOne(sb: Super, blocks: seq<Block>, inodes: seq<Inode>, owner: Owner, b: nat, blocks': seq<Block>,
               inodes': seq<Inode>, i: nat, s: nat)
    requires Pending(sb, blocks, inodes, owner, b) && ShapeOk(sb, blocks', inodes')
    requires forall k: nat :: k < sb.size ==> Used(sb, blocks', k) == Used(sb, blocks, k)
    requires OneSlotMore(blocks, inodes, blocks', inodes', i, s, b)
    ensures Inv(sb, blocks', inodes', owner[b := (i, s)])
  {
    hide Super.Bblock, Super.Datastart;
    hide SlotAddr, Used, SlotsOwned, OwnersHold, OneSlotMore;
    OwnSlots(blocks, inodes, owner, b, blocks', inodes', i, s);
    OwnHolds(sb, blocks, inodes, owner, b, blocks', inodes', i, s);
  }

  function WithAddr(ino: Inode, s: nat, b: nat): Inode
    requires |ino.addrs| == NDIRECT + 1 && s <= INDIRECT
  {
    ino.(addrs := ino.addrs[s := b])
  }

  /** The words of a zeroed block are zero. */
  lemma ZeroWords(k: nat)
    requires k < WORDS
    ensures Word(ZeroBlock(), k) == 0
  {
  }

  /** bmap enters a new block in the inode itself, be it a data block or the indirect block: zeroing
      keeps stale addresses from showing up through the latter. */
  lemma EnterInInode(sb: Super, blocks: seq<Block>, inodes: seq<Inode>, owner: Owner, b: nat, i: nat, s: nat)
    requires Pending(sb, blocks, inodes, owner, b) && i < |inodes| && s <= INDIRECT && inodes[i].addrs[s] == 0
    ensures Inv(sb, blocks, inodes[i := WithAddr(inodes[i], s, b)], owner[b := (i, s)])
  {
    hide Super.Bblock, Super.Datastart;
    var inodes' := inodes[i := WithAddr(inodes[i], s, b)];
    hide Used, Word;
    forall j: nat, t: nat | j < |inodes| && t < NSLOT
      ensures SlotAddr(blocks, inodes'[j], t) == if j == i && t == s then b else SlotAddr(blocks, inodes[j], t)
    {
      if t > INDIRECT {
        ZeroWords(t - INDIRECT - 1);
      }
    }
    OwnOne(sb, blocks, inodes, owner, b, blocks, inodes', i, s);
  }

  /** bmap enters a new data block in the indirect block. */
  lemma EnterInBlock(sb: Super, blocks: seq<Block>, inodes: seq<Inode>, owner: Owner, b: nat, i: nat, s: nat)
    requires Pending(sb, blocks, inodes, owner, b) && i < |inodes| && INDIRECT < s < NSLOT
    requires inodes[i].addrs[INDIRECT] != 0 && SlotAddr(blocks, inodes[i], s) == 0
    ensures var ind := inodes[i].addrs[INDIRECT];
      && ind < sb.size
      && Inv(sb, blocks[ind := SetWord(blocks[ind], s - INDIRECT - 1, b)], inodes, owner[b := (i, s)])
  {
    hide Super.Bblock, Super.Datastart;
    var ind := inodes[i].addrs[INDIRECT];
    assert OwnedBy(owner, SlotAddr(blocks, inodes[i], INDIRECT), i, INDIRECT);
    var x := SetWord(blocks[ind], s - INDIRECT - 1, b);
    var blocks' := blocks[ind := x];
    hide Used, Word, SetWord;
    forall j: nat, t: nat | j < |inodes| && t < NSLOT
      ensures SlotAddr(blocks', inodes[j], t) == if j == i && t == s then b else SlotAddr(blocks, inodes[j], t)
    {
      if j != i {
        assert OwnedBy(owner, SlotAddr(blocks, inodes[j], INDIRECT), j, INDIRECT);
        SlotFrame(blocks, inodes[j], ind, x, t);
      } else if t > INDIRECT && t != s {
        SetWordFrame(blocks[ind], s - INDIRECT - 1, b, t - INDIRECT - 1);
      }
    }
    forall k: nat | k < sb.size
      ensures Used(sb, blocks', k) == Used(sb, blocks, k)
    {
      UsedFrame(sb, blocks, ind, x, k);
    }
    OwnOne(sb, blocks, inodes, owner, b, blocks', inodes, i, s);
  }

  const MAXBYTES := MAXFILE * BSIZE

  /** Byte k of the file of an inode. */
  function FileByte(blocks: seq<Block>, ino: Inode, k: nat): Byte
    requires |ino.addrs| == NDIRECT + 1 && k < MAXBYTES
  {
    var a := DataAddr(blocks, ino, k / BSIZE);
    if 0 < a < |blocks| then blocks[a][k % BSIZE] else 0
  }

  /** The file as a byte sequence. */
  function Contents(blocks: seq<Block>, ino: Inode): (c: seq<Byte>)
    requires |ino.addrs| == NDIRECT + 1 && ino.size <= MAXBYTES
    ensures |c| == ino.size
  {
    seq(ino.size, k requires 0 <= k < ino.size => FileByte(blocks, ino, k))
  }

  /** All the files. */
  ghost function FilesOf(d: seq<Block>, inodes: seq<Inode>): (all: seq<seq<Byte>>)
    requires forall j: nat :: j < |inodes| ==> |inodes[j].addrs| == NDIRECT + 1 && inodes[j].size <= MAXBYTES
    ensures |all| == |inodes| && forall j: nat :: j < |inodes| ==>
      all[j] == Contents(d, inodes[j]) && |all[j]| == inodes[j].size
  {
    seq(|inodes|, j requires 0 <= j < |inodes| => Contents(d, inodes[j]))
  }

  /** The first n bytes of the file have blocks. */
  ghost predicate Covered(blocks: seq<Block>, ino: Inode, n: nat)
    requires |ino.addrs| == NDIRECT + 1
  {
    n <= MAXBYTES && forall bn: nat :: bn < MAXFILE && bn * BSIZE < n ==> DataAddr(blocks, ino, bn) != 0
  }

  /** Blocks have been allocated and entered in slots; what was listed still is, and data is unchanged. */
  ghost predicate Grows(blocks: seq<Block>, inodes: seq<Inode>, owner: Owner, blocks': seq<Block>,
                        inodes': seq<Inode>, owner': Owner) {
    && |blocks'| == |blocks| && |inodes'| == |inodes|
    && (forall i :: 0 <= i < |inodes| ==> inodes'[i].size == inodes[i].size)
    && (forall b :: b in owner ==> b in owner' && owner'[b] == owner[b])
    && (forall b :: b in owner && b < |blocks| && owner[b].1 != INDIRECT ==> blocks'[b] == blocks[b])
  }

  lemma GrowsTransitive(blocks: seq<Block>, inodes: seq<Inode>, owner: Owner, blocks': seq<Block>,
                        inodes': seq<Inode>, owner': Owner, blocks'': seq<Block>, inodes'': seq<Inode>,
                        owner'': Owner)
    requires Grows(blocks, inodes, owner, blocks', inodes', owner')
      && Grows(blocks', inodes', owner', blocks'', inodes'', owner'')
    ensures Grows(blocks, inodes, owner, blocks'', inodes'', owner'')
  {
  }

  lemma GrowSlot(sb: Super, blocks: seq<Block>, inodes: seq<Inode>, owner: Owner, blocks': seq<Block>,
                 inodes': seq<Inode>, owner': Owner, i: nat, s: nat)
    requires Inv(sb, blocks, inodes, owner) && Inv(sb, blocks', inodes', owner')
    requires Grows(blocks, inodes, owner, blocks', inodes', owner') && i < |inodes| && s < NSLOT
    ensures var a := SlotAddr(blocks, inodes[i], s);
      a != 0 ==>
        SlotAddr(blocks', inodes'[i], s) == a && a in owner && owner[a] == (i, s) && sb.Datastart() <= a < sb.size
  {
    hide Super.Bblock, Super.Datastart;
    hide SlotAddr, Used;
    var a := SlotAddr(blocks, inodes[i], s);
    assert OwnedBy(owner, a, i, s);
    if a != 0 {
      assert a in owner' && owner'[a] == (i, s);
    }
  }

  lemma GrowByte(sb: Super, blocks: seq<Block>, inodes: seq<Inode>, owner: Owner, blocks': seq<Block>,
                 inodes': seq<Inode>, owner': Owner, i: nat, k: nat)
    requires Inv(sb, blocks, inodes, owner) && Inv(sb, blocks', inodes', owner')
    requires Grows(blocks, inodes, owner, blocks', inodes', owner') && i < |inodes| && k < MAXBYTES
    requires DataAddr(blocks, inodes[i], k / BSIZE) != 0
    ensures FileByte(blocks', inodes'[i], k) == FileByte(blocks, inodes[i], k)
  {
    hide Super.Bblock, Super.Datastart;
    hide SlotAddr, Used, Inv;
    GrowSlot(sb, blocks, inodes, owner, blocks', inodes', owner', i, DataSlot(k / BSIZE));
  }

  /** Overwriting part of a data block changes those bytes of the one file that lists it. */
  lemma PatchByte(sb: Super, blocks: seq<Block>, inodes: seq<Inode>, owner: Owner, i: nat, bn: nat, x: Block, j: nat,
                  k: nat)
    requires Inv(sb, blocks, inodes, owner) && i < |inodes| && j < |inodes| && bn < MAXFILE && k < MAXBYTES
    requires DataAddr(blocks, inodes[i], bn) != 0
    ensures var a := DataAddr(blocks, inodes[i], bn);
      && a < |blocks|
      && FileByte(blocks[a := x], inodes[j], k) ==
           if j == i && k / BSIZE == bn then x[k % BSIZE] else FileByte(blocks, inodes[j], k)
  {
    hide Super.Bblock, Super.Datastart;
    hide SlotAddr, Used;
    var a := DataAddr(blocks, inodes[i], bn);
    assert OwnedBy(owner, a, i, DataSlot(bn));
    assert OwnedBy(owner, SlotAddr(blocks, inodes[j], DataSlot(k / BSIZE)), j, DataSlot(k / BSIZE));
    IndirectOwned(sb, blocks, inodes, owner, j);
    SlotFrame(blocks, inodes[j], a, x, DataSlot(k / BSIZE));
  }

  /** The data blocks of an allocated slot are data blocks. */
  lemma DataBlock(sb: Super, blocks: seq<Block>, inodes: seq<Inode>, owner: Owner, i: nat, bn: nat)
    requires Inv(sb, blocks, inodes, owner) && i < |inodes| && bn < MAXFILE && DataAddr(blocks, inodes[i], bn) != 0
    ensures var a := DataAddr(blocks, inodes[i], bn);
      a in owner && owner[a] == (i, DataSlot(bn)) && sb.Datastart() <= a < sb.size
  {
    hide Super.Bblock, Super.Datastart;
    hide SlotAddr, Used;
    assert OwnedBy(owner, DataAddr(blocks, inodes[i], bn), i, DataSlot(bn));
  }

  /** The blocks listed by inode i. */
  ghost function OwnedOf(owner: Owner, i: nat): set<nat> {
    set b | b in owner && owner[b].0 == i
  }

  /** itrunc: with the bits of all blocks of inode i cleared and its slots empty, the rest is as before. */
  lemma Disown(sb: Super, blocks: seq<Block>, inodes: seq<Inode>, owner: Owner, i: nat, blocks': seq<Block>)
    requires Inv(sb, blocks, inodes, owner) && i < |inodes| && |blocks'| == |blocks|
    requires forall b :: sb.Datastart() <= b < sb.size ==> blocks'[b] == blocks[b]
    requires forall b: nat :: b < sb.size ==> (Used(sb, blocks', b) <==> Used(sb, blocks, b) && b !in OwnedOf(owner, i))
    ensures Inv(sb, blocks', inodes[i := EMPTY], owner - OwnedOf(owner, i))
    ensures forall j: nat, s: nat :: j < |inodes| && j != i && s < NSLOT ==>
      SlotAddr(blocks', inodes[j], s) == SlotAddr(blocks, inodes[j], s)
  {
    hide Super.Bblock, Super.Datastart;
    var inodes', owner' := inodes[i := EMPTY], owner - OwnedOf(owner, i);
    forall s: nat | s < NSLOT
      ensures SlotAddr(blocks', EMPTY, s) == 0
    {
    }
    hide Used;
    forall j: nat, s: nat | j < |inodes| && j != i && s < NSLOT
      ensures SlotAddr(blocks', inodes[j], s) == SlotAddr(blocks, inodes[j], s)
    {
      IndirectOwned(sb, blocks, inodes, owner, j);
    }
    hide SlotAddr;
    forall j: nat, s: nat | j < |inodes| && s < NSLOT
      ensures OwnedBy(owner', SlotAddr(blocks', inodes'[j], s), j, s)
    {
      assert OwnedBy(owner, SlotAddr(blocks, inodes[j], s), j, s);
    }
    forall b | b in owner'
      ensures SlotAddr(blocks', inodes'[owner'[b].0], owner'[b].1) == b
    {
      assert SlotAddr(blocks, inodes[owner[b].0], owner[b].1) == b;
    }
    assert BitsOk(sb, blocks', owner');
    assert OwnersHold(sb, blocks', inodes', owner');
  }
}
