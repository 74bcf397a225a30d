/** From the image that mkfs writes to a file system on its log: the state that file operations start from. */
module Mount {
  import opened Blocks
  import opened Collections
  import opened Bitmap
  import opened Files
  import opened Dir
  import opened RedoLog
  import opened Mkfs
  import opened Journal
  import F = Fs
  import B = Bio
  import L = Log
  import LogSpace

  /** The names that the root directory has entries for, as far as it keeps them. */
  function Names(files: seq<Source>): (names: seq<Name>)
    ensures |names| == 2 + |files|
  {
    [DOT, DOT + DOT] + seq(|files|, i requires 0 <= i < |files| => Key(files[i].name))
  }

  lemma DirentReads(name: Name, inum: nat)
    requires IsString(name) && inum < USHORT
    ensures var de := Dirent(name, inum); Inum(de, 0) == inum && CName(Field(de, 0)) == Key(name)
  {
    var de := Dirent(name, inum);
    CNamePadded(Key(name), seq(DIRSIZ - |Key(name)|, _ => 0));
    assert Field(de, 0) == Padded(name);
  }

  /** An entry of c stays where it is when bytes follow, and one that follows whole entries comes after them. */
  lemma EntryPrefix(c: seq<Byte>, d: seq<Byte>, j: nat)
    requires ENTRY * (j + 1) <= |c|
    ensures Inum(c + d, j) == Inum(c, j) && Field(c + d, j) == Field(c, j)
  {
  }

  lemma EntryLast(c: seq<Byte>, d: seq<Byte>, j: nat)
    requires |c| == ENTRY * j && |d| == ENTRY
    ensures Inum(c + d, j) == Inum(d, 0) && Field(c + d, j) == Field(d, 0)
  {
  }

  /** Entry j of the root directory has the j-th name, and the inode of the j-th source. */
  lemma {:induction false} EntryAt(files: seq<Source>, k: nat, j: nat)
    requires k <= |files| && 2 + k <= USHORT && j < 2 + k && forall i :: 0 <= i < |files| ==> IsString(files[i].name)
    ensures var c := Entries(files, k);
      Inum(c, j) == (if j < 2 then ROOTINO else j) && CName(Field(c, j)) == Names(files)[j]
  {
    hide Dirent, Inum, Field, CName;
    if k == 0 {
      DirentReads(DOT, ROOTINO);
      DirentReads(DOT + DOT, ROOTINO);
      var dot, dots := Dirent(DOT, ROOTINO), Dirent(DOT + DOT, ROOTINO);
      EntryPrefix(dot, dots, 0);
      EntryLast(dot, dots, 1);
    } else {
      var c, de := Entries(files, k - 1), Dirent(files[k - 1].name, 1 + k);
      if j == 1 + k {
        DirentReads(files[k - 1].name, 1 + k);
        EntryLast(c, de, j);
      } else {
        EntryAt(files, k - 1, j);
        EntryPrefix(c, de, j);
      }
    }
  }

  /** The root directory that mkfs leaves: the entries, and empty ones. */
  ghost function RootOf(files: seq<Source>, empty: nat): (c: seq<Byte>)
    requires 2 + |files| <= USHORT
    ensures |c| == ENTRY * (2 + |files| + empty)
  {
    Entries(files, |files|) + seq(ENTRY * empty, _ => 0)
  }

  lemma RootEntry(files: seq<Source>, empty: nat, j: nat)
    requires 2 + |files| <= USHORT && j < 2 + |files| + empty
    requires forall i :: 0 <= i < |files| ==> IsString(files[i].name)
    ensures var c := RootOf(files, empty);
      if j >= 2 + |files| then Inum(c, j) == 0
      else Inum(c, j) == (if j < 2 then ROOTINO else j) && CName(Field(c, j)) == Names(files)[j]
  {
    if j < 2 + |files| {
      EntryAt(files, |files|, j);
      EntryPrefix(Entries(files, |files|), seq(ENTRY * empty, _ => 0), j);
    }
  }

  /** The root is a directory if and only if the names, cut to DIRSIZ bytes, are different from each other and from "."
      and ".."; and then it has each file's inode under its name. */
  lemma RootDir(files: seq<Source>, empty: nat)
    requires 2 + |files| <= USHORT && forall i :: 0 <= i < |files| ==> IsString(files[i].name)
    ensures IsDir(RootOf(files, empty)) <==> NoDup(Names(files))
    ensures NoDup(Names(files)) ==> forall i :: 0 <= i < |files| ==>
      var m := DirMap(RootOf(files, empty)); Key(files[i].name) in m && m[Key(files[i].name)] == 2 + i
  {
    hide RootOf, Inum, Field, CName, DirMap, Key;
    var c, names := RootOf(files, empty), Names(files);
    assert |c| / ENTRY == 2 + |files| + empty && |c| % ENTRY == 0;
    forall j: nat | j < 2 + |files| + empty
      ensures if j >= 2 + |files| then Inum(c, j) == 0
        else Inum(c, j) == (if j < 2 then ROOTINO else j) && CName(Field(c, j)) == names[j]
    {
      RootEntry(files, empty, j);
    }
    if IsDir(c) {
      forall j: nat, k: nat | j < k < |names|
        ensures names[j] != names[k]
      {
        assert Inum(c, j) != 0 && Inum(c, k) != 0;
      }
    }
    if NoDup(names) {
      assert IsDir(c);
      forall i | 0 <= i < |files|
        ensures Key(files[i].name) in DirMap(c) && DirMap(c)[Key(files[i].name)] == 2 + i
      {
        assert names[2 + i] == Key(files[i].name);
        LiveInMap(c, 2 + i, names[2 + i]);
      }
    }
  }

  /** winode for every inode: the image as the blocks of a disk. */
  method WriteInodes(sb: Super, blocks: seq<Block>, inodes: seq<Inode>) returns (v: Disk)
    requires sb.Good() && |blocks| == sb.size && |inodes| == sb.ninodes
    requires forall i :: 0 <= i < |inodes| ==> Storable(inodes[i])
    ensures Carries(sb, v, blocks, inodes) && forall b :: 0 <= b < sb.inodestart ==> v[b] == blocks[b]
  {
    hide PutInode, InodeAt, Storable;
    v := blocks;
    var i := 0;
    while i < |inodes|
      invariant 0 <= i <= |inodes| && |v| == sb.size
      invariant forall b :: 0 <= b < sb.size && !(sb.inodestart <= b < sb.bmapstart) ==> v[b] == blocks[b]
      invariant forall j: nat :: j < i ==> InodeOn(sb, v, j) == inodes[j]
    {
      InodeBlocks(sb, i);
      var b := sb.Iblock(i);
      ghost var v0 := v;
      v := v[b := PutInode(v[b], i % IPB, inodes[i])];
      forall j: nat | j <= i
        ensures InodeOn(sb, v, j) == inodes[j]
      {
        WrittenInode(sb, v0, inodes[i], i, j);
      }
      i := i + 1;
    }
  }

  lemma WrittenInode(sb: Super, v: Disk, ino: Inode, i: nat, j: nat)
    requires sb.Good() && |v| == sb.size && i < sb.ninodes && j < sb.ninodes && Storable(ino)
    ensures sb.Iblock(i) < sb.size
    ensures InodeOn(sb, v[sb.Iblock(i) := PutInode(v[sb.Iblock(i)], i % IPB, ino)], j) ==
      if j == i then ino else InodeOn(sb, v, j)
  {
    hide PutInode, InodeAt, Storable;
    InodeBlocks(sb, i);
    if sb.Iblock(j) == sb.Iblock(i) {
      PutGet(v[sb.Iblock(i)], i % IPB, ino, j % IPB);
      if j % IPB == i % IPB {
        SameInode(sb, i, j);
      }
    }
  }

  /** The entries that rounding the root's size adds. */
  function Spare(files: seq<Source>): nat {
    64 - (2 + |files|) % 64
  }

  lemma SpareRounds(files: seq<Source>)
    ensures Rounded(ENTRY * (2 + |files|)) == ENTRY * (2 + |files| + Spare(files))
  {
  }

  lemma ImageStorable(sb: Super, blocks: seq<Block>, inodes: seq<Inode>, owner: Owner, fb: nat, files: seq<Source>,
                      i: nat)
    requires IsImage(sb, blocks, inodes, owner, fb, files) && i < |inodes|
    ensures Storable(inodes[i])
  {
    hide Inv, Joined, Dirent, TotalFor, Storable, DataAddr, FileByte;
    var made := Made(|inodes|, files, |files|);
    if i == ROOTINO {
      assert RootIs(blocks, inodes[i], made[i]) && |made[i]| == ENTRY * (2 + |files|);
    } else {
      assert FileIs(blocks, inodes[i], made[i]);
    }
    StorableInode(sb, blocks, inodes, owner, i);
  }

  /** The files of an image without holes. */
  lemma ImageFile(sb: Super, blocks: seq<Block>, inodes: seq<Inode>, owner: Owner, fb: nat, files: seq<Source>, i: nat)
    requires IsImage(sb, blocks, inodes, owner, fb, files) && i < |inodes| && (2 + |files|) % 64 != 0
    ensures |inodes[i].addrs| == NDIRECT + 1 && Covered(blocks, inodes[i], inodes[i].size)
    ensures Contents(blocks, inodes[i]) ==
      if i == ROOTINO then RootOf(files, Spare(files)) else Made(|inodes|, files, |files|)[i]
  {
    hide Inv, Joined, Dirent, TotalFor, Covered, Contents, RootIs;
    var made := Made(|inodes|, files, |files|);
    if i == ROOTINO {
      RootHoles(blocks, inodes[i], made[i], 2 + |files|);
      SpareRounds(files);
      RootSize(blocks, inodes[i], made[i]);
    } else {
      assert FileIs(blocks, inodes[i], made[i]);
    }
  }

  lemma RootSize(d: seq<Block>, ino: Inode, c: seq<Byte>)
    requires RootIs(d, ino, c)
    ensures ino.size == Rounded(|c|)
  {
  }

  /** Recovery of a disk with an empty log changes no home block. */
  lemma NothingToRecover(l: Layout, d: Disk)
    requires l.Fits(d) && d[l.start] == ZeroBlock()
    ensures Readable(l, d) && SameHomes(l, Recovered(l, d), d)
  {
    assert HeaderCount(d[l.start]) == 0;
  }

  /** Make the image, boot from it, and start file operations. They find the state that they need if and only if the
      number of the root's entries is not a multiple of 64; then the files are those made. */
  method Boot(sb: Super, l: Layout, files: seq<Source>, me: nat) returns (ok: bool, log: L.Log?, fs: F.Fs?)
    requires sb.Good() && sb.size < BPB && sb.ninodes <= USHORT && me != 0
    requires l.size == LogSpace.LOGSIZE && LogBefore(l, sb)
    ensures ok <==> Fits(sb, files)
    ensures ok ==> log != null && fs != null && log.layout == l && fs.sb == sb && |fs.inodes| == sb.ninodes
    ensures ok ==> (Mounted(log, fs, me) <==> (2 + |files|) % 64 != 0)
    ensures ok && (2 + |files|) % 64 != 0 ==> fs.Valid() && fs.File(ROOTINO) == RootOf(files, Spare(files))
    ensures ok && (2 + |files|) % 64 != 0 ==> forall i: nat :: i < |fs.inodes| && i != ROOTINO ==>
      fs.File(i) == Made(sb.ninodes, files, |files|)[i]
    ensures ok && (2 + |files|) % 64 != 0 && (forall i :: 0 <= i < |files| ==> IsString(files[i].name)) ==>
      (IsDir(fs.File(ROOTINO)) <==> NoDup(Names(files)))
  {
    hide IsImage, Made, Mounted, F.Fs.Valid, Fits, RootOf, IsDir;
    var img;
    img, ok := Make(sb, files);
    if !ok {
      return false, null, null;
    }
    ImageShape(sb, img.blocks, img.inodes, img.owner, img.freeblock, files);
    log, fs := Start(sb, l, img, files, me);
    if (2 + |files|) % 64 != 0 && forall i :: 0 <= i < |files| ==> IsString(files[i].name) {
      RootDir(files, Spare(files));
    }
  }

  /** The boot: from the image's blocks through recovery to a file system. */
  method Start(sb: Super, l: Layout, img: Image, ghost files: seq<Source>, me: nat) returns (log: L.Log, fs: F.Fs)
    requires img.sb == sb && IsImage(sb, img.blocks, img.inodes, img.owner, img.freeblock, files)
    requires sb.Good() && sb.size < BPB && me != 0 && l.size == LogSpace.LOGSIZE && LogBefore(l, sb)
    requires |img.inodes| == sb.ninodes && 2 + |files| <= sb.ninodes <= USHORT
    ensures log.layout == l && fs.sb == sb && |fs.inodes| == sb.ninodes
    ensures Mounted(log, fs, me) <==> (2 + |files|) % 64 != 0
    ensures (2 + |files|) % 64 != 0 ==> fs.Valid() && forall i: nat :: i < |fs.inodes| ==>
      fs.File(i) == if i == ROOTINO then RootOf(files, Spare(files)) else Made(sb.ninodes, files, |files|)[i]
  {
    hide IsImage, Contents, Covered, Inv, Made, Carries, B.Bcache.Valid, B.Bcache.Sharing, Recovered, RootOf,
      L.Log.Valid, L.Log.Quiet, Storable;
    forall i: nat | i < |img.inodes|
      ensures Storable(img.inodes[i])
    {
      ImageStorable(sb, img.blocks, img.inodes, img.owner, img.freeblock, files, i);
    }
    ImageShape(sb, img.blocks, img.inodes, img.owner, img.freeblock, files);
    var d := WriteInodes(sb, img.blocks, img.inodes);
    assert |d| == sb.size by { CarriedShape(sb, d, img.blocks, img.inodes); }
    var c := new B.Bcache(d);
    c.FreshShared(me);
    NothingToRecover(l, d);
    log := new L.Log(c, l, me);
    fs := new F.Fs(sb, img.blocks, img.inodes, img.owner);
    HomesCarry(l, sb, d, c.view, img.blocks, img.inodes);
    NoHoles(sb, img.blocks, img.inodes, img.owner, img.freeblock, files);
    if (2 + |files|) % 64 != 0 {
      forall i: nat | i < |fs.inodes|
        ensures fs.File(i) == if i == ROOTINO then RootOf(files, Spare(files)) else Made(sb.ninodes, files, |files|)[i]
      {
        ImageFile(sb, img.blocks, img.inodes, img.owner, img.freeblock, files, i);
      }
    }
  }

  lemma ImageShape(sb: Super, blocks: seq<Block>, inodes: seq<Inode>, owner: Owner, fb: nat, files: seq<Source>)
    requires IsImage(sb, blocks, inodes, owner, fb, files)
    ensures |inodes| == sb.ninodes > ROOTINO && |blocks| == sb.size && Inv(sb, blocks, inodes, owner)
    ensures 2 + |files| <= USHORT && 2 + |files| <= |inodes|
    ensures forall b :: 0 <= b < sb.bmapstart ==> blocks[b] == ZeroBlock()
  {
  }
}
