/** Directories: files of 16-byte entries, as a finite map from names cut to DIRSIZ bytes to inode numbers. */
module Dir {
  import opened Blocks
  import opened Bitmap
  import opened Files
  import opened Fs

  const DIRSIZ := 14
  const ENTRY := 16
  const USHORT := 0x1_0000

  type Name = seq<Byte>

  datatype Found = NotFound | Found(inum: nat, off: nat)

  /** A C string, without its NUL. */
  predicate IsString(s: seq<Byte>) {
    forall k :: 0 <= k < |s| ==> s[k] != 0
  }

  /** What a directory keeps of a name. */
  function Key(name: Name): Name {
    if |name| > DIRSIZ then name[..DIRSIZ] else name
  }

  /** The string in a name field: up to its first NUL. */
  function CName(field: seq<Byte>): (n: Name)
    ensures |n| <= |field| && n == field[..|n|] && IsString(n) && (|n| < |field| ==> field[|n|] == 0)
  {
    if field == [] || field[0] == 0 then [] else [field[0]] + CName(field[1..])
  }

  function Inum(c: seq<Byte>, k: nat): nat
    requires ENTRY * (k + 1) <= |c|
  {
    c[ENTRY * k] as int + 0x100 * c[ENTRY * k + 1] as int
  }

  function Field(c: seq<Byte>, k: nat): (f: seq<Byte>)
    requires ENTRY * (k + 1) <= |c|
    ensures |f| == DIRSIZ
  {
    c[ENTRY * k + 2..ENTRY * (k + 1)]
  }

  /** Entry k is in use and has the given name. */
  predicate Live(c: seq<Byte>, k: nat, name: Name)
    requires ENTRY * (k + 1) <= |c|
  {
    Inum(c, k) != 0 && CName(Field(c, k)) == name
  }

  /** A directory: whole entries, and no two in use with the same name. */
  ghost predicate IsDir(c: seq<Byte>) {
    && |c| % ENTRY == 0
    && forall j: nat, k: nat :: j < k < |c| / ENTRY && Inum(c, j) != 0 && Inum(c, k) != 0 ==>
       CName(Field(c, j)) != CName(Field(c, k))
  }

  /** The map that the first n entries denote. */
  ghost function AsMap(c: seq<Byte>, n: nat): map<Name, nat>
    requires n <= |c| / ENTRY
  {
    if n == 0 then map[]
    else
      var m := AsMap(c, n - 1);
      if Inum(c, n - 1) != 0 then m[CName(Field(c, n - 1)) := Inum(c, n - 1)] else m
  }

  ghost function DirMap(c: seq<Byte>): map<Name, nat> {
    AsMap(c, |c| / ENTRY)
  }

  /** The map holds what the entries in use hold. */
  lemma {:induction false} AsMapEntries(c: seq<Byte>, n: nat, name: Name)
    requires IsDir(c) && n <= |c| / ENTRY
    ensures name in AsMap(c, n) <==> exists k: nat :: k < n && Live(c, k, name)
    ensures forall k: nat :: k < n && Live(c, k, name) ==> AsMap(c, n)[name] == Inum(c, k)
  {
    hide CName, Field, Inum;
    if n > 0 {
      AsMapEntries(c, n - 1, name);
      if Live(c, n - 1, name) {
        forall k: nat | k < n && Live(c, k, name)
          ensures k == n - 1
        {
        }
      }
    }
  }

  /** namecmp == 0, that is, strncmp over DIRSIZ bytes. */
  method SameName(name: Name, field: seq<Byte>) returns (same: bool)
    requires IsString(name) && |field| == DIRSIZ
    ensures same <==> Key(name) == CName(field)
  {
    var i := 0;
    while i < DIRSIZ && i < |name| && name[i] == field[i]
      invariant 0 <= i <= DIRSIZ && i <= |name| && name[..i] == field[..i] && i <= |CName(field)|
    {
      i := i + 1;
    }
    if i == DIRSIZ {
      return true;
    }
    same := (if i < |name| then name[i] else 0) == field[i];
  }

  /** The bytes of an entry on their own. */
  lemma EntrySlice(c: seq<Byte>, k: nat)
    requires ENTRY * (k + 1) <= |c|
    ensures var de := c[ENTRY * k..ENTRY * k + ENTRY]; Inum(de, 0) == Inum(c, k) && Field(de, 0) == Field(c, k)
  {
    var de := c[ENTRY * k..ENTRY * k + ENTRY];
    assert de[0] == c[ENTRY * k] && de[1] == c[ENTRY * k + 1];
  }

  lemma LiveInMap(c: seq<Byte>, k: nat, name: Name)
    requires IsDir(c) && k < |c| / ENTRY && Live(c, k, name)
    ensures name in DirMap(c) && DirMap(c)[name] == Inum(c, k)
  {
    AsMapEntries(c, |c| / ENTRY, name);
  }

  lemma NoneInMap(c: seq<Byte>, name: Name)
    requires IsDir(c) && forall k: nat :: k < |c| / ENTRY ==> !Live(c, k, name)
    ensures name !in DirMap(c)
  {
    AsMapEntries(c, |c| / ENTRY, name);
  }

  /** dirlookup: the inode number under the name and the offset of its entry. */
  method Dirlookup(fs: Fs, dp: nat, name: Name) returns (r: Found)
    requires fs.Valid() && dp < |fs.inodes| && IsDir(fs.File(dp)) && IsString(name)
    modifies fs`blocks, fs`logged, fs`inodes, fs`owner
    ensures fs.blocks == old(fs.blocks) && fs.inodes == old(fs.inodes) && fs.logged == old(fs.logged)
      && fs.owner == old(fs.owner)
    ensures r.Found? <==> Key(name) in DirMap(fs.File(dp))
    ensures r.Found? ==>
      && r.inum == DirMap(fs.File(dp))[Key(name)]
      && r.off % ENTRY == 0 && r.off + ENTRY <= fs.inodes[dp].size && Live(fs.File(dp), r.off / ENTRY, Key(name))
  {
    hide Fs.Ok, Covered, Contents, CName, AsMap, DirMap, Inum, Field;
    ghost var c := fs.File(dp);
    assert |c| == fs.inodes[dp].size <= MAXBYTES by { SizeBound(fs, dp); }
    var off := 0;
    while off < fs.inodes[dp].size
      invariant 0 <= off <= |c| && off % ENTRY == 0
      invariant fs.blocks == old(fs.blocks) && fs.inodes == old(fs.inodes) && fs.logged == old(fs.logged)
        && fs.owner == old(fs.owner)
      invariant forall k: nat :: k < off / ENTRY ==> !Live(c, k, Key(name))
      decreases |c| - off
    {
      ghost var k := off / ENTRY;
      assert off == ENTRY * k;
      var _, de := fs.Readi(dp, off, ENTRY, ENTRY);
      EntrySlice(c, k);
      if Inum(de, 0) != 0 {
        var same := SameName(name, Field(de, 0));
        if same {
          LiveInMap(c, k, Key(name));
          return Found(Inum(de, 0), off);
        }
      }
      off := off + ENTRY;
    }
    NoneInMap(c, Key(name));
    return NotFound;
  }

  lemma SizeBound(fs: Fs, i: nat)
    requires fs.Valid() && i < |fs.inodes|
    ensures |fs.File(i)| == fs.inodes[i].size <= MAXBYTES
  {
  }

  /** strncpy of a name into the field. */
  function Padded(name: Name): (f: seq<Byte>)
    ensures |f| == DIRSIZ
  {
    Key(name) + seq(DIRSIZ - |Key(name)|, _ => 0)
  }

  lemma {:induction false} CNamePadded(n: Name, pad: seq<Byte>)
    requires IsString(n) && forall k :: 0 <= k < |pad| ==> pad[k] == 0
    ensures CName(n + pad) == n
  {
    if n != [] {
      CNamePadded(n[1..], pad);
      assert (n + pad)[1..] == n[1..] + pad;
    }
  }

  /** The entry that dirlink writes. */
  function Dirent(name: Name, inum: nat): (de: seq<Byte>)
    requires inum < USHORT
    ensures |de| == ENTRY
  {
    [inum % 0x100, inum / 0x100] + Padded(name)
  }

  /** Entry k of a directory replaced, or appended, by the bytes of de. */
  ghost predicate OneEntry(c: seq<Byte>, c': seq<Byte>, k: nat, de: seq<Byte>) {
    && |c| % ENTRY == 0 && |c'| % ENTRY == 0 && |de| == ENTRY && k <= |c| / ENTRY
    && |c'| == (if k < |c| / ENTRY then |c| else |c| + ENTRY)
    && Inum(c', k) == Inum(de, 0) && Field(c', k) == Field(de, 0)
    && forall j: nat :: j < |c| / ENTRY && j != k ==> Inum(c', j) == Inum(c, j) && Field(c', j) == Field(c, j)
  }

  lemma OverwriteEntry(c: seq<Byte>, k: nat, de: seq<Byte>)
    requires |c| % ENTRY == 0 && |de| == ENTRY && k <= |c| / ENTRY
    ensures OneEntry(c, Overwrite(c, ENTRY * k, de), k, de)
  {
    var c' := Overwrite(c, ENTRY * k, de);
    forall j: nat | j < |c| / ENTRY && j != k
      ensures Inum(c', j) == Inum(c, j) && Field(c', j) == Field(c, j)
    {
      assert j < k ==> ENTRY * (j + 1) <= ENTRY * k;
      assert j > k ==> ENTRY * j >= ENTRY * k + ENTRY;
    }
    assert Field(c', k) == Field(de, 0);
  }

  /** A new name in a free or new entry: still a directory, with one more binding. */
  lemma LinkMap(c: seq<Byte>, c': seq<Byte>, k: nat, de: seq<Byte>, name: Name)
    requires IsDir(c) && OneEntry(c, c', k, de) && (k < |c| / ENTRY ==> Inum(c, k) == 0)
    requires Live(de, 0, name) && name !in DirMap(c)
    ensures IsDir(c') && DirMap(c') == DirMap(c)[name := Inum(de, 0)]
  {
    hide CName, Field, Inum, AsMap;
    var n, n' := |c| / ENTRY, |c'| / ENTRY;
    forall j: nat | j < n
      ensures !Live(c, j, name)
    {
      AsMapEntries(c, n, name);
    }
    forall i: nat, j: nat | i < j < n' && Inum(c', i) != 0 && Inum(c', j) != 0
      ensures CName(Field(c', i)) != CName(Field(c', j))
    {
      if i == k {
        assert !Live(c, j, name);
      } else if j == k {
        assert !Live(c, i, name);
      }
    }
    forall m: Name
      ensures m in DirMap(c') <==> m in DirMap(c) || m == name
      ensures m in DirMap(c') ==> DirMap(c')[m] == DirMap(c)[name := Inum(de, 0)][m]
    {
      AsMapEntries(c, n, m);
      AsMapEntries(c', n', m);
      assert Live(c', k, name);
      if j: nat :| j < n && Live(c, j, m) {
        assert Live(c', j, m);
      }
      if j: nat :| j < n' && Live(c', j, m) {
        assert j == k || Live(c, j, m);
      }
    }
  }

  /** An entry cleared: still a directory, with one binding less. */
  lemma EraseMap(c: seq<Byte>, c': seq<Byte>, k: nat, de: seq<Byte>, name: Name)
    requires IsDir(c) && OneEntry(c, c', k, de) && k < |c| / ENTRY && Live(c, k, name) && Inum(de, 0) == 0
    ensures IsDir(c') && DirMap(c') == DirMap(c) - {name}
  {
    hide CName, Field, Inum, AsMap;
    var n := |c| / ENTRY;
    assert IsDir(c');
    forall m: Name
      ensures m in DirMap(c') <==> m in DirMap(c) && m != name
      ensures m in DirMap(c') ==> DirMap(c')[m] == DirMap(c)[m]
    {
      AsMapEntries(c, n, m);
      AsMapEntries(c', n, m);
      if j: nat :| j < n && Live(c, j, m) && m != name {
        assert Live(c', j, m);
      }
      if j: nat :| j < n && Live(c', j, m) {
        assert j != k && Live(c, j, m);
      }
    }
  }

  /** The first free entry of a directory from entry k on, or the number of its entries. */
  function FirstFree(c: seq<Byte>, k: nat): (f: nat)
    requires k <= |c| / ENTRY
    ensures k <= f <= |c| / ENTRY && (f < |c| / ENTRY ==> Inum(c, f) == 0)
    ensures forall j :: k <= j < f ==> Inum(c, j) != 0
    decreases |c| / ENTRY - k
  {
    if k == |c| / ENTRY || Inum(c, k) == 0 then k else FirstFree(c, k + 1)
  }

  /** dirlink's search for a free entry: the offset of the first, or the size of the directory. */
  method FreeEntry(fs: Fs, dp: nat) returns (off: nat)
    requires fs.Valid() && dp < |fs.inodes| && IsDir(fs.File(dp))
    modifies fs`blocks, fs`logged, fs`inodes, fs`owner
    ensures fs.blocks == old(fs.blocks) && fs.inodes == old(fs.inodes) && fs.logged == old(fs.logged)
      && fs.owner == old(fs.owner)
    ensures off == ENTRY * FirstFree(fs.File(dp), 0) <= fs.inodes[dp].size == |fs.File(dp)|
    ensures off < fs.inodes[dp].size <==> FirstFree(fs.File(dp), 0) < |fs.File(dp)| / ENTRY
  {
    hide Fs.Ok, Covered, Contents, CName, AsMap;
    ghost var c := fs.File(dp);
    assert |c| == fs.inodes[dp].size <= MAXBYTES by { SizeBound(fs, dp); }
    off := 0;
    while off < fs.inodes[dp].size
      invariant 0 <= off <= |c| && off % ENTRY == 0
      invariant fs.blocks == old(fs.blocks) && fs.inodes == old(fs.inodes) && fs.logged == old(fs.logged)
        && fs.owner == old(fs.owner)
      invariant FirstFree(c, off / ENTRY) == FirstFree(c, 0)
      decreases |c| - off
    {
      assert off == ENTRY * (off / ENTRY);
      var _, de := fs.Readi(dp, off, ENTRY, ENTRY);
      EntrySlice(c, off / ENTRY);
      if Inum(de, 0) == 0 {
        return;
      }
      off := off + ENTRY;
    }
  }

  /** dirlink: binds a name that is not in the directory, in the first free entry. On failure, for a name that is or for
      lack of room, no entry changes; with a free entry there is room. Other files stay as they are. */
  method Dirlink(fs: Fs, dp: nat, name: Name, inum: nat) returns (r: int)
    requires fs.Valid() && dp < |fs.inodes| && IsDir(fs.File(dp)) && IsString(name) && 0 < inum < USHORT
    modifies fs
    ensures fs.Valid() && |fs.inodes| == |old(fs.inodes)| && r in {0, -1}
    ensures IsDir(fs.File(dp))
    ensures r == 0 ==>
      Key(name) !in old(DirMap(fs.File(dp))) && DirMap(fs.File(dp)) == old(DirMap(fs.File(dp)))[Key(name) := inum]
    ensures r == 0 ==>
      fs.File(dp) == Overwrite(old(fs.File(dp)), ENTRY * FirstFree(old(fs.File(dp)), 0), Dirent(name, inum))
    ensures r == -1 ==> fs.File(dp) == old(fs.File(dp))
    ensures
      (Key(name) !in old(DirMap(fs.File(dp))) && FirstFree(old(fs.File(dp)), 0) < |old(fs.File(dp))| / ENTRY) ==>
        r == 0 && |fs.File(dp)| == |old(fs.File(dp))|
    ensures r == -1 && Key(name) !in old(DirMap(fs.File(dp))) ==> fs.Full() || |old(fs.File(dp))| + ENTRY > MAXBYTES
    ensures forall j: nat :: j < |fs.inodes| && j != dp ==> fs.File(j) == old(fs.File(j))
  {
    hide Fs.Ok, Covered, Contents, CName, AsMap, IsDir, DirMap, Inum, Field, Overwrite, InWrite;
    ghost var c := fs.File(dp);
    assert |c| == fs.inodes[dp].size <= MAXBYTES by { SizeBound(fs, dp); }
    var ip := Dirlookup(fs, dp, name);
    if ip.Found? {
      return -1;
    }
    var off := FreeEntry(fs, dp);
    var de := Dirent(name, inum);
    assert off / ENTRY == FirstFree(c, 0);
    LinkBytes(c, off, name, inum);
    var n, _ := fs.Writei(dp, de, off, ENTRY);
    OverwriteSize(c, off, de);
    if n != ENTRY {
      NoPartialEntry(c, off, de, n);
      return -1;
    }
    assert de[..ENTRY] == de;
    return 0;
  }

  lemma OverwriteSize(c: seq<Byte>, off: nat, de: seq<Byte>)
    requires off <= |c|
    ensures |Overwrite(c, off, de)| == if off + |de| <= |c| then |c| else off + |de|
  {
  }

  lemma NoPartialEntry(c: seq<Byte>, off: nat, de: seq<Byte>, n: int)
    requires off % ENTRY == 0 && |de| == ENTRY && off <= |c| && -1 <= n < ENTRY
    requires n > 0 ==> (off + n) % BSIZE == 0
    ensures n <= 0 && (n == 0 ==> Overwrite(c, off, de[..n]) == c)
  {
    assert BSIZE == 64 * ENTRY;
  }

  lemma LinkBytes(c: seq<Byte>, off: nat, name: Name, inum: nat)
    requires IsDir(c) && IsString(name) && 0 < inum < USHORT && Key(name) !in DirMap(c)
    requires off % ENTRY == 0 && off <= |c| && (off < |c| ==> Inum(c, off / ENTRY) == 0)
    ensures var c' := Overwrite(c, off, Dirent(name, inum)); IsDir(c') && DirMap(c') == DirMap(c)[Key(name) := inum]
  {
    var de, k := Dirent(name, inum), off / ENTRY;
    CNamePadded(Key(name), seq(DIRSIZ - |Key(name)|, _ => 0));
    assert Field(de, 0) == Padded(name) && Inum(de, 0) == inum;
    assert off == ENTRY * k;
    hide IsDir, DirMap, CName, Overwrite;
    OverwriteEntry(c, k, de);
    LinkMap(c, Overwrite(c, off, de), k, de, Key(name));
  }

  /** sys_unlink's clearing of the entry that dirlookup found. It needs no new block, so it cannot fail. */
  method Erase(fs: Fs, dp: nat, off: nat, ghost name: Name) returns (ok: bool)
    requires fs.Valid() && dp < |fs.inodes| && IsDir(fs.File(dp))
    requires off % ENTRY == 0 && off + ENTRY <= fs.inodes[dp].size && Live(fs.File(dp), off / ENTRY, name)
    modifies fs
    ensures ok && fs.Valid() && |fs.inodes| == |old(fs.inodes)|
    ensures IsDir(fs.File(dp)) && DirMap(fs.File(dp)) == old(DirMap(fs.File(dp))) - {name}
    ensures forall j: nat :: j < |fs.inodes| && j != dp ==> fs.File(j) == old(fs.File(j))
  {
    hide Fs.Ok, Covered, Contents, CName, AsMap, IsDir, DirMap, Inum, Field, Overwrite, InWrite;
    ghost var c := fs.File(dp);
    assert |c| == fs.inodes[dp].size <= MAXBYTES by { SizeBound(fs, dp); }
    var de: seq<Byte> := seq(ENTRY, _ => 0);
    EraseBytes(c, off, name, de);
    var n, _ := fs.Writei(dp, de, off, ENTRY);
    assert de[..ENTRY] == de;
    return n == ENTRY;
  }

  lemma EraseBytes(c: seq<Byte>, off: nat, name: Name, de: seq<Byte>)
    requires IsDir(c) && off % ENTRY == 0 && off + ENTRY <= |c| && Live(c, off / ENTRY, name)
    requires |de| == ENTRY && de[0] == de[1] == 0
    ensures var c' := Overwrite(c, off, de); IsDir(c') && DirMap(c') == DirMap(c) - {name}
  {
    var k := off / ENTRY;
    assert off == ENTRY * k && Inum(de, 0) == 0;
    hide IsDir, DirMap, CName, Overwrite;
    OverwriteEntry(c, k, de);
    EraseMap(c, Overwrite(c, off, de), k, de, name);
  }
}
