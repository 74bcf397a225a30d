/** Sv39 page tables: three levels of 512-entry pages in physical memory, read as a flat map
    from virtual page numbers to PTEs. Page and virtual page numbers are addresses divided by PGSIZE. */
module PageTable {
  import opened Collections

  const PGSIZE := 4096
  const ENTRIES := 512
  /** MAXVA / PGSIZE */
  const MAXPAGE := 0x400_0000
  const TRAMPOLINE := MAXPAGE - 1
  const TRAPFRAME := MAXPAGE - 2

  const PTE_V := 1
  const PTE_R := 2
  const PTE_W := 4
  const PTE_X := 8
  const PTE_U := 16

  type Pte = nat
  type Page = seq<Pte>
  type Mem = seq<Page>

  /** pte & PTE_V */
  predicate IsValid(pte: Pte) {
    pte % 2 == 1
  }

  /** (pte & (PTE_R|PTE_W|PTE_X)) != 0 */
  predicate IsLeaf(pte: Pte) {
    pte / 2 % 8 != 0
  }

  /** PTE2PA, as a page number. */
  function Target(pte: Pte): nat {
    pte / 1024
  }

  /** PA2PTE(pa) | perm | PTE_V, for permission bits that leave PTE_V to be added. */
  function MakePte(page: nat, perm: nat): (pte: Pte)
    requires perm < 1024 && perm % 2 == 0
    ensures IsValid(pte) && Target(pte) == page && (IsLeaf(pte) <==> perm / 2 % 8 != 0)
  {
    var half := page * 512 + perm / 2;
    assert half % 8 == perm / 2 % 8 by { HalfMod(page, perm / 2); }
    2 * half + 1
  }

  lemma HalfMod(page: nat, x: nat)
    requires x < 512
    ensures (page * 512 + x) % 8 == x % 8 && (page * 512 + x) / 512 == page
  {
    assert page * 512 + x == 8 * (page * 64 + x / 8) + x % 8;
  }

  /** The part of a page number that selects the entry one level up, and the index in that entry's table. */
  function Up(n: nat): nat {
    n / ENTRIES
  }

  function Ix(n: nat): (i: nat)
    ensures i < ENTRIES
  {
    n % ENTRIES
  }

  function Down(pre: nat, i: nat): (n: nat)
    requires i < ENTRIES
    ensures Up(n) == pre && Ix(n) == i
  {
    pre * ENTRIES + i
  }

  lemma UpIx(n: nat)
    ensures Down(Up(n), Ix(n)) == n
  {
  }

  /** The tables of a tree by level and prefix: (2, 0) is the root; (l, n) is reached from (l + 1, Up(n)) by index
      Ix(n). */
  type Tree = map<(nat, nat), nat>

  predicate PagesOk(mem: Mem) {
    forall p :: 0 <= p < |mem| ==> |mem[p]| == ENTRIES
  }

  function ZeroPage(): (p: Page)
    ensures |p| == ENTRIES
  {
    seq(ENTRIES, _ => 0)
  }

  /** mem[p][i] = pte */
  function SetEntry(mem: Mem, p: nat, i: nat, pte: Pte): (r: Mem)
    requires PagesOk(mem) && p < |mem| && i < ENTRIES
    ensures PagesOk(r) && |r| == |mem|
    ensures r[p][i] == pte && (forall j :: 0 <= j < ENTRIES && j != i ==> r[p][j] == mem[p][j])
    ensures forall q :: 0 <= q < |mem| && q != p ==> r[q] == mem[q]
  {
    var page: Page := mem[p][i := pte];
    mem[p := page]
  }

  ghost predicate Injective(t: Tree) {
    forall k, k' :: k in t && k' in t && t[k] == t[k'] ==> k == k'
  }

  /** Entry i of a table above the last level either is not valid or points to the table below. */
  ghost predicate EntryOk(t: Tree, l: nat, n: nat, i: nat, pte: Pte)
    requires i < ENTRIES && l > 0
  {
    if (l - 1, Down(n, i)) in t then pte == MakePte(t[(l - 1, Down(n, i))], 0) else !IsValid(pte)
  }

  /** Tables are distinct pages, and each but the root has one above it. */
  ghost predicate Shape(size: nat, root: nat, t: Tree) {
    && (2, 0) in t && t[(2, 0)] == root && Injective(t)
    && (forall k :: k in t ==>
         k.0 <= 2 && t[k] < size && (k.0 == 2 ==> k.1 == 0) && (k.0 < 2 ==> (k.0 + 1, Up(k.1)) in t))
  }

  ghost predicate IsTree(mem: Mem, root: nat, t: Tree) {
    && PagesOk(mem) && Shape(|mem|, root, t)
    && (forall k, i: nat :: k in t && k.0 > 0 && i < ENTRIES ==> EntryOk(t, k.0, k.1, i, mem[t[k]][i]))
  }

  /** The tables of a tree. */
  ghost function Tables(t: Tree): set<nat> {
    set k | k in t :: t[k]
  }

  lemma TablesAdd(t: Tree, key: (nat, nat), page: nat)
    requires key !in t
    ensures Tables(t[key := page]) == Tables(t) + {page}
  {
    var t' := t[key := page];
    forall x | x in Tables(t) + {page}
      ensures x in Tables(t')
    {
      if x in Tables(t) {
        var k :| k in t && t[k] == x;
        assert t'[k] == x;
      } else {
        assert t'[key] == x;
      }
    }
  }

  /** The flat map: the PTE of a virtual page, 0 where the tree has no table for it. */
  ghost function Flat(mem: Mem, t: Tree, vpn: nat): Pte
    requires PagesOk(mem)
  {
    if (0, Up(vpn)) in t && t[(0, Up(vpn))] < |mem| then mem[t[(0, Up(vpn))]][Ix(vpn)] else 0
  }

  /** The slot of a page that has a last-level table. */
  lemma AtSlot(mem: Mem, root: nat, t: Tree, vpn: nat)
    requires IsTree(mem, root, t) && (0, Up(vpn)) in t
    ensures var p := t[(0, Up(vpn))]; p < |mem| && Ix(vpn) < |mem[p]| && mem[p][Ix(vpn)] == Flat(mem, t, vpn)
  {
  }

  /** Only the tables' own pages matter to a tree. */
  lemma TreeFrame(mem: Mem, mem': Mem, root: nat, t: Tree)
    requires IsTree(mem, root, t) && PagesOk(mem') && |mem'| == |mem|
    requires forall p :: p in Tables(t) && p < |mem| ==> mem'[p] == mem[p]
    ensures IsTree(mem', root, t) && forall w: nat :: Flat(mem', t, w) == Flat(mem, t, w)
  {
    hide Up, Ix, Down, MakePte;
    forall k | k in t
      ensures mem'[t[k]] == mem[t[k]]
    {
      assert t[k] in Tables(t);
    }
    forall k, i: nat | k in t && k.0 > 0 && i < ENTRIES
      ensures EntryOk(t, k.0, k.1, i, mem'[t[k]][i])
    {
      assert EntryOk(t, k.0, k.1, i, mem[t[k]][i]);
    }
  }

  /** Distinct virtual pages have distinct PTE slots. */
  lemma SlotsDistinct(mem: Mem, root: nat, t: Tree, v: nat, w: nat)
    requires IsTree(mem, root, t) && (0, Up(v)) in t && (0, Up(w)) in t && v != w
    ensures t[(0, Up(v))] != t[(0, Up(w))] || Ix(v) != Ix(w)
  {
    UpIx(v);
    UpIx(w);
  }

  /** Storing a PTE at the last level changes the flat map at one page and nothing else. */
  lemma StoreFlat(mem: Mem, root: nat, t: Tree, v: nat, pte: Pte)
    requires IsTree(mem, root, t) && (0, Up(v)) in t
    ensures var p := t[(0, Up(v))]; var mem' := SetEntry(mem, p, Ix(v), pte);
      && IsTree(mem', root, t)
      && forall w: nat :: Flat(mem', t, w) == if w == v then pte else Flat(mem, t, w)
  {
    hide Up, Ix, Down, MakePte;
    var p := t[(0, Up(v))];
    var mem' := SetEntry(mem, p, Ix(v), pte);
    forall w: nat
      ensures Flat(mem', t, w) == if w == v then pte else Flat(mem, t, w)
    {
      if w != v && (0, Up(w)) in t {
        SlotsDistinct(mem, root, t, v, w);
      }
    }
    forall k, i: nat | k in t && k.0 > 0 && i < ENTRIES
      ensures EntryOk(t, k.0, k.1, i, mem'[t[k]][i])
    {
      assert t[k] != p && EntryOk(t, k.0, k.1, i, mem[t[k]][i]);
    }
  }

  lemma AddShape(size: nat, root: nat, t: Tree, l: nat, n: nat, i: nat, page: nat)
    requires Shape(size, root, t) && (l, n) in t && l > 0 && i < ENTRIES && (l - 1, Down(n, i)) !in t
    requires page < size && page !in Tables(t)
    ensures Shape(size, root, t[(l - 1, Down(n, i)) := page])
  {
    hide Down, Ix, Up;
    var key := (l - 1, Down(n, i));
    assert Up(key.1) == n;
    forall k | k in t
      ensures t[k] != page && k != key
    {
      assert t[k] in Tables(t);
    }
  }

  /** Below a table that is not there, there is none. */
  lemma NoBelow(size: nat, root: nat, t: Tree, l: nat, n: nat, j: nat)
    requires Shape(size, root, t) && (l, n) !in t && 0 < l < 2 && j < ENTRIES
    ensures (l - 1, Down(n, j)) !in t
  {
    hide Down, Ix, Up;
    assert Up(Down(n, j)) == n;
  }

  /** The new tree's view of entry j of an old table k. */
  lemma OldEntry(mem: Mem, root: nat, t: Tree, l: nat, n: nat, i: nat, page: nat, k: (nat, nat), j: nat)
    requires IsTree(mem, root, t) && (l, n) in t && l > 0 && i < ENTRIES && (l - 1, Down(n, i)) !in t
    requires k in t && k.0 > 0 && j < ENTRIES
    ensures EntryOk(t[(l - 1, Down(n, i)) := page], k.0, k.1, j, SetEntry(mem, t[(l, n)], i, MakePte(page, 0))[t[k]][j])
  {
    hide Up, Ix, Down, MakePte, SetEntry;
    assert EntryOk(t, k.0, k.1, j, mem[t[k]][j]);
    if k == (l, n) && j == i {
      assert (k.0 - 1, Down(k.1, j)) == (l - 1, Down(n, i));
    } else {
      DownDistinct(k.1, j, n, i);
      assert t[k] == t[(l, n)] ==> k == (l, n);
    }
  }

  lemma DownDistinct(m: nat, j: nat, n: nat, i: nat)
    requires j < ENTRIES && i < ENTRIES
    ensures Down(m, j) == Down(n, i) <==> m == n && j == i
  {
  }

  lemma AddEntries(mem: Mem, root: nat, t: Tree, l: nat, n: nat, i: nat, page: nat)
    requires IsTree(mem, root, t) && (l, n) in t && l > 0 && i < ENTRIES && (l - 1, Down(n, i)) !in t
    requires page < |mem| && page !in Tables(t) && mem[page] == ZeroPage()
    ensures IsTree(SetEntry(mem, t[(l, n)], i, MakePte(page, 0)), root, t[(l - 1, Down(n, i)) := page])
  {
    hide Up, Ix, Down, MakePte, SetEntry;
    var p, key := t[(l, n)], (l - 1, Down(n, i));
    var mem', t' := SetEntry(mem, p, i, MakePte(page, 0)), t[key := page];
    AddShape(|mem|, root, t, l, n, i, page);
    assert p in Tables(t);
    forall k, j: nat | k in t' && k.0 > 0 && j < ENTRIES
      ensures EntryOk(t', k.0, k.1, j, mem'[t'[k]][j])
    {
      if k == key {
        NoBelow(|mem|, root, t, k.0, k.1, j);
        assert mem'[page] == ZeroPage();
      } else {
        OldEntry(mem, root, t, l, n, i, page, k, j);
      }
    }
  }

  /** A zeroed page as a new table below (l, n): no translation changes. */
  lemma AddTable(mem: Mem, root: nat, t: Tree, l: nat, n: nat, i: nat, page: nat)
    requires IsTree(mem, root, t) && (l, n) in t && l > 0 && i < ENTRIES && (l - 1, Down(n, i)) !in t
    requires page < |mem| && page !in Tables(t) && mem[page] == ZeroPage()
    ensures var mem', t' := SetEntry(mem, t[(l, n)], i, MakePte(page, 0)), t[(l - 1, Down(n, i)) := page];
      && IsTree(mem', root, t') && Tables(t') == Tables(t) + {page}
      && forall w: nat :: Flat(mem', t', w) == Flat(mem, t, w)
  {
    hide Up, Ix, Down, MakePte, SetEntry;
    AddEntries(mem, root, t, l, n, i, page);
    TablesAdd(t, (l - 1, Down(n, i)), page);
    var mem', t' := SetEntry(mem, t[(l, n)], i, MakePte(page, 0)), t[(l - 1, Down(n, i)) := page];
    forall w: nat
      ensures Flat(mem', t', w) == Flat(mem, t, w)
    {
      if (0, Up(w)) in t {
        assert t[(0, Up(w))] in Tables(t) && t[(0, Up(w))] != t[(l, n)];
      }
    }
  }

  /** The page number of va at level l and above; PX(l, va) is its index part. */
  function Shift(vpn: nat, l: nat): nat {
    if l == 0 then vpn else if l == 1 then Up(vpn) else if l == 2 then Up(Up(vpn)) else Up(Up(Up(vpn)))
  }

  /** The tables below the root on the way to a page, down to level l. */
  ghost function Way(vpn: nat, l: nat): set<(nat, nat)> {
    if l == 0 then {(1, Shift(vpn, 2)), (0, Shift(vpn, 1))} else if l == 1 then {(1, Shift(vpn, 2))} else {}
  }

  /** The tables that the pages of a range still need. */
  ghost function Missing(t: Tree, lo: nat, hi: nat): set<(nat, nat)> {
    set w, k | lo <= w < hi && k in Way(w, 0) && k !in t :: k
  }

  ghost function Lack(t: Tree, lo: nat, hi: nat): nat {
    |Missing(t, lo, hi)|
  }

  lemma WayStep(vpn: nat, l: nat)
    requires 0 < l <= 2
    ensures Way(vpn, l - 1) == Way(vpn, l) + {(l - 1, Shift(vpn, l))} && (l - 1, Shift(vpn, l)) !in Way(vpn, l)
    ensures Way(vpn, l - 1) <= Way(vpn, 0) && Way(vpn, 2) == {}
  {
    hide Shift;
  }

  /** How many tables are missing on the way to a page down to level l. */
  ghost function Need(t: Tree, vpn: nat, l: nat): nat {
    |Way(vpn, l) - t.Keys|
  }

  lemma NeedDown(t: Tree, vpn: nat, l: nat)
    requires 0 < l <= 2
    ensures Need(t, vpn, 2) == 0
    ensures Need(t, vpn, l - 1) == Need(t, vpn, l) + (if (l - 1, Shift(vpn, l)) in t then 0 else 1)
    ensures Need(t, vpn, l - 1) <= Need(t, vpn, 0)
  {
    hide Way, Shift;
    WayStep(vpn, l);
    LessMore(Way(vpn, l), (l - 1, Shift(vpn, l)), t.Keys);
    LessWithin(Way(vpn, l - 1), Way(vpn, 0), t.Keys);
  }

  /** The table above a last-level table. */
  lemma TableAbove(size: nat, root: nat, t: Tree, vpn: nat)
    requires Shape(size, root, t) && (0, Up(vpn)) in t
    ensures (1, Up(Up(vpn))) in t
  {
    hide Up, Injective;
  }

  /** Tree t' is t with the tables on the way to a page down to level l. */
  ghost predicate Built(t: Tree, t': Tree, vpn: nat, l: nat) {
    t'.Keys == t.Keys + Way(vpn, l)
  }

  lemma BuiltTop(t: Tree, vpn: nat)
    ensures Built(t, t, vpn, 2)
  {
  }

  /** One level further down, to a table that is there or to a new one. */
  lemma BuiltDown(t: Tree, t1: Tree, t2: Tree, vpn: nat, l: nat)
    requires 0 < l <= 2 && Built(t, t1, vpn, l) && t2.Keys == t1.Keys + {(l - 1, Shift(vpn, l))}
    ensures Built(t, t2, vpn, l - 1) && ((l - 1, Shift(vpn, l)) in t1 <==> (l - 1, Shift(vpn, l)) in t)
  {
    hide Way, Shift;
    WayStep(vpn, l);
  }

  lemma BuiltAll(t: Tree, t': Tree, vpn: nat)
    ensures Built(t, t', vpn, 0) <==> t'.Keys == t.Keys + Missing(t, vpn, vpn + 1)
    ensures Need(t, vpn, 0) == Lack(t, vpn, vpn + 1)
  {
    MissingOne(t, vpn);
    hide Way;
  }

  lemma MissingOne(t: Tree, w: nat)
    ensures Missing(t, w, w + 1) == Way(w, 0) - t.Keys
  {
    hide Shift;
    forall k | k in Way(w, 0) && k !in t
      ensures k in Missing(t, w, w + 1)
    {
      assert w <= w < w + 1;
    }
  }

  lemma MissingSplit(t: Tree, t': Tree, lo: nat, hi: nat)
    requires lo <= hi && t'.Keys == t.Keys + Missing(t, lo, hi)
    ensures Missing(t, lo, hi + 1) == Missing(t, lo, hi) + Missing(t', hi, hi + 1)
    ensures Missing(t, lo, hi) !! Missing(t', hi, hi + 1)
  {
    hide Way;
  }

  /** One page more, once the tables for those before it are there. */
  lemma MissingNext(t: Tree, t': Tree, lo: nat, hi: nat)
    requires lo <= hi && t'.Keys == t.Keys + Missing(t, lo, hi)
    ensures Lack(t, lo, hi + 1) == Lack(t, lo, hi) + Lack(t', hi, hi + 1)
  {
    hide Missing;
    MissingSplit(t, t', lo, hi);
  }

  lemma MissingKeys(t: Tree, t1: Tree, t2: Tree, lo: nat, hi: nat)
    requires lo <= hi && t1.Keys == t.Keys + Missing(t, lo, hi) && t2.Keys == t1.Keys + Missing(t1, hi, hi + 1)
    ensures t2.Keys == t.Keys + Missing(t, lo, hi + 1)
  {
    MissingSplit(t, t1, lo, hi);
    hide Missing;
  }

  lemma MissingMore(t: Tree, lo: nat, hi: nat, hi': nat)
    requires hi <= hi'
    ensures Lack(t, lo, hi) <= Lack(t, lo, hi')
  {
    assert Missing(t, lo, hi) <= Missing(t, lo, hi') by { hide Way; }
    SubsetSize(Missing(t, lo, hi), Missing(t, lo, hi'));
  }

  /** Table k is table (l, n) or below it. */
  ghost predicate Under(k: (nat, nat), l: nat, n: nat) {
    k.0 <= l <= 2 && Shift(k.1, l - k.0) == n
  }

  /** The entry of a level l table that leads to table k. */
  ghost function ChildIx(k: (nat, nat), l: nat): (i: nat)
    requires k.0 < l <= 2
    ensures i < ENTRIES
  {
    Ix(Shift(k.1, l - 1 - k.0))
  }

  lemma UnderChild(k: (nat, nat), l: nat, n: nat, i: nat)
    requires k.0 < l <= 2 && i < ENTRIES
    ensures Under(k, l - 1, Down(n, i)) <==> Under(k, l, n) && ChildIx(k, l) == i
  {
    hide Up, Ix, Down;
    UpIx(Shift(k.1, l - 1 - k.0));
    assert Shift(k.1, l - k.0) == Up(Shift(k.1, l - 1 - k.0));
  }

  lemma UnderIn(size: nat, root: nat, t: Tree, k: (nat, nat), l: nat, n: nat)
    requires Shape(size, root, t) && k in t && Under(k, l, n)
    ensures (l, n) in t
  {
    hide Up, Ix, Injective;
    if k.0 < l {
      assert (k.0 + 1, Up(k.1)) in t;
    }
  }

  /** The tables at and below (l, n), and those below it that its first i entries lead to. */
  ghost function Below(t: Tree, l: nat, n: nat): set<nat> {
    set k | k in t && Under(k, l, n) :: t[k]
  }

  ghost function BelowFirst(t: Tree, l: nat, n: nat, i: nat): set<nat>
    requires l <= 2
  {
    set k | k in t && k.0 < l && Under(k, l, n) && ChildIx(k, l) < i :: t[k]
  }

  lemma BelowStep(size: nat, root: nat, t: Tree, l: nat, n: nat, i: nat)
    requires Shape(size, root, t) && 0 < l <= 2 && i < ENTRIES
    ensures BelowFirst(t, l, n, i + 1) == BelowFirst(t, l, n, i) + Below(t, l - 1, Down(n, i))
    ensures (l - 1, Down(n, i)) !in t ==> Below(t, l - 1, Down(n, i)) == {}
  {
    hide Up, Ix, Down, Shape, Shift;
    forall k | k in t && k.0 < l
      ensures Under(k, l - 1, Down(n, i)) <==> Under(k, l, n) && ChildIx(k, l) == i
    {
      UnderChild(k, l, n, i);
    }
    if (l - 1, Down(n, i)) !in t {
      forall k | k in t
        ensures !Under(k, l - 1, Down(n, i))
      {
        if Under(k, l - 1, Down(n, i)) {
          UnderIn(size, root, t, k, l - 1, Down(n, i));
        }
      }
    }
  }

  lemma BelowAll(size: nat, root: nat, t: Tree, l: nat, n: nat)
    requires Shape(size, root, t) && l <= 2 && (l, n) in t
    ensures Below(t, l, n) == BelowFirst(t, l, n, ENTRIES) + {t[(l, n)]} && BelowFirst(t, l, n, 0) == {}
    ensures t[(l, n)] !in BelowFirst(t, l, n, ENTRIES)
  {
    hide Up, Ix;
    assert Under((l, n), l, n);
  }

  lemma NoneBelow(t: Tree, n: nat, i: nat)
    ensures BelowFirst(t, 0, n, i) == {}
  {
  }

  /** What an entry leads to is apart from the table itself and from what earlier entries lead to. */
  lemma ChildBelow(size: nat, root: nat, t: Tree, l: nat, n: nat, i: nat)
    requires Shape(size, root, t) && 0 < l <= 2 && i < ENTRIES && (l, n) in t
    ensures Below(t, l - 1, Down(n, i)) <= Below(t, l, n) - {t[(l, n)]} - BelowFirst(t, l, n, i)
  {
    hide Up, Ix, Down, Shift;
    forall k | k in t && Under(k, l - 1, Down(n, i))
      ensures t[k] in Below(t, l, n) && t[k] !in BelowFirst(t, l, n, i) && t[k] != t[(l, n)]
    {
      UnderChild(k, l, n, i);
    }
  }

  /** All the tables are below the root. */
  lemma BelowRoot(size: nat, root: nat, t: Tree)
    requires Shape(size, root, t)
    ensures Below(t, 2, 0) == Tables(t)
  {
    hide Injective;
    forall k | k in t
      ensures Under(k, 2, 0)
    {
      if k.0 < 2 {
        assert (k.0 + 1, Up(k.1)) in t;
      }
    }
  }

  /** The tables below (l, n) lead to one another, and no page is mapped by them. */
  ghost predicate EmptyBelow(mem: Mem, t: Tree, l: nat, n: nat) {
    PagesOk(mem) && forall k :: k in t && Under(k, l, n) ==> EmptyTable(mem, t, k)
  }

  ghost predicate EmptyTable(mem: Mem, t: Tree, k: (nat, nat))
    requires PagesOk(mem) && k in t
  {
    t[k] < |mem| && forall i: nat :: i < ENTRIES ==>
      if k.0 == 0 then !IsValid(mem[t[k]][i]) else EntryOk(t, k.0, k.1, i, mem[t[k]][i])
  }

  lemma EmptyAt(mem: Mem, t: Tree, l: nat, n: nat)
    requires EmptyBelow(mem, t, l, n) && (l, n) in t && l <= 2
    ensures EmptyTable(mem, t, (l, n))
  {
    hide EmptyTable;
    assert Under((l, n), l, n);
  }

  lemma EmptyChild(mem: Mem, mem': Mem, t: Tree, l: nat, n: nat, i: nat)
    requires EmptyBelow(mem, t, l, n) && 0 < l <= 2 && i < ENTRIES && PagesOk(mem') && |mem'| == |mem|
    requires forall p :: p in Below(t, l - 1, Down(n, i)) && p < |mem| ==> mem'[p] == mem[p]
    ensures EmptyBelow(mem', t, l - 1, Down(n, i))
  {
    hide Up, Ix, Down, Shift, MakePte;
    forall k | k in t && Under(k, l - 1, Down(n, i))
      ensures EmptyTable(mem', t, k)
    {
      UnderChild(k, l, n, i);
      assert EmptyTable(mem, t, k) && t[k] in Below(t, l - 1, Down(n, i));
    }
  }

  /** With nothing mapped, the whole tree is tables leading to tables. */
  lemma EmptyTree(mem: Mem, root: nat, t: Tree)
    requires IsTree(mem, root, t) && forall w: nat :: !IsValid(Flat(mem, t, w))
    ensures EmptyBelow(mem, t, 2, 0)
  {
    hide Up, Ix, Down, Shift, MakePte, IsValid;
    forall k | k in t
      ensures EmptyTable(mem, t, k)
    {
      if k.0 == 0 {
        forall i: nat | i < ENTRIES
          ensures !IsValid(mem[t[k]][i])
        {
          AtSlot(mem, root, t, Down(k.1, i));
          assert !IsValid(Flat(mem, t, Down(k.1, i)));
        }
      }
    }
  }
}
