/** Physical page allocation, and page tables and user memory built from it. */
module Vm {
  import opened Collections
  import opened PageTable

  function Fill(x: Pte): (p: Page)
    ensures |p| == ENTRIES
  {
    seq(ENTRIES, _ => x)
  }

  function Px(l: nat, vpn: nat): (i: nat)
    ensures i < ENTRIES
  {
    Ix(Shift(vpn, l))
  }

  lemma ShiftTop(vpn: nat)
    requires vpn < MAXPAGE
    ensures Shift(vpn, 3) == 0
  {
  }

  /** What mappages ends with: done, no memory for a table, or one of its panics. */
  datatype MapResult = Mapped | NoMemory | Remap | NoSize

  /** The flat map with n pages from first on mapped to consecutive physical pages. */
  ghost predicate MapsRange(mem0: Mem, t0: Tree, mem: Mem, t: Tree, first: nat, n: nat, page: nat, perm: nat)
    requires PagesOk(mem0) && PagesOk(mem) && perm < 1024 && perm % 2 == 0
  {
    forall w: nat ::
      Flat(mem, t, w) == if first <= w < first + n then MakePte(page + (w - first), perm) else Flat(mem0, t0, w)
  }

  /** No page of the range is mapped. */
  ghost predicate Unmapped(mem: Mem, t: Tree, first: nat, n: nat)
    requires PagesOk(mem)
  {
    forall w :: first <= w < first + n ==> !IsValid(Flat(mem, t, w))
  }

  /** A valid PTE with some flag besides PTE_V. */
  predicate IsMapping(pte: Pte) {
    IsValid(pte) && pte % 1024 != PTE_V
  }

  lemma MakesMapping(page: nat, perm: nat)
    requires 0 < perm < 1023 && perm % 2 == 0
    ensures IsMapping(MakePte(page, perm)) && MakePte(page, perm) == 1024 * page + perm + PTE_V
  {
    assert MakePte(page, perm) == 1024 * page + (perm + 1);
  }

  lemma NotMapped(mem: Mem, t: Tree, vpn: nat)
    requires PagesOk(mem) && (0, Up(vpn)) !in t
    ensures !IsMapping(Flat(mem, t, vpn))
  {
  }

  ghost predicate AllMapped(mem: Mem, t: Tree, lo: nat, hi: nat)
    requires PagesOk(mem)
  {
    forall w :: lo <= w < hi ==> IsMapping(Flat(mem, t, w))
  }

  /** The physical pages that a range of virtual pages is mapped to. */
  ghost function Leaves(mem: Mem, t: Tree, lo: nat, hi: nat): set<nat>
    requires PagesOk(mem)
  {
    set w | lo <= w < hi && IsMapping(Flat(mem, t, w)) :: Target(Flat(mem, t, w))
  }

  lemma LeavesSplit(mem: Mem, t: Tree, lo: nat, mid: nat, hi: nat)
    requires PagesOk(mem) && lo <= mid <= hi
    ensures Leaves(mem, t, lo, hi) == Leaves(mem, t, lo, mid) + Leaves(mem, t, mid, hi)
  {
    hide Flat, Target, IsMapping;
  }

  lemma LeavesOne(mem: Mem, t: Tree, w: nat)
    requires PagesOk(mem) && IsMapping(Flat(mem, t, w))
    ensures Leaves(mem, t, w, w + 1) == {Target(Flat(mem, t, w))}
  {
    hide Flat, Target, IsMapping;
    assert Target(Flat(mem, t, w)) in Leaves(mem, t, w, w + 1);
  }

  /** The mapped pages of a range are mapped once each. */
  ghost predicate DistinctLeaves(mem: Mem, t: Tree, lo: nat, hi: nat)
    requires PagesOk(mem)
  {
    forall v, w :: lo <= v < w < hi && IsMapping(Flat(mem, t, v)) && IsMapping(Flat(mem, t, w)) ==>
      Target(Flat(mem, t, v)) != Target(Flat(mem, t, w))
  }

  /** Pages mapped once each are as many as the virtual pages. */
  lemma {:induction false} LeavesCount(mem: Mem, t: Tree, n: nat)
    requires PagesOk(mem) && AllMapped(mem, t, 0, n) && DistinctLeaves(mem, t, 0, n)
    ensures |Leaves(mem, t, 0, n)| == n
  {
    hide Flat, Target, IsMapping;
    if n == 0 {
      assert Leaves(mem, t, 0, 0) == {};
    } else {
      LeavesCount(mem, t, n - 1);
      LeavesSplit(mem, t, 0, n - 1, n);
      LeavesOne(mem, t, n - 1);
      assert Target(Flat(mem, t, n - 1)) !in Leaves(mem, t, 0, n - 1);
    }
  }

  /** The flat map without the pages of a range. */
  ghost predicate ClearsRange(mem0: Mem, mem: Mem, t: Tree, lo: nat, hi: nat)
    requires PagesOk(mem0) && PagesOk(mem)
  {
    forall w: nat :: Flat(mem, t, w) == if lo <= w < hi then 0 else Flat(mem0, t, w)
  }

  /** PGROUNDUP(sz) / PGSIZE */
  function Pages(sz: nat): nat {
    (sz + PGSIZE - 1) / PGSIZE
  }

  /** Nothing is mapped from page n on, the two kernel pages at the top aside. */
  ghost predicate NothingFrom(mem: Mem, t: Tree, n: nat)
    requires PagesOk(mem)
  {
    forall w :: n <= w && w != TRAPFRAME && w != TRAMPOLINE ==> Flat(mem, t, w) == 0
  }

  /** Outside [lo, hi) the flat map is as before. */
  ghost predicate SameOutside(mem0: Mem, t0: Tree, mem: Mem, t: Tree, lo: nat, hi: nat)
    requires PagesOk(mem0) && PagesOk(mem)
  {
    forall w: nat :: !(lo <= w < hi) ==> Flat(mem, t, w) == Flat(mem0, t0, w)
  }

  lemma LeavesSame(mem0: Mem, t0: Tree, mem: Mem, t: Tree, lo: nat, hi: nat)
    requires PagesOk(mem0) && PagesOk(mem) && forall w :: lo <= w < hi ==> Flat(mem, t, w) == Flat(mem0, t0, w)
    ensures Leaves(mem, t, lo, hi) == Leaves(mem0, t0, lo, hi)
      && AllMapped(mem, t, lo, hi) == AllMapped(mem0, t0, lo, hi)
    ensures DistinctLeaves(mem, t, lo, hi) == DistinctLeaves(mem0, t0, lo, hi)
  {
    hide Flat, Target, IsMapping;
  }

  lemma DistinctMore(mem: Mem, t: Tree, lo: nat, hi: nat)
    requires PagesOk(mem) && DistinctLeaves(mem, t, lo, hi) && IsMapping(Flat(mem, t, hi))
      && Target(Flat(mem, t, hi)) !in Leaves(mem, t, lo, hi)
    ensures DistinctLeaves(mem, t, lo, hi + 1)
  {
    hide Flat, Target, IsMapping;
  }

  /** The pages of a range are mapped, with the permissions given, to zeroed pages. */
  ghost predicate Zeroed(mem: Mem, t: Tree, lo: nat, hi: nat, perm: nat)
    requires PagesOk(mem)
  {
    forall w :: lo <= w < hi ==> MapsZero(mem, Flat(mem, t, w), perm)
  }

  ghost predicate MapsZero(mem: Mem, pte: Pte, perm: nat) {
    pte == 1024 * Target(pte) + perm + PTE_V && Target(pte) < |mem| && mem[Target(pte)] == ZeroPage()
  }

  /** Of `had` free pages `have` are left: the tables that the pages of a range needed have been made, and no more
      taken. */
  ghost predicate Spent(had: nat, have: nat, t0: Tree, t: Tree, lo: nat, hi: nat) {
    t.Keys == t0.Keys + Missing(t0, lo, hi) && had == have + Lack(t0, lo, hi)
  }

  lemma SpentNone(had: nat, t: Tree, lo: nat)
    ensures Spent(had, had, t, t, lo, lo)
  {
  }

  lemma SpentCost(had: nat, have: nat, t0: Tree, t: Tree, lo: nat, hi: nat)
    requires Spent(had, have, t0, t, lo, hi)
    ensures had >= Lack(t0, lo, hi)
  {
  }

  /** The page after the range has enough free pages exactly if the range with it had. */
  lemma SpentEnough(had: nat, have: nat, t0: Tree, t: Tree, lo: nat, hi: nat)
    requires lo <= hi && Spent(had, have, t0, t, lo, hi)
    ensures have >= Lack(t, hi, hi + 1) <==> had >= Lack(t0, lo, hi + 1)
  {
    hide Missing, Lack;
    MissingNext(t0, t, lo, hi);
  }

  lemma SpentNext(had: nat, mid: nat, have: nat, t0: Tree, t1: Tree, t: Tree, lo: nat, hi: nat)
    requires lo <= hi && Spent(had, mid, t0, t1, lo, hi) && Spent(mid, have, t1, t, hi, hi + 1)
    ensures Spent(had, have, t0, t, lo, hi + 1)
  {
    hide Missing, Lack;
    MissingNext(t0, t1, lo, hi);
    MissingKeys(t0, t1, t, lo, hi);
  }

  /** The same with a page for each page of the range besides the tables. */
  lemma GrownEnough(had: nat, have: nat, t0: Tree, t: Tree, lo: nat, hi: nat)
    requires lo <= hi <= lo + had && Spent(had - (hi - lo), have, t0, t, lo, hi)
    ensures have >= 1 + Lack(t, hi, hi + 1) <==> had >= hi + 1 - lo + Lack(t0, lo, hi + 1)
  {
    hide Missing, Lack;
    MissingNext(t0, t, lo, hi);
  }

  lemma GrownNext(had: nat, mid: nat, have: nat, t0: Tree, t1: Tree, t: Tree, lo: nat, hi: nat)
    requires lo <= hi < lo + had && Spent(had - (hi - lo), mid, t0, t1, lo, hi)
    requires mid > 0 && Spent(mid - 1, have, t1, t, hi, hi + 1)
    ensures Spent(had - (hi + 1 - lo), have, t0, t, lo, hi + 1)
  {
    hide Missing, Lack;
    assert Spent(had - (hi - lo) - 1, mid - 1, t0, t1, lo, hi);
    SpentNext(had - (hi - lo) - 1, mid - 1, have, t0, t1, t, lo, hi);
  }

  lemma GrownShort(had: nat, t: Tree, lo: nat, hi: nat, top: nat)
    requires lo <= hi <= top && had < hi - lo + Lack(t, lo, hi)
    ensures had < top - lo + Lack(t, lo, top)
  {
    hide Lack;
    MissingMore(t, lo, hi, top);
  }

  /** The two kernel pages at the top need the same two tables. */
  lemma TopTables(root: nat)
    ensures Lack(map[(2, 0) := root], TRAMPOLINE, TRAMPOLINE + 1) == 2
  {
    var t: Tree := map[(2, 0) := root];
    MissingOne(t, TRAMPOLINE);
    NeedDown(t, TRAMPOLINE, 2);
    NeedDown(t, TRAMPOLINE, 1);
    BuiltAll(t, t, TRAMPOLINE);
    hide Need, Lack, Way, Missing, Shift;
  }

  lemma TopShared(t: Tree, t': Tree, had: nat, have: nat)
    requires Spent(had, have, t, t', TRAMPOLINE, TRAMPOLINE + 1)
    ensures Lack(t', TRAPFRAME, TRAPFRAME + 1) == 0
  {
    TopMissing(t, t');
  }

  lemma TopMissing(t: Tree, t': Tree)
    requires t'.Keys == t.Keys + Missing(t, TRAMPOLINE, TRAMPOLINE + 1)
    ensures Missing(t', TRAPFRAME, TRAPFRAME + 1) == {}
  {
    hide Way, Missing;
    TopWay();
    MissingOne(t, TRAMPOLINE);
    MissingOne(t', TRAPFRAME);
  }

  lemma TopWay()
    ensures Way(TRAPFRAME, 0) == Way(TRAMPOLINE, 0)
  {
    assert Up(TRAPFRAME) == Up(TRAMPOLINE);
  }

  class Machine {
    /** The page numbers of the first page after the kernel, and of PHYSTOP. */
    const low: nat
    const high: nat
    var mem: Mem
    var free: seq<nat>

    ghost predicate Valid()
      reads this
    {
      && 0 < low <= high <= |mem| && high - low < TRAPFRAME && PagesOk(mem) && NoDup(free)
      && forall p :: p in free ==> low <= p < high
    }

    /** kalloc: a page off the free list, filled with junk; 0 if there is none. */
    method Kalloc() returns (p: nat)
      requires Valid()
      modifies this
      ensures Valid() && |mem| == |old(mem)|
      ensures p == 0 <==> old(free) == []
      ensures p == 0 ==> mem == old(mem) && free == old(free)
      ensures p != 0 ==> low <= p < high && old(free) == [p] + free && mem == old(mem)[p := Fill(0x0505_0505_0505_0505)]
      ensures p != 0 ==> p in old(free) && p !in free && SetOf(free) == SetOf(old(free)) - {p}
    {
      if free == [] {
        return 0;
      }
      p := free[0];
      assert p in free && forall q :: q in free[1..] ==> q in free;
      free := free[1..];
      mem := mem[p := Fill(0x0505_0505_0505_0505)];
    }

    /** kfree: a panic for a page outside the range that the allocator manages. It does not notice a page that is free
        already, and lists it twice. */
    method Kfree(p: nat) returns (ok: bool)
      requires Valid()
      modifies this
      ensures |mem| == |old(mem)| && PagesOk(mem) && ok == (low <= p < high)
      ensures Valid() <==> !ok || p !in old(free)
      ensures !ok ==> mem == old(mem) && free == old(free)
      ensures ok ==>
        free == [p] + old(free) && mem == old(mem)[p := Fill(0x0101_0101_0101_0101)]
          && SetOf(free) == SetOf(old(free)) + {p}
    {
      if p < low || p >= high {
        return false;
      }
      mem := mem[p := Fill(0x0101_0101_0101_0101)];
      if q: nat :| q < |free| && free[q] == p {
        assert ([p] + free)[0] == ([p] + free)[q + 1];
      }
      free := [p] + free;
      return true;
    }

    /** freerange, on an empty list: every page from the kernel's end to PHYSTOP once. */
    constructor (low: nat, high: nat, mem: Mem)
      requires 0 < low <= high <= |mem| && high - low < TRAPFRAME && PagesOk(mem)
      ensures Valid() && this.low == low && this.high == high && |this.mem| == |mem|
      ensures forall p :: p in free <==> low <= p < high
    {
      this.low, this.high, this.mem, this.free := low, high, mem, [];
      new;
      var p := low;
      while p < high
        invariant low <= p <= high && Valid() && this.low == low && this.high == high && |this.mem| == |mem|
        invariant forall q :: q in free <==> low <= q < p
      {
        var ok := Kfree(p);
        p := p + 1;
      }
    }

    /** A table tree in memory, its pages not on the free list. */
    ghost predicate TreeOk(root: nat, t: Tree)
      reads this
    {
      && Valid() && IsTree(mem, root, t) && Tables(t) !! SetOf(free)
      && forall k :: k in t ==> low <= t[k] < high
    }

    /** The translation of every virtual page. */
    ghost predicate SameFlat(mem0: Mem, t0: Tree, t: Tree)
      requires PagesOk(mem0) && PagesOk(mem)
      reads this
    {
      forall w: nat :: Flat(mem, t, w) == Flat(mem0, t0, w)
    }

    /** The free pages and a tree's tables together. */
    ghost function Pool(t: Tree): set<nat>
      reads `free
    {
      SetOf(free) + Tables(t)
    }

    /** Pages outside the pool keep their contents. */
    ghost predicate SameData(mem0: Mem, pool: set<nat>)
      reads this
    {
      |mem| == |mem0| && forall p :: 0 <= p < |mem| && p !in pool ==> mem[p] == mem0[p]
    }

    /** The missing table of entry i of table (l, n), taken off the free list and zeroed. */
    method NewTable(ghost root: nat, ghost t: Tree, ghost l: nat, ghost n: nat, table: nat, i: nat)
      returns (child: nat, ghost t': Tree)
      requires TreeOk(root, t) && (l, n) in t && l > 0 && t[(l, n)] == table && i < ENTRIES
        && (l - 1, Down(n, i)) !in t
      modifies this
      ensures TreeOk(root, t') && SameFlat(old(mem), t, t') && SameData(old(mem), old(Pool(t)))
        && Pool(t') == old(Pool(t))
      ensures child == 0 <==> old(free) == []
      ensures child == 0 ==> mem == old(mem) && free == old(free) && t' == t
      ensures child != 0 ==> t' == t[(l - 1, Down(n, i)) := child] && |free| == |old(free)| - 1
    {
      hide Flat, Down, MakePte, SetEntry, IsTree;
      t' := t;
      child := Kalloc();
      if child == 0 {
        return;
      }
      mem := mem[child := ZeroPage()];
      TreeFrame(old(mem), mem, root, t);
      AddTable(mem, root, t, l, n, i, child);
      t' := t[(l - 1, Down(n, i)) := child];
      mem := SetEntry(mem, table, i, MakePte(child, 0));
    }

    lemma InTree(root: nat, t: Tree, vpn: nat)
      requires TreeOk(root, t)
      ensures (2, 0) in t && t[(2, 0)] == root && ((0, Up(vpn)) in t ==> (1, Up(Up(vpn))) in t)
    {
      hide EntryOk, Up;
      if (0, Up(vpn)) in t {
        TableAbove(|mem|, root, t, vpn);
      }
    }

    /** One turn of walk's loop: down from a table to the one below it on the way to a page. */
    method Descend(ghost root: nat, vpn: nat, alloc: bool, table: nat, level: nat, ghost t: Tree)
      returns (child: Option<nat>, ghost t': Tree)
      requires TreeOk(root, t) && 0 < level <= 2
        && (level, Shift(vpn, level + 1)) in t && t[(level, Shift(vpn, level + 1))] == table
      modifies this
      ensures TreeOk(root, t') && SameFlat(old(mem), t, t') && SameData(old(mem), old(Pool(t)))
        && Pool(t') == old(Pool(t))
      ensures child.Some? <==> (level - 1, Shift(vpn, level)) in t || (alloc && old(free) != [])
      ensures child.None? || (level - 1, Shift(vpn, level)) in t ==> mem == old(mem) && free == old(free) && t' == t
      ensures child.Some? ==>
        && t'.Keys == t.Keys + {(level - 1, Shift(vpn, level))} && t'[(level - 1, Shift(vpn, level))] == child.value
        && |old(free)| == |free| + (if (level - 1, Shift(vpn, level)) in t then 0 else 1)
    {
      hide Flat, Down, MakePte, SetEntry, Up, Ix, SetOf, Tables;
      t' := t;
      var i := Px(level, vpn);
      ghost var n := Shift(vpn, level + 1);
      UpIx(Shift(vpn, level));
      assert Down(n, i) == Shift(vpn, level);
      var pte := mem[table][i];
      assert EntryOk(t, level, n, i, pte);
      if IsValid(pte) {
        return Some(Target(pte)), t;
      }
      if !alloc {
        return None, t;
      }
      var fresh';
      fresh', t' := NewTable(root, t, level, n, table, i);
      return if fresh' == 0 then None else Some(fresh'), t';
    }

    /** walk: the page and index of a virtual page's PTE. No translation changes; without alloc nothing changes. With
        alloc it fails exactly if there are fewer free pages than tables missing on the way. */
    method Walk(root: nat, vpn: nat, alloc: bool, ghost t: Tree) returns (slot: Option<(nat, nat)>, ghost t': Tree)
      requires TreeOk(root, t) && vpn < MAXPAGE
      modifies this
      ensures TreeOk(root, t') && SameFlat(old(mem), t, t') && SameData(old(mem), old(Pool(t)))
        && Pool(t') == old(Pool(t))
      ensures !alloc ==> mem == old(mem) && free == old(free) && t' == t && (slot.Some? <==> (0, Up(vpn)) in t)
      ensures alloc ==> (slot.Some? <==> |old(free)| >= Lack(t, vpn, vpn + 1))
      ensures alloc && slot.Some? ==> Spent(|old(free)|, |free|, t, t', vpn, vpn + 1)
      ensures alloc && slot.None? ==> free == []
      ensures (0, Up(vpn)) in t ==> mem == old(mem) && free == old(free) && t' == t && slot.Some?
      ensures slot.Some? ==> (0, Up(vpn)) in t' && slot.value == (t'[(0, Up(vpn))], Ix(vpn))
    {
      hide Flat, IsTree, Up, Ix, SetOf, Tables, Missing, Lack, Built, Need, Machine.Pool;
      ShiftTop(vpn);
      BuiltTop(t, vpn);
      NeedDown(t, vpn, 1);
      BuiltAll(t, t, vpn);
      InTree(root, t, vpn);
      var table, level := root, 2;
      t' := t;
      while level > 0
        invariant 0 <= level <= 2
        invariant TreeOk(root, t') && SameFlat(old(mem), t, t') && SameData(old(mem), old(Pool(t)))
          && Pool(t') == old(Pool(t))
        invariant (level, Shift(vpn, level + 1)) in t' && t'[(level, Shift(vpn, level + 1))] == table
        invariant !alloc || (0, Up(vpn)) in t ==> mem == old(mem) && free == old(free) && t' == t
        invariant Built(t, t', vpn, level) && |old(free)| == |free| + Need(t, vpn, level)
      {
        ghost var t1 := t';
        NeedDown(t, vpn, level);
        BuiltDown(t, t1, t1[(level - 1, Shift(vpn, level)) := 0], vpn, level);
        var child;
        child, t' := Descend(root, vpn, alloc, table, level, t');
        if child.None? {
          return None, t';
        }
        BuiltDown(t, t1, t', vpn, level);
        table := child.value;
        level := level - 1;
      }
      BuiltAll(t, t', vpn);
      return Some((table, Px(0, vpn))), t';
    }

    /** *pte = x, for the slot that walk found. */
    method SetPte(ghost root: nat, ghost t: Tree, ghost vpn: nat, slot: (nat, nat), pte: Pte)
      requires TreeOk(root, t) && (0, Up(vpn)) in t && slot == (t[(0, Up(vpn))], Ix(vpn))
      modifies `mem
      ensures TreeOk(root, t) && SameData(old(mem), Pool(t))
      ensures forall w: nat :: Flat(mem, t, w) == if w == vpn then pte else Flat(old(mem), t, w)
    {
      hide IsTree, SetOf, Flat, SetEntry;
      StoreFlat(mem, root, t, vpn, pte);
      assert slot.0 in Tables(t);
      mem := SetEntry(mem, slot.0, slot.1, pte);
    }

    /** One turn of mappages' loop. */
    method MapPage(root: nat, a: nat, page: nat, perm: nat, ghost t: Tree) returns (r: MapResult, ghost t': Tree)
      requires TreeOk(root, t) && a < MAXPAGE && perm < 1024 && perm % 2 == 0
      modifies this
      ensures TreeOk(root, t') && SameData(old(mem), old(Pool(t))) && Pool(t') == old(Pool(t)) && !r.NoSize?
      ensures MapsRange(old(mem), t, mem, t', a, if r.Mapped? then 1 else 0, page, perm)
      ensures r.NoMemory? <==> |old(free)| < Lack(t, a, a + 1)
      ensures if r.NoMemory? then free == [] else Spent(|old(free)|, |free|, t, t', a, a + 1)
      ensures r.Mapped? ==> !IsValid(Flat(old(mem), t, a))
      ensures r.Remap? ==> IsValid(Flat(old(mem), t, a))
    {
      hide IsTree, SetOf, Flat, SetEntry, Pool, Up, Ix, MakePte, IsValid, Lack, Spent;
      var slot;
      slot, t' := Walk(root, a, true, t);
      if slot.None? {
        return NoMemory, t';
      }
      var (table, i) := slot.value;
      AtSlot(mem, root, t', a);
      if IsValid(mem[table][i]) {
        return Remap, t';
      }
      SetPte(root, t', a, (table, i), MakePte(page, perm));
      return Mapped, t';
    }

    /** mappages: on success exactly the pages of the range are added; where it stops, exactly those before that page.
        It runs out of memory at the first page for whose tables there are not enough free pages. */
    method Mappages(root: nat, va: nat, size: nat, pa: nat, perm: nat, ghost t: Tree) returns (r: MapResult,
        ghost t': Tree, ghost n: nat)
      requires TreeOk(root, t) && va + size <= MAXPAGE * PGSIZE && perm < 1024 && perm % 2 == 0
      modifies this
      ensures TreeOk(root, t') && SameData(old(mem), old(Pool(t))) && Pool(t') == old(Pool(t))
      ensures r.NoSize? <==> size == 0
      ensures MapsRange(old(mem), t, mem, t', va / PGSIZE, n, pa / PGSIZE, perm)
        && Unmapped(old(mem), t, va / PGSIZE, n)
      ensures r.Mapped? ==> va / PGSIZE + n == (va + size - 1) / PGSIZE + 1
      ensures !r.Mapped? && size > 0 ==> va / PGSIZE + n <= (va + size - 1) / PGSIZE
      ensures r.Mapped? ==> Spent(|old(free)|, |free|, t, t', va / PGSIZE, va / PGSIZE + n)
      ensures r.NoMemory? ==> free == [] && |old(free)| < Lack(t, va / PGSIZE, va / PGSIZE + n + 1)
      ensures r.Remap? ==>
        IsValid(Flat(old(mem), t, va / PGSIZE + n)) && |old(free)| >= Lack(t, va / PGSIZE, va / PGSIZE + n + 1)
    {
      hide IsTree, SetOf, Flat, SetEntry, Pool, Up, Ix, MakePte, IsValid, Lack, Spent;
      t', n := t, 0;
      if size == 0 {
        return NoSize, t', n;
      }
      var a, last, page := va / PGSIZE, (va + size - 1) / PGSIZE, pa / PGSIZE;
      ghost var first := a;
      SpentNone(|free|, t, a);
      while true
        invariant first <= a <= last < MAXPAGE && n == a - first && page == pa / PGSIZE + n
        invariant TreeOk(root, t') && SameData(old(mem), old(Pool(t))) && Pool(t') == old(Pool(t))
        invariant MapsRange(old(mem), t, mem, t', first, n, pa / PGSIZE, perm) && Unmapped(old(mem), t, first, n)
        invariant Spent(|old(free)|, |free|, t, t', first, a)
        decreases last - a
      {
        ghost var mid, t1 := |free|, t';
        SpentEnough(|old(free)|, mid, t, t1, first, a);
        r, t' := MapPage(root, a, page, perm, t');
        if r != Mapped {
          return r, t', n;
        }
        SpentNext(|old(free)|, mid, |free|, t, t1, t', first, a);
        n := n + 1;
        if a == last {
          break;
        }
        a := a + 1;
        page := page + 1;
      }
      return Mapped, t', n;
    }

    /** A range's physical pages are the range's own: neither free nor tables, and managed by the allocator. */
    ghost predicate OwnsLeaves(t: Tree, lo: nat, hi: nat)
      requires PagesOk(mem)
      reads this
    {
      && DistinctLeaves(mem, t, lo, hi)
      && Leaves(mem, t, lo, hi) !! Pool(t)
      && forall p :: p in Leaves(mem, t, lo, hi) ==> low <= p < high
    }

    /** One turn of uvmunmap's loop: the mapping is removed and, if asked, its physical page is freed. */
    method UnmapOne(ghost root: nat, ghost t: Tree, ghost vpn: nat, slot: (nat, nat), doFree: bool)
      requires TreeOk(root, t) && (0, Up(vpn)) in t && slot == (t[(0, Up(vpn))], Ix(vpn))
      requires doFree ==> var p := Target(Flat(mem, t, vpn)); low <= p < high && p !in Pool(t)
      modifies this
      ensures TreeOk(root, t) && ClearsRange(old(mem), mem, t, vpn, vpn + 1) && SameData(old(mem), Pool(t))
      ensures if doFree then SetOf(free) == SetOf(old(free)) + {Target(Flat(old(mem), t, vpn))} else free == old(free)
    {
      hide IsTree, Flat, Up, Ix, Target;
      if doFree {
        AtSlot(mem, root, t, vpn);
        var page := Target(mem[slot.0][slot.1]);
        var ok := Kfree(page);
        TreeFrame(old(mem), mem, root, t);
      }
      SetPte(root, t, vpn, slot, 0);
    }

    /** uvmunmap: false is a panic; otherwise exactly the range is unmapped and, if asked, its pages are freed. */
    method Uvmunmap(root: nat, va: nat, npages: nat, doFree: bool, ghost t: Tree) returns (ok: bool)
      requires TreeOk(root, t) && va / PGSIZE + npages <= MAXPAGE
      requires doFree ==> OwnsLeaves(t, va / PGSIZE, va / PGSIZE + npages)
      modifies this
      ensures ok <==> va % PGSIZE == 0 && AllMapped(old(mem), t, va / PGSIZE, va / PGSIZE + npages)
      ensures ok ==>
        TreeOk(root, t) && ClearsRange(old(mem), mem, t, va / PGSIZE, va / PGSIZE + npages)
          && SameData(old(mem), Pool(t))
      ensures !doFree ==> free == old(free)
      ensures ok && doFree ==> SetOf(free) == SetOf(old(free)) + Leaves(old(mem), t, va / PGSIZE, va / PGSIZE + npages)
    {
      hide IsTree, Flat, Up, Ix, Target, IsMapping, IsValid;
      if va % PGSIZE != 0 {
        return false;
      }
      ghost var lo := va / PGSIZE;
      var a, end := va / PGSIZE, va / PGSIZE + npages;
      while a < end
        invariant lo <= a <= end && AllMapped(old(mem), t, lo, a)
        invariant TreeOk(root, t) && ClearsRange(old(mem), mem, t, lo, a) && SameData(old(mem), Pool(t))
        invariant !doFree ==> free == old(free)
        invariant doFree ==> SetOf(free) == SetOf(old(free)) + Leaves(old(mem), t, lo, a)
      {
        assert Flat(mem, t, a) == Flat(old(mem), t, a);
        var slot;
        ghost var t';
        slot, t' := Walk(root, a, false, t);
        if slot.None? {
          NotMapped(mem, t, a);
          return false;
        }
        var (table, i) := slot.value;
        AtSlot(mem, root, t, a);
        if !IsMapping(mem[table][i]) {
          return false;
        }
        LeavesSplit(old(mem), t, lo, a, a + 1);
        LeavesOne(old(mem), t, a);
        assert doFree ==> Target(Flat(old(mem), t, a)) in Leaves(old(mem), t, lo, end);
        UnmapOne(root, t, a, slot.value, doFree);
        a := a + 1;
      }
      return true;
    }

    /** A user address space of n pages: mapped, owned, and nothing else below the kernel pages at the top. */
    ghost predicate User(root: nat, t: Tree, n: nat)
      reads this
    {
      TreeOk(root, t) && n <= TRAPFRAME && AllMapped(mem, t, 0, n) && NothingFrom(mem, t, n) && OwnsLeaves(t, 0, n)
    }

    /** The free pages, the tables and the user pages; User makes them disjoint. */
    ghost function Total(t: Tree, n: nat): set<nat>
      requires PagesOk(mem)
      reads this
    {
      Pool(t) + Leaves(mem, t, 0, n)
    }

    /** An address space whose translations, but for the new page n, and whose owned pages are those of before. */
    lemma UserOf(mem0: Mem, t0: Tree, root: nat, t: Tree, n: nat, n': nat)
      requires PagesOk(mem0) && TreeOk(root, t) && AllMapped(mem0, t0, 0, n) && NothingFrom(mem0, t0, n)
        && DistinctLeaves(mem0, t0, 0, n)
      requires Leaves(mem0, t0, 0, n) !! Pool(t) && n <= n' <= n + 1 && n' <= TRAPFRAME
        && SameOutside(mem0, t0, mem, t, n, n')
      requires forall p :: p in Leaves(mem0, t0, 0, n) ==> low <= p < high
      requires n' == n + 1 ==> var pte := Flat(mem, t, n);
        IsMapping(pte) && low <= Target(pte) < high && Target(pte) !in Pool(t) + Leaves(mem0, t0, 0, n)
      ensures User(root, t, n')
      ensures Leaves(mem, t, 0, n') == Leaves(mem0, t0, 0, n) + (if n' == n then {} else {Target(Flat(mem, t, n))})
    {
      hide Flat, Target, IsMapping, IsTree, Pool;
      LeavesSame(mem0, t0, mem, t, 0, n);
      if n' == n + 1 {
        LeavesSplit(mem, t, 0, n, n + 1);
        LeavesOne(mem, t, n);
        DistinctMore(mem, t, 0, n);
      }
    }

    /** kalloc and memset: a zeroed page, no table among the tree's and no translation changed. */
    method TakePage(ghost root: nat, ghost t: Tree) returns (page: nat)
      requires TreeOk(root, t)
      modifies this
      ensures TreeOk(root, t) && SameFlat(old(mem), t, t) && SameData(old(mem), old(Pool(t)))
      ensures page == 0 <==> old(free) == []
      ensures page == 0 ==> mem == old(mem) && free == old(free)
      ensures page != 0 ==> |free| == |old(free)| - 1
      ensures page != 0 ==>
        low <= page < high && mem[page] == ZeroPage() && page !in Pool(t) && Pool(t) + {page} == old(Pool(t))
    {
      hide IsTree, Flat, ZeroPage, Fill;
      page := Kalloc();
      if page != 0 {
        mem := mem[page := ZeroPage()];
        TreeFrame(old(mem), mem, root, t);
      }
    }

    /** kfree of a page that no table uses. */
    method GiveBack(ghost root: nat, ghost t: Tree, page: nat)
      requires TreeOk(root, t) && low <= page < high && page !in Pool(t)
      modifies this
      ensures TreeOk(root, t) && SameFlat(old(mem), t, t) && SameData(old(mem), Pool(t))
        && Pool(t) == old(Pool(t)) + {page}
    {
      hide IsTree, Flat, Fill;
      var ok := Kfree(page);
      TreeFrame(old(mem), mem, root, t);
    }

    /** One turn of uvmalloc's loop: a zeroed page at page n, or nothing exactly if the free pages do not suffice for it
        and its missing tables. */
    method GrowOne(root: nat, n: nat, xperm: nat, ghost t: Tree) returns (ok: bool, ghost t': Tree)
      requires User(root, t, n) && n < TRAPFRAME && xperm in {0, PTE_W, PTE_X, PTE_W + PTE_X}
      modifies this
      ensures User(root, t', if ok then n + 1 else n) && SameData(old(mem), old(Pool(t)))
      ensures SameOutside(old(mem), t, mem, t', n, if ok then n + 1 else n)
      ensures ok ==> MapsZero(mem, Flat(mem, t', n), PTE_R + PTE_U + xperm)
      ensures ok <==> |old(free)| >= 1 + Lack(t, n, n + 1)
      ensures ok ==> Spent(|old(free)| - 1, |free|, t, t', n, n + 1)
      ensures Total(t', if ok then n + 1 else n) == old(Total(t, n)) && Pool(t') <= old(Pool(t))
    {
      hide IsTree, Flat, Target, IsMapping, MakePte, ZeroPage, AllMapped, DistinctLeaves, SetOf, Tables, Leaves,
        Machine.Pool, Lack, Spent;
      t' := t;
      var page := TakePage(root, t);
      if page == 0 {
        return false, t;
      }
      var r;
      ghost var k;
      r, t', k := Mappages(root, n * PGSIZE, PGSIZE, page * PGSIZE, PTE_R + PTE_U + xperm, t);
      if r != Mapped {
        assert r == NoMemory;
        GiveBack(root, t', page);
        UserOf(old(mem), t, root, t', n, n);
        return false, t';
      }
      SpentCost(|old(free)| - 1, |free|, t, t', n, n + 1);
      MakesMapping(page, PTE_R + PTE_U + xperm);
      UserOf(old(mem), t, root, t', n, n + 1);
      return true, t';
    }

    /** The address space cut to n' pages, once uvmunmap has freed the rest. */
    lemma UserCut(mem0: Mem, free0: seq<nat>, root: nat, t: Tree, n: nat, n': nat)
      requires PagesOk(mem0) && TreeOk(root, t) && n' <= n <= TRAPFRAME
      requires AllMapped(mem0, t, 0, n) && NothingFrom(mem0, t, n) && DistinctLeaves(mem0, t, 0, n)
      requires Leaves(mem0, t, 0, n) !! (SetOf(free0) + Tables(t))
        && forall p :: p in Leaves(mem0, t, 0, n) ==> low <= p < high
      requires ClearsRange(mem0, mem, t, n', n) && SetOf(free) == SetOf(free0) + Leaves(mem0, t, n', n)
      ensures User(root, t, n') && Total(t, n') == SetOf(free0) + Tables(t) + Leaves(mem0, t, 0, n)
    {
      hide Flat, Target, IsTree, SetOf, Tables;
      LeavesSplit(mem0, t, 0, n', n);
      LeavesSame(mem0, t, mem, t, 0, n');
      forall p | p in Leaves(mem0, t, 0, n')
        ensures p !in Leaves(mem0, t, n', n)
      {
        var v :| 0 <= v < n' && IsMapping(Flat(mem0, t, v)) && Target(Flat(mem0, t, v)) == p;
      }
    }

    /** uvmdealloc: exactly the pages above the new size are unmapped and freed; the panics of uvmunmap do not occur. */
    method Uvmdealloc(root: nat, oldsz: nat, newsz: nat, ghost t: Tree) returns (sz: nat)
      requires User(root, t, Pages(oldsz))
      modifies this
      ensures sz == if newsz >= oldsz then oldsz else newsz
      ensures User(root, t, Pages(sz)) && SameData(old(mem), Pool(t))
      ensures SameOutside(old(mem), t, mem, t, Pages(sz), Pages(oldsz))
      ensures Total(t, Pages(sz)) == old(Total(t, Pages(oldsz)))
    {
      hide IsTree, Flat, Target, IsMapping, IsValid, SetOf, Tables;
      if newsz >= oldsz {
        return oldsz;
      }
      if Pages(newsz) < Pages(oldsz) {
        var npages := Pages(oldsz) - Pages(newsz);
        LeavesSplit(mem, t, 0, Pages(newsz), Pages(oldsz));
        var ok := Uvmunmap(root, Pages(newsz) * PGSIZE, npages, true, t);
        assert ok;
        UserCut(old(mem), old(free), root, t, Pages(oldsz), Pages(newsz));
      }
      return newsz;
    }

    /** The new pages so far stay zeroed while one more is added. */
    lemma ZeroedMore(mem0: Mem, pool: set<nat>, t0: Tree, t: Tree, lo: nat, n: nat, perm: nat)
      requires PagesOk(mem0) && PagesOk(mem) && Zeroed(mem0, t0, lo, n, perm) && AllMapped(mem0, t0, 0, n)
        && Leaves(mem0, t0, 0, n) !! pool
      requires SameData(mem0, pool) && SameOutside(mem0, t0, mem, t, n, n + 1) && MapsZero(mem, Flat(mem, t, n), perm)
      ensures Zeroed(mem, t, lo, n + 1, perm)
    {
      hide Flat, Target, IsMapping;
      forall w | lo <= w < n
        ensures MapsZero(mem, Flat(mem, t, w), perm)
      {
        assert IsMapping(Flat(mem0, t0, w)) && Target(Flat(mem0, t0, w)) in Leaves(mem0, t0, 0, n);
        assert MapsZero(mem0, Flat(mem0, t0, w), perm);
      }
    }

    /** Back to the user pages of before, the pool is the pool of before. */
    lemma PoolBack(mem0: Mem, pool0: set<nat>, t0: Tree, t: Tree, n: nat)
      requires PagesOk(mem0) && PagesOk(mem) && (forall w: nat :: w < n ==> Flat(mem, t, w) == Flat(mem0, t0, w))
      requires Leaves(mem, t, 0, n) !! Pool(t) && Leaves(mem0, t0, 0, n) !! pool0
        && Total(t, n) == pool0 + Leaves(mem0, t0, 0, n)
      ensures Pool(t) == pool0
    {
      hide Flat, Pool, Leaves;
      LeavesSame(mem0, t0, mem, t, 0, n);
      var leaves := Leaves(mem, t, 0, n);
      assert forall p :: p in Pool(t) ==> p in Pool(t) + leaves;
      assert forall p :: p in pool0 ==> p in pool0 + leaves;
    }

    /** Each user page is a page of its own between low and high: a process never reaches the trapframe. */
    lemma PagesBound(root: nat, t: Tree, n: nat)
      requires User(root, t, n)
      ensures n <= high - low < TRAPFRAME
    {
      hide Flat, Target, IsMapping, IsTree;
      LeavesCount(mem, t, n);
      SubsetSize(Leaves(mem, t, 0, n), Interval(low, high));
    }

    /** uvmalloc: grown to newsz with zeroed pages, or every translation as before. It fails exactly if there are fewer
        free pages than new pages and tables missing for them. */
    method Uvmalloc(root: nat, oldsz: nat, newsz: nat, xperm: nat, ghost t: Tree) returns (sz: nat, ghost t': Tree)
      requires User(root, t, Pages(oldsz)) && xperm in {0, PTE_W, PTE_X, PTE_W + PTE_X}
      modifies this
      ensures newsz < oldsz ==> sz == oldsz && mem == old(mem) && free == old(free) && t' == t
      ensures newsz >= oldsz ==> sz == newsz || sz == 0
      ensures newsz >= oldsz ==>
        (sz == newsz <==>
          |old(free)| >= Pages(newsz) - Pages(oldsz) + Lack(t, Pages(oldsz), Pages(newsz)))
      ensures SameData(old(mem), old(Pool(t)))
      ensures newsz >= oldsz && sz == newsz ==>
        User(root, t', Pages(newsz)) && SameOutside(old(mem), t, mem, t', Pages(oldsz), Pages(newsz))
      ensures newsz >= oldsz && sz == newsz ==> Zeroed(mem, t', Pages(oldsz), Pages(newsz), PTE_R + PTE_U + xperm)
      ensures newsz >= oldsz && sz == newsz ==> Total(t', Pages(newsz)) == old(Total(t, Pages(oldsz)))
      ensures sz == 0 < newsz ==>
        User(root, t', Pages(oldsz)) && SameFlat(old(mem), t, t')
          && Total(t', Pages(oldsz)) == old(Total(t, Pages(oldsz)))
    {
      hide IsTree, Flat, Target, IsMapping, IsValid, SetOf, Tables, AllMapped, DistinctLeaves, Leaves, Machine.Pool,
        MapsZero, Lack, Spent;
      t' := t;
      if newsz < oldsz {
        return oldsz, t;
      }
      var first := Pages(oldsz);
      var a := first;
      SpentNone(|free|, t, a);
      while a * PGSIZE < newsz
        invariant first <= a && (a == first || (a - 1) * PGSIZE < newsz) && User(root, t', a)
        invariant SameData(old(mem), old(Pool(t))) && Pool(t') <= old(Pool(t))
          && SameOutside(old(mem), t, mem, t', first, a)
        invariant Zeroed(mem, t', first, a, PTE_R + PTE_U + xperm) && Total(t', a) == old(Total(t, first))
        invariant a - first <= |old(free)| && Spent(|old(free)| - (a - first), |free|, t, t', first, a)
        decreases newsz - a * PGSIZE
      {
        ghost var mem1, pool1, t1, free1 := mem, Pool(t'), t', |free|;
        GrownEnough(|old(free)|, free1, t, t1, first, a);
        PagesBound(root, t', a);
        var ok;
        ok, t' := GrowOne(root, a, xperm, t');
        if !ok {
          var sz' := Uvmdealloc(root, a * PGSIZE, first * PGSIZE, t');
          PoolBack(old(mem), old(Pool(t)), t, t', first);
          assert a + 1 <= Pages(newsz);
          GrownShort(|old(free)|, t, first, a + 1, Pages(newsz));
          return 0, t';
        }
        GrownNext(|old(free)|, free1, |free|, t, t1, t', first, a);
        ZeroedMore(mem1, pool1, t1, t', first, a, PTE_R + PTE_U + xperm);
        a := a + 1;
      }
      assert a == Pages(newsz);
      SpentCost(|old(free)| - (a - first), |free|, t, t', first, a);
      return newsz, t';
    }

    /** Table (l, n) and those below it hold no mapping and are not free. */
    ghost predicate Freeable(root: nat, t: Tree, l: nat, n: nat)
      reads this
    {
      && Valid() && Shape(|mem|, root, t) && (l, n) in t && l <= 2 && EmptyBelow(mem, t, l, n)
      && Below(t, l, n) !! SetOf(free) && forall p :: p in Below(t, l, n) ==> low <= p < high
    }

    /** freewalk: exactly the tables at and below this one are freed, each once; false, its leaf panic, does not
        occur. */
    method Freewalk(table: nat, ghost root: nat, ghost t: Tree, ghost l: nat, ghost n: nat) returns (ok: bool)
      requires Freeable(root, t, l, n) && t[(l, n)] == table
      modifies this
      ensures ok && Valid() && SetOf(free) == SetOf(old(free)) + Below(t, l, n) && SameData(old(mem), Below(t, l, n))
      decreases l
    {
      hide Shape, EmptyBelow, Below, BelowFirst, EntryOk, MakePte, IsValid, IsLeaf, Target, Under, SetEntry, Fill;
      ghost var size := |mem|;
      BelowAll(size, root, t, l, n);
      assert EmptyTable(mem, t, (l, n)) by { EmptyAt(mem, t, l, n); }
      var i := 0;
      while i < ENTRIES
        invariant 0 <= i <= ENTRIES && Valid() && |mem| == size && table < size
        invariant SetOf(free) == SetOf(old(free)) + BelowFirst(t, l, n, i)
        invariant forall p :: 0 <= p < size && p !in BelowFirst(t, l, n, i) && p != table ==> mem[p] == old(mem)[p]
        invariant forall j :: i <= j < ENTRIES ==> mem[table][j] == old(mem)[table][j]
      {
        var pte := mem[table][i];
        assert pte == old(mem)[table][i];
        if l > 0 {
          ChildBelow(size, root, t, l, n, i);
          BelowStep(size, root, t, l, n, i);
          EmptyChild(old(mem), mem, t, l, n, i);
        } else {
          NoneBelow(t, n, i);
          NoneBelow(t, n, i + 1);
        }
        ok := FreeEntry(table, i, pte, root, t, l, n);
        i := i + 1;
      }
      ok := Kfree(table);
    }

    /** One turn of freewalk's loop. */
    method FreeEntry(table: nat, i: nat, pte: Pte, ghost root: nat, ghost t: Tree, ghost l: nat, ghost n: nat)
      returns (ok: bool)
      requires Valid() && Shape(|mem|, root, t) && (l, n) in t && l <= 2 && i < ENTRIES && table == t[(l, n)] < |mem|
        && pte == mem[table][i]
      requires if l == 0 then !IsValid(pte) else EntryOk(t, l, n, i, pte)
      requires l > 0 && (l - 1, Down(n, i)) in t ==> Freeable(root, t, l - 1, Down(n, i))
      modifies this
      ensures ok && Valid() && |mem| == |old(mem)|
      ensures forall j :: i < j < ENTRIES ==> mem[table][j] == old(mem)[table][j]
      ensures SetOf(free) == SetOf(old(free)) + (if l == 0 then {} else Below(t, l - 1, Down(n, i)))
      ensures forall p :: 0 <= p < |mem| && p != table && (l == 0 || p !in Below(t, l - 1, Down(n, i))) ==>
        mem[p] == old(mem)[p]
      decreases l, 0
    {
      hide SetOf, Shape, EmptyBelow, Below, Under, Fill;
      if l > 0 {
        BelowStep(|mem|, root, t, l, n, i);
      }
      ok := true;
      if IsValid(pte) && !IsLeaf(pte) {
        ChildBelow(|mem|, root, t, l, n, i);
        ok := Freewalk(Target(pte), root, t, l - 1, Down(n, i));
        mem := SetEntry(mem, table, i, 0);
      } else if IsValid(pte) {
        return false;
      }
    }

    /** uvmfree: every user page and every table is free again, each freed once; no panic occurs. */
    method Uvmfree(root: nat, sz: nat, ghost t: Tree) returns (ok: bool)
      requires User(root, t, Pages(sz)) && !IsValid(Flat(mem, t, TRAPFRAME)) && !IsValid(Flat(mem, t, TRAMPOLINE))
      modifies this
      ensures ok && Valid() && SetOf(free) == old(Total(t, Pages(sz))) && SameData(old(mem), old(Total(t, Pages(sz))))
    {
      hide IsTree, Flat, Target, IsMapping, SetOf, Tables;
      ok := true;
      if sz > 0 {
        ok := Uvmunmap(root, 0, Pages(sz), true, t);
        UserCut(old(mem), old(free), root, t, Pages(sz), 0);
      }
      assert Leaves(mem, t, 0, 0) == {};
      assert ok && SetOf(free) + Tables(t) == old(Total(t, Pages(sz)));
      FreeableTree(root, t);
      ok := Freewalk(root, root, t, 2, 0);
    }

    lemma FreeableTree(root: nat, t: Tree)
      requires TreeOk(root, t) && forall w: nat :: !IsValid(Flat(mem, t, w))
      ensures Freeable(root, t, 2, 0) && Below(t, 2, 0) == Tables(t) && t[(2, 0)] == root
    {
      hide Flat, EmptyBelow, Below, IsValid, EntryOk;
      EmptyTree(mem, root, t);
      BelowRoot(|mem|, root, t);
    }

    /** uvmcreate: one zeroed table, or 0. */
    method Uvmcreate() returns (root: nat, ghost t: Tree)
      requires Valid()
      modifies this
      ensures t == map[(2, 0) := root] && SameData(old(mem), SetOf(old(free)))
      ensures root == 0 <==> old(free) == []
      ensures root == 0 ==> Valid() && free == old(free)
      ensures root != 0 ==> |free| == |old(free)| - 1
      ensures root != 0 ==> User(root, t, 0) && Total(t, 0) == SetOf(old(free)) && forall w: nat :: Flat(mem, t, w) == 0
    {
      root := Kalloc();
      t := map[(2, 0) := root];
      if root == 0 {
        return;
      }
      mem := mem[root := ZeroPage()];
      assert root in Tables(t) by { assert t[(2, 0)] == root; }
      assert Tables(t) == {root};
    }

    /** A process's address space: n user pages, and the trampoline and trapframe pages on top. */
    ghost predicate Process(root: nat, t: Tree, n: nat, trampoline: nat, trapframe: nat)
      reads this
    {
      && User(root, t, n)
      && Flat(mem, t, TRAMPOLINE) == MakePte(trampoline, PTE_R + PTE_X)
      && Flat(mem, t, TRAPFRAME) == MakePte(trapframe, PTE_R + PTE_W)
    }

    /** Map one of the two kernel pages at the top. */
    method MapTop(root: nat, vpn: nat, page: nat, perm: nat, ghost t: Tree) returns (ok: bool, ghost t': Tree)
      requires User(root, t, 0) && vpn in {TRAMPOLINE, TRAPFRAME} && Flat(mem, t, vpn) == 0
        && perm in {PTE_R + PTE_W, PTE_R + PTE_X}
      modifies this
      ensures User(root, t', 0) && Total(t', 0) == old(Total(t, 0)) && SameData(old(mem), old(Total(t, 0)))
      ensures forall w: nat :: Flat(mem, t', w) == if ok && w == vpn then MakePte(page, perm) else Flat(old(mem), t, w)
      ensures ok <==> |old(free)| >= Lack(t, vpn, vpn + 1)
      ensures ok ==> Spent(|old(free)|, |free|, t, t', vpn, vpn + 1)
    {
      hide IsTree, Flat, Target, IsMapping, SetOf, Tables, MakePte, Lack, Spent;
      var r;
      ghost var k;
      r, t', k := Mappages(root, vpn * PGSIZE, PGSIZE, page * PGSIZE, perm, t);
      assert r == Mapped || r == NoMemory;
      if r == Mapped {
        SpentCost(|old(free)|, |free|, t, t', vpn, vpn + 1);
      }
      return r == Mapped, t';
    }

    /** proc_pagetable: a process with no user memory; a failure leaves the free pages as they were, and comes exactly
        when there are fewer free pages than the root and the two tables that the kernel pages share. */
    method ProcPagetable(trampoline: nat, trapframe: nat) returns (root: nat, ghost t: Tree)
      requires Valid()
      modifies this
      ensures Valid() && SameData(old(mem), SetOf(old(free)))
      ensures root == 0 <==> |old(free)| < 3
      ensures root == 0 ==> SetOf(free) == SetOf(old(free))
      ensures root != 0 ==> Process(root, t, 0, trampoline, trapframe) && Total(t, 0) == SetOf(old(free))
    {
      hide IsTree, Flat, Target, IsMapping, SetOf, Tables, MakePte, Lack, Spent;
      root, t := Uvmcreate();
      if root == 0 {
        return;
      }
      TopTables(root);
      var ok;
      ghost var t0, free0 := t, |free|;
      ok, t := MapTop(root, TRAMPOLINE, trampoline, PTE_R + PTE_X, t);
      if !ok {
        ok := Uvmfree(root, 0, t);
        return 0, t;
      }
      TopShared(t0, t, free0, |free|);
      ok, t := MapTop(root, TRAPFRAME, trapframe, PTE_R + PTE_W, t);
      // The trapframe's tables are there by now: the failure for which the source unmaps the trampoline does not occur.
      assert ok;
    }

    /** uvmunmap of one of the two kernel pages, which are not freed. */
    method UnmapTop(root: nat, ghost n: nat, vpn: nat, ghost t: Tree) returns (ok: bool)
      requires User(root, t, n) && vpn in {TRAMPOLINE, TRAPFRAME} && IsMapping(Flat(mem, t, vpn))
      modifies this
      ensures ok && User(root, t, n) && Total(t, n) == old(Total(t, n)) && ClearsRange(old(mem), mem, t, vpn, vpn + 1)
        && SameData(old(mem), old(Total(t, n)))
    {
      hide IsTree, Flat, Target, IsMapping, SetOf, Tables;
      ok := Uvmunmap(root, vpn * PGSIZE, 1, false, t);
      LeavesSame(old(mem), t, mem, t, 0, n);
    }

    /** proc_freepagetable: a process's tables and user pages are free again; the two kernel pages stay as they are. */
    method ProcFreepagetable(root: nat, sz: nat, ghost t: Tree, ghost trampoline: nat, ghost trapframe: nat)
      returns (ok: bool)
      requires Process(root, t, Pages(sz), trampoline, trapframe)
      modifies this
      ensures ok && Valid() && SetOf(free) == old(Total(t, Pages(sz))) && SameData(old(mem), old(Total(t, Pages(sz))))
    {
      hide IsTree, Flat, Target, IsMapping, SetOf, Tables, MakePte;
      MakesMapping(trampoline, PTE_R + PTE_X);
      MakesMapping(trapframe, PTE_R + PTE_W);
      ok := UnmapTop(root, Pages(sz), TRAMPOLINE, t);
      ok := UnmapTop(root, Pages(sz), TRAPFRAME, t);
      ok := Uvmfree(root, sz, t);
    }

    /** growproc: new pages are zeroed and writable; it fails exactly if the free pages do not suffice for a growth.
        Size arithmetic is unsigned, so shrinking below zero wraps to a size that uvmdealloc ignores. */
    method Growproc(root: nat, sz: nat, n: int, ghost t: Tree, ghost trampoline: nat, ghost trapframe: nat)
      returns (r: int, sz': nat, ghost t': Tree)
      requires Process(root, t, Pages(sz), trampoline, trapframe) && -0x8000_0000 <= n < 0x8000_0000
      modifies this
      ensures r == 0 || r == -1
      ensures r == -1 <==> n > 0 && |old(free)| < Pages(sz + n) - Pages(sz) + Lack(t, Pages(sz), Pages(sz + n))
      ensures r == 0 ==> sz' == if sz + n < 0 then sz else sz + n
      ensures Valid() && Process(root, t', Pages(sz'), trampoline, trapframe)
        && Total(t', Pages(sz')) == old(Total(t, Pages(sz)))
      ensures r == 0 && n > 0 ==> Zeroed(mem, t', Pages(sz), Pages(sz'), PTE_R + PTE_U + PTE_W)
      ensures r == -1 ==> n > 0 && sz' == sz && SameFlat(old(mem), t, t')
      ensures SameData(old(mem), Pool(t') + old(Pool(t)))
      ensures forall w: nat :: w < Pages(sz) && w < Pages(sz') ==> Flat(mem, t', w) == Flat(old(mem), t, w)
    {
      hide IsTree, Flat, Target, IsMapping, SetOf, Tables, MakePte, NothingFrom, Lack, MapsZero;
      r, sz', t' := 0, sz, t;
      if n > 0 {
        sz', t' := Uvmalloc(root, sz, sz + n, PTE_W, t);
        if sz' == 0 {
          return -1, sz, t';
        }
      } else if n < 0 {
        sz' := Uvmdealloc(root, sz, (sz + n) % 0x1_0000_0000_0000_0000, t);
      }
    }

    /** A process from creation through any growproc calls to its end, no panic on the way: the free pages are again
        those it started with, and no other page has changed. */
    method Lifetime(trampoline: nat, trapframe: nat, calls: seq<int>) returns (ok: bool)
      requires Valid() && forall i :: 0 <= i < |calls| ==> -0x8000_0000 <= calls[i] < 0x8000_0000
      modifies this
      ensures ok && Valid() && SetOf(free) == SetOf(old(free))
      ensures forall p :: 0 <= p < |mem| && p !in old(free) ==> |mem| == |old(mem)| && mem[p] == old(mem)[p]
    {
      hide IsTree, Flat, Target, IsMapping, Tables, MakePte, User;
      var root;
      ghost var t;
      root, t := ProcPagetable(trampoline, trapframe);
      if root == 0 {
        return true;
      }
      var sz: nat, i := 0, 0;
      while i < |calls|
        invariant 0 <= i <= |calls| && Process(root, t, Pages(sz), trampoline, trapframe) && Valid()
        invariant Total(t, Pages(sz)) == SetOf(old(free)) && SameData(old(mem), SetOf(old(free)))
      {
        var r;
        r, sz, t := Growproc(root, sz, calls[i], t, trampoline, trapframe);
        i := i + 1;
      }
      ok := ProcFreepagetable(root, sz, t, trampoline, trapframe);
    }
  }
}
