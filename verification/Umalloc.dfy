/** The user-level allocator: a circular free list of headers threaded through memory obtained from sbrk.
    Addresses are in bytes; a block is its header's address and its size in units. */
module Umalloc {
  import opened Collections
  import opened FreeList

  /** The units for a request: its bytes rounded up, and one for the header. */
  function Units(nbytes: nat): (n: nat)
    ensures Roomy(n, nbytes)
  {
    (nbytes + UNIT - 1) / UNIT + 1
  }

  /** A block of n units holds nbytes bytes after its header, and a smaller one does not. */
  predicate Roomy(n: nat, nbytes: nat) {
    n > 0 && nbytes <= UNIT * (n - 1) < nbytes + UNIT
  }

  lemma UnitsBound(nbytes: nat)
    requires nbytes <= 0x7fff_ffe0
    ensures 0 < Units(nbytes) * UNIT < 0x8000_0000 && Units(nbytes) > 0
  {
  }

  const MIN_UNITS := 4096

  /** The conversion to int of morecore's byte count when it is passed to sbrk. */
  function AsInt(n: nat): int {
    var low := n % 0x1_0000_0000;
    if low < 0x8000_0000 then low else low - 0x1_0000_0000
  }

  /** sbrk is asked for exactly the bytes that the new block's size then claims for requests up to this size only; above
      it, for 2^32 bytes less. */
  lemma SbrkExact(nbytes: nat)
    requires nbytes < 0x1_0000_0000
    ensures AsInt(Units(nbytes) * UNIT) == Units(nbytes) * UNIT <==> nbytes <= 0x7fff_ffe0
    ensures nbytes > 0x7fff_ffe0 ==> AsInt(Units(nbytes) * UNIT) == Units(nbytes) * UNIT - 0x1_0000_0000 <= UNIT
  {
    assert Units(nbytes) * UNIT < 0x8000_0000 <==> Units(nbytes) <= 0x7ff_ffff;
    assert Units(nbytes) <= 0x1000_0001;
  }

  /** So for a larger request the block that morecore puts on the free list claims bytes that sbrk has not granted, all
      of its bytes but the header's at most. */
  lemma Overclaims(p: nat, nbytes: nat, x: nat)
    requires 0x7fff_ffe0 < nbytes < 0x1_0000_0000 && p + UNIT <= x < p + Units(nbytes) * UNIT
    ensures Within(Span(p, Units(nbytes)), x) && !(p <= x < p + AsInt(Units(nbytes) * UNIT))
  {
    SbrkExact(nbytes);
  }

  ghost predicate InLive(live: map<nat, nat>, x: nat) {
    exists b :: b in live && Within(Span(b, live[b]), x)
  }

  /** No byte is in two allocated blocks. */
  ghost predicate LiveApart(live: map<nat, nat>) {
    forall b, c, x :: b in live && c in live && Within(Span(b, live[b]), x) && Within(Span(c, live[c]), x) ==> b == c
  }

  function NextAt(s: seq<Span>, i: nat): nat
    requires i < |s|
  {
    if i + 1 < |s| then s[i + 1].at else s[0].at
  }

  /** Header i of the list is in memory with its size and its link. */
  ghost predicate Node(s: seq<Span>, ptr: map<nat, nat>, size: map<nat, nat>, i: nat)
    requires i < |s|
  {
    var a := s[i].at;
    a in ptr && a in size && size[a] == s[i].units && ptr[a] == NextAt(s, i)
  }

  ghost predicate Ring(s: seq<Span>, ptr: map<nat, nat>, size: map<nat, nat>) {
    forall i :: 0 <= i < |s| ==> Node(s, ptr, size, i)
  }

  /** A list that starts at the empty base block and has no other empty block. */
  ghost predicate FromBase(s: seq<Span>, base: nat) {
    |s| > 0 && s[0] == Span(base, 0) && forall i :: 0 < i < |s| ==> s[i].units > 0
  }

  ghost predicate InList(s: seq<Span>, a: nat) {
    exists i :: 0 <= i < |s| && s[i].at == a
  }

  /** Free and allocated blocks share the sbrk'd bytes out between them. */
  ghost predicate Partition(owned: set<nat>, s: seq<Span>, live: map<nat, nat>) {
    && LiveApart(live)
    && forall x: nat :: (x in owned <==> Covers(s, x) || InLive(live, x)) && !(Covers(s, x) && InLive(live, x))
  }

  ghost predicate LiveHeaders(live: map<nat, nat>, size: map<nat, nat>) {
    forall b :: b in live ==> b in size && size[b] == live[b] > 0
  }

  /** Moving a block from the allocated ones to the list keeps the partition. */
  lemma PartitionFree(owned: set<nat>, s: seq<Span>, live: map<nat, nat>, i: nat, bp: nat)
    requires Partition(owned, s, live) && i < |s| && bp in live
    ensures Partition(owned, Insert(s, i, Span(bp, live[bp])), live - {bp})
  {
    hide Covers, Insert, Within;
    var b := Span(bp, live[bp]);
    forall x: nat
      ensures (x in owned <==> Covers(Insert(s, i, b), x) || InLive(live - {bp}, x))
        && !(Covers(Insert(s, i, b), x) && InLive(live - {bp}, x))
    {
      InsertCovers(s, i, b, x);
      InLiveAdd(live - {bp}, b, x);
      assert live == (live - {bp})[bp := live[bp]];
    }
  }

  /** And so does moving a block cut off the list to the allocated ones. */
  lemma PartitionMalloc(owned: set<nat>, s: seq<Span>, live: map<nat, nat>, i: nat, n: nat)
    requires Partition(owned, s, live) && Ordered(s) && i < |s| && 0 < n <= s[i].units
      && (forall b :: b in live ==> live[b] > 0)
    ensures Cut(s, i, n).at !in live && Partition(owned, Take(s, i, n), live[Cut(s, i, n).at := n])
  {
    hide Covers, Take, Ordered;
    var b := Cut(s, i, n);
    forall x: nat | Within(b, x)
      ensures !InLive(live, x)
    {
      TakeCovers(s, i, n, x);
    }
    assert Within(b, b.at) && (b.at in live ==> Within(Span(b.at, live[b.at]), b.at));
    forall x: nat
      ensures InLive(live[b.at := n], x) <==> InLive(live, x) || Within(b, x)
    {
      InLiveAdd(live, b, x);
    }
    assert LiveApart(live[b.at := n]) by {
      AddApart(live, b);
    }
    forall x: nat
      ensures (x in owned <==> Covers(Take(s, i, n), x) || InLive(live[b.at := n], x))
        && !(Covers(Take(s, i, n), x) && InLive(live[b.at := n], x))
    {
      TakeCovers(s, i, n, x);
    }
  }

  lemma InLiveAdd(live: map<nat, nat>, b: Span, x: nat)
    requires b.at !in live
    ensures InLive(live[b.at := b.units], x) <==> InLive(live, x) || Within(b, x)
  {
    hide Within;
    var live' := live[b.at := b.units];
    assert b == Span(b.at, live'[b.at]);
    if InLive(live, x) {
      var c :| c in live && Within(Span(c, live[c]), x);
      assert live'[c] == live[c];
    }
  }

  lemma AddApart(live: map<nat, nat>, b: Span)
    requires LiveApart(live) && b.at !in live && (forall x: nat :: Within(b, x) ==> !InLive(live, x))
    ensures LiveApart(live[b.at := b.units])
  {
    hide Within;
    var live' := live[b.at := b.units];
    forall c, d, x | c in live' && d in live' && Within(Span(c, live'[c]), x) && Within(Span(d, live'[d]), x)
      ensures c == d
    {
      assert b == Span(b.at, live'[b.at]);
    }
  }

  /** The bytes from ap to ap + nbytes are in the block with its header before ap, have been granted by sbrk, and are in
      no free block and no other allocated one. */
  ghost predicate Private(owned: set<nat>, s: seq<Span>, live: map<nat, nat>, ap: nat, nbytes: nat)
    requires ap >= UNIT && ap - UNIT in live
  {
    forall x: nat :: ap <= x < ap + nbytes ==>
      && Within(Span(ap - UNIT, live[ap - UNIT]), x) && x in owned && !Covers(s, x)
      && forall c :: c in live && c != ap - UNIT ==> !Within(Span(c, live[c]), x)
  }

  lemma RoomPrivate(owned: set<nat>, s: seq<Span>, live: map<nat, nat>, ap: nat, nbytes: nat)
    requires Partition(owned, s, live) && ap >= UNIT && ap - UNIT in live && Roomy(live[ap - UNIT], nbytes)
    ensures Private(owned, s, live, ap, nbytes)
  {
    hide Covers;
    forall x: nat | ap <= x < ap + nbytes
      ensures Within(Span(ap - UNIT, live[ap - UNIT]), x) && InLive(live, x)
    {
    }
  }

  ghost function Bytes(b: Span): set<nat> {
    set x | b.at <= x < b.End() && Within(b, x)
  }

  /** A fresh block above every owned byte, as morecore makes one. */
  lemma PartitionGrow(owned: set<nat>, s: seq<Span>, live: map<nat, nat>, b: Span)
    requires Partition(owned, s, live) && b.units > 0 && (forall x :: x in owned ==> x < b.at)
      && (forall c :: c in live ==> live[c] > 0)
    ensures b.at !in live && Partition(owned + Bytes(b), s, live[b.at := b.units])
  {
    hide Covers;
    assert b.at in live ==> Within(Span(b.at, live[b.at]), b.at) && InLive(live, b.at);
    assert forall x: nat :: Within(b, x) ==> x !in owned;
    AddApart(live, b);
    forall x: nat
      ensures InLive(live[b.at := b.units], x) <==> InLive(live, x) || Within(b, x)
    {
      InLiveAdd(live, b, x);
    }
  }

  /** An allocated block has a place in the list. */
  lemma LivePlace(owned: set<nat>, s: seq<Span>, base: nat, live: map<nat, nat>, bp: nat) returns (i: nat)
    requires Partition(owned, s, live) && Ordered(s) && FromBase(s, base) && bp in live && live[bp] > 0
      && (forall x :: x in owned ==> base < x)
    ensures Fits(s, i, Span(bp, live[bp])) && base <= s[i].at < bp && (forall j :: i < j < |s| ==> bp < s[j].at)
  {
    var b := Span(bp, live[bp]);
    assert forall x: nat :: Within(b, x) ==> InLive(live, x);
    assert Within(b, bp);
    forall j | 0 < j < |s|
      ensures Covers(s, s[j].at)
    {
      assert Within(s[j], s[j].at);
    }
    i := Place(s, bp);
    assert !Within(s[i], bp);
    if i + 1 < |s| {
      assert Covers(s, s[i + 1].at) && !Within(b, s[i + 1].at);
    }
  }

  lemma LiveNotFree(owned: set<nat>, s: seq<Span>, base: nat, live: map<nat, nat>, i: nat)
    requires Partition(owned, s, live) && FromBase(s, base) && i < |s| && (forall b :: b in live ==> live[b] > 0)
      && (forall x :: x in owned ==> base < x)
    ensures s[i].at !in live
  {
    var a := s[i].at;
    assert a in live ==> Within(Span(a, live[a]), a) && InLive(live, a);
    assert s[i].units > 0 ==> Within(s[i], a) && Covers(s, a);
  }

  lemma LeftShape(front: seq<Span>, base: nat, b: Span, back: seq<Span>)
    requires FromBase(front, base) && b.units > 0 && base < b.at
      && (forall j :: 0 <= j < |back| ==> back[j].units > 0)
    ensures var s', i := InsertLeft(front, b, back), |front| - 1;
      && FromBase(s', base) && i < |s'| && s'[i].at == front[i].at
      && (s'[i].units >= b.units || (i + 1 < |s'| && s'[i + 1].units >= b.units))
  {
  }

  /** Joining keeps the base block first, and the joined block is at place i or just after it. */
  lemma InsertShape(s: seq<Span>, base: nat, i: nat, b: Span)
    requires FromBase(s, base) && Fits(s, i, b) && base < b.at
    ensures var s' := Insert(s, i, b);
      && FromBase(s', base) && i < |s'| && s'[i].at == s[i].at
      && (s'[i].units >= b.units || (i + 1 < |s'| && s'[i + 1].units >= b.units))
  {
    hide InsertLeft;
    if i + 1 < |s| && b.End() == s[i + 1].at {
      LeftShape(s[..i + 1], base, Span(b.at, b.units + s[i + 1].units), s[i + 2..]);
    } else {
      LeftShape(s[..i + 1], base, b, s[i + 1..]);
    }
  }

  predicate JoinsRight(s: seq<Span>, i: nat, b: Span)
    requires i < |s|
  {
    i + 1 < |s| && b.End() == s[i + 1].at
  }

  predicate JoinsLeft(s: seq<Span>, i: nat, b: Span)
    requires i < |s|
  {
    s[i].End() == b.at
  }

  /** The joined list position by position. */
  lemma InsertAt(s: seq<Span>, i: nat, b: Span)
    requires i < |s|
    ensures var s', l, r := Insert(s, i, b), JoinsLeft(s, i, b), JoinsRight(s, i, b);
      var units := b.units + (if r then s[i + 1].units else 0);
      var first, skip := if l then i + 1 else i + 2, if r then i + 2 else i + 1;
      && |s'| == first + |s| - skip
      && (forall j :: 0 <= j < i ==> s'[j] == s[j])
      && s'[i] == Span(s[i].at, s[i].units + (if l then units else 0))
      && (!l ==> s'[i + 1] == Span(b.at, units))
      && (forall j :: first <= j < |s'| ==> s'[j] == s[j - first + skip])
  {
  }

  /** What free's two conditional joins leave in memory, with r and l the joins' conditions. */
  ghost predicate Relinked(s: seq<Span>, i: nat, b: Span, l: bool, r: bool, ptr: map<nat, nat>, size: map<nat, nat>,
                           ptr': map<nat, nat>, size': map<nat, nat>)
    requires i < |s| && (r ==> i + 1 < |s|)
  {
    && (forall a :: a in ptr && a != b.at && a != s[i].at ==> a in ptr' && ptr'[a] == ptr[a])
    && (forall a :: a in size && a != b.at && a != s[i].at ==> a in size' && size'[a] == size[a])
    && s[i].at in ptr' && s[i].at in size' && b.at in ptr' && b.at in size'
    && var units, next := b.units + (if r then s[i + 1].units else 0), NextAt(s, if r then i + 1 else i);
       if l then
         ptr'[s[i].at] == next && size'[s[i].at] == s[i].units + units
       else
         ptr'[s[i].at] == b.at && size'[s[i].at] == s[i].units && ptr'[b.at] == next && size'[b.at] == units
  }

  lemma JoinFar(s: seq<Span>, i: nat, b: Span, ptr: map<nat, nat>, size: map<nat, nat>, ptr': map<nat, nat>,
                size': map<nat, nat>, j: nat, k: nat)
    requires Ring(s, ptr, size) && Ordered(s) && Fits(s, i, b) && s[0].at < b.at
    requires Relinked(s, i, b, JoinsLeft(s, i, b), JoinsRight(s, i, b), ptr, size, ptr', size')
    requires j < |Insert(s, i, b)| && k < |s| && Insert(s, i, b)[j] == s[k] && k != i
      && NextAt(Insert(s, i, b), j) == NextAt(s, k)
    ensures Node(Insert(s, i, b), ptr', size', j)
  {
    hide Insert, JoinsLeft, JoinsRight, NextAt;
    assert Node(s, ptr, size, k);
    assert s[k].at != b.at && s[k].at != s[i].at;
  }

  lemma JoinNear(s: seq<Span>, i: nat, b: Span, ptr: map<nat, nat>, size: map<nat, nat>, ptr': map<nat, nat>,
                 size': map<nat, nat>, j: nat)
    requires i < |s| && Relinked(s, i, b, JoinsLeft(s, i, b), JoinsRight(s, i, b), ptr, size, ptr', size')
    requires j < |Insert(s, i, b)| && i <= j <= (if JoinsLeft(s, i, b) then i else i + 1)
    ensures Node(Insert(s, i, b), ptr', size', j)
  {
    hide Insert, JoinsLeft;
    InsertAt(s, i, b);
    var s' := Insert(s, i, b);
    assert s'[0].at == s[0].at;
  }

  /** Header by header: the links after free's two conditional joins are those of the joined list. */
  lemma JoinNode(s: seq<Span>, i: nat, b: Span, ptr: map<nat, nat>, size: map<nat, nat>, ptr': map<nat, nat>,
                 size': map<nat, nat>, j: nat)
    requires Ring(s, ptr, size) && Ordered(s) && Fits(s, i, b) && s[0].at < b.at
    requires Relinked(s, i, b, JoinsLeft(s, i, b), JoinsRight(s, i, b), ptr, size, ptr', size')
    requires j < |Insert(s, i, b)|
    ensures Node(Insert(s, i, b), ptr', size', j)
  {
    hide Insert, Ordered, Ring, Relinked, JoinsLeft, Node;
    InsertAt(s, i, b);
    var first := if JoinsLeft(s, i, b) then i + 1 else i + 2;
    var skip := if JoinsRight(s, i, b) then i + 2 else i + 1;
    assert Insert(s, i, b)[0].at == s[0].at;
    if j < i {
      assert Insert(s, i, b)[j + 1].at == s[j + 1].at;
      JoinFar(s, i, b, ptr, size, ptr', size', j, j);
    } else if j < first {
      JoinNear(s, i, b, ptr, size, ptr', size', j);
    } else {
      JoinFar(s, i, b, ptr, size, ptr', size', j, j - first + skip);
    }
  }

  lemma JoinRing(s: seq<Span>, i: nat, b: Span, ptr: map<nat, nat>, size: map<nat, nat>, ptr': map<nat, nat>,
                 size': map<nat, nat>)
    requires Ring(s, ptr, size) && Ordered(s) && Fits(s, i, b) && s[0].at < b.at
    requires Relinked(s, i, b, JoinsLeft(s, i, b), JoinsRight(s, i, b), ptr, size, ptr', size')
    ensures Ring(Insert(s, i, b), ptr', size')
  {
    hide Insert, Ordered, Relinked, JoinsLeft, Node;
    forall j: nat | j < |Insert(s, i, b)|
      ensures Node(Insert(s, i, b), ptr', size', j)
    {
      JoinNode(s, i, b, ptr, size, ptr', size', j);
    }
  }

  lemma NodesAt(s: seq<Span>, ptr: map<nat, nat>, size: map<nat, nat>, i: nat)
    requires Ring(s, ptr, size) && i < |s|
    ensures Node(s, ptr, size, i) && (i + 1 < |s| ==> Node(s, ptr, size, i + 1))
  {
  }

  /** A header written above the heap leaves the ring as it is. */
  lemma RingBelow(s: seq<Span>, base: nat, ptr: map<nat, nat>, size: map<nat, nat>, owned: set<nat>,
                  live: map<nat, nat>, hp: nat, nu: nat)
    requires Ring(s, ptr, size) && FromBase(s, base) && base < hp && Partition(owned, s, live)
      && (forall x :: x in owned ==> x < hp)
    ensures Ring(s, ptr, size[hp := nu])
  {
    hide Partition;
    var size' := size[hp := nu];
    forall i | 0 <= i < |s|
      ensures Node(s, ptr, size', i)
    {
      assert Node(s, ptr, size, i);
      assert s[i].at != hp by {
        if i > 0 {
          HeadOwned(owned, s, live, i);
        }
      }
    }
  }

  lemma HeadOwned(owned: set<nat>, s: seq<Span>, live: map<nat, nat>, i: nat)
    requires Partition(owned, s, live) && i < |s| && s[i].units > 0
    ensures s[i].at in owned
  {
    assert Within(s[i], s[i].at) && Covers(s, s[i].at);
  }

  /** The links after malloc unlinks block m, which has exactly the size wanted. */
  lemma UnlinkRing(s: seq<Span>, ptr: map<nat, nat>, size: map<nat, nat>, m: nat)
    requires Ring(s, ptr, size) && Ordered(s) && 0 < m < |s|
    ensures s[m - 1].at in ptr && s[m].at in ptr && Ring(s[..m] + s[m + 1..], ptr[s[m - 1].at := ptr[s[m].at]], size)
  {
    assert Node(s, ptr, size, m - 1) && Node(s, ptr, size, m);
    var s', ptr' := s[..m] + s[m + 1..], ptr[s[m - 1].at := ptr[s[m].at]];
    forall j | 0 <= j < |s'|
      ensures Node(s', ptr', size, j)
    {
      assert Node(s, ptr, size, if j < m then j else j + 1);
    }
  }

  /** The sizes after malloc cuts n units off the high end of block m. */
  lemma ShrinkRing(s: seq<Span>, ptr: map<nat, nat>, size: map<nat, nat>, m: nat, n: nat)
    requires Ring(s, ptr, size) && Ordered(s) && m < |s| && 0 < n < s[m].units
    ensures Ring(Take(s, m, n), ptr, size[s[m].at := s[m].units - n][Cut(s, m, n).at := n])
  {
    var s', size' := Take(s, m, n), size[s[m].at := s[m].units - n][Cut(s, m, n).at := n];
    forall j | 0 <= j < |s'|
      ensures Node(s', ptr, size', j)
    {
      assert Node(s, ptr, size, j);
      assert s[j].at != Cut(s, m, n).at;
    }
  }

  lemma TakeExact(s: seq<Span>, m: nat, n: nat)
    requires m < |s| && s[m].units == n
    ensures Take(s, m, n) == s[..m] + s[m + 1..]
  {
  }

  lemma TakeShape(s: seq<Span>, base: nat, m: nat, n: nat)
    requires FromBase(s, base) && Ordered(s) && 0 < m < |s| && 0 < n <= s[m].units
    ensures FromBase(Take(s, m, n), base) && m <= |Take(s, m, n)| && Take(s, m, n)[m - 1].at == s[m - 1].at >= base
  {
  }

  /** One step round a ring of n blocks, and the steps from block j to block f. */
  function Succ(j: nat, n: nat): nat {
    if j + 1 < n then j + 1 else 0
  }

  function Steps(j: nat, f: nat, n: nat): nat
    requires j < n && f < n
  {
    if j <= f then f - j else f - j + n
  }

  ghost predicate NoneFits(s: seq<Span>, n: nat) {
    forall j :: 0 <= j < |s| ==> s[j].units < n
  }

  /** The blocks from the one after f up to, and not with, block m are too small. */
  ghost predicate Passed(s: seq<Span>, f: nat, m: nat, n: nat)
    requires f < |s| && m < |s|
  {
    forall j: nat :: j < |s| && Steps(j, f, |s|) > Steps(m, f, |s|) ==> s[j].units < n
  }

  lemma StepsNext(m: nat, f: nat, n: nat)
    requires m < n && f < n
    ensures Steps(m, f, n) == 0 <==> m == f
    ensures m != f ==> Steps(Succ(m, n), f, n) == Steps(m, f, n) - 1
    ensures Steps(Succ(f, n), m, n) <= Steps(Succ(f, n), f, n)
  {
  }

  lemma PassedNext(s: seq<Span>, f: nat, m: nat, n: nat)
    requires f < |s| && m < |s| && Passed(s, f, m, n) && s[m].units < n
    ensures if m == f then NoneFits(s, n) else Passed(s, f, Succ(m, |s|), n)
  {
  }

  lemma PassedNone(s: seq<Span>, f: nat, n: nat)
    requires f < |s|
    ensures Passed(s, f, Succ(f, |s|), n)
  {
  }

  class Heap {
    /** The address of the static header. */
    const base: nat
    var freep: nat
    var ptr: map<nat, nat>
    var size: map<nat, nat>
    /** The program break. */
    var brk: nat
    /** The free blocks, in address order from base; the blocks handed out and not yet freed; the bytes that sbrk
        has granted; and how often it has done so and has refused. */
    ghost var list: seq<Span>
    ghost var live: map<nat, nat>
    ghost var owned: set<nat>
    ghost var grants: nat
    ghost var refused: nat

    ghost predicate ListOk()
      reads this
    {
      FromBase(list, base) && Ordered(list) && Ring(list, ptr, size) && InList(list, freep)
    }

    ghost predicate Valid()
      reads this
    {
      && 0 < base && base + UNIT <= brk
      && (freep == 0 ==> list == [] && live == map[] && owned == {})
      && (freep != 0 ==> ListOk())
      && Partition(owned, list, live) && LiveHeaders(live, size)
      && forall x :: x in owned ==> base + UNIT <= x < brk
    }

    constructor (base: nat, brk: nat)
      requires 0 < base && base + UNIT <= brk
      ensures Valid() && live == map[] && owned == {} && freep == 0
    {
      this.base, this.brk, this.freep, this.ptr, this.size := base, brk, 0, map[], map[];
      this.list, this.live, this.owned, this.grants, this.refused := [], map[], {}, 0, 0;
    }

    /** free's search: round the ring from freep to the block after which bp belongs. */
    method FindPlace(bp: nat, ghost i: nat) returns (p: nat)
      requires freep != 0 && ListOk() && i < |list| && list[i].at < bp
        && (forall j :: i < j < |list| ==> bp < list[j].at)
      ensures p == list[i].at
    {
      ghost var k: nat :| k < |list| && list[k].at == freep;
      assert Node(list, ptr, size, k);
      p := freep;
      while !(bp > p && bp < ptr[p])
        invariant k < |list| && p == list[k].at && p in ptr
        decreases if k <= i then i - k else i - k + |list|
      {
        assert Node(list, ptr, size, k);
        if p >= ptr[p] && (bp > p || bp < ptr[p]) {
          break;
        }
        p := ptr[p];
        k := if k + 1 < |list| then k + 1 else 0;
        assert Node(list, ptr, size, k);
      }
      assert Node(list, ptr, size, k);
    }

    /** free's linking: bp goes in after p, joined with what it touches on either side. */
    method Join(p: nat, bp: nat, ghost i: nat)
      requires FromBase(list, base) && Ordered(list) && Ring(list, ptr, size) && i < |list| && p == list[i].at
      requires bp in size && Fits(list, i, Span(bp, size[bp])) && base < bp
      modifies `ptr, `size, `freep
      ensures Ring(Insert(list, i, Span(bp, old(size)[bp])), ptr, size) && freep == p
      ensures forall a :: a in old(size) && a != bp && a != p ==> a in size && size[a] == old(size)[a]
    {
      hide Insert, Ring, Ordered;
      ghost var b := Span(bp, size[bp]);
      NodesAt(list, ptr, size, i);
      if bp + UNIT * size[bp] == ptr[p] {
        size := size[bp := size[bp] + size[ptr[p]]];
        ptr := ptr[bp := ptr[ptr[p]]];
      } else {
        ptr := ptr[bp := ptr[p]];
      }
      if p + UNIT * size[p] == bp {
        size := size[p := size[p] + size[bp]];
        ptr := ptr[p := ptr[bp]];
      } else {
        ptr := ptr[p := bp];
      }
      freep := p;
      JoinRing(list, i, b, old(ptr), old(size), ptr, size);
    }

    /** free: the block goes back to the free list, joined with its neighbours; the sbrk'd bytes stay shared out. */
    method Free(ap: nat)
      requires Valid() && ap >= UNIT && ap - UNIT in live
      modifies `ptr, `size, `freep, `list, `live
      ensures Valid() && live == old(live) - {ap - UNIT} && freep != 0
      ensures forall x: nat :: Covers(list, x) <==>
        old(Covers(list, x)) || Within(Span(ap - UNIT, old(live)[ap - UNIT]), x)
      ensures exists i :: 0 <= i < |list| && list[i].units >= old(live)[ap - UNIT]
    {
      hide Insert, Ring, Ordered, Covers, Partition, Node;
      var bp := ap - UNIT;
      ghost var b := Span(bp, live[bp]);
      ghost var i := LivePlace(owned, list, base, live, bp);
      var p := FindPlace(bp, i);
      LiveNotFree(owned, list, base, live, i);
      Join(p, bp, i);
      InsertOrdered(list, i, b);
      InsertShape(list, base, i, b);
      PartitionFree(owned, list, live, i, bp);
      forall x: nat
        ensures Covers(Insert(list, i, b), x) <==> Covers(list, x) || Within(b, x)
      {
        InsertCovers(list, i, b, x);
      }
      list, live := Insert(list, i, b), live - {bp};
      assert list[i].at == freep;
    }

    /** sbrk, here or from any other code: the break moves up by n bytes, or the call fails and nothing changes. */
    method Sbrk(n: nat) returns (r: Option<nat>)
      requires Valid()
      modifies `brk, `refused
      ensures Valid() && (r.None? ==> brk == old(brk) && refused == old(refused) + 1)
      ensures r.Some? ==> r.value == old(brk) && brk == old(brk) + n && refused == old(refused)
    {
      if * {
        refused := refused + 1;
        return None;
      }
      r := Some(brk);
      brk := brk + n;
    }

    /** A granted region, with its header written, is a block not on the free list. */
    method Claim(hp: nat, nu: nat)
      requires Valid() && freep != 0 && nu > 0 && base + UNIT <= hp && hp + nu * UNIT <= brk
        && (forall x :: x in owned ==> x < hp)
      modifies `size, `owned, `live, `grants
      ensures Valid() && hp !in old(live) && live == old(live)[hp := nu] && owned > old(owned)
        && grants == old(grants) + 1
    {
      hide Partition, Ring, Ordered, Covers, Node;
      ghost var b := Span(hp, nu);
      assert Within(b, hp) && hp in Bytes(b) && hp !in owned;
      PartitionGrow(owned, list, live, b);
      RingBelow(list, base, ptr, size, owned, live, hp, nu);
      size := size[hp := nu];
      owned, live, grants := owned + Bytes(b), live[hp := nu], grants + 1;
    }

    /** morecore: a new block of at least nu units, put on the free list; nothing changes if sbrk refuses, and it fails
        only then. */
    method Morecore(nunits: nat) returns (r: Option<nat>)
      requires Valid() && freep != 0 && 0 < nunits * UNIT < 0x8000_0000
      modifies this
      ensures Valid() && live == old(live) && freep != 0
      ensures r.None? ==> list == old(list) && owned == old(owned) && grants == old(grants) && freep == old(freep)
      ensures r.None? ==> brk == old(brk) && refused == old(refused) + 1
      ensures r.Some? ==> r.value == freep && owned > old(owned) && grants == old(grants) + 1 && refused == old(refused)
      ensures r.Some? ==> brk == old(brk) + UNIT * (if nunits < 4096 then 4096 else nunits)
      ensures r.Some? ==> exists i :: 0 <= i < |list| && list[i].units >= nunits
    {
      hide Partition, Covers, Heap.ListOk;
      var nu := nunits;
      if nu < MIN_UNITS {
        nu := MIN_UNITS;
      }
      var p := Sbrk(AsInt(nu * UNIT));
      if p.None? {
        return None;
      }
      Claim(p.value, nu);
      Free(p.value + UNIT);
      assert live == old(live);
      return Some(freep);
    }

    /** malloc's allocation from block m, with the block before it at prevp. */
    method TakeFrom(prevp: nat, p: nat, nunits: nat, ghost m: nat) returns (ap: nat)
      requires Valid() && freep != 0 && 0 < m < |list| && prevp == list[m - 1].at && p == list[m].at
        && 0 < nunits <= list[m].units
      modifies `ptr, `size, `freep, `list, `live
      ensures Valid() && freep != 0 && ap >= UNIT && list == Take(old(list), m, nunits)
      ensures ap - UNIT == Cut(old(list), m, nunits).at && ap - UNIT !in old(live)
        && live == old(live)[ap - UNIT := nunits]
    {
      hide Partition, Ring, Ordered, Covers, Take;
      NodesAt(list, ptr, size, m - 1);
      NodesAt(list, ptr, size, m);
      PartitionMalloc(owned, list, live, m, nunits);
      TakeOrdered(list, m, nunits);
      TakeShape(list, base, m, nunits);
      LiveNotFree(owned, list, base, live, m);
      var bp := p;
      if size[p] == nunits {
        UnlinkRing(list, ptr, size, m);
        assert Take(list, m, nunits) == list[..m] + list[m + 1..] by { TakeExact(list, m, nunits); }
        ptr := ptr[prevp := ptr[p]];
      } else {
        ShrinkRing(list, ptr, size, m, nunits);
        size := size[p := size[p] - nunits];
        bp := p + UNIT * size[p];
        size := size[bp := nunits];
      }
      freep := prevp;
      list, live := Take(list, m, nunits), live[bp := nunits];
      assert list[m - 1].at == freep;
      ap := bp + UNIT;
    }

    /** malloc's first call: the base block alone, linked to itself. */
    method Init()
      requires Valid()
      modifies `ptr, `size, `freep, `list
      ensures Valid() && freep != 0 && (list == old(list) || old(list) == [])
      ensures old(freep) == 0 ==> list == [Span(base, 0)]
    {
      if freep == 0 {
        ptr := ptr[base := base];
        freep := base;
        size := size[base := 0];
        list := [Span(base, 0)];
        assert list[0].at == base;
        forall x: nat
          ensures !Covers(list, x) && !Covers([], x)
        {
        }
      }
    }

    /** What malloc's walk sees at block k, and what follows it. */
    lemma At(k: nat)
      requires Valid() && freep != 0 && k < |list|
      ensures Succ(k, |list|) < |list| && list[k].at in ptr && list[k].at in size
      ensures size[list[k].at] == list[k].units && ptr[list[k].at] == list[Succ(k, |list|)].at
      ensures list[Succ(k, |list|)].units > 0 ==> Succ(k, |list|) == k + 1
      ensures forall j: nat :: j < |list| && list[j].at == list[k].at ==> j == k
    {
      hide Partition;
      assert Node(list, ptr, size, k);
    }

    lemma Granted(ap: nat, nbytes: nat)
      requires Valid() && ap >= UNIT && ap - UNIT in live && Roomy(live[ap - UNIT], nbytes)
      ensures Private(owned, list, live, ap, nbytes)
    {
      RoomPrivate(owned, list, live, ap, nbytes);
    }

    lemma FreepAt() returns (f: nat)
      requires Valid() && freep != 0
      ensures f < |list| && list[f].at == freep
    {
      f :| f < |list| && list[f].at == freep;
    }

    /** malloc: a new block with room for nbytes bytes after its header and for less than a unit more, bytes that no
        other block has; it asks sbrk only when no free block is large enough, once, and gives up only if that fails. */
    method Malloc(nbytes: nat) returns (r: Option<nat>)
      requires Valid() && nbytes <= 0x7fff_ffe0
      modifies this
      ensures Valid() && grants <= old(grants) + 1
      ensures r.None? ==> live == old(live) && owned == old(owned) && NoneFits(old(list), Units(nbytes))
      ensures refused == old(refused) + (if r.None? then 1 else 0)
      ensures r.Some? ==>
        r.value >= UNIT && r.value - UNIT !in old(live) && live == old(live)[r.value - UNIT := Units(nbytes)]
      ensures r.Some? ==> nbytes <= UNIT * (live[r.value - UNIT] - 1) < nbytes + UNIT
      ensures r.Some? ==> Private(owned, list, live, r.value, nbytes)
      ensures owned >= old(owned)
        && (owned != old(owned) ==> grants > old(grants) && NoneFits(old(list), Units(nbytes)))
    {
      hide Steps, Passed, Succ, Heap.Valid, Heap.ListOk, Take, Cut, Units;
      var nunits := Units(nbytes);
      UnitsBound(nbytes);
      Init();
      ghost var f: nat := FreepAt();
      ghost var k: nat, m: nat, grown: bool, goal: nat := f, Succ(f, |list|), false, 0;
      var prevp := freep;
      At(f);
      PassedNone(list, f, nunits);
      var p := ptr[prevp];
      while true
        invariant Valid() && freep != 0 && live == old(live) && refused == old(refused)
        invariant f < |list| && list[f].at == freep
        invariant k < |list| && m == Succ(k, |list|) < |list| && list[k].at == prevp && list[m].at == p
        invariant !grown ==>
          owned == old(owned) && grants == old(grants) && Passed(list, f, m, nunits)
            && (list == old(list) || old(list) == [])
        invariant grown ==> owned >= old(owned) && grants == old(grants) + 1 && NoneFits(old(list), nunits)
        invariant grown ==> goal < |list| && list[goal].units >= nunits && Steps(m, goal, |list|) <= Steps(m, f, |list|)
        decreases !grown, Steps(m, f, |list|)
      {
        At(m);
        StepsNext(m, f, |list|);
        if size[p] >= nunits {
          At(k);
          var ap := TakeFrom(prevp, p, nunits, m);
          Granted(ap, nbytes);
          return Some(ap);
        }
        k := m;
        if !grown {
          PassedNext(list, f, m, nunits);
        } else {
          StepsNext(m, goal, |list|);
        }
        if p == freep {
          assert !grown;
          var q := Morecore(nunits);
          if q.None? {
            return None;
          }
          p := q.value;
          grown := true;
          ghost var f' := FreepAt();
          ghost var big: int :| 0 <= big < |list| && list[big].units >= nunits;
          f, k, goal := f', f', big;
          StepsNext(goal, f, |list|);
        }
        At(k);
        prevp := p;
        p := ptr[p];
        m := Succ(k, |list|);
      }
    }
  }
}
