/** The virtio disk driver's split queue: descriptors, the available and used rings with their 16-bit indices, and a
    device that fetches requests in order and completes each once, in any order. Each method is a driver section under
    vdisk_lock or one step of the device. */
module Virtio {
  import opened Collections

  const NUM := 8
  const WRAP := 0x1_0000

  datatype Desc = Desc(next: nat, chained: bool)
  const CLEARED := Desc(0, false)

  /** A request: its three descriptors and its buffer. */
  datatype Chain = Chain(head: nat, mid: nat, tail: nat, b: nat)

  /** A ring's entries from index at on are those of a queue, and the index after them is end. */
  ghost predicate RingHolds(ring: seq<nat>, at: nat, end: nat, queue: seq<nat>) {
    && |ring| == NUM && at < WRAP && end < WRAP && |queue| <= NUM && end == (at + |queue|) % WRAP
    && forall j :: 0 <= j < |queue| ==> ring[Slot(at, j)] == queue[j]
  }

  /** ring[(at + j) % NUM], also after the 16-bit index wraps. */
  function Slot(at: nat, j: nat): (s: nat)
    ensures s < NUM
  {
    (at + j) % NUM
  }

  /** idx % NUM and the 16-bit idx += 1. */
  function Entry(idx: nat): (e: nat)
    ensures e < NUM
  {
    idx % NUM
  }

  function Inc(idx: nat): (n: nat)
    ensures n < WRAP
  {
    (idx + 1) % WRAP
  }

  lemma SlotWraps(at: nat, n: nat, j: nat)
    requires at < WRAP
    ensures Slot((at + n) % WRAP, j) == Slot(at, n + j)
  {
    var q := (at + n) / WRAP;
    assert at + n == q * WRAP + (at + n) % WRAP;
    assert (q * WRAP + ((at + n) % WRAP + j)) % NUM == ((at + n) % WRAP + j) % NUM by {
      assert q * WRAP == NUM * (q * 0x2000);
    }
  }

  lemma SlotsApart(at: nat, i: nat, j: nat)
    requires i < NUM && j < NUM && i != j
    ensures Slot(at, i) != Slot(at, j)
  {
  }

  lemma WrapNext(at: nat, n: nat)
    requires at < WRAP && n < WRAP
    ensures ((at + n) % WRAP + 1) % WRAP == (at + (n + 1)) % WRAP
  {
  }

  /** Writing the entry at a ring's end and moving the end appends to the queue, and overwrites no entry not yet
      taken. */
  lemma RingPush(ring: seq<nat>, at: nat, end: nat, queue: seq<nat>, x: nat)
    requires RingHolds(ring, at, end, queue) && |queue| < NUM
    ensures |ring| == NUM && RingHolds(ring[Entry(end) := x], at, Inc(end), queue + [x])
  {
    hide Slot;
    var n := |queue|;
    assert end % NUM == Slot(at, n) by {
      SlotWraps(at, n, 0);
      SlotZero(end);
    }
    WrapNext(at, n);
    forall j: nat | j < n
      ensures Slot(at, j) != Slot(at, n)
    {
      SlotsApart(at, j, n);
    }
  }

  lemma SlotZero(at: nat)
    ensures Slot(at, 0) == at % NUM
  {
  }

  /** Taking the entry at a ring's start takes the queue's first. */
  lemma RingPop(ring: seq<nat>, at: nat, end: nat, queue: seq<nat>)
    requires RingHolds(ring, at, end, queue)
    ensures |ring| == NUM && (queue == [] <==> at == end)
    ensures queue != [] ==> ring[Entry(at)] == queue[0] && RingHolds(ring, Inc(at), end, queue[1..])
  {
    hide Slot;
    SlotZero(at);
    if queue != [] {
      var rest := queue[1..];
      forall j: nat | j < |rest|
        ensures ring[Slot((at + 1) % WRAP, j)] == rest[j]
      {
        SlotWraps(at, 1, j);
      }
      WrapOver(at, |queue|);
    }
  }

  lemma WrapOver(at: nat, n: nat)
    requires at < WRAP && 0 < n <= NUM
    ensures ((at + 1) % WRAP + (n - 1)) % WRAP == (at + n) % WRAP && (at + n) % WRAP != at
  {
  }

  /** The descriptors of a chain, linked in memory from its head. */
  ghost predicate Linked(c: Chain, desc: seq<Desc>) {
    && |desc| == NUM && c.head < NUM && c.mid < NUM && c.tail < NUM
    && c.head != c.mid && c.head != c.tail && c.mid != c.tail
    && desc[c.head] == Desc(c.mid, true) && desc[c.mid] == Desc(c.tail, true) && !desc[c.tail].chained
  }

  predicate PartOf(c: Chain, i: nat) {
    i == c.head || i == c.mid || i == c.tail
  }

  ghost predicate ChainsLinked(chains: map<nat, Chain>, desc: seq<Desc>) {
    forall h :: h in chains ==> chains[h].head == h && Linked(chains[h], desc)
  }

  /** No descriptor is in two chains. */
  ghost predicate ChainsApart(chains: map<nat, Chain>) {
    forall h, k, i: nat :: h in chains && k in chains && PartOf(chains[h], i) && PartOf(chains[k], i) ==> h == k
  }

  ghost predicate InChain(chains: map<nat, Chain>, i: nat) {
    exists h :: h in chains && PartOf(chains[h], i)
  }

  /** The free descriptors and the chains share the NUM descriptors out between them. */
  ghost predicate Partition(free: seq<bool>, chains: map<nat, Chain>) {
    |free| == NUM && ChainsApart(chains) && forall i: nat :: i < NUM ==> (free[i] <==> !InChain(chains, i))
  }

  /** Each request is in one stage: queued, fetched by the device, completed, or seen by the interrupt handler. */
  ghost predicate Staged(chains: map<nat, Chain>, queue: seq<nat>, fetched: set<nat>, done: seq<nat>,
                         finished: set<nat>) {
    && NoDup(queue) && NoDup(done)
    && (forall h :: h in chains <==> h in queue || h in fetched || h in done || h in finished)
    && (forall h :: h in queue ==> h !in fetched && h !in done && h !in finished)
    && (forall h :: h in fetched ==> h !in done && h !in finished)
    && (forall h :: h in done ==> h !in finished)
  }

  /** Each request's buffer is recorded under its head, no buffer is in two requests, and the disk flag is set on
      exactly the buffers of requests that the interrupt handler has not seen. */
  ghost predicate Buffers(chains: map<nat, Chain>, info: seq<Option<nat>>, busy: set<nat>, finished: set<nat>) {
    && |info| == NUM
    && (forall h :: h in chains ==> h < NUM && info[h] == Some(chains[h].b))
    && (forall h, k :: h in chains && k in chains && chains[h].b == chains[k].b ==> h == k)
    && (forall h :: h in chains ==> (chains[h].b in busy <==> h !in finished))
    && (forall b :: b in busy ==> exists h :: h in chains && chains[h].b == b)
  }

  /** The device reported success for every completed request. */
  ghost predicate StatusOk(status: seq<nat>, done: seq<nat>) {
    |status| == NUM && forall h :: h in done ==> h < NUM && status[h] == 0
  }

  /** Fewer than three descriptors are free. */
  ghost predicate FewFree(free: seq<bool>) {
    forall i, j, k :: 0 <= i < j < k < |free| ==> !(free[i] && free[j] && free[k])
  }

  /** The flags with some descriptors taken. */
  ghost function Minus(free: seq<bool>, idx: seq<nat>): (r: seq<bool>)
    ensures |r| == |free|
  {
    seq(|free|, j requires 0 <= j < |free| => free[j] && j !in idx)
  }

  /** The lowest free descriptors, in order. */
  ghost predicate Firsts(free: seq<bool>, idx: seq<nat>) {
    && (forall j, k :: 0 <= j < k < |idx| ==> idx[j] < idx[k])
    && (forall d :: d in idx ==> d < |free| && free[d])
    && (forall j, d :: 0 <= j < |free| && free[j] && j !in idx && d in idx ==> d < j)
  }

  lemma FirstsNone(free: seq<bool>)
    ensures Firsts(free, []) && Minus(free, []) == free
  {
  }

  lemma FirstsMore(free: seq<bool>, idx: seq<nat>, d: nat)
    requires Firsts(free, idx) && d < |free| && Minus(free, idx)[d] && forall j :: 0 <= j < d ==> !Minus(free, idx)[j]
    ensures Firsts(free, idx + [d]) && Minus(free, idx)[d := false] == Minus(free, idx + [d])
  {
    assert d !in idx && free[d];
    forall j, e | 0 <= j < |free| && free[j] && j !in idx + [d] && e in idx + [d]
      ensures e < j
    {
      assert Minus(free, idx)[j];
    }
    forall j, k | 0 <= j < k < |idx + [d]|
      ensures (idx + [d])[j] < (idx + [d])[k]
    {
      assert idx[j] in idx;
    }
  }

  lemma MinusTail(free: seq<bool>, idx: seq<nat>, j: nat)
    requires j < |idx| && Firsts(free, idx)
    ensures idx[j] < |free| && free[idx[j]] && !Minus(free, idx[j..])[idx[j]]
      && Minus(free, idx[j..])[idx[j] := true] == Minus(free, idx[j + 1..])
  {
    assert idx[j] in idx && idx[j] in idx[j..] && idx[j] !in idx[j + 1..];
    assert idx[j..] == [idx[j]] + idx[j + 1..];
  }

  lemma Few(free: seq<bool>, idx: seq<nat>)
    requires |idx| < 3 && Firsts(free, idx) && forall j :: 0 <= j < |free| ==> !Minus(free, idx)[j]
    ensures FewFree(free)
  {
    forall i, j, k | 0 <= i < j < k < |free|
      ensures !(free[i] && free[j] && free[k])
    {
      assert !Minus(free, idx)[i] && !Minus(free, idx)[j] && !Minus(free, idx)[k];
    }
  }

  lemma Three(free: seq<bool>, idx: seq<nat>)
    requires |idx| == 3 && Firsts(free, idx)
    ensures idx[0] < idx[1] < idx[2] < |free| && free[idx[0]] && free[idx[1]] && free[idx[2]] && !FewFree(free)
    ensures forall i :: 0 <= i < |free| ==>
      (Minus(free, idx)[i] <==> free[i] && i != idx[0] && i != idx[1] && i != idx[2])
  {
    assert idx[0] in idx && idx[1] in idx && idx[2] in idx;
    assert free[idx[0]] && free[idx[1]] && free[idx[2]];
  }

  /** Clearing descriptors that are free leaves the chains linked. */
  lemma KeepLinked(free: seq<bool>, desc: seq<Desc>, desc': seq<Desc>, chains: map<nat, Chain>)
    requires Partition(free, chains) && ChainsLinked(chains, desc) && |desc'| == NUM
    requires forall i :: 0 <= i < NUM && !free[i] ==> desc'[i] == desc[i]
    ensures ChainsLinked(chains, desc')
  {
    forall h | h in chains
      ensures Linked(chains[h], desc')
    {
      var c := chains[h];
      assert PartOf(c, c.head) && PartOf(c, c.mid) && PartOf(c, c.tail);
    }
  }

  /** Three free descriptors are in no chain yet. */
  lemma NewApart(free: seq<bool>, chains: map<nat, Chain>, c: Chain)
    requires Partition(free, chains) && c.head < NUM && c.mid < NUM && c.tail < NUM && free[c.head] && free[c.mid]
      && free[c.tail]
    requires forall h :: h in chains ==> chains[h].head == h
    ensures c.head !in chains && ChainsApart(chains[c.head := c])
    ensures forall h :: h in chains ==>
      !PartOf(chains[h], c.head) && !PartOf(chains[h], c.mid) && !PartOf(chains[h], c.tail)
  {
    assert !InChain(chains, c.head) && !InChain(chains, c.mid) && !InChain(chains, c.tail);
    assert c.head in chains ==> PartOf(chains[c.head], c.head);
  }

  /** Three free descriptors linked to a new chain: every chain is linked and they are apart. */
  lemma NewChain(free: seq<bool>, desc: seq<Desc>, chains: map<nat, Chain>, c: Chain)
    requires Partition(free, chains) && ChainsLinked(chains, desc) && |desc| == NUM
    requires c.head < NUM && c.mid < NUM && c.tail < NUM && c.head != c.mid && c.head != c.tail && c.mid != c.tail
    requires free[c.head] && free[c.mid] && free[c.tail]
    ensures c.head !in chains && ChainsApart(chains[c.head := c])
    ensures ChainsLinked(chains[c.head := c],
                         desc[c.head := Desc(c.mid, true)][c.mid := Desc(c.tail, true)][c.tail := Desc(0, false)])
  {
    hide Partition, ChainsApart;
    NewApart(free, chains, c);
    var chains' := chains[c.head := c];
    var desc' := desc[c.head := Desc(c.mid, true)][c.mid := Desc(c.tail, true)][c.tail := Desc(0, false)];
    forall h | h in chains'
      ensures chains'[h].head == h && Linked(chains'[h], desc')
    {
    }
  }

  lemma NewFlags(free: seq<bool>, free': seq<bool>, chains: map<nat, Chain>, c: Chain)
    requires Partition(free, chains) && c.head !in chains && ChainsApart(chains[c.head := c]) && |free'| == NUM
    requires forall i :: 0 <= i < NUM ==> (free'[i] <==> free[i] && i != c.head && i != c.mid && i != c.tail)
    ensures Partition(free', chains[c.head := c])
  {
    hide ChainsApart;
    var chains' := chains[c.head := c];
    forall i: nat
      ensures InChain(chains', i) <==> InChain(chains, i) || PartOf(c, i)
    {
      if InChain(chains, i) {
        var h :| h in chains && PartOf(chains[h], i);
        assert PartOf(chains'[h], i);
      }
      assert PartOf(c, i) ==> PartOf(chains'[c.head], i);
    }
  }

  lemma QueueBound(chains: map<nat, Chain>, desc: seq<Desc>, queue: seq<nat>, fetched: set<nat>, done: seq<nat>,
                   finished: set<nat>, x: nat)
    requires Staged(chains, queue, fetched, done, finished) && ChainsLinked(chains, desc) && x !in chains && x < NUM
    ensures |queue| < NUM && x !in done && x !in finished
  {
    AtMost(queue + [x], NUM);
  }

  lemma NewStage(chains: map<nat, Chain>, queue: seq<nat>, fetched: set<nat>, done: seq<nat>, finished: set<nat>,
                 c: Chain)
    requires Staged(chains, queue, fetched, done, finished) && c.head !in chains
    ensures Staged(chains[c.head := c], queue + [c.head], fetched, done, finished)
  {
  }

  lemma NewBuffer(chains: map<nat, Chain>, info: seq<Option<nat>>, busy: set<nat>, finished: set<nat>, c: Chain)
    requires Buffers(chains, info, busy, finished) && c.head !in chains && c.head < NUM && c.head !in finished
      && forall h :: h in chains ==> chains[h].b != c.b
    ensures Buffers(chains[c.head := c], info[c.head := Some(c.b)], busy + {c.b}, finished)
  {
    var chains', busy' := chains[c.head := c], busy + {c.b};
    forall b | b in busy'
      ensures exists h :: h in chains' && chains'[h].b == b
    {
      if b == c.b {
        assert chains'[c.head].b == b;
      } else {
        var h :| h in chains && chains[h].b == b;
        assert chains'[h].b == b;
      }
    }
  }

  lemma FetchStage(chains: map<nat, Chain>, queue: seq<nat>, fetched: set<nat>, done: seq<nat>, finished: set<nat>)
    requires Staged(chains, queue, fetched, done, finished) && queue != []
    ensures Staged(chains, queue[1..], fetched + {queue[0]}, done, finished)
  {
    assert queue == [queue[0]] + queue[1..];
  }

  lemma CompleteStage(chains: map<nat, Chain>, queue: seq<nat>, fetched: set<nat>, done: seq<nat>, finished: set<nat>,
                      h: nat)
    requires Staged(chains, queue, fetched, done, finished) && h in fetched
    ensures Staged(chains, queue, fetched - {h}, done + [h], finished)
  {
  }

  lemma SeeStage(chains: map<nat, Chain>, queue: seq<nat>, fetched: set<nat>, done: seq<nat>, finished: set<nat>)
    requires Staged(chains, queue, fetched, done, finished) && done != []
    ensures done[0] in chains && done[0] !in finished
      && Staged(chains, queue, fetched, done[1..], finished + {done[0]})
  {
    assert done == [done[0]] + done[1..];
  }

  lemma DoneBound(chains: map<nat, Chain>, desc: seq<Desc>, queue: seq<nat>, fetched: set<nat>, done: seq<nat>,
                  finished: set<nat>, h: nat)
    requires Staged(chains, queue, fetched, done, finished) && ChainsLinked(chains, desc) && h in fetched
    ensures |done| < NUM && h < NUM
  {
    AtMost(done + [h], NUM);
  }

  lemma SeeBuffer(chains: map<nat, Chain>, info: seq<Option<nat>>, busy: set<nat>, finished: set<nat>, h: nat)
    requires Buffers(chains, info, busy, finished) && h in chains && h !in finished
    ensures h < NUM == |info| && info[h] == Some(chains[h].b)
      && Buffers(chains, info, busy - {chains[h].b}, finished + {h})
  {
  }

  lemma FinishStage(chains: map<nat, Chain>, queue: seq<nat>, fetched: set<nat>, done: seq<nat>, finished: set<nat>,
                    h: nat)
    requires Staged(chains, queue, fetched, done, finished) && h in finished
    ensures h in chains && Staged(chains - {h}, queue, fetched, done, finished - {h})
  {
  }

  lemma FinishBuffer(chains: map<nat, Chain>, info: seq<Option<nat>>, busy: set<nat>, finished: set<nat>, h: nat)
    requires Buffers(chains, info, busy, finished) && h in finished && h in chains
    ensures h < NUM && Buffers(chains - {h}, info[h := None], busy, finished - {h})
  {
    var rest := chains - {h};
    forall b | b in busy
      ensures exists k :: k in rest && rest[k].b == b
    {
      var k :| k in chains && chains[k].b == b;
      assert rest[k].b == b;
    }
  }

  /** A chain's descriptors back among the free ones. */
  lemma FinishFlags(free: seq<bool>, desc: seq<Desc>, chains: map<nat, Chain>, h: nat)
    requires Partition(free, chains) && h in chains && Linked(chains[h], desc)
    ensures !free[chains[h].head] && !free[chains[h].mid] && !free[chains[h].tail]
    ensures Partition(free[chains[h].head := true][chains[h].mid := true][chains[h].tail := true], chains - {h})
  {
    hide InChain;
    var c, rest := chains[h], chains - {h};
    assert PartOf(c, c.head) && PartOf(c, c.mid) && PartOf(c, c.tail);
    forall i: nat
      ensures InChain(rest, i) <==> InChain(chains, i) && !PartOf(c, i)
      ensures PartOf(c, i) ==> InChain(chains, i)
    {
      RestChains(chains, h, i);
    }
  }

  lemma OtherParts(chains: map<nat, Chain>, h: nat, k: nat, i: nat)
    requires ChainsApart(chains) && h in chains && k in chains && h != k && PartOf(chains[k], i)
    ensures !PartOf(chains[h], i)
  {
    hide PartOf;
  }

  lemma FinishLinks(desc: seq<Desc>, chains: map<nat, Chain>, h: nat)
    requires ChainsApart(chains) && ChainsLinked(chains, desc) && h in chains
    ensures Linked(chains[h], desc) && chains[h].head == h
    ensures ChainsLinked(chains - {h},
                         desc[chains[h].head := CLEARED][chains[h].mid := CLEARED][chains[h].tail := CLEARED])
  {
    hide ChainsApart;
    var c, rest := chains[h], chains - {h};
    var desc' := desc[c.head := CLEARED][c.mid := CLEARED][c.tail := CLEARED];
    forall k | k in rest
      ensures rest[k].head == k && Linked(rest[k], desc')
    {
      assert k in chains && chains[k].head == k && Linked(chains[k], desc);
      OtherParts(chains, h, k, chains[k].head);
      OtherParts(chains, h, k, chains[k].mid);
      OtherParts(chains, h, k, chains[k].tail);
    }
  }

  lemma Apart(free: seq<bool>, chains: map<nat, Chain>)
    requires Partition(free, chains)
    ensures ChainsApart(chains)
  {
  }

  lemma RestChains(chains: map<nat, Chain>, h: nat, i: nat)
    requires ChainsApart(chains) && h in chains
    ensures InChain(chains - {h}, i) <==> InChain(chains, i) && !PartOf(chains[h], i)
    ensures PartOf(chains[h], i) ==> InChain(chains, i)
  {
    hide PartOf;
    if InChain(chains, i) && !PartOf(chains[h], i) {
      var k :| k in chains && PartOf(chains[k], i);
      assert k in chains - {h};
    }
  }

  class Disk {
    var desc: seq<Desc>
    var free: seq<bool>
    var info: seq<Option<nat>>
    var status: seq<nat>
    var availRing: seq<nat>
    var availIdx: nat
    var usedRing: seq<nat>
    /** used->idx, which the device moves, and disk.used_idx, the driver's place in the ring. */
    var usedEnd: nat
    var usedIdx: nat
    /** The device's place in the available ring. */
    var fetchIdx: nat
    /** The buffers with b->disk == 1. */
    var busy: set<nat>
    /** The requests that the device is working on. */
    var fetched: set<nat>
    /** The requests by head descriptor, those in the rings, and those whose flag is cleared; and the processes asleep
        on &disk.free[0]. */
    ghost var chains: map<nat, Chain>
    ghost var queue: seq<nat>
    ghost var done: seq<nat>
    ghost var finished: set<nat>
    ghost var waiters: set<nat>

    /** The rings hold what the device has still to fetch and what the driver has still to see. */
    ghost predicate Available()
      reads `availRing, `fetchIdx, `availIdx, `queue
    {
      RingHolds(availRing, fetchIdx, availIdx, queue)
    }

    ghost predicate Completed()
      reads `usedRing, `usedIdx, `usedEnd, `done
    {
      RingHolds(usedRing, usedIdx, usedEnd, done)
    }

    ghost predicate Valid()
      reads this
    {
      && |desc| == NUM && |free| == NUM && |info| == NUM
      && ChainsLinked(chains, desc) && Partition(free, chains) && Staged(chains, queue, fetched, done, finished)
      && Buffers(chains, info, busy, finished) && StatusOk(status, done)
      && Available() && Completed()
      && (waiters != {} ==> FewFree(free))
    }

    constructor ()
      ensures Valid() && chains == map[] && busy == {}
    {
      desc, free := seq(NUM, _ => CLEARED), seq(NUM, _ => true);
      info, status := seq(NUM, _ => None), seq(NUM, _ => 0);
      availRing, usedRing := seq(NUM, _ => 0), seq(NUM, _ => 0);
      availIdx, usedEnd, usedIdx, fetchIdx, busy := 0, 0, 0, 0, {};
      chains, queue, fetched, done, finished, waiters := map[], [], {}, [], {}, {};
    }

    /** alloc_desc: the first free descriptor, marked in use; -1 if there is none. */
    method AllocDesc() returns (r: int)
      requires |free| == NUM
      modifies `free
      ensures -1 <= r < NUM && |free| == NUM
      ensures r == -1 ==> free == old(free) && forall j :: 0 <= j < NUM ==> !free[j]
      ensures r >= 0 ==> old(free)[r] && free == old(free)[r := false] && forall j :: 0 <= j < r ==> !old(free)[j]
    {
      var i := 0;
      while i < NUM
        invariant 0 <= i <= NUM && free == old(free) && forall j :: 0 <= j < i ==> !free[j]
      {
        if free[i] {
          free := free[i := false];
          return i;
        }
        i := i + 1;
      }
      return -1;
    }

    /** free_desc: false is one of its panics. */
    method FreeDesc(i: nat) returns (ok: bool)
      requires |free| == NUM && |desc| == NUM
      modifies `free, `desc, `waiters
      ensures ok <==> i < NUM && !old(free)[i]
      ensures !ok ==> free == old(free) && desc == old(desc) && waiters == old(waiters)
      ensures ok ==> free == old(free)[i := true] && desc == old(desc)[i := CLEARED] && waiters == {}
    {
      if i >= NUM || free[i] {
        return false;
      }
      desc := desc[i := CLEARED];
      free := free[i := true];
      waiters := {};
      return true;
    }

    /** alloc3_desc's way back: free_desc on the descriptors allocated so far. */
    method Undo(idx: seq<nat>, ghost before: seq<bool>)
      requires |before| == NUM && |desc| == NUM && free == Minus(before, idx) && Firsts(before, idx)
      modifies `free, `desc, `waiters
      ensures free == before && |desc| == NUM && forall k :: 0 <= k < NUM && !before[k] ==> desc[k] == old(desc)[k]
    {
      hide Firsts;
      var j := 0;
      assert idx[0..] == idx;
      while j < |idx|
        invariant 0 <= j <= |idx| && free == Minus(before, idx[j..]) && |desc| == NUM
        invariant forall k :: 0 <= k < NUM && !before[k] ==> desc[k] == old(desc)[k]
      {
        MinusTail(before, idx, j);
        var ok := FreeDesc(idx[j]);
        j := j + 1;
      }
      assert Minus(before, idx[j..]) == before;
    }

    /** alloc3_desc: three descriptors that were free, or none and everything as it was. */
    method Alloc3() returns (r: Option<(nat, nat, nat)>)
      requires |free| == NUM && |desc| == NUM
      modifies `free, `desc, `waiters
      ensures |free| == NUM && |desc| == NUM && forall i :: 0 <= i < NUM && !old(free)[i] ==> desc[i] == old(desc)[i]
      ensures r.None? <==> FewFree(old(free))
      ensures r.None? ==> free == old(free)
      ensures r.Some? ==> var (a, b, c) := r.value;
        && a < b < c < NUM && old(free)[a] && old(free)[b] && old(free)[c] && desc == old(desc)
        && waiters == old(waiters)
        && forall i :: 0 <= i < NUM ==> (free[i] <==> old(free)[i] && i != a && i != b && i != c)
    {
      hide Firsts, Minus, FewFree;
      var idx: seq<nat> := [];
      var i := 0;
      FirstsNone(free);
      while i < 3
        invariant 0 <= i == |idx| <= 3 && free == Minus(old(free), idx) && Firsts(old(free), idx) && desc == old(desc)
          && waiters == old(waiters)
      {
        var d := AllocDesc();
        if d < 0 {
          Few(old(free), idx);
          Undo(idx, old(free));
          return None;
        }
        FirstsMore(old(free), idx, d);
        idx := idx + [d];
        i := i + 1;
      }
      Three(old(free), idx);
      return Some((idx[0], idx[1], idx[2]));
    }

    /** virtio_disk_rw's formatting of three descriptors taken off the free ones. */
    method Format(c: Chain, ghost before: seq<bool>)
      requires Partition(before, chains) && c.head < NUM && c.mid < NUM && c.tail < NUM && |free| == NUM
        && |desc| == NUM
      requires before[c.head] && before[c.mid] && before[c.tail] && c.head != c.mid && c.head != c.tail
        && c.mid != c.tail
      requires forall i :: 0 <= i < NUM ==> (free[i] <==> before[i] && i != c.head && i != c.mid && i != c.tail)
      requires ChainsLinked(chains, desc)
      modifies `desc
      ensures |desc| == NUM && c.head !in chains && ChainsLinked(chains[c.head := c], desc)
        && Partition(free, chains[c.head := c])
    {
      hide Partition, ChainsLinked, ChainsApart;
      NewChain(before, desc, chains, c);
      NewFlags(before, free, chains, c);
      desc := desc[c.head := Desc(c.mid, true)];
      desc := desc[c.mid := Desc(c.tail, true)];
      desc := desc[c.tail := Desc(0, false)];
    }

    /** Its record of the buffer for the interrupt handler. */
    method Record(c: Chain)
      requires |info| == NUM && Buffers(chains, info, busy, finished) && StatusOk(status, done) && c.head < NUM
      requires c.head !in chains && c.head !in finished && c.head !in done
        && forall h :: h in chains ==> chains[h].b != c.b
      modifies `status, `busy, `info
      ensures |info| == NUM && Buffers(chains[c.head := c], info, busy, finished) && StatusOk(status, done)
        && busy == old(busy) + {c.b}
    {
      hide Buffers;
      NewBuffer(chains, info, busy, finished, c);
      status := status[c.head := 0xff];
      busy := busy + {c.b};
      info := info[c.head := Some(c.b)];
    }

    /** Its hand-over of the head to the device. */
    method Publish(x: nat)
      requires Available() && |queue| < NUM
      modifies `availRing, `availIdx, `queue
      ensures Available() && queue == old(queue) + [x]
    {
      hide Entry, Inc;
      RingPush(availRing, fetchIdx, availIdx, queue, x);
      availRing := availRing[Entry(availIdx) := x];
      availIdx := Inc(availIdx);
      queue := queue + [x];
    }

    /** The three steps above. */
    method Submit(c: Chain, ghost before: seq<bool>)
      requires Partition(before, chains) && c.head < NUM && c.mid < NUM && c.tail < NUM && |free| == NUM
        && |desc| == NUM
      requires before[c.head] && before[c.mid] && before[c.tail] && c.head != c.mid && c.head != c.tail
        && c.mid != c.tail
      requires forall i :: 0 <= i < NUM ==> (free[i] <==> before[i] && i != c.head && i != c.mid && i != c.tail)
      requires ChainsLinked(chains, desc) && Staged(chains, queue, fetched, done, finished) && waiters == {}
      requires |info| == NUM && Buffers(chains, info, busy, finished) && StatusOk(status, done) && Available()
        && Completed()
      requires forall h :: h in chains ==> chains[h].b != c.b
      modifies `desc, `status, `busy, `info, `availRing, `availIdx, `queue, `chains
      ensures Valid() && c.head !in old(chains) && chains == old(chains)[c.head := c]
        && queue == old(queue) + [c.head] && busy == old(busy) + {c.b}
    {
      hide Partition, ChainsLinked, Staged, Buffers, FewFree, StatusOk, Disk.Available, Disk.Completed;
      ghost var linked := desc;
      Format(c, before);
      QueueBound(chains, linked, queue, fetched, done, finished, c.head);
      NewStage(chains, queue, fetched, done, finished, c);
      Record(c);
      Publish(c.head);
      chains := chains[c.head := c];
    }

    /** virtio_disk_rw up to its sleep: the request is queued, or, with fewer than three descriptors free, pid waits. */
    method Start(pid: nat, b: nat) returns (r: Option<nat>)
      requires Valid() && forall h :: h in chains ==> chains[h].b != b
      modifies this
      ensures Valid() && (r.None? <==> FewFree(old(free))) && finished == old(finished) && fetched == old(fetched)
        && done == old(done)
      ensures r.None? ==> chains == old(chains) && queue == old(queue) && pid in waiters && busy == old(busy)
      ensures r.Some? ==> var h := r.value;
        h !in old(chains) && h in chains && chains[h].b == b && chains == old(chains)[h := chains[h]]
          && queue == old(queue) + [h] && busy == old(busy) + {b}
    {
      hide Partition, ChainsLinked, Staged, Buffers, FewFree, StatusOk, Disk.Available, Disk.Completed;
      var idx := Alloc3();
      if idx.None? {
        KeepLinked(old(free), old(desc), desc, chains);
        waiters := waiters + {pid};
        return None;
      }
      var c := Chain(idx.value.0, idx.value.1, idx.value.2, b);
      Submit(c, old(free));
      return Some(c.head);
    }

    /** The device fetches the next request; the driver has not overwritten its ring entry. */
    method Fetch() returns (h: nat)
      requires Valid() && fetchIdx != availIdx
      modifies `fetchIdx, `queue, `fetched
      ensures Valid() && old(queue) == [h] + queue && fetched == old(fetched) + {h}
    {
      hide Partition, ChainsLinked, Buffers, FewFree, StatusOk, RingHolds, Entry, Inc, Disk.Completed, Staged;
      RingPop(availRing, fetchIdx, availIdx, queue);
      FetchStage(chains, queue, fetched, done, finished);
      h := availRing[Entry(fetchIdx)];
      fetchIdx := Inc(fetchIdx);
      queue, fetched := queue[1..], fetched + {h};
    }

    /** The device completes any request it has fetched; the entry it writes is not one that the driver has yet to
        see. */
    method Complete(h: nat)
      requires Valid() && h in fetched
      modifies `status, `usedRing, `usedEnd, `fetched, `done
      ensures Valid() && done == old(done) + [h] && fetched == old(fetched) - {h}
    {
      hide Partition, Buffers, FewFree, RingHolds, Entry, Inc, Disk.Available, Staged;
      DoneBound(chains, desc, queue, fetched, done, finished, h);
      RingPush(usedRing, usedIdx, usedEnd, done, h);
      CompleteStage(chains, queue, fetched, done, finished, h);
      status := status[h := 0];
      usedRing := usedRing[Entry(usedEnd) := h];
      usedEnd := Inc(usedEnd);
      fetched, done := fetched - {h}, done + [h];
    }

    /** One turn of virtio_disk_intr's loop: the next completion clears the flag of the buffer that was submitted. */
    method See() returns (ok: bool)
      requires Valid() && usedIdx != usedEnd
      modifies `usedIdx, `busy, `done, `finished
      ensures ok && Valid() && old(done) != [] && done == old(done)[1..] && finished == old(finished) + {old(done)[0]}
      ensures old(done)[0] in chains && busy == old(busy) - {chains[old(done)[0]].b}
    {
      hide Partition, ChainsLinked, FewFree, RingHolds, Entry, Inc, Disk.Available, Staged, Buffers;
      RingPop(usedRing, usedIdx, usedEnd, done);
      SeeStage(chains, queue, fetched, done, finished);
      var id := usedRing[Entry(usedIdx)];
      SeeBuffer(chains, info, busy, finished, id);
      if status[id] != 0 || info[id].None? {
        return false;
      }
      busy := busy - {info[id].value};
      usedIdx := Inc(usedIdx);
      done, finished := done[1..], finished + {id};
      ok := true;
    }

    /** The requests that the driver has not yet seen completed. */
    ghost function Unseen(): set<nat>
      reads `queue, `fetched, `done
    {
      SetOf(queue) + fetched + SetOf(done)
    }

    ghost function Left(): nat
      reads `queue, `fetched, `done
    {
      |queue| + |fetched| + |done|
    }

    /** A step of the device: a fetch, or the completion of a request. */
    method DeviceStep(step: Option<nat>)
      requires Valid()
      modifies `fetchIdx, `queue, `fetched, `status, `usedRing, `usedEnd, `done
      ensures Valid() && old(done) <= done && Left() == old(Left()) && Unseen() == old(Unseen())
    {
      hide Disk.Valid, RingHolds;
      match step
      case None =>
        if fetchIdx != availIdx {
          FetchesNew();
          var h := Fetch();
          assert SetOf(old(queue)) == {h} + SetOf(queue);
        }
      case Some(h) =>
        if h in fetched {
          Complete(h);
          assert SetOf(done) == SetOf(old(done)) + {h};
        }
    }

    lemma FetchesNew()
      requires Valid()
      ensures forall h :: h in queue ==> h !in fetched
    {
    }

    /** Any number of steps of the device. */
    method Device()
      requires Valid()
      modifies `fetchIdx, `queue, `fetched, `status, `usedRing, `usedEnd, `done
      ensures Valid() && old(done) <= done && Left() == old(Left()) && Unseen() == old(Unseen())
    {
      hide Disk.Valid, Disk.Left, Disk.Unseen;
      var steps: seq<Option<nat>> := *;
      var k := 0;
      while k < |steps|
        invariant Valid() && old(done) <= done && Left() == old(Left()) && Unseen() == old(Unseen())
      {
        DeviceStep(steps[k]);
        k := k + 1;
      }
    }

    /** used_idx tells whether there is a completion to see. */
    lemma RingEmpty()
      requires Valid()
      ensures usedIdx == usedEnd <==> done == []
    {
      hide Partition, ChainsLinked, FewFree, RingHolds, Disk.Available, StatusOk, Staged, Buffers;
      RingPop(usedRing, usedIdx, usedEnd, done);
    }

    /** A buffer's flag is set until its request has been seen completed. */
    lemma Flags()
      requires Valid()
      ensures forall h :: h in chains ==> (chains[h].b in busy <==> h !in finished)
    {
      hide Partition, ChainsLinked, FewFree, RingHolds, Disk.Available, Disk.Completed, StatusOk, Staged;
    }

    /** One turn of the handler's loop, and the device. */
    method SeeNext() returns (ok: bool, ghost h: nat)
      requires Valid() && usedIdx != usedEnd
      modifies `usedIdx, `busy, `done, `finished, `fetchIdx, `queue, `fetched, `status, `usedRing, `usedEnd
      ensures ok && Valid() && old(done) != [] && h == old(done)[0] && old(done)[1..] <= done
      ensures finished == old(finished) + {h} && Left() == old(Left()) - 1 && Unseen() + {h} == old(Unseen())
    {
      hide Disk.Valid;
      ok := See();
      h := old(done)[0];
      assert SetOf(old(done)) == {h} + SetOf(done);
      Device();
    }

    /** virtio_disk_intr, while the device goes on: every completion up to the last look at the ring is seen, those from
        before and those that came in meanwhile, and its flag cleared; its status panic does not occur. */
    method Interrupt() returns (ok: bool, ghost seen: seq<nat>)
      requires Valid()
      modifies `usedIdx, `busy, `done, `finished, `fetchIdx, `queue, `fetched, `status, `usedRing, `usedEnd
      ensures ok && Valid() && done == [] && old(done) <= seen && finished == old(finished) + SetOf(seen)
      ensures SetOf(queue) + fetched + SetOf(seen) == old(Unseen())
      ensures forall h :: h in chains ==> (chains[h].b in busy <==> chains[h].b in old(busy) && h !in seen)
    {
      hide Disk.Valid, Disk.Left;
      Flags();
      ok, seen := true, [];
      Device();
      RingEmpty();
      while usedIdx != usedEnd
        invariant ok && Valid() && old(done) <= seen + done && (usedIdx == usedEnd <==> done == [])
        invariant finished == old(finished) + SetOf(seen) && Unseen() + SetOf(seen) == old(Unseen())
        decreases Left()
      {
        ghost var h;
        ok, h := SeeNext();
        assert SetOf(seen + [h]) == SetOf(seen) + {h};
        seen := seen + [h];
        RingEmpty();
      }
      Flags();
    }

    /** free_chain: exactly the chain's three descriptors are freed; false, one of free_desc's panics, does not
        occur. */
    method FreeChain(i: nat, ghost c: Chain) returns (ok: bool)
      requires |free| == NUM && Linked(c, desc) && i == c.head && !free[c.head] && !free[c.mid] && !free[c.tail]
      modifies `free, `desc, `waiters
      ensures ok && waiters == {} && free == old(free)[c.head := true][c.mid := true][c.tail := true]
      ensures desc == old(desc)[c.head := CLEARED][c.mid := CLEARED][c.tail := CLEARED]
    {
      var d := i;
      ghost var left := 3;
      while true
        invariant 1 <= left <= 3 && |free| == NUM && |desc| == NUM && !free[c.tail]
          && desc[c.tail] == old(desc)[c.tail]
        invariant left >= 2 ==> !free[c.mid] && desc[c.mid] == old(desc)[c.mid]
        invariant left == 3 ==> d == c.head && free == old(free) && desc == old(desc)
        invariant left == 2 ==> d == c.mid && free == old(free)[c.head := true] && desc == old(desc)[c.head := CLEARED]
        invariant left == 1 ==>
          d == c.tail && free == old(free)[c.head := true][c.mid := true]
            && desc == old(desc)[c.head := CLEARED][c.mid := CLEARED]
        decreases left
      {
        var flag, nxt := desc[d].chained, desc[d].next;
        ok := FreeDesc(d);
        if !flag {
          break;
        }
        d := nxt;
        left := left - 1;
      }
    }

    /** virtio_disk_rw after its sleep: the request's descriptors are free again and its sleepers woken. */
    method Finish(h: nat) returns (ok: bool)
      requires Valid() && h in finished
      modifies `info, `free, `desc, `waiters, `chains, `finished
      ensures ok && Valid() && chains == old(chains) - {h} && finished == old(finished) - {h} && waiters == {}
    {
      hide FewFree, StatusOk, Disk.Available, Disk.Completed, Staged, Buffers, Partition, ChainsLinked, ChainsApart;
      FinishStage(chains, queue, fetched, done, finished, h);
      FinishBuffer(chains, info, busy, finished, h);
      Apart(free, chains);
      FinishLinks(desc, chains, h);
      FinishFlags(free, desc, chains, h);
      info := info[h := None];
      ok := FreeChain(h, chains[h]);
      chains, finished := chains - {h}, finished - {h};
    }
  }
}
