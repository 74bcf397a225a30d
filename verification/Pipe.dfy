/** A pipe: a ring of bytes with 32-bit counters, and the processes asleep on its two channels. Each method is what one
    process does with the pipe's lock held, from taking it or waking up to sleeping or releasing it. */
module Pipe {
  import opened Blocks

  const PIPESIZE := 512
  const WRAP := 0x1_0000_0000

  datatype WriteEnd = WriteSlept | WriteDone | WriteFailed
  datatype ReadEnd = ReadSlept | ReadDone | ReadFailed

  /** nwrite - nread in unsigned arithmetic. */
  function Count(nread: nat, nwrite: nat): nat {
    (nwrite - nread) % WRAP
  }

  lemma CountWrites(nread: nat, nwrite: nat)
    requires nread < WRAP && nwrite < WRAP && Count(nread, nwrite) < WRAP - 1
    ensures Count(nread, (nwrite + 1) % WRAP) == Count(nread, nwrite) + 1
  {
  }

  lemma CountReads(nread: nat, nwrite: nat)
    requires nread < WRAP && nwrite < WRAP && Count(nread, nwrite) > 0
    ensures Count((nread + 1) % WRAP, nwrite) == Count(nread, nwrite) - 1
  {
  }

  /** The full test of the code says that the ring holds PIPESIZE bytes. */
  lemma FullTest(nread: nat, nwrite: nat)
    requires nread < WRAP && nwrite < WRAP
    ensures nwrite == (nread + PIPESIZE) % WRAP <==> Count(nread, nwrite) == PIPESIZE
    ensures nread == nwrite <==> Count(nread, nwrite) == 0
  {
  }

  /** The slot of the j-th byte in the ring, also after the counters wrap. */
  function Slot(nread: nat, j: nat): (s: nat)
    ensures s < PIPESIZE
  {
    (nread + j) % PIPESIZE
  }

  lemma SlotNext(nread: nat, j: nat)
    requires nread < WRAP
    ensures Slot((nread + 1) % WRAP, j) == Slot(nread, j + 1)
  {
    if nread + 1 == WRAP {
      assert (WRAP + j) % PIPESIZE == j % PIPESIZE;
    }
  }

  lemma SlotWrite(nread: nat, nwrite: nat)
    requires nread < WRAP && nwrite < WRAP
    ensures nwrite % PIPESIZE == Slot(nread, Count(nread, nwrite))
  {
    if nwrite < nread {
      assert nread + Count(nread, nwrite) == nwrite + WRAP;
      assert (nwrite + WRAP) % PIPESIZE == nwrite % PIPESIZE;
    }
  }

  lemma SlotsDistinct(nread: nat, i: nat, j: nat)
    requires i < PIPESIZE && j < PIPESIZE && i != j
    ensures Slot(nread, i) != Slot(nread, j)
  {
  }

  function Min(a: int, b: int): int {
    if a < b then a else b
  }

  class Pipe {
    const data: array<Byte>
    var nread: nat
    var nwrite: nat
    var readopen: bool
    var writeopen: bool
    /** The bytes put in and taken out since the pipe was made, and the processes asleep on &nread and on &nwrite. */
    ghost var sent: seq<Byte>
    ghost var taken: seq<Byte>
    ghost var readers: set<nat>
    ghost var writers: set<nat>

    ghost predicate Sizes()
      reads `nread, `nwrite
    {
      data.Length == PIPESIZE && nread < WRAP && nwrite < WRAP && Count(nread, nwrite) <= PIPESIZE
    }

    /** The bytes in the ring, oldest first. */
    ghost function Contents(): (s: seq<Byte>)
      requires Sizes()
      reads `nread, `nwrite, data
      ensures |s| == Count(nread, nwrite)
    {
      var ring, first := data[..], nread;
      seq(Count(nread, nwrite), j requires j >= 0 => ring[Slot(first, j)])
    }

    /** First in, first out; and a sleeping writer has a full ring and an open read end. */
    ghost predicate Valid()
      reads this, data
    {
      && Sizes() && sent == taken + Contents()
      && (writers != {} ==> Count(nread, nwrite) == PIPESIZE && readopen)
    }

    /** A sleeping reader has an empty ring and an open write end. */
    ghost predicate ReadersOk()
      reads this
    {
      readers != {} ==> nread == nwrite && writeopen
    }

    /** pipealloc */
    constructor ()
      ensures Valid() && ReadersOk() && sent == [] && readopen && writeopen && readers == {} && writers == {}
        && fresh(data) && nread == nwrite
    {
      data := new Byte[PIPESIZE];
      nread, nwrite, readopen, writeopen := 0, 0, true, true;
      sent, taken, readers, writers := [], [], {}, {};
    }

    /** data[nwrite++ % PIPESIZE] = ch */
    method Put(ch: Byte)
      requires Sizes() && sent == taken + Contents() && Count(nread, nwrite) < PIPESIZE
      modifies `nwrite, `sent, data
      ensures Sizes() && sent == taken + Contents() && sent == old(sent) + [ch]
        && Count(nread, nwrite) == old(Count(nread, nwrite)) + 1
    {
      hide Slot, Count;
      ghost var n := Count(nread, nwrite);
      CountWrites(nread, nwrite);
      SlotWrite(nread, nwrite);
      data[nwrite % PIPESIZE] := ch;
      nwrite := (nwrite + 1) % WRAP;
      forall j: nat | j < n
        ensures Contents()[j] == old(Contents()[j])
      {
        SlotsDistinct(nread, j, n);
      }
      assert Contents() == old(Contents()) + [ch];
      sent := sent + [ch];
    }

    /** ch = data[nread++ % PIPESIZE] */
    method Get() returns (ch: Byte)
      requires Sizes() && sent == taken + Contents() && nread != nwrite
      modifies `nread, `taken
      ensures Sizes() && sent == taken + Contents() && taken == old(taken) + [ch]
        && Count(nread, nwrite) == old(Count(nread, nwrite)) - 1
    {
      hide Slot, Count;
      FullTest(nread, nwrite);
      CountReads(nread, nwrite);
      ghost var was := Contents();
      assert nread % PIPESIZE == Slot(nread, 0) by { FirstSlot(nread); }
      ch := data[nread % PIPESIZE];
      assert ch == was[0];
      ghost var first := nread;
      nread := (nread + 1) % WRAP;
      forall j: nat | j < |was| - 1
        ensures Contents()[j] == was[1..][j]
      {
        SlotNext(first, j);
      }
      assert Contents() == was[1..];
      taken := taken + [ch];
    }

    lemma FirstSlot(n: nat)
      ensures n % PIPESIZE == Slot(n, 0)
    {
    }

    /** The bytes that a run of pipewrite's loop puts in: up to its end, a full ring, a failed copyin or a kill. */
    ghost function Puts(len: nat, killedAt: nat, faultAt: nat): int
      reads this
    {
      Min(Min(len, PIPESIZE - Count(nread, nwrite)), Min(faultAt, if readopen then killedAt else 0))
    }

    /** pipewrite's loop from byte i of buf on. killed(pr) turns true and copyin fails after the numbers of bytes
        given. */
    method Write(pid: nat, buf: seq<Byte>, start: nat, killedAt: nat, faultAt: nat) returns (end: WriteEnd, i: nat)
      requires Valid() && start <= |buf|
      modifies this, data
      ensures Valid() && taken == old(taken) && readopen == old(readopen) && writeopen == old(writeopen)
      ensures i == start + old(Puts(|buf| - start, killedAt, faultAt)) && i <= |buf|
        && sent == old(sent) + buf[start..i]
      ensures end == WriteFailed <==> i < |buf| && (!readopen || i - start == killedAt)
      ensures end == WriteDone <==>
        i == |buf|
          || (i - start == faultAt && readopen && i - start < killedAt
               && old(Count(nread, nwrite)) + i - start < PIPESIZE)
      ensures writers == if end == WriteSlept then old(writers) + {pid} else old(writers)
      ensures readers == if end == WriteFailed then old(readers) else {}
      ensures old(ReadersOk()) ==> (ReadersOk() <==>
        !(old(readers) != {} && readopen && 0 < killedAt < |buf| - start && killedAt <= PIPESIZE
           && killedAt <= faultAt))
    {
      hide Slot, Count, Pipe.Contents;
      i := start;
      FullTest(nread, nwrite);
      while i < |buf|
        invariant start <= i <= |buf| && Sizes() && sent == taken + Contents() && sent == old(sent) + buf[start..i]
        invariant Count(nread, nwrite) == old(Count(nread, nwrite)) + i - start && nread == old(nread)
        invariant i - start <= faultAt && (i > start ==> readopen) && (readopen ==> i - start <= killedAt)
        invariant i > start ==> old(Count(nread, nwrite)) < PIPESIZE
        invariant readers == old(readers) && writers == old(writers) && taken == old(taken)
        invariant readopen == old(readopen) && writeopen == old(writeopen)
      {
        if !readopen || i - start == killedAt {
          FullTest(nread, nwrite);
          return WriteFailed, i;
        }
        FullTest(nread, nwrite);
        if nwrite == (nread + PIPESIZE) % WRAP {
          readers := {};
          writers := writers + {pid};
          return WriteSlept, i;
        } else {
          if i - start == faultAt {
            break;
          }
          Put(buf[i]);
          i := i + 1;
        }
      }
      readers := {};
      end := WriteDone;
    }

    /** piperead from its wait for bytes on. The byte whose copyout fails is gone from the ring and not counted. */
    method Read(pid: nat, n: nat, killed: bool, faultAt: nat) returns (end: ReadEnd, i: nat, ghost got: seq<Byte>)
      requires Valid()
      modifies this
      ensures Valid() && sent == old(sent) && taken == old(taken) + got && readopen == old(readopen)
        && writeopen == old(writeopen)
      ensures nwrite == old(nwrite) && got == old(Contents())[..|got|]
      ensures end == ReadDone <==> old(nread != nwrite || !writeopen)
      ensures end == ReadFailed <==> old(nread == nwrite && writeopen) && killed
      ensures end == ReadDone ==> i == Min(Min(n, old(Count(nread, nwrite))), faultAt)
      ensures |got| == if end == ReadDone && faultAt < Min(n, old(Count(nread, nwrite))) then i + 1 else i
      ensures readers == if end == ReadSlept then old(readers) + {pid} else old(readers)
      ensures end == ReadDone ==> writers == {}
      ensures end != ReadDone ==> i == 0 && writers == old(writers)
      ensures old(ReadersOk()) ==> ReadersOk()
    {
      hide Slot, Count, Pipe.Contents;
      i, got := 0, [];
      FullTest(nread, nwrite);
      if nread == nwrite && writeopen {
        if killed {
          return ReadFailed, 0, [];
        }
        readers := readers + {pid};
        return ReadSlept, 0, [];
      }
      ghost var was := Contents();
      while i < n
        invariant 0 <= i <= n && i <= faultAt && i == |got| <= |was| && got == was[..i]
        invariant Sizes() && sent == taken + Contents() && taken == old(taken) + got && sent == old(sent)
        invariant Count(nread, nwrite) == |was| - i && nwrite == old(nwrite) && (i > 0 ==> old(nread != nwrite))
        invariant readers == old(readers) && readopen == old(readopen) && writeopen == old(writeopen)
      {
        FullTest(nread, nwrite);
        if nread == nwrite {
          break;
        }
        var ch := Get();
        assert ch == was[i] by { TakenAt(taken, old(taken), was, got, ch, Contents(), sent); }
        got := got + [ch];
        if i == faultAt {
          break;
        }
        i := i + 1;
      }
      writers := {};
      end := ReadDone;
    }

    /** The byte taken out next is the next of the ring's bytes. */
    lemma TakenAt(taken: seq<Byte>, taken0: seq<Byte>, was: seq<Byte>, got: seq<Byte>, ch: Byte, rest: seq<Byte>,
                  sent: seq<Byte>)
      requires sent == taken0 + was && taken == taken0 + got + [ch] && sent == taken + rest
      ensures |got| < |was| && was[|got|] == ch
    {
      assert sent[|taken0| + |got|] == ch;
    }

    /** pipeclose: an end is closed and its sleepers on the other end woken; the pipe is freed with its second end. */
    method Close(writable: bool) returns (freed: bool)
      requires Valid()
      modifies `readopen, `writeopen, `readers, `writers
      ensures Valid() && freed == (!readopen && !writeopen)
      ensures writeopen == (old(writeopen) && !writable) && readopen == (old(readopen) && writable)
      ensures if writable then readers == {} && writers == old(writers) else writers == {} && readers == old(readers)
      ensures old(ReadersOk()) ==> ReadersOk()
    {
      if writable {
        writeopen := false;
        readers := {};
      } else {
        readopen := false;
        writers := {};
      }
      freed := !readopen && !writeopen;
    }

    /** kill wakes a process wherever it sleeps, without the pipe's lock. */
    method Kill(pid: nat)
      requires Valid()
      modifies `readers, `writers
      ensures Valid() && readers == old(readers) - {pid} && writers == old(writers) - {pid}
      ensures old(ReadersOk()) ==> ReadersOk()
    {
      readers, writers := readers - {pid}, writers - {pid};
    }
  }

  /** A reader left asleep beside a byte: it sleeps on an empty pipe, and a writer is killed after its first byte of
      two. */
  method StrandedReader() returns (p: Pipe)
    ensures p.Valid() && 1 in p.readers && p.Contents() == [7] && p.writeopen
  {
    p := new Pipe();
    var re, n, we, i;
    ghost var got;
    re, n, got := p.Read(1, 1, false, 1);
    assert got == [];
    we, i := p.Write(2, [7, 8], 0, 1, 2);
    assert p.sent == [7] && p.taken == [];
    assert p.sent == p.Contents();
  }

  /** A byte lost: it is put in and the first read's copyout fails, so that the next read finds none. */
  method LostByte() returns (p: Pipe)
    ensures p.Valid() && p.sent == p.taken == [7] && p.Contents() == [] && 2 in p.readers
  {
    p := new Pipe();
    var we, i, re, n;
    ghost var got;
    we, i := p.Write(1, [7], 0, 1, 1);
    re, n, got := p.Read(2, 1, false, 0);
    assert n == 0;
    re, n, got := p.Read(2, 1, false, 1);
  }
}
