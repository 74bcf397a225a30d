/** The free blocks of a heap in address order, and what inserting and taking blocks does to the bytes they cover. */
module FreeList {
  /** sizeof(Header): block sizes count units of this many bytes, the header's own unit included. */
  const UNIT := 16

  datatype Span = Span(at: nat, units: nat) {
    function End(): nat {
      at + UNIT * units
    }
  }

  /** Address order, with a gap between any two blocks. */
  ghost predicate Ordered(s: seq<Span>) {
    forall i, j :: 0 <= i < j < |s| ==> s[i].End() < s[j].at
  }

  predicate Within(b: Span, x: nat) {
    b.at <= x < b.End()
  }

  ghost predicate Covers(s: seq<Span>, x: nat) {
    exists i :: 0 <= i < |s| && Within(s[i], x)
  }

  /** Block b fits in after block i. */
  ghost predicate Fits(s: seq<Span>, i: nat, b: Span) {
    i < |s| && s[i].End() <= b.at && b.units > 0 && (i + 1 < |s| ==> b.End() <= s[i + 1].at)
  }

  /** The list with b added after block i, joined with the neighbours it touches. */
  function Insert(s: seq<Span>, i: nat, b: Span): seq<Span>
    requires i < |s|
  {
    if i + 1 < |s| && b.End() == s[i + 1].at then
      InsertLeft(s[..i + 1], Span(b.at, b.units + s[i + 1].units), s[i + 2..])
    else
      InsertLeft(s[..i + 1], b, s[i + 1..])
  }

  function InsertLeft(front: seq<Span>, b: Span, back: seq<Span>): seq<Span>
    requires |front| > 0
  {
    var p := front[|front| - 1];
    if p.End() == b.at then
      front[..|front| - 1] + [Span(p.at, p.units + b.units)] + back
    else
      front + [b] + back
  }

  lemma LeftOrdered(front: seq<Span>, b: Span, back: seq<Span>)
    requires |front| > 0 && Ordered(front) && Ordered(back) && front[|front| - 1].End() <= b.at && b.units > 0
    requires forall j :: 0 <= j < |back| ==> b.End() < back[j].at
    ensures Ordered(InsertLeft(front, b, back))
  {
  }

  lemma InsertOrdered(s: seq<Span>, i: nat, b: Span)
    requires Ordered(s) && Fits(s, i, b)
    ensures Ordered(Insert(s, i, b))
  {
    if i + 1 < |s| && b.End() == s[i + 1].at {
      LeftOrdered(s[..i + 1], Span(b.at, b.units + s[i + 1].units), s[i + 2..]);
    } else {
      assert forall j :: i + 1 <= j < |s| ==> s[i + 1].at <= s[j].at;
      LeftOrdered(s[..i + 1], b, s[i + 1..]);
    }
  }

  lemma CoversConcat(s: seq<Span>, s': seq<Span>, x: nat)
    ensures Covers(s + s', x) <==> Covers(s, x) || Covers(s', x)
  {
    if Covers(s, x) {
      var i :| 0 <= i < |s| && Within(s[i], x);
      assert (s + s')[i] == s[i];
    }
    if Covers(s', x) {
      var i :| 0 <= i < |s'| && Within(s'[i], x);
      assert (s + s')[|s| + i] == s'[i];
    }
  }

  lemma CoversOne(b: Span, x: nat)
    ensures Covers([b], x) <==> Within(b, x)
  {
    assert [b][0] == b;
  }

  lemma LeftCovers(front: seq<Span>, b: Span, back: seq<Span>, x: nat)
    requires |front| > 0
    ensures Covers(InsertLeft(front, b, back), x) <==> Covers(front, x) || Within(b, x) || Covers(back, x)
  {
    hide Covers;
    var init, p := front[..|front| - 1], front[|front| - 1];
    assert front == init + [p];
    CoversConcat(init, [p], x);
    CoversOne(p, x);
    CoversOne(b, x);
    if p.End() == b.at {
      CoversOne(Span(p.at, p.units + b.units), x);
      CoversConcat(init, [Span(p.at, p.units + b.units)], x);
      CoversConcat(init + [Span(p.at, p.units + b.units)], back, x);
    } else {
      CoversConcat(front, [b], x);
      CoversConcat(front + [b], back, x);
    }
  }

  /** Inserting a block adds its bytes and no others. */
  lemma InsertCovers(s: seq<Span>, i: nat, b: Span, x: nat)
    requires i < |s|
    ensures Covers(Insert(s, i, b), x) <==> Covers(s, x) || Within(b, x)
  {
    hide Covers, InsertLeft;
    assert s == s[..i + 1] + s[i + 1..];
    CoversConcat(s[..i + 1], s[i + 1..], x);
    if i + 1 < |s| && b.End() == s[i + 1].at {
      assert s[i + 1..] == [s[i + 1]] + s[i + 2..];
      CoversConcat([s[i + 1]], s[i + 2..], x);
      CoversOne(s[i + 1], x);
      LeftCovers(s[..i + 1], Span(b.at, b.units + s[i + 1].units), s[i + 2..], x);
    } else {
      LeftCovers(s[..i + 1], b, s[i + 1..], x);
    }
  }

  /** Where malloc cuts n units off block i: all of it, or its high end. */
  function Cut(s: seq<Span>, i: nat, n: nat): (b: Span)
    requires i < |s| && n <= s[i].units
    ensures b.units == n && b.End() == s[i].End()
  {
    Span(s[i].at + UNIT * (s[i].units - n), n)
  }

  function Take(s: seq<Span>, i: nat, n: nat): seq<Span>
    requires i < |s| && n <= s[i].units
  {
    if s[i].units == n then s[..i] + s[i + 1..] else s[i := Span(s[i].at, s[i].units - n)]
  }

  lemma TakeOrdered(s: seq<Span>, i: nat, n: nat)
    requires Ordered(s) && i < |s| && n <= s[i].units
    ensures Ordered(Take(s, i, n))
  {
  }

  /** The block cut off and the list that is left share the list's bytes out between them. */
  lemma TakeCovers(s: seq<Span>, i: nat, n: nat, x: nat)
    requires Ordered(s) && i < |s| && 0 < n <= s[i].units
    ensures Covers(s, x) <==> Covers(Take(s, i, n), x) || Within(Cut(s, i, n), x)
    ensures !(Covers(Take(s, i, n), x) && Within(Cut(s, i, n), x))
  {
    hide Ordered, Covers;
    var left := if s[i].units == n then [] else [Span(s[i].at, s[i].units - n)];
    assert s == s[..i] + [s[i]] + s[i + 1..];
    assert Take(s, i, n) == s[..i] + left + s[i + 1..];
    CoversConcat(s[..i] + [s[i]], s[i + 1..], x);
    CoversConcat(s[..i], [s[i]], x);
    CoversOne(s[i], x);
    CoversConcat(s[..i] + left, s[i + 1..], x);
    CoversConcat(s[..i], left, x);
    if s[i].units == n {
      CoversNone(x);
    } else {
      CoversOne(left[0], x);
    }
    if Within(s[i], x) {
      OrderedApart(s, i, x);
    }
  }

  lemma CoversNone(x: nat)
    ensures !Covers([], x)
  {
  }

  lemma OrderedApart(s: seq<Span>, i: nat, x: nat)
    requires Ordered(s) && i < |s| && Within(s[i], x)
    ensures !Covers(s[..i], x) && !Covers(s[i + 1..], x)
  {
  }

  /** The place of an address among the blocks: after the last block below it. */
  lemma {:induction false} Place(s: seq<Span>, x: nat) returns (i: nat)
    requires Ordered(s) && |s| > 0 && s[0].at < x && (forall j :: 0 <= j < |s| ==> s[j].at != x)
    ensures i < |s| && s[i].at < x && (forall j :: i < j < |s| ==> x < s[j].at)
  {
    i := |s| - 1;
    if s[i].at >= x {
      i := Place(s[..|s| - 1], x);
    }
  }
}
