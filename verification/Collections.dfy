/** Options, and sequences without repetitions as sets. */
module Collections {
  datatype Option<T> = None | Some(value: T)

  ghost predicate NoDup<T>(s: seq<T>) {
    forall i, j :: 0 <= i < j < |s| ==> s[i] != s[j]
  }

  ghost function SetOf<T>(s: seq<T>): set<T> {
    set x | x in s
  }

  lemma {:induction false} SetOfSize<T>(s: seq<T>)
    ensures |SetOf(s)| <= |s| && (NoDup(s) ==> |SetOf(s)| == |s|)
  {
    if s != [] {
      var init, last := s[..|s| - 1], s[|s| - 1];
      SetOfSize(init);
      assert SetOf(s) == SetOf(init) + {last};
    }
  }

  lemma SetOfMore<T>(s: seq<T>, x: T)
    ensures SetOf(s + [x]) == SetOf(s) + {x}
  {
  }

  lemma SubsetSize<T>(a: set<T>, b: set<T>)
    requires a <= b
    ensures |a| <= |b|
  {
    assert b == a + (b - a);
  }

  lemma LessMore<T>(a: set<T>, x: T, b: set<T>)
    requires x !in a
    ensures |a + {x} - b| == |a - b| + (if x in b then 0 else 1)
  {
    assert a + {x} - b == a - b + (if x in b then {} else {x});
  }

  lemma LessWithin<T>(a: set<T>, a': set<T>, b: set<T>)
    requires a <= a'
    ensures |a - b| <= |a' - b|
  {
    SubsetSize(a - b, a' - b);
  }

  lemma NoDupPush<T>(s: seq<T>, x: T)
    ensures NoDup(s + [x]) <==> NoDup(s) && x !in s
  {
    var t := s + [x];
    if NoDup(t) {
      assert forall i :: 0 <= i < |s| ==> t[i] == s[i] && t[i] != t[|s|];
      assert forall i, j :: 0 <= i < j < |s| ==> t[i] != t[j];
    }
  }

  /** The numbers from lo up to hi, hi excluded. */
  function Interval(lo: nat, hi: nat): (s: set<nat>)
    requires lo <= hi
    ensures |s| == hi - lo && forall b :: b in s <==> lo <= b < hi
    decreases hi - lo
  {
    if lo == hi then {} else Interval(lo, hi - 1) + {hi - 1}
  }

  /** The elements of a set in some order, and a number above them all. */
  lemma {:induction false} Enumerate(s: set<nat>) returns (q: seq<nat>, top: nat)
    ensures NoDup(q) && SetOf(q) == s && |q| == |s| && forall x :: x in s ==> x < top
    decreases |s|
  {
    if s == {} {
      q, top := [], 0;
    } else {
      var x :| x in s;
      var rest, t := Enumerate(s - {x});
      assert x !in SetOf(rest);
      NoDupPush(rest, x);
      q, top := rest + [x], if x < t then t else x + 1;
      assert SetOf(q) == SetOf(rest) + {x} == s;
    }
  }

  lemma NoDupJoin<T>(p: seq<T>, o: seq<T>, n: nat)
    requires NoDup(p) && NoDup(o) && n <= |o| && SetOf(p) !! SetOf(o)
    ensures NoDup(p + o[..n]) && forall x :: x in p + o[..n] ==> x in SetOf(p) || x in SetOf(o)
  {
    var q := p + o[..n];
    forall i, j | 0 <= i < j < |q|
      ensures q[i] != q[j]
    {
      if i < |p| <= j {
        assert q[i] in SetOf(p) && q[j] in SetOf(o);
      }
    }
  }

  /** n different numbers below `size`, first those of a set and then others, without b. */
  lemma Complete(s: set<nat>, b: nat, n: nat, size: nat) returns (q: seq<nat>)
    requires |s| <= n < size && b < size && b !in s && forall x :: x in s ==> x < size
    ensures |q| == n && NoDup(q) && SetOf(q[..|s|]) == s && b !in q && forall x :: x in q ==> x < size
  {
    var all := Interval(0, size);
    var rest := all - (s + {b});
    assert all == rest + (s + {b}) && |s + {b}| == |s| + 1;
    var p, _ := Enumerate(s);
    var o, _ := Enumerate(rest);
    hide NoDup, SetOf;
    NoDupJoin(p, o, n - |s|);
    q := p + o[..n - |s|];
    assert q[..|s|] == p;
  }

  /** Numbers below n are at most n many, and n many exactly when they are all. */
  lemma AllBelow(s: set<nat>, n: nat)
    requires forall x :: x in s ==> x < n
    ensures |s| <= n && (|s| == n <==> forall x :: 0 <= x < n ==> x in s)
  {
    var all := Interval(0, n);
    SubsetSize(s, all);
    if x: nat :| x < n && x !in s {
      SubsetSize(s, all - {x});
    } else {
      assert s == all;
    }
  }

  /** Distinct numbers below n are at most n many. */
  lemma AtMost(s: seq<nat>, n: nat)
    requires NoDup(s) && forall x :: x in s ==> x < n
    ensures |s| <= n
  {
    SetOfSize(s);
    SubsetSize(SetOf(s), Interval(0, n));
  }
}
