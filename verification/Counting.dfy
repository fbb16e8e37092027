/** Counting distinct numbers. */
module Counting {

  ghost predicate Distinct<T>(l: seq<T>) {
    forall k, j | 0 <= k < j < |l| :: l[k] != l[j]
  }

  function Below(n: nat): (r: set<nat>)
    ensures forall x: nat :: x in r <==> x < n
  {
    if n == 0 then {} else Below(n - 1) + {n - 1}
  }

  function Elements<T>(l: seq<T>): set<T> {
    set x | x in l
  }

  lemma {:induction false} BelowSize(n: nat)
    ensures |Below(n)| == n
  {
    if n > 0 {
      BelowSize(n - 1);
    }
  }

  lemma {:induction false} DistinctSize<T>(l: seq<T>)
    requires Distinct(l)
    ensures |Elements(l)| == |l|
  {
    if l != [] {
      DistinctSize(l[1..]);
      assert Elements(l) == Elements(l[1..]) + {l[0]};
    }
  }

  lemma {:induction false} SubsetSize<T>(a: set<T>, b: set<T>)
    requires a <= b
    ensures |a| <= |b|
    ensures |a| == |b| ==> a == b
  {
    assert b == a + (b - a);
  }

  // Distinct numbers below n, and n of them: all the numbers below n.
  lemma AllBelow(l: seq<nat>, n: nat)
    requires Distinct(l) && |l| == n && forall x | x in l :: x < n
    ensures forall x: nat | x < n :: x in l
  {
    DistinctSize(l);
    BelowSize(n);
    SubsetSize(Elements(l), Below(n));
    forall x: nat | x < n ensures x in l { assert x in Elements(l); }
  }
}
