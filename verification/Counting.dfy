/** Sizes of finite sets. */
module Counting {
  lemma {:induction false} DistinctSize<T>(s: seq<T>)
    requires forall i, j :: 0 <= i < j < |s| ==> s[i] != s[j]
    ensures |Members(s)| == |s|
  {
    if s != [] {
      var front, last := s[..|s| - 1], s[|s| - 1];
      DistinctSize(front);
      assert Members(s) == Members(front) + {last};
    }
  }

  lemma {:induction false} SetOfSeqSize<T>(s: seq<T>)
    ensures |Members(s)| <= |s|
  {
    if s != [] {
      var front, last := s[..|s| - 1], s[|s| - 1];
      SetOfSeqSize(front);
      assert Members(s) == Members(front) + {last};
    }
  }

  /** Distinct values taken from a list are no more than the list is long. */
  lemma DistinctFits(a: seq<int>, b: seq<int>)
    requires forall i, j :: 0 <= i < j < |a| ==> a[i] != a[j]
    requires forall i :: 0 <= i < |a| ==> a[i] in b
    ensures |a| <= |b|
  {
    DistinctSize(a);
    SetOfSeqSize(b);
    var sa, sb := Members(a), Members(b);
    assert sb == sa + (sb - sa);
  }

  /** The numbers from lo up to hi. */
  lemma {:induction false} Between(lo: nat, hi: nat) returns (s: set<nat>)
    requires lo <= hi
    ensures |s| == hi - lo
    ensures forall f :: f in s <==> lo <= f < hi
  {
    if lo == hi {
      s := {};
    } else {
      s := Between(lo, hi - 1);
      s := s + {hi - 1};
    }
  }

  /** A set in two parts. */
  lemma TwoParts<T>(all: set<T>, a: set<T>, b: set<T>)
    requires all == a + b && a !! b
    ensures |all| == |a| + |b|
  {
  }

  ghost function Members<T>(s: seq<T>): set<T> {
    set x | x in s
  }
}
