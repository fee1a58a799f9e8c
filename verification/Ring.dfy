/**
 Circular doubly linked lists threaded through a table: element e is followed by
 next[e] and preceded by prev[e].  Both the buffer cache (LRU list, bio.c) and the
 run queues (proc.c) keep such lists.
 */
module Ring {

  function After(i: nat, n: nat): nat {
    if i + 1 < n then i + 1 else 0
  }

  function Before(i: nat, n: nat): nat
    requires i < n
  {
    if i > 0 then i - 1 else n - 1
  }

  ghost predicate Members(size: nat, r: seq<int>) {
    && |r| > 0
    && (forall i :: 0 <= i < |r| ==> 0 <= r[i] < size)
    && (forall i, j :: 0 <= i < j < |r| ==> r[i] != r[j])
  }

  ghost predicate Follows(next: seq<int>, r: seq<int>)
    requires Members(|next|, r)
  {
    forall i {:trigger next[r[i]]} :: 0 <= i < |r| ==> next[r[i]] == r[After(i, |r|)]
  }

  ghost predicate Precedes(prev: seq<int>, r: seq<int>)
    requires Members(|prev|, r)
  {
    forall i {:trigger prev[r[i]]} :: 0 <= i < |r| ==> prev[r[i]] == r[Before(i, |r|)]
  }

  /** The links describe exactly the cycle r[0], r[1], ..., r[|r|-1], r[0]. */
  ghost predicate IsRing(next: seq<int>, prev: seq<int>, r: seq<int>) {
    |next| == |prev| && Members(|next|, r) && Follows(next, r) && Precedes(prev, r)
  }

  function Insert(r: seq<int>, k: nat, e: int): seq<int>
    requires k < |r|
  {
    r[..k + 1] + [e] + r[k + 1..]
  }

  function Remove(r: seq<int>, k: nat): seq<int>
    requires k < |r|
  {
    r[..k] + r[k + 1..]
  }

  lemma InsertMembers(size: nat, r: seq<int>, k: nat, e: int)
    requires Members(size, r) && k < |r| && 0 <= e < size && e !in r
    ensures Members(size, Insert(r, k, e))
  {
  }

  lemma InsertFollows(next: seq<int>, r: seq<int>, k: nat, e: int)
    requires Members(|next|, r) && Follows(next, r) && k < |r| && 0 <= e < |next| && e !in r
    requires Members(|next|, Insert(r, k, e))
    ensures Follows(next[e := next[r[k]]][r[k] := e], Insert(r, k, e))
  {
    var n', r' := next[e := next[r[k]]][r[k] := e], Insert(r, k, e);
    forall i | 0 <= i < |r'| ensures n'[r'[i]] == r'[After(i, |r'|)] {
      if i != k + 1 {
        var j := if i <= k then i else i - 1;
        assert r'[i] == r[j] && next[r[j]] == r[After(j, |r|)];
      } else {
        assert next[r[k]] == r[After(k, |r|)];
      }
    }
  }

  lemma InsertPrecedes(prev: seq<int>, r: seq<int>, k: nat, e: int)
    requires Members(|prev|, r) && Precedes(prev, r) && k < |r| && 0 <= e < |prev| && e !in r
    requires Members(|prev|, Insert(r, k, e))
    ensures Precedes(prev[e := r[k]][r[After(k, |r|)] := e], Insert(r, k, e))
  {
    var p', r' := prev[e := r[k]][r[After(k, |r|)] := e], Insert(r, k, e);
    forall i | 0 <= i < |r'| ensures p'[r'[i]] == r'[Before(i, |r'|)] {
      if i != k + 1 {
        var j := if i <= k then i else i - 1;
        assert r'[i] == r[j] && prev[r[j]] == r[Before(j, |r|)];
      }
    }
  }

  /** Linking a new element e after member k. */
  lemma InsertKeepsRing(next: seq<int>, prev: seq<int>, r: seq<int>, k: nat, e: int)
    requires IsRing(next, prev, r) && k < |r| && 0 <= e < |next| && e !in r
    ensures 0 <= next[r[k]] < |next|
    ensures IsRing(next[e := next[r[k]]][r[k] := e], prev[e := r[k]][next[r[k]] := e], Insert(r, k, e))
  {
    assert next[r[k]] == r[After(k, |r|)];
    InsertMembers(|next|, r, k, e);
    InsertFollows(next, r, k, e);
    InsertPrecedes(prev, r, k, e);
  }

  lemma RemoveMembers(size: nat, r: seq<int>, k: nat)
    requires Members(size, r) && k < |r| && |r| >= 2
    ensures Members(size, Remove(r, k)) && r[k] !in Remove(r, k)
  {
  }

  lemma RemoveFollows(next: seq<int>, r: seq<int>, k: nat)
    requires Members(|next|, r) && Follows(next, r) && k < |r| && |r| >= 2
    requires Members(|next|, Remove(r, k))
    ensures Follows(next[r[Before(k, |r|)] := r[After(k, |r|)]], Remove(r, k))
  {
    var n', r' := next[r[Before(k, |r|)] := r[After(k, |r|)]], Remove(r, k);
    forall i | 0 <= i < |r'| ensures n'[r'[i]] == r'[After(i, |r'|)] {
      var j := if i < k then i else i + 1;
      assert r'[i] == r[j] && next[r[j]] == r[After(j, |r|)];
    }
  }

  lemma RemovePrecedes(prev: seq<int>, r: seq<int>, k: nat)
    requires Members(|prev|, r) && Precedes(prev, r) && k < |r| && |r| >= 2
    requires Members(|prev|, Remove(r, k))
    ensures Precedes(prev[r[After(k, |r|)] := r[Before(k, |r|)]], Remove(r, k))
  {
    var p', r' := prev[r[After(k, |r|)] := r[Before(k, |r|)]], Remove(r, k);
    forall i | 0 <= i < |r'| ensures p'[r'[i]] == r'[Before(i, |r'|)] {
      var j := if i < k then i else i + 1;
      assert r'[i] == r[j] && prev[r[j]] == r[Before(j, |r|)];
    }
  }

  /** Unlinking member k of a ring of at least two. */
  lemma RemoveKeepsRing(next: seq<int>, prev: seq<int>, r: seq<int>, k: nat)
    requires IsRing(next, prev, r) && k < |r| && |r| >= 2
    ensures var e := r[k];
            && 0 <= next[e] < |next| && 0 <= prev[e] < |next| && e !in Remove(r, k)
            && IsRing(next[prev[e] := next[e]], prev[next[e] := prev[e]], Remove(r, k))
  {
    assert next[r[k]] == r[After(k, |r|)] && prev[r[k]] == r[Before(k, |r|)];
    RemoveMembers(|next|, r, k);
    RemoveFollows(next, r, k);
    RemovePrecedes(prev, r, k);
  }

  /** An element is alone in its ring exactly when it links to itself. */
  lemma AloneIffSelfLinked(next: seq<int>, prev: seq<int>, r: seq<int>, k: nat)
    requires IsRing(next, prev, r) && k < |r|
    ensures next[r[k]] == r[k] <==> |r| == 1
    ensures prev[r[k]] == r[k] <==> |r| == 1
  {
    assert next[r[k]] == r[After(k, |r|)] && prev[r[k]] == r[Before(k, |r|)];
  }

  /** Links outside the ring may change freely. */
  lemma RingFrame(next: seq<int>, prev: seq<int>, next': seq<int>, prev': seq<int>, r: seq<int>)
    requires IsRing(next, prev, r) && |next'| == |prev'| == |next|
    requires forall i :: 0 <= i < |r| ==> next'[r[i]] == next[r[i]] && prev'[r[i]] == prev[r[i]]
    ensures IsRing(next', prev', r)
  {
  }
}
