/**
 The process table and its two run queues (proc.c).

 ptable.queue[prio] points to the first process of a circular doubly linked list of
 the runnable processes of that priority.  A process that is not in a queue has null
 links.
 */
module RunQueue {
  import opened Ring

  const NPROC := 64
  const NULL := -1
  const HI_PRIO := 0
  const NORM_PRIO := 1

  datatype ProcState = UNUSED | EMBRYO | SLEEPING | RUNNABLE | RUNNING | ZOMBIE

  /** `parent` is an index into the table; `chan` is 0 when not sleeping. */
  datatype Proc = Proc(state: ProcState, pid: int, parent: int, chan: int, killed: bool, status: int, priority: nat)

  // ------------------------------------------------------------------- one queue

  /** A queue pointer and the links stand for the list r. */
  ghost predicate Queue(next: seq<int>, prev: seq<int>, head: int, r: seq<int>) {
    if r == [] then head == NULL else head == r[0] && IsRing(next, prev, r)
  }

  lemma EnqueueEmpty(next: seq<int>, prev: seq<int>, p: int)
    requires |next| == |prev| && 0 <= p < |next|
    ensures Queue(next[p := p], prev[p := p], p, [p])
  {
  }

  /** Linking p between the last element and the first puts it at the end of the list. */
  lemma EnqueueLast(next: seq<int>, prev: seq<int>, r: seq<int>, p: int)
    requires IsRing(next, prev, r) && 0 <= p < |next| && p !in r
    ensures var last := prev[r[0]];
            && 0 <= last < |next| && last == r[|r| - 1]
            && Queue(next[last := p][p := r[0]], prev[p := last][r[0] := p], r[0], r + [p])
  {
    var k := |r| - 1;
    assert prev[r[0]] == r[Before(0, |r|)] && next[r[k]] == r[After(k, |r|)];
    InsertKeepsRing(next, prev, r, k, p);
    assert Insert(r, k, p) == r + [p];
    assert next[p := next[r[k]]][r[k] := p] == next[r[k] := p][p := r[0]];
  }

  lemma DequeueAlone(next: seq<int>, prev: seq<int>, r: seq<int>, k: nat)
    requires IsRing(next, prev, r) && k < |r|
    ensures (next[r[k]] == r[k] <==> prev[r[k]] == r[k]) && (next[r[k]] == r[k] <==> |r| == 1)
    ensures 0 <= next[r[k]] < |next| && 0 <= prev[r[k]] < |next|
  {
    AloneIffSelfLinked(next, prev, r, k);
    assert next[r[k]] == r[After(k, |r|)] && prev[r[k]] == r[Before(k, |r|)];
  }

  /** Unlinking element k of a longer list; the head moves on when it is the one removed. */
  lemma DequeueLonger(next: seq<int>, prev: seq<int>, r: seq<int>, k: nat)
    requires IsRing(next, prev, r) && k < |r| && |r| >= 2
    ensures var p := r[k];
            && 0 <= next[p] < |next| && 0 <= prev[p] < |next| && p !in Remove(r, k)
            && Queue(next[prev[p] := next[p]][p := NULL], prev[next[p] := prev[p]][p := NULL],
                     if k == 0 then next[p] else r[0], Remove(r, k))
  {
    RemoveKeepsRing(next, prev, r, k);
    var p := r[k];
    var r', n, m := Remove(r, k), next[prev[p] := next[p]], prev[next[p] := prev[p]];
    assert next[r[k]] == r[After(k, |r|)];
    RingFrame(n, m, n[p := NULL], m[p := NULL], r');
  }

  /** A queue is untouched by link changes outside it. */
  lemma QueueFrame(next: seq<int>, prev: seq<int>, next': seq<int>, prev': seq<int>, head: int, r: seq<int>)
    requires Queue(next, prev, head, r) && |next'| == |prev'| == |next| == |prev|
    requires forall i :: 0 <= i < |r| && 0 <= r[i] < |next| ==> next'[r[i]] == next[r[i]] && prev'[r[i]] == prev[r[i]]
    ensures Queue(next', prev', head, r)
  {
    if r != [] {
      RingFrame(next, prev, next', prev', r);
    }
  }
}
