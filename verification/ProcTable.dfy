/** proc.c as it is written: every method is one section that holds ptable.lock. */
module ProcTable {
  import opened Ring
  import opened RunQueue
  import opened SchedMachine
  import opened SchedSafety
  import opened SchedFamily

  /** The queue pointers and links stand for the two lists, and other links are null. */
  ghost predicate Linked(next: seq<int>, prev: seq<int>, queue: seq<int>, rings: seq<seq<int>>) {
    && |next| == |prev| == NPROC && |queue| == |rings| == 2
    && SlotList(rings[0]) && SlotList(rings[1])
    && Queue(next, prev, queue[0], rings[0]) && Queue(next, prev, queue[1], rings[1])
    && (forall p :: p in rings[0] ==> p !in rings[1])
    && forall p :: 0 <= p < NPROC ==> LinkOrNull(next, prev, rings, p)
  }

  predicate LinkOrNull(next: seq<int>, prev: seq<int>, rings: seq<seq<int>>, p: int)
    requires |next| == |prev| == NPROC && |rings| == 2 && 0 <= p < NPROC
  {
    if p in rings[0] || p in rings[1] then 0 <= next[p] < NPROC && 0 <= prev[p] < NPROC
    else next[p] == NULL && prev[p] == NULL
  }

  /** The links after `enqueue`. */
  function Enqueued(next: seq<int>, prev: seq<int>, queue: seq<int>, q: nat, p: int): (seq<int>, seq<int>, seq<int>)
    requires |next| == |prev| == NPROC && q < |queue| && 0 <= p < NPROC
    requires queue[q] != NULL ==> 0 <= queue[q] < NPROC && 0 <= prev[queue[q]] < NPROC
  {
    if queue[q] == NULL then (next[p := p], prev[p := p], queue[q := p])
    else
      var head := queue[q];
      var last := prev[head];
      (next[last := p][p := head], prev[p := last][head := p], queue)
  }

  lemma RangeOfQueue(next: seq<int>, prev: seq<int>, queue: seq<int>, rings: seq<seq<int>>, q: nat)
    requires Linked(next, prev, queue, rings) && q < 2
    ensures queue[q] == NULL <==> rings[q] == []
    ensures rings[q] != [] ==> queue[q] == rings[q][0] && 0 <= queue[q] < NPROC && 0 <= prev[queue[q]] < NPROC
  {
    if rings[q] != [] {
      assert LinkOrNull(next, prev, rings, rings[q][0]);
    }
  }

  /** Link i after queue r became r': untouched outside both, null when it left, a link when it stayed or joined. */
  predicate Relinked(next: seq<int>, prev: seq<int>, n: seq<int>, m: seq<int>, r: seq<int>, r': seq<int>, i: int)
    requires |next| == |prev| == |n| == |m| == NPROC && 0 <= i < NPROC
  {
    if i in r' then 0 <= n[i] < NPROC && 0 <= m[i] < NPROC
    else if i in r then n[i] == NULL && m[i] == NULL
    else n[i] == next[i] && m[i] == prev[i]
  }

  /** One queue changes; the other is left alone. */
  lemma OneQueueChanges(next: seq<int>, prev: seq<int>, queue: seq<int>, rings: seq<seq<int>>, q: nat,
                        n: seq<int>, m: seq<int>, u: seq<int>, r': seq<int>)
    requires Linked(next, prev, queue, rings) && q < 2 && |n| == |m| == NPROC && |u| == 2
    requires Queue(n, m, u[q], r') && SlotList(r') && u[1 - q] == queue[1 - q]
    requires forall p :: p in r' ==> p !in rings[1 - q]
    requires forall i :: 0 <= i < NPROC ==> Relinked(next, prev, n, m, rings[q], r', i)
    ensures Linked(n, m, u, rings[q := r'])
  {
    OtherQueueStays(next, prev, queue[1 - q], rings[q], rings[1 - q], n, m, r');
    var rings' := rings[q := r'];
    forall i | 0 <= i < NPROC ensures LinkOrNull(n, m, rings', i) {
      OneLinkChanges(next, prev, rings, q, n, m, r', i);
    }
    if q == 0 {
      assert rings' == [r', rings[1]];
    } else {
      assert rings' == [rings[0], r'];
    }
  }

  lemma OtherQueueStays(next: seq<int>, prev: seq<int>, head: int, r: seq<int>, other: seq<int>, n: seq<int>,
                        m: seq<int>, r': seq<int>)
    requires |next| == |prev| == |n| == |m| == NPROC && Queue(next, prev, head, other) && SlotList(other)
    requires forall p :: p in other ==> p !in r && p !in r'
    requires forall i :: 0 <= i < NPROC ==> Relinked(next, prev, n, m, r, r', i)
    ensures Queue(n, m, head, other)
  {
    forall k | 0 <= k < |other| ensures n[other[k]] == next[other[k]] && m[other[k]] == prev[other[k]] {
      assert other[k] in other;
      assert Relinked(next, prev, n, m, r, r', other[k]);
    }
    QueueFrame(next, prev, n, m, head, other);
  }

  lemma OneLinkChanges(next: seq<int>, prev: seq<int>, rings: seq<seq<int>>, q: nat, n: seq<int>, m: seq<int>,
                       r': seq<int>, i: int)
    requires |rings| == 2 && q < 2 && |next| == |prev| == |n| == |m| == NPROC && 0 <= i < NPROC
    requires LinkOrNull(next, prev, rings, i) && Relinked(next, prev, n, m, rings[q], r', i)
    requires i in rings[q] ==> i !in rings[1 - q]
    requires i in r' ==> i !in rings[1 - q]
    ensures LinkOrNull(n, m, rings[q := r'], i)
  {
  }

  /** The queue that p joins. */
  lemma EnqueueOwn(next: seq<int>, prev: seq<int>, queue: seq<int>, q: nat, r: seq<int>, p: int)
    requires |next| == |prev| == NPROC && q < |queue| && Queue(next, prev, queue[q], r) && 0 <= p < NPROC && p !in r
    ensures queue[q] != NULL ==> 0 <= queue[q] < NPROC && 0 <= prev[queue[q]] < NPROC
    ensures var (n, m, u) := Enqueued(next, prev, queue, q, p);
            Queue(n, m, u[q], r + [p])
  {
    if r == [] {
      EnqueueEmpty(next, prev, p);
    } else {
      EnqueueLast(next, prev, r, p);
    }
  }

  /** Only p and the two ends of its queue change links. */
  lemma EnqueueRelinks(next: seq<int>, prev: seq<int>, queue: seq<int>, rings: seq<seq<int>>, q: nat, p: int, i: int)
    requires Linked(next, prev, queue, rings) && q < 2 && 0 <= p < NPROC && 0 <= i < NPROC
    ensures queue[q] != NULL ==> 0 <= queue[q] < NPROC && 0 <= prev[queue[q]] < NPROC
    ensures var (n, m, u) := Enqueued(next, prev, queue, q, p);
            Relinked(next, prev, n, m, rings[q], rings[q] + [p], i)
  {
    RangeOfQueue(next, prev, queue, rings, q);
    assert LinkOrNull(next, prev, rings, i);
    var r := rings[q];
    if r != [] {
      assert prev[r[0]] == r[Before(0, |r|)];
    }
  }

  lemma EnqueueLinked(next: seq<int>, prev: seq<int>, queue: seq<int>, rings: seq<seq<int>>, q: nat, p: int)
    requires Linked(next, prev, queue, rings) && q < 2 && 0 <= p < NPROC && p !in rings[0] && p !in rings[1]
    ensures queue[q] != NULL ==> 0 <= queue[q] < NPROC && 0 <= prev[queue[q]] < NPROC
    ensures var (n, m, u) := Enqueued(next, prev, queue, q, p);
            Linked(n, m, u, rings[q := rings[q] + [p]])
  {
    EnqueueOwn(next, prev, queue, q, rings[q], p);
    var (n, m, u) := Enqueued(next, prev, queue, q, p);
    AppendSlot(rings[q], p);
    forall i | 0 <= i < NPROC ensures Relinked(next, prev, n, m, rings[q], rings[q] + [p], i) {
      EnqueueRelinks(next, prev, queue, rings, q, p, i);
    }
    OneQueueChanges(next, prev, queue, rings, q, n, m, u, rings[q] + [p]);
  }

  /** The links after `dequeue`. */
  function Dequeued(next: seq<int>, prev: seq<int>, queue: seq<int>, q: nat, p: int): (seq<int>, seq<int>, seq<int>)
    requires |next| == |prev| == NPROC && q < |queue| && 0 <= p < NPROC
    requires 0 <= next[p] < NPROC && 0 <= prev[p] < NPROC
  {
    if prev[p] == p && next[p] == p then (next[p := NULL], prev[p := NULL], queue[q := NULL])
    else
      (next[prev[p] := next[p]][p := NULL], prev[next[p] := prev[p]][p := NULL],
       if queue[q] == p then queue[q := next[p]] else queue)
  }

  /** The queue that p leaves. */
  lemma DequeueOwn(next: seq<int>, prev: seq<int>, queue: seq<int>, q: nat, r: seq<int>, k: nat)
    requires |next| == |prev| == NPROC && q < |queue| && Queue(next, prev, queue[q], r) && SlotList(r) && k < |r|
    ensures 0 <= next[r[k]] < NPROC && 0 <= prev[r[k]] < NPROC && queue[q] != NULL
    ensures next[r[k]] == r[k] <==> prev[r[k]] == r[k]
    ensures var (n, m, u) := Dequeued(next, prev, queue, q, r[k]);
            Queue(n, m, u[q], Remove(r, k))
  {
    DequeueAlone(next, prev, r, k);
    if |r| >= 2 {
      DequeueLonger(next, prev, r, k);
      assert queue[q] == r[k] <==> k == 0;
    } else {
      assert Remove(r, k) == [];
    }
  }

  /** Only p and its two neighbours change links. */
  lemma DequeueRelinks(next: seq<int>, prev: seq<int>, queue: seq<int>, rings: seq<seq<int>>, q: nat, k: nat, i: int)
    requires Linked(next, prev, queue, rings) && q < 2 && k < |rings[q]| && 0 <= i < NPROC
    ensures 0 <= next[rings[q][k]] < NPROC && 0 <= prev[rings[q][k]] < NPROC
    ensures var (n, m, u) := Dequeued(next, prev, queue, q, rings[q][k]);
            && (i == rings[q][k] ==> n[i] == NULL && m[i] == NULL)
            && (i in rings[q] && i != rings[q][k] ==> 0 <= n[i] < NPROC && 0 <= m[i] < NPROC)
            && (i !in rings[q] ==> n[i] == next[i] && m[i] == prev[i])
  {
    var r := rings[q];
    assert LinkOrNull(next, prev, rings, r[k]) && LinkOrNull(next, prev, rings, i);
    assert next[r[k]] == r[After(k, |r|)] && prev[r[k]] == r[Before(k, |r|)];
  }

  lemma DequeueLinked(next: seq<int>, prev: seq<int>, queue: seq<int>, rings: seq<seq<int>>, q: nat, p: int)
    requires Linked(next, prev, queue, rings) && q < 2 && p in rings[q]
    ensures 0 <= p < NPROC && 0 <= next[p] < NPROC && 0 <= prev[p] < NPROC && queue[q] != NULL
    ensures next[p] == p <==> prev[p] == p
    ensures var (n, m, u) := Dequeued(next, prev, queue, q, p);
            Linked(n, m, u, rings[q := Remove(rings[q], IndexOf(rings[q], p))])
  {
    var k := IndexOf(rings[q], p);
    var r' := Remove(rings[q], k);
    DequeueOwn(next, prev, queue, q, rings[q], k);
    RemoveSlot(rings[q], k);
    var (n, m, u) := Dequeued(next, prev, queue, q, p);
    forall i | 0 <= i < NPROC ensures Relinked(next, prev, n, m, rings[q], r', i) {
      DequeueRelinks(next, prev, queue, rings, q, k, i);
    }
    OneQueueChanges(next, prev, queue, rings, q, n, m, u, r');
  }

  lemma RequeueResult(t: Table, p: int, prio: nat)
    requires Shaped(t) && Enabled(t, SchedMachine.SetPrio(p, prio))
    requires t.procs[p].state == RUNNABLE && t.procs[p].priority == 1 - prio
    ensures DoSetPrio(t, p, prio) ==
      Table(t.procs[p := t.procs[p].(priority := prio)],
            t.rings[1 - prio := Remove(t.rings[1 - prio], IndexOf(t.rings[1 - prio], p))][prio := t.rings[prio] + [p]],
            t.cpus, t.nextpid)
  {
  }

  class PTable {
    var procs: seq<Proc>
    var next: seq<int>
    var prev: seq<int>
    var queue: seq<int>
    var cpus: seq<int>            // cpus[c].proc
    var nextpid: int
    var initproc: int
    ghost var rings: seq<seq<int>>

    ghost function Abs(): Table
      reads this
    {
      Table(procs, rings, cpus, nextpid)
    }

    ghost predicate Wired()
      reads this
    {
      Linked(next, prev, queue, rings) && Queued(Abs())
    }

    /** What holds whenever ptable.lock is free. */
    ghost predicate Valid()
      reads this
    {
      Linked(next, prev, queue, rings) && Inv(Abs())
    }

    /** The table at boot: a zeroed `ptable` and idle processors. */
    constructor (ncpu: nat)
      ensures Valid() && Boot(Abs())
    {
      procs := seq(NPROC, _ => Proc(UNUSED, 0, NULL, 0, false, 0, HI_PRIO));
      next := seq(NPROC, _ => NULL);
      prev := seq(NPROC, _ => NULL);
      queue := [NULL, NULL];
      cpus := seq(ncpu, _ => NULL);
      nextpid := 1;
      initproc := NULL;
      rings := [[], []];
      new;
      BootInv(Abs());
    }

    /** `enqueue`; true is one of its panics. */
    method Enqueue(p: int) returns (panic: bool)
      requires Linked(next, prev, queue, rings) && 0 <= p < NPROC == |procs| && procs[p].priority < 2
      modifies this`next, this`prev, this`queue, this`rings
      ensures Linked(next, prev, queue, rings)
      ensures panic <==> p in old(rings[0]) || p in old(rings[1])
      ensures rings == if panic then old(rings)
                       else old(rings)[procs[p].priority := old(rings[procs[p].priority]) + [p]]
    {
      assert LinkOrNull(next, prev, rings, p);
      var before, after := prev[p], next[p];
      if before != NULL && after != NULL {
        return true;
      }
      if (before == NULL && after != NULL) || (before != NULL && after == NULL) {
        assert false;   // panic("corrupted process priority queue data")
      }
      var q := procs[p].priority;
      EnqueueLinked(next, prev, queue, rings, q, p);
      rings := rings[q := rings[q] + [p]];
      if queue[q] == NULL {
        queue := queue[q := p];
        prev := prev[p := p];
        next := next[p := p];
        return false;
      }
      var head := queue[q];
      next := next[prev[head] := p];
      prev := prev[p := prev[head]];
      prev := prev[head := p];
      next := next[p := head];
      return false;
    }

    /** `dequeue` of a process that, if queued at all, is in the queue of its priority. */
    method Dequeue(p: int) returns (panic: bool)
      requires Linked(next, prev, queue, rings) && 0 <= p < NPROC == |procs| && procs[p].priority < 2
      requires p !in rings[1 - procs[p].priority]
      modifies this`next, this`prev, this`queue, this`rings
      ensures Linked(next, prev, queue, rings)
      ensures panic <==> p !in old(rings[procs[p].priority])
      ensures panic ==> rings == old(rings)
      ensures !panic ==> rings == old(rings)[procs[p].priority :=
                Remove(old(rings[procs[p].priority]), IndexOf(old(rings[procs[p].priority]), p))]
      ensures !panic ==> Without(old(rings[procs[p].priority]), rings[procs[p].priority], p)
    {
      var q := procs[p].priority;
      assert LinkOrNull(next, prev, rings, p);
      RangeOfQueue(next, prev, queue, rings, q);
      if queue[q] == NULL {
        return true;
      }
      var before, after := prev[p], next[p];
      if before == NULL && after == NULL {
        return true;
      }
      DequeueLinked(next, prev, queue, rings, q, p);
      if (before == NULL && after != NULL) || (before != NULL && after == NULL)
         || (before == p && after != p) || (before != p && after == p) {
        assert false;   // panic("corrupted process priority queue data")
      }
      TakeOut(p, q);
      return false;
    }

    /** `dequeue` past its panics. */
    method TakeOut(p: int, q: nat)
      requires Linked(next, prev, queue, rings) && 0 <= p < NPROC && q < 2 && p in rings[q]
      modifies this`next, this`prev, this`queue, this`rings
      ensures Linked(next, prev, queue, rings)
      ensures rings == old(rings)[q := Remove(old(rings[q]), IndexOf(old(rings[q]), p))]
      ensures Without(old(rings[q]), rings[q], p)
    {
      DequeueLinked(next, prev, queue, rings, q, p);
      WithoutOne(rings[q], p);
      Unlink(p, q);
      rings := rings[q := Remove(rings[q], IndexOf(rings[q], p))];
    }

    /** The link updates of `dequeue`. */
    method Unlink(p: int, q: nat)
      requires |next| == |prev| == NPROC && q < |queue| && 0 <= p < NPROC
      requires 0 <= next[p] < NPROC && 0 <= prev[p] < NPROC
      modifies this`next, this`prev, this`queue
      ensures (next, prev, queue) == Dequeued(old(next), old(prev), old(queue), q, p)
    {
      var before, after := prev[p], next[p];
      if before == p && after == p {
        prev := prev[p := NULL];
        next := next[p := NULL];
        queue := queue[q := NULL];
        return;
      }
      prev := prev[after := before];
      next := next[before := after];
      if queue[q] == p {
        queue := queue[q := after];
      }
      prev := prev[p := NULL];
      next := next[p := NULL];
    }

    /** `p->state = RUNNABLE; enqueue(p)`, which never panics. */
    method Ready(p: int)
      requires Wired() && 0 <= p < NPROC && procs[p].state != RUNNABLE
      modifies this`procs, this`next, this`prev, this`queue, this`rings
      ensures Wired() && Abs() == MakeRunnable(old(Abs()), p)
    {
      assert Listed(Abs(), 0, p) && Listed(Abs(), 1, p);
      MakeRunnableQueued(Abs(), p);
      procs := procs[p := procs[p].(state := RUNNABLE)];
      var panic := Enqueue(p);
      if panic {
        assert false;
      }
    }

    /** `allocproc` up to releasing the lock: the first UNUSED slot, if any. */
    method AllocProc() returns (p: int)
      requires Valid()
      modifies this`procs, this`nextpid
      ensures Valid()
      ensures p == NULL ==> (forall i :: 0 <= i < NPROC ==> old(procs[i].state) != UNUSED) && Abs() == old(Abs())
      ensures p != NULL ==>
        && 0 <= p < NPROC && old(procs[p].state) == UNUSED && Abs() == Do(old(Abs()), Alloc(p))
        && procs == old(procs)[p := old(procs[p]).(state := EMBRYO, pid := old(nextpid))] && nextpid == old(nextpid) + 1
        && forall i :: 0 <= i < p ==> old(procs[i].state) != UNUSED
    {
      p := 0;
      while p < NPROC && procs[p].state != UNUSED
        invariant 0 <= p <= NPROC && forall i :: 0 <= i < p ==> procs[i].state != UNUSED
        invariant Valid() && procs == old(procs) && nextpid == old(nextpid)
      {
        p := p + 1;
      }
      if p == NPROC {
        return NULL;
      }
      KeepAlloc(Abs(), p);
      procs := procs[p := procs[p].(state := EMBRYO, pid := nextpid)];
      nextpid := nextpid + 1;
    }

    /** The failure exits of allocproc and fork. */
    method Abandon(p: int)
      requires Valid() && 0 <= p < NPROC && procs[p].state == EMBRYO
      modifies this`procs
      ensures Valid() && Abs() == Do(old(Abs()), SchedMachine.Abandon(p))
      ensures procs == old(procs)[p := old(procs[p]).(state := UNUSED)]
    {
      KeepStep(Abs(), SchedMachine.Abandon(p));
      procs := procs[p := procs[p].(state := UNUSED)];
    }

    /** The last section of userinit. */
    method UserInit(p: int)
      requires Valid() && 0 <= p < NPROC && procs[p].state == EMBRYO
      modifies this`procs, this`next, this`prev, this`queue, this`rings, this`initproc
      ensures Valid() && Abs() == Do(old(Abs()), Start(p, NORM_PRIO)) && initproc == p
      ensures procs == old(procs)[p := old(procs[p]).(priority := NORM_PRIO, state := RUNNABLE)]
      ensures Joins(old(rings), rings, NORM_PRIO, p)
    {
      assert Listed(Abs(), 0, p) && Listed(Abs(), 1, p);
      KeepStart(Abs(), p, NORM_PRIO);
      SetProcQueued(Abs(), p, procs[p].(priority := NORM_PRIO));
      initproc := p;
      procs := procs[p := procs[p].(priority := NORM_PRIO)];
      Ready(p);
    }

    /** The last section of fork: the child inherits the priority of its parent. */
    method Fork(np: int, cur: int)
      requires Valid() && 0 <= np < NPROC && 0 <= cur < NPROC
      requires procs[np].state == EMBRYO && procs[cur].state == RUNNING
      modifies this`procs, this`next, this`prev, this`queue, this`rings
      ensures Valid() && Abs() == Do(Do(old(Abs()), Adopt(np, cur)), Start(np, old(procs[cur].priority)))
      ensures var prio := old(procs[cur].priority);
              && procs == old(procs)[np := old(procs[np]).(parent := cur, priority := prio, state := RUNNABLE)]
              && Joins(old(rings), rings, prio, np)
    {
      KeepStep(Abs(), Adopt(np, cur));
      procs := procs[np := procs[np].(parent := cur)];
      var prio := procs[procs[np].parent].priority;
      KeepStart(Abs(), np, prio);
      SetProcQueued(Abs(), np, procs[np].(priority := prio));
      procs := procs[np := procs[np].(priority := prio)];
      Ready(np);
    }

    /** The choice of `scheduler`: the first process of the first queue that has one. */
    method Pick() returns (p: int)
      requires Valid()
      ensures p == NULL <==> forall i :: 0 <= i < NPROC ==> procs[i].state != RUNNABLE
      ensures p == NULL <==> rings[NextQueue(Abs())] == []
      ensures p != NULL ==> p == rings[NextQueue(Abs())][0] && 0 <= p < NPROC
    {
      RangeOfQueue(next, prev, queue, rings, HI_PRIO);
      RangeOfQueue(next, prev, queue, rings, NORM_PRIO);
      p := queue[HI_PRIO];
      if p == NULL {
        p := queue[NORM_PRIO];
      }
      if p == NULL {
        forall i | 0 <= i < NPROC ensures procs[i].state != RUNNABLE {
          assert Listed(Abs(), HI_PRIO, i) && Listed(Abs(), NORM_PRIO, i);
        }
      } else {
        assert Listed(Abs(), HI_PRIO, p) && Listed(Abs(), NORM_PRIO, p);
      }
    }

    /** The chosen process, the first of queue q, is marked as running on processor c and leaves its queue. */
    method TakeOff(c: int, p: int, ghost q: nat)
      requires Linked(next, prev, queue, rings) && 0 <= p < NPROC == |procs| && q < 2 && procs[p].priority == q
      requires rings[q] != [] && p == rings[q][0] && p !in rings[1 - q] && 0 <= c < |cpus|
      modifies this`procs, this`next, this`prev, this`queue, this`rings, this`cpus
      ensures Linked(next, prev, queue, rings) && rings == old(rings)[q := Remove(old(rings[q]), 0)]
      ensures procs == old(procs)[p := old(procs[p]).(state := RUNNING, chan := 0)] && cpus == old(cpus)[c := p]
    {
      cpus := cpus[c := p];
      procs := procs[p := procs[p].(state := RUNNING)];
      var panic := Dequeue(p);
      if panic {
        assert false;
      }
      procs := procs[p := procs[p].(chan := 0)];   // the tail of `sleep`, if p was asleep
    }

    /** The chosen process leaves its queue and runs on processor c. */
    method Switch(c: int, p: int)
      requires Valid() && Enabled(Abs(), Dispatch(c)) && p == rings[NextQueue(Abs())][0]
      modifies this`procs, this`next, this`prev, this`queue, this`rings, this`cpus
      ensures Valid() && Abs() == DoDispatch(old(Abs()), c)
      ensures cpus == old(cpus)[c := p] && Leads(old(rings), rings, p)
      ensures 0 <= p < NPROC && procs == old(procs)[p := old(procs[p]).(state := RUNNING, chan := 0)]
    {
      ghost var t := Abs();
      ghost var q := DispatchParts(t, c);
      TakeOff(c, p, q);
      assert Abs() == DoDispatch(t, c);
    }

    /** One round of `scheduler` on processor c; NULL when no process is runnable. */
    method Scheduler(c: int) returns (p: int)
      requires Valid() && 0 <= c < |cpus| && cpus[c] == NULL
      modifies this`procs, this`next, this`prev, this`queue, this`rings, this`cpus
      ensures Valid()
      ensures p == NULL <==> forall i :: 0 <= i < NPROC ==> old(procs[i].state) != RUNNABLE
      ensures p == NULL ==> Abs() == old(Abs())
      ensures p != NULL ==> Enabled(old(Abs()), Dispatch(c)) && Abs() == Do(old(Abs()), Dispatch(c)) && cpus[c] == p
      ensures p != NULL ==>
        && 0 <= p < NPROC && cpus == old(cpus)[c := p]
        && procs == old(procs)[p := old(procs[p]).(state := RUNNING, chan := 0)] && Leads(old(rings), rings, p)
    {
      p := Pick();
      if p != NULL {
        Switch(c, p);
      }
    }

    /** `yield` by the process on processor c. */
    method Yield(c: int)
      requires Valid() && Busy(Abs(), c)
      modifies this`procs, this`next, this`prev, this`queue, this`rings, this`cpus
      ensures Valid() && Abs() == Do(old(Abs()), SchedMachine.Yield(c))
      ensures var p := old(cpus[c]);
              && procs == old(procs)[p := old(procs[p]).(state := RUNNABLE)] && cpus == old(cpus)[c := NULL]
              && Joins(old(rings), rings, old(procs[p].priority), p)
    {
      KeepYield(Abs(), c);
      Ready(cpus[c]);
      cpus := cpus[c := NULL];
    }

    /** `sleep` by the process on processor c, which already holds or takes ptable.lock. */
    method Sleep(c: int, chan: int)
      requires Valid() && Busy(Abs(), c)
      modifies this`procs, this`cpus
      ensures Valid() && Abs() == Do(old(Abs()), SchedMachine.Sleep(c, chan))
      ensures var p := old(cpus[c]);
              && procs == old(procs)[p := old(procs[p]).(state := SLEEPING, chan := chan)]
              && cpus == old(cpus)[c := NULL]
    {
      var p := cpus[c];
      KeepStep(Abs(), SchedMachine.Sleep(c, chan));
      procs := procs[p := procs[p].(chan := chan, state := SLEEPING)];
      cpus := cpus[c := NULL];
    }

    /** `wakeup1`: every process asleep on the channel joins the end of its queue, in table order. */
    method Wakeup1(chan: int)
      requires Wired()
      modifies this`procs, this`next, this`prev, this`queue, this`rings
      ensures Wired() && Abs() == WakeFrom(old(Abs()), chan, 0)
      ensures forall p :: 0 <= p < NPROC ==>
        procs[p] == if SleepsOn(old(procs[p]), chan) then old(procs[p]).(state := RUNNABLE) else old(procs[p])
      ensures forall q :: 0 <= q < 2 ==> rings[q] == old(rings[q]) + Sleepers(old(procs), chan, q, 0)
    {
      WakesAll(Abs(), chan);
      for i := 0 to NPROC
        invariant Wired() && WakeFrom(Abs(), chan, i) == WakeFrom(old(Abs()), chan, 0)
      {
        if procs[i].state == SLEEPING && procs[i].chan == chan {
          Ready(i);
        }
      }
    }

    /** `wakeup` */
    method Wakeup(chan: int)
      requires Valid()
      modifies this`procs, this`next, this`prev, this`queue, this`rings
      ensures Valid() && Abs() == Do(old(Abs()), SchedMachine.Wakeup(chan))
      ensures forall p :: 0 <= p < NPROC ==>
        procs[p] == if SleepsOn(old(procs[p]), chan) then old(procs[p]).(state := RUNNABLE) else old(procs[p])
      ensures forall q :: 0 <= q < 2 ==> rings[q] == old(rings[q]) + Sleepers(old(procs), chan, q, 0)
    {
      KeepWakeup(Abs(), chan);
      Wakeup1(chan);
    }

    /** `kill` on the process it has found. */
    method KillAt(p: int)
      requires Valid() && 0 <= p < NPROC
      modifies this`procs, this`next, this`prev, this`queue, this`rings
      ensures Valid() && Abs() == Do(old(Abs()), SchedMachine.Kill(p))
      ensures Killed(old(procs), old(rings), procs, rings, p)
    {
      KeepKill(Abs(), p);
      SetProcQueued(Abs(), p, procs[p].(killed := true));
      procs := procs[p := procs[p].(killed := true)];
      if procs[p].state == SLEEPING {
        Ready(p);
      }
    }

    /** The first slot with this pid; `used` skips UNUSED slots. */
    method FindPid(pid: int, used: bool) returns (p: int)
      requires |procs| == NPROC
      ensures p == NULL <==> forall i :: 0 <= i < NPROC ==> !Matches(procs[i], pid, used)
      ensures p != NULL ==>
        0 <= p < NPROC && Matches(procs[p], pid, used) && forall i :: 0 <= i < p ==> !Matches(procs[i], pid, used)
    {
      for i := 0 to NPROC
        invariant forall k :: 0 <= k < i ==> !Matches(procs[k], pid, used)
      {
        if Matches(procs[i], pid, used) {
          return i;
        }
      }
      return NULL;
    }

    /** `kill`: the first process with this pid, whatever its state. */
    method Kill(pid: int) returns (r: int)
      requires Valid()
      modifies this`procs, this`next, this`prev, this`queue, this`rings
      ensures Valid() && (r == 0 || r == -1)
      ensures r == -1 ==> Abs() == old(Abs()) && forall i :: 0 <= i < NPROC ==> !Matches(old(procs[i]), pid, false)
      ensures r == 0 ==>
        exists p :: (FirstMatch(old(procs), pid, false, p)
                     && Abs() == Do(old(Abs()), SchedMachine.Kill(p))
                     && Killed(old(procs), old(rings), procs, rings, p))
    {
      var p := FindPid(pid, false);
      if p == NULL {
        return -1;
      }
      KillAt(p);
      assert FirstMatch(old(procs), pid, false, p);
      return 0;
    }

    /** `getprio` */
    method GetPrio(pid: int) returns (r: int)
      requires Valid()
      ensures r == -1 <==> forall i :: 0 <= i < NPROC ==> !Matches(procs[i], pid, true)
      ensures r != -1 ==> exists p :: FirstMatch(procs, pid, true, p) && r == procs[p].priority
    {
      var p := FindPid(pid, true);
      if p == NULL {
        return -1;
      }
      assert FirstMatch(procs, pid, true, p);
      return procs[p].priority;
    }

    /** `dequeue(p); p->priority = prio; enqueue(p)` */
    method Requeue(p: int, prio: nat)
      requires Linked(next, prev, queue, rings) && |procs| == NPROC && 0 <= p < NPROC && prio < 2
      requires procs[p].priority == 1 - prio && p in rings[1 - prio]
      modifies this`procs, this`next, this`prev, this`queue, this`rings
      ensures Linked(next, prev, queue, rings) && procs == old(procs)[p := old(procs[p]).(priority := prio)]
      ensures rings == old(rings)[1 - prio := Remove(old(rings[1 - prio]), IndexOf(old(rings[1 - prio]), p))]
                                 [prio := old(rings[prio]) + [p]]
    {
      RemoveSlot(rings[1 - prio], IndexOf(rings[1 - prio], p));
      var panic := Dequeue(p);
      if panic {
        assert false;
      }
      procs := procs[p := procs[p].(priority := prio)];
      panic := Enqueue(p);
      if panic {
        assert false;
      }
    }

    /** `setprio` on the process it has found. */
    method SetPrioAt(p: int, prio: nat)
      requires Valid() && 0 <= p < NPROC && procs[p].state != UNUSED && prio < 2
      modifies this`procs, this`next, this`prev, this`queue, this`rings
      ensures Valid() && Enabled(old(Abs()), SchedMachine.SetPrio(p, prio)) && Abs() == DoSetPrio(old(Abs()), p, prio)
      ensures Reprioritized(old(procs), old(rings), procs, rings, p, prio)
    {
      assert Listed(Abs(), 0, p) && Listed(Abs(), 1, p);
      KeepSetPrio(Abs(), p, prio);
      if procs[p].priority != prio {
        if procs[p].state == RUNNABLE {
          RequeueResult(Abs(), p, prio);
          Requeue(p, prio);
        } else {
          procs := procs[p := procs[p].(priority := prio)];
        }
      }
    }

    /** `setprio` */
    method SetPrio(pid: int, prio: int) returns (r: int)
      requires Valid()
      modifies this`procs, this`next, this`prev, this`queue, this`rings
      ensures Valid() && (r == 0 || r == -1)
      ensures r == -1 <==>
        (prio != HI_PRIO && prio != NORM_PRIO) || forall i :: 0 <= i < NPROC ==> !Matches(old(procs[i]), pid, true)
      ensures r == -1 ==> Abs() == old(Abs())
      ensures r == 0 ==>
        exists p :: (FirstMatch(old(procs), pid, true, p)
                     && Enabled(old(Abs()), SchedMachine.SetPrio(p, prio)) && Abs() == DoSetPrio(old(Abs()), p, prio)
                     && Reprioritized(old(procs), old(rings), procs, rings, p, prio))
    {
      if prio != HI_PRIO && prio != NORM_PRIO {
        return -1;
      }
      var p := FindPid(pid, true);
      if p == NULL {
        return -1;
      }
      SetPrioAt(p, prio);
      assert FirstMatch(old(procs), pid, true, p);
      return 0;
    }

    method PassChild(cur: int, i: nat)
      requires Wired() && i < NPROC
      modifies this`procs, this`next, this`prev, this`queue, this`rings
      ensures Wired() && Abs() == DisownOne(old(Abs()), cur, initproc, i)
    {
      if procs[i].parent == cur {
        SetProcQueued(Abs(), i, procs[i].(parent := initproc));
        procs := procs[i := procs[i].(parent := initproc)];
        if procs[i].state == ZOMBIE {
          Wakeup1(ProcChan(initproc));
        }
      }
    }

    /** The loop of `exit` that passes abandoned children to init. */
    method PassChildren(cur: int)
      requires Wired()
      modifies this`procs, this`next, this`prev, this`queue, this`rings
      ensures Wired() && Abs() == Disown(old(Abs()), cur, initproc, 0)
    {
      for i := 0 to NPROC
        invariant Wired() && Disown(Abs(), cur, initproc, i) == Disown(old(Abs()), cur, initproc, 0)
      {
        PassChild(cur, i);
      }
    }

    /** `exit` wakes the parent and passes on the children. */
    method LeaveFamily(cur: int)
      requires Wired() && 0 <= cur < NPROC
      modifies this`procs, this`next, this`prev, this`queue, this`rings
      ensures Wired()
      ensures Abs() == Disown(WakeFrom(old(Abs()), ProcChan(old(procs[cur].parent)), 0), cur, initproc, 0)
    {
      Wakeup1(ProcChan(procs[cur].parent));
      PassChildren(cur);
    }

    /** `exit` by the process on processor c, from taking ptable.lock on. */
    method Exit(c: int, status: int)
      requires Valid() && Busy(Abs(), c) && cpus[c] != initproc
      modifies this`procs, this`next, this`prev, this`queue, this`rings, this`cpus
      ensures Valid() && Abs() == DoExit(old(Abs()), c, status, initproc) && cpus == old(cpus)[c := NULL]
      ensures forall p :: 0 <= p < NPROC ==> Exited(old(procs), procs, old(cpus[c]), initproc, status, p)
    {
      var cur := cpus[c];
      ExitSlots(Abs(), c, status, initproc);
      KeepExit(Abs(), c, status, initproc);
      LeaveFamily(cur);
      procs := procs[cur := procs[cur].(state := ZOMBIE, status := status)];
      cpus := cpus[c := NULL];
    }

    /** The scan of `wait`: the first exited child of cur, and whether cur has children at all. */
    method FindZombie(cur: int) returns (p: int, havekids: bool)
      requires |procs| == NPROC
      ensures p == NULL <==> forall i :: 0 <= i < NPROC ==> !ZombieOf(procs[i], cur)
      ensures p != NULL ==>
        0 <= p < NPROC && ZombieOf(procs[p], cur) && forall i :: 0 <= i < p ==> !ZombieOf(procs[i], cur)
      ensures p == NULL ==> (havekids <==> exists i :: 0 <= i < NPROC && procs[i].parent == cur)
    {
      havekids := false;
      for i := 0 to NPROC
        invariant forall k :: 0 <= k < i ==> !ZombieOf(procs[k], cur)
        invariant havekids <==> exists k :: 0 <= k < i && procs[k].parent == cur
      {
        if procs[i].parent == cur {
          havekids := true;
          if procs[i].state == ZOMBIE {
            return i, true;
          }
        }
      }
      return NULL, havekids;
    }

    /** One pass of `wait` by the process on processor c. */
    method Wait(c: int) returns (r: WaitResult)
      requires Valid() && Busy(Abs(), c)
      modifies this`procs, this`next, this`prev, this`cpus
      ensures Valid()
      ensures match r
        case Reaped(p, pid, status) =>
          0 <= p < NPROC && ZombieOf(old(procs[p]), old(cpus[c])) && pid == old(procs[p].pid)
          && (forall i :: 0 <= i < p ==> !ZombieOf(old(procs[i]), old(cpus[c])))
          && status == old(procs[p].status) && Abs() == Do(old(Abs()), Reap(p))
          && procs == old(procs)[p := Proc(UNUSED, 0, NULL, old(procs[p].chan), false, status, HI_PRIO)]
          && cpus == old(cpus)
        case NoChild =>
          Abs() == old(Abs()) && (forall i :: 0 <= i < NPROC ==> !ZombieOf(procs[i], cpus[c]))
          && (procs[cpus[c]].killed || forall i :: 0 <= i < NPROC ==> procs[i].parent != cpus[c])
        case Slept =>
          Abs() == Do(old(Abs()), SchedMachine.Sleep(c, ProcChan(old(cpus[c]))))
          && procs == old(procs)[old(cpus[c]) := old(procs[cpus[c]]).(state := SLEEPING, chan := old(cpus[c]) + 1)]
          && cpus == old(cpus)[c := NULL]
          && (forall i :: 0 <= i < NPROC ==> !ZombieOf(old(procs[i]), old(cpus[c])))
          && !old(procs[cpus[c]].killed) && (exists i :: 0 <= i < NPROC && old(procs[i].parent) == old(cpus[c]))
    {
      var cur := cpus[c];
      var p, havekids := FindZombie(cur);
      if p != NULL {
        var pid := procs[p].pid;
        assert LinkOrNull(next, prev, rings, p) && Listed(Abs(), 0, p) && Listed(Abs(), 1, p);
        KeepStep(Abs(), Reap(p));
        procs := procs[p := procs[p].(pid := 0, parent := NULL, killed := false, state := UNUSED, priority := HI_PRIO)];
        next := next[p := NULL];
        prev := prev[p := NULL];
        assert next == old(next) && prev == old(prev);
        return Reaped(p, pid, procs[p].status);
      }
      if !havekids || procs[cur].killed {
        return NoChild;
      }
      Sleep(c, ProcChan(cur));
      return Slept;
    }
  }

  /** Process p joins the end of queue q, and nothing else happens to the queues. */
  ghost predicate Joins(rings: seq<seq<int>>, rings': seq<seq<int>>, q: nat, p: int) {
    |rings| == |rings'| == 2 && q < 2 && rings'[q] == rings[q] + [p] && rings'[1 - q] == rings[1 - q]
  }

  /** Process p, the first of the high queue, or of the normal queue if that is empty, leaves its queue. */
  ghost predicate Leads(rings: seq<seq<int>>, rings': seq<seq<int>>, p: int) {
    && |rings| == |rings'| == 2
    && if rings[0] != [] then rings[0] == [p] + rings'[0] && rings'[1] == rings[1]
       else rings[1] == [p] + rings'[1] && rings'[0] == []
  }

  lemma FirstLeads(rings: seq<seq<int>>, q: nat)
    requires |rings| == 2 && q == (if rings[HI_PRIO] != [] then HI_PRIO else NORM_PRIO) && rings[q] != []
    ensures Leads(rings, rings[q := Remove(rings[q], 0)], rings[q][0])
  {
    assert rings[q] == [rings[q][0]] + Remove(rings[q], 0);
  }

  /** What a dispatch changes. */
  lemma DispatchParts(t: Table, c: int) returns (q: nat)
    requires Inv(t) && Enabled(t, Dispatch(c))
    ensures q < 2 && t.rings[q] != [] && q == NextQueue(t) && Inv(DoDispatch(t, c))
    ensures var p := t.rings[q][0];
            && 0 <= p < NPROC && t.procs[p].priority == q && p !in t.rings[1 - q]
            && DoDispatch(t, c) == Table(t.procs[p := t.procs[p].(state := RUNNING, chan := 0)],
                                         t.rings[q := Remove(t.rings[q], 0)], t.cpus[c := p], t.nextpid)
            && Leads(t.rings, t.rings[q := Remove(t.rings[q], 0)], p)
  {
    q := NextQueue(t);
    var p := t.rings[q][0];
    assert Listed(t, HI_PRIO, p) && Listed(t, NORM_PRIO, p);
    KeepDispatch(t, c);
    FirstLeads(t.rings, q);
  }

  lemma WithoutOne(r: seq<int>, p: int)
    requires p in r
    ensures Without(r, Remove(r, IndexOf(r, p)), p)
  {
    assert Remove(r, IndexOf(r, p)) == r[..IndexOf(r, p)] + r[IndexOf(r, p) + 1..];
  }

  /** Process p is marked as killed; if it slept it is runnable now, at the end of its queue. */
  ghost predicate Killed(procs: seq<Proc>, rings: seq<seq<int>>, procs': seq<Proc>, rings': seq<seq<int>>, p: int) {
    && |procs| == |procs'| && 0 <= p < |procs|
    && (forall i :: 0 <= i < |procs| && i != p ==> procs'[i] == procs[i])
    && if procs[p].state == SLEEPING then
         procs'[p] == procs[p].(killed := true, state := RUNNABLE) && Joins(rings, rings', procs[p].priority, p)
       else
         procs'[p] == procs[p].(killed := true) && rings' == rings
  }

  /** Process p has the priority; if that is a change for a runnable process, it goes to the end of the other queue. */
  ghost predicate Reprioritized(procs: seq<Proc>, rings: seq<seq<int>>, procs': seq<Proc>, rings': seq<seq<int>>,
                                p: int, prio: nat) {
    && |procs| == |procs'| && 0 <= p < |procs| && procs'[p] == procs[p].(priority := prio)
    && (forall i :: 0 <= i < |procs| && i != p ==> procs'[i] == procs[i])
    && if procs[p].state == RUNNABLE && procs[p].priority != prio then
         && |rings| == |rings'| == 2 && prio < 2 && rings'[prio] == rings[prio] + [p]
         && Without(rings[1 - prio], rings'[1 - prio], p)
       else rings' == rings
  }

  /** The list without p, in the same order. */
  ghost predicate Without(r: seq<int>, r': seq<int>, p: int) {
    exists k :: 0 <= k < |r| && r[k] == p && r' == r[..k] + r[k + 1..]
  }

  datatype WaitResult = Reaped(slot: int, pid: int, status: int) | NoChild | Slept

  predicate ZombieOf(proc: Proc, cur: int) {
    proc.parent == cur && proc.state == ZOMBIE
  }

  predicate Matches(proc: Proc, pid: int, used: bool) {
    proc.pid == pid && (used ==> proc.state != UNUSED)
  }

  /** p is the first slot that matches. */
  ghost predicate FirstMatch(procs: seq<Proc>, pid: int, used: bool, p: int) {
    0 <= p < |procs| && Matches(procs[p], pid, used) && forall i :: 0 <= i < p ==> !Matches(procs[i], pid, used)
  }
}
