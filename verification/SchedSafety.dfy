/** The run-queue invariant over every run, and the order in which processes are dispatched. */
module SchedSafety {
  import opened Ring
  import opened RunQueue
  import opened SchedMachine

  // ------------------------------------------------------------ queues

  lemma AppendSlot(r: seq<int>, p: int)
    requires SlotList(r) && 0 <= p < NPROC && p !in r
    ensures SlotList(r + [p])
  {
  }

  lemma RemoveSlot(r: seq<int>, k: nat)
    requires SlotList(r) && k < |r|
    ensures SlotList(Remove(r, k)) && forall p :: p in Remove(r, k) <==> p in r && p != r[k]
  {
    forall p ensures p in Remove(r, k) <==> p in r && p != r[k] {
      if p in r && p != r[k] {
        var i :| 0 <= i < |r| && r[i] == p;
        assert Remove(r, k)[if i < k then i else i - 1] == p;
      }
    }
  }

  lemma MakeRunnableQueued(t: Table, p: int)
    requires Queued(t) && Slot(t, p) && t.procs[p].state != RUNNABLE
    ensures Queued(MakeRunnable(t, p))
  {
    var t', pr := MakeRunnable(t, p), t.procs[p].priority;
    assert Listed(t, pr, p);
    AppendSlot(t.rings[pr], p);
    forall q, i | 0 <= q < 2 && 0 <= i < NPROC ensures Listed(t', q, i) {
      assert Listed(t, q, i);
    }
  }

  /** Changing anything but a runnable process's state and priority keeps the queues. */
  lemma SetProcQueued(t: Table, p: int, proc: Proc)
    requires Queued(t) && Slot(t, p) && proc.priority < 2
    requires (t.procs[p].state != RUNNABLE && proc.state != RUNNABLE)
          || (t.procs[p].state == proc.state == RUNNABLE && t.procs[p].priority == proc.priority)
    ensures Queued(SetProc(t, p, proc))
  {
    var t' := SetProc(t, p, proc);
    forall q, i | 0 <= q < 2 && 0 <= i < NPROC ensures Listed(t', q, i) {
      assert Listed(t, q, i);
    }
  }

  lemma {:induction false} WakeFromQueued(t: Table, chan: int, i: nat)
    requires Queued(t)
    ensures Queued(WakeFrom(t, chan, i))
    decreases |t.procs| - i
  {
    if i < |t.procs| {
      if t.procs[i].state == SLEEPING && t.procs[i].chan == chan {
        MakeRunnableQueued(t, i);
        WakeFromQueued(MakeRunnable(t, i), chan, i + 1);
      } else {
        WakeFromQueued(t, chan, i + 1);
      }
    }
  }

  lemma DisownOneQueued(t: Table, cur: int, init: int, i: nat)
    requires Queued(t) && i < |t.procs|
    ensures Queued(DisownOne(t, cur, init, i))
  {
    if t.procs[i].parent == cur {
      var t1 := SetProc(t, i, t.procs[i].(parent := init));
      SetProcQueued(t, i, t1.procs[i]);
      if t1.procs[i].state == ZOMBIE {
        WakeFromQueued(t1, ProcChan(init), 0);
      }
    }
  }

  lemma {:induction false} DisownQueued(t: Table, cur: int, init: int, i: nat)
    requires Queued(t)
    ensures Queued(Disown(t, cur, init, i))
    decreases |t.procs| - i
  {
    if i < |t.procs| {
      DisownOneQueued(t, cur, init, i);
      DisownQueued(DisownOne(t, cur, init, i), cur, init, i + 1);
    }
  }

  // ------------------------------------------------------------ processors

  /** Processes that were not running and are not now leave the processors alone. */
  lemma StillPlaced(procs: seq<Proc>, procs': seq<Proc>, cpus: seq<int>)
    requires Placed(procs, cpus) && |procs'| == |procs|
    requires forall p :: 0 <= p < |procs| ==> (procs[p].state == RUNNING <==> procs'[p].state == RUNNING)
    ensures Placed(procs', cpus)
  {
  }

  /** The process on processor c stops running. */
  lemma LeavesCpu(procs: seq<Proc>, procs': seq<Proc>, cpus: seq<int>, c: int)
    requires Placed(procs, cpus) && |procs'| == |procs| && 0 <= c < |cpus| && 0 <= cpus[c] < |procs|
    requires procs'[cpus[c]].state != RUNNING
    requires forall p :: 0 <= p < |procs| && p != cpus[c] ==>
      (procs[p].state == RUNNING <==> procs'[p].state == RUNNING)
    ensures Placed(procs', cpus[c := NULL])
  {
    var cpus' := cpus[c := NULL];
    forall p | 0 <= p < |procs'| && procs'[p].state == RUNNING ensures p in cpus' {
      var d :| 0 <= d < |cpus| && cpus[d] == p;
      assert cpus'[d] == p;
    }
  }

  /** A process that was not running starts on the free processor c. */
  lemma TakesCpu(procs: seq<Proc>, cpus: seq<int>, c: int, p: int, proc: Proc)
    requires Placed(procs, cpus) && 0 <= c < |cpus| && cpus[c] == NULL
    requires 0 <= p < |procs| && procs[p].state != RUNNING && proc.state == RUNNING
    ensures Placed(procs[p := proc], cpus[c := p])
  {
    var procs', cpus' := procs[p := proc], cpus[c := p];
    forall i | 0 <= i < |procs'| && procs'[i].state == RUNNING ensures i in cpus' {
      if i == p {
        assert cpus'[c] == p;
      } else {
        var d :| 0 <= d < |cpus| && cpus[d] == i;
        assert cpus'[d] == i;
      }
    }
  }

  // ------------------------------------------------------------ every step

  lemma KeepDispatch(t: Table, c: int)
    requires Inv(t) && Enabled(t, Dispatch(c))
    ensures Inv(DoDispatch(t, c))
  {
    var pq := NextQueue(t);
    var p := t.rings[pq][0];
    var t' := DoDispatch(t, c);
    assert Listed(t, pq, p);
    RemoveSlot(t.rings[pq], 0);
    forall q, i | 0 <= q < 2 && 0 <= i < NPROC ensures Listed(t', q, i) {
      assert Listed(t, q, i);
    }
    TakesCpu(t.procs, t.cpus, c, p, t'.procs[p]);
  }

  /** A runnable process moves from the middle of its queue to the end of the other one. */
  lemma RequeueQueued(t: Table, p: int, prio: nat)
    requires Queued(t) && Enabled(t, SetPrio(p, prio)) && t.procs[p].state == RUNNABLE && t.procs[p].priority != prio
    ensures Queued(DoSetPrio(t, p, prio))
  {
    var t', was := DoSetPrio(t, p, prio), t.procs[p].priority;
    var r := Remove(t.rings[was], IndexOf(t.rings[was], p));
    RemoveSlot(t.rings[was], IndexOf(t.rings[was], p));
    assert Listed(t, prio, p);
    AppendSlot(t.rings[prio], p);
    assert t'.rings[was] == r && t'.rings[prio] == t.rings[prio] + [p];
    assert t'.procs == t.procs[p := t.procs[p].(priority := prio)];
    forall q, i | 0 <= q < 2 && 0 <= i < NPROC ensures Listed(t', q, i) {
      assert Listed(t, q, i);
    }
  }

  lemma KeepSetPrio(t: Table, p: int, prio: nat)
    requires Inv(t) && Enabled(t, SetPrio(p, prio))
    ensures Inv(DoSetPrio(t, p, prio))
  {
    var t' := DoSetPrio(t, p, prio);
    StillPlaced(t.procs, t'.procs, t.cpus);
    if t.procs[p].priority != prio {
      if t.procs[p].state == RUNNABLE {
        RequeueQueued(t, p, prio);
      } else {
        SetProcQueued(t, p, t'.procs[p]);
      }
    }
  }

  lemma KeepExit(t: Table, c: int, status: int, init: int)
    requires Inv(t) && Busy(t, c)
    ensures Inv(DoExit(t, c, status, init))
  {
    var cur := t.cpus[c];
    var t1 := WakeFrom(t, ProcChan(t.procs[cur].parent), 0);
    var t2 := Disown(t1, cur, init, 0);
    WakeFromQueued(t, ProcChan(t.procs[cur].parent), 0);
    DisownQueued(t1, cur, init, 0);
    assert WokenProc(t.procs[cur], t1.procs[cur]);
    assert WokenProc(t1.procs[cur].(parent := t2.procs[cur].parent), t2.procs[cur]);
    var t3 := SetProc(t2, cur, t2.procs[cur].(state := ZOMBIE, status := status));
    SetProcQueued(t2, cur, t3.procs[cur]);
    LeavesCpu(t.procs, t3.procs, t.cpus, c) by {
      forall p | 0 <= p < |t.procs| && p != cur
        ensures t.procs[p].state == RUNNING <==> t3.procs[p].state == RUNNING
      {
        assert WokenProc(t.procs[p], t1.procs[p]);
        assert WokenProc(t1.procs[p].(parent := t2.procs[p].parent), t2.procs[p]);
      }
    }
    assert DoExit(t, c, status, init) == t3.(cpus := t3.cpus[c := NULL]);
    CpusIrrelevant(t3, t3.cpus[c := NULL]);
  }

  lemma CpusIrrelevant(t: Table, cpus: seq<int>)
    requires Queued(t)
    ensures Queued(t.(cpus := cpus))
  {
    forall q, i | 0 <= q < 2 && 0 <= i < NPROC ensures Listed(t.(cpus := cpus), q, i) {
      assert Listed(t, q, i);
    }
  }

  /** The current process stops running and gets a new record that is not runnable. */
  lemma KeepLeave(t: Table, c: int, proc: Proc)
    requires Inv(t) && Busy(t, c) && proc.priority < 2 && proc.state != RUNNABLE && proc.state != RUNNING
    ensures Inv(SetProc(t, t.cpus[c], proc).(cpus := t.cpus[c := NULL]))
  {
    var t1 := SetProc(t, t.cpus[c], proc);
    SetProcQueued(t, t.cpus[c], proc);
    LeavesCpu(t.procs, t1.procs, t.cpus, c);
    CpusIrrelevant(t1, t.cpus[c := NULL]);
  }

  lemma KeepYield(t: Table, c: int)
    requires Inv(t) && Busy(t, c)
    ensures Inv(MakeRunnable(t, t.cpus[c]).(cpus := t.cpus[c := NULL]))
  {
    var t1 := MakeRunnable(t, t.cpus[c]);
    MakeRunnableQueued(t, t.cpus[c]);
    LeavesCpu(t.procs, t1.procs, t.cpus, c);
    CpusIrrelevant(t1, t.cpus[c := NULL]);
  }

  lemma KeepSet(t: Table, p: int, proc: Proc)
    requires Inv(t) && Slot(t, p) && proc.priority < 2
    requires t.procs[p].state != RUNNABLE && t.procs[p].state != RUNNING
    requires proc.state != RUNNABLE && proc.state != RUNNING
    ensures Inv(SetProc(t, p, proc))
  {
    SetProcQueued(t, p, proc);
    StillPlaced(t.procs, SetProc(t, p, proc).procs, t.cpus);
  }

  lemma KeepMakeRunnable(t: Table, p: int)
    requires Inv(t) && Slot(t, p) && t.procs[p].state != RUNNABLE && t.procs[p].state != RUNNING
    ensures Inv(MakeRunnable(t, p))
  {
    MakeRunnableQueued(t, p);
    StillPlaced(t.procs, MakeRunnable(t, p).procs, t.cpus);
  }

  lemma KeepWakeup(t: Table, chan: int)
    requires Inv(t)
    ensures Inv(WakeFrom(t, chan, 0))
  {
    WakeFromQueued(t, chan, 0);
    var t' := WakeFrom(t, chan, 0);
    StillPlaced(t.procs, t'.procs, t.cpus) by {
      forall p | 0 <= p < |t.procs| ensures t.procs[p].state == RUNNING <==> t'.procs[p].state == RUNNING {
        assert WokenProc(t.procs[p], t'.procs[p]);
      }
    }
  }

  lemma KeepKill(t: Table, p: int)
    requires Inv(t) && Slot(t, p)
    ensures Inv(Do(t, Kill(p)))
  {
    var t1 := SetProc(t, p, t.procs[p].(killed := true));
    SetProcQueued(t, p, t1.procs[p]);
    StillPlaced(t.procs, t1.procs, t.cpus);
    if t.procs[p].state == SLEEPING {
      KeepMakeRunnable(t1, p);
    }
  }

  lemma KeepAlloc(t: Table, p: int)
    requires Inv(t) && Slot(t, p) && t.procs[p].state == UNUSED
    ensures Inv(Do(t, Alloc(p)))
  {
    var t1 := SetProc(t, p, t.procs[p].(state := EMBRYO, pid := t.nextpid));
    KeepSet(t, p, t1.procs[p]);
    var t2 := t1.(nextpid := t.nextpid + 1);
    forall q, i | 0 <= q < 2 && 0 <= i < NPROC ensures Listed(t2, q, i) {
      assert Listed(t1, q, i);
    }
  }

  lemma KeepStart(t: Table, p: int, prio: nat)
    requires Inv(t) && Enabled(t, Start(p, prio))
    ensures Inv(Do(t, Start(p, prio)))
  {
    var t1 := SetProc(t, p, t.procs[p].(priority := prio));
    KeepSet(t, p, t1.procs[p]);
    KeepMakeRunnable(t1, p);
  }

  lemma KeepStep(t: Table, step: Step)
    requires Inv(t) && Enabled(t, step)
    ensures Inv(Do(t, step))
  {
    match step
    case Alloc(p) => KeepAlloc(t, p);
    case Abandon(p) => KeepSet(t, p, t.procs[p].(state := UNUSED));
    case Adopt(p, parent) => KeepSet(t, p, t.procs[p].(parent := parent));
    case Start(p, prio) => KeepStart(t, p, prio);
    case Dispatch(c) => KeepDispatch(t, c);
    case Yield(c) => KeepYield(t, c);
    case Sleep(c, chan) => KeepLeave(t, c, t.procs[t.cpus[c]].(state := SLEEPING, chan := chan));
    case Wakeup(chan) => KeepWakeup(t, chan);
    case Exit(c, status, init) => KeepExit(t, c, status, init);
    case Reap(p) => KeepSet(t, p, Do(t, step).procs[p]);
    case Kill(p) => KeepKill(t, p);
    case SetPrio(p, prio) => KeepSetPrio(t, p, prio);
  }

  // ------------------------------------------------------------ whole runs

  datatype Run = Run(tables: seq<Table>, steps: seq<Step>)

  /** The table at boot: all slots zero, no process, idle processors. */
  ghost predicate Boot(t: Table) {
    && |t.procs| == NPROC && t.rings == [[], []] && t.nextpid == 1
    && (forall p :: 0 <= p < NPROC ==> t.procs[p] == Proc(UNUSED, 0, NULL, 0, false, 0, HI_PRIO))
    && (forall c :: 0 <= c < |t.cpus| ==> t.cpus[c] == NULL)
  }

  ghost predicate IsRun(r: Run) {
    && |r.tables| == |r.steps| + 1 && Boot(r.tables[0])
    && forall i {:trigger StepAt(r, i)} :: 0 <= i < |r.steps| ==> StepAt(r, i)
  }

  ghost predicate StepAt(r: Run, i: nat)
    requires i < |r.steps| && |r.tables| == |r.steps| + 1
  {
    Follows(r.tables[i], r.steps[i], r.tables[i + 1])
  }

  ghost predicate Follows(t: Table, step: Step, t': Table) {
    Shaped(t) && Enabled(t, step) && t' == Do(t, step)
  }

  lemma BootInv(t: Table)
    requires Boot(t)
    ensures Inv(t)
  {
    forall q, p | 0 <= q < 2 && 0 <= p < NPROC ensures Listed(t, q, p) {
      assert t.procs[p].state == UNUSED;
    }
  }

  /** At every lock-free point: runnable means queued once, in the right queue; running means on one processor. */
  lemma {:induction false} InvAlongRun(r: Run, i: nat)
    requires IsRun(r) && i < |r.tables|
    ensures Inv(r.tables[i])
  {
    if i == 0 {
      BootInv(r.tables[0]);
    } else {
      InvAlongRun(r, i - 1);
      assert StepAt(r, i - 1);
      KeepStep(r.tables[i - 1], r.steps[i - 1]);
    }
  }

  // ------------------------------------------------------------ dispatch order

  predicate InQueue(t: Table, q: nat, p: int) {
    q < |t.rings| && p in t.rings[q]
  }

  function Position(t: Table, q: nat, p: int): nat
    requires InQueue(t, q, p)
  {
    IndexOf(t.rings[q], p)
  }

  /** The step takes a process from queue q. */
  ghost predicate TakesFrom(t: Table, step: Step, q: nat) {
    step.Dispatch? && |t.rings| == 2 && NextQueue(t) == q
  }

  ghost predicate Dispatches(t: Table, step: Step, p: int) {
    step.Dispatch? && |t.rings| == 2 && t.rings[NextQueue(t)] != [] && t.rings[NextQueue(t)][0] == p
  }

  lemma PrefixPosition(r: seq<int>, r': seq<int>, p: int)
    requires SlotList(r') && r <= r' && p in r
    ensures p in r' && IndexOf(r', p) == IndexOf(r, p)
  {
    var k := IndexOf(r, p);
    assert r'[k] == p;
  }

  lemma RemovePosition(r: seq<int>, k: nat, p: int)
    requires SlotList(r) && k < |r| && p in r && p != r[k]
    ensures p in Remove(r, k)
    ensures IndexOf(Remove(r, k), p) == IndexOf(r, p) - (if k < IndexOf(r, p) then 1 else 0)
  {
    RemoveSlot(r, k);
    var i := IndexOf(r, p);
    assert Remove(r, k)[if i < k then i else i - 1] == p;
  }

  /** Steps other than a dispatch or a change of priority only add to the end of queues. */
  lemma QueuesGrow(t: Table, step: Step, q: nat)
    requires Inv(t) && Enabled(t, step) && !step.Dispatch? && !step.SetPrio? && q < 2
    ensures t.rings[q] <= Do(t, step).rings[q]
  {
  }

  /** A process leaves its queue only by being dispatched or by changing priority. */
  lemma HowProcessesMove(t: Table, step: Step, q: nat, p: int)
    requires Inv(t) && Enabled(t, step) && q < 2 && InQueue(t, q, p)
    requires !Dispatches(t, step, p) && !(step.SetPrio? && step.p == p)
    ensures InQueue(Do(t, step), q, p)
    ensures Position(Do(t, step), q, p) <= Position(t, q, p)
    ensures TakesFrom(t, step, q) ==> Position(Do(t, step), q, p) == Position(t, q, p) - 1
  {
    KeepStep(t, step);
    var t' := Do(t, step);
    if step.Dispatch? {
      if NextQueue(t) == q {
        RemovePosition(t.rings[q], 0, p);
      }
    } else if step.SetPrio? {
      if t.procs[step.p].priority == q && t.procs[step.p].state == RUNNABLE && step.prio != q {
        RemovePosition(t.rings[q], IndexOf(t.rings[q], step.p), p);
      } else {
        assert t.rings[q] <= t'.rings[q];
        PrefixPosition(t.rings[q], t'.rings[q], p);
      }
    } else {
      QueuesGrow(t, step, q);
      PrefixPosition(t.rings[q], t'.rings[q], p);
    }
  }

  /** Dispatches from queue q among steps i, ..., j-1. */
  ghost function Taken(r: Run, q: nat, i: nat, j: nat): nat
    requires i <= j <= |r.steps| < |r.tables|
  {
    if i == j then 0 else Taken(r, q, i, j - 1) + (if TakesFrom(r.tables[j - 1], r.steps[j - 1], q) then 1 else 0)
  }

  /** p is neither dispatched nor given another priority in steps i, ..., j-1. */
  ghost predicate Waits(r: Run, p: int, i: nat, j: nat)
    requires i <= j <= |r.steps| < |r.tables|
  {
    forall k :: i <= k < j ==> !Dispatches(r.tables[k], r.steps[k], p) && !(r.steps[k].SetPrio? && r.steps[k].p == p)
  }

  /**
   First come, first served: while a process waits at position n of its queue, at most n
   others are dispatched from that queue, even when setprio removes some from the middle.
   */
  lemma {:induction false} BoundedWait(r: Run, q: nat, p: int, i: nat, j: nat)
    requires IsRun(r) && q < 2 && i <= j <= |r.steps| && InQueue(r.tables[i], q, p) && Waits(r, p, i, j)
    ensures InQueue(r.tables[j], q, p)
    ensures Taken(r, q, i, j) + Position(r.tables[j], q, p) <= Position(r.tables[i], q, p)
  {
    if i < j {
      var k := j - 1;
      BoundedWait(r, q, p, i, k);
      InvAlongRun(r, k);
      assert StepAt(r, k);
      HowProcessesMove(r.tables[k], r.steps[k], q, p);
    }
  }

  /** So more than n dispatches from its queue include the process itself. */
  lemma DispatchedInTime(r: Run, q: nat, p: int, i: nat, j: nat)
    requires IsRun(r) && q < 2 && i <= j <= |r.steps| && InQueue(r.tables[i], q, p)
    requires Taken(r, q, i, j) > Position(r.tables[i], q, p)
    requires forall k :: i <= k < j ==> !(r.steps[k].SetPrio? && r.steps[k].p == p)
    ensures exists k :: i <= k < j && Dispatches(r.tables[k], r.steps[k], p)
  {
    if Waits(r, p, i, j) {
      BoundedWait(r, q, p, i, j);
    }
  }

  /**
   A process that is killed does not sleep on: if it slept, it is at the end of its queue, and is
   passed by no more processes than were there before it.
   */
  lemma KilledWakes(r: Run, i: nat, j: nat, p: int)
    requires IsRun(r) && i < j <= |r.steps| && r.steps[i] == Kill(p)
    ensures |r.tables[i].procs| == |r.tables[i + 1].procs| == NPROC && 0 <= p < NPROC
    ensures r.tables[i + 1].procs[p].killed && r.tables[i + 1].procs[p].state != SLEEPING
    ensures r.tables[i].procs[p].state == SLEEPING ==>
      var q := r.tables[i].procs[p].priority;
      && q < 2 && |r.tables[i].rings| == 2 && r.tables[i + 1].procs[p].state == RUNNABLE
      && InQueue(r.tables[i + 1], q, p) && Position(r.tables[i + 1], q, p) == |r.tables[i].rings[q]|
      && (Waits(r, p, i + 1, j) ==> Taken(r, q, i + 1, j) <= |r.tables[i].rings[q]|)
  {
    InvAlongRun(r, i);
    InvAlongRun(r, i + 1);
    assert StepAt(r, i);
    var t := r.tables[i];
    if t.procs[p].state == SLEEPING {
      var q := t.procs[p].priority;
      assert Listed(t, q, p);
      LastPosition(t.rings[q], p);
      if Waits(r, p, i + 1, j) {
        BoundedWait(r, q, p, i + 1, j);
      }
    }
  }

  lemma {:induction false} LastPosition(r: seq<int>, p: int)
    requires p !in r
    ensures IndexOf(r + [p], p) == |r|
  {
    if r != [] {
      assert (r + [p])[1..] == r[1..] + [p];
      LastPosition(r[1..], p);
    }
  }

  // -------------------------------------------------------------------- process ids

  ghost predicate PidOk(t: Table, p: nat)
    requires p < |t.procs|
  {
    0 <= t.procs[p].pid < t.nextpid && (t.procs[p].state != UNUSED ==> t.procs[p].pid > 0)
  }

  ghost predicate PidsApart(t: Table, p: nat, q: nat)
    requires p < |t.procs| && q < |t.procs|
  {
    t.procs[p].pid == t.procs[q].pid ==> t.procs[p].pid == 0
  }

  /** Ids of processes are below nextpid and distinct; 0 is the id of slots that are not used. */
  ghost predicate Pids(t: Table) {
    && |t.procs| == NPROC && (forall p :: 0 <= p < NPROC ==> PidOk(t, p))
    && (forall p, q :: 0 <= p < q < NPROC ==> PidsApart(t, p, q))
  }

  /** Slot p keeps its id, is freed, or gets the next one. */
  lemma PidStep(t: Table, step: Step, p: nat)
    requires Inv(t) && Enabled(t, step) && p < NPROC
    ensures var t' := Do(t, step);
            && |t'.procs| == NPROC && t'.nextpid == t.nextpid + (if step.Alloc? then 1 else 0)
            && t'.procs[p].pid ==
                 (if step == Alloc(p) then t.nextpid else if step == Reap(p) then 0 else t.procs[p].pid)
            && (t'.procs[p].state != UNUSED ==> t.procs[p].state != UNUSED || step == Alloc(p))
  {
    if step.Exit? {
      var cur := t.cpus[step.c];
      var t1 := WakeFrom(t, ProcChan(t.procs[cur].parent), 0);
      var t2 := Disown(t1, cur, step.init, 0);
      assert WokenProc(t.procs[p], t1.procs[p]) && WokenProc(t1.procs[p].(parent := t2.procs[p].parent), t2.procs[p]);
      assert Do(t, step) == DoExit(t, step.c, step.status, step.init) && t.procs[cur].state == RUNNING;
      assert t2.nextpid == t1.nextpid == t.nextpid;
    } else if step.Wakeup? {
      assert WokenProc(t.procs[p], WakeFrom(t, step.chan, 0).procs[p]);
    } else if step.Dispatch? {
      assert Listed(t, NextQueue(t), t.rings[NextQueue(t)][0]);
    } else if step.Yield? || step.Sleep? {
      assert t.procs[t.cpus[step.c]].state == RUNNING;
    }
  }

  lemma KeepPids(t: Table, step: Step)
    requires Inv(t) && Pids(t) && Enabled(t, step)
    ensures Pids(Do(t, step))
  {
    var t' := Do(t, step);
    forall p | 0 <= p < NPROC ensures |t'.procs| == NPROC && PidOk(t', p) {
      PidStep(t, step, p);
      assert PidOk(t, p);
    }
    forall p, q | 0 <= p < q < NPROC ensures PidsApart(t', p, q) {
      PidStep(t, step, p);
      PidStep(t, step, q);
      assert PidOk(t, p) && PidOk(t, q) && PidsApart(t, p, q);
    }
  }

  lemma {:induction false} PidsAlongRun(r: Run, i: nat)
    requires IsRun(r) && i < |r.tables|
    ensures Pids(r.tables[i])
  {
    if i > 0 {
      var k := i - 1;
      PidsAlongRun(r, k);
      InvAlongRun(r, k);
      assert StepAt(r, k);
      KeepPids(r.tables[k], r.steps[k]);
    }
  }

  /** So kill, setprio and wait by id have one target at every point of every run. */
  lemma OneTarget(r: Run, i: nat, p: nat, q: nat)
    requires IsRun(r) && i < |r.tables| && p < |r.tables[i].procs| && q < |r.tables[i].procs|
    requires r.tables[i].procs[p].pid == r.tables[i].procs[q].pid && r.tables[i].procs[p].state != UNUSED
    ensures p == q
  {
    PidsAlongRun(r, i);
    var t := r.tables[i];
    assert PidOk(t, p) && (p < q ==> PidsApart(t, p, q)) && (q < p ==> PidsApart(t, q, p));
  }

  /** No process of normal priority is dispatched while one of high priority is runnable. */
  lemma HighPriorityFirst(r: Run, i: nat, p: int)
    requires IsRun(r) && i < |r.steps| && Dispatches(r.tables[i], r.steps[i], p)
    ensures 0 <= p < |r.tables[i].procs| == NPROC && r.tables[i].procs[p].state == RUNNABLE
    ensures var procs := r.tables[i].procs;
            (exists h :: 0 <= h < NPROC && procs[h].state == RUNNABLE && procs[h].priority == HI_PRIO)
            ==> procs[p].priority == HI_PRIO
  {
    InvAlongRun(r, i);
    var t := r.tables[i];
    assert Listed(t, NextQueue(t), p);
    if h :| 0 <= h < NPROC && t.procs[h].state == RUNNABLE && t.procs[h].priority == HI_PRIO {
      assert Listed(t, HI_PRIO, h);
    }
  }

  // ------------------------------------------------------------ exit status

  lemma ZombieStays(t: Table, step: Step, p: int)
    requires Inv(t) && Enabled(t, step) && step != Reap(p) && 0 <= p < NPROC && t.procs[p].state == ZOMBIE
    ensures var t' := Do(t, step);
            && t'.procs[p].state == ZOMBIE && t'.procs[p].status == t.procs[p].status
            && t'.procs[p].pid == t.procs[p].pid
  {
    if step.Exit? {
      var cur := t.cpus[step.c];
      var t1 := WakeFrom(t, ProcChan(t.procs[cur].parent), 0);
      var t2 := Disown(t1, cur, step.init, 0);
      assert WokenProc(t.procs[p], t1.procs[p]);
      assert WokenProc(t1.procs[p].(parent := t2.procs[p].parent), t2.procs[p]);
    } else if step.Wakeup? {
      assert WokenProc(t.procs[p], Do(t, step).procs[p]);
    } else if step.Dispatch? {
      assert Listed(t, NextQueue(t), t.rings[NextQueue(t)][0]);
    }
  }

  ghost predicate ZombieWith(t: Table, p: int, status: int, pid: int) {
    0 <= p < |t.procs| == NPROC && t.procs[p].state == ZOMBIE && t.procs[p].status == status && t.procs[p].pid == pid
  }

  lemma ZombieStep(r: Run, k: nat, p: int, status: int, pid: int)
    requires IsRun(r) && k < |r.steps| && r.steps[k] != Reap(p) && ZombieWith(r.tables[k], p, status, pid)
    ensures ZombieWith(r.tables[k + 1], p, status, pid)
  {
    InvAlongRun(r, k);
    assert StepAt(r, k);
    ZombieStays(r.tables[k], r.steps[k], p);
    KeepStep(r.tables[k], r.steps[k]);
  }

  lemma ZombieStart(r: Run, i: nat)
    requires IsRun(r) && i < |r.steps| && r.steps[i].Exit? && Busy(r.tables[i], r.steps[i].c)
    ensures var p := r.tables[i].cpus[r.steps[i].c];
            && 0 <= p < |r.tables[i].procs|
            && ZombieWith(r.tables[i + 1], p, r.steps[i].status, r.tables[i].procs[p].pid)
  {
    InvAlongRun(r, i);
    assert StepAt(r, i);
    ExitMakesZombie(r.tables[i], r.steps[i].c, r.steps[i].status, r.steps[i].init);
  }

  /** wait hands out the status that the child passed to exit. */
  lemma {:induction false} WaitGetsExitStatus(r: Run, i: nat, j: nat)
    requires IsRun(r) && i < j < |r.tables| && r.steps[i].Exit? && Busy(r.tables[i], r.steps[i].c)
    requires forall k :: i < k < j ==> r.steps[k] != Reap(r.tables[i].cpus[r.steps[i].c])
    ensures var p := r.tables[i].cpus[r.steps[i].c];
            && 0 <= p < |r.tables[i].procs|
            && ZombieWith(r.tables[j], p, r.steps[i].status, r.tables[i].procs[p].pid)
  {
    ZombieStart(r, i);
    if j > i + 1 {
      WaitGetsExitStatus(r, i, j - 1);
      var p := r.tables[i].cpus[r.steps[i].c];
      ZombieStep(r, j - 1, p, r.steps[i].status, r.tables[i].procs[p].pid);
    }
  }

  lemma ExitMakesZombie(t: Table, c: int, status: int, init: int)
    requires Inv(t) && Busy(t, c)
    ensures var p, t' := t.cpus[c], DoExit(t, c, status, init);
            && |t'.procs| == NPROC && 0 <= p < NPROC
            && t'.procs[p].state == ZOMBIE && t'.procs[p].status == status && t'.procs[p].pid == t.procs[p].pid
  {
    var p := t.cpus[c];
    var t1 := WakeFrom(t, ProcChan(t.procs[p].parent), 0);
    var t2 := Disown(t1, p, init, 0);
    assert WokenProc(t.procs[p], t1.procs[p]);
    assert WokenProc(t1.procs[p].(parent := t2.procs[p].parent), t2.procs[p]);
  }
}
